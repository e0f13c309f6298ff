# LeapNLost scene bookkeeping in Dafny

This project models the `Scene` class of LeapNLost, a lane-based (Frogger-style)
3D game. The scene owns four things:

- the list of game objects (the player, the theme's obstacles, coins and the
  level-ending memory fragment);
- the ground tiles, `tilesPerRow` per row and stored row-major. `Level.swift`,
  which defines `tilesPerRow`, is not part of this model; the value 14 is
  inferred from the comment at Scene.swift:210, which caps the coin column at 12
  for draws below `tilesPerRow - 2`;
- the collision dictionary, which maps a row index to the objects on that row;
- the run's score and elapsed time.

The scene has five operations. `getTile` looks a tile up by row and column.
`loadLevel` turns a parsed level into objects, tiles and buckets, places the
coins and the memory fragment, and puts the player on the starting tile.
`spawnCoins` removes every coin and puts one new coin on every third row.
`restartLevel` sets score and time back to zero, resets the player and
respawns the coins. `update` recomputes in-view flags, steps the objects unless
paused, latches game-over at row 30 and accumulates elapsed time.

Layout:

- `options.dfy`: an `Option` type.
- `levels.dfy` (module `Levels`): the parsed level, the theme switch, and the
  row-by-row concatenation used to lay out tiles.
- `entities.dfy` (module `Entities`): tiles and the `GameObject` class. Objects
  are shared by reference between the list and the buckets. The module also
  holds the coin filter `removeAll(where: { $0 is Coin })` and its laws.
- `timing.dfy` (module `Timing`): the end-of-frame clock rule (game-over latch
  and elapsed time) over one frame and over a run of frames.
- `scene.dfy` (module `Scenes`): the `Scene` class.

The invariant `Valid()` holds across every operation. It says four things:

- `gameObjects[0]` is the player;
- the tiles are row-major, so tile (r, c) sits at index `14*r + c`;
- the dictionary has exactly one bucket per row index;
- the buckets and the list agree. Every object in a bucket is listed and is not
  the player. Every coin or fragment sits in the bucket of its own row.

Theme row generators, the random column draws and the parsed level data are
parameters of the model:

- `rowObjects[r]` and `rowTiles[r]` are what the theme's `parseRowObjects` and
  `parseRowTiles` return for row `r`;
- `draws[r]` is the `Int.random(in: 2..<tilesPerRow - 2)` drawn for row `r`;
- `data` is the result of `parseJSON(readLevel(...))`.

Two points where the model states the code's behaviour explicitly:

- A coin's column is `tilesPerRow - r` with `r` in `[2, tilesPerRow - 2)`, so the
  column lies in `[3, tilesPerRow - 2]`, i.e. 3 to 12. The comment at
  Scene.swift:210 says 2 to 12, but column 2 never receives a coin.
- An unrecognised theme makes the source print an error and later trap on a
  force-unwrap. A level without rows traps at `getTile(row: -1, ...)!`. The
  model reports both as an explicit failure instead of trapping.

## Model

| member | source | states |
|---|---|---|
| Levels.SelectTheme | LeapNLost/LeapNLost/Engine/Scene/Scene.swift:122-131 | A theme is selected exactly when the name is "City", "Jungle" or "Lab". Each of those names selects its own theme. Every other name selects none. |
| Levels.FlattenAt | LeapNLost/LeapNLost/Engine/Scene/Scene.swift:137-150 | If each row yields `TilesPerRow` tiles, appending them row by row gives `rows*TilesPerRow` tiles. Index `TilesPerRow*r + c` holds tile c of row r, which is the layout `getTile` relies on. |
| Levels.FlattenLength | LeapNLost/LeapNLost/Engine/Scene/Scene.swift:149 | Appending full rows gives `rows * TilesPerRow` tiles. |
| Levels.FlattenMember | LeapNLost/LeapNLost/Engine/Scene/Scene.swift:141-148 | An object is in the appended object list exactly when it is in some row's generated objects. |
| Levels.FlattenSnoc | LeapNLost/LeapNLost/Engine/Scene/Scene.swift:148-149 | One more loop iteration appends that row's elements after everything appended so far. |
| Levels.RowKeysCount | LeapNLost/LeapNLost/Engine/Scene/Scene.swift:203 | A dictionary keyed exactly by `0..<n` has `count == n`, so the loop over `0..<collisionDictionary.count` visits every row's bucket and unwraps only existing keys. |
| Entities.GameObject.constructor | LeapNLost/LeapNLost/Engine/Scene/Scene.swift:156 | A new object has the given kind, row and position. It is in view, has taken no step, and is alive and not game-over. |
| Entities.GameObject.Update | LeapNLost/LeapNLost/Engine/Scene/Scene.swift:241 | One `update(delta:)` call: the object takes exactly one step and nothing else changes. |
| Entities.GameObject.TeleportTo | LeapNLost/LeapNLost/Engine/Scene/Scene.swift:182 | `teleportToTarget`: the object's position becomes the tile's position. |
| Entities.GameObject.Reset | LeapNLost/LeapNLost/Engine/Scene/Scene.swift:192 | The player's reset clears the row counter and the dead and game-over flags. |
| Entities.WithoutCoins | LeapNLost/LeapNLost/Engine/Scene/Scene.swift:202 | `removeAll(where: { $0 is Coin })`: the result holds no coin and is no longer than the input. A leading non-coin is kept in front. |
| Entities.WithoutCoinsMember | LeapNLost/LeapNLost/Engine/Scene/Scene.swift:202 | An object stays after coin removal exactly when it was there and is not a coin. |
| Entities.WithoutCoinsAppend | LeapNLost/LeapNLost/Engine/Scene/Scene.swift:202 | Removing coins from a concatenation is removing them from each part, so non-coins keep their relative order. |
| Entities.WithoutCoinsIdempotent | LeapNLost/LeapNLost/Engine/Scene/Scene.swift:202 | Removing coins twice is removing them once. |
| Entities.WithoutCoinsOfCoinFree | LeapNLost/LeapNLost/Engine/Scene/Scene.swift:202-205 | A list or bucket without coins is left unchanged by the removal. |
| Entities.WithoutCoinsOfAllCoins | LeapNLost/LeapNLost/Engine/Scene/Scene.swift:202 | Nothing of a list of coins survives the removal. |
| Entities.OnRow | LeapNLost/LeapNLost/Engine/Scene/Scene.swift:214 | The objects of a list placed on row k are objects of the list, each on row k. |
| Entities.OnRowMember | LeapNLost/LeapNLost/Engine/Scene/Scene.swift:214 | Every object of the list placed on row k is among them. |
| Entities.OnRowSnoc | LeapNLost/LeapNLost/Engine/Scene/Scene.swift:213-214 | Appending a coin adds it to the row-k selection exactly for its own row k. |
| Entities.CoinsOf | LeapNLost/LeapNLost/Engine/Scene/Scene.swift:200-217 | The coins of a list are no more than the list's length, and all are coins. |
| Entities.CoinsOfMember | LeapNLost/LeapNLost/Engine/Scene/Scene.swift:202-213 | An object is among the coins of a list exactly when it is in the list and is a coin, so the coins present after a respawn are exactly the new ones. |
| Entities.CoinsOfAppend | LeapNLost/LeapNLost/Engine/Scene/Scene.swift:213 | The coins of a concatenation are the coins of each part, in order. |
| Entities.CoinsOfAllCoins | LeapNLost/LeapNLost/Engine/Scene/Scene.swift:213 | A list of coins is its own coin list. |
| Entities.CoinsOfCoinFree | LeapNLost/LeapNLost/Engine/Scene/Scene.swift:202 | A list with the coins removed has no coins. |
| Entities.ReplacedCoins | LeapNLost/LeapNLost/Engine/Scene/Scene.swift:200-217 | Remove every coin and then append the new coins. The coins present are then exactly the new ones, so no old coin survives, and the non-coins are unchanged. |
| Timing.Tick | LeapNLost/LeapNLost/Engine/Scene/Scene.swift:247-253 | A game-over clock is left alone. Row >= 30 sets game-over without adding time on that frame. A dead player adds no time. Otherwise the flag stays clear, and the elapsed time grows by delta if the player is alive. |
| Timing.RunAppend | LeapNLost/LeapNLost/Engine/Scene/Scene.swift:247-253 | Running two sequences of frames one after the other is running their concatenation. |
| Timing.GameOverIsFinal | LeapNLost/LeapNLost/Engine/Scene/Scene.swift:247-249 | Once game-over, no later frame clears the flag or changes the elapsed time. |
| Timing.GameOverExactlyWhenRowReached | LeapNLost/LeapNLost/Engine/Scene/Scene.swift:247-249 | Starting before game-over, a run ends game-over exactly when some frame saw row >= 30. |
| Timing.TimeStopsAtGameOverRow | LeapNLost/LeapNLost/Engine/Scene/Scene.swift:247-253 | From the first frame at row >= 30 on, the elapsed time stays at what it read before that frame. |
| Timing.TimeNeverDecreases | LeapNLost/LeapNLost/Engine/Scene/Scene.swift:251-253 | With non-negative frame times the elapsed time never decreases. |
| Scenes.InView | LeapNLost/LeapNLost/Engine/Scene/Scene.swift:232-238 | An object is in view exactly when its z is within 50 of the player's z. |
| Scenes.CoinColumn | LeapNLost/LeapNLost/Engine/Scene/Scene.swift:210-212 | For a draw in `[2, tilesPerRow-2)`, the coin column `tilesPerRow - draw` lies in `[3, tilesPerRow-2]`. Column plus draw is `tilesPerRow`. |
| Scenes.CoinRowCountIsCeiling | LeapNLost/LeapNLost/Engine/Scene/Scene.swift:208-209 | The number of rows among `0..<n` divisible by 3 is `(n + 2) / 3`, i.e. n/3 rounded up. |
| Scenes.LoadedTilesShaped | LeapNLost/LeapNLost/Engine/Scene/Scene.swift:137-150 | The theme's tiles, appended row by row, are laid out row-major over `rows * tilesPerRow` entries. |
| Scenes.LoadedIndexed | LeapNLost/LeapNLost/Engine/Scene/Scene.swift:137-150 | After the row loop, the player plus the obstacles agree with buckets holding each row's objects. Neither the list nor any bucket holds a coin. |
| Scenes.AddedPickupKeepsIndexed | LeapNLost/LeapNLost/Engine/Scene/Scene.swift:165-166 | Appending a pickup to the list and to the bucket of its row keeps the list and the buckets in agreement. |
| Scenes.RespawnKeepsIndexed | LeapNLost/LeapNLost/Engine/Scene/Scene.swift:200-217 | Remove the coins from the list and from every bucket, then add each new coin to the list and to the bucket of its row. The list and the buckets still agree, and no bucket keeps a removed coin. |
| Scenes.PlacedInBucket | LeapNLost/LeapNLost/Engine/Scene/Scene.swift:213-214 | Appending a coin to its own row's bucket keeps every bucket equal to its starting contents followed by the coins placed on its row. |
| Scenes.RespawnedKeptPickup | LeapNLost/LeapNLost/Engine/Scene/Scene.swift:202-205 | A fragment that survives the coin removal is still in the bucket of its row. |
| Scenes.Scene.constructor | LeapNLost/LeapNLost/Engine/Scene/Scene.swift:66-97 | A new scene holds only the player. It has no tiles, no buckets and no rows; area and level are -1, score and time 0, and it is not paused. |
| Scenes.Scene.GetTile | LeapNLost/LeapNLost/Engine/Scene/Scene.swift:102-109 | A tile is returned exactly when `0 <= row < rows` and `0 <= column < tilesPerRow`. It is `tiles[tilesPerRow*row + column]`, and its row and column are the ones asked for. |
| Scenes.Scene.StripCoinsFromBuckets | LeapNLost/LeapNLost/Engine/Scene/Scene.swift:203-205 | Every bucket loses its coins and keeps its other objects in order. The key set is unchanged. |
| Scenes.Scene.PlaceCoins | LeapNLost/LeapNLost/Engine/Scene/Scene.swift:208-216 | There is one new coin per row index divisible by 3, the j-th on row 3j. It sits on that row's tile in the drawn column and is appended to the list and to that row's bucket. |
| Scenes.Scene.AddPickup | LeapNLost/LeapNLost/Engine/Scene/Scene.swift:212-214 | A new object of the given kind, row and position is appended to the list and to the bucket of its row. Every other bucket and the key set are unchanged. The fragment at lines 156-166 is added the same way. |
| Scenes.Scene.SpawnCoins | LeapNLost/LeapNLost/Engine/Scene/Scene.swift:200-217 | `spawnCoins` keeps `Valid()` and yields `list == WithoutCoins(old list) ++ coins`. Each bucket becomes `WithoutCoins(old bucket) ++` its row's coins. The coins present are exactly the new ones, ceil(rows/3) of them, each on its tile and in its column. |
| Scenes.Scene.LoadLevel | LeapNLost/LeapNLost/Engine/Scene/Scene.swift:116-183 | An unknown theme, or a level without rows, fails and changes nothing. Otherwise see the next row. |
| Scenes.Scene.Populate | LeapNLost/LeapNLost/Engine/Scene/Scene.swift:133-182 | The tiles are the row tiles in order, and `getTile(r, c)` is row r's tile c. The list is player ++ row objects ++ coins ++ fragment. Bucket k is row k's objects ++ its coins, with the fragment appended for the last row. The fragment sits on the middle tile of the last row, and the player on the middle tile of row 0. |
| Scenes.Scene.FillRows | LeapNLost/LeapNLost/Engine/Scene/Scene.swift:133-153 | The level is taken over. The tiles are the row tiles in order, and `getTile(r, c)` is row r's tile c. The list is player ++ row objects ++ the new coins, and bucket k is row k's objects followed by its coins. The coins lie one per third row on their drawn tiles. `Valid()` holds. |
| Scenes.Scene.LoadRows | LeapNLost/LeapNLost/Engine/Scene/Scene.swift:133-150 | The level, area and level number are taken over, and the rows are loaded as by `AppendRows`. `Valid()` holds afterwards, and neither the list nor any bucket holds a coin. |
| Scenes.Scene.AppendRows | LeapNLost/LeapNLost/Engine/Scene/Scene.swift:137-150 | Starting from a scene holding only the player, the list ends as player ++ each row's objects in row order and the tiles as each row's tiles in row order. There is one bucket per row index, holding exactly that row's objects. |
| Scenes.Scene.PlaceFragmentAndPlayer | LeapNLost/LeapNLost/Engine/Scene/Scene.swift:155-182 | The memory fragment sits on tile (last row, tilesPerRow/2). It is appended to the list and to the last row's bucket, and every other bucket is unchanged. The player then stands on tile (0, tilesPerRow/2). `Valid()` still holds. |
| Scenes.Scene.RestartLevel | LeapNLost/LeapNLost/Engine/Scene/Scene.swift:189-194 | Score and time are reset to 0 and the player is reset. The coins are respawned as by `SpawnCoins`: the list is the old non-coins in their order followed by the new coins, and each bucket is its old non-coins followed by its row's new coins. The coins present are exactly the new ones, every listed object is either an old one or a new coin, and the tiles are unchanged. |
| Scenes.Scene.UpdateObjects | LeapNLost/LeapNLost/Engine/Scene/Scene.swift:229-243 | Every object's in-view flag is set by the ±50 window, whether or not the scene is paused. Each object takes one step per listing unless paused. Nothing else changes. |
| Scenes.Scene.UpdateObject | LeapNLost/LeapNLost/Engine/Scene/Scene.swift:231-242 | One turn of the loop: the object's in-view flag is set by the ±50 window, and it takes one step unless the scene is paused. Nothing else changes. |
| Scenes.Scene.Update | LeapNLost/LeapNLost/Engine/Scene/Scene.swift:223-255 | The frame does the object loop above and then applies the clock rule `Tick` to (time, game-over) using the player's row and dead flag. `Valid()` holds. |

## Left out

- Camera projection and tracking (Scene.swift:39, 88-93, 227, 245): floating-point matrix code and graphics calls.
- Lights and the night setup (Scene.swift:18-24, 86, 168-179): rendering only.
- Mesh and texture loading, the player profile, and the ship model on level 3-5 (Scene.swift:78-82, 158-163): asset and file I/O.
- `saveScoreToScoreboard` (Scene.swift:257-265): profile file I/O and a scoreboard insertion whose source is not part of this model.
- `readLevel`/`parseJSON` and the themes' `parseRowObjects`/`parseRowTiles` are not part of this model. Their results are parameters, and the theme contract is the precondition `ThemeOutput`: 14 tiles per row with their own row and column, and obstacles only.
- `Int.random` (Scene.swift:211) is a parameter `draws`, one draw per row, each in `[2, tilesPerRow - 2)`.
- The vertical coordinate and the `Vector3(0, 2, 0)` lift of coins and the fragment: positions are (x, z) only.
- `Float` arithmetic is modelled with `real`, so rounding of `totalTime` is not captured.
- Scenes.Scene.LoadLevel: an unknown theme, or a level without rows, is reported as a failure with the scene unchanged. The source traps on a force-unwrap instead (line 141 for the theme, line 156 for the rows), after it has already replaced `level`, `currLevel` and `currArea`.
- Scenes.Scene.LoadLevel: requires a scene that has not loaded a level yet. The source appends to whatever the lists already hold, and a second load would leave `tiles` out of step with `getTile`.
- Entities.GameObject.Update: each object's own movement and collision rules are not part of this model; an update is one step of a counter. This covers cars, platforms and the player's hops, death and scoring.
- Entities.GameObject.Reset: the player's return to the starting tile is not modelled, because `PlayerGameObject` is not part of this model.
- Scenes.Scene.UpdateObjects: the source sets `inView` on the object's `model`, which the model cache may share between objects. Here it is a per-object flag. The positions of objects moved by their own update earlier in the same loop are not modelled either.
