/**
 * The scene: it owns the game objects, the tiles and the collision
 * dictionary (row index to the objects on that row), loads a level into
 * them, regenerates coins, restarts, and runs the per-frame bookkeeping.
 */
module Scenes {
  import opened Options
  import opened Levels
  import opened Entities
  import opened Timing

  /** Objects more than this far from the player along z are not drawn. */
  const ViewDistance: real := 50.0

  /** Why a level could not be loaded. */
  datatype LoadError = UnknownTheme | NoRows

  datatype Outcome = Pass | Fail(error: LoadError)

  function Abs(x: real): real
  {
    if x < 0.0 then -x else x
  }

  /** The in-view test of `update`: not more than `ViewDistance` ahead of or behind the player. */
  function InView(z: real, playerZ: real): (r: bool)
    ensures r <==> Abs(z - playerZ) <= ViewDistance
  {
    !(z > playerZ + ViewDistance || z < playerZ - ViewDistance)
  }

  /**
   * The column a coin is placed in for the random draw `draw`, which is
   * taken from `2..<TilesPerRow - 2`: counted from the right edge.
   */
  function CoinColumn(draw: int): (c: int)
    requires 2 <= draw < TilesPerRow - 2
    ensures 3 <= c <= TilesPerRow - 2
    ensures c + draw == TilesPerRow
  {
    TilesPerRow - draw
  }

  /** One random draw per row of an `n`-row level, each in `2..<TilesPerRow - 2`. */
  predicate ValidDraws(draws: seq<int>, n: int)
  {
    |draws| == n && forall i :: 0 <= i < |draws| ==> 2 <= draws[i] < TilesPerRow - 2
  }

  /**
   * What a theme's `parseRowObjects` and `parseRowTiles` promise for an
   * `n`-row level: for each row, obstacles, and one tile per column whose
   * row and column are that cell's.
   */
  predicate ThemeOutput(n: int, rowObjects: seq<seq<GameObject>>, rowTiles: seq<seq<Tile>>)
  {
    |rowObjects| == n && |rowTiles| == n &&
    (forall r :: 0 <= r < n ==> |rowTiles[r]| == TilesPerRow) &&
    (forall r, c :: 0 <= r < n && 0 <= c < |rowTiles[r]| ==>
       rowTiles[r][c].row == r && rowTiles[r][c].column == c) &&
    (forall r, i :: 0 <= r < n && 0 <= i < |rowObjects[r]| ==> rowObjects[r][i].kind == Obstacle)
  }

  /**
   * `m` is the number of rows among `0..<n` whose index is divisible by 3,
   * that is, `n / 3` rounded up.
   */
  predicate CoinRowCount(n: int, m: int)
  {
    3 * m - 3 < n <= 3 * m
  }

  /** The count is unique and is `(n + 2) / 3`. */
  lemma CoinRowCountIsCeiling(n: nat, m: int)
    ensures CoinRowCount(n, m) <==> m == (n + 2) / 3
  {
  }

  /**
   * The coin rule: one coin on every row whose index is divisible by 3, the
   * `j`-th on row `3 * j`, put on the tile of that row in the column
   * `CoinColumn` gives for that row's draw.
   */
  ghost predicate CoinsPlaced(coins: seq<GameObject>, draws: seq<int>, tiles: seq<Tile>)
    requires ValidDraws(draws, |draws|)
    requires |tiles| == |draws| * TilesPerRow
    reads coins
  {
    CoinRowCount(|draws|, |coins|) &&
    forall j :: 0 <= j < |coins| ==>
      coins[j].kind == Coin && coins[j].row == 3 * j &&
      coins[j].pos == tiles[TilesPerRow * (3 * j) + CoinColumn(draws[3 * j])].pos
  }

  /**
   * Every object in the bucket of row `k` is in `objects` and is not the
   * player, and a pickup in it was placed on row `k`.
   */
  ghost predicate BucketListed(bucket: seq<GameObject>, objects: seq<GameObject>, k: int)
  {
    forall o :: o in bucket ==> ListedOnRow(o, objects, k)
  }

  /** `o` is in `objects`, is not the player, and if it is a pickup it was placed on row `k`. */
  predicate ListedOnRow(o: GameObject, objects: seq<GameObject>, k: int)
  {
    o in objects && o.kind != Player && (IsPickup(o.kind) ==> o.row == k)
  }

  /** If `o` is a pickup, the bucket of its row exists and holds it. */
  predicate Filed(o: GameObject, buckets: map<int, seq<GameObject>>)
  {
    IsPickup(o.kind) ==> o.row in buckets && o in buckets[o.row]
  }

  /**
   * The collision dictionary agrees with the object list for an `n`-row
   * level: one bucket per row index; every object in a bucket is in
   * `objects` (no stale entry) and is not the player; a coin or fragment in a
   * bucket sits in the bucket of its own row; and every coin or fragment in
   * `objects` is in that bucket.
   */
  ghost predicate Indexed(objects: seq<GameObject>, buckets: map<int, seq<GameObject>>, n: int)
  {
    (forall k :: k in buckets <==> 0 <= k < n) &&
    (forall k :: k in buckets ==> BucketListed(buckets[k], objects, k)) &&
    (forall o :: o in objects ==> Filed(o, buckets))
  }

  /** `n` rows of `TilesPerRow` tiles, the tile at index `i` being cell (`i / TilesPerRow`, `i % TilesPerRow`). */
  predicate RowMajor(tiles: seq<Tile>, n: int)
  {
    |tiles| == n * TilesPerRow &&
    forall i :: 0 <= i < |tiles| ==>
      tiles[i].row == i / TilesPerRow && tiles[i].column == i % TilesPerRow
  }

  /** The theme's tiles, concatenated row after row, are laid out row-major. */
  lemma LoadedTilesShaped(n: int, rowObjects: seq<seq<GameObject>>, rowTiles: seq<seq<Tile>>)
    requires ThemeOutput(n, rowObjects, rowTiles)
    ensures RowMajor(Flatten(rowTiles), n)
  {
    FlattenLength(rowTiles);
    var tiles := Flatten(rowTiles);
    forall i | 0 <= i < |tiles|
      ensures tiles[i].row == i / TilesPerRow && tiles[i].column == i % TilesPerRow
    {
      var r, c := i / TilesPerRow, i % TilesPerRow;
      FlattenAt(rowTiles, r, c);
      assert TilesPerRow * r + c == i;
    }
  }

  /**
   * Right after the rows are loaded the list is the player followed by the
   * theme's obstacles, every bucket holds its row's obstacles, and so the
   * dictionary agrees with the list; there is no coin yet.
   */
  lemma LoadedIndexed(player: GameObject, n: int, rowObjects: seq<seq<GameObject>>,
                      rowTiles: seq<seq<Tile>>, buckets: map<int, seq<GameObject>>)
    requires player.kind == Player && ThemeOutput(n, rowObjects, rowTiles)
    requires forall k :: k in buckets <==> 0 <= k < n
    requires forall k :: 0 <= k < n ==> buckets[k] == rowObjects[k]
    ensures Indexed([player] + Flatten(rowObjects), buckets, n)
    ensures CoinFree([player] + Flatten(rowObjects))
    ensures forall k :: k in buckets ==> CoinFree(buckets[k])
  {
    var objects := [player] + Flatten(rowObjects);
    forall k, o | k in buckets && o in buckets[k]
      ensures o in objects && o.kind == Obstacle
    {
      FlattenMember(rowObjects, o);
      assert o in rowObjects[k];
    }
    forall i | 0 <= i < |objects|
      ensures objects[i].kind == Player || objects[i].kind == Obstacle
    {
      if i > 0 {
        var o := objects[i];
        assert o in Flatten(rowObjects);
        FlattenMember(rowObjects, o);
        var r :| 0 <= r < |rowObjects| && o in rowObjects[r];
        var c :| 0 <= c < |rowObjects[r]| && rowObjects[r][c] == o;
      }
    }
  }

  /** Adding a pickup to the list and to the bucket of its row keeps the two in agreement. */
  lemma AddedPickupKeepsIndexed(objects: seq<GameObject>, buckets: map<int, seq<GameObject>>, n: int,
                                o: GameObject)
    requires Indexed(objects, buckets, n)
    requires 0 <= o.row < n && IsPickup(o.kind)
    ensures Indexed(objects + [o], buckets[o.row := buckets[o.row] + [o]], n)
  {
  }

  /**
   * Removing every coin from the list and from every bucket, then adding
   * each new coin to the list and to the bucket of its row, keeps the
   * dictionary in agreement with the list.
   */
  lemma RespawnKeepsIndexed(objects: seq<GameObject>, buckets: map<int, seq<GameObject>>, n: int,
                            coins: seq<GameObject>, buckets': map<int, seq<GameObject>>)
    requires Indexed(objects, buckets, n)
    requires CoinRowCount(n, |coins|)
    requires forall j :: 0 <= j < |coins| ==> coins[j].kind == Coin && coins[j].row == 3 * j
    requires buckets'.Keys == buckets.Keys
    requires forall k :: k in buckets' ==> buckets'[k] == WithoutCoins(buckets[k]) + OnRow(coins, k)
    ensures Indexed(WithoutCoins(objects) + coins, buckets', n)
  {
    var objects' := WithoutCoins(objects) + coins;
    forall k | k in buckets'
      ensures BucketListed(buckets'[k], objects', k)
    {
      forall o | o in buckets'[k]
        ensures ListedOnRow(o, objects', k)
      {
        RespawnedEntry(objects, buckets, n, coins, k, buckets'[k], o);
      }
    }
    forall o | o in objects'
      ensures Filed(o, buckets')
    {
      if IsPickup(o.kind) {
        if o in WithoutCoins(objects) {
          RespawnedKeptPickup(objects, buckets, n, o);
        } else {
          var j :| 0 <= j < |coins| && coins[j] == o;
          CoinRowInLevel(n, |coins|, j);
          OnRowMember(coins, o, o.row);
        }
      }
    }
  }

  /** Coin `j` lies on row `3 * j`, which is a row of the level. */
  lemma CoinRowInLevel(n: int, m: int, j: int)
    requires CoinRowCount(n, m) && 0 <= j < m
    ensures 0 <= 3 * j < n
  {
  }

  /** Under the count invariant, a row index is divisible by 3 exactly when it is the next coin's row. */
  lemma NextCoinRow(r: int, m: int)
    requires 0 <= r && CoinRowCount(r, m)
    ensures r % 3 == 0 <==> r == 3 * m
    ensures r % 3 == 0 ==> CoinRowCount(r + 1, m + 1)
    ensures r % 3 != 0 ==> CoinRowCount(r + 1, m)
  {
  }

  /**
   * Appending a coin to the bucket of its own row keeps every bucket equal to
   * its starting contents followed by the coins placed on that row.
   */
  lemma PlacedInBucket(buckets0: map<int, seq<GameObject>>, coins: seq<GameObject>,
                       buckets: map<int, seq<GameObject>>, coin: GameObject)
    requires buckets.Keys == buckets0.Keys && coin.row in buckets
    requires forall k :: k in buckets ==> buckets[k] == buckets0[k] + OnRow(coins, k)
    ensures forall k :: k in buckets[coin.row := buckets[coin.row] + [coin]] ==>
              buckets[coin.row := buckets[coin.row] + [coin]][k] ==
              buckets0[k] + OnRow(coins + [coin], k)
  {
    var buckets' := buckets[coin.row := buckets[coin.row] + [coin]];
    forall k | k in buckets'
      ensures buckets'[k] == buckets0[k] + OnRow(coins + [coin], k)
    {
      OnRowSnoc(coins, coin, k);
      var kept, placed := buckets0[k], OnRow(coins, k);
      if k == coin.row {
        assert kept + placed + [coin] == kept + (placed + [coin]);
      } else {
        assert placed + [] == placed;
      }
    }
  }


  /** One entry of a bucket after the respawn is listed, is not the player, and sits on its row. */
  lemma RespawnedEntry(objects: seq<GameObject>, buckets: map<int, seq<GameObject>>, n: int,
                       coins: seq<GameObject>, k: int, bucket: seq<GameObject>, o: GameObject)
    requires Indexed(objects, buckets, n)
    requires forall j :: 0 <= j < |coins| ==> coins[j].kind == Coin && coins[j].row == 3 * j
    requires k in buckets && bucket == WithoutCoins(buckets[k]) + OnRow(coins, k)
    requires o in bucket
    ensures o in WithoutCoins(objects) + coins && o.kind != Player
    ensures IsPickup(o.kind) ==> o.row == k
  {
    if o in WithoutCoins(buckets[k]) {
      WithoutCoinsMember(buckets[k], o);
      WithoutCoinsMember(objects, o);
    } else {
      var placed := OnRow(coins, k);
      var i :| 0 <= i < |placed| && placed[i] == o;
      var j :| 0 <= j < |coins| && coins[j] == o;
    }
  }

  /** A fragment that survives the coin removal is still in the bucket of its row. */
  lemma RespawnedKeptPickup(objects: seq<GameObject>, buckets: map<int, seq<GameObject>>, n: int,
                            o: GameObject)
    requires Indexed(objects, buckets, n)
    requires o in WithoutCoins(objects) && IsPickup(o.kind)
    ensures o.row in buckets && o in WithoutCoins(buckets[o.row])
  {
    WithoutCoinsMember(objects, o);
    WithoutCoinsMember(buckets[o.row], o);
  }

  class Scene {
    var gameObjects: seq<GameObject>
    var tiles: seq<Tile>
    const player: GameObject
    var collisionDictionary: map<int, seq<GameObject>>
    var level: Level
    var currArea: int
    var currLevel: int
    var score: int
    var totalTime: real
    var pause: bool

    /** `tiles` holds `TilesPerRow` tiles per row of the level, row-major. */
    ghost predicate TilesShaped()
      reads this`tiles, this`level
    {
      RowMajor(tiles, |level.rows|)
    }

    /**
     * The scene invariant. The dictionary has one bucket per row index; every
     * object in a bucket is in `gameObjects` (no stale entry), and every coin
     * or fragment in `gameObjects` is in the bucket of its own row.
     */
    ghost predicate Valid()
      reads this`gameObjects, this`tiles, this`level, this`collisionDictionary
    {
      player.kind == Player &&
      |gameObjects| > 0 && gameObjects[0] == player &&
      TilesShaped() &&
      Indexed(gameObjects, collisionDictionary, |level.rows|)
    }

    /** The state of a scene that has not loaded a level yet. */
    ghost predicate IsFresh()
      reads this`gameObjects, this`tiles, this`level, this`collisionDictionary
    {
      gameObjects == [player] && tiles == [] && collisionDictionary == map[] && level.rows == []
    }

    constructor ()
      ensures Valid() && IsFresh()
      ensures fresh(player) && player.tileRow == 0 && !player.isDead && !player.isGameOver
      ensures currArea == -1 && currLevel == -1
      ensures score == 0 && totalTime == 0.0 && !pause
    {
      var p := new GameObject(Player, 0, Pos(0.0, 0.0));
      player := p;
      gameObjects := [p];
      tiles := [];
      collisionDictionary := map[];
      level := EmptyLevel;
      currArea := -1;
      currLevel := -1;
      score := 0;
      totalTime := 0.0;
      pause := false;
    }

    /** `getTile`: the tile at (row, column), or none outside the level. */
    function GetTile(row: int, column: int): (t: Option<Tile>)
      reads this`tiles, this`level
      requires TilesShaped()
      ensures t.Some? <==> 0 <= row < |level.rows| && 0 <= column < TilesPerRow
      ensures t.Some? ==> t.value == tiles[TilesPerRow * row + column]
      ensures t.Some? ==> t.value.row == row && t.value.column == column
    {
      if 0 <= row < |level.rows| && 0 <= column < TilesPerRow then
        Some(tiles[TilesPerRow * row + column])
      else
        None
    }

    /** The first loop of `spawnCoins`: the coins are dropped from every bucket. */
    method StripCoinsFromBuckets()
      requires forall k :: k in collisionDictionary <==> 0 <= k < |level.rows|
      modifies this`collisionDictionary
      ensures collisionDictionary.Keys == old(collisionDictionary).Keys
      ensures forall k :: k in collisionDictionary ==>
                collisionDictionary[k] == WithoutCoins(old(collisionDictionary)[k])
    {
      ghost var buckets0 := collisionDictionary;
      RowKeysCount(collisionDictionary.Keys, |level.rows|);
      var count := |collisionDictionary|;
      var i := 0;
      while i < count
        invariant 0 <= i <= count == |level.rows|
        invariant collisionDictionary.Keys == buckets0.Keys
        invariant forall k :: k in collisionDictionary ==>
                    collisionDictionary[k] == if k < i then WithoutCoins(buckets0[k]) else buckets0[k]
      {
        ghost var prev := collisionDictionary;
        assert i in prev;
        collisionDictionary := collisionDictionary[i := WithoutCoins(collisionDictionary[i])];
        forall k | k in collisionDictionary
          ensures collisionDictionary[k] == if k < i + 1 then WithoutCoins(buckets0[k]) else buckets0[k]
        {
          if k != i {
            assert collisionDictionary[k] == prev[k];
          }
        }
        i := i + 1;
      }
    }

    /** A new coin or fragment is appended to the object list and to the bucket of its row. */
    method AddPickup(kind: Kind, row: int, pos: Pos) returns (o: GameObject)
      requires row in collisionDictionary
      modifies this`gameObjects, this`collisionDictionary
      ensures fresh(o) && o.kind == kind && o.row == row && o.pos == pos
      ensures gameObjects == old(gameObjects) + [o]
      ensures collisionDictionary == old(collisionDictionary)[row := old(collisionDictionary)[row] + [o]]
    {
      o := new GameObject(kind, row, pos);
      gameObjects := gameObjects + [o];
      collisionDictionary := collisionDictionary[row := collisionDictionary[row] + [o]];
    }

    /**
     * The second loop of `spawnCoins`: one coin on each row whose index is
     * divisible by 3, in the column `CoinColumn(draws[row])`, appended to
     * `gameObjects` and to the bucket of its row.
     */
    method PlaceCoins(draws: seq<int>) returns (ghost coins: seq<GameObject>)
      requires TilesShaped() && ValidDraws(draws, |level.rows|)
      requires forall k :: k in collisionDictionary <==> 0 <= k < |level.rows|
      modifies this`gameObjects, this`collisionDictionary
      ensures CoinsPlaced(coins, draws, tiles)
      ensures forall j :: 0 <= j < |coins| ==> fresh(coins[j])
      ensures gameObjects == old(gameObjects) + coins
      ensures collisionDictionary.Keys == old(collisionDictionary).Keys
      ensures forall k :: k in collisionDictionary ==>
                collisionDictionary[k] == old(collisionDictionary)[k] + OnRow(coins, k)
    {
      ghost var objects0 := gameObjects;
      ghost var buckets0 := collisionDictionary;
      coins := [];
      var rowIndex := 0;
      while rowIndex < |level.rows|
        invariant 0 <= rowIndex <= |level.rows|
        invariant CoinRowCount(rowIndex, |coins|)
        invariant forall j :: 0 <= j < |coins| ==>
                    fresh(coins[j]) && coins[j].kind == Coin && coins[j].row == 3 * j &&
                    coins[j].pos == tiles[TilesPerRow * (3 * j) + CoinColumn(draws[3 * j])].pos
        invariant gameObjects == objects0 + coins
        invariant collisionDictionary.Keys == buckets0.Keys
        invariant forall k :: k in collisionDictionary ==>
                    collisionDictionary[k] == buckets0[k] + OnRow(coins, k)
      {
        NextCoinRow(rowIndex, |coins|);
        if rowIndex % 3 == 0 {
          var tile := GetTile(rowIndex, TilesPerRow - draws[rowIndex]).value;
          ghost var prev := collisionDictionary;
          var coin := AddPickup(Coin, rowIndex, tile.pos);
          PlacedInBucket(buckets0, coins, prev, coin);
          coins := coins + [coin];
        }
        rowIndex := rowIndex + 1;
      }
    }

    /**
     * `spawnCoins`: every coin is removed from `gameObjects` and from every
     * bucket; then one new coin is placed on each row whose index is
     * divisible by 3 and added both to `gameObjects` and to that row's bucket.
     * `draws[r]` is the random number drawn for row `r`.
     */
    method SpawnCoins(draws: seq<int>) returns (ghost coins: seq<GameObject>)
      requires Valid()
      requires ValidDraws(draws, |level.rows|)
      modifies this`gameObjects, this`collisionDictionary
      ensures Valid()
      ensures CoinsPlaced(coins, draws, tiles)
      ensures forall j :: 0 <= j < |coins| ==> fresh(coins[j])
      ensures gameObjects == WithoutCoins(old(gameObjects)) + coins
      ensures collisionDictionary.Keys == old(collisionDictionary).Keys
      ensures forall k :: k in collisionDictionary ==>
                collisionDictionary[k] == WithoutCoins(old(collisionDictionary)[k]) + OnRow(coins, k)
      ensures CoinsOf(gameObjects) == coins
      ensures WithoutCoins(gameObjects) == WithoutCoins(old(gameObjects))
    {
      ghost var objects0 := gameObjects;
      ghost var buckets0 := collisionDictionary;
      gameObjects := WithoutCoins(gameObjects);
      StripCoinsFromBuckets();
      coins := PlaceCoins(draws);
      RespawnKeepsIndexed(objects0, buckets0, |level.rows|, coins, collisionDictionary);
      ReplacedCoins(objects0, coins);
    }

    /**
     * `loadLevel` on a scene that has not loaded a level yet, for the parsed
     * level `data`. `rowObjects[r]` and `rowTiles[r]` are what the selected
     * theme generates for row `r`, and `draws` are the coin draws. A theme
     * name other than the three known ones, or a level without rows, is
     * reported as a failure and leaves the scene as it was. Otherwise the rows
     * are loaded one by one into the dictionary, the object list and the
     * tiles; then the coins are spawned, the memory fragment is put on the
     * middle tile of the last row, and the player on the middle tile of row 0.
     */
    method LoadLevel(data: Level, rowObjects: seq<seq<GameObject>>, rowTiles: seq<seq<Tile>>,
                     draws: seq<int>)
      returns (result: Outcome, ghost coins: seq<GameObject>, ghost fragment: GameObject?)
      requires Valid() && IsFresh()
      requires ThemeOutput(|data.rows|, rowObjects, rowTiles)
      requires ValidDraws(draws, |data.rows|)
      modifies this, player`pos
      ensures Valid()
      ensures result == Fail(UnknownTheme) <==> SelectTheme(data.info.theme).None?
      ensures result == Fail(NoRows) <==> SelectTheme(data.info.theme).Some? && |data.rows| == 0
      ensures result.Fail? ==> unchanged(this) && unchanged(player)
      ensures result.Pass? ==>
                level == data && currArea == data.info.area && currLevel == data.info.level &&
                score == old(score) && totalTime == old(totalTime) && pause == old(pause)
      ensures result.Pass? ==> tiles == Flatten(rowTiles)
      ensures result.Pass? ==>
                forall r, c :: 0 <= r < |data.rows| && 0 <= c < TilesPerRow ==> GetTile(r, c) == Some(rowTiles[r][c])
      ensures result.Pass? ==>
                fragment != null && fresh(fragment) &&
                gameObjects == [player] + Flatten(rowObjects) + coins + [fragment]
      ensures result.Pass? ==>
                forall k :: 0 <= k < |data.rows| ==>
                  collisionDictionary[k] == rowObjects[k] + OnRow(coins, k) + (if k == |data.rows| - 1 then [fragment] else [])
      ensures result.Pass? ==> CoinsPlaced(coins, draws, tiles) && forall j :: 0 <= j < |coins| ==> fresh(coins[j])
      ensures result.Pass? ==>
                fragment != null && fragment.kind == Fragment && fragment.row == |data.rows| - 1 &&
                fragment.pos == tiles[TilesPerRow * (|data.rows| - 1) + TilesPerRow / 2].pos
      ensures result.Pass? ==> player.pos == tiles[TilesPerRow / 2].pos
    {
      var theme := SelectTheme(data.info.theme);
      if theme.None? {
        return Fail(UnknownTheme), [], null;
      }
      if |data.rows| == 0 {
        return Fail(NoRows), [], null;
      }
      coins, fragment := Populate(data, rowObjects, rowTiles, draws);
      result := Pass;
    }

    /** `loadLevel` once the theme and the rows are known to be usable. */
    method Populate(data: Level, rowObjects: seq<seq<GameObject>>, rowTiles: seq<seq<Tile>>,
                    draws: seq<int>)
      returns (ghost coins: seq<GameObject>, ghost fragment: GameObject)
      requires Valid() && IsFresh() && |data.rows| > 0
      requires ThemeOutput(|data.rows|, rowObjects, rowTiles)
      requires ValidDraws(draws, |data.rows|)
      modifies this`level, this`currLevel, this`currArea, this`gameObjects, this`tiles, this`collisionDictionary, player`pos
      ensures Valid()
      ensures level == data && currArea == data.info.area && currLevel == data.info.level
      ensures tiles == Flatten(rowTiles)
      ensures forall r, c :: 0 <= r < |data.rows| && 0 <= c < TilesPerRow ==> GetTile(r, c) == Some(rowTiles[r][c])
      ensures fresh(fragment) && gameObjects == [player] + Flatten(rowObjects) + coins + [fragment]
      ensures forall k :: 0 <= k < |data.rows| ==>
                collisionDictionary[k] == rowObjects[k] + OnRow(coins, k) + (if k == |data.rows| - 1 then [fragment] else [])
      ensures CoinsPlaced(coins, draws, tiles) && forall j :: 0 <= j < |coins| ==> fresh(coins[j])
      ensures fragment.kind == Fragment && fragment.row == |data.rows| - 1
      ensures fragment.pos == tiles[TilesPerRow * (|data.rows| - 1) + TilesPerRow / 2].pos
      ensures player.pos == tiles[TilesPerRow / 2].pos
    {
      coins := FillRows(data, rowObjects, rowTiles, draws);
      assert player !in coins;
      fragment := PlaceFragmentAndPlayer();
    }

    /** The rows, tiles and objects of a new level, then its coins (`spawnCoins`). */
    method FillRows(data: Level, rowObjects: seq<seq<GameObject>>, rowTiles: seq<seq<Tile>>,
                    draws: seq<int>)
      returns (ghost coins: seq<GameObject>)
      requires Valid() && IsFresh() && |data.rows| > 0
      requires ThemeOutput(|data.rows|, rowObjects, rowTiles)
      requires ValidDraws(draws, |data.rows|)
      modifies this`level, this`currLevel, this`currArea, this`gameObjects, this`tiles, this`collisionDictionary
      ensures Valid()
      ensures level == data && currArea == data.info.area && currLevel == data.info.level
      ensures tiles == Flatten(rowTiles)
      ensures forall r, c :: 0 <= r < |data.rows| && 0 <= c < TilesPerRow ==> GetTile(r, c) == Some(rowTiles[r][c])
      ensures gameObjects == [player] + Flatten(rowObjects) + coins
      ensures forall k :: 0 <= k < |data.rows| ==> collisionDictionary[k] == rowObjects[k] + OnRow(coins, k)
      ensures CoinsPlaced(coins, draws, tiles) && forall j :: 0 <= j < |coins| ==> fresh(coins[j])
    {
      LoadRows(data, rowObjects, rowTiles);
      coins := SpawnCoins(draws);
      forall r, c | 0 <= r < |data.rows| && 0 <= c < TilesPerRow
        ensures GetTile(r, c) == Some(rowTiles[r][c])
      {
        FlattenAt(rowTiles, r, c);
      }
    }

    /**
     * The first part of `loadLevel`: the level and its area and number are
     * taken over and its rows are loaded. No coin is loaded, so every list
     * is already free of coins.
     */
    method LoadRows(data: Level, rowObjects: seq<seq<GameObject>>, rowTiles: seq<seq<Tile>>)
      requires Valid() && IsFresh()
      requires ThemeOutput(|data.rows|, rowObjects, rowTiles)
      modifies this`level, this`currLevel, this`currArea, this`gameObjects, this`tiles, this`collisionDictionary
      ensures Valid()
      ensures level == data && currArea == data.info.area && currLevel == data.info.level
      ensures gameObjects == [player] + Flatten(rowObjects)
      ensures tiles == Flatten(rowTiles)
      ensures forall k :: k in collisionDictionary <==> 0 <= k < |data.rows|
      ensures forall k :: 0 <= k < |data.rows| ==> collisionDictionary[k] == rowObjects[k]
      ensures WithoutCoins(gameObjects) == gameObjects
      ensures forall k :: k in collisionDictionary ==> WithoutCoins(collisionDictionary[k]) == collisionDictionary[k]
    {
      level := data;
      currLevel := data.info.level;
      currArea := data.info.area;
      AppendRows(rowObjects, rowTiles);
      LoadedTilesShaped(|data.rows|, rowObjects, rowTiles);
      LoadedIndexed(player, |data.rows|, rowObjects, rowTiles, collisionDictionary);
      WithoutCoinsOfCoinFree(gameObjects);
      forall k | k in collisionDictionary
        ensures WithoutCoins(collisionDictionary[k]) == collisionDictionary[k]
      {
        WithoutCoinsOfCoinFree(collisionDictionary[k]);
      }
    }

    /**
     * The body of the row loop: each row's objects become that row's bucket
     * and are appended to the object list, and its tiles to the tiles.
     */
    method AppendRows(rowObjects: seq<seq<GameObject>>, rowTiles: seq<seq<Tile>>)
      requires |rowObjects| == |level.rows| && |rowTiles| == |level.rows|
      requires gameObjects == [player] && tiles == [] && collisionDictionary == map[]
      modifies this`gameObjects, this`tiles, this`collisionDictionary
      ensures gameObjects == [player] + Flatten(rowObjects)
      ensures tiles == Flatten(rowTiles)
      ensures forall k :: k in collisionDictionary <==> 0 <= k < |level.rows|
      ensures forall k :: 0 <= k < |level.rows| ==> collisionDictionary[k] == rowObjects[k]
    {
      var rowIndex := 0;
      while rowIndex < |level.rows|
        invariant 0 <= rowIndex <= |level.rows|
        invariant gameObjects == [player] + Flatten(rowObjects[..rowIndex])
        invariant tiles == Flatten(rowTiles[..rowIndex])
        invariant forall k :: k in collisionDictionary <==> 0 <= k < rowIndex
        invariant forall k :: 0 <= k < rowIndex ==> collisionDictionary[k] == rowObjects[k]
      {
        collisionDictionary := collisionDictionary[rowIndex := rowObjects[rowIndex]];
        gameObjects := gameObjects + rowObjects[rowIndex];
        tiles := tiles + rowTiles[rowIndex];
        FlattenSnoc(rowObjects, rowIndex);
        FlattenSnoc(rowTiles, rowIndex);
        rowIndex := rowIndex + 1;
      }
      assert rowObjects[..rowIndex] == rowObjects && rowTiles[..rowIndex] == rowTiles;
    }


    /**
     * The end of `loadLevel`: the memory fragment is put on the middle tile
     * of the last row and appended to the object list and to the last row's
     * bucket; then the player is moved to the middle tile of row 0.
     */
    method PlaceFragmentAndPlayer() returns (fragment: GameObject)
      requires Valid() && |level.rows| > 0
      modifies this`gameObjects, this`collisionDictionary, player`pos
      ensures Valid()
      ensures fresh(fragment) && fragment.kind == Fragment && fragment.row == |level.rows| - 1
      ensures fragment.pos == tiles[TilesPerRow * (|level.rows| - 1) + TilesPerRow / 2].pos
      ensures gameObjects == old(gameObjects) + [fragment]
      ensures player.pos == tiles[TilesPerRow / 2].pos
      ensures collisionDictionary.Keys == old(collisionDictionary).Keys
      ensures forall k :: k in collisionDictionary ==>
                collisionDictionary[k] == old(collisionDictionary)[k] + (if k == fragment.row then [fragment] else [])
    {
      var n := |level.rows|;
      var tile := GetTile(n - 1, TilesPerRow / 2).value;
      ghost var objects0, buckets0 := gameObjects, collisionDictionary;
      fragment := AddPickup(Fragment, n - 1, tile.pos);
      AddedPickupKeepsIndexed(objects0, buckets0, n, fragment);
      var start := GetTile(0, TilesPerRow / 2).value;
      player.TeleportTo(start);
    }

    /**
     * `restartLevel`: the score and the run time go back to zero, the player
     * is reset and the coins are spawned again; obstacles and tiles stay.
     */
    method RestartLevel(draws: seq<int>) returns (ghost coins: seq<GameObject>)
      requires Valid()
      requires ValidDraws(draws, |level.rows|)
      modifies this`score, this`totalTime, this`gameObjects, this`collisionDictionary
      modifies player`tileRow, player`isDead, player`isGameOver
      ensures Valid()
      ensures score == 0 && totalTime == 0.0
      ensures player.tileRow == 0 && !player.isDead && !player.isGameOver
      ensures gameObjects == WithoutCoins(old(gameObjects)) + coins
      ensures forall o :: o in gameObjects ==> o in old(gameObjects) || fresh(o)
      ensures WithoutCoins(gameObjects) == WithoutCoins(old(gameObjects))
      ensures CoinsOf(gameObjects) == coins && CoinsPlaced(coins, draws, tiles)
      ensures forall j :: 0 <= j < |coins| ==> fresh(coins[j])
      ensures collisionDictionary.Keys == old(collisionDictionary).Keys
      ensures forall k :: k in collisionDictionary ==>
                collisionDictionary[k] == WithoutCoins(old(collisionDictionary)[k]) + OnRow(coins, k)
    {
      score := 0;
      totalTime := 0.0;
      player.Reset();
      ghost var objects0 := gameObjects;
      coins := SpawnCoins(draws);
      forall o | o in gameObjects
        ensures o in objects0 || fresh(o)
      {
        if o in WithoutCoins(objects0) {
          WithoutCoinsMember(objects0, o);
        }
      }
    }

    /** One turn of the object loop of `update`. */
    method UpdateObject(gameObject: GameObject, delta: real)
      modifies gameObject`inView, gameObject`steps
      ensures gameObject.inView == InView(gameObject.pos.z, player.pos.z)
      ensures gameObject.steps == old(gameObject.steps) + (if pause then 0 else 1)
    {
      gameObject.inView := InView(gameObject.pos.z, player.pos.z);
      if !pause {
        gameObject.Update(delta);
      }
    }

    /**
     * The object loop of `update(delta:)`: each object's in-view flag is set
     * from its distance to the player along z, and unless the scene is
     * paused the object takes one step.
     */
    method UpdateObjects(delta: real)
      requires player in gameObjects
      modifies gameObjects`inView, gameObjects`steps
      ensures forall i :: 0 <= i < |gameObjects| ==>
                gameObjects[i].inView == InView(gameObjects[i].pos.z, player.pos.z)
      ensures forall o :: o in gameObjects ==>
                o.steps == old(o.steps) + (if pause then 0 else multiset(gameObjects)[o])
    {
      var i := 0;
      while i < |gameObjects|
        invariant 0 <= i <= |gameObjects|
        invariant forall j :: 0 <= j < i ==>
                    gameObjects[j].inView == InView(gameObjects[j].pos.z, player.pos.z)
        invariant forall o :: o in gameObjects ==>
                    o.steps == old(o.steps) + (if pause then 0 else multiset(gameObjects[..i])[o])
      {
        var gameObject := gameObjects[i];
        UpdateObject(gameObject, delta);
        assert gameObjects[..i + 1] == gameObjects[..i] + [gameObject];
        i := i + 1;
      }
      assert gameObjects[..i] == gameObjects;
    }

    /**
     * `update(delta:)`, the bookkeeping part of one frame: every object's
     * in-view flag is recomputed from its distance to the player along z;
     * unless the scene is paused every object takes one step (an object
     * listed twice takes two); then the player is latched game-over on
     * reaching `GameOverRow`, and the run time grows by `delta` only while
     * the player is neither dead nor game-over.
     */
    method Update(delta: real)
      requires Valid()
      modifies this`totalTime, gameObjects`inView, gameObjects`steps, player`isGameOver
      ensures Valid()
      ensures forall i :: 0 <= i < |gameObjects| ==>
                gameObjects[i].inView == InView(gameObjects[i].pos.z, player.pos.z)
      ensures forall o :: o in gameObjects ==>
                o.steps == old(o.steps) + (if pause then 0 else multiset(gameObjects)[o])
      ensures forall o :: o in gameObjects ==>
                o.pos == old(o.pos) && o.tileRow == old(o.tileRow) && o.isDead == old(o.isDead) &&
                (o != player ==> o.isGameOver == old(o.isGameOver))
      ensures Clock(totalTime, player.isGameOver) ==
                Tick(Clock(old(totalTime), old(player.isGameOver)), Frame(player.tileRow, player.isDead, delta))
    {
      assert player in gameObjects;
      UpdateObjects(delta);
      if player.tileRow >= GameOverRow {
        player.isGameOver := true;
      }
      if !player.isDead && !player.isGameOver {
        totalTime := totalTime + delta;
      }
    }
  }
}
