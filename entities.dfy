/**
 * The scene's entities: tiles (fixed ground cells) and game objects (the
 * player, the theme's obstacles, coins and the level-ending memory fragment),
 * and the coin filter the scene applies to its object list and buckets.
 */
module Entities {

  /** A position on the ground plane; the vertical coordinate is not modelled. */
  datatype Pos = Pos(x: real, z: real)

  /** A ground cell at (row, column); it never moves. */
  datatype Tile = Tile(pos: Pos, row: int, column: int)

  /**
   * The dynamic type of a game object, which the scene inspects with `is`:
   * `PlayerGameObject`, a theme obstacle, `Coin` or `MemoryFragment`.
   */
  datatype Kind = Player | Obstacle | Coin | Fragment

  /** Coins and the memory fragment are placed on a row and remember it. */
  predicate IsPickup(k: Kind)
  {
    k == Coin || k == Fragment
  }

  /**
   * A game object. Objects are shared by reference between the scene's object
   * list and its collision buckets, so this is a class. The player's own state
   * (`tileRow`, `isDead`, `isGameOver`) is carried by the object whose kind is
   * `Player`.
   */
  class GameObject {
    const kind: Kind
    /** The row a pickup was placed on. */
    const row: int
    var pos: Pos
    /** The render hint `model.inView`. */
    var inView: bool
    /** How many simulation steps (`update(delta:)` calls) the object has taken. */
    var steps: nat
    var tileRow: int
    var isDead: bool
    var isGameOver: bool

    constructor (kind: Kind, row: int, pos: Pos)
      ensures this.kind == kind && this.row == row && this.pos == pos
      ensures inView && steps == 0
      ensures tileRow == 0 && !isDead && !isGameOver
    {
      this.kind := kind;
      this.row := row;
      this.pos := pos;
      inView := true;
      steps := 0;
      tileRow := 0;
      isDead := false;
      isGameOver := false;
    }

    /** One simulation step; the object's own movement rules are not modelled. */
    method Update(delta: real)
      modifies this`steps
      ensures steps == old(steps) + 1
    {
      steps := steps + 1;
    }

    /** `teleportToTarget`: the object is put on the tile's position. */
    method TeleportTo(target: Tile)
      modifies this`pos
      ensures pos == target.pos
    {
      pos := target.pos;
    }

    /** The player's `reset`: alive again, not game-over, row counter cleared. */
    method Reset()
      modifies this`tileRow, this`isDead, this`isGameOver
      ensures tileRow == 0 && !isDead && !isGameOver
    {
      tileRow := 0;
      isDead := false;
      isGameOver := false;
    }
  }

  /** No coin occurs in `s`. */
  predicate CoinFree(s: seq<GameObject>)
  {
    forall i :: 0 <= i < |s| ==> s[i].kind != Coin
  }

  /**
   * `removeAll(where: { $0 is Coin })`: the objects of `s` that are not coins,
   * in their original order.
   */
  function WithoutCoins(s: seq<GameObject>): (r: seq<GameObject>)
    ensures |r| <= |s|
    ensures CoinFree(r)
    ensures s != [] && s[0].kind != Coin ==> r != [] && r[0] == s[0]
  {
    if s == [] then []
    else if s[0].kind == Coin then WithoutCoins(s[1..])
    else [s[0]] + WithoutCoins(s[1..])
  }

  /** An object stays in `WithoutCoins(s)` exactly when it is in `s` and is not a coin. */
  lemma {:induction false} WithoutCoinsMember(s: seq<GameObject>, o: GameObject)
    ensures o in WithoutCoins(s) <==> o in s && o.kind != Coin
  {
    if s != [] {
      WithoutCoinsMember(s[1..], o);
      assert o in s <==> o == s[0] || o in s[1..];
    }
  }

  /** The objects of `s` placed on row `k`, in their original order. */
  function OnRow(s: seq<GameObject>, k: int): (r: seq<GameObject>)
    ensures |r| <= |s|
    ensures forall i :: 0 <= i < |r| ==> r[i] in s && r[i].row == k
  {
    if s == [] then []
    else if s[0].row == k then [s[0]] + OnRow(s[1..], k)
    else OnRow(s[1..], k)
  }

  /** Every object of `s` on row `k` is among `OnRow(s, k)`. */
  lemma {:induction false} OnRowMember(s: seq<GameObject>, o: GameObject, k: int)
    requires o in s && o.row == k
    ensures o in OnRow(s, k)
  {
    if s[0] != o {
      OnRowMember(s[1..], o, k);
    }
  }

  /** Appending one object adds it to its own row only. */
  lemma {:induction false} OnRowSnoc(s: seq<GameObject>, o: GameObject, k: int)
    ensures OnRow(s + [o], k) == OnRow(s, k) + (if o.row == k then [o] else [])
  {
    if s != [] {
      assert (s + [o])[1..] == s[1..] + [o];
      OnRowSnoc(s[1..], o, k);
    }
  }

  /** The coins of `s`, in their original order. */
  function CoinsOf(s: seq<GameObject>): (r: seq<GameObject>)
    ensures |r| <= |s|
    ensures forall i :: 0 <= i < |r| ==> r[i].kind == Coin
  {
    if s == [] then []
    else if s[0].kind == Coin then [s[0]] + CoinsOf(s[1..])
    else CoinsOf(s[1..])
  }

  /** An object is among the coins of `s` exactly when it is in `s` and is a coin. */
  lemma {:induction false} CoinsOfMember(s: seq<GameObject>, o: GameObject)
    ensures o in CoinsOf(s) <==> o in s && o.kind == Coin
  {
    if s != [] {
      CoinsOfMember(s[1..], o);
      assert s == [s[0]] + s[1..];
    }
  }

  /**
   * Removing coins works piece by piece: what stays of a concatenation is
   * what stays of each part, in the same order, so the non-coins keep their
   * relative order.
   */
  lemma {:induction false} WithoutCoinsAppend(s: seq<GameObject>, t: seq<GameObject>)
    ensures WithoutCoins(s + t) == WithoutCoins(s) + WithoutCoins(t)
  {
    if s != [] {
      assert (s + t)[1..] == s[1..] + t;
      WithoutCoinsAppend(s[1..], t);
    } else {
      assert s + t == t;
    }
  }

  /** A sequence without coins is left exactly as it is. */
  lemma {:induction false} WithoutCoinsOfCoinFree(s: seq<GameObject>)
    requires CoinFree(s)
    ensures WithoutCoins(s) == s
  {
    if s != [] {
      WithoutCoinsOfCoinFree(s[1..]);
    }
  }

  /** Removing coins a second time changes nothing. */
  lemma {:induction false} WithoutCoinsIdempotent(s: seq<GameObject>)
    ensures WithoutCoins(WithoutCoins(s)) == WithoutCoins(s)
  {
    WithoutCoinsOfCoinFree(WithoutCoins(s));
  }

  /** The same piecewise law for the coins of a concatenation. */
  lemma {:induction false} CoinsOfAppend(s: seq<GameObject>, t: seq<GameObject>)
    ensures CoinsOf(s + t) == CoinsOf(s) + CoinsOf(t)
  {
    if s != [] {
      assert (s + t)[1..] == s[1..] + t;
      CoinsOfAppend(s[1..], t);
    } else {
      assert s + t == t;
    }
  }

  /** A sequence of coins is its own coin list. */
  lemma {:induction false} CoinsOfAllCoins(s: seq<GameObject>)
    requires forall i :: 0 <= i < |s| ==> s[i].kind == Coin
    ensures CoinsOf(s) == s
  {
    if s != [] {
      CoinsOfAllCoins(s[1..]);
    }
  }

  /** A sequence without coins has no coins to list. */
  lemma {:induction false} CoinsOfCoinFree(s: seq<GameObject>)
    requires CoinFree(s)
    ensures CoinsOf(s) == []
  {
    if s != [] {
      CoinsOfCoinFree(s[1..]);
    }
  }

  /** Nothing stays of a sequence of coins. */
  lemma {:induction false} WithoutCoinsOfAllCoins(s: seq<GameObject>)
    requires forall i :: 0 <= i < |s| ==> s[i].kind == Coin
    ensures WithoutCoins(s) == []
  {
    if s != [] {
      WithoutCoinsOfAllCoins(s[1..]);
    }
  }

  /**
   * After the old coins are removed and `spawned` coins are appended, the coins
   * present are exactly the appended ones, in order: none of the old ones
   * survives and their number is that of the new ones.
   */
  lemma ReplacedCoins(s: seq<GameObject>, spawned: seq<GameObject>)
    requires forall i :: 0 <= i < |spawned| ==> spawned[i].kind == Coin
    ensures CoinsOf(WithoutCoins(s) + spawned) == spawned
    ensures WithoutCoins(WithoutCoins(s) + spawned) == WithoutCoins(s)
  {
    CoinsOfAppend(WithoutCoins(s), spawned);
    CoinsOfAllCoins(spawned);
    CoinsOfCoinFree(WithoutCoins(s));
    WithoutCoinsAppend(WithoutCoins(s), spawned);
    WithoutCoinsIdempotent(s);
    WithoutCoinsOfAllCoins(spawned);
  }
}
