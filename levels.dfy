/**
 * The parsed level description a scene is loaded from, the themes a level can
 * name, and the row-by-row concatenation the scene uses to lay out its tiles.
 */
module Levels {
  import opened Options

  /**
   * `Level.tilesPerRow`: the number of tile columns in every row. `Level.swift`
   * is not part of this model; 14 is inferred from the comment at
   * Scene.swift:210, which caps the coin column at 12.
   */
  const TilesPerRow: int := 14

  /** One lane of the level: its declared type ("road", "water", "grass", ...) and scroll speed. */
  datatype Row = Row(kind: string, speed: real)

  /** The `info` block of a level description. */
  datatype Info = Info(theme: string, area: int, level: int, night: bool)

  datatype Level = Level(info: Info, rows: seq<Row>)

  /** The level a scene holds before any level is loaded: no rows. */
  const EmptyLevel := Level(Info("", -1, -1, false), [])

  /** The three themes whose row generators the scene can use. */
  datatype Theme = City | Jungle | Lab

  /**
   * The `switch` on the level's theme name: only the three known names
   * select a theme; every other name selects none.
   */
  function SelectTheme(name: string): (t: Option<Theme>)
    ensures t.Some? <==> name == "City" || name == "Jungle" || name == "Lab"
    ensures t == Some(City) <==> name == "City"
    ensures t == Some(Jungle) <==> name == "Jungle"
    ensures t == Some(Lab) <==> name == "Lab"
  {
    if name == "City" then Some(City)
    else if name == "Jungle" then Some(Jungle)
    else if name == "Lab" then Some(Lab)
    else None
  }

  /** The rows' elements appended one row after another, first row first. */
  function Flatten<T>(rows: seq<seq<T>>): seq<T>
  {
    if rows == [] then [] else Flatten(rows[..|rows| - 1]) + rows[|rows| - 1]
  }

  /**
   * When every row holds exactly `TilesPerRow` elements, the flattened
   * sequence holds `|rows| * TilesPerRow` of them, laid out row-major.
   */
  lemma {:induction false} FlattenAt<T>(rows: seq<seq<T>>, r: int, c: int)
    requires forall j :: 0 <= j < |rows| ==> |rows[j]| == TilesPerRow
    requires 0 <= r < |rows| && 0 <= c < TilesPerRow
    ensures |Flatten(rows)| == |rows| * TilesPerRow
    ensures Flatten(rows)[TilesPerRow * r + c] == rows[r][c]
  {
    var init := rows[..|rows| - 1];
    FlattenLength(init);
    if r < |rows| - 1 {
      FlattenAt(init, r, c);
    }
  }

  /** The length half of `FlattenAt`, which holds for any number of rows. */
  lemma {:induction false} FlattenLength<T>(rows: seq<seq<T>>)
    requires forall j :: 0 <= j < |rows| ==> |rows[j]| == TilesPerRow
    ensures |Flatten(rows)| == |rows| * TilesPerRow
  {
    if rows != [] {
      FlattenLength(rows[..|rows| - 1]);
    }
  }

  /** An element is in the flattened sequence exactly when it is in one of the rows. */
  lemma {:induction false} FlattenMember<T>(rows: seq<seq<T>>, x: T)
    ensures x in Flatten(rows) <==> exists r :: 0 <= r < |rows| && x in rows[r]
  {
    if rows != [] {
      var init := rows[..|rows| - 1];
      FlattenMember(init, x);
      if x in Flatten(rows) && x !in rows[|rows| - 1] {
        var r :| 0 <= r < |init| && x in init[r];
        assert rows[r] == init[r];
      }
      if exists r :: 0 <= r < |rows| && x in rows[r] {
        var r :| 0 <= r < |rows| && x in rows[r];
        if r < |init| {
          assert init[r] == rows[r];
        }
      }
    }
  }

  /** Appending one more row to the rows appends its elements to the flattened sequence. */
  lemma FlattenSnoc<T>(rows: seq<seq<T>>, i: int)
    requires 0 <= i < |rows|
    ensures Flatten(rows[..i + 1]) == Flatten(rows[..i]) + rows[i]
  {
    assert rows[..i + 1][..i] == rows[..i];
  }

  /**
   * A key set that is exactly `0..<n` has `n` elements, so a dictionary keyed
   * by exactly the row indices has as many entries as there are rows.
   */
  lemma {:induction false} RowKeysCount(keys: set<int>, n: nat)
    requires forall k :: k in keys <==> 0 <= k < n
    ensures |keys| == n
  {
    if n > 0 {
      var rest := keys - {n - 1};
      RowKeysCount(rest, n - 1);
      assert keys == rest + {n - 1};
    } else {
      assert forall k :: k !in keys;
    }
  }
}
