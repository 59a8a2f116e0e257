/**
 One row per source location in the lint report: of the rows that different compiler targets give for a
 location, the one with the least classification and then the least target name is kept.
 */
module LintReport {
  import opened Wrappers

  datatype Classification =
    | ProductionLibrary | ProductionOtherTarget | Test | Compatibility | Fixture | Generated | Dependency

  function Order(c: Classification): nat {
    match c
    case ProductionLibrary => 0
    case ProductionOtherTarget => 1
    case Test => 2
    case Compatibility => 3
    case Fixture => 4
    case Generated => 5
    case Dependency => 6
  }

  datatype Row = Row(
    lint: string, package: string, path: string, line: int, column: int,
    target: string, inWorkspace: bool, classification: Classification)

  datatype Key = Key(lint: string, package: string, path: string, line: int, column: int)

  function LocationKey(row: Row): Key {
    Key(row.lint, row.package, row.path, row.line, row.column)
  }

  predicate SameLocation(a: Row, b: Row) {
    a.lint == b.lint && a.package == b.package && a.path == b.path && a.line == b.line && a.column == b.column
  }

  // ----- Ranks: pairs in lexicographic order -----

  datatype Rank = Rank(order: nat, target: string)

  function RankOf(row: Row): Rank {
    Rank(Order(row.classification), row.target)
  }

  predicate TextBefore(a: string, b: string) {
    b != "" && (a == "" || a[0] < b[0] || (a[0] == b[0] && TextBefore(a[1..], b[1..])))
  }

  predicate Before(a: Rank, b: Rank) {
    a.order < b.order || (a.order == b.order && TextBefore(a.target, b.target))
  }

  lemma {:induction false} TextIsTotal(a: string, b: string)
    ensures TextBefore(a, b) || a == b || TextBefore(b, a)
    ensures !(TextBefore(a, b) && (a == b || TextBefore(b, a)))
  {
    if a != "" && b != "" {
      TextIsTotal(a[1..], b[1..]);
      assert a == [a[0]] + a[1..] && b == [b[0]] + b[1..];
    }
  }

  lemma {:induction false} TextIsTransitive(a: string, b: string, c: string)
    requires TextBefore(a, b) && TextBefore(b, c)
    ensures TextBefore(a, c)
  {
    if a != "" {
      if a[0] == b[0] == c[0] {
        TextIsTransitive(a[1..], b[1..], c[1..]);
      }
    }
  }

  /** The ranks are in a strict total order. */
  lemma RanksAreOrdered(a: Rank, b: Rank, c: Rank)
    ensures Before(a, b) || a == b || Before(b, a)
    ensures !(Before(a, b) && (a == b || Before(b, a)))
    ensures Before(a, b) && Before(b, c) ==> Before(a, c)
  {
    TextIsTotal(a.target, b.target);
    if TextBefore(a.target, b.target) && TextBefore(b.target, c.target) {
      TextIsTransitive(a.target, b.target, c.target);
    }
  }

  // ----- What is kept -----

  /** The locations in the order in which they first appear. */
  function Locations(rows: seq<Row>): seq<Key> {
    if rows == [] then []
    else
      var before, key := Locations(rows[..|rows| - 1]), LocationKey(rows[|rows| - 1]);
      if key in before then before else before + [key]
  }

  /** The row that represents a location. */
  function Winner(rows: seq<Row>, key: Key): Option<Row> {
    if rows == [] then None
    else
      var before, last := Winner(rows[..|rows| - 1], key), rows[|rows| - 1];
      if LocationKey(last) == key && (before.None? || Before(RankOf(last), RankOf(before.value)))
      then Some(last) else before
  }

  lemma {:induction false} LocationsHaveWinners(rows: seq<Row>, key: Key)
    ensures key in Locations(rows) <==> Winner(rows, key).Some?
    ensures key in Locations(rows) <==> exists i: nat :: i < |rows| && LocationKey(rows[i]) == key
  {
    if rows != [] {
      var n := |rows| - 1;
      LocationsHaveWinners(rows[..n], key);
      if i: nat :| i < |rows| && LocationKey(rows[i]) == key && i < n {
        assert LocationKey(rows[..n][i]) == key;
      }
      if i: nat :| i < n && LocationKey(rows[..n][i]) == key {
        assert LocationKey(rows[i]) == key;
      }
    }
  }

  function Kept(rows: seq<Row>): seq<Row> {
    KeptFor(rows, Locations(rows))
  }

  function KeptFor(rows: seq<Row>, keys: seq<Key>): seq<Row> {
    if keys == [] then []
    else
      var key := keys[|keys| - 1];
      KeptFor(rows, keys[..|keys| - 1]) + match Winner(rows, key) case Some(row) => [row] case None => []
  }

  /** The dictionary of the loop is `byKey` with its keys in insertion order in `order`. */
  method Deduplicate(rows: seq<Row>) returns (kept: seq<Row>)
    ensures kept == Kept(rows)
  {
    var order: seq<Key> := [];
    var byKey: map<Key, Row> := map[];
    for i := 0 to |rows|
      invariant order == Locations(rows[..i])
      invariant forall k :: k in byKey <==> Winner(rows[..i], k).Some?
      invariant forall k :: k in byKey ==> Winner(rows[..i], k) == Some(byKey[k])
    {
      var row := rows[i];
      var key := LocationKey(row);
      assert rows[..i + 1][..i] == rows[..i];
      LocationsHaveWinners(rows[..i], key);
      if key !in byKey || Before(RankOf(row), RankOf(byKey[key])) {
        if key !in byKey {
          order := order + [key];
        }
        byKey := byKey[key := row];
      }
    }
    assert rows[..|rows|] == rows;
    kept := [];
    for j := 0 to |order|
      invariant kept == KeptFor(rows, order[..j])
    {
      LocationsHaveWinners(rows, order[j]);
      assert order[..j + 1][..j] == order[..j];
      kept := kept + [byKey[order[j]]];
    }
    assert order[..|order|] == order;
  }

  // ----- What the report promises -----

  /** The winner is one of the rows of its location, and no row of the location ranks before it. */
  lemma {:induction false} WinnerIsMinimal(rows: seq<Row>, key: Key)
    ensures var w := Winner(rows, key);
            && (w.Some? ==> LocationKey(w.value) == key && w.value in rows)
            && forall row :: row in rows && LocationKey(row) == key ==> w.Some? && !Before(RankOf(row), RankOf(w.value))
  {
    if rows != [] {
      var n := |rows| - 1;
      WinnerIsMinimal(rows[..n], key);
      var before, w := Winner(rows[..n], key), Winner(rows, key);
      forall row | row in rows && LocationKey(row) == key
        ensures w.Some? && !Before(RankOf(row), RankOf(w.value))
      {
        assert row in rows[..n] || row == rows[n];
        RanksAreOrdered(RankOf(row), RankOf(w.value), RankOf(row));
        if before.Some? && w != before {
          RanksAreOrdered(RankOf(row), RankOf(w.value), RankOf(before.value));
          RanksAreOrdered(RankOf(row), RankOf(before.value), RankOf(w.value));
        }
      }
    }
  }

  /** Among rows of equal rank the earliest is kept. */
  lemma {:induction false} WinnerIsEarliest(rows: seq<Row>, key: Key) returns (i: nat)
    requires Winner(rows, key).Some?
    ensures i < |rows| && rows[i] == Winner(rows, key).value
    ensures forall j: nat :: j < i && LocationKey(rows[j]) == key ==> Before(RankOf(rows[i]), RankOf(rows[j]))
  {
    var n := |rows| - 1;
    var before := Winner(rows[..n], key);
    if Winner(rows, key) == before {
      i := WinnerIsEarliest(rows[..n], key);
    } else {
      i := n;
      WinnerIsMinimal(rows[..n], key);
      forall j: nat | j < n && LocationKey(rows[j]) == key ensures Before(RankOf(rows[n]), RankOf(rows[j])) {
        assert rows[..n][j] == rows[j];
        RanksAreOrdered(RankOf(rows[n]), RankOf(before.value), RankOf(rows[j]));
        RanksAreOrdered(RankOf(before.value), RankOf(rows[j]), RankOf(rows[j]));
      }
    }
  }

  lemma {:induction false} LocationsAreDistinct(rows: seq<Row>)
    ensures forall i, j :: 0 <= i < j < |Locations(rows)| ==> Locations(rows)[i] != Locations(rows)[j]
  {
    if rows != [] {
      LocationsAreDistinct(rows[..|rows| - 1]);
    }
  }

  lemma {:induction false} KeptForAt(rows: seq<Row>, keys: seq<Key>)
    requires forall k :: k in keys ==> Winner(rows, k).Some?
    ensures |KeptFor(rows, keys)| == |keys|
    ensures forall j :: 0 <= j < |keys| ==> Winner(rows, keys[j]) == Some(KeptFor(rows, keys)[j])
  {
    if keys != [] {
      KeptForAt(rows, keys[..|keys| - 1]);
    }
  }

  lemma KeptAt(rows: seq<Row>)
    ensures |Kept(rows)| == |Locations(rows)|
    ensures forall j :: 0 <= j < |Kept(rows)| ==>
              && Winner(rows, Locations(rows)[j]) == Some(Kept(rows)[j])
              && LocationKey(Kept(rows)[j]) == Locations(rows)[j]
  {
    var keys := Locations(rows);
    forall k | k in keys ensures Winner(rows, k).Some? {
      LocationsHaveWinners(rows, k);
    }
    KeptForAt(rows, keys);
    forall j | 0 <= j < |keys| ensures LocationKey(Kept(rows)[j]) == keys[j] {
      assert Winner(rows, keys[j]) == Some(Kept(rows)[j]);
      WinnerIsMinimal(rows, keys[j]);
    }
  }

  /** Exactly one row is kept for each location that occurs, and it has the least rank there. */
  lemma OneMinimalRowPerLocation(rows: seq<Row>)
    ensures forall i, j :: 0 <= i < j < |Kept(rows)| ==> !SameLocation(Kept(rows)[i], Kept(rows)[j])
    ensures forall row :: row in Kept(rows) ==> row in rows
    ensures forall row :: row in rows ==>
              exists j :: 0 <= j < |Kept(rows)| && SameLocation(Kept(rows)[j], row) && !Before(RankOf(row), RankOf(Kept(rows)[j]))
  {
    var kept, keys := Kept(rows), Locations(rows);
    KeptAt(rows);
    LocationsAreDistinct(rows);
    forall row | row in kept ensures row in rows {
      var j :| 0 <= j < |kept| && kept[j] == row;
      WinnerIsMinimal(rows, keys[j]);
    }
    forall row | row in rows
      ensures exists j :: 0 <= j < |kept| && SameLocation(kept[j], row) && !Before(RankOf(row), RankOf(kept[j]))
    {
      WinnerIsMinimal(rows, LocationKey(row));
      LocationsHaveWinners(rows, LocationKey(row));
      var j :| 0 <= j < |keys| && keys[j] == LocationKey(row);
      assert Winner(rows, keys[j]) == Some(kept[j]);
    }
  }

  /** Permuting the rows changes neither which locations are represented nor the rank shown for them. */
  lemma RanksDoNotDependOnOrder(a: seq<Row>, b: seq<Row>, key: Key)
    requires multiset(a) == multiset(b)
    ensures Winner(a, key).Some? <==> Winner(b, key).Some?
    ensures Winner(a, key).Some? ==> RankOf(Winner(a, key).value) == RankOf(Winner(b, key).value)
  {
    forall row ensures row in a <==> row in b {
      assert row in a <==> row in multiset(a);
      assert row in b <==> row in multiset(b);
    }
    WinnerIsMinimal(a, key);
    WinnerIsMinimal(b, key);
    if Winner(a, key).Some? && Winner(b, key).Some? {
      RanksAreOrdered(RankOf(Winner(a, key).value), RankOf(Winner(b, key).value), Rank(0, ""));
    }
  }

  ghost function SetOf<T>(s: seq<T>): set<T> {
    set x | x in s
  }

  lemma {:induction false} DistinctCount<T>(s: seq<T>)
    requires forall i, j :: 0 <= i < j < |s| ==> s[i] != s[j]
    ensures |SetOf(s)| == |s|
  {
    if s != [] {
      DistinctCount(s[..|s| - 1]);
      assert SetOf(s) == SetOf(s[..|s| - 1]) + {s[|s| - 1]};
    }
  }

  /** Nor does it change how many rows the report counts. */
  lemma CountDoesNotDependOnOrder(a: seq<Row>, b: seq<Row>)
    requires multiset(a) == multiset(b)
    ensures |Kept(a)| == |Kept(b)|
  {
    forall k ensures k in Locations(a) <==> k in Locations(b) {
      LocationsHaveWinners(a, k);
      LocationsHaveWinners(b, k);
      RanksDoNotDependOnOrder(a, b, k);
    }
    assert SetOf(Locations(a)) == SetOf(Locations(b));
    LocationsAreDistinct(a);
    LocationsAreDistinct(b);
    DistinctCount(Locations(a));
    DistinctCount(Locations(b));
    KeptAt(a);
    KeptAt(b);
  }

  lemma LastIsNew(rows: seq<Row>)
    requires rows != [] && forall j :: 0 <= j < |rows| - 1 ==> LocationKey(rows[j]) != LocationKey(rows[|rows| - 1])
    ensures Locations(rows) == Locations(rows[..|rows| - 1]) + [LocationKey(rows[|rows| - 1])]
    ensures Winner(rows, LocationKey(rows[|rows| - 1])) == Some(rows[|rows| - 1])
    ensures forall j :: 0 <= j < |rows| - 1 ==> Winner(rows, LocationKey(rows[j])) == Winner(rows[..|rows| - 1], LocationKey(rows[j]))
  {
    LocationsHaveWinners(rows[..|rows| - 1], LocationKey(rows[|rows| - 1]));
  }

  lemma {:induction false} DistinctRowsWin(rows: seq<Row>)
    requires forall i, j :: 0 <= i < j < |rows| ==> LocationKey(rows[i]) != LocationKey(rows[j])
    ensures |Locations(rows)| == |rows|
    ensures forall j :: 0 <= j < |rows| ==> Locations(rows)[j] == LocationKey(rows[j])
    ensures forall j :: 0 <= j < |rows| ==> Winner(rows, LocationKey(rows[j])) == Some(rows[j])
  {
    if rows != [] {
      var n := |rows| - 1;
      DistinctRowsWin(rows[..n]);
      LastIsNew(rows);
    }
  }

  /** Rows of different locations are all kept; so removing duplicates twice is removing them once. */
  lemma KeepingIsIdempotent(rows: seq<Row>)
    ensures Kept(Kept(rows)) == Kept(rows)
  {
    var kept := Kept(rows);
    OneMinimalRowPerLocation(rows);
    DistinctRowsWin(kept);
    KeptAt(kept);
    forall j | 0 <= j < |kept| ensures Kept(kept)[j] == kept[j] {
      assert Winner(kept, Locations(kept)[j]) == Some(Kept(kept)[j]);
      assert Winner(kept, LocationKey(kept[j])) == Some(kept[j]);
    }
  }

  // ----- What decides, told from the fields -----

  /** The classes in the order of their weight. */
  const CLASSES: seq<Classification> :=
    [ProductionLibrary, ProductionOtherTarget, Test, Compatibility, Fixture, Generated, Dependency]

  /** A row goes before another of its location for its class, and for its target name if the classes agree. */
  lemma ClassThenTargetDecides(a: Row, b: Row, i: nat, j: nat)
    requires i < 7 && j < 7 && a.classification == CLASSES[i] && b.classification == CLASSES[j]
    ensures Before(RankOf(a), RankOf(b)) <==> i < j || (i == j && TextBefore(a.target, b.target))
  {
  }

  lemma OneMoreRow(rows: seq<Row>, row: Row, key: Key)
    ensures var locations, here := Locations(rows), LocationKey(row);
            Locations(rows + [row]) == if here in locations then locations else locations + [here]
    ensures var w := Winner(rows, key);
            Winner(rows + [row], key) ==
            if LocationKey(row) == key && (w.None? || Before(RankOf(row), RankOf(w.value))) then Some(row) else w
  {
    hide Before;
    assert (rows + [row])[..|rows|] == rows;
  }

  lemma OneMoreKey(rows: seq<Row>, keys: seq<Key>, key: Key)
    requires Winner(rows, key).Some?
    ensures KeptFor(rows, keys + [key]) == KeptFor(rows, keys) + [Winner(rows, key).value]
  {
    hide Winner;
    assert (keys + [key])[..|keys|] == keys;
  }

  lemma LocationsAgree(a: Row, b: Row)
    ensures LocationKey(a) == LocationKey(b) <==> SameLocation(a, b)
  {
  }

  /** Of two rows both are kept, unless all five fields of their locations agree; then the one that goes before. */
  lemma KeptOfTwo(a: Row, b: Row)
    ensures Kept([a] + [b]) ==
            if !SameLocation(a, b) then [a] + [b]
            else if Before(RankOf(b), RankOf(a)) then [b]
            else [a]
  {
    var ka, kb := LocationKey(a), LocationKey(b);
    var rows := [a] + [b];
    LocationsAgree(a, b);
    OneMoreRow([], a, ka);
    OneMoreRow([], a, kb);
    OneMoreRow([a], b, ka);
    OneMoreRow([a], b, kb);
    NoRows(rows, ka);
    NoRows(rows, kb);
    hide Locations, Winner, KeptFor, Before, SameLocation, RankOf, LocationKey;
    assert [] + [a] == [a] && [] + [ka] == [ka];
    OneMoreKey(rows, [], ka);
    if ka != kb {
      OneMoreKey(rows, [ka], kb);
    }
  }

  lemma NoRows(rows: seq<Row>, key: Key)
    ensures Locations([]) == [] && Winner([], key) == None && KeptFor(rows, []) == []
  {
  }

  /** Locations come in the order in which they first appear: reading on only adds new ones behind. */
  lemma {:induction false} LocationsGrow(rows: seq<Row>, n: nat)
    requires n <= |rows|
    ensures Locations(rows[..n]) <= Locations(rows)
  {
    if n == |rows| {
      assert rows[..n] == rows;
    } else {
      var init := rows[..|rows| - 1];
      assert init[..n] == rows[..n];
      LocationsGrow(init, n);
    }
  }

  lemma LocationAppears(rows: seq<Row>, n: nat)
    requires n < |rows|
    ensures LocationKey(rows[n]) in Locations(rows[..n + 1])
  {
    assert rows[..n + 1][..n] == rows[..n];
  }
}
