/** When the sort of internal/datasources/rows_datasource.go depends on the order in
    which the server returned the rows. */
module RowOrderLimits {
  import opened Ordering
  import opened RowOrder
  import opened Wrappers

  /** Rows of one JSON text are one row, as json.Marshal makes them. */
  ghost predicate OneRowPerText(rows: seq<Row>) {
    forall x, y :: x in rows && y in rows && x.canonical == y.canonical ==> x == y
  }

  /** No row stands right before a smaller one. */
  predicate Climbs(keys: seq<SortKey>, s: seq<Row>) {
    forall i :: 0 < i < |s| ==> CompareRows(keys, s[i - 1], s[i]) <= 0
  }

  lemma InsertEnds(keys: seq<SortKey>, s: seq<Row>, x: Row)
    ensures var t := Insert(keys, s, x); t != [] && (t[|t| - 1] == x || (s != [] && t[|t| - 1] == s[|s| - 1]))
  {
  }

  lemma {:induction false} InsertKeepsClimb(keys: seq<SortKey>, s: seq<Row>, x: Row)
    requires Climbs(keys, s)
    ensures Climbs(keys, Insert(keys, s, x))
    decreases |s|
  {
    if s != [] {
      var n := |s| - 1;
      RowsAntisymmetric(keys, x, s[n]);
      if CompareRows(keys, x, s[n]) < 0 {
        InsertKeepsClimb(keys, s[..n], x);
        InsertEnds(keys, s[..n], x);
      }
    }
  }

  /** Whatever the comparison does, the result climbs, ... */
  lemma {:induction false} SortClimbs(keys: seq<SortKey>, rows: seq<Row>)
    ensures Climbs(keys, SortRows(keys, rows))
    decreases |rows|
  {
    if rows != [] {
      SortClimbs(keys, rows[..|rows| - 1]);
      InsertKeepsClimb(keys, SortRows(keys, rows[..|rows| - 1]), rows[|rows| - 1]);
    }
  }

  lemma InsertAtEnd(keys: seq<SortKey>, s: seq<Row>, x: Row)
    requires s != [] ==> CompareRows(keys, x, s[|s| - 1]) >= 0
    ensures Insert(keys, s, x) == s + [x]
  {
    hide CompareRows;
  }

  /** ... and what climbs already stays as it is. */
  lemma {:induction false} ClimbingIsLeftAlone(keys: seq<SortKey>, s: seq<Row>)
    requires Climbs(keys, s)
    ensures SortRows(keys, s) == s
    decreases |s|
  {
    hide CompareRows, Insert;
    if s != [] {
      var n := |s| - 1;
      ClimbingIsLeftAlone(keys, s[..n]);
      if n > 0 {
        RowsAntisymmetric(keys, s[n - 1], s[n]);
      }
      InsertAtEnd(keys, s[..n], s[n]);
      assert s == s[..n] + [s[n]];
    }
  }

  /** A row that stands somewhere before a smaller one. */
  predicate Falls(keys: seq<SortKey>, s: seq<Row>, i: nat, j: nat) {
    i < j < |s| && CompareRows(keys, s[j], s[i]) < 0
  }

  /** The first such row, and the last smaller one behind it. */
  lemma FirstFall(keys: seq<SortKey>, s: seq<Row>, i0: nat, j0: nat) returns (i: nat, j: nat)
    requires Falls(keys, s, i0, j0)
    ensures i < j < |s| && Falls(keys, s, i, j)
    ensures forall k, l :: 0 <= k < i ==> !Falls(keys, s, k, l)
    ensures forall l :: l > j ==> !Falls(keys, s, i, l)
  {
    i := 0;
    while forall l :: !Falls(keys, s, i, l)
      invariant i <= i0
      invariant forall k, l :: 0 <= k < i ==> !Falls(keys, s, k, l)
      decreases i0 - i
    {
      assert i != i0;
      i := i + 1;
    }
    var l: nat :| Falls(keys, s, i, l);
    j := |s| - 1;
    while !Falls(keys, s, i, j)
      invariant l <= j < |s|
      invariant forall m :: m > j ==> !Falls(keys, s, i, m)
      decreases j
    {
      j := j - 1;
    }
  }

  /** The row at `i` moved behind the one at `j`. */
  function Moved(s: seq<Row>, i: nat, j: nat): (t: seq<Row>)
    requires i < j < |s|
    ensures |t| == |s|
    ensures forall k :: 0 <= k < |s| ==> t[k] == if i <= k < j then s[k + 1] else if k == j then s[i] else s[k]
  {
    s[..i] + s[i + 1..j + 1] + [s[i]] + s[j + 1..]
  }

  lemma MovedKeepsElements(s: seq<Row>, i: nat, j: nat)
    requires i < j < |s|
    ensures multiset(Moved(s, i, j)) == multiset(s)
  {
    assert s == s[..i] + ([s[i]] + s[i + 1..j + 1]) + s[j + 1..];
    assert Moved(s, i, j) == s[..i] + (s[i + 1..j + 1] + [s[i]]) + s[j + 1..];
  }

  lemma MovedClimbs(keys: seq<SortKey>, s: seq<Row>, i: nat, j: nat)
    requires Climbs(keys, s) && Falls(keys, s, i, j)
    requires forall k, l :: 0 <= k < i ==> !Falls(keys, s, k, l)
    requires forall l :: l > j ==> !Falls(keys, s, i, l)
    ensures Climbs(keys, Moved(s, i, j))
  {
    var t := Moved(s, i, j);
    forall k | 0 < k < |t| ensures CompareRows(keys, t[k - 1], t[k]) <= 0 {
      if k == i {
        assert !Falls(keys, s, i - 1, i + 1);
        RowsAntisymmetric(keys, s[i - 1], s[i + 1]);
      } else if k == j + 1 {
        assert !Falls(keys, s, i, j + 1);
        RowsAntisymmetric(keys, s[i], s[j + 1]);
      }
    }
  }

  /** Moving changes what is shown: else all rows in between would be the same one. */
  lemma MovedLooksDifferent(keys: seq<SortKey>, s: seq<Row>, i: nat, j: nat)
    requires OneRowPerText(s) && Falls(keys, s, i, j)
    ensures Canonical(Moved(s, i, j)) != Canonical(s)
  {
    var t := Moved(s, i, j);
    if Canonical(t) == Canonical(s) {
      forall k | i <= k < j ensures s[k] == s[k + 1] {
        assert Canonical(t)[k] == Canonical(s)[k];
        assert s[k] in s && s[k + 1] in s;
      }
      AllTheSame(s, i, j);
      RowsAntisymmetric(keys, s[i], s[j]);
    }
  }

  lemma {:induction false} AllTheSame(s: seq<Row>, i: nat, j: nat)
    requires i <= j < |s| && forall k :: i <= k < j ==> s[k] == s[k + 1]
    ensures s[i] == s[j]
    decreases j
  {
    if i < j {
      AllTheSame(s, i, j - 1);
    }
  }

  lemma Ahead(keys: seq<SortKey>, s: seq<Row>, a: nat, b: nat)
    requires a < |s| && b < |s| && CompareRows(keys, s[a], s[b]) < 0
    requires !Falls(keys, s, b, a)
    ensures a < b
  {
    RowsAntisymmetric(keys, s[a], s[b]);
  }

  lemma NoFallIsTransitive(keys: seq<SortKey>, s: seq<Row>, x: Row, y: Row, z: Row)
    requires OneRowPerText(s) && forall i, j :: !Falls(keys, s, i, j)
    requires x in s && y in s && z in s
    requires CompareRows(keys, x, y) <= 0 && CompareRows(keys, y, z) <= 0
    ensures CompareRows(keys, x, z) <= 0
  {
    var a :| 0 <= a < |s| && s[a] == x;
    var b :| 0 <= b < |s| && s[b] == y;
    var c :| 0 <= c < |s| && s[c] == z;
    RowsAntisymmetric(keys, x, y);
    RowsAntisymmetric(keys, y, z);
    RowsAntisymmetric(keys, x, z);
    if x != y && y != z && CompareRows(keys, z, x) < 0 {
      NoTie(keys, s, x, y);
      NoTie(keys, s, y, z);
      Ahead(keys, s, a, b);
      Ahead(keys, s, b, c);
      Ahead(keys, s, c, a);
    }
  }

  lemma NoTie(keys: seq<SortKey>, s: seq<Row>, x: Row, y: Row)
    requires OneRowPerText(s) && x in s && y in s && x != y
    ensures CompareRows(keys, x, y) != 0
  {
    if CompareRows(keys, x, y) == 0 {
      TiesLookAlike(keys, x, y);
    }
  }

  /** Without a fall the comparison is a total preorder on these rows. */
  lemma SomeFall(keys: seq<SortKey>, s: seq<Row>) returns (i: nat, j: nat)
    requires OneRowPerText(s) && !TotalPreorderOn(RowLe(keys), multiset(s))
    ensures Falls(keys, s, i, j)
  {
    hide CompareRows;
    if forall k, l :: !Falls(keys, s, k, l) {
      forall x, y | x in s && y in s ensures RowLe(keys)(x, y) || RowLe(keys)(y, x) {
        RowsAntisymmetric(keys, x, y);
      }
      forall x, y, z | x in s && y in s && z in s && RowLe(keys)(x, y) && RowLe(keys)(y, z)
        ensures RowLe(keys)(x, z)
      {
        NoFallIsTransitive(keys, s, x, y, z);
      }
    }
    i, j :| Falls(keys, s, i, j);
  }

  lemma SameElements(rows: seq<Row>, s: seq<Row>)
    requires multiset(s) == multiset(rows) && OneRowPerText(rows)
    ensures OneRowPerText(s)
  {
    forall x | x in s ensures x in rows {
      assert x in multiset(s);
    }
  }

  /** What is shown depends on the rows alone, and not on the server's order, exactly if
      the comparison is a total preorder on the rows. */
  lemma OrderOfServerDoesNotMatterIff(keys: seq<SortKey>, rows: seq<Row>)
    requires OneRowPerText(rows)
    ensures (forall other :: multiset(other) == multiset(rows) ==>
               Canonical(SortRows(keys, other)) == Canonical(SortRows(keys, rows)))
            <==> TotalPreorderOn(RowLe(keys), multiset(rows))
  {
    hide CompareRows, SortRows, Climbs, TotalPreorderOn, Canonical, Falls;
    var s := SortRows(keys, rows);
    SortKeepsElements(keys, rows);
    if TotalPreorderOn(RowLe(keys), multiset(rows)) {
      SortSorts(keys, rows);
      forall other | multiset(other) == multiset(rows) ensures Canonical(SortRows(keys, other)) == Canonical(s) {
        SortKeepsElements(keys, other);
        SortSorts(keys, other);
        SameCanonical(keys, SortRows(keys, other), s);
      }
    } else {
      SortClimbs(keys, rows);
      SameElements(rows, s);
      var i0, j0 := SomeFall(keys, s);
      var i, j := FirstFall(keys, s, i0, j0);
      var other := Moved(s, i, j);
      MovedKeepsElements(s, i, j);
      MovedClimbs(keys, s, i, j);
      ClimbingIsLeftAlone(keys, other);
      MovedLooksDifferent(keys, s, i, j);
    }
  }

  /** A row with one cell. */
  function OneCell(field: string, v: Value, text: string): Row {
    Row(map[field := v], text)
  }

  lemma OneCellsCompare(field: string, v: Value, a: string, w: Value, b: string)
    requires CompareRowValues(v, w) != 0
    ensures CompareRows([SortKey(field, false)], OneCell(field, v, a), OneCell(field, w, b)) == CompareRowValues(v, w)
  {
  }

  lemma ThreeClimb(keys: seq<SortKey>, x: Row, y: Row, z: Row)
    requires CompareRows(keys, x, y) < 0 && CompareRows(keys, y, z) < 0
    ensures SortRows(keys, [x, y, z]) == [x, y, z]
  {
    hide CompareRows, SortRows;
    ClimbingIsLeftAlone(keys, [x, y, z]);
  }

  /** Rows with the numbers 9, 10 and 1e99999999999999999999 in one column, which is the
      sort key: two orders of them, both left as they are. */
  lemma CircleDependsOnServerOrder(field: string, a: string, b: string, c: string)
    requires a != b
    ensures var nine := OneCell(field, Number("9", Some(Finite(9.0))), a);
            var ten := OneCell(field, Number("10", Some(Finite(10.0))), b);
            var huge := OneCell(field, Number("1e99999999999999999999", None), c);
            var keys := [SortKey(field, false)];
            && multiset([nine, ten, huge]) == multiset([ten, huge, nine])
            && SortRows(keys, [nine, ten, huge]) == [nine, ten, huge]
            && SortRows(keys, [ten, huge, nine]) == [ten, huge, nine]
            && Canonical([nine, ten, huge]) != Canonical([ten, huge, nine])
  {
    CircleOfNumbers();
    hide CompareRowValues, SortRows, CompareRows, OneCell;
    var nine, ten, huge := Number("9", Some(Finite(9.0))), Number("10", Some(Finite(10.0))),
                           Number("1e99999999999999999999", None);
    OneCellsCompare(field, nine, a, ten, b);
    OneCellsCompare(field, ten, b, huge, c);
    OneCellsCompare(field, huge, c, nine, a);
    var keys := [SortKey(field, false)];
    ThreeClimb(keys, OneCell(field, nine, a), OneCell(field, ten, b), OneCell(field, huge, c));
    ThreeClimb(keys, OneCell(field, ten, b), OneCell(field, huge, c), OneCell(field, nine, a));
    TwoOrdersLookDifferent(field, nine, a, ten, b, huge, c);
  }

  lemma TwoOrdersLookDifferent(field: string, x: Value, a: string, y: Value, b: string, z: Value, c: string)
    requires a != b
    ensures var p, q, r := OneCell(field, x, a), OneCell(field, y, b), OneCell(field, z, c);
            multiset([p, q, r]) == multiset([q, r, p]) && Canonical([p, q, r]) != Canonical([q, r, p])
  {
    var p, q, r := OneCell(field, x, a), OneCell(field, y, b), OneCell(field, z, c);
    assert Canonical([p, q, r])[0] == a && Canonical([q, r, p])[0] == b;
  }
}
