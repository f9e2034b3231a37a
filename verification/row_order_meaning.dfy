/** The order that the sort of internal/datasources/rows_datasource.go puts rows in,
    written out without its comparison functions. */
module RowOrderMeaning {
  import opened Wrappers
  import opened Ordering
  import opened RowOrder
  import opened RowOrderLimits

  /** `a` comes first in a dictionary: it is a beginning of `b`, or has the smaller
      character where they part. */
  ghost predicate TextBefore(a: string, b: string) {
    exists k :: 0 <= k <= |a| && k < |b| && a[..k] == b[..k] && (k == |a| || a[k] < b[k])
  }

  predicate NumberBefore(a: BigFloat, b: BigFloat) {
    || (a.NegInf? && !b.NegInf?)
    || (b.PosInf? && !a.PosInf?)
    || (a.Finite? && b.Finite? && a.value < b.value)
  }

  /** A null is smaller than anything else, numbers that can be read go by value, strings
      by their text, and all other pairs by their JSON. */
  ghost predicate Smaller(x: Value, y: Value) {
    if x.Null? || y.Null? then x.Null? && !y.Null?
    else
      match (x, y)
      case (Number(_, Some(a)), Number(_, Some(b))) => NumberBefore(a, b)
      case (Text(a, _), Text(b, _)) => TextBefore(a, b)
      case _ => TextBefore(x.Json(), y.Json())
  }

  /** The column is smaller in `x`; a missing one is null. */
  ghost predicate SmallerIn(field: string, x: Row, y: Row) {
    Smaller(if field in x.cells then x.cells[field] else Null, if field in y.cells then y.cells[field] else Null)
  }

  ghost predicate Apart(field: string, x: Row, y: Row) {
    SmallerIn(field, x, y) || SmallerIn(field, y, x)
  }

  /** The first key that tells the rows apart has the smaller value in `x`, or in `y` if it
      is a descending one; if none does, the JSON of the row decides. */
  ghost predicate InOrder(keys: seq<SortKey>, x: Row, y: Row) {
    && (forall k :: 0 <= k < |keys| && Decides(keys, k, x, y) ==>
          if keys[k].descending then SmallerIn(keys[k].field, y, x) else SmallerIn(keys[k].field, x, y))
    && ((forall k :: 0 <= k < |keys| ==> !Apart(keys[k].field, x, y)) ==>
          x.canonical == y.canonical || TextBefore(x.canonical, y.canonical))
  }

  ghost predicate Decides(keys: seq<SortKey>, k: nat, x: Row, y: Row)
    requires k < |keys|
  {
    Apart(keys[k].field, x, y) && forall m :: 0 <= m < k ==> !Apart(keys[m].field, x, y)
  }

  lemma {:induction false} TextBeforeIff(a: string, b: string)
    ensures CompareText(a, b) < 0 <==> TextBefore(a, b)
    decreases |a|
  {
    if a != "" && b != "" && a[0] == b[0] {
      TextBeforeIff(a[1..], b[1..]);
      if TextBefore(a[1..], b[1..]) {
        var k :| 0 <= k <= |a[1..]| && k < |b[1..]| && a[1..][..k] == b[1..][..k]
                 && (k == |a[1..]| || a[1..][k] < b[1..][k]);
        assert a[..k + 1] == [a[0]] + a[1..][..k] && b[..k + 1] == [b[0]] + b[1..][..k];
      }
      if TextBefore(a, b) {
        var k :| 0 <= k <= |a| && k < |b| && a[..k] == b[..k] && (k == |a| || a[k] < b[k]);
        assert k > 0;
        assert a[1..][..k - 1] == a[..k][1..] && b[1..][..k - 1] == b[..k][1..];
      }
    } else if a == "" {
      assert b != "" ==> a[..0] == b[..0];
    } else if b != "" {
      if TextBefore(a, b) {
        var k :| 0 <= k <= |a| && k < |b| && a[..k] == b[..k] && (k == |a| || a[k] < b[k]);
        if k > 0 { assert a[..k][0] == b[..k][0]; }
      }
      assert a[..0] == b[..0];
    }
  }

  lemma SmallerIff(x: Value, y: Value)
    ensures CompareRowValues(x, y) < 0 <==> Smaller(x, y)
    ensures CompareRowValues(x, y) > 0 <==> Smaller(y, x)
  {
    TextBeforeIff(x.Json(), y.Json());
    TextBeforeIff(y.Json(), x.Json());
    CompareTextOrder(x.Json(), y.Json());
    if x.Text? && y.Text? {
      TextBeforeIff(x.text, y.text);
      TextBeforeIff(y.text, x.text);
      CompareTextOrder(x.text, y.text);
    }
  }

  lemma KeyIff(key: SortKey, x: Row, y: Row)
    ensures CompareKey(key, x, y) == 0 <==> !Apart(key.field, x, y)
    ensures CompareKey(key, x, y) < 0 <==>
            if key.descending then SmallerIn(key.field, y, x) else SmallerIn(key.field, x, y)
  {
    SmallerIff(Cell(x, key.field), Cell(y, key.field));
  }

  lemma {:induction false} InOrderIff(keys: seq<SortKey>, x: Row, y: Row)
    ensures CompareRows(keys, x, y) <= 0 <==> InOrder(keys, x, y)
    decreases |keys|
  {
    hide TextBefore, Apart, SmallerIn, CompareKey;
    if keys == [] {
      TextBeforeIff(x.canonical, y.canonical);
      CompareTextOrder(x.canonical, y.canonical);
    } else {
      KeyIff(keys[0], x, y);
      InOrderIff(keys[1..], x, y);
      InOrderStep(keys, x, y);
    }
  }

  lemma InOrderStep(keys: seq<SortKey>, x: Row, y: Row)
    requires keys != []
    ensures InOrder(keys, x, y) <==>
            if Apart(keys[0].field, x, y)
            then if keys[0].descending then SmallerIn(keys[0].field, y, x) else SmallerIn(keys[0].field, x, y)
            else InOrder(keys[1..], x, y)
  {
  }

  /** What the sort returns: the same rows, each neighbour in order with the next, and for
      columns that can be sorted each row with all behind it. */
  lemma SortFollowsTheKeys(keys: seq<SortKey>, rows: seq<Row>)
    ensures var s := SortRows(keys, rows);
            && multiset(s) == multiset(rows)
            && (forall i :: 0 < i < |s| ==> InOrder(keys, s[i - 1], s[i]))
            && (Sortable(keys, rows) ==> forall i, j :: 0 <= i < j < |s| ==> InOrder(keys, s[i], s[j]))
  {
    hide InOrder, CompareRows, SortRows;
    var s := SortRows(keys, rows);
    SortKeepsElements(keys, rows);
    SortClimbs(keys, rows);
    forall i | 0 < i < |s| ensures InOrder(keys, s[i - 1], s[i]) {
      InOrderIff(keys, s[i - 1], s[i]);
    }
    if Sortable(keys, rows) {
      SortIsASortedPermutation(keys, rows);
      forall i, j | 0 <= i < j < |s| ensures InOrder(keys, s[i], s[j]) {
        assert RowLe(keys)(s[i], s[j]);
        InOrderIff(keys, s[i], s[j]);
      }
    }
  }
}
