/** `compareRowValues` and `sortRowsByKeys` of
    internal/datasources/rows_datasource.go. */
module RowOrder {
  import opened Wrappers
  import opened Ordering

  /** A number as math/big reads it; a decimal exponent it cannot hold has no
      such reading. */
  datatype BigFloat = NegInf | Finite(value: real) | PosInf

  function Cmp(a: BigFloat, b: BigFloat): int {
    match (a, b)
    case (Finite(x), Finite(y)) => if x < y then -1 else if x > y then 1 else 0
    case _ => Level(a) - Level(b)
  }

  function Level(a: BigFloat): int {
    if a.NegInf? then -1 else if a.PosInf? then 1 else 0
  }

  /** A decoded JSON value.  `json` is what json.Marshal makes of it; a number
      marshals to its own text. */
  datatype Value =
    | Null
    | Number(text: string, parsed: Option<BigFloat>)
    | Text(text: string, json: string)
    | Other(json: string)
  {
    function Json(): string {
      match this
      case Null => "null"
      case Number(text, _) => text
      case Text(_, json) => json
      case Other(json) => json
    }
  }

  /** What RFC 8259, sections 3, 6 and 7, says of the first byte of a value. */
  predicate Encoded(v: Value) {
    match v
    case Null => true
    case Number(text, _) => text != "" && (text[0] == '-' || '0' <= text[0] <= '9')
    case Text(_, json) => json != "" && json[0] == '"'
    case Other(json) => json != "" && json[0] in {'[', '{', 't', 'f'}
  }

  /** `strings.Compare` */
  function CompareText(a: string, b: string): (r: int)
    ensures -1 <= r <= 1
  {
    if a == "" then if b == "" then 0 else -1
    else if b == "" then 1
    else if a[0] < b[0] then -1
    else if a[0] > b[0] then 1
    else CompareText(a[1..], b[1..])
  }

  function CompareRowValues(left: Value, right: Value): int {
    if left.Null? || right.Null? then
      if left.Null? && right.Null? then 0 else if left.Null? then -1 else 1
    else if left.Number? && right.Number? && left.parsed.Some? && right.parsed.Some? then
      Cmp(left.parsed.value, right.parsed.value)
    else if left.Text? && right.Text? then CompareText(left.text, right.text)
    else CompareText(left.Json(), right.Json())
  }

  // ---------------------------------------------------------------------
  // Text comparison is a total order
  // ---------------------------------------------------------------------

  lemma {:induction false} CompareTextOrder(a: string, b: string)
    ensures CompareText(a, b) == -CompareText(b, a)
    ensures CompareText(a, b) == 0 <==> a == b
    decreases |a|
  {
    if a != "" && b != "" && a[0] == b[0] {
      CompareTextOrder(a[1..], b[1..]);
      assert a == [a[0]] + a[1..] && b == [b[0]] + b[1..];
    }
  }

  lemma {:induction false} CompareTextTransitive(a: string, b: string, c: string)
    requires CompareText(a, b) <= 0 && CompareText(b, c) <= 0
    ensures CompareText(a, c) <= 0
    ensures CompareText(a, b) < 0 || CompareText(b, c) < 0 ==> CompareText(a, c) < 0
    decreases |a|
  {
    if a != "" && b != "" && c != "" && a[0] == b[0] == c[0] {
      CompareTextTransitive(a[1..], b[1..], c[1..]);
    }
  }

  // ---------------------------------------------------------------------
  // Values
  // ---------------------------------------------------------------------

  ghost predicate ValueLe(x: Value, y: Value) {
    CompareRowValues(x, y) <= 0
  }

  /** The kinds in the order that the comparison puts them.  Strings come before
      numbers, because a quote is a smaller byte than a digit or a minus sign. */
  function Kind(v: Value): nat {
    match v
    case Null => 0
    case Text(_, _) => 1
    case Number(_, _) => 2
    case Other(_) => 3
  }

  lemma ComparisonIsAntisymmetric(x: Value, y: Value)
    ensures CompareRowValues(x, y) < 0 <==> CompareRowValues(y, x) > 0
    ensures CompareRowValues(x, y) == 0 <==> CompareRowValues(y, x) == 0
  {
    CompareTextOrder(x.Json(), y.Json());
    if x.Text? && y.Text? {
      CompareTextOrder(x.text, y.text);
    }
  }

  lemma KindsComeInOrder(x: Value, y: Value)
    requires Encoded(x) && Encoded(y) && Kind(x) < Kind(y)
    ensures CompareRowValues(x, y) < 0
  {
  }

  /** Two numbers of which at least one has no reading compare as text. */
  predicate Unread(v: Value) {
    v.Number? && v.parsed.None?
  }

  predicate Read(v: Value) {
    v.Number? && v.parsed.Some?
  }

  /** The text of `u` parts the numbers around it in numeric order as well. */
  predicate Separates(u: Value, low: Value, high: Value)
    requires Unread(u) && Read(low) && Read(high)
  {
    CompareText(low.text, u.text) < 0 && CompareText(u.text, high.text) < 0 ==>
      Cmp(low.parsed.value, high.parsed.value) < 0
  }

  ghost predicate Consistent(s: multiset<Value>) {
    forall u, low, high :: u in s && low in s && high in s && Unread(u) && Read(low) && Read(high) ==>
      Separates(u, low, high)
  }

  /** Values as a decoder produces them: proper JSON, and one reading a text. */
  ghost predicate Decoded(s: multiset<Value>) {
    && (forall x :: x in s ==> Encoded(x))
    && (forall x, y :: x in s && y in s && x.Number? && y.Number? && x.text == y.text ==> x.parsed == y.parsed)
  }

  lemma CmpTransitive(a: BigFloat, b: BigFloat, c: BigFloat)
    ensures Cmp(a, b) <= 0 && Cmp(b, c) <= 0 ==> Cmp(a, c) <= 0
    ensures Cmp(a, b) <= 0 <==> Cmp(b, a) >= 0
  {
  }

  lemma NumbersTransitive(s: multiset<Value>, x: Value, y: Value, z: Value)
    requires Decoded(s) && Consistent(s)
    requires x in s && y in s && z in s && x.Number? && y.Number? && z.Number?
    requires ValueLe(x, y) && ValueLe(y, z)
    ensures ValueLe(x, z)
  {
    CompareTextOrder(x.text, y.text);
    CompareTextOrder(y.text, z.text);
    CompareTextOrder(x.text, z.text);
    if Read(x) && Read(y) && Read(z) {
      CmpTransitive(x.parsed.value, y.parsed.value, z.parsed.value);
    } else if Unread(x) && Read(y) && Read(z) {
      if !ValueLe(x, z) { assert Separates(x, z, y); }
    } else if Read(x) && Unread(y) && Read(z) {
      assert Separates(y, x, z);
    } else if Read(x) && Read(y) && Unread(z) {
      if !ValueLe(x, z) { assert Separates(z, y, x); }
    } else {
      CompareTextTransitive(x.text, y.text, z.text);
    }
  }

  lemma ValuesTransitive(s: multiset<Value>, x: Value, y: Value, z: Value)
    requires Decoded(s) && Consistent(s)
    requires x in s && y in s && z in s && ValueLe(x, y) && ValueLe(y, z)
    ensures ValueLe(x, z)
  {
    if Kind(x) < Kind(z) {
      KindsComeInOrder(x, z);
    } else if Kind(y) < Kind(x) {
      KindsComeInOrder(y, x);
      ComparisonIsAntisymmetric(x, y);
    } else if Kind(z) < Kind(y) {
      KindsComeInOrder(z, y);
      ComparisonIsAntisymmetric(y, z);
    } else if x.Number? {
      NumbersTransitive(s, x, y, z);
    } else if x.Text? {
      CompareTextTransitive(x.text, y.text, z.text);
    } else if x.Other? {
      CompareTextTransitive(x.json, y.json, z.json);
    }
  }

  /** The comparison is a total preorder on exactly those sets of decoded values
      in which every number that math/big cannot read parts, by its text, the
      numbers it can read in numeric order. */
  lemma TotalPreorderIffConsistent(s: multiset<Value>)
    requires Decoded(s)
    ensures TotalPreorderOn(ValueLe, s) <==> Consistent(s)
  {
    if Consistent(s) {
      forall x, y | x in s && y in s ensures ValueLe(x, y) || ValueLe(y, x) {
        ComparisonIsAntisymmetric(x, y);
      }
      forall x, y, z | x in s && y in s && z in s && ValueLe(x, y) && ValueLe(y, z) ensures ValueLe(x, z) {
        ValuesTransitive(s, x, y, z);
      }
    }
    if TotalPreorderOn(ValueLe, s) {
      forall u, low, high | u in s && low in s && high in s && Unread(u) && Read(low) && Read(high)
        ensures Separates(u, low, high)
      {
        if CompareText(low.text, u.text) < 0 && CompareText(u.text, high.text) < 0 {
          if Cmp(low.parsed.value, high.parsed.value) >= 0 {
            CmpTransitive(high.parsed.value, low.parsed.value, low.parsed.value);
            assert ValueLe(high, low) && ValueLe(low, u);
            assert ValueLe(high, u);
            CompareTextOrder(high.text, u.text);
          }
        }
      }
    }
  }

  /** In particular if math/big reads every number. */
  lemma TotalPreorderWhenAllRead(s: multiset<Value>)
    requires Decoded(s) && forall x :: x in s ==> !Unread(x)
    ensures TotalPreorderOn(ValueLe, s)
  {
    TotalPreorderIffConsistent(s);
  }

  /** Three JSON numbers that the comparison puts in a circle: 9 before 10 by
      value, and 10 before 1e99999999999999999999 before 9 by text. */
  lemma CircleOfNumbers()
    ensures var nine := Number("9", Some(Finite(9.0)));
            var ten := Number("10", Some(Finite(10.0)));
            var huge := Number("1e99999999999999999999", None);
            && Encoded(nine) && Encoded(ten) && Encoded(huge)
            && CompareRowValues(nine, ten) < 0
            && CompareRowValues(ten, huge) < 0
            && CompareRowValues(huge, nine) < 0
  {
    assert "10"[1..] == "0" && "1e99999999999999999999"[1..] == "e99999999999999999999";
  }

  // ---------------------------------------------------------------------
  // Rows
  // ---------------------------------------------------------------------

  /** A decoded row, with the JSON text that json.Marshal makes of it. */
  datatype Row = Row(cells: map<string, Value>, canonical: string)

  datatype SortKey = SortKey(field: string, descending: bool)

  /** A missing column reads as nil. */
  function Cell(r: Row, field: string): Value {
    if field in r.cells then r.cells[field] else Null
  }

  function CompareKey(key: SortKey, left: Row, right: Row): int {
    var c := CompareRowValues(Cell(left, key.field), Cell(right, key.field));
    if key.descending then -c else c
  }

  /** The first key that tells the rows apart decides, then their JSON text. */
  function CompareRows(keys: seq<SortKey>, left: Row, right: Row): int {
    if keys == [] then CompareText(left.canonical, right.canonical)
    else if CompareKey(keys[0], left, right) != 0 then CompareKey(keys[0], left, right)
    else CompareRows(keys[1..], left, right)
  }

  method LessRows(keys: seq<SortKey>, left: Row, right: Row) returns (less: bool)
    ensures less == (CompareRows(keys, left, right) < 0)
  {
    var i := 0;
    while i < |keys|
      invariant i <= |keys|
      invariant CompareRows(keys, left, right) == CompareRows(keys[i..], left, right)
    {
      var key := keys[i];
      assert keys[i..][0] == key && keys[i..][1..] == keys[i + 1..];
      if key.field in left.cells || key.field in right.cells {
        var cmp := CompareRowValues(Cell(left, key.field), Cell(right, key.field));
        if cmp != 0 {
          return if key.descending then cmp > 0 else cmp < 0;
        }
      }
      i := i + 1;
    }
    return CompareText(left.canonical, right.canonical) < 0;
  }

  ghost function RowLe(keys: seq<SortKey>): (Row, Row) -> bool {
    (x: Row, y: Row) => CompareRows(keys, x, y) <= 0
  }

  /** The values that a column shows in these rows. */
  function Column(field: string, rows: seq<Row>): (c: seq<Value>)
    ensures |c| == |rows| && forall i :: 0 <= i < |c| ==> c[i] == Cell(rows[i], field)
  {
    seq(|rows|, i requires 0 <= i < |rows| => Cell(rows[i], field))
  }

  /** Every sort column is one that the value comparison can order. */
  ghost predicate Sortable(keys: seq<SortKey>, rows: seq<Row>) {
    forall k :: k in keys ==>
      Decoded(multiset(Column(k.field, rows))) && Consistent(multiset(Column(k.field, rows)))
  }

  lemma KeyAntisymmetric(key: SortKey, x: Row, y: Row)
    ensures CompareKey(key, x, y) < 0 <==> CompareKey(key, y, x) > 0
    ensures CompareKey(key, x, y) == 0 <==> CompareKey(key, y, x) == 0
  {
    ComparisonIsAntisymmetric(Cell(x, key.field), Cell(y, key.field));
  }

  lemma KeyTransitive(key: SortKey, rows: seq<Row>, x: Row, y: Row, z: Row)
    requires Decoded(multiset(Column(key.field, rows))) && Consistent(multiset(Column(key.field, rows)))
    requires x in rows && y in rows && z in rows
    requires CompareKey(key, x, y) <= 0 && CompareKey(key, y, z) <= 0
    ensures CompareKey(key, x, z) <= 0
    ensures CompareKey(key, x, y) < 0 || CompareKey(key, y, z) < 0 ==> CompareKey(key, x, z) < 0
  {
    var a, b, c := Cell(x, key.field), Cell(y, key.field), Cell(z, key.field);
    var s := multiset(Column(key.field, rows));
    ComparisonIsAntisymmetric(a, b);
    ComparisonIsAntisymmetric(b, c);
    ComparisonIsAntisymmetric(a, c);
    if key.descending {
      ValuesTransitive(s, c, b, a);
      if ValueLe(a, c) && ValueLe(b, a) { ValuesTransitive(s, b, a, c); }
      if ValueLe(a, c) && ValueLe(c, b) { ValuesTransitive(s, a, c, b); }
    } else {
      ValuesTransitive(s, a, b, c);
      if ValueLe(c, a) && ValueLe(b, c) { ValuesTransitive(s, b, c, a); }
      if ValueLe(c, a) && ValueLe(a, b) { ValuesTransitive(s, c, a, b); }
    }
  }

  lemma {:induction false} RowsAntisymmetric(keys: seq<SortKey>, x: Row, y: Row)
    ensures CompareRows(keys, x, y) < 0 <==> CompareRows(keys, y, x) > 0
    ensures CompareRows(keys, x, y) == 0 <==> CompareRows(keys, y, x) == 0
    decreases |keys|
  {
    CompareTextOrder(x.canonical, y.canonical);
    if keys != [] {
      KeyAntisymmetric(keys[0], x, y);
      RowsAntisymmetric(keys[1..], x, y);
    }
  }

  lemma {:induction false} RowsTransitive(keys: seq<SortKey>, rows: seq<Row>, x: Row, y: Row, z: Row)
    requires Sortable(keys, rows) && x in rows && y in rows && z in rows
    requires CompareRows(keys, x, y) <= 0 && CompareRows(keys, y, z) <= 0
    ensures CompareRows(keys, x, z) <= 0
    decreases |keys|
  {
    if keys == [] {
      CompareTextTransitive(x.canonical, y.canonical, z.canonical);
    } else {
      var key := keys[0];
      assert key in keys;
      KeyTransitive(key, rows, x, y, z);
      if CompareKey(key, x, y) == 0 && CompareKey(key, y, z) == 0 {
        KeyAntisymmetric(key, x, y);
        KeyAntisymmetric(key, y, z);
        KeyAntisymmetric(key, x, z);
        KeyTransitive(key, rows, z, y, x);
        assert Sortable(keys[1..], rows);
        RowsTransitive(keys[1..], rows, x, y, z);
      }
    }
  }

  lemma RowsAreTotallyPreordered(keys: seq<SortKey>, rows: seq<Row>)
    requires Sortable(keys, rows)
    ensures TotalPreorderOn(RowLe(keys), multiset(rows))
  {
    var le := RowLe(keys);
    forall x, y | x in multiset(rows) && y in multiset(rows) ensures le(x, y) || le(y, x) {
      RowsAntisymmetric(keys, x, y);
    }
    forall x, y, z | x in multiset(rows) && y in multiset(rows) && z in multiset(rows) && le(x, y) && le(y, z)
      ensures le(x, z)
    {
      RowsTransitive(keys, rows, x, y, z);
    }
  }

  /** Rows that tie have the same JSON text. */
  lemma {:induction false} TiesLookAlike(keys: seq<SortKey>, x: Row, y: Row)
    requires CompareRows(keys, x, y) == 0
    ensures x.canonical == y.canonical
    decreases |keys|
  {
    CompareTextOrder(x.canonical, y.canonical);
    if keys != [] { TiesLookAlike(keys[1..], x, y); }
  }

  // ---------------------------------------------------------------------
  // The sort
  // ---------------------------------------------------------------------

  /** Moves `x` before the rows at the end that it is less than. */
  function Insert(keys: seq<SortKey>, s: seq<Row>, x: Row): seq<Row> {
    if s == [] || CompareRows(keys, x, s[|s| - 1]) >= 0 then s + [x]
    else Insert(keys, s[..|s| - 1], x) + [s[|s| - 1]]
  }

  function SortRows(keys: seq<SortKey>, rows: seq<Row>): seq<Row> {
    if rows == [] then []
    else Insert(keys, SortRows(keys, rows[..|rows| - 1]), rows[|rows| - 1])
  }

  lemma {:induction false} InsertKeepsElements(keys: seq<SortKey>, s: seq<Row>, x: Row)
    ensures multiset(Insert(keys, s, x)) == multiset(s) + multiset{x}
    decreases |s|
  {
    if s != [] && CompareRows(keys, x, s[|s| - 1]) < 0 {
      InsertKeepsElements(keys, s[..|s| - 1], x);
      assert s == s[..|s| - 1] + [s[|s| - 1]];
    }
  }

  lemma {:induction false} SortKeepsElements(keys: seq<SortKey>, rows: seq<Row>)
    ensures multiset(SortRows(keys, rows)) == multiset(rows)
    decreases |rows|
  {
    if rows != [] {
      var last := |rows| - 1;
      SortKeepsElements(keys, rows[..last]);
      InsertKeepsElements(keys, SortRows(keys, rows[..last]), rows[last]);
      assert rows == rows[..last] + [rows[last]];
    }
  }

  lemma AppendSorts(keys: seq<SortKey>, s: seq<Row>, x: Row)
    requires s != [] && Sorted(RowLe(keys), s) && CompareRows(keys, x, s[|s| - 1]) >= 0
    requires TotalPreorderOn(RowLe(keys), multiset(s) + multiset{x})
    ensures Sorted(RowLe(keys), s + [x])
  {
    hide CompareRows;
    var le, last := RowLe(keys), s[|s| - 1];
    RowsAntisymmetric(keys, x, last);
    MembersOf(s, |s| - 1);
    FewerElements(le, multiset(s) + multiset{x}, multiset(s));
    forall i | 0 <= i < |s| ensures le(s[i], x) {
      MembersOf(s, i);
      LastIsGreatest(le, s, s[i]);
    }
    AppendGreatest(le, s, x);
  }

  lemma LastStaysGreatest(keys: seq<SortKey>, s: seq<Row>, x: Row, t: seq<Row>)
    requires s != [] && Sorted(RowLe(keys), s) && CompareRows(keys, x, s[|s| - 1]) < 0
    requires TotalPreorderOn(RowLe(keys), multiset(s) + multiset{x})
    requires Sorted(RowLe(keys), t) && multiset(t) == multiset(s[..|s| - 1]) + multiset{x}
    ensures Sorted(RowLe(keys), t + [s[|s| - 1]])
  {
    hide CompareRows;
    var le, last := RowLe(keys), s[|s| - 1];
    assert s == s[..|s| - 1] + [last];
    FewerElements(le, multiset(s) + multiset{x}, multiset(s));
    forall i | 0 <= i < |t| ensures le(t[i], last) {
      MembersOf(t, i);
      if t[i] in multiset(s) {
        LastIsGreatest(le, s, t[i]);
      }
    }
    AppendGreatest(le, t, last);
  }

  lemma {:induction false} InsertSorts(keys: seq<SortKey>, s: seq<Row>, x: Row)
    requires TotalPreorderOn(RowLe(keys), multiset(s) + multiset{x})
    requires Sorted(RowLe(keys), s)
    ensures Sorted(RowLe(keys), Insert(keys, s, x))
    decreases |s|
  {
    hide CompareRows, TotalPreorderOn;
    if s == [] {
    } else if CompareRows(keys, x, s[|s| - 1]) >= 0 {
      AppendSorts(keys, s, x);
    } else {
      var front := s[..|s| - 1];
      assert s == front + [s[|s| - 1]];
      FewerElements(RowLe(keys), multiset(s) + multiset{x}, multiset(front) + multiset{x});
      InsertSorts(keys, front, x);
      InsertKeepsElements(keys, front, x);
      LastStaysGreatest(keys, s, x, Insert(keys, front, x));
    }
  }

  lemma {:induction false} SortSorts(keys: seq<SortKey>, rows: seq<Row>)
    requires TotalPreorderOn(RowLe(keys), multiset(rows))
    ensures Sorted(RowLe(keys), SortRows(keys, rows))
    decreases |rows|
  {
    if rows != [] {
      var last := |rows| - 1;
      assert rows == rows[..last] + [rows[last]];
      FewerElements(RowLe(keys), multiset(rows), multiset(rows[..last]));
      SortSorts(keys, rows[..last]);
      SortKeepsElements(keys, rows[..last]);
      InsertSorts(keys, SortRows(keys, rows[..last]), rows[last]);
    }
  }

  /** The result is a sorted permutation of the rows. */
  lemma SortIsASortedPermutation(keys: seq<SortKey>, rows: seq<Row>)
    requires Sortable(keys, rows)
    ensures multiset(SortRows(keys, rows)) == multiset(rows)
    ensures Sorted(RowLe(keys), SortRows(keys, rows))
  {
    RowsAreTotallyPreordered(keys, rows);
    SortKeepsElements(keys, rows);
    SortSorts(keys, rows);
  }

  function Canonical(rows: seq<Row>): (c: seq<string>)
    ensures |c| == |rows| && forall i :: 0 <= i < |c| ==> c[i] == rows[i].canonical
  {
    seq(|rows|, i requires 0 <= i < |rows| => rows[i].canonical)
  }

  /** The JSON that a data source shows does not depend on the order in which the
      server returned the rows, nor on the sorting algorithm: any sorted
      arrangement of the same rows shows the same text. */
  lemma OrderOfServerDoesNotMatter(keys: seq<SortKey>, rows: seq<Row>, other: seq<Row>)
    requires Sortable(keys, rows)
    requires multiset(other) == multiset(rows)
    ensures Canonical(SortRows(keys, other)) == Canonical(SortRows(keys, rows))
    ensures forall s: seq<Row> :: multiset(s) == multiset(rows) && Sorted(RowLe(keys), s) ==>
              Canonical(s) == Canonical(SortRows(keys, rows))
  {
    RowsAreTotallyPreordered(keys, rows);
    SortIsASortedPermutation(keys, rows);
    SortKeepsElements(keys, other);
    SortSorts(keys, other);
    forall s: seq<Row> | multiset(s) == multiset(rows) && Sorted(RowLe(keys), s)
      ensures Canonical(s) == Canonical(SortRows(keys, rows))
    {
      SameCanonical(keys, s, SortRows(keys, rows));
    }
  }

  lemma SameCanonical(keys: seq<SortKey>, a: seq<Row>, b: seq<Row>)
    requires TotalPreorderOn(RowLe(keys), multiset(a))
    requires multiset(a) == multiset(b)
    requires Sorted(RowLe(keys), a) && Sorted(RowLe(keys), b)
    ensures Canonical(a) == Canonical(b)
  {
    SortedArrangementsAgree(RowLe(keys), a, b);
    forall i | 0 <= i < |a| ensures a[i].canonical == b[i].canonical {
      assert Ties(RowLe(keys), a[i], b[i]);
      RowsAntisymmetric(keys, a[i], b[i]);
      TiesLookAlike(keys, a[i], b[i]);
    }
  }

  // ---------------------------------------------------------------------
  // The sort of the source: an index slice, sorted in place
  // ---------------------------------------------------------------------

  ghost predicate Indexes(order: seq<nat>, rows: seq<Row>) {
    forall i :: 0 <= i < |order| ==> order[i] < |rows|
  }

  ghost function View(rows: seq<Row>, order: seq<nat>): (v: seq<Row>)
    requires Indexes(order, rows)
    ensures |v| == |order| && forall i :: 0 <= i < |v| ==> v[i] == rows[order[i]]
  {
    seq(|order|, i requires 0 <= i < |order| => rows[order[i]])
  }

  /** Sinks the index at `i` into the sorted ones before it. */
  method Sink(keys: seq<SortKey>, rows: seq<Row>, order: array<nat>, i: nat)
    requires i < order.Length && Indexes(order[..], rows)
    modifies order
    ensures Indexes(order[..], rows)
    ensures View(rows, order[..i + 1]) ==
            Insert(keys, View(rows, old(order[..i])), rows[old(order[i])])
    ensures order[i + 1..] == old(order[i + 1..])
  {
    hide Insert, CompareRows, Sinking, View, Indexes;
    ghost var w := order[..];
    ghost var rest := w[i + 1..];
    IndexedSlices(rows, w, i);
    ghost var a, x := View(rows, w[..i]), rows[order[i]];
    assert order[..i] == w[..i] && order[i + 1..] == rest;
    StartsSinking(rows, w[..i + 1]);
    assert w[..i + 1][..i] == w[..i] && a[..i] == a && a[i..] == [];
    var j := i;
    while j > 0
      invariant j <= i && w == order[..] && w[i + 1..] == rest
      invariant Sinking(rows, w[..i + 1], a, x, j)
      invariant Insert(keys, a, x) == Insert(keys, a[..j], x) + a[j..]
    {
      AtTheSink(rows, w[..i + 1], a, x, j);
      var less := LessRows(keys, rows[order[j]], rows[order[j - 1]]);
      if !less {
        break;
      }
      InsertPasses(keys, a, x, j);
      SwapSinks(rows, w[..i + 1], a, x, j);
      SlicesOfSwap(w, j, i + 1);
      order[j], order[j - 1] := order[j - 1], order[j];
      w := w[j := w[j - 1]][j - 1 := w[j]];
      j := j - 1;
    }
    SinkStops(keys, rows, w[..i + 1], a, x, j);
    WholeIsIndexed(rows, w, i + 1);
    assert order[..i + 1] == w[..i + 1] && order[i + 1..] == rest;
  }

  lemma SinkStops(keys: seq<SortKey>, rows: seq<Row>, o: seq<nat>, a: seq<Row>, x: Row, j: nat)
    requires Sinking(rows, o, a, x, j)
    requires j == 0 || CompareRows(keys, x, a[j - 1]) >= 0
    requires Insert(keys, a, x) == Insert(keys, a[..j], x) + a[j..]
    ensures Indexes(o, rows) && View(rows, o) == Insert(keys, a, x)
  {
    hide Insert, CompareRows;
    InsertStops(keys, a[..j], x);
  }

  lemma IndexedSlices(rows: seq<Row>, w: seq<nat>, i: nat)
    requires Indexes(w, rows) && i < |w|
    ensures w[i] < |rows| && Indexes(w[..i], rows) && Indexes(w[..i + 1], rows) && Indexes(w[i + 1..], rows)
  {
  }

  lemma SlicesOfSwap(w: seq<nat>, j: nat, n: nat)
    requires 0 < j < n <= |w|
    ensures var t := w[j := w[j - 1]][j - 1 := w[j]];
            t[..n] == w[..n][j := w[..n][j - 1]][j - 1 := w[..n][j]] && t[n..] == w[n..]
  {
  }

  /** The row `x` has sunk to place `j` of the rows `a`. */
  ghost predicate Sinking(rows: seq<Row>, o: seq<nat>, a: seq<Row>, x: Row, j: nat) {
    && Indexes(o, rows) && |o| == |a| + 1 && j <= |a|
    && rows[o[j]] == x
    && (forall k :: 0 <= k < j ==> rows[o[k]] == a[k])
    && (forall k :: j < k <= |a| ==> rows[o[k]] == a[k - 1])
  }

  lemma StartsSinking(rows: seq<Row>, o: seq<nat>)
    requires Indexes(o, rows) && o != []
    ensures var i := |o| - 1; Indexes(o[..i], rows) && Sinking(rows, o, View(rows, o[..i]), rows[o[i]], i)
  {
  }

  lemma AtTheSink(rows: seq<Row>, o: seq<nat>, a: seq<Row>, x: Row, j: nat)
    requires Sinking(rows, o, a, x, j) && j > 0
    ensures |o| == |a| + 1 && j <= |a| && o[j] < |rows| && o[j - 1] < |rows|
    ensures rows[o[j]] == x && rows[o[j - 1]] == a[j - 1] == a[..j][|a[..j]| - 1]
  {
  }

  lemma SwapSinks(rows: seq<Row>, o: seq<nat>, a: seq<Row>, x: Row, j: nat)
    requires Sinking(rows, o, a, x, j) && j > 0
    ensures |o| > j && Sinking(rows, o[j := o[j - 1]][j - 1 := o[j]], a, x, j - 1)
  {
  }

  lemma WholeIsIndexed(rows: seq<Row>, order: seq<nat>, n: nat)
    requires n <= |order| && Indexes(order[..n], rows) && Indexes(order[n..], rows)
    ensures Indexes(order, rows)
  {
    forall i | 0 <= i < |order| ensures order[i] < |rows| {
      if i < n {
        assert order[..n][i] == order[i];
      } else {
        assert order[n..][i - n] == order[i];
      }
    }
  }

  lemma InsertStops(keys: seq<SortKey>, s: seq<Row>, x: Row)
    requires s == [] || CompareRows(keys, x, s[|s| - 1]) >= 0
    ensures Insert(keys, s, x) == s + [x]
  {
  }

  lemma InsertPasses(keys: seq<SortKey>, a: seq<Row>, x: Row, j: nat)
    requires 0 < j <= |a| && CompareRows(keys, x, a[j - 1]) < 0
    ensures Insert(keys, a[..j], x) + a[j..] == Insert(keys, a[..j - 1], x) + a[j - 1..]
  {
    assert a[..j][..j - 1] == a[..j - 1];
    assert a[j - 1..] == [a[j - 1]] + a[j..];
  }

  /** Stands for sort.SliceStable: rows that tie look alike, so any stable sort
      shows the same result. */
  method StableSort(keys: seq<SortKey>, rows: seq<Row>, order: array<nat>)
    requires Indexes(order[..], rows)
    modifies order
    ensures Indexes(order[..], rows)
    ensures View(rows, order[..]) == SortRows(keys, View(rows, old(order[..])))
  {
    ghost var before := order[..];
    var i := 0;
    while i < order.Length
      invariant i <= order.Length && Indexes(order[..], rows)
      invariant order[i..] == before[i..]
      invariant View(rows, order[..i]) == SortRows(keys, View(rows, before[..i]))
    {
      ghost var prefix := View(rows, before[..i + 1]);
      assert prefix[..i] == View(rows, before[..i]);
      assert order[i] == order[i..][0] == before[i];
      Sink(keys, rows, order, i);
      assert order[i + 1..] == before[i..][1..] == before[i + 1..];
      i := i + 1;
    }
    assert order[..i] == order[..] && before[..i] == before;
  }

  method CopyRows(rows: seq<Row>, order: array<nat>) returns (sorted: seq<Row>)
    requires Indexes(order[..], rows)
    ensures sorted == View(rows, order[..])
  {
    sorted := [];
    var i := 0;
    while i < order.Length
      invariant i <= order.Length
      invariant sorted == View(rows, order[..])[..i]
    {
      sorted := sorted + [rows[order[i]]];
      i := i + 1;
    }
  }

  method SortRowsByKeys(keys: seq<SortKey>, rows: seq<Row>) returns (sorted: seq<Row>)
    ensures sorted == SortRows(keys, rows)
  {
    hide SortRows;
    var order := new nat[|rows|];
    var i := 0;
    while i < order.Length
      invariant i <= order.Length
      invariant forall k :: 0 <= k < i ==> order[k] == k
    {
      order[i] := i;
      i := i + 1;
    }
    assert View(rows, order[..]) == rows;
    StableSort(keys, rows, order);
    sorted := CopyRows(rows, order);
  }
}
