/** The DuckDB type-name parser of internal/client/sql/column_type.go. */
module ColumnTypes {
  import opened Text
  import opened SqlBuild
  import opened Wrappers

  /** A parsed type name.  A field whose type text is blank maps to None, as the
      source stores a nil type for it. */
  datatype ColumnType = ColumnType(
    name: string,
    elem: Option<ColumnType>,
    fields: Option<map<string, Option<ColumnType>>>,
    key: Option<ColumnType>,
    value: Option<ColumnType>)

  function Named(name: string): ColumnType {
    ColumnType(name, None, None, None, None)
  }

  // ---------------------------------------------------------------------
  // Nesting
  // ---------------------------------------------------------------------

  datatype Nest = Nest(depth: int, quoted: bool)

  const OUTSIDE := Nest(0, false)

  function Step(n: Nest, c: char): Nest {
    if n.quoted then n.(quoted := c != '"')
    else if c == '"' then n.(quoted := true)
    else if c == '(' || c == '[' then n.(depth := n.depth + 1)
    else if c == ')' || c == ']' then n.(depth := n.depth - 1)
    else n
  }

  function Walk(n: Nest, s: string): Nest
    decreases |s|
  {
    if s == "" then n else Walk(Step(n, s[0]), s[1..])
  }

  class ColumnTypeNesting {
    var depth: int
    var quoted: bool

    constructor ()
      ensures State() == OUTSIDE
    {
      depth, quoted := 0, false;
    }

    function State(): Nest
      reads this
    {
      Nest(depth, quoted)
    }

    method Advance(c: char)
      modifies this
      ensures State() == Step(old(State()), c)
    {
      if quoted {
        if c == '"' {
          quoted := false;
        }
      } else if c == '"' {
        quoted := true;
      } else if c == '(' || c == '[' {
        depth := depth + 1;
      } else if c == ')' || c == ']' {
        depth := depth - 1;
      }
    }
  }

  /** The double quotes in the text. */
  function Quotes(s: string): nat {
    if s == "" then 0 else Quotes(s[..|s| - 1]) + if s[|s| - 1] == '"' then 1 else 0
  }

  /** The brackets of both kinds that are opened outside quotes, less those closed. */
  function Level(s: string): int {
    if s == "" then 0
    else
      Level(s[..|s| - 1]) +
      if Quotes(s[..|s| - 1]) % 2 == 1 then 0
      else if s[|s| - 1] in {'(', '['} then 1
      else if s[|s| - 1] in {')', ']'} then -1
      else 0
  }

  /** The nesting after a text counts its brackets outside quotes, and it is inside quotes
      after an odd number of them. */
  lemma {:induction false} WalkCounts(s: string)
    ensures Walk(OUTSIDE, s) == Nest(Level(s), Quotes(s) % 2 == 1)
    decreases |s|
  {
    if s != "" {
      var init, last := s[..|s| - 1], s[|s| - 1];
      WalkCounts(init);
      assert s == init + [last] && [last][1..] == "";
      WalkAppend(OUTSIDE, init, [last]);
    }
  }

  // ---------------------------------------------------------------------
  // lastTopLevelIndex
  // ---------------------------------------------------------------------

  predicate AtTop(n: Nest, c: char, target: char) {
    n == OUTSIDE && c != '"' && c == target
  }

  /** A matched target opens a level of its own. */
  function StepTo(n: Nest, c: char, target: char): Nest {
    if AtTop(n, c, target) then Nest(1, false) else Step(n, c)
  }

  function LastTop(n: Nest, s: string, target: char): (r: int)
    ensures -1 <= r < |s|
    decreases |s|
  {
    if s == "" then -1
    else
      var rest := LastTop(StepTo(n, s[0], target), s[1..], target);
      if rest >= 0 then rest + 1 else if AtTop(n, s[0], target) then 0 else -1
  }

  method LastTopLevelIndex(s: string, target: char) returns (last: int)
    ensures last == LastTop(OUTSIDE, s, target)
  {
    var nesting := new ColumnTypeNesting();
    last := -1;
    var i := 0;
    while i < |s|
      invariant i <= |s| && fresh(nesting)
      invariant LastTop(OUTSIDE, s, target) ==
                var rest := LastTop(nesting.State(), s[i..], target);
                if rest >= 0 then i + rest else last
    {
      var c := s[i];
      assert s[i..][1..] == s[i + 1..];
      if !nesting.quoted && c != '"' && c == target && nesting.depth == 0 {
        last := i;
        nesting.depth := nesting.depth + 1;
      } else {
        nesting.Advance(c);
      }
      i := i + 1;
    }
  }

  /** What the index means for `[`: it is the last bracket that the plain walk
      meets outside quotes and brackets. */
  lemma {:induction false} LastTopIsLast(n: Nest, s: string)
    ensures var r := LastTop(n, s, '[');
            && (r >= 0 ==> s[r] == '[' && Walk(n, s[..r]) == OUTSIDE)
            && forall i :: r < i < |s| ==> !(s[i] == '[' && Walk(n, s[..i]) == OUTSIDE)
    decreases |s|
  {
    if s == "" { return; }
    var m := StepTo(n, s[0], '[');
    assert m == Step(n, s[0]);
    LastTopIsLast(m, s[1..]);
    var r := LastTop(n, s, '[');
    forall i | 1 <= i <= |s| ensures Walk(n, s[..i]) == Walk(m, s[1..][..i - 1]) {
      assert s[..i][0] == s[0] && s[..i][1..] == s[1..][..i - 1];
    }
    forall i | r < i < |s| ensures !(s[i] == '[' && Walk(n, s[..i]) == OUTSIDE) {
      if i > 0 {
        assert s[i] == s[1..][i - 1];
      } else {
        assert s[..0] == "";
      }
    }
    if r == 0 { assert s[..0] == ""; }
  }

  // ---------------------------------------------------------------------
  // splitTopLevel
  // ---------------------------------------------------------------------

  /** The raw pieces of `s`, the first one put behind the text `held` already
      read for it. */
  function SplitFrom(n: Nest, held: string, s: string): (r: seq<string>)
    ensures r != []
    decreases |s|
  {
    if s == "" then [held]
    else if AtTop(n, s[0], ',') then [held] + SplitFrom(Step(n, s[0]), "", s[1..])
    else SplitFrom(Step(n, s[0]), held + [s[0]], s[1..])
  }

  function TrimEach(parts: seq<string>): (r: seq<string>)
    ensures |r| == |parts| && forall i :: 0 <= i < |r| ==> r[i] == Trim(parts[i])
  {
    seq(|parts|, i requires 0 <= i < |parts| => Trim(parts[i]))
  }

  /** `splitTopLevel` */
  function SplitTop(s: string): seq<string> {
    TrimEach(SplitFrom(OUTSIDE, "", s))
  }

  lemma TrimEachCons(done: seq<string>, piece: string, rest: seq<string>)
    ensures done + TrimEach([piece] + rest) == (done + [Trim(piece)]) + TrimEach(rest)
  {
    hide Trim;
    assert TrimEach([piece] + rest) == [Trim(piece)] + TrimEach(rest);
    assert done + ([Trim(piece)] + TrimEach(rest)) == (done + [Trim(piece)]) + TrimEach(rest);
  }

  lemma SplitStep(done: seq<string>, n: Nest, held: string, s: string)
    requires s != ""
    ensures AtTop(n, s[0], ',') ==>
              done + TrimEach(SplitFrom(n, held, s)) ==
              (done + [Trim(held)]) + TrimEach(SplitFrom(Step(n, s[0]), "", s[1..]))
    ensures !AtTop(n, s[0], ',') ==>
              SplitFrom(n, held, s) == SplitFrom(Step(n, s[0]), held + [s[0]], s[1..])
  {
    hide Trim, TrimEach;
    TrimEachCons(done, held, SplitFrom(Step(n, s[0]), "", s[1..]));
  }

  method SplitTopLevel(s: string) returns (parts: seq<string>)
    ensures parts == SplitTop(s)
  {
    hide SplitFrom, TrimEach, Trim;
    var nesting := new ColumnTypeNesting();
    parts := [];
    var start, i := 0, 0;
    assert s[0..] == s && s[0..0] == "";
    while i < |s|
      invariant start <= i <= |s| && fresh(nesting)
      invariant SplitTop(s) == parts + TrimEach(SplitFrom(nesting.State(), s[start..i], s[i..]))
    {
      var c := s[i];
      SplitStep(parts, nesting.State(), s[start..i], s[i..]);
      assert s[i..][0] == c && s[i..][1..] == s[i + 1..];
      assert s[start..i] + [c] == s[start..i + 1];
      if c == ',' && !nesting.quoted && nesting.depth == 0 {
        parts := parts + [Trim(s[start..i])];
        start := i + 1;
        assert s[start..i + 1] == "";
      }
      nesting.Advance(c);
      i := i + 1;
    }
    SplitEnd(parts, nesting.State(), s[start..i]);
    assert s[start..i] == s[start..] && s[i..] == "";
    parts := parts + [Trim(s[start..])];
  }

  lemma SplitEnd(done: seq<string>, n: Nest, held: string)
    ensures done + TrimEach(SplitFrom(n, held, "")) == done + [Trim(held)]
  {
  }

  /** A text in which no comma stands outside quotes and brackets. */
  predicate Quiet(n: Nest, s: string)
    decreases |s|
  {
    s == "" || (!AtTop(n, s[0], ',') && Quiet(Step(n, s[0]), s[1..]))
  }

  function JoinCommas(pieces: seq<string>): string
    requires pieces != []
  {
    if |pieces| == 1 then pieces[0] else pieces[0] + "," + JoinCommas(pieces[1..])
  }

  lemma {:induction false} WalkAppend(n: Nest, a: string, b: string)
    ensures Walk(n, a + b) == Walk(Walk(n, a), b)
    decreases |a|
  {
    if a == "" {
      assert a + b == b;
    } else {
      assert (a + b)[1..] == a[1..] + b;
      WalkAppend(Step(n, a[0]), a[1..], b);
    }
  }

  lemma {:induction false} QuietAppend(n: Nest, a: string, b: string)
    ensures Quiet(n, a + b) <==> Quiet(n, a) && Quiet(Walk(n, a), b)
    decreases |a|
  {
    if a == "" {
      assert a + b == b;
    } else {
      assert (a + b)[1..] == a[1..] + b;
      QuietAppend(Step(n, a[0]), a[1..], b);
    }
  }

  lemma {:induction false} SplitFromJoins(n: Nest, held: string, s: string)
    ensures JoinCommas(SplitFrom(n, held, s)) == held + s
    decreases |s|
  {
    if s == "" {
      assert held + s == held;
    } else if AtTop(n, s[0], ',') {
      var rest := SplitFrom(Step(n, s[0]), "", s[1..]);
      SplitFromJoins(Step(n, s[0]), "", s[1..]);
      assert ([held] + rest)[1..] == rest;
      assert held + "," + ("" + s[1..]) == held + s;
    } else {
      SplitFromJoins(Step(n, s[0]), held + [s[0]], s[1..]);
      assert held + [s[0]] + s[1..] == held + s;
    }
  }

  /** No piece holds a top-level comma, and each but the last leaves its quotes
      and brackets closed. */
  predicate Pieces(pieces: seq<string>) {
    && (forall i :: 0 <= i < |pieces| ==> Quiet(OUTSIDE, pieces[i]))
    && (forall i :: 0 <= i < |pieces| - 1 ==> Walk(OUTSIDE, pieces[i]) == OUTSIDE)
  }

  lemma PiecesCons(first: string, rest: seq<string>)
    requires Quiet(OUTSIDE, first) && Walk(OUTSIDE, first) == OUTSIDE && Pieces(rest)
    ensures Pieces([first] + rest)
  {
    hide Quiet, Walk;
  }

  lemma {:induction false} SplitFromQuiet(n: Nest, held: string, s: string)
    requires Quiet(OUTSIDE, held) && Walk(OUTSIDE, held) == n
    ensures Pieces(SplitFrom(n, held, s))
    decreases |s|
  {
    if s == "" {
    } else if AtTop(n, s[0], ',') {
      SplitFromQuiet(OUTSIDE, "", s[1..]);
      PiecesCons(held, SplitFrom(OUTSIDE, "", s[1..]));
    } else {
      assert [s[0]][1..] == "";
      QuietAppend(OUTSIDE, held, [s[0]]);
      WalkAppend(OUTSIDE, held, [s[0]]);
      SplitFromQuiet(Step(n, s[0]), held + [s[0]], s[1..]);
    }
  }

  /** Splitting loses nothing and cuts at exactly the top-level commas. */
  lemma SplitIsExact(s: string)
    ensures JoinCommas(SplitFrom(OUTSIDE, "", s)) == s
    ensures Pieces(SplitFrom(OUTSIDE, "", s))
  {
    SplitFromJoins(OUTSIDE, "", s);
    assert "" + s == s;
    SplitFromQuiet(OUTSIDE, "", s);
  }

  // ---------------------------------------------------------------------
  // splitFieldName
  // ---------------------------------------------------------------------

  function IndexOf(s: string, c: char): (r: int)
    ensures -1 <= r < |s|
    ensures r >= 0 ==> s[r] == c
    ensures forall i :: 0 <= i < |s| && (r < 0 || i < r) ==> s[i] != c
  {
    if s == "" then -1
    else if s[0] == c then 0
    else if IndexOf(s[1..], c) < 0 then -1
    else 1 + IndexOf(s[1..], c)
  }

  lemma TrimShorter(s: string)
    ensures |Trim(s)| <= |s|
  {
  }

  function FieldParts(part: string): (r: (string, string))
    ensures r.0 != "" ==> |r.1| < |part|
  {
    TrimShorter(part);
    var p := Trim(part);
    if HasPrefix(p, "\"") then
      (match ReadQuoted(p[1..], '\"')
       case None => ("", "")
       case Some(v) => TrimShorter(v.1); (v.0, Trim(v.1)))
    else if IndexOf(p, ' ') < 0 then ("", "")
    else
      var rest := p[IndexOf(p, ' ') + 1..];
      TrimShorter(rest);
      (p[..IndexOf(p, ' ')], Trim(rest))
  }

  lemma QuotedNameStep(name: string, s: string)
    requires s != ""
    ensures s[0] != '"' && ReadQuoted(s[1..], '\"').Some? ==>
              name + ReadQuoted(s, '"').value.0 == (name + [s[0]]) + ReadQuoted(s[1..], '\"').value.0
    ensures |s| > 1 && s[0] == '"' == s[1] && ReadQuoted(s[2..], '\"').Some? ==>
              name + ReadQuoted(s, '"').value.0 == (name + ['"']) + ReadQuoted(s[2..], '\"').value.0
  {
  }

  /** The loop over a part that starts with a double quote. */
  method ReadQuotedName(part: string) returns (r: Option<(string, string)>)
    requires part != ""
    ensures r == ReadQuoted(part[1..], '\"')
  {
    var name := "";
    var i := 1;
    assert ReadQuoted(part[1..], '\"').Some? ==>
             "" + ReadQuoted(part[1..], '\"').value.0 == ReadQuoted(part[1..], '\"').value.0;
    while i < |part|
      invariant 1 <= i <= |part|
      invariant ReadQuoted(part[1..], '\"').Some? <==> ReadQuoted(part[i..], '\"').Some?
      invariant ReadQuoted(part[1..], '\"').Some? ==>
                  ReadQuoted(part[1..], '\"').value ==
                  (name + ReadQuoted(part[i..], '\"').value.0, ReadQuoted(part[i..], '\"').value.1)
    {
      QuotedNameStep(name, part[i..]);
      assert part[i..][1..] == part[i + 1..];
      if part[i] != '"' {
        name := name + [part[i]];
        i := i + 1;
      } else if i + 1 < |part| && part[i + 1] == '"' {
        assert part[i..][2..] == part[i + 2..];
        name := name + ['"'];
        i := i + 2;
      } else {
        assert name + "" == name;
        return Some((name, part[i + 1..]));
      }
    }
    return None;
  }

  method SplitFieldName(text: string) returns (name: string, typeText: string)
    ensures (name, typeText) == FieldParts(text)
  {
    var part := Trim(text);
    if HasPrefix(part, "\"") {
      var quoted := ReadQuotedName(part);
      match quoted {
        case None => return "", "";
        case Some(v) => return v.0, Trim(v.1);
      }
    }
    var space := IndexOf(part, ' ');
    if space < 0 {
      return "", "";
    }
    return part[..space], Trim(part[space + 1..]);
  }

  // ---------------------------------------------------------------------
  // parseColumnType
  // ---------------------------------------------------------------------

  /** Every recursive call reads a strictly shorter text, so the parse of any
      text, however malformed, comes to an end. */
  function Parse(text: string): Option<ColumnType>
    decreases |text|, 0, 0
  {
    TrimShorter(text);
    var name := Trim(text);
    var bracket := LastTop(OUTSIDE, name, '[');
    var open := IndexOf(name, '(');
    if name == "" then None
    else if HasSuffix(name, "]") && bracket > 0 then
      Some(Named("LIST").(elem := Parse(name[..bracket])))
    else if open < 0 || !HasSuffix(name, ")") then Some(Named(Upper(name)))
    else Some(ParseArguments(Upper(Trim(name[..open])), name[open + 1..|name| - 1]))
  }

  /** The type called `head` with the text between its outer parentheses. */
  function ParseArguments(head: string, inner: string): ColumnType
    decreases |inner|, 2, 0
  {
    SplitTopShorter(inner);
    var parts := SplitTop(inner);
    if head == "STRUCT" || head == "UNION" then
      Named(head).(fields := Some(ParseFields(parts, |inner|)))
    else if head == "MAP" && |parts| == 2 then
      Named(head).(key := Parse(parts[0]), value := Parse(parts[1]))
    else Named(head)
  }

  lemma {:induction false} SplitFromShorter(n: Nest, held: string, s: string)
    ensures forall i :: 0 <= i < |SplitFrom(n, held, s)| ==> |SplitFrom(n, held, s)[i]| <= |held| + |s|
    decreases |s|
  {
    if s != "" {
      if AtTop(n, s[0], ',') {
        SplitFromShorter(Step(n, s[0]), "", s[1..]);
      } else {
        SplitFromShorter(Step(n, s[0]), held + [s[0]], s[1..]);
      }
    }
  }

  lemma SplitTopShorter(s: string)
    ensures forall i :: 0 <= i < |SplitTop(s)| ==> |SplitTop(s)[i]| <= |s|
  {
    SplitFromShorter(OUTSIDE, "", s);
    forall i | 0 <= i < |SplitTop(s)| ensures |SplitTop(s)[i]| <= |s| {
      TrimShorter(SplitFrom(OUTSIDE, "", s)[i]);
    }
  }

  /** The members in order; a name that occurs twice keeps its last type. */
  function ParseFields(parts: seq<string>, limit: nat): map<string, Option<ColumnType>>
    requires forall i :: 0 <= i < |parts| ==> |parts[i]| <= limit
    decreases limit, 1, |parts|
  {
    if parts == [] then map[]
    else
      var last := |parts| - 1;
      var before := ParseFields(parts[..last], limit);
      var field := FieldParts(parts[last]);
      if field.0 == "" then before else before[field.0 := Parse(field.1)]
  }

  method ParseColumnType(text: string) returns (t: Option<ColumnType>)
    ensures t == Parse(text)
    decreases |text|, 1
  {
    hide ParseArguments, LastTop, IndexOf;
    var name := Trim(text);
    TrimShorter(text);
    if name == "" {
      return None;
    }
    if HasSuffix(name, "]") {
      var bracket := LastTopLevelIndex(name, '[');
      if bracket > 0 {
        var elem := ParseColumnType(name[..bracket]);
        return Some(Named("LIST").(elem := elem));
      }
    }
    var open := IndexOf(name, '(');
    if open < 0 || !HasSuffix(name, ")") {
      return Some(Named(Upper(name)));
    }
    var arguments := ParseArgumentList(Upper(Trim(name[..open])), name[open + 1..|name| - 1]);
    return Some(arguments);
  }

  method ParseArgumentList(head: string, inner: string) returns (t: ColumnType)
    ensures t == ParseArguments(head, inner)
    decreases |inner|, 3
  {
    hide Parse, ParseFields;
    SplitTopShorter(inner);
    var parts := SplitTopLevel(inner);
    t := Named(head);
    if head == "STRUCT" || head == "UNION" {
      var fields := ParseMembers(parts, |inner|);
      t := t.(fields := Some(fields));
    } else if head == "MAP" && |parts| == 2 {
      var key := ParseColumnType(parts[0]);
      var value := ParseColumnType(parts[1]);
      t := t.(key := key, value := value);
    }
  }

  method ParseMembers(parts: seq<string>, ghost limit: nat) returns (fields: map<string, Option<ColumnType>>)
    requires forall i :: 0 <= i < |parts| ==> |parts[i]| <= limit
    ensures fields == ParseFields(parts, limit)
    decreases limit, 2
  {
    hide Parse, ParseArguments, FieldParts;
    fields := map[];
    var i := 0;
    while i < |parts|
      invariant i <= |parts|
      invariant fields == ParseFields(parts[..i], limit)
    {
      var fieldName, fieldType := SplitFieldName(parts[i]);
      assert parts[..i + 1][..i] == parts[..i];
      if fieldName != "" {
        var fieldParsed := ParseColumnType(fieldType);
        fields := fields[fieldName := fieldParsed];
      }
      i := i + 1;
    }
    assert parts[..i] == parts;
  }
}
