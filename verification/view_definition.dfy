/** `viewQueryFromDefinition` of internal/resources/view_resource.go, and the
    CREATE VIEW text it reads. */
module ViewDefinition {
  import opened Text
  import opened SqlBuild

  predicate IsSqlSpace(c: char) {
    c in {' ', '\t', '\n', '\r'}
  }

  /** The two bytes `as` in either case.  The source compares two bytes, so a
      two-byte rune such as U+017F is not taken for an `s`. */
  predicate IsAs(a: char, b: char) {
    (a == 'A' || a == 'a') && (b == 'S' || b == 's')
  }

  /** The loop's variables: the open quote or NUL, and the open parentheses. */
  datatype State = State(quote: char, depth: nat)

  predicate AsKeywordAt(st: State, prev: char, s: string) {
    st.depth == 0 && IsSqlSpace(prev) && |s| >= 3 && IsAs(s[0], s[1]) && IsSqlSpace(s[2])
  }

  /** Offset just past the keyword in `s`, which `prev` precedes, or -1. */
  function QueryStart(st: State, prev: char, s: string): (r: int)
    ensures r == -1 || 0 <= r <= |s|
    decreases |s|
  {
    if s == "" then -1
    else
      var c := s[0];
      if st.quote != NO_QUOTE then
        if c == st.quote && |s| > 1 && s[1] == st.quote then Shift(2, QueryStart(st, c, s[2..]))
        else Shift(1, QueryStart(if c == st.quote then st.(quote := NO_QUOTE) else st, c, s[1..]))
      else if c == '"' || c == '\'' then Shift(1, QueryStart(st.(quote := c), c, s[1..]))
      else if c == '(' then Shift(1, QueryStart(st.(depth := st.depth + 1), c, s[1..]))
      else if c == ')' then Shift(1, QueryStart(st.(depth := if st.depth > 0 then st.depth - 1 else 0), c, s[1..]))
      else if AsKeywordAt(st, prev, s) then 3
      else Shift(1, QueryStart(st, c, s[1..]))
  }

  function Shift(n: nat, r: int): int {
    if r < 0 then -1 else n + r
  }

  /** The start of the text has no rune before it. */
  const NOTHING: char := '\0'
  const TOP := State(NO_QUOTE, 0)

  method ViewDefinitionQueryStart(definition: string) returns (start: int)
    ensures start == QueryStart(TOP, NOTHING, definition)
  {
    var quote, depth: nat := NO_QUOTE, 0;
    var i := 0;
    while i < |definition|
      invariant i <= |definition|
      invariant QueryStart(TOP, NOTHING, definition) ==
                Shift(i, QueryStart(State(quote, depth), if i == 0 then NOTHING else definition[i - 1],
                                    definition[i..]))
    {
      var ch := definition[i];
      ghost var s := definition[i..];
      assert s[0] == ch && s[1..] == definition[i + 1..];
      if quote != NO_QUOTE {
        if ch == quote {
          if i + 1 < |definition| && definition[i + 1] == quote {
            assert s[2..] == definition[i + 2..];
            i := i + 2;
            continue;
          }
          quote := NO_QUOTE;
        }
      } else if ch == '"' || ch == '\'' {
        quote := ch;
      } else if ch == '(' {
        depth := depth + 1;
      } else if ch == ')' {
        if depth > 0 {
          depth := depth - 1;
        }
      } else if !(depth != 0 || i == 0 || i + 3 > |definition|) {
        if IsSqlSpace(definition[i - 1]) && IsAs(definition[i], definition[i + 1]) && IsSqlSpace(definition[i + 2]) {
          return i + 3;
        }
      }
      i := i + 1;
    }
    return -1;
  }

  // ---------------------------------------------------------------------
  // What the offset means
  // ---------------------------------------------------------------------

  /** The parentheses that are open before position `i`, outside quotes; a closing one too
      many does not count. */
  function LevelBefore(s: string, i: nat): nat
    requires i <= |s|
  {
    if i == 0 then 0
    else
      var level := LevelBefore(s, i - 1);
      if QuoteBefore(s, i - 1) != NO_QUOTE then level
      else if s[i - 1] == '(' then level + 1
      else if s[i - 1] == ')' && level > 0 then level - 1
      else level
  }

  /** The keyword stands at `i`, between spaces and outside quotes and parentheses. */
  predicate AsAt(s: string, i: int) {
    && 1 <= i && i + 3 <= |s| && QuoteBefore(s, i) == NO_QUOTE && LevelBefore(s, i) == 0
    && s[i - 1] in {' ', '\t', '\n', '\r'} && s[i] in {'a', 'A'} && s[i + 1] in {'s', 'S'}
    && s[i + 2] in {' ', '\t', '\n', '\r'}
  }

  predicate NoAsIn(s: string, lo: int, hi: int) {
    forall j :: lo <= j < hi ==> !AsAt(s, j)
  }

  predicate IsFirstAs(s: string, i: nat, r: int) {
    if r < 0 then NoAsIn(s, i, |s|) else r >= 3 && AsAt(s, i + r - 3) && NoAsIn(s, i, i + r - 3)
  }

  lemma FirstAsBehind(s: string, i: nat, n: nat, r: int)
    requires IsFirstAs(s, i + n, r) && NoAsIn(s, i, i + n)
    ensures IsFirstAs(s, i, Shift(n, r))
  {
    hide AsAt;
  }

  lemma QuoteStep(s: string, i: nat)
    requires i < |s|
    ensures LevelBefore(s, i + 1) ==
            if QuoteBefore(s, i) != NO_QUOTE then LevelBefore(s, i)
            else if s[i] == '(' then LevelBefore(s, i) + 1
            else if s[i] == ')' && LevelBefore(s, i) > 0 then LevelBefore(s, i) - 1
            else LevelBefore(s, i)
    ensures QuoteBefore(s, i + 1) ==
            if QuoteBefore(s, i) == NO_QUOTE then if s[i] in {'"', '\''} then s[i] else NO_QUOTE
            else if s[i] == QuoteBefore(s, i) then NO_QUOTE
            else QuoteBefore(s, i)
  {
  }

  lemma {:induction false} QueryStartFrom(s: string, i: nat, prev: char)
    requires i <= |s| && prev == if i == 0 then NOTHING else s[i - 1]
    requires QuoteBefore(s, i) in {NO_QUOTE, '"', '\''}
    ensures IsFirstAs(s, i, QueryStart(State(QuoteBefore(s, i), LevelBefore(s, i)), prev, s[i..]))
    decreases |s| - i
  {
    hide QuoteBefore, LevelBefore, IsFirstAs, Shift;
    if i == |s| {
      NothingBehind(s);
      return;
    }
    var quote, c := QuoteBefore(s, i), s[i];
    assert s[i..][1..] == s[i + 1..] && s[i..][0] == c;
    QuoteStep(s, i);
    if quote != NO_QUOTE && c == quote && i + 1 < |s| && s[i + 1] == quote {
      assert s[i..][2..] == s[i + 2..];
      QuoteStep(s, i + 1);
      QueryStartFrom(s, i + 2, c);
      FirstAsBehind(s, i, 2, QueryStart(State(quote, LevelBefore(s, i)), c, s[i + 2..]));
    } else if AsAt(s, i) {
      FirstAsHere(s, i);
    } else {
      QueryStartFrom(s, i + 1, c);
      FirstAsBehind(s, i, 1, QueryStart(State(QuoteBefore(s, i + 1), LevelBefore(s, i + 1)), c, s[i + 1..]));
    }
  }

  lemma NothingBehind(s: string)
    ensures IsFirstAs(s, |s|, -1)
  {
  }

  lemma FirstAsHere(s: string, i: nat)
    requires AsAt(s, i)
    ensures IsFirstAs(s, i, 3)
  {
    hide AsAt;
  }

  /** The offset is right behind the first AS between spaces that stands outside quotes and
      parentheses, in any text; without one there is none. */
  lemma QueryStartIsFirstAs(s: string)
    ensures IsFirstAs(s, 0, QueryStart(TOP, NOTHING, s))
  {
    hide IsFirstAs;
    QueryStartFrom(s, 0, NOTHING);
    assert s[0..] == s;
  }

  function TrimSemicolon(s: string): string {
    if HasSuffix(s, ";") then s[..|s| - 1] else s
  }

  function ViewQuery(definition: string): string {
    var body := Trim(definition);
    var start := QueryStart(TOP, NOTHING, body);
    var query := if HasPrefix(Upper(body), "CREATE ") && start >= 0 then Trim(body[start..]) else body;
    Trim(TrimSemicolon(query))
  }

  /** A text that does not create a view is taken as the query, with or without a final
      semicolon, whatever it holds. */
  lemma BareQueryComesBack(q: string)
    requires q != "" && Trimmed(q) && q[|q| - 1] != ';' && !HasPrefix(Upper(q), "CREATE ")
    ensures ViewQuery(q) == q && ViewQuery(q + ";") == q
  {
    hide Trim;
    TrimOfTrimmed(q);
    TrimOfTrimmed(q + ";");
    var t := q + ";";
    assert t[..|t| - 1] == q && HasSuffix(t, ";");
    if HasPrefix(Upper(t), "CREATE ") {
      StartsAlike(q);
    }
  }

  lemma StartsAlike(q: string)
    requires q != "" && Trimmed(q) && HasPrefix(Upper(q + ";"), "CREATE ")
    ensures HasPrefix(Upper(q), "CREATE ")
  {
    var t := q + ";";
    assert Upper(t)[..7] == "CREATE ";
    assert Upper(t)[6] == "CREATE "[6] && Upper(t)[6] == UpperChar(t[6]);
  }

  method ViewQueryFromDefinition(definition: string) returns (query: string)
    ensures query == ViewQuery(definition)
  {
    var body := Trim(definition);
    if HasPrefix(Upper(body), "CREATE ") {
      var start := ViewDefinitionQueryStart(body);
      if start >= 0 {
        body := Trim(body[start..]);
      }
    }
    return Trim(TrimSemicolon(body));
  }

  // ---------------------------------------------------------------------
  // The text of a view definition
  // ---------------------------------------------------------------------

  /** A name as it is printed: quoted, or bare where it needs no quotes. */
  datatype Name = Name(text: string, bare: bool)

  function PrintName(n: Name): string {
    if n.bare then n.text else QuoteIdentifier(n.text)
  }

  predicate IsBareRune(c: char) {
    !IsSqlSpace(c) && c !in {'"', '\'', '(', ')'}
  }

  /** A quoted name may be any text.  A bare one is no keyword. */
  predicate Printable(n: Name) {
    n.bare ==>
      && n.text != ""
      && !(|n.text| == 2 && IsAs(n.text[0], n.text[1]))
      && forall i :: 0 <= i < |n.text| ==> IsBareRune(n.text[i])
  }

  function Joined(names: seq<Name>, separator: string): string {
    if names == [] then ""
    else if |names| == 1 then PrintName(names[0])
    else PrintName(names[0]) + (separator + Joined(names[1..], separator))
  }

  /** `CREATE [OR REPLACE] VIEW name [(column, ...)]` */
  datatype Header = Header(replace: bool, path: seq<Name>, columns: seq<Name>)
  {
    function Text(): string {
      (if replace then "CREATE OR REPLACE VIEW " else "CREATE VIEW ") +
      (Joined(path, ".") + if columns == [] then "" else " " + ("(" + (Joined(columns, ", ") + ")")))
    }

    predicate Valid() {
      && path != []
      && (forall n :: n in path ==> Printable(n))
      && (forall n :: n in columns ==> Printable(n))
    }
  }

  /** The statement of `writeView`, and the definition a server reports for it. */
  function DefinitionText(h: Header, query: string, semicolon: bool): string {
    h.Text() + (" AS " + (query + if semicolon then ";" else ""))
  }

  // ---------------------------------------------------------------------
  // The scan passes over a header
  // ---------------------------------------------------------------------

  lemma {:induction false} PastQuoted(depth: nat, prev: char, value: string, rest: string)
    requires rest == "" || rest[0] != '"'
    ensures QueryStart(State('"', depth), prev, Double(value, '"') + (['"'] + rest)) ==
            Shift(|Double(value, '"')| + 1, QueryStart(State(NO_QUOTE, depth), '"', rest))
    decreases |value|
  {
    var s := Double(value, '"') + (['"'] + rest);
    if value == "" {
      assert s[1..] == rest;
    } else {
      PastQuoted(depth, value[0], value[1..], rest);
      var tail := Double(value[1..], '"') + (['"'] + rest);
      if value[0] == '"' {
        assert s[2..] == tail;
      } else {
        assert s[1..] == tail;
      }
    }
  }

  /** Bare runes are passed one by one as long as the first is not the keyword. */
  lemma {:induction false} PastBare(depth: nat, prev: char, a: string, rest: string)
    requires a != "" && forall i :: 0 <= i < |a| ==> IsBareRune(a[i])
    requires !AsKeywordAt(State(NO_QUOTE, depth), prev, a + rest)
    ensures QueryStart(State(NO_QUOTE, depth), prev, a + rest) ==
            Shift(|a|, QueryStart(State(NO_QUOTE, depth), a[|a| - 1], rest))
    decreases |a|
  {
    assert (a + rest)[1..] == a[1..] + rest;
    if |a| > 1 {
      PastBare(depth, a[0], a[1..], rest);
    } else {
      assert a[1..] + rest == rest;
    }
  }

  /** A text that the scan passes over, at this depth, whatever precedes it. */
  ghost predicate Passed(depth: nat, a: string, rest: string) {
    a != "" &&
    forall prev: char ::
      QueryStart(State(NO_QUOTE, depth), prev, a + rest) ==
      Shift(|a|, QueryStart(State(NO_QUOTE, depth), a[|a| - 1], rest))
  }

  /** Text behind a name: it neither continues a bare name into `as`, nor
      doubles a closing quote. */
  predicate EndsName(rest: string) {
    rest != "" && rest[0] in {'.', ',', ' ', ')'}
  }

  lemma NameIsPassed(depth: nat, n: Name, rest: string)
    requires Printable(n) && EndsName(rest)
    ensures Passed(depth, PrintName(n), rest)
  {
    forall prev: char
      ensures QueryStart(State(NO_QUOTE, depth), prev, PrintName(n) + rest) ==
              Shift(|PrintName(n)|, QueryStart(State(NO_QUOTE, depth), PrintName(n)[|PrintName(n)| - 1], rest))
    {
      var a := PrintName(n);
      var s := a + rest;
      if n.bare {
        if |a| == 2 {
          assert s[0] == a[0] && s[1] == a[1];
        } else if |a| == 1 {
          assert s[1] == rest[0];
        } else {
          assert s[2] == a[2];
        }
        PastBare(depth, prev, a, rest);
      } else {
        assert s[1..] == Double(n.text, '"') + (['"'] + rest);
        PastQuoted(depth, '"', n.text, rest);
      }
    }
  }

  /** Separators between names: `.` at the top, `, ` inside parentheses. */
  lemma SeparatorIsPassed(depth: nat, separator: string, rest: string)
    requires separator == "." || (separator == ", " && depth > 0)
    ensures Passed(depth, separator, rest)
  {
    var s := separator + rest;
    if separator == "." {
      assert s[1..] == rest;
    } else {
      assert s[1..] == " " + rest && (" " + rest)[1..] == rest;
    }
  }

  lemma PassedTwice(depth: nat, a: string, b: string, rest: string)
    requires Passed(depth, a, b + rest) && Passed(depth, b, rest)
    ensures Passed(depth, a + b, rest)
  {
    hide QueryStart;
    assert a + b + rest == a + (b + rest);
    assert (a + b)[|a + b| - 1] == b[|b| - 1];
  }

  lemma {:induction false} JoinedIsPassed(depth: nat, names: seq<Name>, separator: string, rest: string)
    requires names != [] && forall n :: n in names ==> Printable(n)
    requires separator == "." || (separator == ", " && depth > 0)
    requires EndsName(rest)
    ensures Passed(depth, Joined(names, separator), rest)
    decreases |names|
  {
    hide QueryStart, Passed;
    if |names| == 1 {
      NameIsPassed(depth, names[0], rest);
    } else {
      var more := Joined(names[1..], separator);
      JoinedIsPassed(depth, names[1..], separator, rest);
      SeparatorIsPassed(depth, separator, more + rest);
      PassedTwice(depth, separator, more, rest);
      assert separator + more + rest == separator + (more + rest);
      NameIsPassed(depth, names[0], separator + more + rest);
      PassedTwice(depth, PrintName(names[0]), separator + more, rest);
    }
  }

  lemma ParenthesesArePassed(list: string, rest: string)
    requires Passed(1, list, ")" + rest)
    ensures Passed(0, " " + ("(" + (list + ")")), rest)
  {
    var a := " " + ("(" + (list + ")"));
    var s0, s1, s2, s3 := a + rest, "(" + (list + (")" + rest)), list + (")" + rest), ")" + rest;
    var last := list[|list| - 1];
    assert s0[1..] == s1 && s1[1..] == s2 && s3[1..] == rest;
    assert a[|a| - 1] == ')';
    forall prev: char
      ensures QueryStart(TOP, prev, s0) == Shift(|a|, QueryStart(TOP, ')', rest))
    {
      assert QueryStart(TOP, prev, s0) == Shift(1, QueryStart(TOP, ' ', s1));
      assert QueryStart(TOP, ' ', s1) == Shift(1, QueryStart(State(NO_QUOTE, 1), '(', s2));
      assert QueryStart(State(NO_QUOTE, 1), '(', s2) == Shift(|list|, QueryStart(State(NO_QUOTE, 1), last, s3));
      assert QueryStart(State(NO_QUOTE, 1), last, s3) == Shift(1, QueryStart(TOP, ')', rest));
    }
  }

  lemma ColumnsArePassed(columns: seq<Name>, rest: string)
    requires columns != [] && forall n :: n in columns ==> Printable(n)
    ensures Passed(0, " " + ("(" + (Joined(columns, ", ") + ")")), rest)
  {
    hide Joined, QueryStart, Passed;
    JoinedIsPassed(1, columns, ", ", ")" + rest);
    ParenthesesArePassed(Joined(columns, ", "), rest);
  }

  /** A keyword other than `as`, with the blank behind it. */
  lemma WordIsPassed(w: string, rest: string)
    requires |w| > 1 && w[|w| - 1] == ' ' && forall i :: 0 <= i < |w| - 1 ==> IsBareRune(w[i])
    requires w[0] != 'A' && w[0] != 'a'
    ensures Passed(0, w, rest)
  {
    var word, tail := w[..|w| - 1], " " + rest;
    forall prev: char
      ensures QueryStart(TOP, prev, word + tail) == Shift(|word|, QueryStart(TOP, word[|word| - 1], tail))
    {
      PastBare(0, prev, word, tail);
    }
    assert tail[1..] == rest;
    assert w + rest == word + tail;
  }

  lemma KeywordsArePassed(replace: bool, rest: string)
    ensures Passed(0, if replace then "CREATE OR REPLACE VIEW " else "CREATE VIEW ", rest)
  {
    hide QueryStart, Passed;
    WordIsPassed("VIEW ", rest);
    if replace {
      WordIsPassed("REPLACE ", "VIEW " + rest);
      PassedTwice(0, "REPLACE ", "VIEW ", rest);
      WordIsPassed("OR ", "REPLACE " + "VIEW " + rest);
      PassedTwice(0, "OR ", "REPLACE " + "VIEW ", rest);
      WordIsPassed("CREATE ", "OR " + ("REPLACE " + "VIEW ") + rest);
      PassedTwice(0, "CREATE ", "OR " + ("REPLACE " + "VIEW "), rest);
      assert "CREATE " + ("OR " + ("REPLACE " + "VIEW ")) == "CREATE OR REPLACE VIEW ";
    } else {
      WordIsPassed("CREATE ", "VIEW " + rest);
      PassedTwice(0, "CREATE ", "VIEW ", rest);
      assert "CREATE " + "VIEW " == "CREATE VIEW ";
    }
  }

  /** The keyword is found right behind the header, wherever the names put the
      same letters. */
  lemma QueryStartOfText(h: Header, rest: string)
    requires h.Valid()
    ensures QueryStart(TOP, NOTHING, h.Text() + (" AS " + rest)) == |h.Text()| + 4
  {
    hide QueryStart, Joined;
    var keywords := if h.replace then "CREATE OR REPLACE VIEW " else "CREATE VIEW ";
    var path := Joined(h.path, ".");
    var tail := " AS " + rest;
    var head: string;
    if h.columns == [] {
      JoinedIsPassed(0, h.path, ".", tail);
      head := path;
    } else {
      var list := " " + ("(" + (Joined(h.columns, ", ") + ")"));
      ColumnsArePassed(h.columns, tail);
      JoinedIsPassed(0, h.path, ".", list + tail);
      PassedTwice(0, path, list, tail);
      head := path + list;
    }
    KeywordsArePassed(h.replace, head + tail);
    PassedTwice(0, keywords, head, tail);
    assert h.Text() == keywords + head;
    NameEnds(h);
    FindsAs(h.Text()[|h.Text()| - 1], rest);
  }

  lemma FindsAs(prev: char, rest: string)
    ensures QueryStart(TOP, prev, " AS " + rest) == 4
  {
    var s := " AS " + rest;
    assert s[1..] == "AS " + rest;
  }

  /** A header starts with a letter and ends in a visible rune. */
  lemma NameEnds(h: Header)
    requires h.Valid()
    ensures h.Text() != "" && h.Text()[0] == 'C'
    ensures HasPrefix(h.Text(), "CREATE ")
  {
  }

  // ---------------------------------------------------------------------
  // The round trip
  // ---------------------------------------------------------------------

  lemma UpperOfCreate(s: string)
    requires HasPrefix(s, "CREATE ")
    ensures HasPrefix(Upper(s), "CREATE ")
  {
    assert forall i :: 0 <= i < 7 ==> s[i] == s[..7][i];
  }

  /** Trimming a definition trims the end of what follows ` AS`. */
  lemma TrimDefinition(h: Header, body: string)
    requires h.Valid()
    ensures Trim(h.Text() + (" AS " + body)) ==
            if Trim(body) == "" then h.Text() + " AS" else h.Text() + (" AS " + TrimRight(body))
  {
    NameEnds(h);
    TrimBehindAs(h.Text(), body);
  }

  lemma TrimBehindAs(head: string, body: string)
    requires head != "" && head[0] == 'C'
    ensures Trim(head + (" AS " + body)) ==
            if Trim(body) == "" then head + " AS" else head + (" AS " + TrimRight(body))
  {
    hide TrimLeft, TrimRight, Trim;
    var front := head + " AS";
    assert Trimmed(front);
    assert head + (" AS " + body) == front + (" " + body);
    TrimAppend(front, " " + body);
    TrimRightBlank(body);
    if Trim(body) == "" {
      assert front + "" == front;
    } else {
      assert front + (" " + TrimRight(body)) == head + (" AS " + TrimRight(body));
    }
  }

  lemma {:induction false} TrimRightBlank(body: string)
    ensures TrimRight(" " + body) == if Trim(body) == "" then "" else " " + TrimRight(body)
    decreases |body|
  {
    var s := " " + body;
    if body == "" {
      assert s[..0] == "";
    } else if IsSpace(body[|body| - 1]) {
      var shorter := body[..|body| - 1];
      assert s[..|s| - 1] == " " + shorter;
      TrimRightBlank(shorter);
      assert body == shorter + [body[|body| - 1]];
      TrimDropsTail(shorter, body[|body| - 1]);
    } else {
      TrimBlank(body);
    }
  }

  lemma {:induction false} TrimOfTrimRight(s: string)
    ensures Trim(TrimRight(s)) == Trim(s)
    decreases |s|
  {
    hide Trim;
    if s != "" && IsSpace(s[|s| - 1]) {
      TrimOfTrimRight(s[..|s| - 1]);
      assert s == s[..|s| - 1] + [s[|s| - 1]];
      TrimDropsTail(s[..|s| - 1], s[|s| - 1]);
    }
  }

  lemma ViewQueryOfTrimmed(definition: string, body: string)
    requires Trim(definition) == body && HasPrefix(Upper(body), "CREATE ")
    ensures var start := QueryStart(TOP, NOTHING, body);
            ViewQuery(definition) == Trim(TrimSemicolon(if start >= 0 then Trim(body[start..]) else body))
  {
    hide QueryStart, Trim, TrimSemicolon, HasPrefix;
  }

  lemma BehindAs(head: string, rest: string)
    requires HasPrefix(head, "CREATE ")
    ensures HasPrefix(head + rest, "CREATE ")
    ensures (head + (" AS " + rest))[|head| + 4..] == rest
  {
    assert (head + rest)[..7] == head[..7];
  }

  lemma NothingToCut(head: string)
    ensures TrimSemicolon(head + " AS") == head + " AS"
    ensures head != "" && !IsSpace(head[0]) ==> Trim(head + " AS") == head + " AS"
  {
    var t := head + " AS";
    assert t[|t| - 1] == 'S';
    assert t[|t| - 1..][0] != ';';
    if head != "" && !IsSpace(head[0]) {
      TrimOfTrimmed(t);
    }
  }

  /** The body behind the keyword, or the whole text when it is blank. */
  lemma ViewQueryOfText(h: Header, body: string)
    requires h.Valid()
    ensures ViewQuery(h.Text() + (" AS " + body)) ==
            if Trim(body) == "" then h.Text() + " AS" else Trim(TrimSemicolon(Trim(body)))
  {
    hide QueryStart, TrimRight, TrimLeft, Trim, TrimSemicolon, Upper, HasPrefix, ViewQuery;
    var head := h.Text();
    var text := head + (" AS " + body);
    TrimDefinition(h, body);
    NameEnds(h);
    if Trim(body) == "" {
      BehindAs(head, " AS");
      UpperOfCreate(head + " AS");
      ViewQueryOfTrimmed(text, head + " AS");
      NoQueryStart(h);
      NothingToCut(head);
    } else {
      var tail := TrimRight(body);
      BehindAs(head, " AS " + tail);
      BehindAs(head, tail);
      UpperOfCreate(head + (" AS " + tail));
      ViewQueryOfTrimmed(text, head + (" AS " + tail));
      QueryStartOfText(h, tail);
      TrimOfTrimRight(body);
    }
  }

  lemma NoQueryStart(h: Header)
    requires h.Valid()
    ensures QueryStart(TOP, NOTHING, h.Text() + " AS") == -1
  {
    hide QueryStart, Joined;
    var keywords := if h.replace then "CREATE OR REPLACE VIEW " else "CREATE VIEW ";
    var path := Joined(h.path, ".");
    var head: string;
    if h.columns == [] {
      JoinedIsPassed(0, h.path, ".", " AS");
      head := path;
    } else {
      var list := " " + ("(" + (Joined(h.columns, ", ") + ")"));
      ColumnsArePassed(h.columns, " AS");
      JoinedIsPassed(0, h.path, ".", list + " AS");
      PassedTwice(0, path, list, " AS");
      head := path + list;
    }
    KeywordsArePassed(h.replace, head + " AS");
    PassedTwice(0, keywords, head, " AS");
    assert h.Text() == keywords + head;
    CutShort(h.Text()[|h.Text()| - 1]);
  }

  lemma CutShort(prev: char)
    ensures QueryStart(TOP, prev, " AS") == -1
  {
    assert " AS"[1..] == "AS" && "AS"[1..] == "S" && "S"[1..] == "";
  }

  /** Reading a view definition gives the trimmed query back, whatever the view
      and its columns are called.  Without a final semicolon this needs a query
      that is not blank and does not itself end in a semicolon; with one it needs
      nothing. */
  lemma ViewRoundTrip(h: Header, query: string, semicolon: bool)
    requires h.Valid()
    ensures ViewQuery(DefinitionText(h, query, semicolon)) == Trim(query) <==>
            semicolon || (Trim(query) != "" && !HasSuffix(Trim(query), ";"))
  {
    hide TrimRight, TrimLeft;
    if semicolon {
      ViewQueryOfText(h, query + ";");
      TrimWithSemicolon(query);
    } else {
      assert query + "" == query;
      ViewQueryOfText(h, query);
      TrimIdempotent(query);
      var t := Trim(query);
      if HasSuffix(t, ";") {
        TrimShortens(t[..|t| - 1]);
      }
    }
  }

  /** The queries that do not come back without a final semicolon, for every view: those
      that end in a semicolon of their own, and blank ones. */
  lemma QueryThatDoesNotComeBack(h: Header, query: string)
    requires h.Valid()
    requires Blank(query) || (Trimmed(query) && HasSuffix(query, ";"))
    ensures ViewQuery(DefinitionText(h, query, false)) != Trim(query)
  {
    TrimBlank(query);
    if Trimmed(query) {
      TrimOfTrimmed(query);
    }
    hide Trim, ViewQuery, DefinitionText, Blank;
    ViewRoundTrip(h, query, false);
  }

  /** One of each. */
  lemma SuchQueries()
    ensures Trimmed("SELECT 1;") && HasSuffix("SELECT 1;", ";") && Blank(" ")
  {
  }

  lemma TrimShortens(s: string)
    ensures |Trim(s)| <= |s|
  {
  }

  lemma TrimWithSemicolon(query: string)
    ensures Trim(query + ";") != ""
    ensures Trim(TrimSemicolon(Trim(query + ";"))) == Trim(query)
  {
    TrimLeftAppend(query, ";");
    var left := TrimLeft(query);
    assert TrimLeft(query + ";") == left + ";" by { assert "" + ";" == ";"; }
    var s := left + ";";
    assert s[|s| - 1] == ';' && s[|s| - 1..] == ";" && s[..|s| - 1] == left;
    assert Trim(query + ";") == s;
    TrimLeftTwice(query);
  }

  lemma TrimLeftTwice(s: string)
    ensures TrimLeft(TrimLeft(s)) == TrimLeft(s)
  {
    TrimLeftShape(s);
  }
}
