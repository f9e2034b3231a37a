/** `columnTypeSyntaxError` of internal/resources/table_resource.go and the
    splice that `canonicalColumnType` makes of a type it accepts. */
module TypeSyntax {
  import opened Text
  import opened SqlBuild
  import opened Wrappers

  datatype Verdict = Accepted | Empty | NulByte | Semicolon | Comment | Unbalanced | Unterminated

  /** The loop's variables: the open brackets, and the open quote or NUL. */
  datatype State = State(stack: string, quote: char)

  datatype Outcome = Stopped(verdict: Verdict) | Reached(state: State)

  function Open(stack: string): State {
    State(stack, NO_QUOTE)
  }

  predicate IsQuote(c: char) {
    c == '\'' || c == '"'
  }

  predicate IsOpening(c: char) {
    c == '(' || c == '['
  }

  predicate IsClosing(c: char) {
    c == ')' || c == ']'
  }

  function Closing(open: char): char {
    if open == '(' then ')' else ']'
  }

  predicate CommentPair(a: char, b: char) {
    (a == '-' && b == '-') || (a == '/' && b == '*') || (a == '*' && b == '/')
  }

  /** Reads `s` to its end, or stops at the first error. */
  function Run(st: State, s: string): Outcome
    decreases |s|
  {
    if s == "" then Reached(st)
    else if s[0] == '\0' then Stopped(NulByte)
    else if st.quote != NO_QUOTE then
      if s[0] != st.quote then Run(st, s[1..])
      else if |s| > 1 && s[1] == st.quote then Run(st, s[2..])
      else Run(Open(st.stack), s[1..])
    else if IsQuote(s[0]) then Run(State(st.stack, s[0]), s[1..])
    else if s[0] == ';' then Stopped(Semicolon)
    else if |s| > 1 && CommentPair(s[0], s[1]) then Stopped(Comment)
    else if IsOpening(s[0]) then Run(Open(st.stack + [s[0]]), s[1..])
    else if IsClosing(s[0]) then
      if st.stack == "" || Closing(st.stack[|st.stack| - 1]) != s[0] then Stopped(Unbalanced)
      else Run(Open(st.stack[..|st.stack| - 1]), s[1..])
    else Run(st, s[1..])
  }

  function Finish(o: Outcome): Verdict {
    match o
    case Stopped(v) => v
    case Reached(st) =>
      if st.quote != NO_QUOTE then Unterminated else if st.stack != "" then Unbalanced else Accepted
  }

  function SyntaxVerdict(columnType: string): Verdict {
    if Trim(columnType) == "" then Empty else Finish(Run(Open(""), Trim(columnType)))
  }

  method ColumnTypeSyntaxError(columnType: string) returns (verdict: Verdict)
    ensures verdict == SyntaxVerdict(columnType)
  {
    var value := Trim(columnType);
    if value == "" {
      return Empty;
    }
    var stack, quote := "", NO_QUOTE;
    var i := 0;
    while i < |value|
      invariant i <= |value|
      invariant forall k :: 0 <= k < |stack| ==> IsOpening(stack[k])
      invariant Run(Open(""), value) == Run(State(stack, quote), value[i..])
    {
      var ch := value[i];
      assert value[i..][0] == ch && value[i..][1..] == value[i + 1..];
      if ch == '\0' {
        return NulByte;
      }
      if quote != NO_QUOTE {
        if ch == quote {
          if i + 1 < |value| && value[i + 1] == quote {
            assert value[i..][2..] == value[i + 2..];
            i := i + 2;
            continue;
          }
          quote := NO_QUOTE;
        }
        i := i + 1;
        continue;
      }
      if IsQuote(ch) {
        quote := ch;
        i := i + 1;
        continue;
      }
      if ch == ';' {
        return Semicolon;
      }
      if i + 1 < |value| && CommentPair(ch, value[i + 1]) {
        return Comment;
      }
      if IsOpening(ch) {
        stack := stack + [ch];
      } else if IsClosing(ch) {
        if |stack| == 0 || (ch == ')' && stack[|stack| - 1] != '(') || (ch == ']' && stack[|stack| - 1] != '[') {
          return Unbalanced;
        }
        stack := stack[..|stack| - 1];
      }
      i := i + 1;
    }
    assert value[i..] == "";
    if quote != NO_QUOTE {
      return Unterminated;
    }
    if |stack| != 0 {
      return Unbalanced;
    }
    return Accepted;
  }

  // ---------------------------------------------------------------------
  // The first fault
  // ---------------------------------------------------------------------

  /** The brackets that are open before position `i`, outside quotes. */
  function BracketsBefore(s: string, i: nat): string
    requires i <= |s|
  {
    if i == 0 then ""
    else
      var open, c := BracketsBefore(s, i - 1), s[i - 1];
      if QuoteBefore(s, i - 1) != NO_QUOTE then open
      else if c in {'(', '['} then open + [c]
      else if c in {')', ']'} && open != "" then open[..|open| - 1]
      else open
  }

  /** What is wrong at position `i`; behind the last rune, what is left open. */
  function FaultAt(s: string, i: nat): Verdict
    requires i <= |s|
  {
    var quote, open := QuoteBefore(s, i), BracketsBefore(s, i);
    if i == |s| then if quote != NO_QUOTE then Unterminated else if open != "" then Unbalanced else Accepted
    else if s[i] == '\0' then NulByte
    else if quote != NO_QUOTE then Accepted
    else if s[i] == ';' then Semicolon
    else if i + 1 < |s| && s[i..i + 2] in {"--", "/*", "*/"} then Comment
    else if s[i] == ')' && (open == "" || open[|open| - 1] != '(') then Unbalanced
    else if s[i] == ']' && (open == "" || open[|open| - 1] != '[') then Unbalanced
    else Accepted
  }

  /** The first fault at or behind `i`, or none. */
  ghost predicate IsFirstFault(s: string, i: nat, v: Verdict)
    requires i <= |s|
  {
    if v == Accepted then forall j :: i <= j <= |s| ==> FaultAt(s, j) == Accepted
    else exists j :: i <= j <= |s| && FaultAt(s, j) == v && forall k :: i <= k < j ==> FaultAt(s, k) == Accepted
  }

  lemma FirstFaultBehind(s: string, i: nat, n: nat, v: Verdict)
    requires i + n <= |s| && IsFirstFault(s, i + n, v)
    requires forall k :: i <= k < i + n ==> FaultAt(s, k) == Accepted
    ensures IsFirstFault(s, i, v)
  {
    hide FaultAt;
    if v != Accepted {
      var j :| i + n <= j <= |s| && FaultAt(s, j) == v && forall k :: i + n <= k < j ==> FaultAt(s, k) == Accepted;
    }
  }

  lemma FirstFaultHere(s: string, i: nat)
    requires i <= |s| && (i == |s| || FaultAt(s, i) != Accepted)
    ensures IsFirstFault(s, i, FaultAt(s, i))
  {
    hide FaultAt;
  }

  lemma StepOver(s: string, i: nat)
    requires i < |s|
    ensures var q, open, c := QuoteBefore(s, i), BracketsBefore(s, i), s[i];
            && QuoteBefore(s, i + 1) == (if q == NO_QUOTE then if c in {'"', '\''} then c else NO_QUOTE
                                         else if c == q then NO_QUOTE else q)
            && BracketsBefore(s, i + 1) == (if q != NO_QUOTE then open
                                            else if c in {'(', '['} then open + [c]
                                            else if c in {')', ']'} && open != "" then open[..|open| - 1]
                                            else open)
  {
  }

  function StateBefore(s: string, i: nat): State
    requires i <= |s|
  {
    State(BracketsBefore(s, i), QuoteBefore(s, i))
  }

  /** A rune that is no fault: the loop goes on behind it, or behind the second one of a
      doubled quote. */
  lemma RunStep(s: string, i: nat)
    requires i < |s| && QuoteBefore(s, i) in {NO_QUOTE, '"', '\''}
    requires forall k :: 0 <= k < |BracketsBefore(s, i)| ==> IsOpening(BracketsBefore(s, i)[k])
    ensures FaultAt(s, i) != Accepted ==> Run(StateBefore(s, i), s[i..]) == Stopped(FaultAt(s, i))
    ensures FaultAt(s, i) == Accepted ==>
              if QuoteBefore(s, i) == s[i] && i + 1 < |s| && s[i + 1] == s[i]
              then FaultAt(s, i + 1) == Accepted && StateBefore(s, i + 2) == StateBefore(s, i) &&
                   Run(StateBefore(s, i), s[i..]) == Run(StateBefore(s, i + 2), s[i + 2..])
              else Run(StateBefore(s, i), s[i..]) == Run(StateBefore(s, i + 1), s[i + 1..])
  {
    hide QuoteBefore, BracketsBefore;
    StepOver(s, i);
    assert s[i..][1..] == s[i + 1..] && s[i..][0] == s[i];
    if i + 1 < |s| {
      StepOver(s, i + 1);
      assert s[i..][2..] == s[i + 2..] && s[i..][1] == s[i + 1];
      PairIs(s, i);
    }
  }

  lemma PairIs(s: string, i: nat)
    requires i + 1 < |s|
    ensures s[i..i + 2] in {"--", "/*", "*/"} <==> CommentPair(s[i], s[i + 1])
  {
    assert s[i..i + 2] == [s[i], s[i + 1]];
    assert forall a, b :: [s[i], s[i + 1]] == [a, b] <==> s[i] == a && s[i + 1] == b;
  }

  lemma {:induction false} RunFrom(s: string, i: nat)
    requires i <= |s| && QuoteBefore(s, i) in {NO_QUOTE, '"', '\''}
    requires forall k :: 0 <= k < |BracketsBefore(s, i)| ==> IsOpening(BracketsBefore(s, i)[k])
    ensures IsFirstFault(s, i, Finish(Run(StateBefore(s, i), s[i..])))
    decreases |s| - i
  {
    hide FaultAt, QuoteBefore, BracketsBefore, Run, IsFirstFault;
    if i == |s| {
      RunEnds(s);
      FirstFaultHere(s, i);
      return;
    }
    RunStep(s, i);
    StepOver(s, i);
    if FaultAt(s, i) != Accepted {
      FirstFaultHere(s, i);
    } else if QuoteBefore(s, i) == s[i] && i + 1 < |s| && s[i + 1] == s[i] {
      RunFrom(s, i + 2);
      FirstFaultBehind(s, i, 2, Finish(Run(StateBefore(s, i + 2), s[i + 2..])));
    } else {
      RunFrom(s, i + 1);
      FirstFaultBehind(s, i, 1, Finish(Run(StateBefore(s, i + 1), s[i + 1..])));
    }
  }

  lemma RunEnds(s: string)
    ensures Finish(Run(StateBefore(s, |s|), s[|s|..])) == FaultAt(s, |s|)
  {
    hide QuoteBefore, BracketsBefore;
  }

  /** The verdict on a text that is not blank is its first fault: a NUL anywhere, and
      outside quotes a semicolon, a comment pair or a bracket that closes another kind or
      none; behind the end, a quote or a bracket left open. */
  lemma VerdictIsFirstFault(columnType: string)
    ensures SyntaxVerdict(columnType) == Empty <==> Trim(columnType) == ""
    ensures Trim(columnType) != "" ==> IsFirstFault(Trim(columnType), 0, SyntaxVerdict(columnType))
  {
    hide IsFirstFault, Run;
    var s := Trim(columnType);
    if s != "" {
      RunFrom(s, 0);
      assert s[0..] == s;
      NeverEmpty(Open(""), s);
    }
  }

  lemma {:induction false} NeverEmpty(st: State, s: string)
    ensures Finish(Run(st, s)) != Empty
    decreases |s|
  {
    if s != "" {
      NeverEmpty(st, s[1..]);
      NeverEmpty(Open(st.stack), s[1..]);
      NeverEmpty(State(st.stack, s[0]), s[1..]);
      NeverEmpty(Open(st.stack + [s[0]]), s[1..]);
      if |s| > 1 {
        NeverEmpty(st, s[2..]);
      }
      if st.stack != "" {
        NeverEmpty(Open(st.stack[..|st.stack| - 1]), s[1..]);
      }
    }
  }

  // ---------------------------------------------------------------------
  // The grammar
  // ---------------------------------------------------------------------

  /** A derivation: plain runes, quoted runs and bracketed groups. */
  datatype Node =
    | Rune(c: char)
    | Quote(q: char, body: string)
    | Group(open: char, inner: seq<Node>)

  function RenderNode(n: Node): string {
    match n
    case Rune(c) => [c]
    case Quote(q, body) => [q] + (Double(body, q) + [q])
    case Group(open, inner) => [open] + (Render(inner) + [if open == '(' then ')' else ']'])
  }

  function Render(nodes: seq<Node>): string {
    if nodes == [] then "" else RenderNode(nodes[0]) + Render(nodes[1..])
  }

  /** Neighbours that would read as a comment, or as one longer quoted run. */
  predicate Clash(a: Node, b: Node) {
    || (a.Rune? && b.Rune? && [a.c, b.c] in {"--", "/*", "*/"})
    || (a.Quote? && b.Quote? && a.q == b.q)
  }

  predicate GrammaticalNode(n: Node) {
    match n
    case Rune(c) => c !in {'\0', ';', '\'', '"', '(', ')', '[', ']'}
    case Quote(q, body) => q in {'\'', '"'} && '\0' !in body
    case Group(open, inner) => open in {'(', '['} && Grammatical(inner)
  }

  predicate Grammatical(nodes: seq<Node>) {
    && (forall i :: 0 <= i < |nodes| ==> GrammaticalNode(nodes[i]))
    && (forall i :: 0 <= i < |nodes| - 1 ==> !Clash(nodes[i], nodes[i + 1]))
  }

  // ---------------------------------------------------------------------
  // Every grammatical text is read through
  // ---------------------------------------------------------------------

  /** Text that cannot merge with the node before it. */
  predicate Follows(n: Node, rest: string) {
    rest == "" || match n
                  case Rune(c) => !CommentPair(c, rest[0])
                  case Quote(q, _) => rest[0] != q
                  case Group(_, _) => true
  }

  lemma {:induction false} RunThroughQuote(stack: string, q: char, body: string, rest: string)
    requires IsQuote(q) && '\0' !in body
    requires rest == "" || rest[0] != q
    ensures Run(State(stack, q), Double(body, q) + [q] + rest) == Run(Open(stack), rest)
    decreases |body|
  {
    var s := Double(body, q) + [q] + rest;
    if body == "" {
      assert s[1..] == rest;
    } else {
      RunThroughQuote(stack, q, body[1..], rest);
      if body[0] == q {
        assert s[2..] == Double(body[1..], q) + [q] + rest;
      } else {
        assert s[0] == body[0] && s[1..] == Double(body[1..], q) + [q] + rest;
      }
    }
  }

  lemma LastFollows(nodes: seq<Node>, rest: string)
    requires Grammatical(nodes)
    requires rest == "" || IsClosing(rest[0])
    ensures nodes != [] ==> Follows(nodes[|nodes| - 1], rest)
  {
    if nodes != [] {
      assert GrammaticalNode(nodes[|nodes| - 1]);
    }
  }

  lemma {:induction false} RunThroughNode(stack: string, n: Node, rest: string)
    requires GrammaticalNode(n) && Follows(n, rest)
    ensures Run(Open(stack), RenderNode(n) + rest) == Run(Open(stack), rest)
    decreases n
  {
    match n
    case Rune(c) => RunThroughRune(stack, c, rest);
    case Quote(q, body) =>
      hide Run;
      RunThroughQuote(stack, q, body, rest);
      QuoteOpens(stack, q, Double(body, q) + [q] + rest);
      assert RenderNode(n) + rest == [q] + (Double(body, q) + [q] + rest);
    case Group(open, inner) =>
      hide Run, Grammatical, Render;
      var after := [Closing(open)] + rest;
      LastFollows(inner, after);
      RunThrough(stack + [open], inner, after);
      GroupOpens(stack, open, Render(inner) + after);
      GroupCloses(stack, open, rest);
      assert RenderNode(n) + rest == [open] + (Render(inner) + after);
  }

  lemma RunThroughRune(stack: string, c: char, rest: string)
    requires GrammaticalNode(Rune(c)) && Follows(Rune(c), rest)
    ensures Run(Open(stack), [c] + rest) == Run(Open(stack), rest)
  {
    assert ([c] + rest)[1..] == rest;
  }

  lemma QuoteOpens(stack: string, q: char, rest: string)
    requires IsQuote(q)
    ensures Run(Open(stack), [q] + rest) == Run(State(stack, q), rest)
  {
    assert ([q] + rest)[1..] == rest;
  }

  lemma GroupOpens(stack: string, open: char, rest: string)
    requires IsOpening(open)
    ensures Run(Open(stack), [open] + rest) == Run(Open(stack + [open]), rest)
  {
    assert ([open] + rest)[1..] == rest;
  }

  lemma GroupCloses(stack: string, open: char, rest: string)
    requires IsOpening(open)
    ensures Run(Open(stack + [open]), [Closing(open)] + rest) == Run(Open(stack), rest)
  {
    var pushed := stack + [open];
    assert ([Closing(open)] + rest)[1..] == rest && pushed[..|pushed| - 1] == stack;
  }

  lemma NoClashFollows(a: Node, b: Node, rest: string)
    requires GrammaticalNode(a) && GrammaticalNode(b) && !Clash(a, b)
    ensures Follows(a, RenderNode(b) + rest)
  {
    assert (RenderNode(b) + rest)[0] == RenderNode(b)[0];
  }

  lemma GrammaticalParts(nodes: seq<Node>)
    requires nodes != [] && Grammatical(nodes)
    ensures GrammaticalNode(nodes[0]) && Grammatical(nodes[1..])
    ensures |nodes| > 1 ==> GrammaticalNode(nodes[1]) && !Clash(nodes[0], nodes[1])
  {
    forall i | 0 <= i < |nodes[1..]| - 1 ensures !Clash(nodes[1..][i], nodes[1..][i + 1]) {
      var j := i + 1;
      assert !Clash(nodes[j], nodes[j + 1]);
    }
    if |nodes| > 1 {
      assert !Clash(nodes[0], nodes[0 + 1]);
    }
  }

  lemma RenderCons(nodes: seq<Node>, rest: string)
    requires nodes != []
    ensures Render(nodes) + rest == RenderNode(nodes[0]) + (Render(nodes[1..]) + rest)
  {
  }

  lemma {:induction false} RunThrough(stack: string, nodes: seq<Node>, rest: string)
    requires Grammatical(nodes)
    requires nodes != [] ==> Follows(nodes[|nodes| - 1], rest)
    ensures Run(Open(stack), Render(nodes) + rest) == Run(Open(stack), rest)
    decreases nodes
  {
    hide Run, Grammatical, GrammaticalNode, Clash, Follows, Render, RenderNode;
    if nodes == [] {
      assert Render([]) + rest == rest by { RenderNothing(); }
    } else {
      GrammaticalParts(nodes);
      RenderCons(nodes, rest);
      if |nodes| > 1 {
        RenderCons(nodes[1..], rest);
        NoClashFollows(nodes[0], nodes[1], Render(nodes[1..][1..]) + rest);
      } else {
        assert nodes[1..] == [];
        assert Render([]) + rest == rest by { RenderNothing(); }
      }
      RunThroughNode(stack, nodes[0], Render(nodes[1..]) + rest);
      RunThrough(stack, nodes[1..], rest);
    }
  }

  lemma RenderNothing()
    ensures Render([]) == ""
  {
  }

  // ---------------------------------------------------------------------
  // Every text read through is grammatical
  // ---------------------------------------------------------------------

  lemma {:induction false} QuoteWasClosed(stack: string, q: char, s: string)
    requires IsQuote(q) && Finish(Run(State(stack, q), s)) == Accepted
    ensures ReadQuoted(s, q).Some?
    ensures '\0' !in ReadQuoted(s, q).value.0
    ensures Run(State(stack, q), s) == Run(Open(stack), ReadQuoted(s, q).value.1)
    decreases |s|
  {
    if s[0] != q {
      QuoteWasClosed(stack, q, s[1..]);
    } else if |s| > 1 && s[1] == q {
      QuoteWasClosed(stack, q, s[2..]);
    }
  }

  lemma GrammaticalCons(first: Node, more: seq<Node>, behind: string, rest: string)
    requires GrammaticalNode(first) && Follows(first, behind)
    requires Grammatical(more) && Render(more) + rest == behind
    ensures Grammatical([first] + more)
    ensures Render([first] + more) + rest == RenderNode(first) + behind
  {
    var nodes := [first] + more;
    assert nodes[1..] == more;
    if more != [] {
      assert behind[0] == RenderNode(more[0])[0];
      assert !Clash(first, more[0]);
    }
    forall i | 0 <= i < |nodes| - 1 ensures !Clash(nodes[i], nodes[i + 1]) {
      if i > 0 {
        assert nodes[i] == more[i - 1] && nodes[i + 1] == more[i - 1 + 1];
      }
    }
    assert RenderNode(first) + Render(more) + rest == RenderNode(first) + (Render(more) + rest);
  }

  /** The first node of a text, and the text behind it. */
  lemma {:induction false} DeriveFirst(stack: string, s: string) returns (first: Node, behind: string)
    requires forall k :: 0 <= k < |stack| ==> IsOpening(stack[k])
    requires Finish(Run(Open(stack), s)) == Accepted
    requires s != "" && !IsClosing(s[0])
    ensures GrammaticalNode(first) && Follows(first, behind)
    ensures RenderNode(first) + behind == s
    ensures Finish(Run(Open(stack), behind)) == Accepted
    decreases |s|, 0
  {
    assert s == [s[0]] + s[1..];
    if IsQuote(s[0]) {
      QuoteWasClosed(stack, s[0], s[1..]);
      DoubleOfReadQuoted(s[1..], s[0]);
      var v := ReadQuoted(s[1..], s[0]).value;
      first, behind := Quote(s[0], v.0), v.1;
    } else if IsOpening(s[0]) {
      var inner, closing := Derive(stack + [s[0]], s[1..]);
      assert (stack + [s[0]])[..|stack|] == stack;
      first, behind := Group(s[0], inner), closing[1..];
      assert closing == [closing[0]] + closing[1..];
    } else {
      first, behind := Rune(s[0]), s[1..];
    }
  }

  /** The derivation of the text up to the bracket that closes the top of the
      stack, or up to the end. */
  lemma {:induction false} Derive(stack: string, s: string) returns (nodes: seq<Node>, rest: string)
    requires forall k :: 0 <= k < |stack| ==> IsOpening(stack[k])
    requires Finish(Run(Open(stack), s)) == Accepted
    ensures Grammatical(nodes) && Render(nodes) + rest == s
    ensures stack == "" ==> rest == ""
    ensures stack != "" ==> rest != "" && rest[0] == Closing(stack[|stack| - 1])
    ensures stack != "" ==> Finish(Run(Open(stack[..|stack| - 1]), rest[1..])) == Accepted
    decreases |s|, 1
  {
    if s == "" || IsClosing(s[0]) {
      nodes, rest := [], s;
    } else {
      var first, behind := DeriveFirst(stack, s);
      assert |RenderNode(first)| > 0;
      var more;
      more, rest := Derive(stack, behind);
      nodes := [first] + more;
      GrammaticalCons(first, more, behind, rest);
    }
  }

  // ---------------------------------------------------------------------
  // Main results
  // ---------------------------------------------------------------------

  /** The scanner accepts exactly the non-blank texts that the grammar derives. */
  lemma AcceptsExactlyTheGrammar(columnType: string)
    ensures SyntaxVerdict(columnType) == Accepted <==>
            Trim(columnType) != "" && exists nodes :: Grammatical(nodes) && Render(nodes) == Trim(columnType)
  {
    var t := Trim(columnType);
    if SyntaxVerdict(columnType) == Accepted {
      var nodes, rest := Derive("", t);
      assert Render(nodes) + rest == Render(nodes);
    }
    if t != "" && exists nodes :: Grammatical(nodes) && Render(nodes) == t {
      var nodes :| Grammatical(nodes) && Render(nodes) == t;
      RunThrough("", nodes, "");
      assert Render(nodes) + "" == t;
    }
  }

  /** An accepted type is read the same way under any open brackets: it leaves
      them open and closes none of them, so the text behind it is read as if the
      type were not there. */
  lemma AcceptedTypeIsFramed(columnType: string, outer: string, rest: string)
    requires SyntaxVerdict(columnType) == Accepted
    requires rest == "" || IsClosing(rest[0])
    ensures Run(Open(outer), Trim(columnType) + rest) == Run(Open(outer), rest)
  {
    var nodes, none := Derive("", Trim(columnType));
    assert Render(nodes) + none == Render(nodes);
    LastFollows(nodes, rest);
    RunThrough(outer, nodes, rest);
  }

  /** Nothing the reader does below the brackets it opened itself depends on the
      brackets that were open before: it never looks at them, let alone pops
      them. */
  lemma {:induction false} OuterBracketsUntouched(outer: string, st: State, s: string)
    requires Run(st, s).Reached?
    ensures Run(State(outer + st.stack, st.quote), s) ==
            Reached(State(outer + Run(st, s).state.stack, Run(st, s).state.quote))
    decreases |s|
  {
    if s == "" || s[0] == '\0' {
    } else if st.quote != NO_QUOTE {
      if s[0] != st.quote {
        OuterBracketsUntouched(outer, st, s[1..]);
      } else if |s| > 1 && s[1] == st.quote {
        OuterBracketsUntouched(outer, st, s[2..]);
      } else {
        OuterBracketsUntouched(outer, Open(st.stack), s[1..]);
      }
    } else if IsQuote(s[0]) {
      OuterBracketsUntouched(outer, State(st.stack, s[0]), s[1..]);
    } else if IsOpening(s[0]) {
      assert outer + st.stack + [s[0]] == outer + (st.stack + [s[0]]);
      OuterBracketsUntouched(outer, Open(st.stack + [s[0]]), s[1..]);
    } else if IsClosing(s[0]) {
      var all := outer + st.stack;
      assert all[..|all| - 1] == outer + st.stack[..|st.stack| - 1];
      OuterBracketsUntouched(outer, Open(st.stack[..|st.stack| - 1]), s[1..]);
    } else {
      OuterBracketsUntouched(outer, st, s[1..]);
    }
  }

  const SPLICE_HEAD := "SELECT typeof(CAST(NULL AS "
  const SPLICE_TAIL := "))"

  predicate IsPlain(c: char) {
    'A' <= c <= 'Z' || 'a' <= c <= 'z' || c == ' '
  }

  lemma RunPlainRune(stack: string, s: string)
    requires s != "" && IsPlain(s[0])
    ensures Run(Open(stack), s) == Run(Open(stack), s[1..])
  {
  }

  lemma {:induction false} RunPlain(stack: string, a: string, rest: string)
    requires forall i :: 0 <= i < |a| ==> IsPlain(a[i])
    ensures Run(Open(stack), a + rest) == Run(Open(stack), rest)
    decreases |a|
  {
    hide Run;
    if a == "" {
      assert a + rest == rest;
    } else {
      assert (a + rest)[1..] == a[1..] + rest;
      RunPlainRune(stack, a + rest);
      RunPlain(stack, a[1..], rest);
    }
  }

  lemma RunOpens(stack: string, rest: string)
    ensures Run(Open(stack), "(" + rest) == Run(Open(stack + "("), rest)
  {
    assert ("(" + rest)[1..] == rest && stack + "(" == stack + ['('];
  }

  lemma RunSpliceHead(rest: string)
    ensures Run(Open(""), SPLICE_HEAD + rest) == Run(Open("(("), rest)
  {
    hide Run;
    var a := "NULL AS " + rest;
    var b := "CAST" + ("(" + a);
    assert SPLICE_HEAD + rest == "SELECT typeof" + ("(" + b);
    RunPlain("", "SELECT typeof", "(" + b);
    RunOpens("", b);
    RunPlain("" + "(", "CAST", "(" + a);
    RunOpens("" + "(", a);
    RunPlain("" + "(" + "(", "NULL AS ", rest);
    assert "" + "(" + "(" == "((";
  }

  /** The query that `canonicalColumnType` builds keeps its own parentheses: the
      type is read inside both of them and leaves both open, and the two that
      follow it close them. */
  lemma SpliceKeepsItsParentheses(columnType: string)
    requires SyntaxVerdict(columnType) == Accepted
    ensures Run(Open("(("), Trim(columnType)) == Reached(Open("(("))
    ensures Finish(Run(Open(""), SPLICE_HEAD + (Trim(columnType) + SPLICE_TAIL))) == Accepted
  {
    var t := Trim(columnType);
    AcceptedTypeIsFramed(columnType, "((", "");
    assert t + "" == t;
    AcceptedTypeIsFramed(columnType, "((", SPLICE_TAIL);
    RunSpliceHead(t + SPLICE_TAIL);
    assert SPLICE_TAIL[1..] == ")" && ")"[1..] == "";
    assert "(("[..1] == "(" && "("[..0] == "";
  }
}
