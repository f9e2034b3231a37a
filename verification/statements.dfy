/** The statement splitter, tokenizer and target finder of
    internal/dev/mdexec/main.go. */
module Statements {
  import opened Text
  import opened SqlBuild
  import opened Wrappers
  import opened Lexing

  predicate IsIdentifierRune(c: char) {
    c == '_' || 'a' <= c <= 'z' || 'A' <= c <= 'Z' || '0' <= c <= '9'
  }

  // ---------------------------------------------------------------------
  // The scanner as a function of the text still to be read
  // ---------------------------------------------------------------------

  /** The two runes before the scan position; a blank stands for "no rune",
      which the scanner cannot tell from a blank. */
  datatype Context = Context(p2: char, p1: char) {
    predicate OpensEscape() {
      p1 in {'e', 'E'} && !IsIdentifierRune(p2)
    }

    function After(read: string): Context {
      if read == "" then this
      else if |read| == 1 then Context(p1, read[0])
      else Context(read[|read| - 2], read[|read| - 1])
    }
  }

  const AT_START := Context(' ', ' ')

  /** Whether the text after a `$` completes a dollar-quote opener. */
  predicate CompletesDollarQuote(s: string) {
    s != "" && (s[0] == '$' || (IsIdentifierRune(s[0]) && CompletesDollarQuote(s[1..])))
  }

  /** Runes of a line comment, its line feed included. */
  function LineComment(s: string): (n: nat)
    ensures n <= |s|
  {
    if s == "" then 0 else if s[0] == '\n' then 1 else 1 + LineComment(s[1..])
  }

  datatype CommentEnd = Closed(n: nat) | Nested | Open

  /** Where a block comment ends, from the text after its opening pair. */
  function BlockComment(s: string): (r: CommentEnd)
    ensures r.Closed? ==> 2 <= r.n <= |s|
  {
    if |s| < 2 then Open
    else if s[0] == '/' && s[1] == '*' then Nested
    else if s[0] == '*' && s[1] == '/' then Closed(2)
    else match BlockComment(s[1..]) case Closed(n) => Closed(n + 1) case other => other
  }

  /** What the scanner does at one position: keep the next `n` runes, replace
      the next `n` runes (a comment) by a blank, end the statement, or fail. */
  datatype Action = Keep(n: nat) | Erase(n: nat) | Cut | Reject(error: SplitError)

  function Next(before: Context, s: string): (a: Action)
    requires s != ""
    ensures a.Keep? || a.Erase? ==> 0 < a.n <= |s|
    ensures a.Erase? ==> a.n >= 2
  {
    var c := s[0];
    if c == '\'' && before.OpensEscape() then Reject(EscapeString)
    else if c == '$' && CompletesDollarQuote(s[1..]) then Reject(DollarQuote)
    else if c == '\'' || c == '"' then Keep(1 + QuotedTail(s[1..], c))
    else if c == '-' && |s| > 1 && s[1] == '-' then Erase(2 + LineComment(s[2..]))
    else if c == '/' && |s| > 1 && s[1] == '*' then
      (match BlockComment(s[2..])
       case Closed(n) => Erase(n + 2)
       case Nested => Reject(NestedComment)
       case Open => Reject(UnterminatedComment))
    else if c == ';' then Cut
    else Keep(1)
  }

  /** The text of the statement being read, then the later statements. */
  type Scanned = Result<(string, seq<string>), SplitError>

  function Prepend(s: string, r: Scanned): Scanned {
    match r
    case Failure(e) => Failure(e)
    case Success(v) => Success((s + v.0, v.1))
  }

  lemma PrependTwice(a: string, b: string, r: Scanned)
    ensures Prepend(a, Prepend(b, r)) == Prepend(a + b, r)
    ensures Prepend("", r) == r
  {
    if r.Success? {
      assert a + (b + r.value.0) == a + b + r.value.0;
      assert "" + r.value.0 == r.value.0;
    }
  }

  function Scan(before: Context, s: string): Scanned
    decreases |s|
  {
    if s == "" then Success(("", []))
    else
      match Next(before, s)
      case Reject(e) => Failure(e)
      case Cut =>
        (match Scan(before.After(s[..1]), s[1..])
         case Failure(e) => Failure(e)
         case Success(r) => Success(("", [r.0] + r.1)))
      case Keep(n) => Prepend(s[..n], Scan(before.After(s[..n]), s[n..]))
      case Erase(n) => Prepend(" ", Scan(before.After(s[..n]), s[n..]))
  }

  function NonBlank(piece: string): seq<string> {
    if Trim(piece) != "" then [Trim(piece)] else []
  }

  function TrimAll(pieces: seq<string>): seq<string> {
    if pieces == [] then [] else NonBlank(pieces[0]) + TrimAll(pieces[1..])
  }

  function Split(query: string): Result<seq<string>, SplitError> {
    match Scan(AT_START, query)
    case Failure(e) => Failure(e)
    case Success(r) => Success(TrimAll([r.0] + r.1))
  }

  // ---------------------------------------------------------------------
  // Clean text: what a returned statement looks like
  // ---------------------------------------------------------------------

  /** Reading `s` after `before` keeps every rune: outside quotes there is no
      semicolon, no comment, no dollar quote and no escape string. */
  predicate Clean(before: Context, s: string)
    decreases |s|
  {
    s == "" || (Next(before, s).Keep? && Clean(before.After(s[..Next(before, s).n]), s[Next(before, s).n..]))
  }

  lemma {:induction false} CleanScansToItself(before: Context, s: string)
    requires Clean(before, s)
    ensures Scan(before, s) == Success((s, []))
    decreases |s|
  {
    if s != "" {
      var n := Next(before, s).n;
      CleanScansToItself(before.After(s[..n]), s[n..]);
      assert s[..n] + s[n..] == s;
    }
  }

  /** Only text without comments and cuts scans to itself. */
  lemma {:induction false} ScansToItselfIsClean(before: Context, s: string)
    requires Scan(before, s).Success?
    ensures |Scan(before, s).value.0| <= |s|
    ensures Scan(before, s).value.0 == s ==> Clean(before, s)
    decreases |s|
  {
    if s != "" {
      var a := Next(before, s);
      var n := if a.Cut? then 1 else a.n;
      var after := before.After(s[..n]);
      ScansToItselfIsClean(after, s[n..]);
      if a.Keep? && Scan(before, s).value.0 == s {
        assert s[n..] == (s[..n] + Scan(after, s[n..]).value.0)[n..];
      }
    }
  }

  // The output keeps the lookahead of the input: its next rune is the input's
  // next rune, or the blank that replaced a comment, or there is none.

  lemma HeadOfScan(before: Context, s: string)
    requires Scan(before, s).Success?
    ensures var out := Scan(before, s).value.0; out == "" || out[0] == ' ' || (s != "" && out[0] == s[0])
  {
  }

  lemma {:induction false} DollarQuoteOfScan(before: Context, s: string)
    requires Scan(before, s).Success?
    requires CompletesDollarQuote(Scan(before, s).value.0)
    ensures CompletesDollarQuote(s)
    decreases |s|
  {
    HeadOfScan(before, s);
    var out := Scan(before, s).value.0;
    if out[0] != '$' {
      assert Next(before, s) == Keep(1);
      var after := before.After(s[..1]);
      assert out == s[..1] + Scan(after, s[1..]).value.0;
      assert out[1..] == Scan(after, s[1..]).value.0;
      DollarQuoteOfScan(after, s[1..]);
    }
  }

  /** A quoted run ends where it did when other text follows it, as long as that
      text cannot double the closing quote. */
  lemma {:induction false} QuotedTailLocal(s: string, q: char, t: string)
    requires QuotedTail(s, q) == |s| ==> t == ""
    requires t != "" ==> t[0] != q
    ensures QuotedTail(s[..QuotedTail(s, q)] + t, q) == QuotedTail(s, q)
    decreases |s|
  {
    var k := QuotedTail(s, q);
    var u := s[..k] + t;
    if s == "" {
    } else if s[0] != q {
      QuotedTailLocal(s[1..], q, t);
      assert u[1..] == s[1..][..k - 1] + t;
    } else if |s| > 1 && s[1] == q {
      QuotedTailLocal(s[2..], q, t);
      assert u[2..] == s[2..][..k - 2] + t;
    } else {
      assert u == [q] + t;
    }
  }

  lemma {:induction false} QuotedTailStop(s: string, q: char)
    ensures QuotedTail(s, q) < |s| ==> s[QuotedTail(s, q)] != q
    decreases |s|
  {
    if s == "" {
    } else if s[0] != q {
      QuotedTailStop(s[1..], q);
    } else if |s| > 1 && s[1] == q {
      QuotedTailStop(s[2..], q);
    }
  }

  /** The context `out` of the output is no more dangerous than the context
      `before` of the input. */
  predicate Shadows(out: Context, before: Context) {
    && (out.OpensEscape() ==> before.OpensEscape())
    && (!IsIdentifierRune(out.p1) ==> !IsIdentifierRune(before.p1))
  }

  lemma {:induction false} KeepOneCarriesOver(before: Context, out: Context, s: string)
    requires s != "" && Next(before, s) == Keep(1) && s[0] !in {'\'', '"'}
    requires Scan(before, s).Success?
    ensures Next(out, Scan(before, s).value.0) == Keep(1)
  {
    var after := before.After(s[..1]);
    var tail := Scan(after, s[1..]).value.0;
    var text := Scan(before, s).value.0;
    assert text == s[..1] + tail;
    assert text[1..] == tail;
    HeadOfScan(after, s[1..]);
    if s[0] == '$' && CompletesDollarQuote(tail) {
      DollarQuoteOfScan(after, s[1..]);
    }
  }

  lemma QuotedRunLocal(s: string, t: string)
    requires s != ""
    requires QuotedTail(s[1..], s[0]) == |s| - 1 ==> t == ""
    requires t != "" ==> t[0] != s[0]
    ensures var n := 1 + QuotedTail(s[1..], s[0]);
            (s[..n] + t)[0] == s[0] && QuotedTail((s[..n] + t)[1..], s[0]) == n - 1
  {
    var n := 1 + QuotedTail(s[1..], s[0]);
    QuotedTailLocal(s[1..], s[0], t);
    assert (s[..n] + t)[1..] == s[1..][..n - 1] + t;
  }

  lemma {:induction false} KeepQuotedCarriesOver(before: Context, out: Context, s: string)
    requires s != "" && s[0] in {'\'', '"'} && Next(before, s).Keep?
    requires Shadows(out, before)
    requires Scan(before, s).Success?
    ensures Next(out, Scan(before, s).value.0) == Next(before, s)
  {
    var n := 1 + QuotedTail(s[1..], s[0]);
    assert Next(before, s) == Keep(n);
    var after := before.After(s[..n]);
    var tail := Scan(after, s[n..]).value.0;
    HeadOfScan(after, s[n..]);
    QuotedTailStop(s[1..], s[0]);
    assert n < |s| ==> s[n..][0] == s[1..][n - 1];
    QuotedRunLocal(s, tail);
  }

  /** Every piece the scan returns is clean.  The first one is read after `out`,
      the later ones at the start of a statement. */
  lemma {:induction false} ScanReturnsClean(before: Context, out: Context, s: string)
    requires Scan(before, s).Success?
    requires Shadows(out, before)
    ensures Clean(out, Scan(before, s).value.0)
    ensures forall i :: 0 <= i < |Scan(before, s).value.1| ==> Clean(AT_START, Scan(before, s).value.1[i])
    decreases |s|
  {
    if s == "" { return; }
    var a := Next(before, s);
    var n := if a.Cut? then 1 else a.n;
    var after := before.After(s[..n]);
    var text, tail := Scan(before, s).value.0, Scan(after, s[n..]).value.0;
    match a
    case Cut =>
      ScanReturnsClean(after, AT_START, s[1..]);
    case Erase(_) =>
      if n < |s| {
        EraseEndsOutsideWord(before, s);
        ScanReturnsClean(after, out.After(" "), s[n..]);
      }
      assert text[1..] == tail;
    case Keep(_) =>
      if s[0] in {'\'', '"'} {
        KeepQuotedCarriesOver(before, out, s);
        if n >= 2 {
          assert after == out.After(s[..n]);
          ScanReturnsClean(after, after, s[n..]);
        }
      } else {
        KeepOneCarriesOver(before, out, s);
        ScanReturnsClean(after, out.After(s[..1]), s[1..]);
      }
      assert text[..n] == s[..n] && text[n..] == tail;
  }

  /** A comment that something follows ends in `/` or a line feed. */
  lemma EraseEndsOutsideWord(before: Context, s: string)
    requires s != "" && Next(before, s).Erase? && Next(before, s).n < |s|
    ensures !IsIdentifierRune(s[Next(before, s).n - 1])
  {
    if s[0] == '-' {
      LineCommentEnd(s[2..]);
    } else {
      BlockCommentEnd(s[2..]);
    }
  }

  lemma {:induction false} LineCommentEnd(s: string)
    ensures LineComment(s) < |s| ==> LineComment(s) > 0 && s[LineComment(s) - 1] == '\n'
  {
    if s != "" && s[0] != '\n' { LineCommentEnd(s[1..]); }
  }

  lemma {:induction false} BlockCommentEnd(s: string)
    ensures BlockComment(s).Closed? ==> s[BlockComment(s).n - 1] == '/'
  {
    if |s| >= 2 && BlockComment(s).Closed? && !(s[0] == '*' && s[1] == '/') { BlockCommentEnd(s[1..]); }
  }

  // ---------------------------------------------------------------------
  // Trimming keeps text clean
  // ---------------------------------------------------------------------

  lemma {:induction false} CleanWithout(out: Context, before: Context, s: string)
    requires Clean(before, s) && Shadows(out, before)
    ensures Clean(out, s)
  {
    CleanScansToItself(before, s);
    ScanReturnsClean(before, out, s);
  }

  lemma {:induction false} TrimLeftClean(s: string)
    requires Clean(AT_START, s)
    ensures Clean(AT_START, TrimLeft(s))
    decreases |s|
  {
    if s != "" && IsSpace(s[0]) {
      CleanWithout(AT_START, AT_START.After(s[..1]), s[1..]);
      TrimLeftClean(s[1..]);
    }
  }

  lemma {:induction false} QuotedTailChop(s: string, q: char, w: char)
    requires w != q
    ensures QuotedTail(s + [w], q) == if QuotedTail(s + [w], q) <= |s| then QuotedTail(s, q) else QuotedTail(s, q) + 1
    ensures QuotedTail(s + [w], q) > |s| ==> QuotedTail(s, q) == |s|
    decreases |s|
  {
    var t := s + [w];
    if s == "" {
    } else if s[0] != q {
      assert t[1..] == s[1..] + [w];
      QuotedTailChop(s[1..], q, w);
    } else if |s| > 1 && s[1] == q {
      assert t[2..] == s[2..] + [w];
      QuotedTailChop(s[2..], q, w);
    }
  }

  lemma {:induction false} DollarQuoteChop(s: string, w: char)
    requires CompletesDollarQuote(s)
    ensures CompletesDollarQuote(s + [w])
    decreases |s|
  {
    assert (s + [w])[1..] == s[1..] + [w];
    if s[0] != '$' { DollarQuoteChop(s[1..], w); }
  }

  lemma {:induction false} ChopClean(before: Context, s: string, w: char)
    requires Clean(before, s + [w]) && IsSpace(w)
    ensures Clean(before, s)
    decreases |s|
  {
    if s == "" { return; }
    var t := s + [w];
    var n := Next(before, t).n;
    assert t[1..] == s[1..] + [w];
    if s[0] in {'\'', '"'} {
      QuotedTailChop(s[1..], s[0], w);
    } else if s[0] == '$' && CompletesDollarQuote(s[1..]) {
      DollarQuoteChop(s[1..], w);
    }
    if n <= |s| {
      assert Next(before, s) == Keep(n);
      assert t[..n] == s[..n] && t[n..] == s[n..] + [w];
      ChopClean(before.After(s[..n]), s[n..], w);
    }
  }

  lemma {:induction false} TrimRightClean(s: string)
    requires Clean(AT_START, s)
    ensures Clean(AT_START, TrimRight(s))
    decreases |s|
  {
    if s != "" && IsSpace(s[|s| - 1]) {
      assert s == s[..|s| - 1] + [s[|s| - 1]];
      ChopClean(AT_START, s[..|s| - 1], s[|s| - 1]);
      TrimRightClean(s[..|s| - 1]);
    }
  }

  lemma {:induction false} TrimAllClean(pieces: seq<string>)
    requires forall i :: 0 <= i < |pieces| ==> Clean(AT_START, pieces[i])
    ensures forall x :: x in TrimAll(pieces) ==> x != "" && Trimmed(x) && Clean(AT_START, x)
    decreases |pieces|
  {
    if pieces != [] {
      var p := pieces[0];
      TrimLeftClean(p);
      TrimRightClean(TrimLeft(p));
      TrimIsTrimmed(p);
      TrimAllClean(pieces[1..]);
    }
  }

  // ---------------------------------------------------------------------
  // What the scan returns
  // ---------------------------------------------------------------------

  /** No statement that is returned holds, outside its quotes, a semicolon, a
      comment, a dollar quote or an escape string. */
  lemma StatementsAreClean(query: string, x: string)
    requires Split(query).Success? && x in Split(query).value
    ensures x != "" && Trimmed(x) && Clean(AT_START, x)
  {
    ScanReturnsClean(AT_START, AT_START, query);
    var r := Scan(AT_START, query).value;
    TrimAllClean([r.0] + r.1);
  }

  /** The texts that split into exactly themselves. */
  lemma CleanSplitsIntoItself(x: string)
    ensures Split(x) == Success([x]) <==> x != "" && Trimmed(x) && Clean(AT_START, x)
  {
    if x != "" && Trimmed(x) && Clean(AT_START, x) {
      CleanScansToItself(AT_START, x);
      TrimOfTrimmed(x);
      assert TrimAll([x] + []) == [x];
    }
    if Split(x) == Success([x]) {
      StatementsAreClean(x, x);
    }
  }

  // ---------------------------------------------------------------------
  // Splitting undoes joining
  // ---------------------------------------------------------------------

  /** The quoted run ends at a closing quote, not at the end of the text. */
  predicate QuoteCloses(s: string, q: char) {
    s != "" &&
    if s[0] != q then QuoteCloses(s[1..], q)
    else if |s| > 1 && s[1] == q then QuoteCloses(s[2..], q)
    else true
  }

  /** Clean text whose quotes are all closed. */
  predicate Sealed(before: Context, s: string)
    decreases |s|
  {
    s == "" ||
    (&& Next(before, s).Keep?
     && (s[0] in {'\'', '"'} ==> QuoteCloses(s[1..], s[0]))
     && Sealed(before.After(s[..Next(before, s).n]), s[Next(before, s).n..]))
  }

  lemma {:induction false} QuotedTailExtend(s: string, q: char, t: string)
    requires QuoteCloses(s, q)
    requires t != "" ==> t[0] != q
    ensures QuotedTail(s + t, q) == QuotedTail(s, q)
    decreases |s|
  {
    if s[0] != q {
      assert (s + t)[1..] == s[1..] + t;
      QuotedTailExtend(s[1..], q, t);
    } else if |s| > 1 && s[1] == q {
      assert (s + t)[2..] == s[2..] + t;
      QuotedTailExtend(s[2..], q, t);
    }
  }

  lemma {:induction false} DollarQuoteCut(s: string, t: string)
    requires !CompletesDollarQuote(s)
    requires t != "" ==> t[0] != '$' && !IsIdentifierRune(t[0])
    ensures !CompletesDollarQuote(s + t)
    decreases |s|
  {
    if s == "" {
      assert s + t == t;
    } else {
      assert (s + t)[1..] == s[1..] + t;
      if IsIdentifierRune(s[0]) { DollarQuoteCut(s[1..], t); }
    }
  }

  /** Text `t` after `s` starts nothing together with the end of `s`. */
  predicate Seam(s: string, t: string) {
    t == "" || t[0] in {';', ' ', '/'} || (t[0] == '-' && (s == "" || s[|s| - 1] != '-'))
  }

  lemma NextBeforeSeam(before: Context, s: string, t: string)
    requires s != "" && Sealed(before, s) && Seam(s, t)
    ensures Next(before, s + t) == Next(before, s)
  {
    var u := s + t;
    assert u[1..] == s[1..] + t;
    if s[0] in {'\'', '"'} {
      QuotedTailExtend(s[1..], s[0], t);
    } else if s[0] == '$' {
      DollarQuoteCut(s[1..], t);
    }
  }

  /** Sealed text is kept as it is, and the scan goes on behind it. */
  lemma {:induction false} SealedBeforeSeam(before: Context, s: string, t: string)
    requires Sealed(before, s) && Seam(s, t)
    ensures Scan(before, s + t) == Prepend(s, Scan(before.After(s), t))
    decreases |s|
  {
    var rest := Scan(before.After(s), t);
    if s == "" {
      assert s + t == t;
      PrependTwice(s, s, rest);
      return;
    }
    var n := Next(before, s).n;
    NextBeforeSeam(before, s, t);
    assert (s + t)[..n] == s[..n] && (s + t)[n..] == s[n..] + t;
    AfterConcat(before, s[..n], s[n..]);
    assert s[..n] + s[n..] == s;
    SealedBeforeSeam(before.After(s[..n]), s[n..], t);
    PrependTwice(s[..n], s[n..], rest);
  }

  lemma AfterConcat(before: Context, a: string, b: string)
    ensures before.After(a + b) == before.After(a).After(b)
  {
    if b == "" {
      assert a + b == a;
    }
  }

  lemma {:induction false} SealedIsClean(before: Context, s: string)
    requires Sealed(before, s)
    ensures Clean(before, s)
    decreases |s|
  {
    if s != "" {
      SealedIsClean(before.After(s[..Next(before, s).n]), s[Next(before, s).n..]);
    }
  }

  lemma {:induction false} SealedWithout(out: Context, before: Context, s: string)
    requires Sealed(before, s) && Shadows(out, before)
    ensures Sealed(out, s)
    decreases |s|
  {
    if s != "" {
      var n := Next(before, s).n;
      SealedIsClean(before, s);
      CleanWithout(out, before, s);
      assert Next(out, s) == Keep(n);
      if n < |s| {
        if s[0] in {'\'', '"'} {
          assert n >= 2;
          assert out.After(s[..n]) == before.After(s[..n]);
        }
        SealedWithout(out.After(s[..n]), before.After(s[..n]), s[n..]);
      }
    }
  }

  function JoinStatements(xs: seq<string>): string {
    if xs == [] then "" else if |xs| == 1 then xs[0] else xs[0] + ";" + JoinStatements(xs[1..])
  }

  /** A statement that `Split` can return and that closes its quotes. */
  predicate Statement(x: string) {
    x != "" && Trimmed(x) && Sealed(AT_START, x)
  }

  lemma ScanAcrossCut(before: Context, x: string, later: string, r: (string, seq<string>))
    requires Sealed(before, x)
    requires Scan(before.After(x).After(";"), later) == Success(r)
    ensures Scan(before, x + ";" + later) == Success((x, [r.0] + r.1))
  {
    var t := ";" + later;
    assert t[..1] == ";" && t[1..] == later;
    assert Next(before.After(x), t) == Cut;
    SealedBeforeSeam(before, x, t);
    assert x + t == x + ";" + later && x + "" == x;
  }

  lemma {:induction false} ScanOfJoin(before: Context, xs: seq<string>)
    requires xs != [] && forall i :: 0 <= i < |xs| ==> Statement(xs[i])
    requires !IsIdentifierRune(before.p1)
    ensures Scan(before, JoinStatements(xs)) == Success((xs[0], xs[1..]))
    decreases |xs|
  {
    var x := xs[0];
    SealedWithout(before, AT_START, x);
    if |xs| == 1 {
      SealedBeforeSeam(before, x, "");
      assert x + "" == x && xs[1..] == [];
    } else {
      ScanOfJoin(before.After(x).After(";"), xs[1..]);
      assert [xs[1]] + xs[1..][1..] == xs[1..];
      ScanAcrossCut(before, x, JoinStatements(xs[1..]), (xs[1], xs[1..][1..]));
    }
  }

  lemma {:induction false} TrimAllOfTrimmed(xs: seq<string>)
    requires forall i :: 0 <= i < |xs| ==> xs[i] != "" && Trimmed(xs[i])
    ensures TrimAll(xs) == xs
    decreases |xs|
  {
    if xs != [] {
      TrimOfTrimmed(xs[0]);
      TrimAllOfTrimmed(xs[1..]);
    }
  }

  /** Nothing is lost, added or reordered: any list of statements that close
      their quotes, joined by semicolons, splits back into the same list. */
  lemma SplitOfSealed(xs: seq<string>)
    requires forall i :: 0 <= i < |xs| ==> Statement(xs[i])
    ensures Split(JoinStatements(xs)) == Success(xs)
  {
    hide Scan, TrimAll, JoinStatements, Sealed, Clean, Trimmed;
    if xs != [] {
      ScanOfJoin(AT_START, xs);
      assert [xs[0]] + xs[1..] == xs;
      StatementsAreTrimmed(xs);
      TrimAllOfTrimmed(xs);
    } else {
      SplitOfNothing();
    }
  }

  lemma StatementsAreTrimmed(xs: seq<string>)
    requires forall i :: 0 <= i < |xs| ==> Statement(xs[i])
    ensures forall i :: 0 <= i < |xs| ==> xs[i] != "" && Trimmed(xs[i])
  {
    hide Sealed, Trimmed;
  }

  lemma SplitOfNothing()
    ensures Split(JoinStatements([])) == Success([])
  {
    assert TrimAll([""]) == [];
  }

  // ---------------------------------------------------------------------
  // A comment reads as a blank
  // ---------------------------------------------------------------------

  lemma {:induction false} ScanForgets(before: Context, out: Context, s: string)
    requires Shadows(before, out) && Shadows(out, before)
    ensures Scan(before, s) == Scan(out, s)
    decreases |s|
  {
    if s == "" { return; }
    assert Next(before, s) == Next(out, s);
    var a := Next(before, s);
    if !a.Reject? {
      var n := if a.Cut? then 1 else a.n;
      if n >= 2 {
        assert before.After(s[..n]) == out.After(s[..n]);
      }
      ScanForgets(before.After(s[..n]), out.After(s[..n]), s[n..]);
    }
  }

  /** A whole comment, as the scanner finds its end. */
  predicate IsErasable(c: string) {
    || (|c| >= 3 && c[..2] == "--" && LineComment(c[2..]) == |c| - 2 && c[|c| - 1] == '\n')
    || (|c| >= 4 && c[..2] == "/*" && BlockComment(c[2..]) == Closed(|c| - 2))
  }

  lemma {:induction false} LineCommentLocal(s: string, b: string)
    requires s != "" && LineComment(s) == |s| && s[|s| - 1] == '\n'
    ensures LineComment(s + b) == |s|
    decreases |s|
  {
    if s[0] != '\n' {
      assert (s + b)[1..] == s[1..] + b;
      LineCommentLocal(s[1..], b);
    }
  }

  lemma {:induction false} BlockCommentLocal(s: string, b: string)
    requires BlockComment(s) == Closed(|s|)
    ensures BlockComment(s + b) == Closed(|s|)
    decreases |s|
  {
    if !(s[0] == '*' && s[1] == '/') {
      assert (s + b)[1..] == s[1..] + b;
      BlockCommentLocal(s[1..], b);
    }
  }

  lemma CommentIsErased(before: Context, c: string, b: string)
    requires IsErasable(c)
    ensures Next(before, c + b) == Erase(|c|)
    ensures !IsIdentifierRune(c[|c| - 1])
  {
    assert (c + b)[2..] == c[2..] + b;
    if c[0] == '-' {
      assert c[2..] != "" && c[2..][|c| - 3] == '\n';
      LineCommentLocal(c[2..], b);
    } else {
      BlockCommentLocal(c[2..], b);
      BlockCommentEnd(c[2..]);
    }
  }

  lemma ScanOfComment(before: Context, c: string, b: string)
    requires IsErasable(c)
    ensures Scan(before, c + b) == Scan(before, " " + b)
  {
    CommentIsErased(before, c, b);
    assert (c + b)[..|c|] == c && (c + b)[|c|..] == b;
    assert (" " + b)[..1] == " " && (" " + b)[1..] == b;
    ScanForgets(before.After(c), before.After(" "), b);
  }

  lemma CommentSeam(a: string, c: string, b: string)
    requires IsErasable(c)
    requires c[0] == '-' ==> a == "" || a[|a| - 1] != '-'
    ensures Seam(a, c + b) && Seam(a, " " + b)
  {
    assert (c + b)[0] == c[0] == c[..2][0];
  }

  /** Outside quotes a comment reads as a single blank, whatever follows it. */
  lemma CommentIsABlank(a: string, c: string, b: string)
    requires Sealed(AT_START, a) && IsErasable(c)
    requires c[0] == '-' ==> a == "" || a[|a| - 1] != '-'
    ensures Split(a + (c + b)) == Split(a + (" " + b))
  {
    hide Scan, Sealed, Seam, IsErasable, TrimAll;
    ScanOfComment(AT_START.After(a), c, b);
    CommentSeam(a, c, b);
    SealedBeforeSeam(AT_START, a, c + b);
    SealedBeforeSeam(AT_START, a, " " + b);
  }

  // ---------------------------------------------------------------------
  // The loops of the source
  // ---------------------------------------------------------------------

  /** The context of position `i`. */
  function At(runes: string, i: nat): Context
    requires i <= |runes|
  {
    Context(if i >= 2 then runes[i - 2] else ' ', if i >= 1 then runes[i - 1] else ' ')
  }

  method StartsDollarQuote(runes: string, i: nat) returns (r: bool)
    requires i < |runes|
    ensures r == CompletesDollarQuote(runes[i + 1..])
  {
    var j := i + 1;
    while j < |runes| && IsIdentifierRune(runes[j])
      invariant i < j <= |runes|
      invariant CompletesDollarQuote(runes[i + 1..]) == CompletesDollarQuote(runes[j..])
    {
      assert runes[j..][1..] == runes[j + 1..];
      j := j + 1;
    }
    r := j < |runes| && runes[j] == '$';
  }

  /** The index just past the closing quote of the run that opens at `start`. */
  method SkipQuoted(runes: string, start: nat, quote: char) returns (end: nat)
    requires start < |runes|
    ensures end == start + 1 + QuotedTail(runes[start + 1..], quote)
  {
    var i := start + 1;
    while i < |runes|
      invariant start < i <= |runes|
      invariant start + 1 + QuotedTail(runes[start + 1..], quote) == i + QuotedTail(runes[i..], quote)
    {
      if runes[i] == quote {
        if i + 1 < |runes| && runes[i + 1] == quote {
          assert runes[i..][2..] == runes[i + 2..];
          i := i + 2;
          continue;
        }
        return i + 1;
      }
      assert runes[i..][1..] == runes[i + 1..];
      i := i + 1;
    }
    return |runes|;
  }

  /** What `Scan` makes of the rest of the text, put behind what is already
      collected. */
  ghost function Resume(statements: seq<string>, current: string, rest: Scanned)
    : Result<seq<string>, SplitError>
  {
    match rest
    case Failure(e) => Failure(e)
    case Success(r) => Success(statements + [current + r.0] + r.1)
  }

  function ActionAt(query: string, i: nat): Action
    requires i < |query|
  {
    Next(At(query, i), query[i..])
  }

  ghost function From(query: string, i: nat): Scanned
    requires i <= |query|
  {
    Scan(At(query, i), query[i..])
  }

  /** One action of the scanner, seen from the loop's variables. */
  lemma ResumeStep(statements: seq<string>, current: string, query: string, i: nat)
    requires i < |query|
    ensures ActionAt(query, i).Reject? ==> From(query, i) == Failure(ActionAt(query, i).error)
    ensures ActionAt(query, i).Cut? ==>
              Resume(statements, current, From(query, i)) == Resume(statements + [current], "", From(query, i + 1))
    ensures ActionAt(query, i).Keep? || ActionAt(query, i).Erase? ==>
              var end := i + ActionAt(query, i).n;
              var added := if ActionAt(query, i).Keep? then query[i..end] else " ";
              end <= |query| &&
              Resume(statements, current, From(query, i)) == Resume(statements, current + added, From(query, end))
  {
    var a := ActionAt(query, i);
    if a.Reject? { return; }
    var n := if a.Cut? then 1 else a.n;
    assert query[i..][..n] == query[i..i + n] && query[i..][n..] == query[i + n..];
    assert At(query, i).After(query[i..i + n]) == At(query, i + n);
    var rest := From(query, i + n);
    if rest.Success? {
      var r := rest.value;
      match a
      case Cut =>
        assert current + "" == current && "" + r.0 == r.0;
        assert statements + [current] + ([r.0] + r.1) == statements + [current] + [r.0] + r.1;
      case Keep(_) => assert current + (query[i..i + n] + r.0) == current + query[i..i + n] + r.0;
      case Erase(_) => assert current + (" " + r.0) == current + " " + r.0;
    }
  }

  lemma ResumeBegins(query: string)
    ensures From(query, 0) == Scan(AT_START, query)
  {
    assert query[0..] == query;
  }

  lemma FromTheEnd(query: string)
    ensures From(query, |query|) == Success(("", []))
  {
    assert query[|query|..] == "";
  }

  lemma ResumeFails(statements: seq<string>, current: string, whole: Scanned, e: SplitError)
    requires Resume(statements, current, Failure(e)) == Resume([], "", whole)
    ensures whole == Failure(e)
  {
  }

  lemma ResumeEnds(statements: seq<string>, current: string, whole: Scanned)
    requires Resume(statements, current, Success(("", []))) == Resume([], "", whole)
    ensures whole.Success? && [whole.value.0] + whole.value.1 == statements + [current]
  {
    assert current + "" == current;
    assert statements + [current] + [] == statements + [current];
    if whole.Success? {
      assert "" + whole.value.0 == whole.value.0;
      assert [] + [whole.value.0] + whole.value.1 == [whole.value.0] + whole.value.1;
    }
  }

  method SkipLineComment(runes: string, start: nat) returns (i: nat)
    requires start + 2 <= |runes|
    ensures start + 2 <= i <= |runes|
    ensures i == |runes| || runes[i] == '\n'
    ensures LineComment(runes[start + 2..]) == if i < |runes| then i + 1 - (start + 2) else i - (start + 2)
  {
    i := start + 2;
    while i < |runes| && runes[i] != '\n'
      invariant start + 2 <= i <= |runes|
      invariant LineComment(runes[start + 2..]) == i - (start + 2) + LineComment(runes[i..])
    {
      assert runes[i..][1..] == runes[i + 1..];
      i := i + 1;
    }
  }

  method SkipBlockComment(runes: string, start: nat) returns (r: Result<nat, SplitError>)
    requires start <= |runes|
    ensures r == match BlockComment(runes[start..])
                 case Closed(n) => Success(start + n - 2)
                 case Nested => Failure(NestedComment)
                 case Open => Failure(UnterminatedComment)
  {
    var i := start;
    while i + 1 < |runes|
      invariant start <= i <= |runes|
      invariant BlockComment(runes[start..]) ==
                match BlockComment(runes[i..]) case Closed(n) => Closed(n + i - start) case other => other
    {
      if runes[i] == '/' && runes[i + 1] == '*' {
        return Failure(NestedComment);
      }
      if runes[i] == '*' && runes[i + 1] == '/' {
        return Success(i);
      }
      assert runes[i..][1..] == runes[i + 1..];
      i := i + 1;
    }
    return Failure(UnterminatedComment);
  }

  lemma TrimAllStep(clean: seq<string>, rest: seq<string>)
    requires rest != []
    ensures clean + TrimAll(rest) == (clean + NonBlank(rest[0])) + TrimAll(rest[1..])
  {
    var a, b := NonBlank(rest[0]), TrimAll(rest[1..]);
    assert clean + (a + b) == (clean + a) + b;
  }

  method TrimNonBlank(statements: seq<string>) returns (clean: seq<string>)
    ensures clean == TrimAll(statements)
  {
    clean := [];
    var k := 0;
    while k < |statements|
      invariant k <= |statements|
      invariant clean + TrimAll(statements[k..]) == TrimAll(statements)
    {
      TrimAllStep(clean, statements[k..]);
      assert statements[k..][1..] == statements[k + 1..];
      assert clean + NonBlank(statements[k]) ==
             if Trim(statements[k]) != "" then clean + [Trim(statements[k])] else clean;
      if Trim(statements[k]) != "" {
        clean := clean + [Trim(statements[k])];
      }
      k := k + 1;
    }
  }

  /** The switch of the loop: what to do with the rune at `i`. */
  method Classify(query: string, i: nat) returns (a: Action)
    requires i < |query|
    ensures a == ActionAt(query, i)
  {
    var r := query[i];
    assert query[i..][1..] == query[i + 1..];
    if r == '\'' && i > 0 && query[i - 1] in {'e', 'E'} && (i < 2 || !IsIdentifierRune(query[i - 2])) {
      return Reject(EscapeString);
    }
    if r == '$' {
      var dollar := StartsDollarQuote(query, i);
      return if dollar then Reject(DollarQuote) else Keep(1);
    }
    if r == '\'' || r == '"' {
      var end := SkipQuoted(query, i, r);
      return Keep(end - i);
    }
    if r == '-' && i + 1 < |query| && query[i + 1] == '-' {
      assert query[i..][2..] == query[i + 2..];
      var j := SkipLineComment(query, i);
      return Erase(if j < |query| then j + 1 - i else j - i);
    }
    if r == '/' && i + 1 < |query| && query[i + 1] == '*' {
      assert query[i..][2..] == query[i + 2..];
      var closed := SkipBlockComment(query, i + 2);
      return match closed case Failure(e) => Reject(e) case Success(j) => Erase(j + 2 - i);
    }
    return if r == ';' then Cut else Keep(1);
  }

  method SplitStatements(query: string) returns (r: Result<seq<string>, SplitError>)
    ensures r == Split(query)
  {
    hide Scan, TrimAll, NonBlank, Next, Resume, From;
    var statements: seq<string> := [];
    var current := "";
    var i := 0;
    ResumeBegins(query);
    while i < |query|
      invariant i <= |query|
      invariant Resume(statements, current, From(query, i)) == Resume([], "", Scan(AT_START, query))
    {
      var action := Classify(query, i);
      ResumeStep(statements, current, query, i);
      match action {
        case Reject(e) =>
          ResumeFails(statements, current, Scan(AT_START, query), e);
          return Failure(e);
        case Keep(n) =>
          current := current + query[i..i + n];
          i := i + n;
        case Erase(n) =>
          current := current + " ";
          i := i + n;
        case Cut =>
          statements := statements + [current];
          current := "";
          i := i + 1;
      }
    }
    FromTheEnd(query);
    ResumeEnds(statements, current, Scan(AT_START, query));
    statements := statements + [current];
    var clean := TrimNonBlank(statements);
    r := Success(clean);
  }
}
