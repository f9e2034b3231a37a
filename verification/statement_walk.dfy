/** The scanner of `Statements` does what the walk of `Lexing` says: it fails at the first
    fault, cuts at the semicolons outside, and shows the rest. */
module StatementWalk {
  import opened Text
  import opened SqlBuild
  import opened Wrappers
  import opened Lexing
  import opened Statements

  lemma SameRunes(c: char)
    ensures c in DIGITS <==> '0' <= c <= '9'
    ensures c in SMALL_LETTERS <==> 'a' <= c <= 'z'
    ensures c in CAPITALS <==> 'A' <= c <= 'Z'
  {
  }

  lemma SameIdentifierRunes(c: char)
    ensures IsIdentifierRune(c) <==> IsNameRune(c)
  {
    hide DIGITS, SMALL_LETTERS, CAPITALS;
    SameRunes(c);
  }

  lemma SameEscape(s: string, i: nat)
    requires i < |s| && s[i] == '\''
    ensures At(s, i).OpensEscape() <==> EscapeStringAt(s, i)
  {
    SameIdentifierRunes(if i >= 2 then s[i - 2] else ' ');
  }

  lemma {:induction false} CompletesIff(s: string, i: nat)
    requires i <= |s|
    ensures CompletesDollarQuote(s[i..]) <==>
            exists j :: i <= j < |s| && s[j] == '$' && forall k :: i <= k < j ==> IsNameRune(s[k])
    decreases |s| - i
  {
    if i < |s| {
      assert s[i..][1..] == s[i + 1..];
      SameIdentifierRunes(s[i]);
      CompletesIff(s, i + 1);
    }
  }

  lemma SameDollarQuote(s: string, i: nat)
    requires i < |s| && s[i] == '$'
    ensures CompletesDollarQuote(s[i..][1..]) <==> DollarQuoteAt(s, i)
  {
    assert s[i..][1..] == s[i + 1..];
    CompletesIff(s, i + 1);
  }

  // ---------------------------------------------------------------------
  // Runs of quotes and comments
  // ---------------------------------------------------------------------

  /** The runes from `lo` to `hi` are shown as they are, and nothing is wrong with them. */
  predicate IsKept(s: string, lo: nat, hi: nat)
    requires lo <= hi <= |s|
  {
    forall j :: lo <= j < hi ==> FaultAt(s, j) == None && !SemicolonAt(s, j) && Shown(s, j) == [s[j]]
  }

  /** Those runes are part of a comment. */
  predicate IsHidden(s: string, lo: nat, hi: nat)
    requires lo <= hi <= |s|
  {
    forall j :: lo <= j < hi ==> FaultAt(s, j) == None && !SemicolonAt(s, j) && Shown(s, j) == ""
  }

  /** The rune is inside a quoted run, or is the second one of a doubled quote. */
  predicate QuotedAt(s: string, j: nat, q: char)
    requires j < |s|
  {
    ModeAt(s, j) == Inside(q) || (ModeAt(s, j) == Outside && s[j] == q && j > 0 && s[j - 1] == q)
  }

  predicate IsQuoted(s: string, lo: nat, hi: nat, q: char)
    requires lo <= hi <= |s|
  {
    forall j :: lo <= j < hi ==> QuotedAt(s, j, q)
  }

  lemma {:induction false} QuotedRun(s: string, p: nat, q: char)
    requires p <= |s| && q in {'\'', '"'} && ModeAt(s, p) == Inside(q)
    ensures var end := p + QuotedTail(s[p..], q);
            && IsQuoted(s, p, end, q)
            && (ModeAt(s, end) == Outside <==> QuoteCloses(s[p..], q))
            && (end < |s| ==> ModeAt(s, end) == Outside)
            && (ModeAt(s, end) in {Outside, Inside(q)})
    decreases |s| - p
  {
    hide ModeAt, Step;
    if p < |s| {
      InsideStep(s, p, q);
      assert s[p..][1..] == s[p + 1..];
      if s[p] != q {
        QuotedRun(s, p + 1, q);
      } else if p + 1 < |s| && s[p + 1] == q {
        assert s[p..][2..] == s[p + 2..];
        OutsideStep(s, p + 1);
        QuotedRun(s, p + 2, q);
      }
    }
  }

  lemma InsideStep(s: string, p: nat, q: char)
    requires p < |s| && ModeAt(s, p) == Inside(q)
    ensures ModeAt(s, p + 1) == if s[p] == q then Outside else Inside(q)
  {
  }

  lemma OutsideStep(s: string, p: nat)
    requires p < |s| && ModeAt(s, p) == Outside
    ensures ModeAt(s, p + 1) == Step(Outside, s, p)
    ensures s[p] in {'\'', '"'} ==> ModeAt(s, p + 1) == Inside(s[p])
  {
  }

  lemma QuotedIsKept(s: string, lo: nat, hi: nat, q: char)
    requires lo <= hi <= |s| && q in {'\'', '"'} && IsQuoted(s, lo, hi, q)
    ensures IsKept(s, lo, hi)
  {
    hide ModeAt;
    forall j | lo <= j < hi ensures FaultAt(s, j) == None && !SemicolonAt(s, j) && Shown(s, j) == [s[j]] {
      assert QuotedAt(s, j, q);
      if ModeAt(s, j) == Outside {
        assert !EscapeStringAt(s, j) && !DollarQuoteAt(s, j);
        assert Step(Outside, s, j) == Inside(q);
      }
    }
  }

  lemma HiddenBehind(s: string, p: nat, hi: nat)
    requires p < hi <= |s| && IsHidden(s, p + 1, hi)
    requires FaultAt(s, p) == None && !SemicolonAt(s, p) && Shown(s, p) == ""
    ensures IsHidden(s, p, hi)
  {
    hide FaultAt, SemicolonAt, Shown;
  }

  /** Within a comment nothing is shown, and nothing is wrong but a nested one. */
  lemma CommentRune(s: string, p: nat)
    requires p < |s| && ModeAt(s, p) in {Line, Star, Block, Slash}
    ensures !SemicolonAt(s, p) && Shown(s, p) == ""
    ensures FaultAt(s, p) == if ModeAt(s, p) == Block && PairAt(s, p, '/', '*') then Some(NestedComment) else None
  {
    hide ModeAt, EscapeStringAt, DollarQuoteAt;
  }

  lemma {:induction false} LineRun(s: string, p: nat)
    requires p <= |s| && ModeAt(s, p) == Line
    ensures var end := p + LineComment(s[p..]);
            && IsHidden(s, p, end)
            && (end < |s| ==> ModeAt(s, end) == Outside) && ModeAt(s, end) in {Outside, Line}
    decreases |s| - p
  {
    if p < |s| {
      assert s[p..][1..] == s[p + 1..];
      LineStep(s, p);
      CommentRune(s, p);
      hide ModeAt, FaultAt, SemicolonAt, Shown;
      if s[p] != '\n' {
        LineRun(s, p + 1);
        HiddenBehind(s, p, p + 1 + LineComment(s[p + 1..]));
      }
    }
  }

  lemma LineStep(s: string, p: nat)
    requires p < |s| && ModeAt(s, p) == Line
    ensures ModeAt(s, p + 1) == if s[p] == '\n' then Outside else Line
  {
  }

  lemma {:induction false} BlockRun(s: string, p: nat)
    requires p <= |s| && ModeAt(s, p) == Block
    ensures var c := BlockComment(s[p..]);
            && (c.Closed? ==> IsHidden(s, p, p + c.n) && ModeAt(s, p + c.n) == Outside)
            && (c.Nested? ==> exists j :: p <= j < |s| && FaultAt(s, j) == Some(NestedComment) && IsHidden(s, p, j))
            && (c.Open? ==> IsHidden(s, p, |s|) && FaultAt(s, |s|) == Some(UnterminatedComment))
    decreases |s| - p
  {
    if p == |s| {
      UnclosedAtTheEnd(s);
      return;
    }
    CommentRune(s, p);
    BlockStep(s, p);
    assert s[p..][1..] == s[p + 1..];
    hide ModeAt, FaultAt, SemicolonAt, Shown;
    if PairAt(s, p, '/', '*') {
      assert IsHidden(s, p, p);
    } else if PairAt(s, p, '*', '/') {
      CommentRune(s, p + 1);
    } else {
      BlockRun(s, p + 1);
      match BlockComment(s[p + 1..])
      case Closed(n) => HiddenBehind(s, p, p + 1 + n);
      case Open => HiddenBehind(s, p, |s|);
      case Nested =>
        var j :| p + 1 <= j < |s| && FaultAt(s, j) == Some(NestedComment) && IsHidden(s, p + 1, j);
        HiddenBehind(s, p, j);
    }
  }

  lemma UnclosedAtTheEnd(s: string)
    requires ModeAt(s, |s|) == Block
    ensures FaultAt(s, |s|) == Some(UnterminatedComment)
  {
    hide ModeAt;
  }

  lemma BlockStep(s: string, p: nat)
    requires p < |s| && ModeAt(s, p) == Block
    ensures PairAt(s, p, '*', '/') ==> ModeAt(s, p + 1) == Slash && ModeAt(s, p + 2) == Outside
    ensures !PairAt(s, p, '*', '/') ==> ModeAt(s, p + 1) == Block
  {
  }

  // ---------------------------------------------------------------------
  // One action of the scanner
  // ---------------------------------------------------------------------

  /** The first fault at or behind `i`. */
  ghost predicate FaultFrom(s: string, i: nat, e: SplitError)
    requires i <= |s|
  {
    exists j :: i <= j <= |s| && FaultAt(s, j) == Some(e) && forall k :: i <= k < j ==> FaultAt(s, k) == None
  }

  /** The scan may go on at `p`. */
  predicate IsBetween(s: string, p: nat)
    requires p <= |s|
  {
    ModeAt(s, p) == Outside || (p == |s| && !ModeAt(s, p).Block?)
  }

  /** What the walk sees in the runes that one action takes. */
  ghost predicate Agrees(s: string, i: nat, a: Action)
    requires i < |s|
  {
    match a
    case Reject(e) => FaultFrom(s, i, e)
    case Cut => SemicolonAt(s, i) && FaultAt(s, i) == None && ModeAt(s, i + 1) == Outside
    case Keep(n) => 0 < n && i + n <= |s| && IsKept(s, i, i + n) && IsBetween(s, i + n)
    case Erase(n) =>
      && 0 < n && i + n <= |s| && FaultAt(s, i) == None && !SemicolonAt(s, i) && Shown(s, i) == " "
      && IsHidden(s, i + 1, i + n) && IsBetween(s, i + n)
  }

  lemma ActionOfQuote(s: string, i: nat)
    requires i < |s| && s[i] in {'\'', '"'}
    ensures ActionAt(s, i) ==
            if EscapeStringAt(s, i) then Reject(EscapeString) else Keep(1 + QuotedTail(s[i + 1..], s[i]))
  {
    hide CompletesDollarQuote, BlockComment, LineComment, QuotedTail, EscapeStringAt, At;
    assert s[i..][1..] == s[i + 1..] && s[i..][0] == s[i];
    if s[i] == '\'' {
      SameEscape(s, i);
    } else {
      assert !EscapeStringAt(s, i) by { OnlySingleQuotesEscape(s, i); }
    }
  }

  lemma OnlySingleQuotesEscape(s: string, i: nat)
    requires i < |s| && s[i] != '\''
    ensures !EscapeStringAt(s, i)
  {
  }

  lemma QuoteAgrees(s: string, i: nat)
    requires i < |s| && ModeAt(s, i) == Outside && s[i] in {'\'', '"'}
    ensures Agrees(s, i, ActionAt(s, i))
  {
    hide ModeAt, ActionAt, QuotedTail, EscapeStringAt, QuoteCloses;
    ActionOfQuote(s, i);
    OutsideStep(s, i);
    if EscapeStringAt(s, i) {
      assert FaultAt(s, i) == Some(EscapeString);
    } else {
      var end := i + 1 + QuotedTail(s[i + 1..], s[i]);
      assert FaultAt(s, i) == None && Shown(s, i) == [s[i]] && !SemicolonAt(s, i);
      QuotedRun(s, i + 1, s[i]);
      QuotedIsKept(s, i + 1, end, s[i]);
      KeptBehind(s, i, end);
    }
  }

  lemma KeptBehind(s: string, i: nat, hi: nat)
    requires i < hi <= |s| && IsKept(s, i + 1, hi)
    requires FaultAt(s, i) == None && !SemicolonAt(s, i) && Shown(s, i) == [s[i]]
    ensures IsKept(s, i, hi)
  {
    hide FaultAt, SemicolonAt, Shown;
  }

  lemma ActionOfComment(s: string, i: nat)
    requires i < |s| && (PairAt(s, i, '-', '-') || PairAt(s, i, '/', '*'))
    ensures ActionAt(s, i) ==
            if s[i] == '-' then Erase(2 + LineComment(s[i + 2..]))
            else match BlockComment(s[i + 2..])
              case Closed(n) => Erase(n + 2)
              case Nested => Reject(NestedComment)
              case Open => Reject(UnterminatedComment)
  {
    hide CompletesDollarQuote, QuotedTail, LineComment, BlockComment, At;
    assert s[i..][2..] == s[i + 2..] && s[i..][0] == s[i] && s[i..][1] == s[i + 1];
  }

  lemma OpensComment(s: string, i: nat)
    requires i < |s| && ModeAt(s, i) == Outside && (PairAt(s, i, '-', '-') || PairAt(s, i, '/', '*'))
    ensures FaultAt(s, i) == None && !SemicolonAt(s, i) && Shown(s, i) == " "
    ensures FaultAt(s, i + 1) == None && !SemicolonAt(s, i + 1) && Shown(s, i + 1) == ""
    ensures s[i] == '-' ==> ModeAt(s, i + 2) == Line
    ensures s[i] == '/' ==> ModeAt(s, i + 2) == Block
  {
    hide ModeAt, EscapeStringAt, DollarQuoteAt;
    OnlySingleQuotesEscape(s, i);
    OnlyDollarsQuote(s, i);
    OutsideStep(s, i);
    if s[i] == '-' {
      LineStep(s, i + 1);
    } else {
      StarStep(s, i + 1);
    }
  }

  lemma FaultBehind(s: string, i: nat, j: nat, e: SplitError)
    requires i + 2 <= j <= |s| && IsHidden(s, i + 2, j) && FaultAt(s, j) == Some(e)
    requires FaultAt(s, i) == None && FaultAt(s, i + 1) == None
    ensures FaultFrom(s, i, e)
  {
    hide FaultAt, SemicolonAt, Shown;
  }

  lemma LineAgrees(s: string, i: nat)
    requires i < |s| && ModeAt(s, i) == Outside && PairAt(s, i, '-', '-')
    ensures Agrees(s, i, ActionAt(s, i))
  {
    hide Next, LineComment, BlockComment, FaultAt, Shown, SemicolonAt, ModeAt, IsHidden;
    ActionOfComment(s, i);
    OpensComment(s, i);
    hide ActionAt;
    LineRun(s, i + 2);
    var n := 2 + LineComment(s[i + 2..]);
    HiddenBehind(s, i + 1, i + n);
    assert Agrees(s, i, Erase(n));
  }

  lemma BlockAgrees(s: string, i: nat)
    requires i < |s| && ModeAt(s, i) == Outside && PairAt(s, i, '/', '*')
    ensures Agrees(s, i, ActionAt(s, i))
  {
    hide Next, LineComment, BlockComment, FaultAt, Shown, SemicolonAt, ModeAt, IsHidden, FaultFrom;
    ActionOfComment(s, i);
    OpensComment(s, i);
    hide ActionAt;
    BlockRun(s, i + 2);
    match BlockComment(s[i + 2..])
    case Closed(n) =>
      HiddenBehind(s, i + 1, i + 2 + n);
      assert Agrees(s, i, Erase(n + 2));
    case Nested =>
      var j :| i + 2 <= j < |s| && FaultAt(s, j) == Some(NestedComment) && IsHidden(s, i + 2, j);
      FaultBehind(s, i, j, NestedComment);
    case Open => FaultBehind(s, i, |s|, UnterminatedComment);
  }

  lemma ActionOfOther(s: string, i: nat)
    requires i < |s| && s[i] !in {'\'', '"'} && !PairAt(s, i, '-', '-') && !PairAt(s, i, '/', '*')
    ensures ActionAt(s, i) == if DollarQuoteAt(s, i) then Reject(DollarQuote) else if s[i] == ';' then Cut else Keep(1)
  {
    hide CompletesDollarQuote, BlockComment, LineComment, QuotedTail, DollarQuoteAt;
    assert s[i..][0] == s[i];
    if s[i] == '$' {
      SameDollarQuote(s, i);
    } else {
      assert !DollarQuoteAt(s, i) by { OnlyDollarsQuote(s, i); }
    }
  }

  lemma OnlyDollarsQuote(s: string, i: nat)
    requires i < |s| && s[i] != '$'
    ensures !DollarQuoteAt(s, i)
  {
  }

  lemma OtherAgrees(s: string, i: nat)
    requires i < |s| && ModeAt(s, i) == Outside
    requires s[i] !in {'\'', '"'} && !PairAt(s, i, '-', '-') && !PairAt(s, i, '/', '*')
    ensures Agrees(s, i, ActionAt(s, i))
  {
    hide ModeAt, ActionAt, DollarQuoteAt, EscapeStringAt;
    ActionOfOther(s, i);
    OnlySingleQuotesEscape(s, i);
    OutsideStep(s, i);
    if DollarQuoteAt(s, i) {
      assert FaultAt(s, i) == Some(DollarQuote);
    }
  }

  lemma ActionAgrees(s: string, i: nat)
    requires i < |s| && ModeAt(s, i) == Outside
    ensures Agrees(s, i, ActionAt(s, i))
  {
    hide Agrees;
    if s[i] in {'\'', '"'} {
      QuoteAgrees(s, i);
    } else if PairAt(s, i, '-', '-') {
      LineAgrees(s, i);
    } else if PairAt(s, i, '/', '*') {
      BlockAgrees(s, i);
    } else {
      OtherAgrees(s, i);
    }
  }

  lemma StarStep(s: string, p: nat)
    requires p < |s| && ModeAt(s, p) == Star
    ensures ModeAt(s, p + 1) == Block
  {
  }

  // ---------------------------------------------------------------------
  // The scan
  // ---------------------------------------------------------------------

  lemma FromStep(s: string, i: nat)
    requires i < |s|
    ensures match ActionAt(s, i)
            case Reject(e) => From(s, i) == Failure(e)
            case Cut => From(s, i) == (match From(s, i + 1)
                                       case Failure(e) => Failure(e)
                                       case Success(r) => Success(("", [r.0] + r.1)))
            case Keep(n) => i + n <= |s| && From(s, i) == Prepend(s[i..i + n], From(s, i + n))
            case Erase(n) => i + n <= |s| && From(s, i) == Prepend(" ", From(s, i + n))
  {
    hide Next;
    var a := ActionAt(s, i);
    if !a.Reject? {
      var n := if a.Cut? then 1 else a.n;
      assert s[i..][..n] == s[i..i + n] && s[i..][n..] == s[i + n..];
      assert At(s, i).After(s[i..i + n]) == At(s, i + n);
    }
  }

  lemma {:induction false} ShownFromKept(s: string, lo: nat, hi: nat)
    requires lo <= hi <= |s| && IsKept(s, lo, hi)
    ensures ShownFrom(s, lo, hi) == s[lo..hi]
    decreases hi - lo
  {
    hide Shown, FaultAt, SemicolonAt;
    if lo < hi {
      ShownFromKept(s, lo + 1, hi);
      assert Shown(s, lo) == [s[lo]];
      assert [s[lo]] + s[lo + 1..hi] == s[lo..hi];
    }
  }

  lemma {:induction false} ShownFromHidden(s: string, lo: nat, hi: nat)
    requires lo <= hi <= |s| && IsHidden(s, lo, hi)
    ensures ShownFrom(s, lo, hi) == ""
    decreases hi - lo
  {
    hide Shown, FaultAt, SemicolonAt;
    if lo < hi {
      ShownFromHidden(s, lo + 1, hi);
      assert Shown(s, lo) == "";
    }
  }

  lemma {:induction false} ShownFromConcat(s: string, lo: nat, mid: nat, hi: nat)
    requires lo <= mid <= hi <= |s|
    ensures ShownFrom(s, lo, hi) == ShownFrom(s, lo, mid) + ShownFrom(s, mid, hi)
    decreases mid - lo
  {
    hide Shown;
    if lo < mid {
      ShownFromConcat(s, lo + 1, mid, hi);
    }
  }

  lemma {:induction false} SemicolonBehind(s: string, lo: nat, hi: nat)
    requires lo <= hi <= |s| && forall j :: lo <= j < hi ==> !SemicolonAt(s, j)
    ensures NextSemicolon(s, lo) == NextSemicolon(s, hi)
    decreases hi - lo
  {
    hide SemicolonAt;
    if lo < hi {
      SemicolonBehind(s, lo + 1, hi);
    }
  }

  /** Runes without a semicolon go in front of the first piece behind them. */
  lemma PiecesStep(s: string, lo: nat, hi: nat)
    requires lo <= hi <= |s| && forall j :: lo <= j < hi ==> !SemicolonAt(s, j)
    ensures Pieces(s, lo) == [ShownFrom(s, lo, hi) + Pieces(s, hi)[0]] + Pieces(s, hi)[1..]
  {
    hide SemicolonAt, Shown, ShownFrom;
    SemicolonBehind(s, lo, hi);
    ShownFromConcat(s, lo, hi, NextSemicolon(s, hi));
  }

  lemma PiecesAtSemicolon(s: string, i: nat)
    requires i < |s| && SemicolonAt(s, i)
    ensures Pieces(s, i) == [""] + Pieces(s, i + 1)
  {
    hide SemicolonAt, Shown;
    assert NextSemicolon(s, i) == i;
    assert ShownFrom(s, i, i) == "";
  }

  /** What the scan of the rest makes of it. */
  ghost predicate Follows(s: string, i: nat, r: Scanned)
    requires i <= |s|
  {
    match r
    case Failure(e) => FaultFrom(s, i, e)
    case Success(v) => (forall j :: i <= j <= |s| ==> FaultAt(s, j) == None) && Pieces(s, i) == [v.0] + v.1
  }

  lemma FollowsBehind(s: string, i: nat, n: nat, text: string)
    requires 0 < n && i + n <= |s| && Follows(s, i + n, From(s, i + n))
    requires forall j :: i <= j < i + n ==> FaultAt(s, j) == None && !SemicolonAt(s, j)
    requires ShownFrom(s, i, i + n) == text
    ensures Follows(s, i, Prepend(text, From(s, i + n)))
  {
    hide FaultAt, SemicolonAt, Shown, ShownFrom, From;
    PiecesStep(s, i, i + n);
    var r := From(s, i + n);
    if r.Failure? {
      var j :| i + n <= j <= |s| && FaultAt(s, j) == Some(r.error)
               && forall k :: i + n <= k < j ==> FaultAt(s, k) == None;
    }
  }

  lemma FollowsSemicolon(s: string, i: nat)
    requires i < |s| && SemicolonAt(s, i) && FaultAt(s, i) == None && Follows(s, i + 1, From(s, i + 1))
    requires ActionAt(s, i) == Cut
    ensures Follows(s, i, From(s, i))
  {
    hide FaultAt, SemicolonAt, Shown, ShownFrom, From, ActionAt;
    FromStep(s, i);
    PiecesAtSemicolon(s, i);
    var r := From(s, i + 1);
    if r.Failure? {
      var j :| i + 1 <= j <= |s| && FaultAt(s, j) == Some(r.error)
               && forall k :: i + 1 <= k < j ==> FaultAt(s, k) == None;
    } else {
      assert [""] + ([r.value.0] + r.value.1) == Pieces(s, i);
    }
  }

  lemma FollowsAtTheEnd(s: string)
    requires IsBetween(s, |s|)
    ensures Follows(s, |s|, From(s, |s|))
  {
    hide ModeAt;
    FromTheEnd(s);
    assert !DollarQuoteAt(s, |s|) && !EscapeStringAt(s, |s|);
    assert Pieces(s, |s|) == [""];
  }

  lemma {:induction false} ScanFollows(s: string, i: nat)
    requires i <= |s| && IsBetween(s, i)
    ensures Follows(s, i, From(s, i))
    decreases |s| - i
  {
    hide FaultAt, SemicolonAt, Shown, ShownFrom, From, ActionAt, Pieces, ModeAt;
    if i == |s| {
      FollowsAtTheEnd(s);
      return;
    }
    ActionAgrees(s, i);
    FromStep(s, i);
    match ActionAt(s, i)
    case Reject(_) =>
    case Cut =>
      ScanFollows(s, i + 1);
      FollowsSemicolon(s, i);
    case Keep(n) =>
      ScanFollows(s, i + n);
      ShownFromKept(s, i, i + n);
      FollowsBehind(s, i, n, s[i..i + n]);
    case Erase(n) =>
      ScanFollows(s, i + n);
      ShownFromErased(s, i, n);
      FollowsBehind(s, i, n, " ");
  }

  lemma ShownFromErased(s: string, i: nat, n: nat)
    requires 0 < n && i + n <= |s| && Shown(s, i) == " " && IsHidden(s, i + 1, i + n)
    ensures ShownFrom(s, i, i + n) == " "
  {
    hide Shown;
    ShownFromHidden(s, i + 1, i + n);
  }

  /** `splitStatements` fails with the first fault of the walk, and without one returns
      what the walk shows between the semicolons outside, trimmed and without blanks. */
  lemma SplitFollowsTheWalk(s: string)
    ensures forall e :: Split(s) == Failure(e) <==> FirstFault(s, e)
    ensures Split(s).Success? <==> IsFaultless(s)
    ensures IsFaultless(s) ==> Split(s) == Success(TrimAll(Pieces(s, 0)))
  {
    hide FaultAt, Pieces, Scan, TrimAll;
    ResumeBegins(s);
    ScanFollows(s, 0);
  }

  // ---------------------------------------------------------------------
  // Plain text
  // ---------------------------------------------------------------------

  predicate PlainFrom(s: string, i: nat) {
    forall j :: i <= j < |s| && ModeAt(s, j) == Outside ==> PlainAt(s, j)
  }

  lemma KeptIsPlain(s: string, j: nat)
    requires j < |s| && ModeAt(s, j) == Outside
    requires FaultAt(s, j) == None && !SemicolonAt(s, j) && Shown(s, j) == [s[j]]
    ensures PlainAt(s, j)
  {
    hide ModeAt, DollarQuoteAt, EscapeStringAt;
  }

  lemma PlainIsKept(s: string, i: nat)
    requires i < |s| && ModeAt(s, i) == Outside && PlainAt(s, i)
    ensures ActionAt(s, i).Keep?
  {
    hide ModeAt, DollarQuoteAt, EscapeStringAt, ActionAt;
    if s[i] in {'\'', '"'} {
      ActionOfQuote(s, i);
    } else {
      ActionOfOther(s, i);
    }
  }

  lemma PlainRun(s: string, i: nat, n: nat)
    requires i + n <= |s| && IsKept(s, i, i + n)
    ensures PlainFrom(s, i) <==> PlainFrom(s, i + n)
  {
    hide FaultAt, SemicolonAt, Shown, ModeAt, PlainAt;
    forall j | i <= j < i + n && ModeAt(s, j) == Outside ensures PlainAt(s, j) {
      KeptIsPlain(s, j);
    }
  }

  lemma CleanStep(s: string, i: nat)
    requires i < |s|
    ensures Clean(At(s, i), s[i..]) <==>
            ActionAt(s, i).Keep? && Clean(At(s, i + ActionAt(s, i).n), s[i + ActionAt(s, i).n..])
    ensures Sealed(At(s, i), s[i..]) <==>
            && ActionAt(s, i).Keep? && (s[i] in {'\'', '"'} ==> QuoteCloses(s[i + 1..], s[i]))
            && Sealed(At(s, i + ActionAt(s, i).n), s[i + ActionAt(s, i).n..])
  {
    hide Next;
    var a := ActionAt(s, i);
    assert s[i..][1..] == s[i + 1..];
    if a.Keep? {
      assert s[i..][..a.n] == s[i..i + a.n] && s[i..][a.n..] == s[i + a.n..];
      assert At(s, i).After(s[i..i + a.n]) == At(s, i + a.n);
    }
  }

  lemma QuoteEnds(s: string, i: nat)
    requires i < |s| && ModeAt(s, i) == Outside && s[i] in {'\'', '"'} && ActionAt(s, i).Keep?
    ensures i + ActionAt(s, i).n <= |s|
    ensures QuoteCloses(s[i + 1..], s[i]) <==> ModeAt(s, i + ActionAt(s, i).n) == Outside
  {
    hide ModeAt, ActionAt, EscapeStringAt, QuotedTail, QuoteCloses;
    ActionOfQuote(s, i);
    OutsideStep(s, i);
    QuotedRun(s, i + 1, s[i]);
  }

  lemma OtherStays(s: string, i: nat)
    requires i < |s| && ModeAt(s, i) == Outside && s[i] !in {'\'', '"'} && ActionAt(s, i).Keep?
    ensures ActionAt(s, i).n == 1 && ModeAt(s, i + 1) == Outside
  {
    hide ModeAt;
    OutsideStep(s, i);
  }

  /** What the scanner keeps whole is what is plain, and what it can be continued behind
      is what closes its quotes. */
  lemma {:induction false} CleanIffPlain(s: string, i: nat)
    requires i <= |s| && ModeAt(s, i) == Outside
    ensures Clean(At(s, i), s[i..]) <==> PlainFrom(s, i)
    ensures Sealed(At(s, i), s[i..]) <==> PlainFrom(s, i) && ModeAt(s, |s|) == Outside
    decreases |s| - i
  {
    hide ModeAt, PlainAt, ActionAt, Next, Clean, Sealed, QuoteCloses, Agrees, At;
    if i == |s| {
      EndIsSealed(s);
      return;
    }
    CleanStep(s, i);
    if !ActionAt(s, i).Keep? {
      if PlainAt(s, i) { PlainIsKept(s, i); }
      return;
    }
    var n := ActionAt(s, i).n;
    KeepRuns(s, i);
    PlainRun(s, i, n);
    if s[i] in {'\'', '"'} {
      QuoteEnds(s, i);
    } else {
      OtherStays(s, i);
    }
    if ModeAt(s, i + n) == Outside {
      CleanIffPlain(s, i + n);
    } else {
      EndIsSealed(s);
    }
  }

  lemma KeepRuns(s: string, i: nat)
    requires i < |s| && ModeAt(s, i) == Outside && ActionAt(s, i).Keep?
    ensures var end := i + ActionAt(s, i).n; i < end <= |s| && IsKept(s, i, end) && IsBetween(s, end)
  {
    hide ModeAt, ActionAt, IsKept, IsBetween;
    ActionAgrees(s, i);
  }

  lemma EndIsSealed(s: string)
    ensures Clean(At(s, |s|), s[|s|..]) && Sealed(At(s, |s|), s[|s|..]) && PlainFrom(s, |s|)
  {
  }

  lemma CleanIsPlain(s: string)
    ensures Clean(AT_START, s) <==> IsPlain(s)
    ensures Sealed(AT_START, s) <==> IsClosed(s)
  {
    hide Clean, Sealed, PlainAt;
    CleanIffPlain(s, 0);
    assert s[0..] == s && At(s, 0) == AT_START;
  }

  // ---------------------------------------------------------------------
  // Main results about splitting
  // ---------------------------------------------------------------------

  /** No statement that is returned holds, outside its quotes, a semicolon, a comment, a
      dollar quote or an escape string. */
  lemma StatementsArePlain(query: string, x: string)
    requires Split(query).Success? && x in Split(query).value
    ensures x != "" && Trimmed(x) && IsPlain(x)
  {
    hide Split, Clean, IsPlain;
    StatementsAreClean(query, x);
    CleanIsPlain(x);
  }

  /** The texts that split into exactly themselves. */
  lemma SplitFixpoint(x: string)
    ensures Split(x) == Success([x]) <==> x != "" && Trimmed(x) && IsPlain(x)
  {
    hide Split, Clean, IsPlain;
    CleanSplitsIntoItself(x);
    CleanIsPlain(x);
  }

  /** Splitting is idempotent: whatever it returns it returns again, alone. */
  lemma SplitIdempotent(query: string, x: string)
    requires Split(query).Success? && x in Split(query).value
    ensures Split(x) == Success([x])
  {
    hide Split, IsPlain;
    StatementsArePlain(query, x);
    SplitFixpoint(x);
  }

  /** Nothing is lost, added or reordered: any list of statements that close their quotes,
      joined by semicolons, splits back into the same list. */
  lemma SplitOfJoin(xs: seq<string>)
    requires forall i :: 0 <= i < |xs| ==> xs[i] != "" && Trimmed(xs[i]) && IsClosed(xs[i])
    ensures Split(JoinStatements(xs)) == Success(xs)
  {
    hide Split, IsClosed, Sealed, Clean;
    forall i | 0 <= i < |xs| ensures Statement(xs[i]) {
      CleanIsPlain(xs[i]);
    }
    SplitOfSealed(xs);
  }

  lemma {:induction false} LineEnds(s: string)
    requires s != "" && s[|s| - 1] == '\n' && '\n' !in s[..|s| - 1]
    ensures LineComment(s) == |s|
    decreases |s|
  {
    if |s| > 1 {
      assert s[0] == s[..|s| - 1][0];
      assert s[1..][..|s| - 2] == s[..|s| - 1][1..];
      LineEnds(s[1..]);
    }
  }

  lemma {:induction false} BlockEnds(c: string, p: nat)
    requires 2 <= p <= |c| - 2 && PairAt(c, |c| - 2, '*', '/')
    requires forall j :: 2 <= j < |c| - 2 ==> !PairAt(c, j, '/', '*') && !PairAt(c, j, '*', '/')
    ensures BlockComment(c[p..]) == Closed(|c| - p)
    decreases |c| - p
  {
    if p < |c| - 2 {
      assert !PairAt(c, p, '/', '*') && !PairAt(c, p, '*', '/');
      assert c[p..][1..] == c[p + 1..];
      BlockEnds(c, p + 1);
    }
  }

  lemma CommentIsErasable(c: string)
    requires IsComment(c)
    ensures IsErasable(c)
  {
    if c[0] == '-' {
      assert c[2..][..|c[2..]| - 1] == c[..|c| - 1][2..];
      LineEnds(c[2..]);
    } else {
      BlockEnds(c, 2);
    }
  }

  /** Outside quotes a comment reads as a single blank, whatever follows it. */
  lemma CommentReadsAsBlank(a: string, c: string, b: string)
    requires IsClosed(a) && IsComment(c)
    requires c[0] == '-' ==> a == "" || a[|a| - 1] != '-'
    ensures Split(a + (c + b)) == Split(a + (" " + b))
  {
    hide Split, IsClosed, IsComment, IsErasable, Sealed, Clean;
    CleanIsPlain(a);
    CommentIsErasable(c);
    CommentIsABlank(a, c, b);
  }

  // ---------------------------------------------------------------------
  // Printed values are opaque
  // ---------------------------------------------------------------------

  lemma {:induction false} DoubledRun(s: string, p: nat, v: string, q: char)
    requires q in {'\'', '"'} && p + |Double(v, q)| + 1 <= |s|
    requires s[p..p + |Double(v, q)| + 1] == Double(v, q) + [q]
    requires ModeAt(s, p) == Inside(q)
    ensures ModeAt(s, p + |Double(v, q)| + 1) == Outside
    ensures IsQuoted(s, p, p + |Double(v, q)| + 1, q)
    decreases |v|
  {
    hide ModeAt;
    var d := Double(v, q);
    assert s[p] == s[p..p + |d| + 1][0];
    InsideStep(s, p, q);
    if v != "" {
      var n := if v[0] == q then 2 else 1;
      var rest := Double(v[1..], q);
      assert d[n..] == rest;
      assert s[p + n..p + n + |rest| + 1] == s[p..p + |d| + 1][n..];
      if v[0] == q {
        assert s[p + 1] == s[p..p + |d| + 1][1];
        OutsideStep(s, p + 1);
      }
      DoubledRun(s, p + n, v[1..], q);
    }
  }

  lemma {:induction false} ModePrefix(a: string, t: string, i: nat)
    requires i <= |a| && (t == "" || t[0] !in {'-', '*', '/'})
    ensures ModeAt(a + t, i) == ModeAt(a, i)
    decreases i
  {
    if i > 0 {
      ModePrefix(a, t, i - 1);
    }
  }

  lemma {:induction false} ModeSuffix(u: string, b: string, i: nat)
    requires i <= |b| && ModeAt(u + b, |u|) == Outside
    ensures ModeAt(u + b, |u| + i) == ModeAt(b, i)
    decreases i
  {
    if i > 0 {
      ModeSuffix(u, b, i - 1);
    }
  }

  lemma DollarPrefix(a: string, t: string, i: nat)
    requires i < |a| && DollarQuoteAt(a + t, i)
    requires t == "" || t[0] in {'\'', '"'}
    ensures DollarQuoteAt(a, i)
  {
    var s := a + t;
    var j :| i < j < |s| && s[j] == '$' && forall k :: i < k < j ==> IsNameRune(s[k]);
    assert j > |a| ==> IsNameRune(s[|a|]);
    assert j < |a| && a[j] == '$';
    forall k | i < k < j ensures IsNameRune(a[k]) {
      assert s[k] == a[k];
    }
  }

  lemma PlainPrefix(a: string, t: string, i: nat)
    requires i < |a| && PlainAt(a, i)
    requires t == "" || t[0] in {'\'', '"'}
    ensures PlainAt(a + t, i)
  {
    hide DollarQuoteAt;
    if DollarQuoteAt(a + t, i) {
      DollarPrefix(a, t, i);
    }
  }

  lemma DollarSuffix(u: string, b: string, i: nat)
    requires i < |b| && DollarQuoteAt(u + b, |u| + i)
    ensures DollarQuoteAt(b, i)
  {
    var s, p := u + b, |u| + i;
    var j :| p < j < |s| && s[j] == '$' && forall k :: p < k < j ==> IsNameRune(s[k]);
    assert b[j - |u|] == '$';
    forall k | i < k < j - |u| ensures IsNameRune(b[k]) {
      assert s[|u| + k] == b[k];
    }
  }

  lemma PlainSuffix(u: string, b: string, i: nat)
    requires i < |b| && PlainAt(b, i)
    requires u != "" && u[|u| - 1] in {'\'', '"'}
    ensures PlainAt(u + b, |u| + i)
  {
    hide DollarQuoteAt;
    if DollarQuoteAt(u + b, |u| + i) {
      DollarSuffix(u, b, i);
    }
  }

  /** A printed value, put between texts that are plain, leaves them plain, whatever runes
      it holds. */
  lemma QuotedIsOpaque(a: string, v: string, q: char, b: string)
    requires q in {'\'', '"'} && IsClosed(a) && IsPlain(b) && !EscapeStringAt(a + [q], |a|)
    ensures IsPlain(a + Quoted(v, q) + b)
    ensures IsClosed(b) ==> IsClosed(a + Quoted(v, q) + b)
  {
    hide ModeAt, PlainAt, IsQuoted;
    var lit := Quoted(v, q);
    var s, u := a + lit + b, a + lit;
    assert s == a + (lit + b) && (lit + b)[0] == q;
    var lo, hi := |a|, |a| + |lit|;
    ModePrefix(a, lit + b, lo);
    OutsideStep(s, lo);
    assert s[lo + 1..hi] == Double(v, q) + [q];
    DoubledRun(s, lo + 1, v, q);
    QuotedIsKept(s, lo + 1, hi, q);
    forall i | 0 <= i < |s| && ModeAt(s, i) == Outside ensures PlainAt(s, i) {
      if i < lo {
        ModePrefix(a, lit + b, i);
        PlainPrefix(a, lit + b, i);
      } else if i == lo {
        OpenerIsPlain(a, q, s);
      } else if i < hi {
        KeptIsPlain(s, i);
      } else {
        ModeSuffix(u, b, i - hi);
        PlainSuffix(u, b, i - hi);
      }
    }
    ModeSuffix(u, b, |b|);
  }

  lemma OpenerIsPlain(a: string, q: char, s: string)
    requires q in {'\'', '"'} && a + [q] <= s && !EscapeStringAt(a + [q], |a|)
    ensures PlainAt(s, |a|)
  {
    assert forall i :: 0 <= i <= |a| ==> s[i] == (a + [q])[i];
    OnlyDollarsQuote(s, |a|);
  }

  /** A statement stays whole around a printed value, whatever the value holds. */
  lemma ValueStaysInStatement(a: string, v: string, q: char, b: string)
    requires q in {'\'', '"'} && IsClosed(a) && IsPlain(b) && !EscapeStringAt(a + [q], |a|)
    requires (a == "" || !IsSpace(a[0])) && (b == "" || !IsSpace(b[|b| - 1]))
    ensures Split(a + Quoted(v, q) + b) == Success([a + Quoted(v, q) + b])
  {
    hide Split, IsPlain, IsClosed, Double;
    QuotedIsOpaque(a, v, q, b);
    SplitFixpoint(a + Quoted(v, q) + b);
  }

  /** In particular a literal is never cut. */
  lemma LiteralIsOneStatement(v: string)
    ensures Split("SELECT " + StringLiteral(v)) == Success(["SELECT " + StringLiteral(v)])
  {
    hide Split;
    var a := "SELECT ";
    KeywordsAreClosed(a);
    assert IsPlain("");
    ValueStaysInStatement(a, v, '\'', "");
    assert a + Quoted(v, '\'') + "" == a + Quoted(v, '\'');
  }

  predicate IsKeywordRune(c: char) {
    c == ' ' || 'A' <= c <= 'Z'
  }

  lemma {:induction false} KeywordModes(a: string, i: nat)
    requires i <= |a| && forall j :: 0 <= j < |a| ==> IsKeywordRune(a[j])
    ensures ModeAt(a, i) == Outside
    decreases i
  {
    if i > 0 {
      KeywordModes(a, i - 1);
    }
  }

  lemma KeywordsAreClosed(a: string)
    requires forall j :: 0 <= j < |a| ==> IsKeywordRune(a[j])
    ensures IsClosed(a)
  {
    KeywordModes(a, |a|);
    forall i | 0 <= i < |a| ensures PlainAt(a, i) {
      OnlyDollarsQuote(a, i);
    }
  }
}
