/** Text primitives of the Go standard library that the modelled code calls.
    A `string` is a sequence of Unicode scalar values, Go's rune view of the
    text.  Every delimiter the scanners look for is ASCII, so scanning runes and
    scanning UTF-8 bytes find the same boundaries. */
module Text {

  /** The runes that `strings.TrimSpace` and `strings.Fields` treat as space. */
  predicate IsSpace(c: char) {
    || '\t' <= c <= '\r'
    || c in {' ', '\U{0085}', '\U{00A0}', '\U{1680}', '\U{2028}', '\U{2029}', '\U{202F}', '\U{205F}', '\U{3000}'}
    || '\U{2000}' <= c <= '\U{200A}'
  }

  function TrimLeft(s: string): (r: string)
    ensures r == s || (s != "" && |r| < |s|)
  {
    if s != "" && IsSpace(s[0]) then TrimLeft(s[1..]) else s
  }

  function TrimRight(s: string): (r: string)
    ensures |r| <= |s|
  {
    if s != "" && IsSpace(s[|s| - 1]) then TrimRight(s[..|s| - 1]) else s
  }

  /** `strings.TrimSpace` */
  function Trim(s: string): string {
    TrimRight(TrimLeft(s))
  }

  /** Nothing to trim at either end; the empty text counts. */
  predicate Trimmed(s: string) {
    s == "" || (!IsSpace(s[0]) && !IsSpace(s[|s| - 1]))
  }

  lemma {:induction false} TrimLeftShape(s: string)
    ensures TrimLeft(s) == "" || !IsSpace(TrimLeft(s)[0])
    ensures TrimLeft(s) != "" ==> TrimLeft(s)[|TrimLeft(s)| - 1] == s[|s| - 1]
    decreases |s|
  {
    if s != "" && IsSpace(s[0]) {
      TrimLeftShape(s[1..]);
    }
  }

  lemma {:induction false} TrimRightShape(s: string)
    ensures TrimRight(s) == "" || !IsSpace(TrimRight(s)[|TrimRight(s)| - 1])
    ensures TrimRight(s) <= s
    decreases |s|
  {
    if s != "" && IsSpace(s[|s| - 1]) {
      TrimRightShape(s[..|s| - 1]);
    }
  }

  lemma TrimIsTrimmed(s: string)
    ensures Trimmed(Trim(s))
  {
    TrimLeftShape(s);
    TrimRightShape(TrimLeft(s));
  }

  lemma TrimOfTrimmed(s: string)
    requires Trimmed(s)
    ensures Trim(s) == s && TrimLeft(s) == s && TrimRight(s) == s
  {
  }

  lemma TrimIdempotent(s: string)
    ensures Trim(Trim(s)) == Trim(s)
  {
    TrimIsTrimmed(s);
    TrimOfTrimmed(Trim(s));
  }

  /** Text that starts with a visible rune keeps its front when it is extended. */
  lemma {:induction false} TrimRightAppend(a: string, b: string)
    requires a != "" && !IsSpace(a[|a| - 1])
    ensures TrimRight(a + b) == a + TrimRight(b)
    decreases |b|
  {
    if b == "" {
      assert a + b == a;
    } else {
      var s := a + b;
      assert s[|s| - 1] == b[|b| - 1];
      if IsSpace(b[|b| - 1]) {
        assert s[..|s| - 1] == a + b[..|b| - 1];
        TrimRightAppend(a, b[..|b| - 1]);
      }
    }
  }

  lemma TrimAppend(a: string, b: string)
    requires a != "" && Trimmed(a)
    ensures Trim(a + b) == a + TrimRight(b)
  {
    assert (a + b)[0] == a[0];
    TrimRightAppend(a, b);
  }

  lemma {:induction false} TrimLeftAppend(a: string, b: string)
    ensures TrimLeft(a) != "" ==> TrimLeft(a + b) == TrimLeft(a) + b
    ensures TrimLeft(a) == "" ==> TrimLeft(a + b) == TrimLeft(b)
    decreases |a|
  {
    if a == "" {
      assert a + b == b;
    } else if IsSpace(a[0]) {
      assert (a + b)[1..] == a[1..] + b;
      TrimLeftAppend(a[1..], b);
    }
  }

  /** A text that is all space. */
  predicate Blank(s: string) {
    forall i :: 0 <= i < |s| ==> IsSpace(s[i])
  }

  lemma {:induction false} TrimBlank(s: string)
    ensures TrimLeft(s) == "" <==> Blank(s)
    ensures Trim(s) == "" <==> Blank(s)
    decreases |s|
  {
    if s != "" {
      if IsSpace(s[0]) {
        TrimBlank(s[1..]);
        assert forall i :: 1 <= i < |s| ==> s[i] == s[1..][i - 1];
      } else {
        TrimLeftShape(s);
        TrimRightKeepsHead(s);
      }
    }
  }

  lemma {:induction false} TrimRightKeepsHead(s: string)
    requires s != "" && !IsSpace(s[0])
    ensures TrimRight(s) != "" && TrimRight(s)[0] == s[0]
    decreases |s|
  {
    if IsSpace(s[|s| - 1]) {
      assert s[..|s| - 1] != "";
      TrimRightKeepsHead(s[..|s| - 1]);
    }
  }

  /** Trimming after a removal of leading or trailing space changes nothing. */
  lemma {:induction false} TrimDropsTail(s: string, w: char)
    requires IsSpace(w)
    ensures Trim(s + [w]) == Trim(s)
  {
    TrimLeftAppend(s, [w]);
    if TrimLeft(s) != "" {
      assert (TrimLeft(s) + [w])[..|TrimLeft(s)|] == TrimLeft(s);
    } else {
      assert TrimLeft([w]) == TrimLeft([w][1..]) == "";
    }
  }

  // ---------------------------------------------------------------------
  // Case
  // ---------------------------------------------------------------------

  function AsciiUpper(c: char): char {
    if 'a' <= c <= 'z' then c - 'a' + 'A' else c
  }

  function AsciiLower(c: char): char {
    if 'A' <= c <= 'Z' then c - 'A' + 'a' else c
  }

  predicate IsAscii(c: char) {
    c <= '\U{007F}'
  }

  /** A case table of Unicode: `unicode.ToUpper`, `unicode.ToLower`, and one rune of
      each class that `strings.EqualFold` takes for equal.  Which rune of a class that
      is does not matter, but for a letter of ASCII it is the lower-case one. */
  datatype CaseTable = CaseTable(upper: char -> char, lower: char -> char, fold: char -> char)

  const LONG_S := '\U{017F}'
  const KELVIN_SIGN := '\U{212A}'
  const DOTTED_I := '\U{0130}'
  const DOTLESS_I := '\U{0131}'
  const SIGMA := '\U{03C3}'
  const FINAL_SIGMA := '\U{03C2}'
  const CAPITAL_E_ACUTE := '\U{00C9}'
  const SMALL_E_ACUTE := '\U{00E9}'

  /** What is used of the table: ASCII, the runes that map into ASCII, that lowering
      and folding twice is lowering and folding once, and four runes by name. */
  ghost predicate Lawful(t: CaseTable) {
    && (forall c :: IsAscii(c) ==> t.upper(c) == AsciiUpper(c))
    && (forall c :: IsAscii(c) ==> t.lower(c) == AsciiLower(c))
    && (forall c :: IsAscii(c) ==> t.fold(c) == AsciiLower(c))
    && (forall c :: IsAscii(t.upper(c)) ==> IsAscii(c) || c == LONG_S || c == DOTLESS_I)
    && (forall c :: IsAscii(t.lower(c)) ==> IsAscii(c) || c == KELVIN_SIGN || c == DOTTED_I)
    && (forall c :: IsAscii(t.fold(c)) ==> IsAscii(c) || c == KELVIN_SIGN || c == LONG_S)
    && (forall c :: t.lower(t.lower(c)) == t.lower(c))
    && (forall c :: t.fold(t.fold(c)) == t.fold(c))
    && t.upper(LONG_S) == 'S' && t.upper(DOTLESS_I) == 'I'
    && t.lower(KELVIN_SIGN) == 'k' && t.lower(DOTTED_I) == 'i' && t.lower(LONG_S) == LONG_S
    && t.fold(KELVIN_SIGN) == 'k' && t.fold(LONG_S) == 's' && t.fold(DOTTED_I) == DOTTED_I
    && t.lower(SIGMA) == SIGMA && t.lower(FINAL_SIGMA) == FINAL_SIGMA && t.fold(SIGMA) == t.fold(FINAL_SIGMA)
    && t.lower(CAPITAL_E_ACUTE) == SMALL_E_ACUTE == t.lower(SMALL_E_ACUTE)
    && t.fold(CAPITAL_E_ACUTE) == t.fold(SMALL_E_ACUTE)
  }

  /** The smallest table with these properties shows that there are some. */
  function LeastUpper(c: char): char {
    if c == LONG_S then 'S' else if c == DOTLESS_I then 'I' else AsciiUpper(c)
  }

  function LeastLower(c: char): char {
    if c == KELVIN_SIGN then 'k' else if c == DOTTED_I then 'i'
    else if c == CAPITAL_E_ACUTE then SMALL_E_ACUTE else AsciiLower(c)
  }

  function LeastFold(c: char): char {
    if c == LONG_S then 's' else if c == KELVIN_SIGN then 'k' else if c == FINAL_SIGMA then SIGMA
    else if c == CAPITAL_E_ACUTE then SMALL_E_ACUTE else AsciiLower(c)
  }

  type UnicodeCase = t: CaseTable | Lawful(t) witness CaseTable(LeastUpper, LeastLower, LeastFold)

  /** The table of the Go version in use.  No value is given, so that every result
      holds for each lawful table, whatever Unicode adds to it. */
  const UNICODE: UnicodeCase

  function UpperChar(c: char): (r: char)
    ensures IsAscii(c) ==> r == AsciiUpper(c)
  {
    UNICODE.upper(c)
  }

  function LowerChar(c: char): (r: char)
    ensures IsAscii(c) ==> r == AsciiLower(c)
  {
    UNICODE.lower(c)
  }

  function FoldChar(c: char): (r: char)
    ensures IsAscii(c) ==> r == AsciiLower(c)
  {
    UNICODE.fold(c)
  }

  function Upper(s: string): (r: string)
    ensures |r| == |s| && forall i :: 0 <= i < |s| ==> r[i] == UpperChar(s[i])
  {
    seq(|s|, i requires 0 <= i < |s| => UpperChar(s[i]))
  }

  function Lower(s: string): (r: string)
    ensures |r| == |s| && forall i :: 0 <= i < |s| ==> r[i] == LowerChar(s[i])
  {
    seq(|s|, i requires 0 <= i < |s| => LowerChar(s[i]))
  }

  function Fold(s: string): (r: string)
    ensures |r| == |s| && forall i :: 0 <= i < |s| ==> r[i] == FoldChar(s[i])
  {
    seq(|s|, i requires 0 <= i < |s| => FoldChar(s[i]))
  }

  predicate EqualFold(s: string, t: string) {
    Fold(s) == Fold(t)
  }

  predicate HasPrefix(s: string, prefix: string) {
    |prefix| <= |s| && s[..|prefix|] == prefix
  }

  predicate HasSuffix(s: string, suffix: string) {
    |suffix| <= |s| && s[|s| - |suffix|..] == suffix
  }

  lemma Regroup(a: string, b: string, c: string, d: string)
    ensures a + b + c + d == a + (b + (c + d)) == a + (b + c + d)
  {
  }
}
