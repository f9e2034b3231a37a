/** A lexical walk over SQL text, one rune at a time, that says which runes stand
    outside quotes and comments.  It is the yardstick for the scanner of
    internal/dev/mdexec/main.go and does not use it. */
module Lexing {
  import opened Text
  import opened SqlBuild
  import opened Wrappers

  /** What the text before a rune leaves open: nothing, a quoted run, a line comment, or
      a block comment.  `Star` and `Slash` are the second runes of a comment's opening and
      closing pair. */
  datatype Mode = Outside | Inside(quote: char) | Line | Star | Block | Slash

  /** The two runes at `i` are `a` and `b`. */
  predicate PairAt(s: string, i: nat, a: char, b: char) {
    i + 1 < |s| && s[i] == a && s[i + 1] == b
  }

  function Step(mode: Mode, s: string, i: nat): Mode
    requires i < |s|
  {
    match mode
    case Outside =>
      if s[i] in {'\'', '"'} then Inside(s[i])
      else if PairAt(s, i, '-', '-') then Line
      else if PairAt(s, i, '/', '*') then Star
      else Outside
    case Inside(quote) => if s[i] == quote then Outside else mode
    case Line => if s[i] == '\n' then Outside else Line
    case Star => Block
    case Block => if PairAt(s, i, '*', '/') then Slash else Block
    case Slash => Outside
  }

  /** The mode before the rune at `i`; a doubled quote closes a run and opens the next. */
  function ModeAt(s: string, i: nat): Mode
    requires i <= |s|
  {
    if i == 0 then Outside else Step(ModeAt(s, i - 1), s, i - 1)
  }

  const DIGITS: set<char> := {'0', '1', '2', '3', '4', '5', '6', '7', '8', '9'}
  const SMALL_LETTERS: set<char> := {
    'a', 'b', 'c', 'd', 'e', 'f', 'g', 'h', 'i', 'j', 'k', 'l', 'm',
    'n', 'o', 'p', 'q', 'r', 's', 't', 'u', 'v', 'w', 'x', 'y', 'z'}
  const CAPITALS: set<char> := {
    'A', 'B', 'C', 'D', 'E', 'F', 'G', 'H', 'I', 'J', 'K', 'L', 'M',
    'N', 'O', 'P', 'Q', 'R', 'S', 'T', 'U', 'V', 'W', 'X', 'Y', 'Z'}

  predicate IsNameRune(c: char) {
    c == '_' || c in DIGITS || c in SMALL_LETTERS || c in CAPITALS
  }

  /** A dollar sign at `i`, and another one behind nothing but identifier runes. */
  predicate DollarQuoteAt(s: string, i: nat) {
    i < |s| && s[i] == '$' &&
    exists j :: i < j < |s| && s[j] == '$' && forall k :: i < k < j ==> IsNameRune(s[k])
  }

  /** A single quote at `i` behind an `e` that is a word of its own. */
  predicate EscapeStringAt(s: string, i: nat) {
    0 < i < |s| && s[i] == '\'' && s[i - 1] in {'e', 'E'} && (i < 2 || !IsNameRune(s[i - 2]))
  }

  predicate SemicolonAt(s: string, i: nat)
    requires i < |s|
  {
    ModeAt(s, i) == Outside && s[i] == ';'
  }

  datatype SplitError = EscapeString | DollarQuote | NestedComment | UnterminatedComment

  /** What is wrong at position `i`; behind the last rune that is a comment left open. */
  function FaultAt(s: string, i: nat): Option<SplitError>
    requires i <= |s|
  {
    var mode := ModeAt(s, i);
    if mode == Outside && EscapeStringAt(s, i) then Some(EscapeString)
    else if mode == Outside && DollarQuoteAt(s, i) then Some(DollarQuote)
    else if mode == Block && PairAt(s, i, '/', '*') then Some(NestedComment)
    else if mode == Block && i == |s| then Some(UnterminatedComment)
    else None
  }

  predicate NoFaultBefore(s: string, i: nat)
    requires i <= |s|
  {
    forall j :: 0 <= j < i ==> FaultAt(s, j) == None
  }

  /** The first fault of the text. */
  predicate FirstFault(s: string, e: SplitError) {
    exists i :: 0 <= i <= |s| && FaultAt(s, i) == Some(e) && NoFaultBefore(s, i)
  }

  predicate IsFaultless(s: string) {
    forall i :: 0 <= i <= |s| ==> FaultAt(s, i) == None
  }

  /** What a rune contributes: itself, or for a comment one blank at its start. */
  function Shown(s: string, i: nat): string
    requires i < |s|
  {
    match ModeAt(s, i)
    case Outside => if Step(Outside, s, i) in {Line, Star} then " " else [s[i]]
    case Inside(_) => [s[i]]
    case _ => ""
  }

  function ShownFrom(s: string, lo: nat, hi: nat): string
    requires lo <= hi <= |s|
    decreases hi - lo
  {
    if lo == hi then "" else Shown(s, lo) + ShownFrom(s, lo + 1, hi)
  }

  /** The first outside semicolon at or behind `i`, or the end. */
  function NextSemicolon(s: string, i: nat): (r: nat)
    requires i <= |s|
    ensures i <= r <= |s|
    ensures forall j :: i <= j < r ==> !SemicolonAt(s, j)
    ensures r < |s| ==> SemicolonAt(s, r)
    decreases |s| - i
  {
    if i == |s| || SemicolonAt(s, i) then i else NextSemicolon(s, i + 1)
  }

  /** What is shown between the outside semicolons. */
  function Pieces(s: string, i: nat): (r: seq<string>)
    requires i <= |s|
    ensures r != []
    decreases |s| - i
  {
    var end := NextSemicolon(s, i);
    [ShownFrom(s, i, end)] + if end == |s| then [] else Pieces(s, end + 1)
  }

  /** Outside its quotes the text holds no semicolon, no comment, no dollar quote and no
      escape string. */
  predicate IsPlain(s: string) {
    forall i :: 0 <= i < |s| && ModeAt(s, i) == Outside ==> PlainAt(s, i)
  }

  predicate PlainAt(s: string, i: nat)
    requires i < |s|
  {
    && s[i] != ';' && !PairAt(s, i, '-', '-') && !PairAt(s, i, '/', '*')
    && !DollarQuoteAt(s, i) && !EscapeStringAt(s, i)
  }

  /** And it closes its quotes. */
  predicate IsClosed(s: string) {
    IsPlain(s) && ModeAt(s, |s|) == Outside
  }

  /** A whole comment: a line comment with its line feed, or a block comment that closes
      at its end and nests nothing. */
  predicate IsComment(c: string) {
    || (|c| >= 3 && PairAt(c, 0, '-', '-') && c[|c| - 1] == '\n' && '\n' !in c[..|c| - 1])
    || (|c| >= 4 && PairAt(c, 0, '/', '*') && PairAt(c, |c| - 2, '*', '/')
        && forall j :: 2 <= j < |c| - 2 ==> !PairAt(c, j, '/', '*') && !PairAt(c, j, '*', '/'))
  }
}
