/** `tokenize` and `mutationTarget` of internal/dev/mdexec/main.go, and the DDL
    text that `SqlBuild` prints for them to read. */
module MutationTarget {
  import opened Text
  import opened SqlBuild
  import opened Wrappers
  import opened Lexing
  import opened Statements
  import opened StatementWalk

  datatype Token = Token(text: string, quoted: bool, literal: bool)

  predicate IsTokenSpace(c: char) {
    c in {' ', '\t', '\n', '\r'}
  }

  predicate IsPunctuation(c: char) {
    c in {'.', '(', ')', ',', '='}
  }

  predicate IsDelimiter(c: char) {
    IsTokenSpace(c) || IsPunctuation(c) || c in {'"', '\''}
  }

  function WordLength(s: string): (n: nat)
    ensures n <= |s|
    ensures s != "" && !IsDelimiter(s[0]) ==> n > 0
    ensures forall i :: 0 <= i < n ==> !IsDelimiter(s[i])
    ensures n < |s| ==> IsDelimiter(s[n])
  {
    if s == "" || IsDelimiter(s[0]) then 0 else 1 + WordLength(s[1..])
  }

  /** The text between the quotes of the run that opens `s` and takes `n` runes
      of it; an unterminated run has no closing quote to leave out. */
  function QuotedBody(s: string, n: nat): string
    requires 0 < n <= |s|
  {
    if n > 1 && s[n - 1] == s[0] then s[1..n - 1] else s[1..]
  }

  /** One step of the tokenizer: the token it appends, if any, and the runes it
      takes. */
  datatype Lexeme = Skip | Emit(token: Token, n: nat)
  {
    function Length(): nat {
      if Skip? then 1 else n
    }

    function Out(): seq<Token> {
      if Skip? then [] else [token]
    }
  }

  function FirstLexeme(s: string): (l: Lexeme)
    requires s != ""
    ensures 0 < l.Length() <= |s|
  {
    if IsTokenSpace(s[0]) then Skip
    else if s[0] == '"' || s[0] == '\'' then
      var n := 1 + QuotedTail(s[1..], s[0]);
      Emit(Token(Undouble(QuotedBody(s, n), s[0]), s[0] == '"', s[0] == '\''), n)
    else if IsPunctuation(s[0]) then Emit(Token(s[..1], false, false), 1)
    else Emit(Token(s[..WordLength(s)], false, false), WordLength(s))
  }

  function Tokens(s: string): seq<Token>
    decreases |s|
  {
    if s == "" then [] else FirstLexeme(s).Out() + Tokens(s[FirstLexeme(s).Length()..])
  }

  lemma TokensStep(collected: seq<Token>, s: string)
    requires s != ""
    ensures collected + Tokens(s) == (collected + FirstLexeme(s).Out()) + Tokens(s[FirstLexeme(s).Length()..])
  {
  }

  method NextLexeme(statement: string, i: nat) returns (l: Lexeme)
    requires i < |statement|
    ensures l == FirstLexeme(statement[i..])
  {
    var r := statement[i];
    ghost var s := statement[i..];
    assert s[1..] == statement[i + 1..];
    if IsTokenSpace(r) {
      return Skip;
    }
    if r == '"' || r == '\'' {
      var end := SkipQuoted(statement, i, r);
      var body := if end - 1 > i && statement[end - 1] == r then statement[i + 1..end - 1] else statement[i + 1..];
      assert body == QuotedBody(s, end - i);
      return Emit(Token(Undouble(body, r), r == '"', r == '\''), end - i);
    }
    if IsPunctuation(r) {
      assert s[..1] == [r];
      return Emit(Token([r], false, false), 1);
    }
    var end := WordEnd(statement, i);
    assert s[..end - i] == statement[i..end];
    return Emit(Token(statement[i..end], false, false), end - i);
  }

  method Tokenize(statement: string) returns (tokens: seq<Token>)
    ensures tokens == Tokens(statement)
  {
    tokens := [];
    var i := 0;
    while i < |statement|
      invariant i <= |statement|
      invariant tokens + Tokens(statement[i..]) == Tokens(statement)
    {
      var lexeme := NextLexeme(statement, i);
      TokensStep(tokens, statement[i..]);
      assert statement[i..][lexeme.Length()..] == statement[i + lexeme.Length()..];
      tokens := tokens + lexeme.Out();
      i := i + lexeme.Length();
    }
    assert statement[i..] == "";
  }

  method WordEnd(statement: string, start: nat) returns (i: nat)
    requires start < |statement|
    ensures i == start + WordLength(statement[start..])
  {
    i := start;
    while i < |statement| && !IsDelimiter(statement[i])
      invariant start <= i <= |statement|
      invariant WordLength(statement[start..]) == i - start + WordLength(statement[i..])
    {
      assert statement[i..][1..] == statement[i + 1..];
      i := i + 1;
    }
  }

  // ---------------------------------------------------------------------
  // mutationTarget
  // ---------------------------------------------------------------------

  datatype Target = Named(name: string) | NeedsTarget | Refused(reason: Reason)
  datatype Reason = UnsupportedShape | UnsupportedVerb | MissingName | LiteralName | UnexpectedToken

  const OBJECT_KINDS := {"DATABASE", "SHARE", "SECRET", "SCHEMA", "TABLE", "VIEW", "ROLE"}

  predicate IsBareIdentifier(text: string) {
    && text != ""
    && !('0' <= text[0] <= '9')
    && forall i :: 0 <= i < |text| ==> IsIdentifierRune(text[i])
  }

  predicate Keyword(tokens: seq<Token>, i: nat, want: string) {
    i < |tokens| && !tokens[i].quoted && !tokens[i].literal && EqualFold(tokens[i].text, want)
  }

  predicate KindAt(tokens: seq<Token>, i: nat) {
    i < |tokens| && Upper(tokens[i].text) in OBJECT_KINDS
  }

  function Identifier(tokens: seq<Token>, i: nat): Target {
    if i >= |tokens| then Refused(MissingName)
    else if tokens[i].literal then Refused(LiteralName)
    else if tokens[i].quoted then Named(tokens[i].text)
    else if !IsBareIdentifier(tokens[i].text) then Refused(UnexpectedToken)
    else Named(Lower(tokens[i].text))
  }

  /** Where the name of the object stands in each DDL shape. */
  function FindTarget(tokens: seq<Token>): Target
    requires tokens != []
  {
    match Upper(tokens[0].text)
    case "DROP" =>
      if !KindAt(tokens, 1) then Refused(UnsupportedShape)
      else Identifier(tokens, if Keyword(tokens, 2, "IF") && Keyword(tokens, 3, "EXISTS") then 4 else 2)
    case "CREATE" =>
      var kind := if Keyword(tokens, 1, "OR") && Keyword(tokens, 2, "REPLACE") then 3 else 1;
      if !KindAt(tokens, kind) then Refused(UnsupportedShape)
      else
        var guarded := Keyword(tokens, kind + 1, "IF") && Keyword(tokens, kind + 2, "NOT")
                       && Keyword(tokens, kind + 3, "EXISTS");
        Identifier(tokens, kind + if guarded then 4 else 1)
    case "ALTER" =>
      if Keyword(tokens, 1, "SNAPSHOT") then NeedsTarget
      else if !KindAt(tokens, 1) then Refused(UnsupportedShape)
      else Identifier(tokens, 2)
    case _ => Refused(UnsupportedVerb)
  }

  method FindMutationTarget(tokens: seq<Token>) returns (target: Target)
    requires tokens != []
    ensures target == FindTarget(tokens)
  {
    var verb := Upper(tokens[0].text);
    var i := 1;
    if verb == "DROP" {
      if !KindAt(tokens, i) { return Refused(UnsupportedShape); }
      i := i + 1;
      if Keyword(tokens, i, "IF") && Keyword(tokens, i + 1, "EXISTS") { i := i + 2; }
      return Identifier(tokens, i);
    } else if verb == "CREATE" {
      if Keyword(tokens, i, "OR") && Keyword(tokens, i + 1, "REPLACE") { i := i + 2; }
      if !KindAt(tokens, i) { return Refused(UnsupportedShape); }
      i := i + 1;
      if Keyword(tokens, i, "IF") && Keyword(tokens, i + 1, "NOT") && Keyword(tokens, i + 2, "EXISTS") { i := i + 3; }
      return Identifier(tokens, i);
    } else if verb == "ALTER" {
      if Keyword(tokens, i, "SNAPSHOT") { return NeedsTarget; }
      if !KindAt(tokens, i) { return Refused(UnsupportedShape); }
      return Identifier(tokens, i + 1);
    }
    return Refused(UnsupportedVerb);
  }

  /** A string literal never names the target: the name is the text of a quoted
      identifier, or the lower case of a bare word. */
  lemma TargetIsAnIdentifier(tokens: seq<Token>)
    requires tokens != [] && FindTarget(tokens).Named?
    ensures exists i :: 2 <= i < |tokens| && !tokens[i].literal &&
                        FindTarget(tokens).name ==
                        (if tokens[i].quoted then tokens[i].text else Lower(tokens[i].text))
  {
    forall i: nat | Identifier(tokens, i).Named?
      ensures i < |tokens| && !tokens[i].literal
      ensures Identifier(tokens, i).name == if tokens[i].quoted then tokens[i].text else Lower(tokens[i].text)
    {
    }
  }

  // ---------------------------------------------------------------------
  // The shapes, written out
  // ---------------------------------------------------------------------

  /** What stands before a name: a verb and an object kind, in any case and however they
      are quoted, and bare words between them and behind. */
  datatype Header = Header(verb: string, between: seq<string>, behind: seq<string>) {
    function Length(): nat {
      2 + |between| + |behind|
    }
  }

  const HEADERS: seq<Header> := [
    Header("DROP", [], []), Header("DROP", [], ["IF", "EXISTS"]),
    Header("CREATE", [], []), Header("CREATE", [], ["IF", "NOT", "EXISTS"]),
    Header("CREATE", ["OR", "REPLACE"], []), Header("CREATE", ["OR", "REPLACE"], ["IF", "NOT", "EXISTS"]),
    Header("ALTER", [], [])]

  predicate BareWordAt(tokens: seq<Token>, i: nat, word: string) {
    i < |tokens| && !tokens[i].quoted && !tokens[i].literal && EqualFold(tokens[i].text, word)
  }

  predicate WordsAt(tokens: seq<Token>, i: nat, words: seq<string>) {
    forall j :: 0 <= j < |words| ==> BareWordAt(tokens, i + j, words[j])
  }

  predicate Begins(tokens: seq<Token>, h: Header) {
    && h.Length() <= |tokens| && Upper(tokens[0].text) == h.verb && WordsAt(tokens, 1, h.between)
    && Upper(tokens[1 + |h.between|].text) in {"DATABASE", "SHARE", "SECRET", "SCHEMA", "TABLE", "VIEW", "ROLE"}
    && WordsAt(tokens, 2 + |h.between|, h.behind)
  }

  ghost predicate HasHeader(tokens: seq<Token>) {
    exists k :: 0 <= k < |HEADERS| && Begins(tokens, HEADERS[k])
  }

  /** The longest header that the tokens begin with. */
  ghost predicate IsHeader(tokens: seq<Token>, k: nat) {
    && k < |HEADERS| && Begins(tokens, HEADERS[k])
    && forall j :: 0 <= j < |HEADERS| && Begins(tokens, HEADERS[j]) ==> HEADERS[j].Length() <= HEADERS[k].Length()
  }

  predicate AltersSnapshot(tokens: seq<Token>) {
    tokens != [] && Upper(tokens[0].text) == "ALTER" && WordsAt(tokens, 1, ["SNAPSHOT"])
  }

  predicate IsBareName(text: string) {
    text != "" && text[0] !in DIGITS && forall i :: 0 <= i < |text| ==> IsNameRune(text[i])
  }

  lemma WordsStep(tokens: seq<Token>, i: nat, word: string, more: seq<string>)
    ensures WordsAt(tokens, i, [word] + more) <==> BareWordAt(tokens, i, word) && WordsAt(tokens, i + 1, more)
  {
    hide BareWordAt;
    var words := [word] + more;
    if WordsAt(tokens, i, words) {
      assert BareWordAt(tokens, i + 0, words[0]);
      forall j | 0 <= j < |more| ensures BareWordAt(tokens, i + 1 + j, more[j]) {
        assert BareWordAt(tokens, i + (j + 1), words[j + 1]);
      }
    }
    if BareWordAt(tokens, i, word) && WordsAt(tokens, i + 1, more) {
      forall j | 0 <= j < |words| ensures BareWordAt(tokens, i + j, words[j]) {
        if j > 0 {
          assert BareWordAt(tokens, i + 1 + (j - 1), more[j - 1]);
        }
      }
    }
  }

  lemma OneWord(tokens: seq<Token>, i: nat, a: string)
    ensures WordsAt(tokens, i, [a]) <==> Keyword(tokens, i, a)
  {
    hide EqualFold;
    assert [a] == [a] + [];
    WordsStep(tokens, i, a, []);
  }

  lemma TwoWords(tokens: seq<Token>, i: nat, a: string, b: string)
    ensures WordsAt(tokens, i, [a, b]) <==> Keyword(tokens, i, a) && Keyword(tokens, i + 1, b)
  {
    hide EqualFold;
    assert [a, b] == [a] + [b];
    WordsStep(tokens, i, a, [b]);
    OneWord(tokens, i + 1, b);
  }

  lemma ThreeWords(tokens: seq<Token>, i: nat, a: string, b: string, c: string)
    ensures WordsAt(tokens, i, [a, b, c]) <==>
            Keyword(tokens, i, a) && Keyword(tokens, i + 1, b) && Keyword(tokens, i + 2, c)
  {
    hide EqualFold;
    assert [a, b, c] == [a] + [b, c];
    WordsStep(tokens, i, a, [b, c]);
    TwoWords(tokens, i + 1, b, c);
  }

  lemma Unguarded(tokens: seq<Token>, verb: string)
    requires tokens != []
    ensures Begins(tokens, Header(verb, [], [])) <==> Upper(tokens[0].text) == verb && KindAt(tokens, 1)
  {
  }

  lemma DropGuarded(tokens: seq<Token>)
    requires tokens != []
    ensures Begins(tokens, Header("DROP", [], ["IF", "EXISTS"])) <==>
            && Upper(tokens[0].text) == "DROP" && KindAt(tokens, 1)
            && Keyword(tokens, 2, "IF") && Keyword(tokens, 3, "EXISTS")
  {
    TwoWords(tokens, 2, "IF", "EXISTS");
    hide Keyword;
  }

  lemma CreateGuarded(tokens: seq<Token>)
    requires tokens != []
    ensures Begins(tokens, Header("CREATE", [], ["IF", "NOT", "EXISTS"])) <==>
            && Upper(tokens[0].text) == "CREATE" && KindAt(tokens, 1)
            && Keyword(tokens, 2, "IF") && Keyword(tokens, 3, "NOT") && Keyword(tokens, 4, "EXISTS")
  {
    ThreeWords(tokens, 2, "IF", "NOT", "EXISTS");
    hide Keyword;
  }

  lemma CreateReplacing(tokens: seq<Token>)
    requires tokens != []
    ensures Begins(tokens, Header("CREATE", ["OR", "REPLACE"], [])) <==>
            && Upper(tokens[0].text) == "CREATE" && Keyword(tokens, 1, "OR") && Keyword(tokens, 2, "REPLACE")
            && KindAt(tokens, 3)
    ensures Begins(tokens, Header("CREATE", ["OR", "REPLACE"], ["IF", "NOT", "EXISTS"])) <==>
            && Upper(tokens[0].text) == "CREATE" && Keyword(tokens, 1, "OR") && Keyword(tokens, 2, "REPLACE")
            && KindAt(tokens, 3)
            && Keyword(tokens, 4, "IF") && Keyword(tokens, 5, "NOT") && Keyword(tokens, 6, "EXISTS")
  {
    TwoWords(tokens, 1, "OR", "REPLACE");
    ThreeWords(tokens, 4, "IF", "NOT", "EXISTS");
    hide EqualFold;
  }

  lemma OrIsNoKind(tokens: seq<Token>)
    ensures !(Keyword(tokens, 1, "OR") && KindAt(tokens, 1))
  {
    if Keyword(tokens, 1, "OR") {
      assert |Fold(tokens[1].text)| == |Fold("OR")|;
    }
  }

  lemma BareNameIff(text: string)
    ensures IsBareName(text) <==> IsBareIdentifier(text)
  {
    hide DIGITS;
    if text != "" {
      SameRunes(text[0]);
    }
    forall i | 0 <= i < |text| ensures IsNameRune(text[i]) <==> IsIdentifierRune(text[i]) {
      SameIdentifierRunes(text[i]);
    }
  }

  /** Which headers begin the tokens, as the cursor of the source finds them. */
  lemma HeadersAre(tokens: seq<Token>)
    requires tokens != []
    ensures |HEADERS| == 7
    ensures HEADERS[0].Length() == HEADERS[2].Length() == HEADERS[6].Length() == 2
    ensures HEADERS[1].Length() == 4 == HEADERS[4].Length()
    ensures HEADERS[3].Length() == 5 && HEADERS[5].Length() == 7
    ensures var v := Upper(tokens[0].text);
            && (Begins(tokens, HEADERS[0]) <==> v == "DROP" && KindAt(tokens, 1))
            && (Begins(tokens, HEADERS[1]) <==>
                  v == "DROP" && KindAt(tokens, 1) && Keyword(tokens, 2, "IF") && Keyword(tokens, 3, "EXISTS"))
            && (Begins(tokens, HEADERS[2]) <==> v == "CREATE" && KindAt(tokens, 1))
            && (Begins(tokens, HEADERS[3]) <==>
                  && v == "CREATE" && KindAt(tokens, 1)
                  && Keyword(tokens, 2, "IF") && Keyword(tokens, 3, "NOT") && Keyword(tokens, 4, "EXISTS"))
            && (Begins(tokens, HEADERS[4]) <==>
                  v == "CREATE" && Keyword(tokens, 1, "OR") && Keyword(tokens, 2, "REPLACE") && KindAt(tokens, 3))
            && (Begins(tokens, HEADERS[5]) <==>
                  && v == "CREATE" && Keyword(tokens, 1, "OR") && Keyword(tokens, 2, "REPLACE") && KindAt(tokens, 3)
                  && Keyword(tokens, 4, "IF") && Keyword(tokens, 5, "NOT") && Keyword(tokens, 6, "EXISTS"))
            && (Begins(tokens, HEADERS[6]) <==> v == "ALTER" && KindAt(tokens, 1))
  {
    hide Begins, Keyword, KindAt;
    Unguarded(tokens, "DROP");
    Unguarded(tokens, "CREATE");
    Unguarded(tokens, "ALTER");
    DropGuarded(tokens);
    CreateGuarded(tokens);
    CreateReplacing(tokens);
  }

  /** Without a header there is no target, and the verb says how it is refused. */
  lemma TargetWithoutHeader(tokens: seq<Token>)
    requires tokens != []
    ensures FindTarget(tokens) == NeedsTarget <==> AltersSnapshot(tokens)
    ensures FindTarget(tokens) == Refused(UnsupportedVerb) <==> Upper(tokens[0].text) !in {"DROP", "CREATE", "ALTER"}
    ensures FindTarget(tokens) == Refused(UnsupportedShape) <==>
            && Upper(tokens[0].text) in {"DROP", "CREATE", "ALTER"}
            && !HasHeader(tokens) && !AltersSnapshot(tokens)
  {
    HeadersAre(tokens);
    OneWord(tokens, 1, "SNAPSHOT");
    OrIsNoKind(tokens);
    hide Begins, Keyword, KindAt, HEADERS, WordsAt;
    VerbsDiffer();
    assert HasHeader(tokens) <==>
           || Begins(tokens, HEADERS[0]) || Begins(tokens, HEADERS[1]) || Begins(tokens, HEADERS[2])
           || Begins(tokens, HEADERS[3]) || Begins(tokens, HEADERS[4]) || Begins(tokens, HEADERS[5])
           || Begins(tokens, HEADERS[6]);
  }

  lemma VerbsDiffer()
    ensures "DROP" != "CREATE" && "DROP" != "ALTER" && "CREATE" != "ALTER"
  {
    assert |"DROP"| == 4 && |"CREATE"| == 6 && |"ALTER"| == 5;
  }

  /** The token behind the longest header is the name: a quoted identifier as it is, or a
      bare one in lower case.  Anything else is refused. */
  lemma TargetBehindHeader(tokens: seq<Token>, k: nat)
    requires tokens != [] && IsHeader(tokens, k) && !AltersSnapshot(tokens)
    ensures var n := HEADERS[k].Length();
            FindTarget(tokens) ==
            if n >= |tokens| then Refused(MissingName)
            else if tokens[n].literal then Refused(LiteralName)
            else if tokens[n].quoted then Named(tokens[n].text)
            else if IsBareName(tokens[n].text) then Named(Lower(tokens[n].text))
            else Refused(UnexpectedToken)
  {
    var n := HEADERS[k].Length();
    CursorStopsBehindHeader(tokens, k);
    if n < |tokens| {
      BareNameIff(tokens[n].text);
    }
  }

  lemma CursorStopsBehindHeader(tokens: seq<Token>, k: nat)
    requires tokens != [] && IsHeader(tokens, k) && !AltersSnapshot(tokens)
    ensures FindTarget(tokens) == Identifier(tokens, HEADERS[k].Length())
  {
    HeadersAre(tokens);
    OneWord(tokens, 1, "SNAPSHOT");
    OrIsNoKind(tokens);
    hide Begins, Keyword, KindAt, HEADERS, WordsAt, Identifier;
    VerbsDiffer();
  }

  // ---------------------------------------------------------------------
  // Tokens of printed text
  // ---------------------------------------------------------------------

  lemma LexemeOfQuoted(value: string, q: char, rest: string)
    requires q == '"' || q == '\''
    requires rest == "" || rest[0] != q
    ensures FirstLexeme(Quoted(value, q) + rest) == Emit(Token(value, q == '"', q == '\''), |Quoted(value, q)|)
  {
    var s := Quoted(value, q) + rest;
    var n := |Quoted(value, q)|;
    assert s[1..] == Double(value, q) + [q] + rest;
    QuotedTailOfDouble(value, q, rest);
    assert QuotedBody(s, n) == Double(value, q);
    UndoubleDouble(value, q);
  }

  lemma TokensOfQuoted(value: string, q: char, rest: string)
    requires q == '"' || q == '\''
    requires rest == "" || rest[0] != q
    ensures Tokens(Quoted(value, q) + rest) == [Token(value, q == '"', q == '\'')] + Tokens(rest)
  {
    LexemeOfQuoted(value, q, rest);
    assert (Quoted(value, q) + rest)[|Quoted(value, q)|..] == rest;
  }

  /** A quoted identifier is one token with the name as its text. */
  lemma TokensOfIdentifier(name: string)
    ensures Tokens(QuoteIdentifier(name)) == [Token(name, true, false)]
  {
    TokensOfQuoted(name, '"', "");
    assert QuoteIdentifier(name) + "" == QuoteIdentifier(name);
  }

  /** A string literal is one token with the value as its text. */
  lemma TokensOfLiteral(value: string)
    ensures Tokens(StringLiteral(value)) == [Token(value, false, true)]
  {
    TokensOfQuoted(value, '\'', "");
    assert StringLiteral(value) + "" == StringLiteral(value);
  }

  /** A token that the tokenizer can return: a quoted text of any kind, one punctuation
      mark, or a word without delimiters. */
  predicate IsToken(t: Token) {
    if t.quoted then !t.literal
    else t.literal || t.text in PUNCTUATION || (t.text != "" && forall c :: c in t.text ==> c !in DELIMITERS)
  }

  const PUNCTUATION := {".", "(", ")", ",", "="}
  const DELIMITERS := {' ', '\t', '\n', '\r', '"', '\'', '.', '(', ')', ',', '='}

  function PrintToken(t: Token): string {
    if t.quoted then QuoteIdentifier(t.text) else if t.literal then StringLiteral(t.text) else t.text
  }

  predicate IsMark(t: Token) {
    !t.quoted && !t.literal && t.text in PUNCTUATION
  }

  /** A blank between two tokens, except around punctuation. */
  function PrintTokens(ts: seq<Token>): string {
    if ts == [] then ""
    else PrintToken(ts[0]) + Gap(ts) + PrintTokens(ts[1..])
  }

  lemma {:induction false} WordLengthIs(w: string, rest: string)
    requires forall c :: c in w ==> c !in DELIMITERS
    requires rest == "" || rest[0] in DELIMITERS
    ensures WordLength(w + rest) == |w|
    decreases |w|
  {
    if w == "" {
      assert w + rest == rest;
    } else {
      assert w[0] in w && (w + rest)[1..] == w[1..] + rest;
      WordLengthIs(w[1..], rest);
    }
  }

  lemma LexemeOfToken(t: Token, rest: string)
    requires IsToken(t)
    requires rest == "" || IsMark(t) || rest[0] == ' ' || [rest[0]] in PUNCTUATION
    ensures PrintToken(t) != "" && FirstLexeme(PrintToken(t) + rest) == Emit(t, |PrintToken(t)|)
  {
    if t.quoted {
      LexemeOfQuoted(t.text, '"', rest);
    } else if t.literal {
      LexemeOfQuoted(t.text, '\'', rest);
    } else if t.text in PUNCTUATION {
      assert (t.text + rest)[..1] == t.text;
    } else {
      assert t.text[0] in t.text;
      if rest != "" && [rest[0]] in PUNCTUATION {
        assert [rest[0]][0] in {'.', '(', ')', ',', '='};
      }
      WordLengthIs(t.text, rest);
      assert (t.text + rest)[..|t.text|] == t.text;
    }
  }

  function Gap(ts: seq<Token>): string
    requires ts != []
  {
    if IsMark(ts[0]) || |ts| == 1 || IsMark(ts[1]) then "" else " "
  }

  lemma TokensBehind(text: string, t: Token, gap: string, rest: string)
    requires text != "" && FirstLexeme(text + (gap + rest)) == Emit(t, |text|)
    requires gap == "" || gap == " "
    ensures Tokens(text + (gap + rest)) == [t] + Tokens(rest)
  {
    var s := text + (gap + rest);
    assert s[|text|..] == gap + rest;
    if gap == "" {
      assert gap + rest == rest;
    } else {
      assert (gap + rest)[1..] == rest && FirstLexeme(gap + rest) == Skip;
    }
  }

  /** The tokenizer undoes printing: any tokens come back, with nothing between them
      where punctuation parts them. */
  lemma {:induction false} TokensOfPrint(ts: seq<Token>)
    requires forall i :: 0 <= i < |ts| ==> IsToken(ts[i])
    ensures Tokens(PrintTokens(ts)) == ts
    decreases |ts|
  {
    hide IsToken, PrintToken, FirstLexeme, IsMark, Tokens, PrintTokens, Gap;
    PrintUnfolds(ts);
    if ts != [] {
      TokensOfPrint(ts[1..]);
      AfterGap(ts);
      GapIsBlank(ts);
      LexemeOfToken(ts[0], Gap(ts) + PrintTokens(ts[1..]));
      TokensBehind(PrintToken(ts[0]), ts[0], Gap(ts), PrintTokens(ts[1..]));
      assert [ts[0]] + ts[1..] == ts;
    }
  }

  lemma PrintUnfolds(ts: seq<Token>)
    ensures ts == [] ==> Tokens(PrintTokens(ts)) == []
    ensures ts != [] ==> PrintTokens(ts) == PrintToken(ts[0]) + (Gap(ts) + PrintTokens(ts[1..]))
  {
    hide PrintToken, Gap;
  }

  lemma GapIsBlank(ts: seq<Token>)
    requires ts != []
    ensures Gap(ts) == "" || Gap(ts) == " "
  {
  }

  lemma AfterGap(ts: seq<Token>)
    requires ts != []
    ensures var rest := Gap(ts) + PrintTokens(ts[1..]);
            rest == "" || IsMark(ts[0]) || rest[0] == ' ' || [rest[0]] in PUNCTUATION
  {
    hide PrintToken, IsMark;
    PrintStarts(ts[1..]);
    assert Gap(ts) == "" ==> Gap(ts) + PrintTokens(ts[1..]) == PrintTokens(ts[1..]);
  }

  lemma PrintStarts(ts: seq<Token>)
    ensures ts == [] ==> PrintTokens(ts) == ""
    ensures ts != [] && IsMark(ts[0]) ==> PrintTokens(ts) != "" && [PrintTokens(ts)[0]] in PUNCTUATION
  {
    if ts != [] && IsMark(ts[0]) {
      assert |ts[0].text| == 1 && ts[0].text == [ts[0].text[0]];
      assert PrintTokens(ts)[0] == ts[0].text[0];
    }
  }

  /** The tokens of a qualified name: its parts, with dots between them. */
  function Dotted(parts: seq<string>): seq<Token> {
    if parts == [] then []
    else if |parts| == 1 then [Token(parts[0], true, false)]
    else [Token(parts[0], true, false), Token(".", false, false)] + Dotted(parts[1..])
  }

  lemma {:induction false} PrintOfDotted(parts: seq<string>)
    ensures PrintTokens(Dotted(parts)) == QuoteQualifiedIdentifier(parts)
    ensures forall i :: 0 <= i < |Dotted(parts)| ==> IsToken(Dotted(parts)[i])
    ensures parts != [] ==> Dotted(parts) != [] && Dotted(parts)[0] == Token(parts[0], true, false)
    decreases |parts|
  {
    if |parts| == 1 {
      PrintOne(parts[0]);
    } else if |parts| > 1 {
      PrintOfDotted(parts[1..]);
      PrintDotBehind(parts[0], Dotted(parts[1..]));
    }
  }

  lemma PrintOne(name: string)
    ensures PrintTokens([Token(name, true, false)]) == QuoteIdentifier(name)
  {
    var t := Token(name, true, false);
    assert [t][1..] == [];
    assert PrintToken(t) + "" + "" == PrintToken(t);
  }

  lemma NoGapAtDot(name: string, more: seq<Token>)
    ensures Gap([Token(".", false, false)] + more) == ""
    ensures Gap([Token(name, true, false)] + ([Token(".", false, false)] + more)) == ""
  {
  }

  lemma PrintDotBehind(name: string, more: seq<Token>)
    ensures PrintTokens([Token(name, true, false), Token(".", false, false)] + more) ==
            QuoteIdentifier(name) + "." + PrintTokens(more)
  {
    hide QuoteIdentifier, PrintTokens, Gap, Tokens;
    var dot := [Token(".", false, false)] + more;
    var all := [Token(name, true, false)] + dot;
    assert [Token(name, true, false), Token(".", false, false)] + more == all;
    assert all[1..] == dot && dot[1..] == more;
    PrintUnfolds(all);
    PrintUnfolds(dot);
    NoGapAtDot(name, more);
    assert PrintTokens(dot) == "." + ("" + PrintTokens(more));
    assert PrintTokens(all) == QuoteIdentifier(name) + ("" + PrintTokens(dot));
  }

  /** A printed qualified name is read back part by part. */
  lemma TokensOfQualified(parts: seq<string>)
    ensures Tokens(QuoteQualifiedIdentifier(parts)) == Dotted(parts)
  {
    PrintOfDotted(parts);
    TokensOfPrint(Dotted(parts));
  }

  predicate IsWord(w: string) {
    w != "" && forall i :: 0 <= i < |w| ==> 'A' <= w[i] <= 'Z'
  }

  lemma WordIsToken(w: string)
    requires IsWord(w)
    ensures IsToken(Token(w, false, false))
  {
    forall c | c in w ensures c !in DELIMITERS {
      assert 'A' <= c <= 'Z';
    }
  }

  lemma TokensOfWord(w: string, rest: string)
    requires IsWord(w)
    ensures Tokens(w + " " + rest) == [Token(w, false, false)] + Tokens(rest)
  {
    hide IsToken, FirstLexeme, DELIMITERS, PUNCTUATION;
    var t := Token(w, false, false);
    WordIsToken(w);
    LexemeOfToken(t, " " + rest);
    TokensBehind(w, t, " ", rest);
    assert w + " " + rest == w + (" " + rest);
  }

  /** Keywords, each followed by a blank. */
  function Spaced(words: seq<string>): string {
    if words == [] then "" else words[0] + " " + Spaced(words[1..])
  }

  function Bare(words: seq<string>): seq<Token> {
    seq(|words|, i requires 0 <= i < |words| => Token(words[i], false, false))
  }

  lemma BareCons(words: seq<string>, rest: seq<Token>)
    requires words != []
    ensures Bare(words) + rest == [Token(words[0], false, false)] + (Bare(words[1..]) + rest)
  {
  }

  lemma {:induction false} TokensOfWords(words: seq<string>, rest: string)
    requires forall i :: 0 <= i < |words| ==> IsWord(words[i])
    ensures Tokens(Spaced(words) + rest) == Bare(words) + Tokens(rest)
    decreases |words|
  {
    if words == [] {
      assert Spaced(words) + rest == rest;
    } else {
      var tail := Spaced(words[1..]) + rest;
      assert Spaced(words) + rest == words[0] + " " + tail;
      TokensOfWord(words[0], tail);
      TokensOfWords(words[1..], rest);
      BareCons(words, Tokens(rest));
    }
  }

  lemma QualifiedStartsWithFirst(parts: seq<string>, rest: string)
    requires parts != [] && (rest == "" || rest[0] != '"')
    ensures Tokens(QuoteQualifiedIdentifier(parts) + rest) != []
    ensures Tokens(QuoteQualifiedIdentifier(parts) + rest)[0] == Token(parts[0], true, false)
  {
    if |parts| == 1 {
      TokensOfQuoted(parts[0], '"', rest);
    } else {
      var more := "." + QuoteQualifiedIdentifier(parts[1..]) + rest;
      Regroup(QuoteIdentifier(parts[0]), ".", QuoteQualifiedIdentifier(parts[1..]), rest);
      assert more[0] == '.';
      TokensOfQuoted(parts[0], '"', more);
    }
  }

  // ---------------------------------------------------------------------
  // The printed statement is clean
  // ---------------------------------------------------------------------

  predicate PlainRest(rest: string) {
    IsPlain(rest) && (rest == "" || rest[0] != '"')
  }

  predicate CleanSuffix(rest: string) {
    Clean(AT_START, rest) && (rest == "" || rest[0] != '"')
  }

  lemma {:induction false} CleanWord(before: Context, w: string, rest: string)
    requires forall i :: 0 <= i < |w| ==> 'A' <= w[i] <= 'Z' || w[i] == ' '
    requires Clean(before.After(w), rest)
    ensures Clean(before, w + rest)
    decreases |w|
  {
    if w == "" {
      assert w + rest == rest;
    } else {
      assert (w + rest)[..1] == w[..1] && (w + rest)[1..] == w[1..] + rest;
      assert Next(before, w + rest) == Keep(1);
      assert w[..1] + w[1..] == w;
      AfterConcat(before, w[..1], w[1..]);
      CleanWord(before.After(w[..1]), w[1..], rest);
    }
  }

  lemma CleanQuoted(before: Context, name: string, rest: string)
    requires CleanSuffix(rest)
    ensures Clean(before, QuoteIdentifier(name) + rest)
  {
    var q := QuoteIdentifier(name);
    var s := q + rest;
    assert s[1..] == Double(name, '"') + ['"'] + rest;
    QuotedTailOfDouble(name, '"', rest);
    assert s[..|q|] == q && s[|q|..] == rest;
    CleanWithout(before.After(q), AT_START, rest);
  }

  lemma {:induction false} CleanQualified(before: Context, parts: seq<string>, rest: string)
    requires parts != [] && CleanSuffix(rest)
    ensures Clean(before, QuoteQualifiedIdentifier(parts) + rest)
    decreases |parts|
  {
    if |parts| == 1 {
      CleanQuoted(before, parts[0], rest);
    } else {
      var more := QuoteQualifiedIdentifier(parts[1..]) + rest;
      CleanQualified(AT_START.After("."), parts[1..], rest);
      CleanQuoted(before, parts[0], "." + more);
      Regroup(QuoteIdentifier(parts[0]), ".", QuoteQualifiedIdentifier(parts[1..]), rest);
    }
  }

  lemma {:induction false} SpacedRunes(words: seq<string>)
    requires forall i :: 0 <= i < |words| ==> IsWord(words[i])
    ensures forall i :: 0 <= i < |Spaced(words)| ==> 'A' <= Spaced(words)[i] <= 'Z' || Spaced(words)[i] == ' '
  {
    if words != [] { SpacedRunes(words[1..]); }
  }

  // ---------------------------------------------------------------------
  // The DDL round trip
  // ---------------------------------------------------------------------

  datatype Ddl =
    | Drop(kind: string, ifExists: bool)
    | Create(kind: string, orReplace: bool, ifNotExists: bool)
    | Alter(kind: string)
  {
    function Words(): seq<string> {
      match this
      case Drop(kind, ifExists) => ["DROP", kind] + if ifExists then ["IF", "EXISTS"] else []
      case Create(kind, orReplace, ifNotExists) =>
        ["CREATE"] + (if orReplace then ["OR", "REPLACE"] else []) + [kind] +
        if ifNotExists then ["IF", "NOT", "EXISTS"] else []
      case Alter(kind) => ["ALTER", kind]
    }

    function Text(parts: seq<string>, rest: string): string {
      Spaced(Words()) + (QuoteQualifiedIdentifier(parts) + rest)
    }
  }

  lemma UpperOfWord(w: string)
    requires IsWord(w)
    ensures Upper(w) == w
  {
  }

  lemma KindIsWord(kind: string)
    requires kind in OBJECT_KINDS
    ensures IsWord(kind)
  {
  }

  lemma KindsAreWords(ddl: Ddl)
    requires ddl.kind in OBJECT_KINDS
    ensures forall i :: 0 <= i < |ddl.Words()| ==> IsWord(ddl.Words()[i])
  {
    KindIsWord(ddl.kind);
    assert IsWord("DROP") && IsWord("CREATE") && IsWord("ALTER");
    assert IsWord("IF") && IsWord("NOT") && IsWord("EXISTS") && IsWord("OR") && IsWord("REPLACE");
  }

  lemma EqualFoldWords(v: string, w: string)
    requires IsWord(v) && IsWord(w)
    ensures EqualFold(v, w) <==> v == w
  {
    if EqualFold(v, w) {
      assert |Fold(v)| == |Fold(w)|;
      forall i | 0 <= i < |v| ensures v[i] == w[i] {
        assert Fold(v)[i] == Fold(w)[i];
      }
    }
  }

  /** A token stream that starts with these words and goes on with a quoted
      name. */
  predicate Leads(tokens: seq<Token>, words: seq<string>) {
    && |tokens| > |words|
    && (forall i :: 0 <= i < |words| ==> tokens[i] == Token(words[i], false, false))
    && tokens[|words|].quoted && !tokens[|words|].literal
  }

  lemma KeywordOfWord(tokens: seq<Token>, words: seq<string>, i: nat, want: string)
    requires Leads(tokens, words) && i <= |words| && IsWord(want)
    requires i < |words| ==> IsWord(words[i])
    ensures Keyword(tokens, i, want) <==> i < |words| && words[i] == want
  {
    if i < |words| { EqualFoldWords(words[i], want); }
  }

  lemma TargetOfDrop(ddl: Ddl, tokens: seq<Token>)
    requires ddl.Drop? && ddl.kind in OBJECT_KINDS && Leads(tokens, ddl.Words())
    ensures FindTarget(tokens) == Identifier(tokens, |ddl.Words()|)
  {
    var words := ddl.Words();
    KindsAreWords(ddl);
    UpperOfWord(words[0]);
    UpperOfWord(words[1]);
    KeywordOfWord(tokens, words, 2, "IF");
    if ddl.ifExists { KeywordOfWord(tokens, words, 3, "EXISTS"); }
  }

  lemma TargetOfCreate(ddl: Ddl, tokens: seq<Token>)
    requires ddl.Create? && ddl.kind in OBJECT_KINDS && Leads(tokens, ddl.Words())
    ensures FindTarget(tokens) == Identifier(tokens, |ddl.Words()|)
  {
    var words := ddl.Words();
    var k := if ddl.orReplace then 3 else 1;
    assert words[k] == ddl.kind;
    KindsAreWords(ddl);
    UpperOfWord(words[0]);
    UpperOfWord(words[k]);
    assert ddl.kind != "OR";
    KeywordOfWord(tokens, words, 1, "OR");
    KeywordOfWord(tokens, words, 2, "REPLACE");
    KeywordOfWord(tokens, words, k + 1, "IF");
    if ddl.ifNotExists {
      KeywordOfWord(tokens, words, k + 2, "NOT");
      KeywordOfWord(tokens, words, k + 3, "EXISTS");
    }
  }

  lemma TargetOfAlter(ddl: Ddl, tokens: seq<Token>)
    requires ddl.Alter? && ddl.kind in OBJECT_KINDS && Leads(tokens, ddl.Words())
    ensures FindTarget(tokens) == Identifier(tokens, |ddl.Words()|)
  {
    var words := ddl.Words();
    KindsAreWords(ddl);
    UpperOfWord(words[0]);
    UpperOfWord(words[1]);
    assert ddl.kind != "SNAPSHOT";
    KeywordOfWord(tokens, words, 1, "SNAPSHOT");
  }

  /** The keywords lead `FindTarget` to the token after them. */
  lemma TargetAfterWords(ddl: Ddl, tokens: seq<Token>)
    requires ddl.kind in OBJECT_KINDS
    requires Leads(tokens, ddl.Words())
    ensures FindTarget(tokens) == Named(tokens[|ddl.Words()|].text)
  {
    match ddl
    case Drop(_, _) => TargetOfDrop(ddl, tokens);
    case Create(_, _, _) => TargetOfCreate(ddl, tokens);
    case Alter(_) => TargetOfAlter(ddl, tokens);
  }

  lemma QualifiedIsTrimmed(ddl: Ddl, parts: seq<string>)
    requires ddl.kind in OBJECT_KINDS && parts != []
    ensures ddl.Text(parts, "") != "" && Trimmed(ddl.Text(parts, ""))
  {
    QualifiedEndsInQuote(parts);
    var s := ddl.Text(parts, "");
    var name := QuoteQualifiedIdentifier(parts);
    assert name + "" == name;
    assert s[|s| - 1] == name[|name| - 1];
    assert ddl.Words()[0][0] == Spaced(ddl.Words())[0] == s[0];
  }

  lemma {:induction false} QualifiedEndsInQuote(parts: seq<string>)
    requires parts != []
    ensures QuoteQualifiedIdentifier(parts) != ""
    ensures QuoteQualifiedIdentifier(parts)[|QuoteQualifiedIdentifier(parts)| - 1] == '"'
  {
    if |parts| > 1 { QualifiedEndsInQuote(parts[1..]); }
  }

  lemma PrintedDdlIsOneStatement(ddl: Ddl, parts: seq<string>, rest: string)
    requires ddl.kind in OBJECT_KINDS && parts != []
    requires PlainRest(rest)
    ensures Split(ddl.Text(parts, rest)) == Success([ddl.Text(parts, TrimRight(rest))])
  {
    var whole, head := ddl.Text(parts, rest), ddl.Text(parts, "");
    KindsAreWords(ddl);
    SpacedRunes(ddl.Words());
    CleanIsPlain(rest);
    CleanQualified(AT_START.After(Spaced(ddl.Words())), parts, rest);
    CleanWord(AT_START, Spaced(ddl.Words()), QuoteQualifiedIdentifier(parts) + rest);
    CleanScansToItself(AT_START, whole);
    QualifiedIsTrimmed(ddl, parts);
    TextAppends(ddl, parts, rest);
    TextAppends(ddl, parts, TrimRight(rest));
    TrimAppend(head, rest);
    assert [whole] + [] == [whole];
    assert TrimAll([whole]) == [Trim(whole)];
  }

  lemma TextAppends(ddl: Ddl, parts: seq<string>, rest: string)
    ensures ddl.Text(parts, rest) == ddl.Text(parts, "") + rest
  {
    assert QuoteQualifiedIdentifier(parts) + "" == QuoteQualifiedIdentifier(parts);
  }

  lemma TargetOfText(ddl: Ddl, parts: seq<string>, rest: string)
    requires ddl.kind in OBJECT_KINDS && parts != []
    requires rest == "" || rest[0] != '"'
    ensures Tokens(ddl.Text(parts, rest)) != []
    ensures FindTarget(Tokens(ddl.Text(parts, rest))) == Named(parts[0])
  {
    var words, name := ddl.Words(), QuoteQualifiedIdentifier(parts) + rest;
    KindsAreWords(ddl);
    TokensOfWords(words, name);
    QualifiedStartsWithFirst(parts, rest);
    var tokens := Tokens(ddl.Text(parts, rest));
    assert tokens == Bare(words) + Tokens(name);
    assert tokens[|words|] == Token(parts[0], true, false);
    TargetAfterWords(ddl, tokens);
  }

  /** A printed DDL statement is one statement, whatever its names hold, and its
      target is the first part of its name. */
  lemma TargetOfPrintedDdl(ddl: Ddl, parts: seq<string>, rest: string)
    requires ddl.kind in OBJECT_KINDS && parts != []
    requires PlainRest(rest)
    ensures Split(ddl.Text(parts, rest)).Success? && |Split(ddl.Text(parts, rest)).value| == 1
    ensures var tokens := Tokens(Split(ddl.Text(parts, rest)).value[0]);
            tokens != [] && FindTarget(tokens) == Named(parts[0])
  {
    PrintedDdlIsOneStatement(ddl, parts, rest);
    TrimRightShape(rest);
    TargetOfText(ddl, parts, TrimRight(rest));
  }
}
