/** The SQL printers of internal/sqlbuild. */
module SqlBuild {
  import opened Text
  import opened Wrappers

  /** What the scanners keep for the open quote when none is open. */
  const NO_QUOTE: char := '\0'

  /** The quote that is open before position `i`, or NUL. */
  function QuoteBefore(s: string, i: nat): char
    requires i <= |s|
  {
    if i == 0 then NO_QUOTE
    else
      var open, c := QuoteBefore(s, i - 1), s[i - 1];
      if open == NO_QUOTE then if c in {'"', '\''} then c else NO_QUOTE
      else if c == open then NO_QUOTE
      else open
  }

  /** `strings.ReplaceAll(value, q, qq)` */
  function Double(value: string, q: char): (r: string) {
    if value == "" then ""
    else (if value[0] == q then [q, q] else [value[0]]) + Double(value[1..], q)
  }

  /** `strings.ReplaceAll(text, qq, q)`: pairs are taken from the left. */
  function Undouble(text: string, q: char): (r: string) {
    if text == "" then ""
    else if |text| >= 2 && text[0] == q && text[1] == q then [q] + Undouble(text[2..], q)
    else [text[0]] + Undouble(text[1..], q)
  }

  function Quoted(value: string, q: char): string {
    [q] + Double(value, q) + [q]
  }

  function QuoteIdentifier(value: string): string {
    Quoted(value, '"')
  }

  function StringLiteral(value: string): string {
    Quoted(value, '\'')
  }

  /** Joins the quoted parts of a name with dots. */
  function QuoteQualifiedIdentifier(parts: seq<string>): string {
    if parts == [] then ""
    else if |parts| == 1 then QuoteIdentifier(parts[0])
    else QuoteIdentifier(parts[0]) + "." + QuoteQualifiedIdentifier(parts[1..])
  }

  lemma {:induction false} UndoubleDouble(value: string, q: char)
    ensures Undouble(Double(value, q), q) == value
  {
    if value != "" {
      UndoubleDouble(value[1..], q);
      var d := Double(value, q);
      if value[0] == q {
        assert d[2..] == Double(value[1..], q);
      } else {
        assert d[1..] == Double(value[1..], q);
      }
      assert value == [value[0]] + value[1..];
    }
  }

  /** The number of characters a quoted run takes after its opening quote, the
      closing quote included: a doubled quote stays inside, and a run that is
      never closed takes everything. */
  function QuotedTail(s: string, q: char): (n: nat)
    ensures n <= |s|
    ensures s != "" ==> n > 0
  {
    if s == "" then 0
    else if s[0] != q then 1 + QuotedTail(s[1..], q)
    else if |s| > 1 && s[1] == q then 2 + QuotedTail(s[2..], q)
    else 1
  }

  /** Quoting survives the scan: whatever the value holds, the run that the
      opening quote starts ends exactly at the quote that was printed last. */
  lemma {:induction false} QuotedTailOfDouble(value: string, q: char, rest: string)
    requires rest == "" || rest[0] != q
    ensures QuotedTail(Double(value, q) + [q] + rest, q) == |Double(value, q)| + 1
  {
    var t := Double(value, q) + [q] + rest;
    if value == "" {
      assert t == [q] + rest;
    } else {
      QuotedTailOfDouble(value[1..], q, rest);
      if value[0] == q {
        assert t[2..] == Double(value[1..], q) + [q] + rest;
      } else {
        assert t[1..] == Double(value[1..], q) + [q] + rest;
      }
    }
  }

  /** The value of a quoted run, from behind its opening quote, and the text
      behind its closing quote; None when the run is not closed. */
  function ReadQuoted(s: string, q: char): (r: Option<(string, string)>)
    ensures r.Some? ==> |r.value.1| < |s|
  {
    if s == "" then None
    else if s[0] != q then
      (match ReadQuoted(s[1..], q) case None => None case Some(v) => Some(([s[0]] + v.0, v.1)))
    else if |s| > 1 && s[1] == q then
      (match ReadQuoted(s[2..], q) case None => None case Some(v) => Some(([q] + v.0, v.1)))
    else Some(("", s[1..]))
  }

  /** Reading a quoted value undoes printing it. */
  lemma {:induction false} ReadQuotedOfDouble(value: string, q: char, rest: string)
    requires rest == "" || rest[0] != q
    ensures ReadQuoted(Double(value, q) + ([q] + rest), q) == Some((value, rest))
    decreases |value|
  {
    var s := Double(value, q) + ([q] + rest);
    if value == "" {
      assert s[1..] == rest;
    } else {
      ReadQuotedOfDouble(value[1..], q, rest);
      var tail := Double(value[1..], q) + ([q] + rest);
      if value[0] == q {
        assert s[2..] == tail;
      } else {
        assert s[1..] == tail;
      }
      assert [value[0]] + value[1..] == value;
    }
  }

  /** And what was read prints back as the same text. */
  lemma {:induction false} DoubleOfReadQuoted(s: string, q: char)
    requires ReadQuoted(s, q).Some?
    ensures var v := ReadQuoted(s, q).value;
            Double(v.0, q) + ([q] + v.1) == s && (v.1 == "" || v.1[0] != q)
    decreases |s|
  {
    if s[0] != q {
      DoubleOfReadQuoted(s[1..], q);
      var v := ReadQuoted(s[1..], q).value;
      assert ([s[0]] + v.0)[1..] == v.0;
      assert s == [s[0]] + s[1..];
    } else if |s| > 1 && s[1] == q {
      DoubleOfReadQuoted(s[2..], q);
      var v := ReadQuoted(s[2..], q).value;
      assert ([q] + v.0)[1..] == v.0;
      assert s == [q, q] + s[2..];
    }
  }
}
