/** `formatInterval` of internal/client/sql/client.go and `intervalDays` of
    internal/resources/database_resource.go. */
module Interval {
  import opened MachineInt
  import opened Text
  import opened Wrappers
  import opened Tf

  const TWO_TO_31 := 0x8000_0000

  /** Months and days are int32, microseconds int64. */
  datatype Interval = Interval(months: int, days: int, micros: int)
  {
    predicate InRange() {
      && -TWO_TO_31 <= months < TWO_TO_31
      && -TWO_TO_31 <= days < TWO_TO_31
      && IsInt64(micros)
    }
  }

  function Abs(x: int): nat {
    if x < 0 then -x else x
  }

  // ---------------------------------------------------------------------
  // Decimal text
  // ---------------------------------------------------------------------

  function Digit(d: nat): char
    requires d < 10
  {
    '0' + d as char
  }

  function Digits(n: nat): (s: string)
    ensures s != ""
  {
    if n < 10 then [Digit(n)] else Digits(n / 10) + [Digit(n % 10)]
  }

  /** `%d` */
  function Decimal(n: int): string {
    if n < 0 then "-" + Digits(-n) else Digits(n)
  }

  /** `%0<width>d` */
  function Padded(n: nat, width: nat): string {
    var s := Digits(n);
    if |s| >= width then s else Zeros(width - |s|) + s
  }

  function Zeros(n: nat): (s: string)
    ensures |s| == n && forall i :: 0 <= i < n ==> s[i] == '0'
  {
    seq(n, _ => '0')
  }

  /** `strings.TrimRight(s, "0")` */
  function TrimZeros(s: string): string {
    if s != "" && s[|s| - 1] == '0' then TrimZeros(s[..|s| - 1]) else s
  }

  predicate AllDigits(s: string) {
    forall i :: 0 <= i < |s| ==> '0' <= s[i] <= '9'
  }

  function ReadNat(s: string): nat
    requires AllDigits(s)
  {
    if s == "" then 0 else ReadNat(s[..|s| - 1]) * 10 + (s[|s| - 1] - '0') as nat
  }

  lemma {:induction false} ReadDigits(n: nat)
    ensures AllDigits(Digits(n)) && ReadNat(Digits(n)) == n
    ensures n > 0 ==> Digits(n)[0] != '0'
  {
    if n >= 10 {
      ReadDigits(n / 10);
      var s := Digits(n);
      assert s[..|s| - 1] == Digits(n / 10);
    } else {
      assert Digits(n)[..0] == "";
    }
  }

  lemma {:induction false} ReadZeros(k: nat, s: string)
    requires AllDigits(s)
    ensures AllDigits(Zeros(k) + s) && ReadNat(Zeros(k) + s) == ReadNat(s)
    decreases |s|, k
  {
    var t := Zeros(k) + s;
    if s == "" {
      assert t == Zeros(k);
      if k > 0 {
        assert t[..k - 1] == Zeros(k - 1) == Zeros(k - 1) + "";
        ReadZeros(k - 1, "");
      }
    } else {
      assert t[..|t| - 1] == Zeros(k) + s[..|s| - 1];
      ReadZeros(k, s[..|s| - 1]);
    }
  }

  lemma ReadPadded(n: nat, width: nat)
    ensures AllDigits(Padded(n, width)) && ReadNat(Padded(n, width)) == n
  {
    ReadDigits(n);
    if |Digits(n)| < width { ReadZeros(width - |Digits(n)|, Digits(n)); }
  }

  lemma {:induction false} DigitsLength(n: nat, width: nat, bound: nat)
    requires n < bound && bound == Power10(width) && width > 0
    ensures |Digits(n)| <= width
    decreases width
  {
    if n >= 10 {
      assert width > 1;
      DigitsLength(n / 10, width - 1, Power10(width - 1));
    }
  }

  function Power10(k: nat): nat {
    if k == 0 then 1 else 10 * Power10(k - 1)
  }

  lemma PaddedLength(n: nat, width: nat)
    requires n < Power10(width) && width > 0
    ensures |Padded(n, width)| == width
  {
    DigitsLength(n, width, Power10(width));
  }

  // ---------------------------------------------------------------------
  // What an interval prints as
  // ---------------------------------------------------------------------

  /** The clock part: `[-]hh:mm:ss[.ffffff]`, without trailing zeros. */
  function ClockText(micros: int): string {
    (if micros < 0 then "-" else "") + MagnitudeText(Abs(micros))
  }

  function MagnitudeText(m: nat): string {
    Padded(m / 3_600_000_000, 2) +
    (":" + (Padded(m / 60_000_000 % 60, 2) +
    (":" + (Padded(m / 1_000_000 % 60, 2) + FractionText(m % 1_000_000)))))
  }

  function FractionText(f: nat): string {
    if f == 0 then "" else "." + TrimZeros(Padded(f, 6))
  }

  datatype UnitName = Year | Month | Day
  {
    function Word(): string {
      match this case Year => "year" case Month => "month" case Day => "day"
    }
  }

  function UnitText(n: int, unit: string): seq<string> {
    if n == 0 then [] else [Decimal(n), if n == 1 || n == -1 then unit else unit + "s"]
  }

  function Years(months: int): int {
    if months < 0 then -(-months / 12) else months / 12
  }

  function MonthsOfYear(months: int): int {
    if months < 0 then -(-months % 12) else months % 12
  }

  /** The words of the text. */
  function Words(v: Interval): seq<string> {
    UnitText(Years(v.months), Year.Word()) + UnitText(MonthsOfYear(v.months), Month.Word()) +
    UnitText(v.days, Day.Word()) +
    if v.micros == 0 then [] else [ClockText(v.micros)]
  }

  function Join(words: seq<string>): string {
    if words == [] then "" else if |words| == 1 then words[0] else words[0] + (" " + Join(words[1..]))
  }

  function Format(v: Interval): string {
    if Words(v) == [] then "00:00:00" else Join(Words(v))
  }

  lemma UnitPrints(v: Interval, n: int, unit: string)
    requires n != 0 && Words(v) == UnitText(n, unit)
    ensures Format(v) == Decimal(n) + (" " + if n in {1, -1} then unit else unit + "s")
  {
    hide Words, Decimal;
    var name := if n in {1, -1} then unit else unit + "s";
    assert [Decimal(n), name][1..] == [name];
    assert Join([name]) == name;
  }

  lemma WordsOfOneUnit(n: int)
    requires n != 0
    ensures Words(Interval(0, n, 0)) == UnitText(n, "day")
    ensures Words(Interval(12 * n, 0, 0)) == UnitText(n, "year")
    ensures -12 < n < 12 ==> Words(Interval(n, 0, 0)) == UnitText(n, "month")
  {
    hide UnitText;
    assert UnitText(0, "year") == UnitText(0, "month") == UnitText(0, "day") == [] by { ZeroUnits(); }
    YearsAlone(n);
  }

  lemma ZeroUnits()
    ensures forall unit :: UnitText(0, unit) == []
  {
  }

  lemma YearsAlone(n: int)
    ensures Years(12 * n) == n && MonthsOfYear(12 * n) == 0
    ensures -12 < n < 12 ==> Years(n) == 0 && MonthsOfYear(n) == n
  {
  }

  /** How one unit prints: its number and its name, in the plural but for one and minus
      one. */
  lemma UnitsPrintAs(n: int)
    requires n != 0
    ensures Format(Interval(0, n, 0)) == Decimal(n) + if n in {1, -1} then " day" else " days"
    ensures Format(Interval(12 * n, 0, 0)) == Decimal(n) + if n in {1, -1} then " year" else " years"
    ensures -12 < n < 12 ==> Format(Interval(n, 0, 0)) == Decimal(n) + if n in {1, -1} then " month" else " months"
  {
    hide Decimal, Format, Words, UnitText;
    WordsOfOneUnit(n);
    UnitPrints(Interval(0, n, 0), n, "day");
    UnitPrints(Interval(12 * n, 0, 0), n, "year");
    if -12 < n < 12 {
      UnitPrints(Interval(n, 0, 0), n, "month");
    }
  }

  lemma {:induction false} JoinOfConcat(a: seq<string>, b: seq<string>)
    requires a != [] && b != []
    ensures Join(a + b) == Join(a) + (" " + Join(b))
    decreases |a|
  {
    if |a| == 1 {
      assert (a + b)[1..] == b;
    } else {
      JoinOfConcat(a[1..], b);
      assert (a + b)[1..] == a[1..] + b;
      var rest := " " + Join(a[1..]);
      assert a[0] + rest + (" " + Join(b)) == a[0] + (rest + (" " + Join(b)));
      assert rest + (" " + Join(b)) == " " + (Join(a[1..]) + (" " + Join(b)));
    }
  }

  lemma FormatOfConcat(whole: Interval, left: Interval, right: Interval)
    requires Words(whole) == Words(left) + Words(right) && Words(left) != [] && Words(right) != []
    ensures Format(whole) == Format(left) + (" " + Format(right))
  {
    hide Words, Join;
    JoinOfConcat(Words(left), Words(right));
  }

  /** Which words each unit gives. */
  lemma WordsOf(months: int, days: int, micros: int)
    ensures Words(Interval(months, days, micros)) == Words(Interval(months, 0, 0)) + Words(Interval(0, days, micros))
    ensures Words(Interval(0, days, micros)) == Words(Interval(0, days, 0)) + Words(Interval(0, 0, micros))
    ensures months != 0 ==> Words(Interval(months, 0, 0)) != []
    ensures days != 0 ==> Words(Interval(0, days, 0)) != []
    ensures micros != 0 ==> Words(Interval(0, 0, micros)) != []
  {
    YearsAndMonths(months);
    YearsAlone(0);
    hide ClockText, Decimal, Years, MonthsOfYear;
  }

  /** The parts of the text stand in the order years, months, days and clock, with a blank
      between them: each law splits off the first part that is there. */
  lemma PartsInOrder(years: int, months: int, days: int, micros: int)
    requires -12 < months < 12 && ((years >= 0 && months >= 0) || (years <= 0 && months <= 0))
    ensures var all := 12 * years + months;
            && (years != 0 && months != 0 ==>
                  Format(Interval(all, 0, 0)) ==
                  Format(Interval(12 * years, 0, 0)) + (" " + Format(Interval(months, 0, 0))))
            && (all != 0 && (days != 0 || micros != 0) ==>
                  Format(Interval(all, days, micros)) ==
                  Format(Interval(all, 0, 0)) + (" " + Format(Interval(0, days, micros))))
    ensures days != 0 && micros != 0 ==>
              Format(Interval(0, days, micros)) ==
              Format(Interval(0, days, 0)) + (" " + Format(Interval(0, 0, micros)))
  {
    hide Words, Format;
    var all := 12 * years + months;
    WordsOf(all, days, micros);
    if years != 0 && months != 0 {
      YearsBeforeMonths(years, months);
      FormatOfConcat(Interval(all, 0, 0), Interval(12 * years, 0, 0), Interval(months, 0, 0));
    }
    if all != 0 && (days != 0 || micros != 0) {
      FormatOfConcat(Interval(all, days, micros), Interval(all, 0, 0), Interval(0, days, micros));
    }
    if days != 0 && micros != 0 {
      FormatOfConcat(Interval(0, days, micros), Interval(0, days, 0), Interval(0, 0, micros));
    }
  }

  lemma YearsBeforeMonths(years: int, months: int)
    requires years != 0 && months != 0 && -12 < months < 12 && (years > 0 <==> months > 0)
    ensures Words(Interval(12 * years + months, 0, 0)) ==
            Words(Interval(12 * years, 0, 0)) + Words(Interval(months, 0, 0))
    ensures Words(Interval(12 * years, 0, 0)) != [] && Words(Interval(months, 0, 0)) != []
  {
    YearsAlone(years);
    YearsAlone(months);
    YearsAndMonths(12 * years + months);
    ZeroUnits();
    assert Years(12 * years + months) == years && MonthsOfYear(12 * years + months) == months;
    hide Decimal, Years, MonthsOfYear;
  }

  lemma {:induction false} TrimZerosEnds(s: string)
    requires AllDigits(s)
    ensures TrimZeros(s) == "" ==> ReadNat(s) == 0
    ensures TrimZeros(s) != "" ==> TrimZeros(s)[|TrimZeros(s)| - 1] != '0'
    ensures TrimZeros(s) <= s
    decreases |s|
  {
    if s != "" && s[|s| - 1] == '0' {
      TrimZerosEnds(s[..|s| - 1]);
    }
  }

  /** The fraction of a second: none if it is zero, and else at most six digits of which
      the last is not a zero. */
  lemma FractionIsShort(f: nat)
    requires f < 1_000_000
    ensures f == 0 ==> FractionText(f) == ""
    ensures f != 0 ==> var t := FractionText(f); 2 <= |t| <= 7 && t[0] == '.' && t[|t| - 1] != '0'
  {
    if f != 0 {
      ReadPadded(f, 6);
      assert Power10(6) == 1_000_000 by { assert Power10(3) == 1_000; }
      PaddedLength(f, 6);
      TrimZerosEnds(Padded(f, 6));
    }
  }

  lemma ClockAlone(micros: int)
    requires micros != 0
    ensures Format(Interval(0, 0, micros)) == ClockText(micros)
  {
    hide ClockText;
    YearsAlone(0);
    ZeroUnits();
    assert Words(Interval(0, 0, micros)) == [ClockText(micros)];
  }

  /** A clock of whole seconds ends in minutes and seconds of two digits each; any other
      ends in a fraction of at most six digits, the last one not a zero. */
  lemma ClockEnds(micros: int)
    requires micros != 0
    ensures var t, f := Format(Interval(0, 0, micros)), Abs(micros) % 1_000_000;
            && (f == 0 ==> |t| >= 8 && t[|t| - 3] == ':' == t[|t| - 6])
            && (f != 0 ==> |t| >= 10 && t[|t| - 1] != '0' && exists i :: |t| - 7 <= i < |t| - 1 && t[i] == '.')
  {
    hide FractionText, Padded, Format, Power10;
    ClockAlone(micros);
    MagnitudeEnds(if micros < 0 then "-" else "", Abs(micros));
  }

  lemma MagnitudeEnds(sign: string, m: nat)
    ensures var t, f := sign + MagnitudeText(m), m % 1_000_000;
            && (f == 0 ==> |t| >= 8 && t[|t| - 3] == ':' == t[|t| - 6])
            && (f != 0 ==> |t| >= 10 && t[|t| - 1] != '0' && exists i :: |t| - 7 <= i < |t| - 1 && t[i] == '.')
  {
    hide FractionText, Padded;
    var h, min, s, f := Padded(m / 3_600_000_000, 2), Padded(m / 60_000_000 % 60, 2),
                        Padded(m / 1_000_000 % 60, 2), FractionText(m % 1_000_000);
    TwoDigits(m / 60_000_000 % 60);
    TwoDigits(m / 1_000_000 % 60);
    PaddedIsLong(m / 3_600_000_000);
    FractionIsShort(m % 1_000_000);
    var t := sign + MagnitudeText(m);
    assert t == (sign + h) + ":" + min + ":" + s + f;
    hide MagnitudeText;
    EndsOfPieces(sign + h, min, s, f);
    if f != "" {
      assert t[|t| - |f|] == '.';
    }
  }

  lemma TwoDigits(n: nat)
    requires n < 60
    ensures |Padded(n, 2)| == 2
  {
    assert Power10(2) == 100;
    PaddedLength(n, 2);
  }

  lemma EndsOfPieces(h: string, min: string, s: string, f: string)
    requires |h| >= 2 && |min| == 2 == |s|
    ensures var t := h + ":" + min + ":" + s + f;
            && (f == "" ==> |t| >= 8 && t[|t| - 3] == ':' == t[|t| - 6])
            && (|f| >= 2 ==> |t| >= 10 && t[|t| - 1] == f[|f| - 1] && t[|t| - |f|] == f[0])
  {
  }

  lemma PaddedIsLong(n: nat)
    ensures |Padded(n, 2)| >= 2
  {
  }

  /** Years and months have the sign of the whole and make it up again. */
  lemma YearsAndMonths(months: int)
    ensures 12 * Years(months) + MonthsOfYear(months) == months
    ensures -12 < MonthsOfYear(months) < 12
    ensures months >= 0 ==> Years(months) >= 0 && MonthsOfYear(months) >= 0
    ensures months <= 0 ==> Years(months) <= 0 && MonthsOfYear(months) <= 0
  {
  }

  /** Hours, minutes, seconds and fraction make up the magnitude again. */
  lemma ClockFields(m: nat)
    ensures m / 60_000_000 % 60 < 60 && m / 1_000_000 % 60 < 60
    ensures ((m / 3_600_000_000 * 60 + m / 60_000_000 % 60) * 60 + m / 1_000_000 % 60) * 1_000_000 + m % 1_000_000 == m
  {
    NestedQuotients(m);
  }

  lemma NestedQuotients(m: nat)
    ensures m / 60_000_000 == m / 1_000_000 / 60
    ensures m / 3_600_000_000 == m / 60_000_000 / 60
  {
  }

  // ---------------------------------------------------------------------
  // The arithmetic of the source
  // ---------------------------------------------------------------------

  /** Go's integer division truncates toward zero. */
  function TruncDiv(a: int, b: int): int
    requires b > 0
  {
    if a < 0 then -(-a / b) else a / b
  }

  function Unit(n: int, name: string): string {
    if n == 1 || n == -1 then Decimal(n) + (" " + name) else Decimal(n) + (" " + (name + "s"))
  }

  /** Negating the smallest int64 wraps back to it, and the conversion of that
      to uint64 is still the magnitude. */
  lemma MagnitudeIsExact(micros: int)
    requires IsInt64(micros)
    ensures (if micros < 0 then ToUint64(WrapInt64(-micros)) else ToUint64(micros)) == Abs(micros)
  {
  }

  method ClockPart(value: int) returns (clock: string)
    requires IsInt64(value) && value != 0
    ensures clock == ClockText(value)
  {
    var sign := "";
    var micros := ToUint64(value);
    if value < 0 {
      sign := "-";
      micros := ToUint64(WrapInt64(-value));
    }
    MagnitudeIsExact(value);
    ghost var m := micros;
    var hours := micros / 3_600_000_000;
    micros := micros - hours * 3_600_000_000;
    var minutes := micros / 60_000_000;
    micros := micros - minutes * 60_000_000;
    var seconds := micros / 1_000_000;
    micros := micros - seconds * 1_000_000;
    RemaindersAreFields(m, hours, minutes, seconds, micros);
    clock := sign + (Padded(hours, 2) + (":" + (Padded(minutes, 2) + (":" + Padded(seconds, 2)))));
    if micros != 0 {
      clock := clock + ("." + TrimZeros(Padded(micros, 6)));
    }
    ClockAssociates(sign, Padded(hours, 2), Padded(minutes, 2), Padded(seconds, 2), FractionText(micros));
    if micros == 0 { assert clock + "" == clock; }
  }

  lemma RemaindersAreFields(m: nat, h: nat, min: nat, s: nat, f: nat)
    requires h == m / 3_600_000_000
    requires min == (m - h * 3_600_000_000) / 60_000_000
    requires s == (m - h * 3_600_000_000 - min * 60_000_000) / 1_000_000
    requires f == m - h * 3_600_000_000 - min * 60_000_000 - s * 1_000_000
    ensures min == m / 60_000_000 % 60 && s == m / 1_000_000 % 60 && f == m % 1_000_000
  {
    NestedQuotients(m);
    assert min == (m - h * 3_600_000_000) / 60_000_000 == m / 60_000_000 - h * 60;
    assert s == (m - (h * 60 + min) * 60_000_000) / 1_000_000 == m / 1_000_000 - (h * 60 + min) * 60;
  }

  lemma ClockAssociates(sign: string, h: string, m: string, s: string, f: string)
    ensures sign + (h + (":" + (m + (":" + s)))) + f == sign + (h + (":" + (m + (":" + (s + f)))))
  {
  }

  method FormatInterval(v: Interval) returns (text: string)
    requires v.InRange()
    ensures text == Format(v)
  {
    hide Join, Unit, ClockText, Words;
    var parts: seq<string> := [];
    if v.months != 0 {
      var years := TruncDiv(v.months, 12);
      var months := v.months - years * 12;
      YearsAndMonths(v.months);
      if years != 0 {
        parts := parts + [Unit(years, "year")];
      }
      if months != 0 {
        parts := parts + [Unit(months, "month")];
      }
    }
    assert parts == UnitParts(Years(v.months), "year") + UnitParts(MonthsOfYear(v.months), "month");
    if v.days != 0 {
      parts := parts + [Unit(v.days, "day")];
    }
    if v.micros != 0 {
      var clock := ClockPart(v.micros);
      parts := parts + [clock];
    }
    PartsJoinLikeWords(v, parts);
    if |parts| == 0 {
      return "00:00:00";
    }
    return Join(parts);
  }

  /** One part for each unit: its two words with a blank between them. */
  function UnitParts(n: int, unit: string): seq<string> {
    if n == 0 then [] else [Unit(n, unit)]
  }

  lemma PartsJoinLikeWords(v: Interval, parts: seq<string>)
    requires parts == UnitParts(Years(v.months), "year") + UnitParts(MonthsOfYear(v.months), "month") +
                      UnitParts(v.days, "day") + if v.micros == 0 then [] else [ClockText(v.micros)]
    ensures Join(parts) == Join(Words(v)) && (parts == [] <==> Words(v) == [])
  {
    hide Join, UnitText, UnitParts, ClockText, Years, MonthsOfYear;
    var clock := if v.micros == 0 then [] else [ClockText(v.micros)];
    var days := UnitText(v.days, Day.Word()) + clock;
    var months := UnitText(MonthsOfYear(v.months), Month.Word()) + days;
    UnitJoins(v.days, "day", clock, clock);
    var dayParts := UnitParts(v.days, "day") + clock;
    UnitJoins(MonthsOfYear(v.months), "month", dayParts, days);
    var monthParts := UnitParts(MonthsOfYear(v.months), "month") + dayParts;
    UnitJoins(Years(v.months), "year", monthParts, months);
    assert parts == UnitParts(Years(v.months), "year") + monthParts;
    assert Words(v) == UnitText(Years(v.months), Year.Word()) + months;
  }

  lemma UnitJoins(n: int, unit: string, parts: seq<string>, words: seq<string>)
    requires Join(parts) == Join(words) && (parts == [] <==> words == [])
    ensures Join(UnitParts(n, unit) + parts) == Join(UnitText(n, unit) + words)
    ensures UnitParts(n, unit) + parts == [] <==> UnitText(n, unit) + words == []
  {
    if n == 0 {
      assert UnitParts(n, unit) + parts == parts && UnitText(n, unit) + words == words;
    } else {
      var number, name := UnitText(n, unit)[0], UnitText(n, unit)[1];
      var ps, ws := UnitParts(n, unit) + parts, UnitText(n, unit) + words;
      assert ps[1..] == parts && ws[1..] == [name] + words && ws[1..][1..] == words;
      assert ps[0] == number + (" " + name);
      if parts != [] {
        assert number + (" " + name) + (" " + Join(parts)) == number + (" " + (name + (" " + Join(words))));
      }
    }
  }

  // ---------------------------------------------------------------------
  // Reading an interval back
  // ---------------------------------------------------------------------

  /** `strings.Fields`: the runs of runes that are not space. */
  function Fields(s: string): seq<string> {
    FieldsFrom("", s)
  }

  function FieldsFrom(word: string, s: string): seq<string>
    decreases |s|
  {
    if s == "" then if word == "" then [] else [word]
    else if !IsSpace(s[0]) then FieldsFrom(word + [s[0]], s[1..])
    else (if word == "" then [] else [word]) + FieldsFrom("", s[1..])
  }

  predicate Solid(word: string) {
    word != "" && forall i :: 0 <= i < |word| ==> !IsSpace(word[i])
  }

  lemma {:induction false} FieldsOfWord(word: string, w: string, rest: string)
    requires forall i :: 0 <= i < |w| ==> !IsSpace(w[i])
    ensures FieldsFrom(word, w + rest) == FieldsFrom(word + w, rest)
    decreases |w|
  {
    if w == "" {
      assert w + rest == rest && word + w == word;
    } else {
      assert (w + rest)[1..] == w[1..] + rest;
      FieldsOfWord(word + [w[0]], w[1..], rest);
      assert word + [w[0]] + w[1..] == word + w;
    }
  }

  lemma {:induction false} FieldsOfJoin(words: seq<string>)
    requires forall i :: 0 <= i < |words| ==> Solid(words[i])
    ensures Fields(Join(words)) == words
    decreases |words|
  {
    if words != [] {
      var w := words[0];
      assert Solid(w) && "" + w == w;
      if |words| == 1 {
        FieldsOfWord("", w, "");
        assert w + "" == w;
      } else {
        var more := " " + Join(words[1..]);
        FieldsOfWord("", w, more);
        FieldsOfJoin(words[1..]);
        assert more[1..] == Join(words[1..]);
      }
    }
  }

  function ReadInt(s: string): Option<int> {
    if s != "" && s[0] == '-' then
      if s[1..] != "" && AllDigits(s[1..]) then Some(0 - ReadNat(s[1..])) else None
    else if s != "" && AllDigits(s) then Some(ReadNat(s)) else None
  }

  lemma ReadDecimal(n: int)
    ensures ReadInt(Decimal(n)) == Some(n)
  {
    ReadDigits(Abs(n));
    if n < 0 { assert Decimal(n)[1..] == Digits(-n); }
  }

  function IndexOfColon(s: string): nat {
    if s == "" || s[0] == ':' then 0 else 1 + IndexOfColon(s[1..])
  }

  function ReadFraction(s: string): Option<nat> {
    if s == "" then Some(0)
    else if s[0] == '.' && |s| <= 7 && AllDigits(s[1..]) then
      Some(ReadNat(s[1..]) * Power10(7 - |s|))
    else None
  }

  /** `[-]h…h:mm:ss[.f…f]` as microseconds. */
  function ReadClock(s: string): Option<int> {
    if s != "" && s[0] == '-' then
      (match ReadMagnitude(s[1..]) case None => None case Some(m) => Some(0 - m))
    else
      (match ReadMagnitude(s) case None => None case Some(m) => Some(0 + m))
  }

  function ReadMagnitude(s: string): Option<nat> {
    var c := IndexOfColon(s);
    if !(|s| >= c + 6 && s[c] == ':' == s[c + 3]) then None
    else if !(AllDigits(s[..c]) && AllDigits(s[c + 1..c + 3]) && AllDigits(s[c + 4..c + 6])) then None
    else
      match ReadFraction(s[c + 6..])
      case None => None
      case Some(f) =>
        Some(((ReadNat(s[..c]) * 60 + ReadNat(s[c + 1..c + 3])) * 60 + ReadNat(s[c + 4..c + 6])) * 1_000_000 + f)
  }

  function UnitOf(word: string): Option<UnitName> {
    if word == "year" || word == "years" then Some(Year)
    else if word == "month" || word == "months" then Some(Month)
    else if word == "day" || word == "days" then Some(Day)
    else None
  }

  function Add(v: Interval, n: int, unit: UnitName): Interval {
    match unit
    case Year => v.(months := v.months + 12 * n)
    case Month => v.(months := v.months + n)
    case Day => v.(days := v.days + n)
  }

  /** Adds up the words from the left. */
  function ReadWords(words: seq<string>, v: Interval): Option<Interval>
    decreases |words|
  {
    if words == [] then Some(v)
    else if |words| == 1 then
      (match ReadClock(words[0]) case None => None case Some(m) => Some(v.(micros := v.micros + m)))
    else
      match ReadInt(words[0])
      case None => None
      case Some(n) =>
        match UnitOf(words[1])
        case None => None
        case Some(unit) => ReadWords(words[2..], Add(v, n, unit))
  }

  function ReadInterval(text: string): Option<Interval> {
    ReadWords(Fields(text), Interval(0, 0, 0))
  }

  // ---------------------------------------------------------------------
  // The clock comes back
  // ---------------------------------------------------------------------

  lemma {:induction false} IndexOfColonAfter(a: string, b: string)
    requires AllDigits(a)
    ensures IndexOfColon(a + (":" + b)) == |a|
    decreases |a|
  {
    var s := a + (":" + b);
    if a != "" {
      assert s[1..] == a[1..] + (":" + b);
      IndexOfColonAfter(a[1..], b);
    }
  }

  lemma {:induction false} ReadTrimmed(s: string)
    requires AllDigits(s)
    ensures TrimZeros(s) <= s && AllDigits(TrimZeros(s))
    ensures ReadNat(TrimZeros(s)) * Power10(|s| - |TrimZeros(s)|) == ReadNat(s)
    decreases |s|
  {
    if s != "" && s[|s| - 1] == '0' {
      var t := s[..|s| - 1];
      ReadTrimmed(t);
      var k := |t| - |TrimZeros(t)|;
      assert Power10(k + 1) == 10 * Power10(k);
      TimesTen(ReadNat(TrimZeros(t)), Power10(k));
    }
  }

  lemma TimesTen(a: nat, p: nat)
    ensures a * (10 * p) == a * p * 10
  {
  }

  lemma ReadFractionText(f: nat)
    requires f < 1_000_000
    ensures ReadFraction(FractionText(f)) == Some(f)
    ensures forall i :: 0 <= i < |FractionText(f)| ==> !IsSpace(FractionText(f)[i])
  {
    if f > 0 {
      assert Power10(6) == 1_000_000;
      PaddedLength(f, 6);
      ReadPadded(f, 6);
      ReadTrimmed(Padded(f, 6));
      var t := TrimZeros(Padded(f, 6));
      assert FractionText(f)[1..] == t;
      assert 7 - |FractionText(f)| == 6 - |t|;
    }
  }

  lemma ClockSlices(h: string, m: string, s: string, f: string)
    requires |m| == 2 && |s| == 2
    ensures var t := h + (":" + (m + (":" + (s + f))));
            && |t| >= |h| + 6 && t[|h|] == ':' == t[|h| + 3]
            && t[..|h|] == h && t[|h| + 1..|h| + 3] == m && t[|h| + 4..|h| + 6] == s && t[|h| + 6..] == f
  {
    var t3 := s + f;
    var t2 := m + (":" + t3);
    var t := h + (":" + t2);
    assert t[|h| + 1..] == t2;
    assert t2[3..] == t3 && t2[..2] == m && t2[2] == ':';
    assert t[|h| + 4..] == t3;
    assert t3[..2] == s && t3[2..] == f;
  }

  lemma ReadMagnitudeOf(h: string, m: string, s: string, f: string, fraction: nat)
    requires AllDigits(h) && AllDigits(m) && AllDigits(s) && |m| == 2 && |s| == 2
    requires ReadFraction(f) == Some(fraction)
    ensures ReadMagnitude(h + (":" + (m + (":" + (s + f))))) ==
            Some(((ReadNat(h) * 60 + ReadNat(m)) * 60 + ReadNat(s)) * 1_000_000 + fraction)
  {
    hide ReadNat, ReadFraction, IndexOfColon, AllDigits;
    IndexOfColonAfter(h, m + (":" + (s + f)));
    ClockSlices(h, m, s, f);
  }

  lemma ReadMagnitudeText(m: nat)
    ensures ReadMagnitude(MagnitudeText(m)) == Some(m)
    ensures Solid(MagnitudeText(m)) && MagnitudeText(m)[0] != '-'
  {
    hide ReadNat, ReadFraction, FractionText, Padded, ReadMagnitude;
    var h, min, s := m / 3_600_000_000, m / 60_000_000 % 60, m / 1_000_000 % 60;
    assert Power10(2) == 100;
    ClockFields(m);
    ReadPadded(h, 2);
    ReadPadded(min, 2);
    PaddedLength(min, 2);
    ReadPadded(s, 2);
    PaddedLength(s, 2);
    ReadFractionText(m % 1_000_000);
    ReadMagnitudeOf(Padded(h, 2), Padded(min, 2), Padded(s, 2), FractionText(m % 1_000_000), m % 1_000_000);
    assert MagnitudeText(m)[0] == (if Padded(h, 2) == "" then ':' else Padded(h, 2)[0]);
  }

  lemma ReadClockText(micros: int)
    ensures ReadClock(ClockText(micros)) == Some(micros)
    ensures Solid(ClockText(micros))
  {
    hide ReadMagnitude, MagnitudeText;
    var body := MagnitudeText(Abs(micros));
    ReadMagnitudeText(Abs(micros));
    assert ("-" + body)[1..] == body && "" + body == body;
  }

  // ---------------------------------------------------------------------
  // Main results about formatting
  // ---------------------------------------------------------------------

  lemma UnitOfWord(unit: UnitName)
    ensures UnitOf(unit.Word()) == Some(unit)
    ensures UnitOf(unit.Word() + "s") == Some(unit)
    ensures Solid(unit.Word()) && Solid(unit.Word() + "s")
  {
    assert "year" + "s" == "years" && "month" + "s" == "months" && "day" + "s" == "days";
  }

  lemma ReadUnit(n: int, unit: UnitName, rest: seq<string>, v: Interval)
    ensures ReadWords(UnitText(n, unit.Word()) + rest, v) == ReadWords(rest, Add(v, n, unit))
  {
    hide UnitOf, ReadInt, Decimal, ReadClock;
    ReadDecimal(n);
    UnitOfWord(unit);
    var words := UnitText(n, unit.Word()) + rest;
    if n == 0 {
      assert words == rest;
    } else {
      assert words[2..] == rest;
    }
  }

  lemma UnitTextIsSolid(n: int, unit: UnitName)
    ensures forall i :: 0 <= i < |UnitText(n, unit.Word())| ==> Solid(UnitText(n, unit.Word())[i])
  {
    ReadDigits(Abs(n));
    UnitOfWord(unit);
    assert Solid(Decimal(n));
  }

  lemma WordsAreSolid(v: Interval)
    ensures forall i :: 0 <= i < |Words(v)| ==> Solid(Words(v)[i])
  {
    hide UnitText, ClockText, Solid;
    ReadClockText(v.micros);
    UnitTextIsSolid(Years(v.months), Year);
    UnitTextIsSolid(MonthsOfYear(v.months), Month);
    UnitTextIsSolid(v.days, Day);
  }

  function ClockWords(micros: int): seq<string> {
    if micros == 0 then [] else [ClockText(micros)]
  }

  lemma WordsInOrder(v: Interval)
    ensures Words(v) ==
            UnitText(Years(v.months), Year.Word()) +
            (UnitText(MonthsOfYear(v.months), Month.Word()) + (UnitText(v.days, Day.Word()) + ClockWords(v.micros)))
  {
    hide ClockText, UnitText, Years, MonthsOfYear, UnitName.Word;
  }

  lemma ReadYearsAndMonths(months: int, rest: seq<string>)
    ensures ReadWords(UnitText(Years(months), Year.Word()) + (UnitText(MonthsOfYear(months), Month.Word()) + rest),
                      Interval(0, 0, 0)) ==
            ReadWords(rest, Interval(months, 0, 0))
  {
    hide ReadWords, UnitText, Years, MonthsOfYear, UnitName.Word;
    var y, mo := Years(months), MonthsOfYear(months);
    YearsAndMonths(months);
    ReadUnit(y, Year, UnitText(mo, Month.Word()) + rest, Interval(0, 0, 0));
    ReadUnit(mo, Month, rest, Interval(12 * y, 0, 0));
  }

  lemma ReadSomeWords(v: Interval)
    ensures ReadWords(Words(v), Interval(0, 0, 0)) == Some(v)
  {
    hide ReadWords, Words, ClockWords, UnitText, Years, MonthsOfYear, UnitName.Word;
    WordsInOrder(v);
    ReadYearsAndMonths(v.months, UnitText(v.days, Day.Word()) + ClockWords(v.micros));
    ReadUnit(v.days, Day, ClockWords(v.micros), Interval(v.months, 0, 0));
    ReadLastWord(v.months, v.days, v.micros);
  }

  lemma ReadLastWord(months: int, days: int, micros: int)
    ensures ReadWords(ClockWords(micros), Interval(months, days, 0)) ==
            Some(Interval(months, days, micros))
  {
    hide ReadClock, ClockText, ReadInt, UnitOf, Solid;
    ReadClockText(micros);
  }

  /** Formatting loses nothing: months, days and microseconds of every interval
      can be read back from its text. */
  lemma FormatIsLossless(v: Interval)
    ensures ReadInterval(Format(v)) == Some(v)
  {
    hide Words, Fields, Join, ReadClock;
    ReadSomeWords(v);
    WordsAreSolid(v);
    FieldsOfJoin(Words(v));
    if Words(v) == [] {
      ReadClockText(0);
      ZeroClock();
      JoinOne("00:00:00");
      FieldsOfJoin(["00:00:00"]);
    }
  }

  lemma ZeroClock()
    ensures ClockText(0) == "00:00:00"
  {
    hide Padded;
    PaddedZero();
    assert "" + ("00" + (":" + ("00" + (":" + ("00" + ""))))) == "00:00:00";
  }

  lemma PaddedZero()
    ensures Padded(0, 2) == "00"
  {
    assert Zeros(1) + "0" == "00";
  }

  // ---------------------------------------------------------------------
  // intervalDays
  // ---------------------------------------------------------------------

  /** fmt.Sscan of a decimal integer into an int64: an optional sign, the digits
      in front, and an error when the value does not fit. */
  function ScanInt64(s: string): Option<int> {
    var negative := s != "" && s[0] == '-';
    var body := if s != "" && (s[0] == '-' || s[0] == '+') then s[1..] else s;
    var digits := LeadingDigits(body);
    var value: int := if negative then 0 - ReadNat(digits) else ReadNat(digits);
    if digits != "" && IsInt64(value) then Some(value) else None
  }

  function LeadingDigits(s: string): (d: string)
    ensures AllDigits(d)
  {
    if s != "" && '0' <= s[0] <= '9' then [s[0]] + LeadingDigits(s[1..]) else ""
  }

  function IntervalDays(value: string): Attr<int> {
    var fields := Fields(value);
    if |fields| >= 2 && HasPrefix(Lower(fields[1]), "day") && ScanInt64(fields[0]).Some? then
      Known(ScanInt64(fields[0]).value)
    else if HasPrefix(value, "00:00:00") then Known(0)
    else Null
  }

  lemma {:induction false} LeadingDigitsOf(s: string)
    requires AllDigits(s)
    ensures LeadingDigits(s) == s
  {
    if s != "" { LeadingDigitsOf(s[1..]); }
  }

  lemma ScanDecimal(n: int)
    requires -TWO_TO_31 <= n < TWO_TO_31
    ensures ScanInt64(Decimal(n)) == Some(n)
  {
    hide Digits, ReadNat, LeadingDigits;
    var digits := Digits(Abs(n));
    ReadDigits(Abs(n));
    LeadingDigitsOf(digits);
    assert '0' <= digits[0] <= '9';
    if n < 0 { assert Decimal(n)[1..] == digits; }
  }

  lemma LowerOfUnit(n: int, unit: UnitName)
    requires n != 0
    ensures HasPrefix(Lower(UnitText(n, unit.Word())[1]), "day") <==> unit.Day?
  {
    var w := UnitText(n, unit.Word())[1];
    assert w[..3] == unit.Word()[..3];
    assert Lower(w)[0] == w[0];
    if unit.Day? {
      assert Lower(w)[..3] == "day";
    } else if HasPrefix(Lower(w), "day") {
      PrefixHead(Lower(w), "day");
    }
  }

  lemma PrefixHead(s: string, p: string)
    requires HasPrefix(s, p) && p != ""
    ensures s != "" && s[0] == p[0]
  {
    assert s[..|p|][0] == s[0];
  }

  lemma NotZeroPrefix(n: int, unit: string, rest: seq<string>)
    requires n != 0
    ensures !HasPrefix(Join(UnitText(n, unit) + rest), "00:00:00")
  {
    var words := UnitText(n, unit) + rest;
    ReadDigits(Abs(n));
    if HasPrefix(Join(words), "00:00:00") {
      PrefixHead(Join(words), "00:00:00");
    }
  }

  /** A clock starts with eight zeros and colons when it shows less than one
      second and is not negative. */
  lemma ClockPrefix(micros: int)
    ensures HasPrefix(ClockText(micros), "00:00:00") <==> 0 <= micros < 1_000_000
  {
    var t := ClockText(micros);
    if micros < 0 {
      assert t[0] == '-';
      if HasPrefix(t, "00:00:00") { PrefixHead(t, "00:00:00"); }
    } else if micros < 1_000_000 {
      ClockOfSubsecond(micros);
    } else if HasPrefix(t, "00:00:00") {
      ClockOfPrefix(micros);
    }
  }

  lemma ClockOfSubsecond(micros: nat)
    requires micros < 1_000_000
    ensures ClockText(micros) == "00:00:00" + FractionText(micros)
  {
    hide Padded, FractionText;
    assert Padded(0, 2) == "00" by { PaddedZero(); }
    assert micros / 3_600_000_000 == micros / 60_000_000 == micros / 1_000_000 == 0 && micros % 1_000_000 == micros;
    ClockAssociates("", "00", "00", "00", FractionText(micros));
    assert "" + ("00" + (":" + ("00" + (":" + "00")))) == "00:00:00";
  }

  lemma ClockOfPrefix(micros: nat)
    requires HasPrefix(ClockText(micros), "00:00:00")
    ensures micros < 1_000_000
  {
    hide ReadMagnitude, MagnitudeText;
    ReadMagnitudeText(micros);
    assert ClockText(micros) == MagnitudeText(micros) by { assert "" + MagnitudeText(micros) == MagnitudeText(micros); }
    MagnitudeOfPrefix(MagnitudeText(micros));
  }

  lemma MagnitudeOfPrefix(t: string)
    requires HasPrefix(t, "00:00:00") && ReadMagnitude(t).Some?
    ensures ReadMagnitude(t).value < 1_000_000
  {
    hide ReadNat, ReadFraction, IndexOfColon, AllDigits;
    var p := t[..8];
    assert p == "00:00:00";
    assert t[..2] == p[..2] == "00" && t[3..5] == p[3..5] == "00" && t[6..8] == p[6..8] == "00" && t[2] == p[2] == ':';
    assert t == "00" + (":" + t[3..]);
    ZeroPair();
    IndexOfColonAfter("00", t[3..]);
    FractionBelowSecond(t[8..]);
  }

  lemma ZeroPair()
    ensures AllDigits("00") && ReadNat("00") == 0
  {
    assert "00"[..1] == "0" && "0"[..0] == "";
  }

  lemma FractionBelowSecond(s: string)
    ensures ReadFraction(s).Some? ==> ReadFraction(s).value < 1_000_000
  {
    if s != "" && ReadFraction(s).Some? {
      var d := s[1..];
      ReadNatBound(d);
      assert Power10(6) == 1_000_000;
      PowerSplit(|d|, 6 - |d|);
      assert ReadNat(d) * Power10(6 - |d|) < Power10(|d|) * Power10(6 - |d|) by {
        Scale(ReadNat(d), Power10(|d|), Power10(6 - |d|));
      }
    }
  }

  lemma Scale(a: nat, b: nat, p: nat)
    requires a < b && p > 0
    ensures a * p < b * p
  {
  }

  lemma PowerStep(k: nat)
    ensures Power10(0) == 1 && Power10(k + 1) == 10 * Power10(k)
  {
  }

  lemma {:induction false} PowerSplit(a: nat, b: nat)
    ensures Power10(a) * Power10(b) == Power10(a + b)
    ensures Power10(b) > 0
    decreases b
  {
    hide Power10;
    if b == 0 {
      PowerStep(0);
    } else {
      PowerSplit(a, b - 1);
      PowerStep(b - 1);
      PowerStep(a + b - 1);
      TimesTen(Power10(a), Power10(b - 1));
    }
  }

  lemma {:induction false} ReadNatBound(s: string)
    requires AllDigits(s)
    ensures ReadNat(s) < Power10(|s|)
    decreases |s|
  {
    if s != "" { ReadNatBound(s[..|s| - 1]); }
  }

  /** What `intervalDays` makes of a formatted interval: the days when there are
      no months before them, zero for less than a second of anything else, and
      null otherwise. */
  lemma IntervalDaysOfFormat(v: Interval)
    requires v.InRange()
    ensures IntervalDays(Format(v)) ==
            if v.months != 0 then Null
            else if v.days != 0 then Known(v.days)
            else if 0 <= v.micros < 1_000_000 then Known(0)
            else Null
  {
    hide IntervalDays, Format, Years, MonthsOfYear, ClockText, UnitText;
    YearsAndMonths(v.months);
    WordsAreSolid(v);
    var clock := if v.micros == 0 then [] else [ClockText(v.micros)];
    var days, months := UnitText(v.days, Day.Word()), UnitText(MonthsOfYear(v.months), Month.Word());
    if Years(v.months) != 0 {
      DaysOfLeadingUnit(v, Years(v.months), Year, months + (days + clock));
    } else if MonthsOfYear(v.months) != 0 {
      NoUnit(Year);
      assert Words(v) == months + (days + clock);
      DaysOfLeadingUnit(v, MonthsOfYear(v.months), Month, days + clock);
    } else {
      assert v.months == 0;
      NoUnit(Year);
      NoUnit(Month);
      assert Words(v) == days + clock;
      if v.days != 0 {
        DaysOfLeadingUnit(v, v.days, Day, clock);
      } else {
        NoUnit(Day);
        assert Words(v) == clock;
        DaysOfClock(v);
      }
    }
  }

  lemma NoUnit(unit: UnitName)
    ensures UnitText(0, unit.Word()) == []
  {
  }

  /** The first unit decides: days give their number, others nothing. */
  lemma DaysOfLeadingUnit(v: Interval, n: int, unit: UnitName, rest: seq<string>)
    requires -TWO_TO_31 <= n < TWO_TO_31 && n != 0
    requires Words(v) == UnitText(n, unit.Word()) + rest
    ensures IntervalDays(Format(v)) == if unit.Day? then Known(n) else Null
  {
    hide Fields, Lower, ScanInt64, Join, Words, Solid;
    WordsAreSolid(v);
    FieldsOfJoin(Words(v));
    LowerOfUnit(n, unit);
    ScanDecimal(n);
    NotZeroPrefix(n, unit.Word(), rest);
  }

  lemma DaysOfClock(v: Interval)
    requires Words(v) == if v.micros == 0 then [] else [ClockText(v.micros)]
    requires forall i :: 0 <= i < |Words(v)| ==> Solid(Words(v)[i])
    ensures IntervalDays(Format(v)) == if 0 <= v.micros < 1_000_000 then Known(0) else Null
  {
    hide Fields, Join, Words, ClockText;
    FieldsOfJoin(Words(v));
    FieldsOfJoin(["00:00:00"]);
    JoinOne("00:00:00");
    JoinOne(ClockText(v.micros));
    ClockPrefix(v.micros);
  }

  lemma JoinOne(w: string)
    ensures Join([w]) == w
  {
  }

  /** It gives the days back on exactly these intervals; among them are all that
      are made of days only. */
  lemma IntervalDaysInverts(v: Interval)
    requires v.InRange()
    ensures IntervalDays(Format(v)) == Known(v.days) <==>
            v.months == 0 && (v.days != 0 || 0 <= v.micros < 1_000_000)
  {
    IntervalDaysOfFormat(v);
  }

  /** Intervals on which it goes wrong either way: days behind months are lost, half a
      second reads as zero days, and hours behind days are dropped. */
  lemma DaysThatDoNotComeBack()
    ensures IntervalDays(Format(Interval(1, 3, 0))) == Null
    ensures IntervalDays(Format(Interval(0, 0, 500_000))) == Known(0)
    ensures IntervalDays(Format(Interval(0, 3, 3_600_000_000))) == Known(3)
  {
    IntervalDaysOfFormat(Interval(1, 3, 0));
    IntervalDaysOfFormat(Interval(0, 0, 500_000));
    IntervalDaysOfFormat(Interval(0, 3, 3_600_000_000));
  }
}
