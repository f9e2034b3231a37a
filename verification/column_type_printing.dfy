/** Type names as DuckDB prints them, and the proof that the parser of
    internal/client/sql/column_type.go reads them back. */
module ColumnTypePrinting {
  import opened Text
  import opened SqlBuild
  import opened Wrappers
  import opened ColumnTypes

  // ---------------------------------------------------------------------
  // Printed type trees
  // ---------------------------------------------------------------------

  /** A type as DuckDB nests them.  `Applied` covers DECIMAL(p,s), VARCHAR(n) and
      the like, whose arguments the parser drops. */
  datatype Tree =
    | Plain(name: string)
    | Applied(name: string, args: string)
    | List(elem: Tree, size: string)
    | MapOf(key: Tree, value: Tree)
    | Members(union: bool, members: seq<Member>)

  /** A member prints its name quoted, or bare where the name allows it. */
  datatype Member = Member(name: string, bare: bool, tree: Tree)

  function Head(union: bool): string {
    if union then "UNION" else "STRUCT"
  }

  function Print(t: Tree): string {
    match t
    case Plain(name) => name
    case Applied(name, args) => name + ("(" + args + ")")
    case List(elem, size) => Print(elem) + ("[" + size + "]")
    case MapOf(key, value) => "MAP" + ("(" + (Print(key) + ", " + Print(value)) + ")")
    case Members(union, members) => Head(union) + ("(" + PrintMembers(members) + ")")
  }

  function PrintMember(m: Member): string {
    (if m.bare then m.name else QuoteIdentifier(m.name)) + (" " + Print(m.tree))
  }

  function PrintMembers(members: seq<Member>): string {
    if members == [] then ""
    else if |members| == 1 then PrintMember(members[0])
    else PrintMember(members[0]) + ", " + PrintMembers(members[1..])
  }

  predicate Inert(c: char) {
    c !in {'"', '(', ')', '[', ']', ','}
  }

  predicate PlainName(name: string) {
    name != "" && Trimmed(name) && forall i :: 0 <= i < |name| ==> Inert(name[i])
  }

  predicate WellFormed(t: Tree) {
    match t
    case Plain(name) => PlainName(name)
    case Applied(name, args) =>
      && PlainName(name)
      && Upper(name) !in {"STRUCT", "UNION", "MAP"}
      && forall i :: 0 <= i < |args| ==> args[i] == ',' || Inert(args[i])
    case List(elem, size) => WellFormed(elem) && forall i :: 0 <= i < |size| ==> Inert(size[i])
    case MapOf(key, value) => WellFormed(key) && WellFormed(value)
    case Members(_, members) =>
      forall i :: 0 <= i < |members| ==> GoodName(members[i]) && WellFormed(members[i].tree)
  }

  /** A quoted name may hold any characters at all. */
  predicate GoodName(m: Member) {
    m.name != "" && (m.bare ==> forall i :: 0 <= i < |m.name| ==> Inert(m.name[i]) && !IsSpace(m.name[i]))
  }

  /** The parsed form of a tree. */
  function Meaning(t: Tree): ColumnType {
    match t
    case Plain(name) => Named(Upper(name))
    case Applied(name, _) => Named(Upper(name))
    case List(elem, _) => Named("LIST").(elem := Some(Meaning(elem)))
    case MapOf(key, value) => Named("MAP").(key := Some(Meaning(key)), value := Some(Meaning(value)))
    case Members(union, members) => Named(Head(union)).(fields := Some(MemberMap(members)))
  }

  function MemberMap(members: seq<Member>): map<string, Option<ColumnType>> {
    if members == [] then map[]
    else
      var last := members[|members| - 1];
      MemberMap(members[..|members| - 1])[last.name := Some(Meaning(last.tree))]
  }

  /** With distinct names every member keeps its own type. */
  lemma {:induction false} MemberMapLookup(members: seq<Member>, i: nat)
    requires i < |members|
    requires forall j :: i < j < |members| ==> members[j].name != members[i].name
    ensures members[i].name in MemberMap(members)
    ensures MemberMap(members)[members[i].name] == Some(Meaning(members[i].tree))
    decreases |members|
  {
    var last := |members| - 1;
    if i < last {
      assert members[..last][i] == members[i];
      MemberMapLookup(members[..last], i);
    }
  }

  // Printed text is solid: it moves the nesting nowhere and shows no comma
  // outside its own brackets.

  predicate Solid(n: Nest, s: string) {
    Quiet(n, s) && Walk(n, s) == n
  }

  lemma SolidAppend(n: Nest, a: string, b: string)
    requires Solid(n, a) && Solid(n, b)
    ensures Solid(n, a + b)
  {
    QuietAppend(n, a, b);
    WalkAppend(n, a, b);
  }

  lemma {:induction false} InertIsSolid(n: Nest, s: string)
    requires !n.quoted
    requires forall i :: 0 <= i < |s| ==> Inert(s[i]) || (n != OUTSIDE && s[i] == ',')
    ensures Solid(n, s)
    decreases |s|
  {
    if s != "" { InertIsSolid(n, s[1..]); }
  }

  lemma {:induction false} NameBodyIsSolid(n: Nest, name: string)
    requires n.quoted
    ensures Quiet(n, Double(name, '"') + "\"") && Walk(n, Double(name, '"') + "\"") == n.(quoted := false)
    decreases |name|
  {
    var s := Double(name, '"') + "\"";
    if name != "" {
      NameBodyIsSolid(n, name[1..]);
      var rest := Double(name[1..], '"') + "\"";
      if name[0] == '"' {
        assert s[1..][0] == '"' && s[1..][1..] == rest;
      } else {
        assert s[1..] == rest;
      }
    }
  }

  lemma QuotedNameIsSolid(n: Nest, name: string)
    requires !n.quoted
    ensures Solid(n, QuoteIdentifier(name))
  {
    NameBodyIsSolid(n.(quoted := true), name);
    assert QuoteIdentifier(name)[1..] == Double(name, '"') + "\"";
  }

  lemma BracketsAreSolid(n: Nest, open: char, inner: string, close: char)
    requires !n.quoted && n.depth >= 0 && open in {'(', '['} && close in {')', ']'}
    requires Solid(n.(depth := n.depth + 1), inner)
    ensures Solid(n, [open] + inner + [close])
  {
    var m := n.(depth := n.depth + 1);
    assert ([open] + inner + [close])[1..] == inner + [close];
    QuietAppend(m, inner, [close]);
    WalkAppend(m, inner, [close]);
  }

  lemma {:induction false} PrintIsSolid(n: Nest, t: Tree)
    requires WellFormed(t) && !n.quoted && n.depth >= 0
    ensures Solid(n, Print(t))
    decreases t
  {
    var m := n.(depth := n.depth + 1);
    match t
    case Plain(name) =>
      InertIsSolid(n, name);
    case Applied(name, args) =>
      InertIsSolid(n, name);
      InertIsSolid(m, args);
      BracketsAreSolid(n, '(', args, ')');
      SolidAppend(n, name, "(" + args + ")");
    case List(elem, size) =>
      PrintIsSolid(n, elem);
      InertIsSolid(m, size);
      BracketsAreSolid(n, '[', size, ']');
      SolidAppend(n, Print(elem), "[" + size + "]");
    case MapOf(key, value) =>
      var inner := Print(key) + ", " + Print(value);
      PrintIsSolid(m, key);
      PrintIsSolid(m, value);
      InertIsSolid(m, ", ");
      SolidAppend(m, Print(key), ", ");
      SolidAppend(m, Print(key) + ", ", Print(value));
      BracketsAreSolid(n, '(', inner, ')');
      InertIsSolid(n, "MAP");
      SolidAppend(n, "MAP", "(" + inner + ")");
    case Members(union, members) =>
      MembersAreSolid(m, members);
      BracketsAreSolid(n, '(', PrintMembers(members), ')');
      InertIsSolid(n, Head(union));
      SolidAppend(n, Head(union), "(" + PrintMembers(members) + ")");
  }

  lemma {:induction false} MemberIsSolid(n: Nest, m: Member)
    requires GoodName(m) && WellFormed(m.tree) && !n.quoted && n.depth >= 0
    ensures Solid(n, PrintMember(m))
    decreases m
  {
    PrintIsSolid(n, m.tree);
    InertIsSolid(n, " ");
    SolidAppend(n, " ", Print(m.tree));
    if m.bare {
      InertIsSolid(n, m.name);
      SolidAppend(n, m.name, " " + Print(m.tree));
    } else {
      QuotedNameIsSolid(n, m.name);
      SolidAppend(n, QuoteIdentifier(m.name), " " + Print(m.tree));
    }
  }

  lemma {:induction false} MembersAreSolid(n: Nest, members: seq<Member>)
    requires forall i :: 0 <= i < |members| ==> GoodName(members[i]) && WellFormed(members[i].tree)
    requires !n.quoted && n.depth >= 1
    ensures Solid(n, PrintMembers(members))
    decreases members
  {
    if members != [] {
      MemberIsSolid(n, members[0]);
      if |members| > 1 {
        MembersAreSolid(n, members[1..]);
        InertIsSolid(n, ", ");
        SolidAppend(n, PrintMember(members[0]), ", ");
        SolidAppend(n, PrintMember(members[0]) + ", ", PrintMembers(members[1..]));
      }
    }
  }

  lemma {:induction false} PrintIsTrimmed(t: Tree)
    requires WellFormed(t)
    ensures Print(t) != "" && Trimmed(Print(t))
    decreases t
  {
    if t.List? { PrintIsTrimmed(t.elem); }
  }

  // ---------------------------------------------------------------------
  // Splitting printed members
  // ---------------------------------------------------------------------

  lemma {:induction false} SplitAfterQuiet(n: Nest, held: string, a: string, rest: string)
    requires Quiet(n, a)
    ensures SplitFrom(n, held, a + rest) == SplitFrom(Walk(n, a), held + a, rest)
    decreases |a|
  {
    if a == "" {
      assert a + rest == rest && held + a == held;
    } else {
      assert (a + rest)[1..] == a[1..] + rest;
      SplitAfterQuiet(Step(n, a[0]), held + [a[0]], a[1..], rest);
      assert held + [a[0]] + a[1..] == held + a;
    }
  }

  lemma SplitAtComma(lead: string, a: string, rest: string)
    requires Solid(OUTSIDE, a)
    ensures SplitFrom(OUTSIDE, lead, a + ("," + rest)) == [lead + a] + SplitFrom(OUTSIDE, "", rest)
  {
    SplitAfterQuiet(OUTSIDE, lead, a, "," + rest);
    assert ("," + rest)[1..] == rest;
  }

  lemma SplitAtEnd(lead: string, a: string)
    requires Solid(OUTSIDE, a)
    ensures SplitFrom(OUTSIDE, lead, a) == [lead + a]
  {
    SplitAfterQuiet(OUTSIDE, lead, a, "");
    assert a + "" == a;
  }

  lemma SplitAfterBlank(s: string)
    ensures SplitFrom(OUTSIDE, "", " " + s) == SplitFrom(OUTSIDE, " ", s)
  {
    assert (" " + s)[1..] == s && "" + [' '] == " ";
  }

  lemma TrimLead(lead: string, s: string)
    requires lead == "" || lead == " "
    requires s != "" && Trimmed(s)
    ensures Trim(lead + s) == s
  {
    if lead == " " {
      assert (lead + s)[1..] == s;
    } else {
      assert lead + s == s;
    }
    TrimOfTrimmed(s);
  }

  lemma MemberIsTrimmed(m: Member)
    requires GoodName(m) && WellFormed(m.tree)
    ensures PrintMember(m) != "" && Trimmed(PrintMember(m))
  {
    PrintIsTrimmed(m.tree);
    var t := Print(m.tree);
    assert PrintMember(m)[|PrintMember(m)| - 1] == t[|t| - 1];
  }

  function MemberTexts(members: seq<Member>): (r: seq<string>)
    ensures |r| == |members| && forall i :: 0 <= i < |r| ==> r[i] == PrintMember(members[i])
  {
    seq(|members|, i requires 0 <= i < |members| => PrintMember(members[i]))
  }

  lemma SplitFirstMember(lead: string, first: string, more: string)
    requires lead == "" || lead == " "
    requires first != "" && Trimmed(first) && Solid(OUTSIDE, first)
    ensures TrimEach(SplitFrom(OUTSIDE, lead, first + ", " + more)) ==
            [first] + TrimEach(SplitFrom(OUTSIDE, " ", more))
  {
    hide SplitFrom, TrimEach, Trim, Solid, Trimmed;
    TrimLead(lead, first);
    assert first + ", " + more == first + ("," + (" " + more));
    SplitAtComma(lead, first, " " + more);
    SplitAfterBlank(more);
    var rest := SplitFrom(OUTSIDE, " ", more);
    TrimEachCons([], lead + first, rest);
    assert [] + TrimEach([lead + first] + rest) == TrimEach([lead + first] + rest);
    assert [] + [Trim(lead + first)] == [first];
  }

  lemma SplitOnlyMember(lead: string, only: string)
    requires lead == "" || lead == " "
    requires only != "" && Trimmed(only) && Solid(OUTSIDE, only)
    ensures TrimEach(SplitFrom(OUTSIDE, lead, only)) == [only]
  {
    TrimLead(lead, only);
    SplitAtEnd(lead, only);
  }

  lemma {:induction false} SplitMembers(lead: string, members: seq<Member>)
    requires lead == "" || lead == " "
    requires members != [] && forall i :: 0 <= i < |members| ==> GoodName(members[i]) && WellFormed(members[i].tree)
    ensures TrimEach(SplitFrom(OUTSIDE, lead, PrintMembers(members))) == MemberTexts(members)
    decreases |members|
  {
    hide SplitFrom, TrimEach, Trimmed, Solid, PrintMember, GoodName, WellFormed;
    var first := PrintMember(members[0]);
    MemberIsSolid(OUTSIDE, members[0]);
    MemberIsTrimmed(members[0]);
    if |members| == 1 {
      SplitOnlyMember(lead, first);
    } else {
      SplitFirstMember(lead, first, PrintMembers(members[1..]));
      SplitMembers(" ", members[1..]);
      assert MemberTexts(members) == [first] + MemberTexts(members[1..]);
    }
  }

  lemma IndexOfFirst(a: string, c: char, b: string)
    requires c !in a
    ensures IndexOf(a + [c] + b, c) == |a|
  {
    assert (a + [c] + b)[|a|] == c;
    assert forall i :: 0 <= i < |a| ==> (a + [c] + b)[i] == a[i];
  }

  lemma FieldPartsOfBare(name: string, t: string)
    requires name != "" && forall i :: 0 <= i < |name| ==> Inert(name[i]) && !IsSpace(name[i])
    requires t != "" && Trimmed(t)
    ensures FieldParts(name + (" " + t)) == (name, t)
  {
    var p := name + (" " + t);
    assert p == name + [' '] + t;
    assert p[0] == name[0] && p[|p| - 1] == t[|t| - 1];
    TrimOfTrimmed(p);
    IndexOfFirst(name, ' ', t);
    assert p[..1] != "\"" by { assert p[..1][0] == name[0]; }
    assert p[..|name|] == name && p[|name| + 1..] == t;
    TrimOfTrimmed(t);
  }

  lemma FieldPartsOfQuoted(name: string, t: string)
    requires name != "" && t != "" && Trimmed(t)
    ensures FieldParts(QuoteIdentifier(name) + (" " + t)) == (name, t)
  {
    var p := QuoteIdentifier(name) + (" " + t);
    assert p[0] == '"' && p[|p| - 1] == t[|t| - 1];
    TrimOfTrimmed(p);
    assert p[..1] == "\"";
    assert p[1..] == Double(name, '"') + (['"'] + (" " + t));
    ReadQuotedOfDouble(name, '"', " " + t);
    TrimLead(" ", t);
  }

  /** Whatever a member is called, its name and its type text come back. */
  lemma FieldPartsOfPrint(m: Member)
    requires GoodName(m) && WellFormed(m.tree)
    ensures FieldParts(PrintMember(m)) == (m.name, Print(m.tree))
  {
    PrintIsTrimmed(m.tree);
    if m.bare {
      FieldPartsOfBare(m.name, Print(m.tree));
    } else {
      FieldPartsOfQuoted(m.name, Print(m.tree));
    }
  }

  // ---------------------------------------------------------------------
  // Parsing undoes printing
  // ---------------------------------------------------------------------

  lemma {:induction false} LastTopAppend(n: Nest, a: string, b: string)
    ensures LastTop(n, a + b, '[') ==
            if LastTop(Walk(n, a), b, '[') >= 0 then |a| + LastTop(Walk(n, a), b, '[') else LastTop(n, a, '[')
    decreases |a|
  {
    if a == "" {
      assert a + b == b;
    } else {
      assert (a + b)[1..] == a[1..] + b;
      assert StepTo(n, a[0], '[') == Step(n, a[0]);
      LastTopAppend(Step(n, a[0]), a[1..], b);
    }
  }

  lemma {:induction false} LastTopNone(n: Nest, s: string)
    requires forall i :: 0 <= i < |s| ==> s[i] != '['
    ensures LastTop(n, s, '[') == -1
    decreases |s|
  {
    if s != "" { LastTopNone(StepTo(n, s[0], '['), s[1..]); }
  }

  lemma LastTopOpens(t: string)
    requires LastTop(Nest(1, false), t, '[') == -1
    ensures LastTop(OUTSIDE, ['['] + t, '[') == 0
  {
    assert (['['] + t)[1..] == t;
  }

  lemma LastTopOfSuffix(size: string)
    requires forall i :: 0 <= i < |size| ==> Inert(size[i])
    ensures LastTop(OUTSIDE, "[" + size + "]", '[') == 0
  {
    hide LastTop;
    var t := size + "]";
    forall i | 0 <= i < |t| ensures t[i] != '[' {
      if i < |size| { assert Inert(size[i]); }
    }
    LastTopNone(Nest(1, false), t);
    LastTopOpens(t);
    assert "[" + size + "]" == ['['] + t;
  }

  lemma LastTopOfList(a: string, size: string)
    requires Solid(OUTSIDE, a)
    requires forall i :: 0 <= i < |size| ==> Inert(size[i])
    ensures LastTop(OUTSIDE, a + ("[" + size + "]"), '[') == |a|
  {
    LastTopOfSuffix(size);
    LastTopAppend(OUTSIDE, a, "[" + size + "]");
  }

  lemma CallShape(head: string, inner: string)
    requires PlainName(head)
    ensures var s := head + ("(" + inner + ")");
            && s != "" && Trim(s) == s && Trim(s[..|head|]) == head
            && !HasSuffix(s, "]") && HasSuffix(s, ")")
            && s[|head| + 1..|s| - 1] == inner
  {
    var s := head + ("(" + inner + ")");
    assert s[0] == head[0] && s[|s| - 1] == ')';
    assert s[|s| - 1..] == ")";
    TrimOfTrimmed(s);
    assert s[..|head|] == head;
    TrimOfTrimmed(head);
  }

  lemma ParseCall(head: string, inner: string)
    requires PlainName(head)
    ensures Parse(head + ("(" + inner + ")")) == Some(ParseArguments(Upper(head), inner))
  {
    hide ParseArguments, IndexOf, LastTop, Trim, Upper, HasSuffix;
    var s := head + ("(" + inner + ")");
    CallShape(head, inner);
    IndexOfFirst(head, '(', inner + ")");
    assert s == head + ['('] + (inner + ")");
  }

  lemma ParseFieldsSnoc(parts: seq<string>, limit: nat)
    requires parts != [] && forall i :: 0 <= i < |parts| ==> |parts[i]| <= limit
    requires FieldParts(parts[|parts| - 1]).0 != ""
    ensures var field := FieldParts(parts[|parts| - 1]);
            ParseFields(parts, limit) == ParseFields(parts[..|parts| - 1], limit)[field.0 := Parse(field.1)]
  {
  }

  lemma ParseNothing(limit: nat)
    ensures ParseFields([], limit) == map[]
  {
  }

  /** The parser reads the member's own type back. */
  ghost predicate Reads(m: Member) {
    GoodName(m) && WellFormed(m.tree) && Parse(Print(m.tree)) == Some(Meaning(m.tree))
  }

  lemma ReadsField(m: Member)
    requires Reads(m)
    ensures FieldParts(PrintMember(m)) == (m.name, Print(m.tree)) && m.name != ""
    ensures Parse(Print(m.tree)) == Some(Meaning(m.tree))
  {
    FieldPartsOfPrint(m);
  }

  lemma {:induction false} ParseMembersOfPrint(members: seq<Member>, limit: nat)
    requires forall i :: 0 <= i < |members| ==> |PrintMember(members[i])| <= limit
    requires forall i :: 0 <= i < |members| ==> Reads(members[i])
    ensures ParseFields(MemberTexts(members), limit) == MemberMap(members)
    decreases |members|
  {
    hide Parse, FieldParts, ParseFields, Reads, PrintMember, Print, Meaning;
    if members == [] {
      assert ParseFields([], limit) == map[] by { ParseNothing(limit); }
    } else {
      var last := |members| - 1;
      assert MemberTexts(members)[..last] == MemberTexts(members[..last]);
      ParseMembersOfPrint(members[..last], limit);
      ReadsField(members[last]);
      ParseFieldsSnoc(MemberTexts(members), limit);
    }
  }

  lemma ParseList(a: string, size: string)
    requires a != "" && Trimmed(a) && Solid(OUTSIDE, a)
    requires forall i :: 0 <= i < |size| ==> Inert(size[i])
    ensures Parse(a + ("[" + size + "]")) == Some(Named("LIST").(elem := Parse(a)))
  {
    var s := a + ("[" + size + "]");
    LastTopOfList(a, size);
    assert s[0] == a[0] && s[|s| - 1..] == "]";
    TrimOfTrimmed(s);
    assert s[..|a|] == a;
  }

  lemma SplitPair(k: string, v: string)
    requires k != "" && Trimmed(k) && Solid(OUTSIDE, k)
    requires v != "" && Trimmed(v) && Solid(OUTSIDE, v)
    ensures SplitTop(k + ", " + v) == [k, v]
  {
    SplitFirstMember("", k, v);
    SplitOnlyMember(" ", v);
  }

  lemma ParseNoMembers()
    ensures SplitTop("") == [""]
    ensures ParseFields([""], 0) == map[]
  {
    hide Parse;
    assert FieldParts("") == ("", "");
    assert [""][..0] == [];
  }

  lemma SplitTopOfMembers(members: seq<Member>)
    requires members != [] && forall i :: 0 <= i < |members| ==> Reads(members[i])
    ensures SplitTop(PrintMembers(members)) == MemberTexts(members)
    ensures forall i :: 0 <= i < |members| ==> |PrintMember(members[i])| <= |PrintMembers(members)|
  {
    hide Parse, SplitFrom, PrintMembers;
    assert forall i :: 0 <= i < |members| ==> Reads(members[i]);
    SplitMembers("", members);
    SplitTopShorter(PrintMembers(members));
    forall i | 0 <= i < |members| ensures |PrintMember(members[i])| <= |PrintMembers(members)| {
      assert SplitTop(PrintMembers(members))[i] == PrintMember(members[i]);
    }
  }

  lemma ArgumentsOfHead(union: bool, inner: string)
    ensures forall i :: 0 <= i < |SplitTop(inner)| ==> |SplitTop(inner)[i]| <= |inner|
    ensures ParseArguments(Head(union), inner) ==
            Named(Head(union)).(fields := Some(ParseFields(SplitTop(inner), |inner|)))
  {
    hide Parse, SplitTop, ParseFields;
    SplitTopShorter(inner);
  }

  lemma MeaningOfMembers(union: bool, members: seq<Member>)
    ensures Meaning(Members(union, members)) == Named(Head(union)).(fields := Some(MemberMap(members)))
  {
  }

  lemma ParseStruct(union: bool, members: seq<Member>)
    requires forall i :: 0 <= i < |members| ==> Reads(members[i])
    ensures ParseArguments(Head(union), PrintMembers(members)) == Meaning(Members(union, members))
  {
    hide Parse, ParseArguments, FieldParts, SplitTop, ParseFields, Reads, Meaning;
    ArgumentsOfHead(union, PrintMembers(members));
    MeaningOfMembers(union, members);
    if members == [] {
      ParseNoMembers();
    } else {
      SplitTopOfMembers(members);
      ParseMembersOfPrint(members, |PrintMembers(members)|);
    }
  }

  lemma UpperOfHead(union: bool)
    ensures Upper(Head(union)) == Head(union) && PlainName(Head(union))
  {
  }

  lemma ArgumentsOfMap(k: string, v: string)
    requires SplitTop(k + ", " + v) == [k, v]
    ensures ParseArguments("MAP", k + ", " + v) == Named("MAP").(key := Parse(k), value := Parse(v))
  {
    hide Parse, SplitTop, ParseFields;
  }

  lemma MapIsPlain()
    ensures PlainName("MAP") && Upper("MAP") == "MAP"
  {
  }

  lemma ParseMapOf(key: Tree, value: Tree)
    requires WellFormed(key) && WellFormed(value)
    ensures Parse(Print(MapOf(key, value))) ==
            Some(Named("MAP").(key := Parse(Print(key)), value := Parse(Print(value))))
  {
    hide Parse, ParseArguments, SplitTop, WellFormed, Upper, PlainName, Solid, Trimmed;
    PrintIsTrimmed(key);
    PrintIsSolid(OUTSIDE, key);
    PrintIsTrimmed(value);
    PrintIsSolid(OUTSIDE, value);
    var inner := Print(key) + ", " + Print(value);
    SplitPair(Print(key), Print(value));
    MapIsPlain();
    ParseCall("MAP", inner);
    ArgumentsOfMap(Print(key), Print(value));
    assert Print(MapOf(key, value)) == "MAP" + ("(" + inner + ")");
  }

  lemma ParsePlain(name: string)
    requires PlainName(name)
    ensures Parse(name) == Some(Named(Upper(name)))
  {
    hide ParseArguments, LastTop;
    TrimOfTrimmed(name);
    assert '(' !in name && ']' !in name;
  }

  lemma ParseApplied(name: string, args: string)
    requires WellFormed(Applied(name, args))
    ensures Parse(Print(Applied(name, args))) == Some(Named(Upper(name)))
  {
    hide Parse, ParseFields;
    ParseCall(name, args);
  }

  /** Parsing undoes printing, for every nested type. */
  lemma {:induction false} ParseOfPrint(t: Tree)
    requires WellFormed(t)
    ensures Parse(Print(t)) == Some(Meaning(t))
    decreases t
  {
    hide Parse, ParseArguments;
    match t
    case Plain(name) =>
      ParsePlain(name);
    case Applied(name, args) =>
      ParseApplied(name, args);
    case List(elem, size) =>
      PrintIsTrimmed(elem);
      PrintIsSolid(OUTSIDE, elem);
      ParseList(Print(elem), size);
      ParseOfPrint(elem);
    case MapOf(key, value) =>
      ParseOfPrint(key);
      ParseOfPrint(value);
      ParseMapOf(key, value);
    case Members(union, members) =>
      forall i | 0 <= i < |members| ensures Reads(members[i]) {
        ParseOfPrint(members[i].tree);
      }
      UpperOfHead(union);
      ParseCall(Head(union), PrintMembers(members));
      ParseStruct(union, members);
  }
}
