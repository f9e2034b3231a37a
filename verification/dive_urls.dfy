/** `diveResourceURLsEquivalent` of internal/resources/dive_resource.go. */
module DiveUrls {
  import opened Text

  const SHARE_PREFIX := "md:_share/"

  /** The part of a URL after its last slash, or all of it. */
  function Token(s: string): string {
    if s == [] || s[|s| - 1] == '/' then ""
    else Token(s[..|s| - 1]) + [s[|s| - 1]]
  }

  predicate Equivalent(configured: string, live: string) {
    EqualFold(configured, live) ||
    var (c, l) := (Lower(configured), Lower(live));
    && HasPrefix(c, SHARE_PREFIX) && HasPrefix(l, SHARE_PREFIX)
    && Token(c) != "" && Token(c) == Token(l)
  }

  lemma EquivalentIsReflexive(u: string)
    ensures Equivalent(u, u)
  {
  }

  lemma EquivalentIsSymmetric(u: string, v: string)
    ensures Equivalent(u, v) <==> Equivalent(v, u)
  {
  }

  // ---------------------------------------------------------------------
  // Tokens, lower case and folding
  // ---------------------------------------------------------------------

  lemma {:induction false} TokenOfLower(s: string)
    ensures Token(Lower(s)) == Lower(Token(s))
  {
    if s != [] && s[|s| - 1] != '/' {
      var init := s[..|s| - 1];
      TokenOfLower(init);
      assert Lower(s)[..|s| - 1] == Lower(init);
      assert Lower(Token(init) + [s[|s| - 1]]) == Lower(Token(init)) + [LowerChar(s[|s| - 1])];
    }
  }

  lemma {:induction false} TokenOfFold(s: string)
    ensures Token(Fold(s)) == Fold(Token(s))
  {
    if s != [] && s[|s| - 1] != '/' {
      var init := s[..|s| - 1];
      TokenOfFold(init);
      assert Fold(s)[..|s| - 1] == Fold(init);
      assert Fold(Token(init) + [s[|s| - 1]]) == Fold(Token(init)) + [FoldChar(s[|s| - 1])];
    }
  }

  /** What stands before a slash does not matter. */
  lemma {:induction false} TokenSkips(a: string, b: string)
    ensures Token(a + "/" + b) == Token(b)
  {
    if b != [] && b[|b| - 1] != '/' {
      var init := b[..|b| - 1];
      TokenSkips(a, init);
      assert (a + "/" + b)[..|a + "/" + b| - 1] == a + "/" + init;
    }
  }

  lemma {:induction false} TokenFrom(s: string, c: char)
    requires c in Token(s)
    ensures c in s
  {
    if c != s[|s| - 1] {
      TokenFrom(s[..|s| - 1], c);
      assert c in s[..|s| - 1];
    }
  }

  /** Lower case and folding part company on this rune: folding puts it in a class with
      runes of another lower case, as U+017F and U+03C2, or lower case gives a rune
      that folding keeps apart, as for U+0130. */
  predicate Odd(c: char) {
    LowerChar(c) != FoldChar(c)
  }

  predicate PlainUrl(u: string) {
    forall i :: 0 <= i < |u| ==> !Odd(u[i])
  }

  lemma PlainFoldsToLower(u: string)
    ensures PlainUrl(u) <==> Fold(u) == Lower(u)
  {
    if Fold(u) == Lower(u) {
      assert forall i :: 0 <= i < |u| ==> FoldChar(u[i]) == Fold(u)[i] == LowerChar(u[i]);
    }
  }

  lemma FoldOnce(u: string)
    ensures Fold(Fold(u)) == Fold(u) && |Fold(u)| == |u|
  {
  }

  /** If any plain URL folds as this one, its folding is plain. */
  lemma PlainFold(u: string, v: string)
    requires PlainUrl(v) && Fold(u) == Fold(v)
    ensures PlainUrl(Fold(u))
  {
    PlainFoldsToLower(v);
    forall i | 0 <= i < |v| ensures !Odd(Fold(v)[i]) {
      assert Fold(v)[i] == FoldChar(v[i]) == LowerChar(v[i]);
    }
  }

  // ---------------------------------------------------------------------
  // When it is an equivalence relation
  // ---------------------------------------------------------------------

  /** What MotherDuck resolves a URL to: a share by its token, anything else by its
      text up to case. */
  datatype Target = Share(token: string) | Place(url: string)

  function Resolve(u: string): Target {
    var l := Lower(u);
    if HasPrefix(l, SHARE_PREFIX) && Token(l) != "" then Share(Token(l)) else Place(l)
  }

  /** Between plain URLs the comparison is exactly "same target", hence an equivalence
      relation. */
  lemma PlainUrlsCompareByTarget(u: string, v: string)
    requires PlainUrl(u) && PlainUrl(v)
    ensures Equivalent(u, v) <==> Resolve(u) == Resolve(v)
  {
    PlainFoldsToLower(u);
    PlainFoldsToLower(v);
  }

  lemma {:induction false} WholeToken(t: string)
    requires '/' !in t
    ensures Token(t) == t
    decreases |t|
  {
    if t != [] {
      WholeToken(t[..|t| - 1]);
      assert t == t[..|t| - 1] + [t[|t| - 1]];
    }
  }

  /** Share URLs are the same exactly if their last segments are, whatever stands between
      the prefix and that. */
  lemma SharesCompareByToken(a: string, b: string, t: string, u: string)
    requires t != "" && u != "" && '/' !in t && '/' !in u
    requires PlainUrl("md:_share/" + a + "/" + t) && PlainUrl("md:_share/" + b + "/" + u)
    ensures Equivalent("md:_share/" + a + "/" + t, "md:_share/" + b + "/" + u) <==> Lower(t) == Lower(u)
  {
    hide Token, Lower, PlainUrl, Equivalent, HasPrefix;
    PlainUrlsCompareByTarget("md:_share/" + a + "/" + t, "md:_share/" + b + "/" + u);
    ShareResolves(a, t);
    ShareResolves(b, u);
  }

  lemma ShareResolves(a: string, t: string)
    requires t != "" && '/' !in t
    ensures Resolve("md:_share/" + a + "/" + t) == Share(Lower(t))
  {
    hide Token;
    var s := "md:_share/" + a + "/" + t;
    TokenSkips("md:_share/" + a, t);
    WholeToken(t);
    TokenOfLower(s);
    assert forall i :: 0 <= i < |SHARE_PREFIX| ==> Lower(s)[i] == LowerChar(s[i]) == SHARE_PREFIX[i];
    assert Lower(s)[..|SHARE_PREFIX|] == SHARE_PREFIX;
  }

  lemma PlainUrlsAreTransitive(u: string, v: string, w: string)
    requires PlainUrl(u) && PlainUrl(v) && PlainUrl(w)
    requires Equivalent(u, v) && Equivalent(v, w)
    ensures Equivalent(u, w)
  {
    PlainUrlsCompareByTarget(u, v);
    PlainUrlsCompareByTarget(v, w);
    PlainUrlsCompareByTarget(u, w);
  }

  lemma {:induction false} SharePrefixIsAscii()
    ensures Lower(SHARE_PREFIX) == SHARE_PREFIX == Fold(SHARE_PREFIX) && PlainUrl(SHARE_PREFIX)
  {
    PlainFoldsToLower(SHARE_PREFIX);
  }

  lemma PlainOfConcat(a: string, b: string)
    ensures PlainUrl(a + b) <==> PlainUrl(a) && PlainUrl(b)
  {
    hide Odd;
    if PlainUrl(a + b) {
      forall i | 0 <= i < |a| ensures !Odd(a[i]) {
        assert a[i] == (a + b)[i];
      }
      forall i | 0 <= i < |b| ensures !Odd(b[i]) {
        assert b[i] == (a + b)[|a| + i];
      }
    }
  }

  lemma LowerOfConcat(a: string, b: string)
    ensures Lower(a + b) == Lower(a) + Lower(b)
  {
    hide LowerChar, Lower;
  }

  lemma FoldOfConcat(a: string, b: string)
    ensures Fold(a + b) == Fold(a) + Fold(b)
  {
    hide FoldChar, Fold;
  }

  lemma TokenBehindPrefix(rest: string)
    ensures Token(SHARE_PREFIX + rest) == Token(rest) == Token("/" + rest)
  {
    assert SHARE_PREFIX == "md:_share" + "/";
    TokenSkips("md:_share", rest);
    TokenSkips("", rest);
    assert "" + "/" + rest == "/" + rest;
  }

  lemma ShareUrl(rest: string)
    ensures var u := SHARE_PREFIX + rest;
            && Lower(u) == SHARE_PREFIX + Lower(rest) && Fold(u) == SHARE_PREFIX + Fold(rest)
            && HasPrefix(Lower(u), SHARE_PREFIX) && Token(Lower(u)) == Token(Lower(rest)) == Lower(Token(rest))
            && (PlainUrl(u) <==> PlainUrl(rest))
  {
    hide Token, Lower, Fold, PlainUrl;
    SharePrefixIsAscii();
    LowerOfConcat(SHARE_PREFIX, rest);
    FoldOfConcat(SHARE_PREFIX, rest);
    PlainOfConcat(SHARE_PREFIX, rest);
    TokenBehindPrefix(Lower(rest));
    TokenOfLower(rest);
  }

  lemma SlashRest(rest: string)
    ensures Lower("/" + rest) == "/" + Lower(rest) && Fold("/" + rest) == "/" + Fold(rest)
    ensures PlainUrl("/" + rest) <==> PlainUrl(rest)
    ensures Token("/" + rest) == Token(rest)
  {
    hide Token;
    LowerOfConcat("/", rest);
    FoldOfConcat("/", rest);
    PlainOfConcat("/", rest);
    assert Lower("/") == "/" == Fold("/");
    assert PlainUrl("/");
    TokenBehindPrefix(rest);
  }

  lemma TokenOfOne(c: char)
    requires c != '/'
    ensures Token([c]) == [c] && Token("a/" + [c]) == [c]
  {
    assert [c][..0] == "";
    TokenSkips("a", [c]);
    assert "a/" + [c] == "a" + "/" + [c];
  }

  /** Share URLs whose lower-case tokens are equal name the same share. */
  lemma SameToken(a: string, b: string)
    requires Token(a) != "" && Lower(Token(a)) == Lower(Token(b))
    ensures Equivalent(SHARE_PREFIX + a, SHARE_PREFIX + b)
  {
    hide Token, Lower, Fold, PlainUrl, EqualFold;
    ShareUrl(a);
    ShareUrl(b);
    BothShares(SHARE_PREFIX + a, SHARE_PREFIX + b);
  }

  /** Of different length no other ones do. */
  lemma OtherToken(a: string, b: string)
    requires |a| != |b| && Lower(Token(a)) != Lower(Token(b))
    ensures !Equivalent(SHARE_PREFIX + a, SHARE_PREFIX + b)
  {
    hide Token, Lower, Fold, PlainUrl, EqualFold, Equivalent;
    ShareUrl(a);
    ShareUrl(b);
    NoShareOfOtherToken(SHARE_PREFIX + a, SHARE_PREFIX + b);
  }

  lemma OneRuneTexts(c: char, d: char)
    ensures Lower([c]) == Lower([d]) <==> LowerChar(c) == LowerChar(d)
    ensures Fold([c]) == Fold([d]) <==> FoldChar(c) == FoldChar(d)
  {
    assert Lower([c])[0] == LowerChar(c) && Lower([d])[0] == LowerChar(d);
    assert Fold([c])[0] == FoldChar(c) && Fold([d])[0] == FoldChar(d);
  }

  /** Two runes that fold alike and have different lower cases break transitivity in
      the token of a share. */
  lemma NotTransitiveAt(c: char, d: char)
    requires c != '/' && d != '/' && FoldChar(c) == FoldChar(d) && LowerChar(c) != LowerChar(d)
    ensures var u, v, w := SHARE_PREFIX + [c], SHARE_PREFIX + [d], SHARE_PREFIX + ("a/" + [d]);
            Equivalent(u, v) && Equivalent(v, w) && !Equivalent(u, w)
  {
    hide Token, Lower, Fold, Equivalent, EqualFold, LowerChar, FoldChar, PlainUrl;
    TokenOfOne(c);
    TokenOfOne(d);
    OneRuneTexts(c, d);
    ShareUrl([c]);
    ShareUrl([d]);
    FoldedAlike(SHARE_PREFIX + [c], SHARE_PREFIX + [d]);
    SameToken([d], "a/" + [d]);
    OtherToken([c], "a/" + [d]);
  }

  /** In general it is not transitive: folding takes the long s for an s and the final
      sigma for a sigma, lower case does not. */
  lemma NotTransitive()
    ensures var u, v, w := SHARE_PREFIX + [LONG_S], SHARE_PREFIX + ['s'], SHARE_PREFIX + ("a/" + ['s']);
            Equivalent(u, v) && Equivalent(v, w) && !Equivalent(u, w)
    ensures var u, v, w := SHARE_PREFIX + [FINAL_SIGMA], SHARE_PREFIX + [SIGMA], SHARE_PREFIX + ("a/" + [SIGMA]);
            Equivalent(u, v) && Equivalent(v, w) && !Equivalent(u, w)
  {
    hide Equivalent;
    assert FoldChar(LONG_S) == FoldChar('s') && LowerChar(LONG_S) != LowerChar('s');
    NotTransitiveAt(LONG_S, 's');
    assert FoldChar(FINAL_SIGMA) == FoldChar(SIGMA) && LowerChar(FINAL_SIGMA) != LowerChar(SIGMA);
    NotTransitiveAt(FINAL_SIGMA, SIGMA);
  }

  /** ... and apart from plain URLs it is not "same target" either: lower case takes
      U+0130 for an i, folding does not. */
  lemma DottedIParts()
    ensures var u, v := "md:" + [DOTTED_I], "md:i"; Resolve(u) == Resolve(v) && !Equivalent(u, v) && !PlainUrl(u)
  {
    var u, v := "md:" + [DOTTED_I], "md:i";
    assert Lower(u) == v == Lower(v);
    assert Fold(u)[3] != Fold(v)[3];
    assert Odd(u[3]);
    assert |Lower(u)| < |SHARE_PREFIX|;
  }

  /** The comparison is transitive from this URL on. */
  ghost predicate Transitive(u: string) {
    forall v, w :: Equivalent(u, v) && Equivalent(v, w) ==> Equivalent(u, w)
  }

  /** ... through plain URLs: it keeps its meaning through every pair of plain
      spellings that the server may give it. */
  ghost predicate Stable(u: string) {
    forall v, w :: PlainUrl(v) && PlainUrl(w) && Equivalent(u, v) && Equivalent(v, w) ==> Equivalent(u, w)
  }

  /** Folding takes the URL for that of a share. */
  predicate FoldsToShare(u: string) {
    HasPrefix(Fold(u), SHARE_PREFIX) && Token(u) != ""
  }

  /** A URL that folding takes for that of a share is one, and its token is plain.
      This is asked only of a URL that has a plain spelling at all. */
  predicate Settled(u: string) {
    FoldsToShare(u) && PlainUrl(Fold(u)) ==> HasPrefix(Lower(u), SHARE_PREFIX) && PlainUrl(Token(u))
  }

  lemma PlainIsSettled(u: string)
    requires PlainUrl(u)
    ensures Settled(u)
  {
    PlainFoldsToLower(u);
    forall i | 0 <= i < |Token(u)| ensures !Odd(Token(u)[i]) {
      TokenFrom(u, Token(u)[i]);
    }
  }

  lemma SettledKeepsTarget(u: string, v: string, w: string)
    requires Settled(u) && PlainUrl(v) && PlainUrl(w)
    requires Equivalent(u, v) && Equivalent(v, w)
    ensures Equivalent(u, w)
  {
    hide Token, Fold, Lower, PlainUrl;
    PlainFoldsToLower(v);
    PlainFoldsToLower(w);
    if Fold(u) == Fold(v) && Fold(v) != Fold(w) {
      PlainFold(u, v);
      TokenOfLower(u);
      TokenOfFold(u);
      TokenOfLower(v);
      TokenOfFold(v);
      assert |Token(u)| == |Fold(Token(u))| == |Fold(Token(v))|;
      PlainFoldsToLower(Token(u));
    }
  }

  /** Exactly the settled URLs are stable. */
  lemma StableIffSettled(u: string)
    ensures Stable(u) <==> Settled(u)
  {
    if Settled(u) {
      forall v, w | PlainUrl(v) && PlainUrl(w) && Equivalent(u, v) && Equivalent(v, w)
        ensures Equivalent(u, w)
      {
        SettledKeepsTarget(u, v, w);
      }
    } else {
      UnsettledIsUnstable(u);
    }
  }

  lemma UnsettledIsUnstable(u: string)
    requires !Settled(u)
    ensures !Stable(u)
  {
    hide Lower, Fold, Token, PlainUrl, Equivalent, EqualFold;
    var v := Fold(u);
    var rest := v[|SHARE_PREFIX|..];
    var w := SHARE_PREFIX + ("/" + rest);
    assert v == SHARE_PREFIX + rest;
    FoldOnce(u);
    FoldedAlike(u, v);
    ShareUrl(rest);
    ShareUrl("/" + rest);
    SlashRest(rest);
    PlainFoldsToLower(v);
    TokenOfFold(u);
    TokenOfLower(u);
    TokenBehindPrefix(rest);
    assert |Fold(Token(u))| == |Token(u)|;
    SameToken(rest, "/" + rest);
    PlainFoldsToLower(Token(u));
    TokenOfLower(v);
    NoShareOfOtherToken(u, w);
  }

  lemma FoldedAlike(u: string, v: string)
    requires Fold(u) == Fold(v)
    ensures Equivalent(u, v)
  {
  }

  lemma NoShareOfOtherToken(u: string, w: string)
    requires |u| != |w|
    requires HasPrefix(Lower(u), SHARE_PREFIX) ==> Token(Lower(u)) != Token(Lower(w))
    ensures !Equivalent(u, w)
  {
    assert |Fold(u)| != |Fold(w)|;
  }

  lemma NoShareAtAll(u: string, w: string)
    requires |u| != |w|
    requires !HasPrefix(Lower(u), SHARE_PREFIX) || !HasPrefix(Lower(w), SHARE_PREFIX)
    ensures !Equivalent(u, w)
  {
    assert |Fold(u)| != |Fold(w)|;
  }

  /** Through arbitrary URLs the comparison is transitive from exactly those that
      folding does not take for shares: every share can be respelled with a long s in
      its prefix. */
  lemma TransitiveIffNoShare(u: string)
    ensures Transitive(u) <==> !FoldsToShare(u)
  {
    if FoldsToShare(u) {
      SharesAreNotTransitive(u);
    } else {
      forall v, w | Equivalent(u, v) && Equivalent(v, w) ensures Equivalent(u, w) {
        OnlyFoldedAlike(u, v);
        OnlyFoldedAlike(v, w);
      }
    }
  }

  lemma LowerPrefixFolds(u: string)
    requires HasPrefix(Lower(u), SHARE_PREFIX)
    ensures HasPrefix(Fold(u), SHARE_PREFIX)
  {
    forall i | 0 <= i < |SHARE_PREFIX| ensures Fold(u)[i] == SHARE_PREFIX[i] {
      assert Lower(u)[i] == Lower(u)[..|SHARE_PREFIX|][i] == SHARE_PREFIX[i];
      assert IsAscii(LowerChar(u[i])) && u[i] != KELVIN_SIGN && u[i] != DOTTED_I;
    }
  }

  lemma OnlyFoldedAlike(u: string, v: string)
    requires !FoldsToShare(u) && Equivalent(u, v)
    ensures Fold(u) == Fold(v) && !FoldsToShare(v)
  {
    hide Token, Fold, Lower;
    if HasPrefix(Lower(u), SHARE_PREFIX) {
      LowerPrefixFolds(u);
      TokenOfLower(u);
    }
    if Fold(u) == Fold(v) {
      TokenOfFold(u);
      TokenOfFold(v);
      assert |Fold(Token(u))| == |Token(u)| && |Fold(Token(v))| == |Token(v)|;
    }
  }

  lemma SharesAreNotTransitive(u: string)
    requires FoldsToShare(u)
    ensures !Transitive(u)
  {
    hide Lower, Fold, Token, Equivalent, EqualFold, PlainUrl;
    var rest := u[|SHARE_PREFIX|..];
    var head := "md:_" + [LONG_S] + "hare/";
    assert |Fold(u)| == |u| by { FoldOnce(u); }
    LongPrefix(head);
    var bare, renamed, long := SHARE_PREFIX + rest, SHARE_PREFIX + ("/" + rest), head + ("/" + rest);
    SplitAt(u, |SHARE_PREFIX|);
    ShareUrl(rest);
    ShareUrl("/" + rest);
    SlashRest(rest);
    LowerOfConcat(head, "/" + rest);
    FoldOfConcat(head, "/" + rest);
    TokenOfRest(u);
    SameToken(rest, "/" + rest);
    if HasPrefix(Lower(u), SHARE_PREFIX) {
      TokenOfLower(u);
      BothShares(u, renamed);
      FoldedAlike(renamed, long);
      NoShareAtAll(u, long);
    } else {
      FoldedAlike(u, bare);
      NoShareAtAll(u, renamed);
    }
  }

  lemma LongPrefix(head: string)
    requires head == "md:_" + [LONG_S] + "hare/"
    ensures Fold(head) == SHARE_PREFIX && |head| == |SHARE_PREFIX|
    ensures forall rest :: !HasPrefix(Lower(head) + rest, SHARE_PREFIX)
  {
    assert Lower(head)[4] == LONG_S;
    forall rest ensures !HasPrefix(Lower(head) + rest, SHARE_PREFIX) {
      assert (Lower(head) + rest)[..|SHARE_PREFIX|] == Lower(head);
    }
  }

  lemma SplitAt(u: string, n: nat)
    requires n <= |u|
    ensures Fold(u) == Fold(u[..n]) + Fold(u[n..]) && Fold(u[..n]) == Fold(u)[..n]
    ensures Lower(u) == Lower(u[..n]) + Lower(u[n..])
  {
    assert |Fold(u[..n])| == n;
    hide Lower, Fold, PlainUrl;
    assert u == u[..n] + u[n..];
    LowerOfConcat(u[..n], u[n..]);
    FoldOfConcat(u[..n], u[n..]);
  }

  lemma OnlySlashFoldsToSlash(c: char)
    ensures FoldChar(c) == '/' <==> c == '/'
  {
  }

  lemma TokenOfRest(u: string)
    requires FoldsToShare(u)
    ensures |u| >= |SHARE_PREFIX| && Token(u) == Token(u[|SHARE_PREFIX|..])
  {
    hide Token, FoldChar;
    var n := |SHARE_PREFIX| - 1;
    var head, rest := u[..n], u[n + 1..];
    assert Fold(u)[n] == Fold(u)[..n + 1][n] == SHARE_PREFIX[n] == '/';
    OnlySlashFoldsToSlash(u[n]);
    hide Fold;
    assert u == head + "/" + rest;
    TokenSkips(head, rest);
  }

  lemma BothShares(u: string, v: string)
    requires HasPrefix(Lower(u), SHARE_PREFIX) && HasPrefix(Lower(v), SHARE_PREFIX)
    requires Token(Lower(u)) == Token(Lower(v)) != ""
    ensures Equivalent(u, v)
  {
  }
}
