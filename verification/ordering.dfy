/** Sorted sequences under a total preorder, and how far a sort determines its
    result. */
module Ordering {

  ghost predicate TotalPreorderOn<T(!new)>(le: (T, T) -> bool, s: multiset<T>) {
    && (forall x, y :: x in s && y in s ==> le(x, y) || le(y, x))
    && (forall x, y, z :: x in s && y in s && z in s && le(x, y) && le(y, z) ==> le(x, z))
  }

  ghost predicate Sorted<T(!new)>(le: (T, T) -> bool, s: seq<T>) {
    forall i, j :: 0 <= i < j < |s| ==> le(s[i], s[j])
  }

  /** Neither comes strictly before the other. */
  ghost predicate Ties<T(!new)>(le: (T, T) -> bool, x: T, y: T) {
    le(x, y) && le(y, x)
  }

  lemma MembersOf<T>(s: seq<T>, i: nat)
    requires i < |s|
    ensures s[i] in multiset(s)
  {
  }

  lemma HeadIsLeast<T(!new)>(le: (T, T) -> bool, s: seq<T>, x: T)
    requires s != [] && Sorted(le, s) && TotalPreorderOn(le, multiset(s))
    requires x in multiset(s)
    ensures le(s[0], x)
  {
    var i :| 0 <= i < |s| && s[i] == x;
    if i > 0 {
      assert le(s[0], s[i]);
    } else {
      assert le(x, x) || le(x, x);
    }
  }

  /** Replacing an element by one it ties with keeps a sequence sorted. */
  lemma ReplaceTie<T(!new)>(le: (T, T) -> bool, s: seq<T>, k: nat, x: T)
    requires k < |s| && Sorted(le, s) && Ties(le, s[k], x)
    requires TotalPreorderOn(le, multiset(s) + multiset{x})
    ensures Sorted(le, s[k := x])
  {
    var t := s[k := x];
    var all := multiset(s) + multiset{x};
    forall i, j | 0 <= i < j < |t| ensures le(t[i], t[j]) {
      MembersOf(s, i);
      MembersOf(s, j);
      assert s[i] in all && s[j] in all && x in all;
      assert le(s[i], s[j]);
    }
  }

  lemma AppendGreatest<T(!new)>(le: (T, T) -> bool, s: seq<T>, x: T)
    requires Sorted(le, s) && forall i :: 0 <= i < |s| ==> le(s[i], x)
    ensures Sorted(le, s + [x])
  {
  }

  lemma LastIsGreatest<T(!new)>(le: (T, T) -> bool, s: seq<T>, x: T)
    requires s != [] && Sorted(le, s) && x in multiset(s)
    requires TotalPreorderOn(le, multiset(s))
    ensures le(x, s[|s| - 1])
  {
    var i :| 0 <= i < |s| && s[i] == x;
    assert i == |s| - 1 ==> le(x, x) || le(x, x);
  }

  lemma DropHead<T>(s: seq<T>)
    requires s != []
    ensures multiset(s[1..]) == multiset(s) - multiset{s[0]}
  {
    assert s == [s[0]] + s[1..];
  }

  lemma SortedTail<T(!new)>(le: (T, T) -> bool, s: seq<T>)
    requires s != [] && Sorted(le, s)
    ensures Sorted(le, s[1..])
  {
    forall i, j | 0 <= i < j < |s[1..]| ensures le(s[1..][i], s[1..][j]) {
      assert s[1..][i] == s[i + 1] && s[1..][j] == s[j + 1];
    }
  }

  /** `b` without its head, and with the head in the place of its copy of `x`. */
  lemma MoveHead<T(!new)>(b: seq<T>, k: nat) returns (rest: seq<T>)
    requires k < |b|
    ensures |rest| == |b| - 1
    ensures multiset(rest) == multiset(b) - multiset{b[k]}
    ensures forall i :: 0 <= i < |rest| ==> rest[i] == if i + 1 == k then b[0] else b[i + 1]
    ensures k > 0 ==> rest == b[1..][k - 1 := b[0]]
    ensures k == 0 ==> rest == b[1..]
  {
    DropHead(b);
    if k == 0 {
      rest := b[1..];
    } else {
      rest := b[1..][k - 1 := b[0]];
      assert multiset(rest) == multiset(b[1..]) - multiset{b[1..][k - 1]} + multiset{b[0]};
      assert b[1..][k - 1] == b[k];
    }
  }

  lemma MovedIsSorted<T(!new)>(le: (T, T) -> bool, b: seq<T>, k: nat, rest: seq<T>)
    requires k < |b| && Sorted(le, b) && TotalPreorderOn(le, multiset(b))
    requires Ties(le, b[k], b[0])
    requires rest == if k == 0 then b[1..] else b[1..][k - 1 := b[0]]
    ensures Sorted(le, rest)
  {
    SortedTail(le, b);
    if k > 0 {
      DropHead(b);
      assert multiset(b[1..]) + multiset{b[0]} == multiset(b);
      ReplaceTie(le, b[1..], k - 1, b[0]);
    }
  }

  lemma TieThrough<T(!new)>(le: (T, T) -> bool, s: multiset<T>, x: T, y: T, z: T)
    requires TotalPreorderOn(le, s) && x in s && y in s && z in s
    requires Ties(le, x, y) && Ties(le, y, z)
    ensures Ties(le, x, z)
  {
  }

  lemma HeadsTie<T(!new)>(le: (T, T) -> bool, a: seq<T>, b: seq<T>)
    requires TotalPreorderOn(le, multiset(a)) && multiset(a) == multiset(b)
    requires a != [] && b != [] && Sorted(le, a) && Sorted(le, b)
    ensures Ties(le, a[0], b[0])
  {
    MembersOf(a, 0);
    MembersOf(b, 0);
    HeadIsLeast(le, a, b[0]);
    HeadIsLeast(le, b, a[0]);
  }

  /** Two sorted arrangements of the same elements agree place by place, up to
      ties.  So a sort's result depends neither on the order of its input nor on
      the algorithm, except within ties. */
  lemma {:induction false} SortedArrangementsAgree<T(!new)>(le: (T, T) -> bool, a: seq<T>, b: seq<T>)
    requires TotalPreorderOn(le, multiset(a))
    requires multiset(a) == multiset(b)
    requires Sorted(le, a) && Sorted(le, b)
    ensures |a| == |b|
    ensures forall i :: 0 <= i < |a| ==> Ties(le, a[i], b[i])
    decreases |a|
  {
    hide Sorted, TotalPreorderOn, Ties;
    assert |a| == |multiset(a)| == |multiset(b)| == |b|;
    if a == [] { return; }
    HeadsTie(le, a, b);
    MembersOf(a, 0);
    var k :| 0 <= k < |b| && b[k] == a[0];
    var rest := MoveHead(b, k);
    DropHead(a);
    SortedTail(le, a);
    MovedIsSorted(le, b, k, rest);
    FewerElements(le, multiset(a), multiset(a[1..]));
    SortedArrangementsAgree(le, a[1..], rest);
    forall i | 0 <= i < |a| ensures Ties(le, a[i], b[i]) {
      if i > 0 {
        assert Ties(le, a[1..][i - 1], rest[i - 1]);
        if i == k {
          MembersOf(a, i);
          MembersOf(b, 0);
          TieThrough(le, multiset(a), a[i], b[0], a[0]);
        }
      }
    }
  }

  lemma FewerElements<T(!new)>(le: (T, T) -> bool, s: multiset<T>, t: multiset<T>)
    requires TotalPreorderOn(le, s) && t <= s
    ensures TotalPreorderOn(le, t)
  {
    assert forall x :: x in t ==> x in s;
  }
}
