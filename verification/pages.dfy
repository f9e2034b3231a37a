/** Cursor pagination of internal/client/rest/client.go: `collectPages` and the
    deduplication in `ListUsers`. */
module Pages {
  import opened Wrappers

  datatype Reply<T> = Page(items: seq<T>, next: string) | Failed

  /** The n-th request, for a cursor, gets a reply; the listing may change between
      requests. */
  type Fetch<T> = (nat, string) -> Reply<T>

  /** The cursor of the n-th request, as long as the earlier ones got pages. */
  function Cursor<T>(fetch: Fetch<T>, n: nat): string {
    if n == 0 then ""
    else
      var reply := fetch(n - 1, Cursor(fetch, n - 1));
      if reply.Page? then reply.next else ""
  }

  /** The items of the first n pages. */
  function Items<T>(fetch: Fetch<T>, n: nat): seq<T> {
    if n == 0 then []
    else
      var reply := fetch(n - 1, Cursor(fetch, n - 1));
      Items(fetch, n - 1) + if reply.Page? then reply.items else []
  }

  predicate Continues<T>(fetch: Fetch<T>, n: nat) {
    var reply := fetch(n, Cursor(fetch, n));
    reply.Page? && reply.next != ""
  }

  /** The first n requests got pages, each with another cursor. */
  ghost predicate Walks<T(!new)>(fetch: Fetch<T>, n: nat) {
    && (forall i :: 0 <= i < n ==> Continues(fetch, i))
    && (forall i, j :: 0 <= i < j <= n ==> Cursor(fetch, i) != Cursor(fetch, j))
  }

  /** The chain of cursors ends with request n, without repeating. */
  ghost predicate EndsAt<T(!new)>(fetch: Fetch<T>, n: nat) {
    Walks(fetch, n) && fetch(n, Cursor(fetch, n)).Page? && fetch(n, Cursor(fetch, n)).next == ""
  }

  /** All cursors of the server are among these. */
  ghost predicate Within<T(!new)>(fetch: Fetch<T>, cursors: set<string>) {
    forall n, c :: fetch(n, c).Page? && fetch(n, c).next != "" ==> fetch(n, c).next in cursors
  }

  /** The cursors that the first n pages named. */
  function Used<T>(fetch: Fetch<T>, n: nat): set<string> {
    if n == 0 then {} else Used(fetch, n - 1) + {Cursor(fetch, n)}
  }

  lemma {:induction false} UsedAre<T(!new)>(fetch: Fetch<T>, n: nat, c: string)
    ensures c in Used(fetch, n) <==> exists i :: 0 < i <= n && Cursor(fetch, i) == c
  {
    if n > 0 {
      UsedAre(fetch, n - 1, c);
      assert c == Cursor(fetch, n) ==> 0 < n <= n && Cursor(fetch, n) == c;
    }
  }

  /** The next page takes the walk one request further. */
  lemma WalkOn<T(!new)>(fetch: Fetch<T>, n: nat)
    requires Walks(fetch, n) && Continues(fetch, n)
    requires fetch(n, Cursor(fetch, n)).next !in Used(fetch, n)
    ensures Walks(fetch, n + 1)
  {
    var c := Cursor(fetch, n + 1);
    forall i | 0 <= i < n + 1 ensures Cursor(fetch, i) != c {
      UsedAre(fetch, n, c);
      if i == 0 {
        assert Cursor(fetch, 0) == "";
      }
    }
  }

  /** Ends if the server has finitely many cursors, requests no cursor twice, and
      succeeds with all items in order exactly when the chain ends without a failure
      or a repetition. */
  method CollectPages<T(!new)>(fetch: Fetch<T>, ghost cursors: set<string>)
    returns (result: Option<seq<T>>, ghost requests: nat)
    requires Within(fetch, cursors)
    ensures 1 <= requests <= |cursors| + 1
    ensures forall i, j :: 0 <= i < j < requests ==> Cursor(fetch, i) != Cursor(fetch, j)
    ensures result.Some? <==> exists n :: EndsAt(fetch, n)
    ensures result.Some? ==> EndsAt(fetch, requests - 1) && result.value == Items(fetch, requests)
  {
    var items: seq<T> := [];
    var cursor := "";
    var seen: set<string> := {};
    var n := 0;
    while true
      invariant Walks(fetch, n)
      invariant cursor == Cursor(fetch, n) && items == Items(fetch, n) && seen == Used(fetch, n)
      invariant seen <= cursors && |seen| == n
      decreases |cursors| - n
    {
      hide Walks, EndsAt, Used;
      Smaller(seen, cursors);
      var reply := fetch(n, cursor);
      if reply.Failed? {
        NeverEnds(fetch, n);
        return None, n + 1;
      }
      items := items + reply.items;
      if reply.next == "" {
        Ends(fetch, n);
        return Some(items), n + 1;
      }
      if reply.next in seen {
        NeverEnds(fetch, n);
        return None, n + 1;
      }
      WalkOn(fetch, n);
      seen := seen + {reply.next};
      Smaller(seen, cursors);
      n := n + 1;
      cursor := reply.next;
    }
  }

  lemma Ends<T(!new)>(fetch: Fetch<T>, n: nat)
    requires Walks(fetch, n) && fetch(n, Cursor(fetch, n)).Page? && fetch(n, Cursor(fetch, n)).next == ""
    ensures EndsAt(fetch, n)
  {
  }

  lemma Smaller(small: set<string>, large: set<string>)
    requires small <= large
    ensures |small| <= |large|
  {
    if small != {} {
      var x :| x in small;
      Smaller(small - {x}, large - {x});
    }
  }

  /** A failure, or a cursor that was already used, rules out every end. */
  lemma NeverEnds<T(!new)>(fetch: Fetch<T>, n: nat)
    requires Walks(fetch, n)
    requires var reply := fetch(n, Cursor(fetch, n));
             reply.Failed? || (reply.next != "" && reply.next in Used(fetch, n))
    ensures forall m: nat :: !EndsAt(fetch, m)
  {
    forall m: nat ensures !EndsAt(fetch, m) {
      DoesNotEndAt(fetch, n, m);
    }
  }

  lemma DoesNotEndAt<T(!new)>(fetch: Fetch<T>, n: nat, m: nat)
    requires Walks(fetch, n)
    requires var reply := fetch(n, Cursor(fetch, n));
             reply.Failed? || (reply.next != "" && reply.next in Used(fetch, n))
    ensures !EndsAt(fetch, m)
  {
    if m < n {
      assert Continues(fetch, m);
    } else if m > n && Continues(fetch, n) {
      var c := Cursor(fetch, n + 1);
      UsedAre(fetch, n, c);
      var i :| 0 < i <= n && Cursor(fetch, i) == c;
    }
  }

  /** The listing does not change between requests. */
  ghost predicate Stateless<T(!new)>(fetch: Fetch<T>) {
    forall m, n, c :: fetch(m, c) == fetch(n, c)
  }

  lemma {:induction false} CyclesGoOn<T(!new)>(fetch: Fetch<T>, i: nat, j: nat, k: nat)
    requires Stateless(fetch) && Cursor(fetch, i) == Cursor(fetch, j)
    ensures Cursor(fetch, i + k) == Cursor(fetch, j + k)
  {
    if k > 0 {
      CyclesGoOn(fetch, i, j, k - 1);
      var c := Cursor(fetch, i + k - 1);
      assert fetch(i + k - 1, c) == fetch(j + k - 1, c);
    }
  }

  lemma RepetitionContinues<T(!new)>(fetch: Fetch<T>, i: nat, j: nat, n: nat)
    requires Stateless(fetch) && i < j <= n && Cursor(fetch, i) == Cursor(fetch, j)
    requires forall k :: 0 <= k < n ==> Continues(fetch, k)
    ensures Continues(fetch, n)
  {
    var k := n - j;
    CyclesGoOn(fetch, i, j, k);
    assert Continues(fetch, i + k);
    assert fetch(i + k, Cursor(fetch, n)) == fetch(n, Cursor(fetch, n));
  }

  /** On a listing that does not change, a repeated cursor means that the chain never
      ends: loop detection refuses no listing that could be read to its end. */
  lemma LoopDetectionIsExact<T(!new)>(fetch: Fetch<T>, n: nat)
    requires Stateless(fetch)
    ensures EndsAt(fetch, n) <==>
            && (forall i :: 0 <= i < n ==> Continues(fetch, i))
            && fetch(n, Cursor(fetch, n)).Page? && fetch(n, Cursor(fetch, n)).next == ""
  {
    if && (forall i :: 0 <= i < n ==> Continues(fetch, i))
       && fetch(n, Cursor(fetch, n)).Page? && fetch(n, Cursor(fetch, n)).next == "" {
      forall i, j | 0 <= i < j <= n
        ensures Cursor(fetch, i) != Cursor(fetch, j)
      {
        if Cursor(fetch, i) == Cursor(fetch, j) {
          RepetitionContinues(fetch, i, j, n);
        }
      }
    }
  }

  // ---------------------------------------------------------------------
  // ListUsers
  // ---------------------------------------------------------------------

  datatype User = User(id: string, name: string)

  /** The users up to here whose ID did not occur before them. */
  function Unique(users: seq<User>): seq<User> {
    if users == [] then []
    else
      var earlier, last := users[..|users| - 1], users[|users| - 1];
      Unique(earlier) + if HasId(earlier, last.id) then [] else [last]
  }

  predicate HasId(users: seq<User>, id: string) {
    exists i :: 0 <= i < |users| && users[i].id == id
  }

  lemma {:induction false} UniqueIsNoLonger(users: seq<User>)
    ensures |Unique(users)| <= |users|
  {
    if users != [] {
      UniqueIsNoLonger(users[..|users| - 1]);
    }
  }

  /** The places that `Unique` keeps. */
  function Kept(users: seq<User>): seq<nat> {
    if users == [] then []
    else
      var n := |users| - 1;
      Kept(users[..n]) + if HasId(users[..n], users[n].id) then [] else [n]
  }

  lemma {:induction false} AsManyAsKept(users: seq<User>)
    ensures |Unique(users)| == |Kept(users)|
  {
    if users != [] {
      AsManyAsKept(users[..|users| - 1]);
    }
  }

  lemma {:induction false} UniqueAtKept(users: seq<User>, k: nat)
    requires k < |Kept(users)|
    ensures k < |Unique(users)| && Kept(users)[k] < |users| && Unique(users)[k] == users[Kept(users)[k]]
  {
    var earlier := users[..|users| - 1];
    AsManyAsKept(earlier);
    if k < |Kept(earlier)| {
      UniqueAtKept(earlier, k);
    }
  }

  lemma {:induction false} KeptAscends(users: seq<User>, k: nat, l: nat)
    requires k < l < |Kept(users)|
    ensures Kept(users)[k] < Kept(users)[l]
  {
    var earlier := users[..|users| - 1];
    if l < |Kept(earlier)| {
      KeptAscends(earlier, k, l);
    } else {
      UniqueAtKept(earlier, k);
    }
  }

  /** What is kept are the users at the kept places, in the order of the listing. */
  lemma {:induction false} UniqueIsAtKept(users: seq<User>)
    ensures |Unique(users)| == |Kept(users)|
    ensures forall k :: 0 <= k < |Kept(users)| ==> Kept(users)[k] < |users| && Unique(users)[k] == users[Kept(users)[k]]
    ensures forall k, l :: 0 <= k < l < |Kept(users)| ==> Kept(users)[k] < Kept(users)[l]
  {
    hide Unique, Kept;
    AsManyAsKept(users);
    forall k | 0 <= k < |Kept(users)|
      ensures Kept(users)[k] < |users| && Unique(users)[k] == users[Kept(users)[k]]
    {
      UniqueAtKept(users, k);
    }
    forall k, l | 0 <= k < l < |Kept(users)|
      ensures Kept(users)[k] < Kept(users)[l]
    {
      KeptAscends(users, k, l);
    }
  }

  /** ... and a place is kept exactly if no earlier user has the ID. */
  lemma {:induction false} KeptIffFirst(users: seq<User>, i: nat)
    requires i < |users|
    ensures i in Kept(users) <==> !HasId(users[..i], users[i].id)
  {
    var n := |users| - 1;
    UniqueIsAtKept(users[..n]);
    if i < n {
      KeptIffFirst(users[..n], i);
      assert users[..n][..i] == users[..i];
    } else {
      assert n !in Kept(users[..n]);
    }
  }

  /** No ID is left twice and none is lost. */
  lemma {:induction false} UniqueHasEachIdOnce(users: seq<User>)
    ensures forall k, l :: 0 <= k < l < |Unique(users)| ==> Unique(users)[k].id != Unique(users)[l].id
    ensures forall id :: HasId(users, id) <==> HasId(Unique(users), id)
  {
    if users != [] {
      var n := |users| - 1;
      var earlier := users[..n];
      UniqueHasEachIdOnce(earlier);
      assert users == earlier + [users[n]];
      assert Unique(users) == if HasId(earlier, users[n].id) then Unique(earlier) else Unique(earlier) + [users[n]];
      forall id ensures HasId(users, id) <==> HasId(Unique(users), id) {
        SnocHasId(earlier, users[n], id);
        SnocHasId(Unique(earlier), users[n], id);
      }
      if !HasId(earlier, users[n].id) {
        assert !HasId(Unique(earlier), users[n].id);
        assert forall k :: 0 <= k < |Unique(earlier)| ==> Unique(earlier)[k].id != users[n].id;
      }
    }
  }

  lemma SnocHasId(users: seq<User>, u: User, id: string)
    ensures HasId(users + [u], id) <==> HasId(users, id) || u.id == id
  {
    var more := users + [u];
    if HasId(users, id) {
      var i :| 0 <= i < |users| && users[i].id == id;
      assert more[i].id == id;
    }
    if u.id == id {
      assert more[|users|].id == id;
    }
    if HasId(more, id) && u.id != id {
      var i :| 0 <= i < |more| && more[i].id == id;
      assert users[i].id == id;
    }
  }

  /** Compacts the array in place: the slice up to `n` shares its elements. */
  method KeepFirsts(users: array<User>) returns (n: nat)
    modifies users
    ensures n <= users.Length
    ensures users[..n] == Unique(old(users[..]))
  {
    var seen: set<string> := {};
    n := 0;
    ghost var was := users[..];
    assert forall id :: !HasId(was[..0], id);
    for i := 0 to users.Length
      invariant n <= i
      invariant users[..n] == Unique(was[..i])
      invariant users[i..] == was[i..]
      invariant forall id :: id in seen <==> HasId(was[..i], id)
    {
      hide HasId, Unique;
      var user := users[i];
      assert user == users[i..][0] == was[i];
      assert users[i + 1..] == users[i..][1..] == was[i + 1..];
      UniqueSnoc(was, i);
      if user.id in seen {
        continue;
      }
      seen := seen + {user.id};
      users[n] := user;
      n := n + 1;
      assert users[..n] == Unique(was[..i]) + [user];
    }
    assert was[..|was|] == was;
  }

  lemma UniqueSnoc(users: seq<User>, i: nat)
    requires i < |users|
    ensures Unique(users[..i + 1]) ==
            if HasId(users[..i], users[i].id) then Unique(users[..i]) else Unique(users[..i]) + [users[i]]
    ensures forall id :: HasId(users[..i + 1], id) <==> HasId(users[..i], id) || users[i].id == id
  {
    assert users[..i + 1] == users[..i] + [users[i]];
    assert users[..i + 1][..i] == users[..i];
    forall id ensures HasId(users[..i + 1], id) <==> HasId(users[..i], id) || users[i].id == id {
      SnocHasId(users[..i], users[i], id);
    }
  }

  method ListUsers(fetch: Fetch<User>, ghost cursors: set<string>) returns (result: Option<seq<User>>)
    requires Within(fetch, cursors)
    ensures result.Some? <==> exists n :: EndsAt(fetch, n)
    ensures result.Some? ==> exists n: nat :: EndsAt(fetch, n) && result.value == Unique(Items(fetch, n + 1))
  {
    var pages, requests := CollectPages(fetch, cursors);
    if pages.None? {
      return None;
    }
    var listing := pages.value;
    var users := new User[|listing|](i requires 0 <= i < |listing| => listing[i]);
    assert users[..] == listing;
    var n := KeepFirsts(users);
    result := Some(users[..n]);
    assert EndsAt(fetch, requests - 1);
  }
}
