/** LIMIT and OFFSET push-down of internal/datasources/catalog_specs.go. */
module Paging {
  import opened MachineInt
  import opened Wrappers
  import opened Ordering
  import opened Tf

  const MAX_UINTEGER := 4294967295

  datatype Model = Model(limit: Attr<int>, offset: Attr<int>)

  // ---------------------------------------------------------------------
  // What a page is
  // ---------------------------------------------------------------------

  function Take<T>(n: int, s: seq<T>): seq<T> {
    if n < 0 then [] else if n > |s| then s else s[..n]
  }

  function Drop<T>(n: int, s: seq<T>): seq<T> {
    if n < 0 then s else if n > |s| then [] else s[n..]
  }

  /** The page a configuration asks for.  `defaultLimit` counts for an unset limit;
      zero means that an unset limit takes everything. */
  function Page<T>(m: Model, defaultLimit: int, rows: seq<T>): seq<T> {
    var rest := if IsSet(m.offset) then Drop(m.offset.value, rows) else rows;
    if IsSet(m.limit) then Take(m.limit.value, rest)
    else if defaultLimit > 0 then Take(defaultLimit, rest)
    else rest
  }

  /** The SQL behind the table function: nothing, ` LIMIT 0`, or an ordered page. */
  datatype Suffix = Plain | LimitZero | Ordered(limit: Option<int>, offset: Option<int>)

  /** A server that may return its rows in any order, and a query that orders them
      only where it says so. */
  ghost predicate Answers<T(!new)>(le: (T, T) -> bool, suffix: Suffix, delivered: seq<T>, answer: seq<T>) {
    match suffix
    case Plain => answer == delivered
    case LimitZero => answer == []
    case Ordered(limit, offset) =>
      exists ordered: seq<T> ::
        && multiset(ordered) == multiset(delivered)
        && Sorted(le, ordered)
        && answer == Cut(limit, offset, ordered)
  }

  function Cut<T>(limit: Option<int>, offset: Option<int>, s: seq<T>): seq<T> {
    var rest := if offset.Some? then Drop(offset.value, s) else s;
    if limit.Some? then Take(limit.value, rest) else rest
  }

  /** Rows in the stated order, which leaves no two of them tied. */
  ghost predicate Listing<T(!new)>(le: (T, T) -> bool, rows: seq<T>) {
    && TotalPreorderOn(le, multiset(rows))
    && Sorted(le, rows)
    && forall x, y :: x in rows && y in rows && Ties(le, x, y) ==> x == y
  }

  /** Ordering a delivered prefix of a listing restores the prefix. */
  lemma OrderRestoresPrefix<T(!new)>(le: (T, T) -> bool, rows: seq<T>, n: nat, ordered: seq<T>)
    requires Listing(le, rows) && n <= |rows|
    requires multiset(ordered) == multiset(rows[..n]) && Sorted(le, ordered)
    ensures ordered == rows[..n]
  {
    var prefix := rows[..n];
    assert rows == prefix + rows[n..];
    FewerElements(le, multiset(rows), multiset(prefix));
    assert Sorted(le, prefix);
    SortedArrangementsAgree(le, prefix, ordered);
    forall i | 0 <= i < n ensures ordered[i] == prefix[i] {
      MembersOf(ordered, i);
      assert ordered[i] in multiset(prefix);
      assert Ties(le, prefix[i], ordered[i]);
      assert prefix[i] == rows[i];
    }
  }

  // ---------------------------------------------------------------------
  // windowedPaging
  // ---------------------------------------------------------------------

  /** The number of leading rows a page needs, when a nonzero offset is set. */
  function PagingWindow(m: Model, defaultLimit: int): Option<int> {
    if !IsSet(m.offset) || m.offset.value == 0 then None
    else Some(WrapInt64((if IsSet(m.limit) then m.limit.value else defaultLimit) + m.offset.value))
  }

  /** Whether `checkPagingWindow` reports an error. */
  predicate WindowRejected(m: Model, defaultLimit: int, maxWindow: int) {
    var w := PagingWindow(m, defaultLimit);
    !(w.None? || defaultLimit == 0 || w.value <= maxWindow)
  }

  /** The native limit to pass, if any, and the SQL suffix. */
  datatype Plan = Rejected | Query(pushed: Option<int>, suffix: Suffix)

  function WindowedPlan(m: Model, defaultLimit: int, maxWindow: int): Plan {
    var limit := if IsSet(m.limit) then Some(m.limit.value) else None;
    if limit == Some(0) then Query(Some(1), LimitZero)
    else
      var w := PagingWindow(m, defaultLimit);
      if w.None? then Query(limit, Plain)
      else if WindowRejected(m, defaultLimit, maxWindow) then Rejected
      else
        Query(if w.value <= maxWindow && (limit.Some? || defaultLimit > 0) then w else None,
              Ordered(limit, Some(m.offset.value)))
  }

  /** The argument map that the query builders fill in. */
  class Arguments {
    var entries: map<string, int>
  }

  method WindowedPaging(args: Arguments, limitArg: string, defaultLimit: int, maxWindow: int, m: Model)
    returns (suffix: Option<Suffix>)
    modifies args
    ensures var plan := WindowedPlan(m, defaultLimit, maxWindow);
            && (suffix == if plan.Rejected? then None else Some(plan.suffix))
            && args.entries ==
               if plan.Query? && plan.pushed.Some? then old(args.entries)[limitArg := plan.pushed.value]
               else old(args.entries)
  {
    if IsSet(m.limit) && m.limit.value == 0 {
      args.entries := args.entries[limitArg := 1];
      return Some(LimitZero);
    }
    var window := PagingWindow(m, defaultLimit);
    if window.None? {
      if IsSet(m.limit) {
        args.entries := args.entries[limitArg := m.limit.value];
      }
      return Some(Plain);
    }
    if WindowRejected(m, defaultLimit, maxWindow) {
      return None;
    }
    if window.value <= maxWindow && (IsSet(m.limit) || defaultLimit > 0) {
      args.entries := args.entries[limitArg := window.value];
    }
    var limit := None;
    if IsSet(m.limit) {
      limit := Some(m.limit.value);
    }
    return Some(Ordered(limit, Some(m.offset.value)));
  }

  /** Values the attribute validators let through. */
  predicate WithinCaps(m: Model, cap: int) {
    && (IsSet(m.limit) ==> 0 <= m.limit.value <= cap)
    && (IsSet(m.offset) ==> 0 <= m.offset.value <= cap)
  }

  /** Rows the table function returns for a native limit. */
  function ServerRows<T>(pushed: Option<int>, defaultLimit: int, rows: seq<T>): seq<T> {
    if pushed.Some? then Take(pushed.value, rows)
    else if defaultLimit > 0 then Take(defaultLimit, rows)
    else rows
  }

  lemma WindowIsExact(m: Model, defaultLimit: int, maxWindow: int)
    requires 0 <= defaultLimit <= maxWindow <= MAX_UINTEGER && WithinCaps(m, maxWindow)
    ensures PagingWindow(m, defaultLimit).Some? ==>
              PagingWindow(m, defaultLimit).value ==
              (if IsSet(m.limit) then m.limit.value else defaultLimit) + m.offset.value
  {
  }

  /** The SQL cut of what the server returns is the page. */
  lemma CutOfServerRows<T>(rows: seq<T>, m: Model, defaultLimit: int, maxWindow: int)
    requires 0 <= defaultLimit <= maxWindow <= MAX_UINTEGER && WithinCaps(m, maxWindow)
    requires WindowedPlan(m, defaultLimit, maxWindow).Query?
    requires WindowedPlan(m, defaultLimit, maxWindow).suffix.Ordered?
    ensures var plan := WindowedPlan(m, defaultLimit, maxWindow);
            Cut(plan.suffix.limit, plan.suffix.offset, ServerRows(plan.pushed, defaultLimit, rows)) ==
            Page(m, defaultLimit, rows)
  {
    WindowIsExact(m, defaultLimit, maxWindow);
    var plan := WindowedPlan(m, defaultLimit, maxWindow);
    if plan.pushed.Some? {
      var limit := if IsSet(m.limit) then m.limit.value else defaultLimit;
    }
  }

  /** The push-down asks the server for the right rows: whatever order it returns
      them in, the answer is the page of the whole listing. */
  lemma WindowedPagingRefinesPage<T(!new)>(
      le: (T, T) -> bool, rows: seq<T>, m: Model, defaultLimit: int, maxWindow: int,
      served: seq<T>, delivered: seq<T>, answer: seq<T>)
    requires 0 <= defaultLimit <= maxWindow <= MAX_UINTEGER && WithinCaps(m, maxWindow)
    requires Listing(le, rows)
    requires WindowedPlan(m, defaultLimit, maxWindow).Query?
    requires served == ServerRows(WindowedPlan(m, defaultLimit, maxWindow).pushed, defaultLimit, rows)
    requires multiset(delivered) == multiset(served)
    requires Answers(le, WindowedPlan(m, defaultLimit, maxWindow).suffix, delivered, answer)
    ensures multiset(answer) == multiset(Page(m, defaultLimit, rows))
    ensures !WindowedPlan(m, defaultLimit, maxWindow).suffix.Plain? ==> answer == Page(m, defaultLimit, rows)
  {
    hide TotalPreorderOn, Sorted, Ties;
    var plan := WindowedPlan(m, defaultLimit, maxWindow);
    match plan.suffix
    case Plain =>
      assert served == Page(m, defaultLimit, rows);
    case LimitZero =>
      assert Page(m, defaultLimit, rows) == [];
    case Ordered(limit, offset) =>
      assert served == rows[..|served|];
      var ordered :| multiset(ordered) == multiset(delivered) && Sorted(le, ordered)
                     && answer == Cut(limit, offset, ordered);
      OrderRestoresPrefix(le, rows, |served|, ordered);
      CutOfServerRows(rows, m, defaultLimit, maxWindow);
  }

  /** Nothing overflows, the native limit stays between one and what the server
      can read, a page is refused exactly when its window is, and the window is passed on
      exactly when the server can read it. */
  lemma WindowedPagingBounds(m: Model, defaultLimit: int, maxWindow: int)
    requires 0 <= defaultLimit <= maxWindow <= MAX_UINTEGER && maxWindow > 0 && WithinCaps(m, maxWindow)
    ensures IsSet(m.limit) && IsSet(m.offset) ==> IsInt64(m.limit.value + m.offset.value)
    ensures IsSet(m.offset) ==> IsInt64(defaultLimit + m.offset.value)
    ensures var plan := WindowedPlan(m, defaultLimit, maxWindow);
            && (plan.Query? && plan.pushed.Some? ==> 1 <= plan.pushed.value <= maxWindow)
            && (plan.Rejected? <==> WindowRejected(m, defaultLimit, maxWindow))
            && (plan.Rejected? <==>
                 && defaultLimit > 0 && IsSet(m.offset) && m.offset.value > 0
                 && (if IsSet(m.limit) then m.limit.value else defaultLimit) + m.offset.value > maxWindow)
            && (plan.Query? && m.limit == Known(0) ==> plan.pushed == Some(1))
            && (plan.Query? && m.limit != Known(0) ==>
                  var window := Counted(m, defaultLimit) + if Skips(m) then m.offset.value else 0;
                  plan.pushed == if window <= maxWindow && (IsSet(m.limit) || (Skips(m) && defaultLimit > 0))
                                 then Some(window) else None)
  {
    WindowIsExact(m, defaultLimit, maxWindow);
  }

  /** Rows that a page counts from: the limit, or the default for an unset one. */
  function Counted(m: Model, defaultLimit: int): int {
    if IsSet(m.limit) then m.limit.value else defaultLimit
  }

  predicate Skips(m: Model) {
    IsSet(m.offset) && m.offset.value != 0
  }

  /** The caps are what keeps the native limit in range.  Without a nonzero offset a
      limit is passed on unchecked, and with one the sum may wrap around to a negative
      limit that passes the check. */
  lemma PushedLimitInRangeIff(m: Model, defaultLimit: int, maxWindow: int)
    requires 0 <= defaultLimit <= maxWindow <= MAX_INT64 && maxWindow > 0
    requires IsSet(m.limit) ==> 0 <= m.limit.value <= MAX_INT64
    requires IsSet(m.offset) ==> 0 <= m.offset.value <= MAX_INT64
    requires WindowedPlan(m, defaultLimit, maxWindow).Query?
    ensures var pushed := WindowedPlan(m, defaultLimit, maxWindow).pushed;
            (pushed.Some? ==> 1 <= pushed.value <= maxWindow) <==>
            || (IsSet(m.limit) && m.limit.value == 0)
            || (if Skips(m) then Counted(m, defaultLimit) + m.offset.value <= MAX_INT64
                else IsSet(m.limit) ==> m.limit.value <= maxWindow)
  {
    var sum := Counted(m, defaultLimit) + if IsSet(m.offset) then m.offset.value else 0;
    if sum > MAX_INT64 {
      WrapsOnce(sum);
    }
  }

  lemma WrapsOnce(sum: int)
    requires MAX_INT64 < sum <= 2 * MAX_INT64
    ensures WrapInt64(sum) == sum - TWO_TO_64 < 0
  {
  }

  /** Both ways out of the range, for a server that reads an unsigned 32-bit limit: an
      uncapped limit, and a sum that wraps around. */
  lemma UncappedLimitsLeaveTheRange()
    ensures WindowedPlan(Model(Known(4294967296), Null), 50, 4294967295) == Query(Some(4294967296), Plain)
    ensures var most := 9223372036854775807;
            WindowedPlan(Model(Known(most), Known(most)), 50, 4294967295) ==
            Query(Some(-2), Ordered(Some(most), Some(most)))
  {
    WrapsOnce(MAX_INT64 + MAX_INT64);
  }

  // ---------------------------------------------------------------------
  // nativeListLimit and appendOrderedRowLimitOffset
  // ---------------------------------------------------------------------

  function NativeListLimit(m: Model): Option<int> {
    if !IsSet(m.limit) then None
    else
      var limit, offset := m.limit.value, if IsSet(m.offset) then m.offset.value else 0;
      if limit > MAX_UINTEGER - 1 || offset > WrapInt64(MAX_UINTEGER - 1 - limit) then None
      else Some(WrapInt64(WrapInt64(limit + offset) + 1))
  }

  function OrderedSuffix(m: Model): Suffix {
    if !IsSet(m.limit) && !IsSet(m.offset) then Plain
    else Ordered(if IsSet(m.limit) then Some(m.limit.value) else None,
                 if IsSet(m.offset) then Some(m.offset.value) else None)
  }

  /** What the file listing may return for a native limit: leading keys, at most
      `n` of them, and short of `n` by at most the one dropped prefix key unless
      the listing ends there. */
  predicate ListsFiles<T(==)>(full: seq<T>, native: Option<int>, served: seq<T>) {
    && served <= full
    && (native.None? ==> served == full)
    && (native.Some? ==> |served| <= native.value && (|served| == |full| || |served| >= native.value - 1))
  }

  lemma NativeListLimitBounds(m: Model)
    requires IsSet(m.limit) ==> 0 <= m.limit.value <= MAX_INT64
    requires IsSet(m.offset) ==> 0 <= m.offset.value <= MAX_INT64
    ensures var native := NativeListLimit(m);
            var offset := if IsSet(m.offset) then m.offset.value else 0;
            && (native.Some? ==> 1 <= native.value <= 4294967295 && native.value == m.limit.value + offset + 1)
            && (native.Some? <==> IsSet(m.limit) && m.limit.value + offset + 1 <= 4294967295)
  {
  }

  lemma CutOfNativeListing<T>(full: seq<T>, m: Model, served: seq<T>)
    requires IsSet(m.limit) ==> 0 <= m.limit.value <= MAX_INT64
    requires IsSet(m.offset) ==> 0 <= m.offset.value <= MAX_INT64
    requires IsSet(m.limit) || IsSet(m.offset)
    requires ListsFiles(full, NativeListLimit(m), served)
    ensures Cut(OrderedSuffix(m).limit, OrderedSuffix(m).offset, served) == Page(m, 0, full)
  {
    NativeListLimitBounds(m);
    if NativeListLimit(m).Some? && |served| < |full| {
      var offset := if IsSet(m.offset) then m.offset.value else 0;
      assert served == Take(|served|, full);
      assert Drop(0, full) == full && Drop(0, served) == served;
    }
  }

  /** Stopping the listing early loses nothing: the page over what the server
      returned is the page over the full listing, for every limit and offset. */
  lemma NativeListingIsExact<T(!new)>(
      le: (T, T) -> bool, full: seq<T>, m: Model, native: Option<int>, suffix: Suffix,
      served: seq<T>, delivered: seq<T>, answer: seq<T>)
    requires IsSet(m.limit) ==> 0 <= m.limit.value <= MAX_INT64
    requires IsSet(m.offset) ==> 0 <= m.offset.value <= MAX_INT64
    requires native == NativeListLimit(m) && suffix == OrderedSuffix(m)
    requires Listing(le, full)
    requires ListsFiles(full, native, served)
    requires multiset(delivered) == multiset(served)
    requires Answers(le, suffix, delivered, answer)
    ensures multiset(answer) == multiset(Page(m, 0, full))
    ensures IsSet(m.limit) || IsSet(m.offset) ==> answer == Page(m, 0, full)
  {
    hide TotalPreorderOn, Sorted, Ties;
    if IsSet(m.limit) || IsSet(m.offset) {
      var ordered :| multiset(ordered) == multiset(delivered) && Sorted(le, ordered) &&
                     answer == Cut(suffix.limit, suffix.offset, ordered);
      assert served == full[..|served|];
      OrderRestoresPrefix(le, full, |served|, ordered);
      CutOfNativeListing(full, m, served);
    } else {
      assert Page(m, 0, full) == full;
    }
  }
}
