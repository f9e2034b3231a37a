/** The bounded search for a run in internal/resources/flight_run_resource.go. */
module FlightRuns {
  import opened Tf

  const PAGE_SIZE := 50
  const MAX_PAGES := 20

  /** A row of MD_LIST_FLIGHT_RUNS; numbers that are not integers are Missing. */
  datatype Row = Row(
    runId: string, status: string, runNumber: Live<int>, flightVersion: Live<int>, createdAt: string,
    isScheduled: Live<bool>, startedAt: Live<string>, endedAt: Live<string>, scheduledAt: Live<string>,
    cancelledAt: Live<string>, exitCode: Live<int>)

  /** The metadata of `flightRunModel`. */
  datatype Run = Run(
    id: Attr<string>, status: Attr<string>, runNumber: Attr<int>, flightVersion: Attr<int>, createdAt: Attr<string>,
    isScheduled: Attr<bool>, startedAt: Attr<string>, endedAt: Attr<string>, scheduledAt: Attr<string>,
    cancelledAt: Attr<string>, exitCode: Attr<int>)

  /** `setMetadata` of `flightRunRow`: a malformed flight_version reads as zero. */
  function FromRow(row: Row, runNumber: int): Run {
    Run(Known(row.runId), Known(row.status), Known(runNumber),
        Known(if row.flightVersion.Valid? then row.flightVersion.value else 0), Known(row.createdAt),
        FromLive(row.isScheduled), FromLive(row.startedAt), FromLive(row.endedAt), FromLive(row.scheduledAt),
        FromLive(row.cancelledAt), FromLive(row.exitCode))
  }

  /** The model shows this row, column by column. */
  predicate Shows(m: Run, row: Row) {
    && m.id == Known(row.runId) && m.status == Known(row.status) && m.createdAt == Known(row.createdAt)
    && (row.runNumber.Valid? ==> m.runNumber == Known(row.runNumber.value))
    && m.flightVersion == Known(if row.flightVersion.Valid? then row.flightVersion.value else 0)
    && m.isScheduled == FromLive(row.isScheduled) && m.startedAt == FromLive(row.startedAt)
    && m.endedAt == FromLive(row.endedAt) && m.scheduledAt == FromLive(row.scheduledAt)
    && m.cancelledAt == FromLive(row.cancelledAt) && m.exitCode == FromLive(row.exitCode)
  }

  datatype Reply = Rows(rows: seq<Row>) | NotFound | Failed

  /** The reply for each page. */
  type Listing = nat -> Reply

  datatype Result = Found(row: Row) | Absent | Error

  /** The rows of one page: the target, a row without a number, or neither. */
  function SearchRows(rows: seq<Row>, target: int): Result {
    if rows == [] then Absent
    else if rows[0].runNumber.Missing? then Error
    else if rows[0].runNumber.value == target then Found(rows[0])
    else SearchRows(rows[1..], target)
  }

  predicate HasOlder(rows: seq<Row>, target: int) {
    exists i :: 0 <= i < |rows| && rows[i].runNumber.Valid? && rows[i].runNumber.value < target
  }

  /** The search from a page on. */
  function Search(list: Listing, target: int, page: nat, previousFirst: string): Result
    decreases MAX_PAGES - page
  {
    if page >= MAX_PAGES then Absent
    else
      match list(page)
      case NotFound => Absent
      case Failed => Error
      case Rows(rows) =>
        if rows == [] || rows[0].runId == previousFirst then Absent
        else
          var found := SearchRows(rows, target);
          if !found.Absent? then found
          else if HasOlder(rows, target) || |rows| < PAGE_SIZE then Absent
          else Search(list, target, page + 1, rows[0].runId)
  }

  class FlightRunResource {
    var model: Run

    constructor (model: Run)
      ensures this.model == model
    {
      this.model := model;
    }

    method SearchPage(rows: seq<Row>, target: int) returns (found: bool, failed: bool, olderSeen: bool)
      modifies this
      ensures found == SearchRows(rows, target).Found? && failed == SearchRows(rows, target).Error?
      ensures !found && !failed ==> olderSeen == HasOlder(rows, target)
      ensures model == if found then FromRow(SearchRows(rows, target).row, target) else old(model)
    {
      olderSeen := false;
      var i := 0;
      while i < |rows|
        invariant 0 <= i <= |rows|
        invariant SearchRows(rows[i..], target) == SearchRows(rows, target)
        invariant olderSeen <==> HasOlder(rows[..i], target)
        invariant model == old(model)
      {
        var row := rows[i];
        if row.runNumber.Missing? {
          return false, true, olderSeen;
        }
        if row.runNumber.value == target {
          model := FromRow(row, row.runNumber.value);
          return true, false, olderSeen;
        }
        OlderSnoc(rows, i, target);
        if row.runNumber.value < target {
          olderSeen := true;
        }
        i := i + 1;
      }
      assert rows[..|rows|] == rows;
      return false, false, olderSeen;
    }

    method FindFlightRunInListing(list: Listing, target: int) returns (found: bool, failed: bool)
      modifies this
      ensures found == Search(list, target, 0, "").Found? && failed == Search(list, target, 0, "").Error?
      ensures model == if found then FromRow(Search(list, target, 0, "").row, target) else old(model)
      ensures found ==> Shows(model, Search(list, target, 0, "").row)
    {
      SearchFindsTheTarget(list, target, 0, "");
      var previousFirst := "";
      var page := 0;
      while page < MAX_PAGES
        invariant 0 <= page <= MAX_PAGES
        invariant Search(list, target, page, previousFirst) == Search(list, target, 0, "")
        invariant model == old(model)
      {
        var reply := list(page);
        if reply.NotFound? {
          return false, false;
        }
        if reply.Failed? {
          return false, true;
        }
        if |reply.rows| == 0 || reply.rows[0].runId == previousFirst {
          return false, false;
        }
        previousFirst := reply.rows[0].runId;
        var olderSeen;
        found, failed, olderSeen := SearchPage(reply.rows, target);
        if found || failed {
          return;
        }
        if olderSeen || |reply.rows| < PAGE_SIZE {
          return false, false;
        }
        page := page + 1;
      }
      return false, false;
    }
  }

  lemma OlderSnoc(rows: seq<Row>, i: nat, target: int)
    requires i < |rows|
    ensures HasOlder(rows[..i + 1], target) <==>
            HasOlder(rows[..i], target) || (rows[i].runNumber.Valid? && rows[i].runNumber.value < target)
  {
    var more := rows[..i + 1];
    if HasOlder(rows[..i], target) {
      var k :| 0 <= k < i && rows[..i][k].runNumber.Valid? && rows[..i][k].runNumber.value < target;
      assert more[k] == rows[..i][k];
    }
    if rows[i].runNumber.Valid? && rows[i].runNumber.value < target {
      assert more[i] == rows[i];
    }
    if HasOlder(more, target) {
      var k :| 0 <= k < |more| && more[k].runNumber.Valid? && more[k].runNumber.value < target;
      if k < i {
        assert rows[..i][k] == more[k];
      }
    }
  }

  // ---------------------------------------------------------------------
  // Any server
  // ---------------------------------------------------------------------

  lemma {:induction false} SearchRowsFinds(rows: seq<Row>, target: int)
    ensures SearchRows(rows, target).Found? ==>
              SearchRows(rows, target).row in rows && SearchRows(rows, target).row.runNumber == Valid(target)
    ensures SearchRows(rows, target).Absent? <==>
              forall i :: 0 <= i < |rows| ==> rows[i].runNumber.Valid? && rows[i].runNumber.value != target
  {
    if rows != [] {
      SearchRowsFinds(rows[1..], target);
      assert forall i :: 0 < i < |rows| ==> rows[i] == rows[1..][i - 1];
      assert SearchRows(rows[1..], target).Found? ==> SearchRows(rows[1..], target).row in rows;
    }
  }

  lemma SearchFindsTheTarget(list: Listing, target: int, page: nat, previousFirst: string)
    ensures var r := Search(list, target, page, previousFirst); r.Found? ==> r.row.runNumber == Valid(target)
  {
    FoundRunIsListed(list, target, page, previousFirst);
  }

  /** Whatever the server replies: a run that is found is a row of one of the first
      twenty pages with that number. */
  lemma {:induction false} FoundRunIsListed(list: Listing, target: int, page: nat, previousFirst: string)
    ensures var r := Search(list, target, page, previousFirst);
            r.Found? ==>
              && r.row.runNumber == Valid(target)
              && exists p :: page <= p < MAX_PAGES && list(p).Rows? && r.row in list(p).rows
    decreases MAX_PAGES - page
  {
    if page < MAX_PAGES && list(page).Rows? {
      var rows := list(page).rows;
      SearchRowsFinds(rows, target);
      if rows != [] && SearchRows(rows, target).Absent? {
        FoundRunIsListed(list, target, page + 1, rows[0].runId);
      } else {
        assert page <= page < MAX_PAGES;
      }
    }
  }

  /** A page that tells the search to go on: full, not a repetition of the page before,
      and with nothing but newer runs. */
  predicate PassesOn(list: Listing, target: int, p: nat) {
    && list(p).Rows? && |list(p).rows| >= 50 && !Repeats(list, p)
    && forall i :: 0 <= i < |list(p).rows| ==>
         list(p).rows[i].runNumber.Valid? && list(p).rows[i].runNumber.value > target
  }

  /** The first ID is the one of the page before, or empty on the first page. */
  predicate Repeats(list: Listing, p: nat)
    requires list(p).Rows? && list(p).rows != []
  {
    list(p).rows[0].runId ==
    if p > 0 && list(p - 1).Rows? && list(p - 1).rows != [] then list(p - 1).rows[0].runId else ""
  }

  /** Rows before `i` are numbered, and none of them is the target. */
  predicate OthersBefore(rows: seq<Row>, target: int, i: nat) {
    forall j :: 0 <= j < i && j < |rows| ==> rows[j].runNumber.Valid? && rows[j].runNumber.value != target
  }

  ghost predicate FoundIn(rows: seq<Row>, target: int, row: Row) {
    row.runNumber == Valid(target) && exists i :: 0 <= i < |rows| && rows[i] == row && OthersBefore(rows, target, i)
  }

  ghost predicate FailsIn(rows: seq<Row>, target: int) {
    exists i :: 0 <= i < |rows| && rows[i].runNumber.Missing? && OthersBefore(rows, target, i)
  }

  /** How the search ends at a page that does not pass on. */
  ghost predicate EndsWith(list: Listing, target: int, p: nat, r: Result) {
    match list(p)
    case NotFound => r == Absent
    case Failed => r == Error
    case Rows(rows) =>
      if rows == [] || Repeats(list, p) then r == Absent
      else
        match r
        case Found(row) => FoundIn(rows, target, row)
        case Error => FailsIn(rows, target)
        case Absent => OthersBefore(rows, target, |rows|)
  }

  lemma {:induction false} SearchRowsEnds(rows: seq<Row>, target: int)
    ensures match SearchRows(rows, target)
            case Found(row) => FoundIn(rows, target, row)
            case Error => FailsIn(rows, target)
            case Absent => OthersBefore(rows, target, |rows|)
  {
    if rows != [] && rows[0].runNumber.Valid? && rows[0].runNumber.value != target {
      var more := rows[1..];
      SearchRowsEnds(more, target);
      forall i | 0 <= i <= |more| && OthersBefore(more, target, i) ensures OthersBefore(rows, target, i + 1) {
        forall j | 0 < j < i + 1 && j < |rows|
          ensures rows[j].runNumber.Valid? && rows[j].runNumber.value != target
        {
          assert rows[j] == more[j - 1];
        }
      }
      match SearchRows(more, target)
      case Found(row) =>
        var i :| 0 <= i < |more| && more[i] == row && OthersBefore(more, target, i);
        assert rows[i + 1] == row;
      case Error =>
        var i :| 0 <= i < |more| && more[i].runNumber.Missing? && OthersBefore(more, target, i);
        assert rows[i + 1] == more[i];
      case Absent =>
    } else if rows != [] {
      assert OthersBefore(rows, target, 0);
      assert rows[0] == rows[0];
    }
  }

  /** Whatever the server replies, the search stops at the first page that does not pass
      on, within the first twenty, and how it ends can be read off that page: a listing
      that fails and a run without a number are errors, never an absent run. */
  lemma SearchStopsAt(list: Listing, target: int, p: nat)
    requires p <= 20 && forall q :: 0 <= q < p ==> PassesOn(list, target, q)
    requires p < 20 ==> !PassesOn(list, target, p)
    ensures p == 20 ==> Search(list, target, 0, "") == Absent
    ensures p < 20 ==> EndsWith(list, target, p, Search(list, target, 0, ""))
  {
    SearchStopsFrom(list, target, p, 0, "");
  }

  lemma {:induction false} SearchStopsFrom(list: Listing, target: int, p: nat, page: nat, previous: string)
    requires page <= p <= 20 && forall q :: page <= q < p ==> PassesOn(list, target, q)
    requires p < 20 ==> !PassesOn(list, target, p)
    requires previous == if page > 0 && list(page - 1).Rows? && list(page - 1).rows != []
                         then list(page - 1).rows[0].runId else ""
    ensures p == 20 ==> Search(list, target, page, previous) == Absent
    ensures p < 20 ==> EndsWith(list, target, p, Search(list, target, page, previous))
    decreases p - page
  {
    hide OthersBefore, HasOlder;
    if page < p {
      assert PassesOn(list, target, page);
      PassesNothing(list(page).rows, target);
      SearchStopsFrom(list, target, p, page + 1, list(page).rows[0].runId);
    } else if p < 20 && list(p).Rows? && list(p).rows != [] && !Repeats(list, p) {
      SearchRowsEnds(list(p).rows, target);
      if SearchRows(list(p).rows, target).Absent? && !HasOlder(list(p).rows, target) {
        AllAreNewer(list(p).rows, target);
      }
    }
  }

  lemma PassesNothing(rows: seq<Row>, target: int)
    requires forall i :: 0 <= i < |rows| ==> rows[i].runNumber.Valid? && rows[i].runNumber.value > target
    ensures SearchRows(rows, target).Absent? && !HasOlder(rows, target)
  {
    SearchRowsFinds(rows, target);
  }

  lemma AllAreNewer(rows: seq<Row>, target: int)
    requires SearchRows(rows, target).Absent? && !HasOlder(rows, target)
    ensures forall i :: 0 <= i < |rows| ==> rows[i].runNumber.Valid? && rows[i].runNumber.value > target
  {
    SearchRowsFinds(rows, target);
  }

  // ---------------------------------------------------------------------
  // A fixed listing
  // ---------------------------------------------------------------------

  /** Newest first: run numbers are integers and descend, run IDs differ. */
  ghost predicate NewestFirst(runs: seq<Row>) {
    && (forall i :: 0 <= i < |runs| ==> runs[i].runNumber.Valid?)
    && (forall i, j :: 0 <= i < j < |runs| ==> runs[i].runNumber.value > runs[j].runNumber.value)
    && (forall i, j :: 0 <= i < j < |runs| ==> runs[i].runId != runs[j].runId)
  }

  function Min(a: nat, b: nat): nat {
    if a <= b then a else b
  }

  /** A page of the listing: `LIMIT 50 OFFSET 50 * page`. */
  function PageOf(runs: seq<Row>, page: nat): seq<Row> {
    runs[Min(page * PAGE_SIZE, |runs|)..Min((page + 1) * PAGE_SIZE, |runs|)]
  }

  function Serve(runs: seq<Row>): Listing {
    (page: nat) => Rows(PageOf(runs, page))
  }

  predicate Listed(runs: seq<Row>, target: int, from: int, to: int) {
    exists i :: from <= i < to && 0 <= i < |runs| && runs[i].runNumber == Valid(target)
  }

  /** The k-th row of a page is the run at its offset. */
  lemma PageAt(runs: seq<Row>, page: nat, k: nat)
    requires k < |PageOf(runs, page)|
    ensures page * PAGE_SIZE + k < |runs| && page * PAGE_SIZE + k < (page + 1) * PAGE_SIZE
    ensures PageOf(runs, page)[k] == runs[page * PAGE_SIZE + k]
  {
  }

  lemma RunIsOnItsPage(runs: seq<Row>, page: nat, i: nat)
    requires page * PAGE_SIZE <= i < (page + 1) * PAGE_SIZE && i < |runs|
    ensures i - page * PAGE_SIZE < |PageOf(runs, page)|
  {
  }

  lemma PageSearch(runs: seq<Row>, target: int, page: nat)
    requires NewestFirst(runs)
    ensures var r := SearchRows(PageOf(runs, page), target);
            && (r.Found? <==> Listed(runs, target, page * PAGE_SIZE, (page + 1) * PAGE_SIZE))
            && !r.Error?
  {
    hide PageOf, SearchRows;
    var rows := PageOf(runs, page);
    forall k | 0 <= k < |rows|
      ensures page * PAGE_SIZE + k < |runs| && page * PAGE_SIZE + k < (page + 1) * PAGE_SIZE
      ensures rows[k] == runs[page * PAGE_SIZE + k]
    {
      PageAt(runs, page, k);
    }
    NoErrorInNumbers(rows, target);
    SearchRowsFinds(rows, target);
    if Listed(runs, target, page * PAGE_SIZE, (page + 1) * PAGE_SIZE) {
      var i :| page * PAGE_SIZE <= i < (page + 1) * PAGE_SIZE && 0 <= i < |runs| && runs[i].runNumber == Valid(target);
      RunIsOnItsPage(runs, page, i);
      assert rows[i - page * PAGE_SIZE].runNumber == Valid(target);
    }
  }

  lemma {:induction false} NoErrorInNumbers(rows: seq<Row>, target: int)
    requires forall i :: 0 <= i < |rows| ==> rows[i].runNumber.Valid?
    ensures !SearchRows(rows, target).Error?
  {
    if rows != [] {
      NoErrorInNumbers(rows[1..], target);
    }
  }

  /** The exits are sound: past a page with an older run, a short page or an empty one,
      the target is not listed. */
  lemma NothingIsLeft(runs: seq<Row>, target: int, page: nat)
    requires NewestFirst(runs)
    requires var rows := PageOf(runs, page); HasOlder(rows, target) || |rows| < PAGE_SIZE
    ensures !Listed(runs, target, (page + 1) * PAGE_SIZE, |runs|)
  {
    var rows, from := PageOf(runs, page), Min(page * PAGE_SIZE, |runs|);
    if HasOlder(rows, target) {
      var i :| 0 <= i < |rows| && rows[i].runNumber.Valid? && rows[i].runNumber.value < target;
      assert runs[from + i] == rows[i];
    }
  }

  lemma ListedSplits(runs: seq<Row>, target: int, from: nat, middle: nat, to: nat)
    requires from <= middle <= to
    ensures Listed(runs, target, from, to) <==> Listed(runs, target, from, middle) || Listed(runs, target, middle, to)
  {
    if Listed(runs, target, from, to) {
      var i :| from <= i < to && 0 <= i < |runs| && runs[i].runNumber == Valid(target);
      assert i < middle || middle <= i;
    }
  }

  /** From the second page on: no first ID repeats, so the search finds exactly the
      targets among the runs that are left of the newest 1,000. */
  lemma {:induction false} SearchFromIsExact(runs: seq<Row>, target: int, page: nat, previousFirst: string)
    requires NewestFirst(runs) && page <= MAX_PAGES
    requires page * PAGE_SIZE < |runs| ==> runs[page * PAGE_SIZE].runId != previousFirst
    ensures var r := Search(Serve(runs), target, page, previousFirst);
            && (r.Found? <==> Listed(runs, target, page * PAGE_SIZE, MAX_PAGES * PAGE_SIZE))
            && !r.Error?
    decreases MAX_PAGES - page
  {
    if page < MAX_PAGES {
      var rows := PageOf(runs, page);
      PageSearch(runs, target, page);
      ListedSplits(runs, target, page * PAGE_SIZE, (page + 1) * PAGE_SIZE, MAX_PAGES * PAGE_SIZE);
      if rows != [] {
        assert rows[0] == runs[page * PAGE_SIZE];
      }
      if HasOlder(rows, target) || |rows| < PAGE_SIZE {
        NothingIsLeft(runs, target, page);
        ListedWithin(runs, target, (page + 1) * PAGE_SIZE);
      } else {
        SearchFromIsExact(runs, target, page + 1, rows[0].runId);
      }
    }
  }

  lemma ListedWithin(runs: seq<Row>, target: int, from: nat)
    requires !Listed(runs, target, from, |runs|)
    ensures forall to :: !Listed(runs, target, from, to)
  {
  }

  /** On a fixed listing the run is found exactly when it is among the newest 1,000,
      provided that the newest run has a non-empty ID: with an empty one, which equals
      the initial `previousFirstRunID`, nothing is found. */
  lemma FoundIffAmongNewest(runs: seq<Row>, target: int)
    requires NewestFirst(runs)
    ensures var r := Search(Serve(runs), target, 0, "");
            && (r.Found? <==> Listed(runs, target, 0, 1000) && runs[0].runId != "")
            && !r.Error?
  {
    if runs == [] || runs[0].runId != "" {
      SearchFromIsExact(runs, target, 0, "");
    } else {
      assert PageOf(runs, 0)[0] == runs[0];
    }
  }

  /** The row that is found is the one of that number, so the model ends with its
      data. */
  lemma FoundRowIsTheRun(runs: seq<Row>, target: int, i: nat)
    requires NewestFirst(runs) && i < |runs| && i < 1000 && runs[0].runId != ""
    requires runs[i].runNumber == Valid(target)
    ensures Search(Serve(runs), target, 0, "") == Found(runs[i])
  {
    hide Search, PageOf;
    FoundIffAmongNewest(runs, target);
    assert Listed(runs, target, 0, 1000);
    FoundRunIsListed(Serve(runs), target, 0, "");
    var r := Search(Serve(runs), target, 0, "");
    var p :| 0 <= p < MAX_PAGES && r.row in PageOf(runs, p);
    var k :| 0 <= k < |PageOf(runs, p)| && PageOf(runs, p)[k] == r.row;
    PageAt(runs, p, k);
    assert runs[p * PAGE_SIZE + k].runNumber == Valid(target);
  }

  /** A listing whose newest run has an empty ID hides even that run. */
  lemma EmptyIdHidesTheListing(row: Row)
    requires row.runId == "" && row.runNumber.Valid?
    ensures NewestFirst([row]) && Listed([row], row.runNumber.value, 0, 1000)
    ensures Search(Serve([row]), row.runNumber.value, 0, "").Absent?
  {
    assert [row][0].runNumber == Valid(row.runNumber.value);
    FoundIffAmongNewest([row], row.runNumber.value);
  }
}
