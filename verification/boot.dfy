/** `oneTimeInitializer.run` of internal/client/sql/client.go: the bootstrap of
    the shared database, resumed by every new connection until it is complete. */
module Boot {
  import opened SqlBuild

  /** How a connection answers one statement. */
  datatype Reply = Done | AlreadyAttached | Failed | Answer(database: string)

  /** What went over a connection: a boot query, its retry with IF NOT EXISTS,
      the read of the default database, or its selection. */
  datatype Event =
    | Executed(query: string, reply: Reply)
    | Retried(query: string, retry: string, reply: Reply)
    | ReadDefault(reply: Reply)
    | Selected(statement: string, reply: Reply)

  /** The n-th statement ever sent gets the n-th answer. */
  type Server = nat -> Reply

  datatype State = State(next: nat, initialized: bool, defaultDatabase: string, log: seq<Event>)

  const START := State(0, false, "", [])

  const ATTACH := "ATTACH "

  predicate IsAttach(query: string) {
    ATTACH <= query
  }

  /** `strings.Replace(query, "ATTACH ", "ATTACH IF NOT EXISTS ", 1)` */
  function RetryQuery(query: string): string
    requires IsAttach(query)
  {
    "ATTACH IF NOT EXISTS " + query[|ATTACH|..]
  }

  function UseStatement(database: string): string {
    "USE " + QuoteIdentifier(database)
  }

  /** Sends the remaining boot queries; stops at the first that does not
      complete. */
  function RunQueries(queries: seq<string>, server: Server, st: State): (State, bool)
    decreases |queries| - st.next
  {
    if st.next >= |queries| then (st, true)
    else
      var query := queries[st.next];
      if '\0' in query then (st, false)
      else
        var reply := server(|st.log|);
        var sent := st.(log := st.log + [Executed(query, reply)]);
        if reply == Done then RunQueries(queries, server, sent.(next := st.next + 1))
        else if IsAttach(query) && reply == AlreadyAttached then
          var second := server(|sent.log|);
          var again := sent.(log := sent.log + [Retried(query, RetryQuery(query), second)]);
          if second == Done then RunQueries(queries, server, again.(next := st.next + 1)) else (again, false)
        else (sent, false)
  }

  /** One connect.  `queryable` says whether the connection can be asked for its
      current database. */
  function Connect(queries: seq<string>, server: Server, queryable: bool, st: State): (State, bool) {
    if st.initialized then
      if st.defaultDatabase == "" then (st, true)
      else
        var reply := server(|st.log|);
        (st.(log := st.log + [Selected(UseStatement(st.defaultDatabase), reply)]), reply == Done)
    else
      var (booted, ok) := RunQueries(queries, server, st);
      if !ok then (booted, false)
      else if !queryable then (booted.(initialized := true), true)
      else
        var reply := server(|booted.log|);
        var asked := booted.(log := booted.log + [ReadDefault(reply)]);
        if reply.Answer? then (asked.(initialized := true, defaultDatabase := reply.database), true)
        else (asked, false)
  }

  // ---------------------------------------------------------------------
  // The object of the source
  // ---------------------------------------------------------------------

  /** A connection to the server, with all that was ever sent to it. */
  class Execer {
    const server: Server
    const queryable: bool
    var log: seq<Event>

    constructor (server: Server, queryable: bool, log: seq<Event>)
      ensures this.server == server && this.queryable == queryable && this.log == log
    {
      this.server, this.queryable, this.log := server, queryable, log;
    }
  }

  class OneTimeInitializer {
    var initialized: bool
    var next: nat
    var defaultDatabase: string
    const queries: seq<string>

    constructor (queries: seq<string>)
      ensures this.queries == queries
      ensures initialized == false && next == 0 && defaultDatabase == ""
    {
      this.queries := queries;
      initialized, next, defaultDatabase := false, 0, "";
    }

    function StateOn(execer: Execer): State
      reads this, execer
    {
      State(next, initialized, defaultDatabase, execer.log)
    }

    method Run(execer: Execer) returns (ok: bool)
      modifies this, execer
      ensures (StateOn(execer), ok) == Connect(queries, execer.server, execer.queryable, old(StateOn(execer)))
    {
      if initialized {
        if defaultDatabase == "" {
          return true;
        }
        var reply := execer.server(|execer.log|);
        execer.log := execer.log + [Selected(UseStatement(defaultDatabase), reply)];
        return reply == Done;
      }
      var booted := RunBootQueries(execer);
      if !booted {
        return false;
      }
      if execer.queryable {
        var reply := execer.server(|execer.log|);
        execer.log := execer.log + [ReadDefault(reply)];
        if !reply.Answer? {
          return false;
        }
        defaultDatabase := reply.database;
      }
      initialized := true;
      return true;
    }

    method RunBootQueries(execer: Execer) returns (ok: bool)
      modifies this`next, execer
      ensures (StateOn(execer), ok) == RunQueries(queries, execer.server, old(StateOn(execer)))
    {
      while next < |queries|
        invariant RunQueries(queries, execer.server, StateOn(execer)) ==
                  RunQueries(queries, execer.server, old(StateOn(execer)))
        decreases |queries| - next
      {
        var query := queries[next];
        if '\0' in query {
          return false;
        }
        var reply := execer.server(|execer.log|);
        execer.log := execer.log + [Executed(query, reply)];
        if reply != Done {
          if IsAttach(query) && reply == AlreadyAttached {
            var second := execer.server(|execer.log|);
            execer.log := execer.log + [Retried(query, RetryQuery(query), second)];
            if second == Done {
              next := next + 1;
              continue;
            }
          }
          return false;
        }
        next := next + 1;
      }
      return true;
    }
  }

  // ---------------------------------------------------------------------
  // Whole runs
  // ---------------------------------------------------------------------

  /** The boot queries that the log shows as completed.  A retry completes the
      query it stands for. */
  function Completed(log: seq<Event>): seq<string> {
    if log == [] then []
    else
      Completed(log[..|log| - 1]) +
      match log[|log| - 1]
      case Executed(query, Done) => [query]
      case Retried(query, _, Done) => [query]
      case _ => []
  }

  lemma CompletedSnoc(log: seq<Event>, e: Event)
    ensures Completed(log + [e]) == Completed(log) + Completed([e])
  {
    assert (log + [e])[..|log|] == log;
    assert [e][..0] == [];
  }

  /** The log agrees with the counter, and initialization follows the queries. */
  ghost predicate Consistent(queries: seq<string>, st: State) {
    && st.next <= |queries|
    && Completed(st.log) == queries[..st.next]
    && (st.initialized ==> st.next == |queries|)
    && (!st.initialized ==> st.defaultDatabase == "")
  }

  /** One more event: it completes the next query, or none. */
  lemma EventCompletes(queries: seq<string>, st: State, e: Event)
    requires Consistent(queries, st) && !st.initialized && st.next < |queries|
    requires (e.Executed? || e.Retried?) && e.query == queries[st.next] && e.reply == Done
    ensures Consistent(queries, st.(log := st.log + [e], next := st.next + 1))
  {
    CompletedSnoc(st.log, e);
    assert [e][..0] == [];
    assert queries[..st.next + 1] == queries[..st.next] + [e.query];
  }

  lemma EventCompletesNothing(queries: seq<string>, st: State, e: Event)
    requires Consistent(queries, st) && (e.Executed? || e.Retried? ==> e.reply != Done)
    ensures Consistent(queries, st.(log := st.log + [e]))
  {
    CompletedSnoc(st.log, e);
    assert [e][..0] == [];
  }

  lemma {:induction false} RunQueriesConsistent(queries: seq<string>, server: Server, st: State)
    requires Consistent(queries, st) && !st.initialized
    ensures var (after, ok) := RunQueries(queries, server, st);
            && Consistent(queries, after) && !after.initialized
            && after.next >= st.next && st.log <= after.log
            && (ok ==> after.next == |queries|)
    decreases |queries| - st.next
  {
    hide Completed, IsAttach, RetryQuery;
    if st.next < |queries| && '\0' !in queries[st.next] {
      var query := queries[st.next];
      var reply := server(|st.log|);
      var e := Executed(query, reply);
      if reply == Done {
        EventCompletes(queries, st, e);
        RunQueriesConsistent(queries, server, st.(log := st.log + [e], next := st.next + 1));
      } else {
        EventCompletesNothing(queries, st, e);
        var sent := st.(log := st.log + [e]);
        if IsAttach(query) && reply == AlreadyAttached {
          var second := Retried(query, RetryQuery(query), server(|sent.log|));
          if second.reply == Done {
            EventCompletes(queries, sent, second);
            RunQueriesConsistent(queries, server, sent.(log := sent.log + [second], next := sent.next + 1));
          } else {
            EventCompletesNothing(queries, sent, second);
          }
        }
      }
    }
  }

  lemma ConnectConsistent(queries: seq<string>, server: Server, queryable: bool, st: State)
    requires Consistent(queries, st)
    ensures var (after, _) := Connect(queries, server, queryable, st);
            && Consistent(queries, after)
            && after.next >= st.next && st.log <= after.log
            && (st.initialized ==> after.initialized && after.defaultDatabase == st.defaultDatabase)
  {
    if st.initialized {
      var e := Selected(UseStatement(st.defaultDatabase), server(|st.log|));
      CompletedSnoc(st.log, e);
      assert [e][..0] == [];
    } else {
      RunQueriesConsistent(queries, server, st);
      var booted := RunQueries(queries, server, st).0;
      var e := ReadDefault(server(|booted.log|));
      CompletedSnoc(booted.log, e);
      assert [e][..0] == [];
    }
  }

  /** The state after one connect for each entry of the list. */
  function Connects(queries: seq<string>, server: Server, queryable: seq<bool>): State {
    if queryable == [] then START
    else Connect(queries, server, queryable[|queryable| - 1], Connects(queries, server, queryable[..|queryable| - 1])).0
  }

  /** In every run, whatever fails, the queries complete in order and each
      completes once: the completed ones are exactly the first `next`. */
  lemma {:induction false} BootResumesExactly(queries: seq<string>, server: Server, queryable: seq<bool>)
    ensures var st := Connects(queries, server, queryable);
            && st.next <= |queries|
            && Completed(st.log) == queries[..st.next]
            && (st.initialized ==> Completed(st.log) == queries)
    decreases |queryable|
  {
    RunConsistent(queries, server, queryable);
  }

  lemma {:induction false} RunConsistent(queries: seq<string>, server: Server, queryable: seq<bool>)
    ensures Consistent(queries, Connects(queries, server, queryable))
    decreases |queryable|
  {
    if queryable != [] {
      var earlier := queryable[..|queryable| - 1];
      RunConsistent(queries, server, earlier);
      ConnectConsistent(queries, server, queryable[|queryable| - 1], Connects(queries, server, earlier));
    }
  }

  /** A retry stands right behind an ATTACH that was reported as attached already, with IF
      NOT EXISTS put into its text, and every such ATTACH has one; no query that holds a
      NUL byte is sent. */
  ghost predicate RetriesAreExact(log: seq<Event>) {
    && (forall i :: 0 <= i < |log| && log[i].Executed? ==> '\0' !in log[i].query)
    && (forall i :: 0 <= i < |log| && log[i].Retried? ==>
          && i > 0 && log[i - 1] == Executed(log[i].query, AlreadyAttached)
          && "ATTACH " <= log[i].query && log[i].retry == "ATTACH IF NOT EXISTS " + log[i].query[7..])
    && (forall i :: 0 <= i < |log| && log[i].Executed? && log[i].reply.AlreadyAttached? && "ATTACH " <= log[i].query ==>
          i + 1 < |log| && log[i + 1].Retried?)
  }

  lemma RetriesAppend(log: seq<Event>, e: Event)
    requires RetriesAreExact(log) && !e.Retried?
    requires e.Executed? ==> '\0' !in e.query && ("ATTACH " <= e.query ==> !e.reply.AlreadyAttached?)
    ensures RetriesAreExact(log + [e])
  {
  }

  lemma RetryAppends(log: seq<Event>, query: string, second: Reply)
    requires RetriesAreExact(log) && IsAttach(query) && '\0' !in query
    ensures RetriesAreExact(log + [Executed(query, AlreadyAttached)] + [Retried(query, RetryQuery(query), second)])
  {
  }

  lemma {:induction false} QueriesRetryExactly(queries: seq<string>, server: Server, st: State)
    requires RetriesAreExact(st.log)
    ensures RetriesAreExact(RunQueries(queries, server, st).0.log)
    decreases |queries| - st.next
  {
    hide RetriesAreExact;
    if st.next < |queries| && '\0' !in queries[st.next] {
      var query, reply := queries[st.next], server(|st.log|);
      if IsAttach(query) && reply == AlreadyAttached {
        var second := server(|st.log + [Executed(query, reply)]|);
        var log := st.log + [Executed(query, reply)] + [Retried(query, RetryQuery(query), second)];
        RetryAppends(st.log, query, second);
        QueriesRetryExactly(queries, server, st.(log := log, next := st.next + 1));
      } else {
        RetriesAppend(st.log, Executed(query, reply));
        QueriesRetryExactly(queries, server, st.(log := st.log + [Executed(query, reply)], next := st.next + 1));
      }
    }
  }

  /** In every run, whatever fails, exactly the ATTACH queries that were reported as
      attached already are retried, at once, and no query with a NUL byte is sent. */
  lemma {:induction false} RunRetriesExactly(queries: seq<string>, server: Server, queryable: seq<bool>)
    ensures RetriesAreExact(Connects(queries, server, queryable).log)
    decreases |queryable|
  {
    if queryable != [] {
      var earlier := queryable[..|queryable| - 1];
      RunRetriesExactly(queries, server, earlier);
      var st := Connects(queries, server, earlier);
      hide RetriesAreExact;
      if st.initialized {
        RetriesAppend(st.log, Selected(UseStatement(st.defaultDatabase), server(|st.log|)));
      } else {
        QueriesRetryExactly(queries, server, st);
        var booted := RunQueries(queries, server, st).0;
        RetriesAppend(booted.log, ReadDefault(server(|booted.log|)));
      }
    }
  }

  /** A retry that is done completes the query, and the boot goes on with the next one. */
  lemma RetryCompletesTheQuery(queries: seq<string>, server: Server, st: State)
    requires st.next < |queries| && '\0' !in queries[st.next] && "ATTACH " <= queries[st.next]
    requires server(|st.log|) == AlreadyAttached && server(|st.log| + 1) == Done
    ensures var query := queries[st.next];
            var retried := Retried(query, "ATTACH IF NOT EXISTS " + query[7..], Done);
            RunQueries(queries, server, st) ==
            RunQueries(queries, server,
                       st.(next := st.next + 1, log := st.log + [Executed(query, AlreadyAttached)] + [retried]))
  {
    assert |st.log + [Executed(queries[st.next], AlreadyAttached)]| == |st.log| + 1;
  }

  /** Later connects never take anything back. */
  lemma {:induction false} RunsOnlyAdvance(queries: seq<string>, server: Server, queryable: seq<bool>, n: nat)
    requires n <= |queryable|
    ensures var early, late := Connects(queries, server, queryable[..n]), Connects(queries, server, queryable);
            && early.next <= late.next && early.log <= late.log
            && (early.initialized ==> late.initialized && late.defaultDatabase == early.defaultDatabase)
    decreases |queryable|
  {
    if n == |queryable| {
      assert queryable[..n] == queryable;
    } else {
      var earlier := queryable[..|queryable| - 1];
      RunConsistent(queries, server, earlier);
      ConnectConsistent(queries, server, queryable[|queryable| - 1], Connects(queries, server, earlier));
      RunsOnlyAdvance(queries, server, earlier, n);
      assert earlier[..n] == queryable[..n];
    }
  }

  /** Once all queries completed, a connect sends none of them again: it only
      reads the default database, even if that read failed before. */
  lemma CompletedQueriesAreNotResent(queries: seq<string>, server: Server, queryable: bool, st: State)
    requires !st.initialized && st.next == |queries|
    ensures var (after, ok) := Connect(queries, server, queryable, st);
            && after.log == st.log + (if queryable then [ReadDefault(server(|st.log|))] else [])
            && (ok <==> queryable ==> server(|st.log|).Answer?)
  {
  }

  /** A connect is reported as good exactly if it leaves the shared database initialized,
      and later ones exactly if the default database could be selected. */
  lemma ConnectReportsInitialization(queries: seq<string>, server: Server, queryable: bool, st: State)
    ensures var (after, ok) := Connect(queries, server, queryable, st);
            && (!st.initialized ==> (ok <==> after.initialized))
            && (st.initialized ==> (ok <==> st.defaultDatabase == "" || server(|st.log|) == Done))
  {
    if !st.initialized {
      QueriesDoNotInitialize(queries, server, st);
    }
  }

  lemma {:induction false} QueriesDoNotInitialize(queries: seq<string>, server: Server, st: State)
    ensures RunQueries(queries, server, st).0.initialized == st.initialized
    decreases |queries| - st.next
  {
    if st.next < |queries| {
      var query, reply := queries[st.next], server(|st.log|);
      var sent := st.(log := st.log + [Executed(query, reply)]);
      var retry := if IsAttach(query) then RetryQuery(query) else "";
      var again := sent.(log := sent.log + [Retried(query, retry, server(|sent.log|))]);
      QueriesDoNotInitialize(queries, server, sent.(next := st.next + 1));
      QueriesDoNotInitialize(queries, server, again.(next := st.next + 1));
    }
  }

  /** Once a default database is recorded, every later connection sends exactly
      one statement, which selects it. */
  lemma LaterConnectionsSelectTheDefault(queries: seq<string>, server: Server, queryable: seq<bool>, n: nat)
    requires n < |queryable|
    requires var early := Connects(queries, server, queryable[..n]); early.initialized && early.defaultDatabase != ""
    ensures var early := Connects(queries, server, queryable[..n]);
            var before := Connects(queries, server, queryable[..|queryable| - 1]);
            var (after, ok) := Connect(queries, server, queryable[|queryable| - 1], before);
            var reply := server(|before.log|);
            && after == before.(log := before.log + [Selected(UseStatement(early.defaultDatabase), reply)])
            && (ok <==> reply == Done)
  {
    var earlier := queryable[..|queryable| - 1];
    assert earlier[..n] == queryable[..n];
    RunsOnlyAdvance(queries, server, earlier, n);
  }

  /** A server that answers everything initializes on the first connect. */
  lemma {:induction false} AnsweringServerInitializes(queries: seq<string>, server: Server, database: string, st: State)
    requires !st.initialized && st.next <= |queries|
    requires forall i :: 0 <= i < |queries| ==> '\0' !in queries[i]
    requires forall n: nat :: server(n) == (if n == |st.log| + |queries| - st.next then Answer(database) else Done)
    ensures var (after, ok) := Connect(queries, server, true, st);
            ok && after.initialized && after.next == |queries| && after.defaultDatabase == database
    decreases |queries| - st.next
  {
    if st.next < |queries| {
      var sent := st.(next := st.next + 1, log := st.log + [Executed(queries[st.next], Done)]);
      AnsweringServerInitializes(queries, server, database, sent);
    }
  }
}
