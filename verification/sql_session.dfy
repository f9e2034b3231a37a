/** The admission slot, the row handle and the `USE` scope of
    internal/client/sql/client.go. */
module SqlSession {
  import opened SqlBuild
  import opened Wrappers
  import Boot
  import Text

  // ---------------------------------------------------------------------
  // Admission: one SQL operation at a time
  // ---------------------------------------------------------------------

  /** A `Call` releases when it returns; a `Row` releases when it is scanned. */
  datatype Kind = Call | Row

  datatype Phase = Waiting | Refused | Admitted | Released

  /** One operation: how far it got, how many `Scan` calls are running on its
      row, and how often it took and returned the slot. */
  datatype Op = Op(kind: Kind, phase: Phase, scans: nat, acquired: nat, released: nat)

  /** `tokens` is the number of elements in the channel `sem`. */
  datatype State = State(tokens: nat, ops: seq<Op>)

  /** The buffer of `sem`. */
  const CAPACITY := 1

  datatype Step =
    | Admit(op: nat)
    | GiveUp(op: nat)
    | Finish(op: nat)
    | EnterScan(op: nat)
    | LeaveScan(op: nat)

  /** The operation is about to receive from the channel in `release`.  For a row
      this is the deferred call that the `sync.Once` lets through. */
  predicate Releasing(o: Op, step: Step) {
    match step
    case Finish(_) => o.kind == Call && o.phase == Admitted
    case LeaveScan(_) => o.scans > 0 && o.phase == Admitted
    case _ => false
  }

  /** One step of one operation.  A send into a full channel and a receive from
      an empty one block: the state stays as it is. */
  function Take(s: State, step: Step): State {
    if step.op >= |s.ops| then s
    else
      var i, o := step.op, s.ops[step.op];
      match step
      case Admit(_) =>
        if o.phase == Waiting && s.tokens < CAPACITY then
          State(s.tokens + 1, s.ops[i := o.(phase := Admitted, acquired := o.acquired + 1)])
        else s
      case GiveUp(_) =>
        if o.phase == Waiting then s.(ops := s.ops[i := o.(phase := Refused)]) else s
      case Finish(_) =>
        if Releasing(o, step) && s.tokens > 0 then
          State(s.tokens - 1, s.ops[i := o.(phase := Released, released := o.released + 1)])
        else s
      case EnterScan(_) =>
        if o.kind == Row && (o.phase == Admitted || o.phase == Released) then
          s.(ops := s.ops[i := o.(scans := o.scans + 1)])
        else s
      case LeaveScan(_) =>
        if o.scans == 0 then s
        else if Releasing(o, step) then
          if s.tokens > 0 then
            State(s.tokens - 1,
                  s.ops[i := o.(phase := Released, released := o.released + 1, scans := o.scans - 1)])
          else s
        else s.(ops := s.ops[i := o.(scans := o.scans - 1)])
  }

  /** One operation at this point, as its own steps see it; a row is being scanned. */
  function Alone(tokens: nat, kind: Kind, phase: Phase): State {
    var taken := if phase == Admitted || phase == Released then 1 else 0;
    State(tokens, [Op(kind, phase, if kind == Row then 1 else 0, taken, if phase == Released then 1 else 0)])
  }

  /** Nothing has begun; any number of operations of either kind is to come. */
  ghost predicate Initial(s: State) {
    && s.tokens == 0
    && forall i :: 0 <= i < |s.ops| ==> s.ops[i] == Op(s.ops[i].kind, Waiting, 0, 0, 0)
  }

  function Run(s: State, steps: seq<Step>): State
    decreases |steps|
  {
    if steps == [] then s else Take(Run(s, steps[..|steps| - 1]), steps[|steps| - 1])
  }

  function Held(o: Op): nat {
    if o.phase == Admitted then 1 else 0
  }

  function Holders(ops: seq<Op>): nat {
    if ops == [] then 0 else Held(ops[0]) + Holders(ops[1..])
  }

  lemma {:induction false} HoldersUpdate(ops: seq<Op>, i: nat, o: Op)
    requires i < |ops|
    ensures Holders(ops[i := o]) == Holders(ops) - Held(ops[i]) + Held(o)
  {
    if i > 0 {
      assert ops[i := o][1..] == ops[1..][i - 1 := o];
      HoldersUpdate(ops[1..], i - 1, o);
    } else {
      assert ops[i := o][1..] == ops[1..];
    }
  }

  lemma {:induction false} HolderCounts(ops: seq<Op>, i: nat)
    requires i < |ops|
    ensures Holders(ops) >= Held(ops[i])
  {
    if i > 0 {
      HolderCounts(ops[1..], i - 1);
    }
  }

  lemma {:induction false} TwoHoldersCount(ops: seq<Op>, i: nat, j: nat)
    requires i < j < |ops|
    ensures Holders(ops) >= Held(ops[i]) + Held(ops[j])
  {
    if i > 0 {
      TwoHoldersCount(ops[1..], i - 1, j - 1);
    } else {
      HolderCounts(ops[1..], j - 1);
    }
  }

  /** The books of one operation are in order. */
  ghost predicate Accounted(o: Op) {
    && o.acquired == (if o.phase == Admitted || o.phase == Released then 1 else 0)
    && o.released == (if o.phase == Released then 1 else 0)
    && (o.scans > 0 ==> o.kind == Row && o.acquired == 1)
  }

  ghost predicate Inv(s: State) {
    && s.tokens == Holders(s.ops) <= CAPACITY
    && forall i :: 0 <= i < |s.ops| ==> Accounted(s.ops[i])
  }

  lemma {:induction false} NobodyHolds(ops: seq<Op>)
    requires forall i :: 0 <= i < |ops| ==> ops[i].phase == Waiting
    ensures Holders(ops) == 0
  {
    if ops != [] {
      NobodyHolds(ops[1..]);
    }
  }

  lemma TakeKeepsInv(s: State, step: Step)
    requires Inv(s)
    ensures Inv(Take(s, step))
  {
    var t := Take(s, step);
    if step.op < |s.ops| && t.ops != s.ops {
      HoldersUpdate(s.ops, step.op, t.ops[step.op]);
      assert t.ops == s.ops[step.op := t.ops[step.op]];
    }
  }

  lemma {:induction false} RunKeepsInv(s: State, steps: seq<Step>)
    requires Initial(s)
    ensures Inv(Run(s, steps))
    decreases |steps|
  {
    if steps == [] {
      NobodyHolds(s.ops);
    } else {
      RunKeepsInv(s, steps[..|steps| - 1]);
      TakeKeepsInv(Run(s, steps[..|steps| - 1]), steps[|steps| - 1]);
    }
  }

  /** In every run at most one operation is admitted. */
  lemma {:induction false} AtMostOneAdmitted(s: State, steps: seq<Step>, i: nat, j: nat)
    requires Initial(s)
    requires i < |Run(s, steps).ops| && j < |Run(s, steps).ops|
    requires Run(s, steps).ops[i].phase == Admitted && Run(s, steps).ops[j].phase == Admitted
    ensures i == j
  {
    RunKeepsInv(s, steps);
    if i < j {
      TwoHoldersCount(Run(s, steps).ops, i, j);
    } else if j < i {
      TwoHoldersCount(Run(s, steps).ops, j, i);
    }
  }

  /** In every run an operation takes the slot at most once and gives it back
      exactly once, however often its row is scanned, and never without having
      taken it. */
  lemma {:induction false} AdmissionsAreReleasedOnce(s: State, steps: seq<Step>, i: nat)
    requires Initial(s) && i < |Run(s, steps).ops|
    ensures var o := Run(s, steps).ops[i];
            && o.released <= o.acquired <= 1
            && (o.acquired == o.released <==> o.phase != Admitted)
            && (o.phase == Released <==> o.released == 1)
  {
    RunKeepsInv(s, steps);
  }

  /** The receive in `release` never blocks, in any run. */
  lemma ReleaseNeverBlocks(s: State, steps: seq<Step>, step: Step)
    requires Initial(s) && step.op < |Run(s, steps).ops|
    requires Releasing(Run(s, steps).ops[step.op], step)
    ensures Take(Run(s, steps), step).ops[step.op].phase == Released
  {
    RunKeepsInv(s, steps);
    HolderCounts(Run(s, steps).ops, step.op);
  }

  /** A waiting operation can be admitted exactly when nobody holds the slot. */
  lemma {:induction false} AdmittedIffSlotIsFree(s: State, steps: seq<Step>, i: nat)
    requires Initial(s)
    requires i < |Run(s, steps).ops| && Run(s, steps).ops[i].phase == Waiting
    ensures Take(Run(s, steps), Admit(i)).ops[i].phase == Admitted
            <==> forall j :: 0 <= j < |Run(s, steps).ops| ==> Run(s, steps).ops[j].phase != Admitted
  {
    RunKeepsInv(s, steps);
    var ops := Run(s, steps).ops;
    forall j | 0 <= j < |ops|
      ensures Held(ops[j]) <= Holders(ops)
    {
      HolderCounts(ops, j);
    }
    if Holders(ops) > 0 {
      var j := SomeHolder(ops);
    }
  }

  lemma {:induction false} SomeHolder(ops: seq<Op>) returns (j: nat)
    requires Holders(ops) > 0
    ensures j < |ops| && ops[j].phase == Admitted
  {
    if ops[0].phase == Admitted {
      j := 0;
    } else {
      j := SomeHolder(ops[1..]);
      j := j + 1;
    }
  }

  // ---------------------------------------------------------------------
  // The USE scope
  // ---------------------------------------------------------------------

  /** A statement that the callback runs: whether it succeeds, and the current
      database of the connection after it. */
  datatype Statement = Statement(query: string, succeeds: bool, after: string)

  datatype Ending = ReturnsNil | ReturnsError | Panics

  /** How the world behaves during one `WithDatabaseUse`.  A `USE` that fails may
      leave any database selected. */
  datatype World = World(
    connects: bool,
    readable: bool,
    uses: bool, afterUse: string,
    statements: seq<Statement>, ending: Ending,
    restores: bool, afterRestore: string)

  datatype Outcome = Ok | Err | Panicked

  predicate Sendable(query: string) {
    '\0' !in query
  }

  /** The current database after the callback's statements; one that holds a NUL
      byte is not sent. */
  function AfterStatements(current: string, statements: seq<Statement>): string
    decreases |statements|
  {
    if statements == [] then current
    else AfterStatements(if Sendable(statements[0].query) then statements[0].after else current, statements[1..])
  }

  /** `execOn` of a USE statement: its success, and the database selected then. */
  function SelectOn(current: string, database: string, succeeds: bool, otherwise: string): (string, bool) {
    if !Sendable(Boot.UseStatement(database)) then (current, false)
    else if succeeds then (database, true)
    else (otherwise, false)
  }

  function OutcomeOf(ending: Ending): Outcome {
    match ending
    case ReturnsNil => Ok
    case ReturnsError => Err
    case Panics => Panicked
  }

  /** What a non-blank scope does to a pooled connection whose current database is
      `entry`: the connection that goes back to the pool, if one does, and how the
      call ends. */
  function Scope(entry: string, database: string, w: World): (Option<string>, Outcome) {
    if !w.connects || !w.readable then (Some(entry), Err)
    else
      var (selected, used) := SelectOn(entry, database, w.uses, w.afterUse);
      if !used then (None, Err)
      else if w.ending == Panics then (None, Panicked)
      else
        var (final, restored) := SelectOn(AfterStatements(selected, w.statements), entry, w.restores, w.afterRestore);
        if restored then (Some(final), OutcomeOf(w.ending)) else (None, Err)
  }

  /** Opening a connection: `Boot.Connect`, and the database that is selected on it.
      `own` is what a new connection starts with. */
  function Open(queries: seq<string>, server: Boot.Server, st: Boot.State, own: string): (Boot.State, Option<string>) {
    var (after, ok) := Boot.Connect(queries, server, true, st);
    if !ok then (after, None)
    else if st.initialized && st.defaultDatabase == "" then (after, Some(own))
    else (after, Some(after.defaultDatabase))
  }

  /** The connection that the pool hands out: the idle one, or a new one. */
  function Entry(queries: seq<string>, server: Boot.Server, st: Boot.State, pool: Option<string>, own: string)
    : (Boot.State, Option<string>)
  {
    if pool.Some? then (st, pool) else Open(queries, server, st, own)
  }

  /** Statements without a scope: each one takes a connection from the pool and puts it
      back. */
  function RunShared(queries: seq<string>, server: Boot.Server, st: Boot.State, pool: Option<string>, own: string,
                     statements: seq<Statement>): (Boot.State, Option<string>)
    decreases |statements|
  {
    if statements == [] then (st, pool)
    else if !Sendable(statements[0].query) then RunShared(queries, server, st, pool, own, statements[1..])
    else
      var (after, entry) := Entry(queries, server, st, pool, own);
      RunShared(queries, server, after, if entry.Some? then Some(statements[0].after) else None, own, statements[1..])
  }

  /** One `WithDatabaseUse` on the shared client, once it is admitted. */
  function UseOnce(queries: seq<string>, server: Boot.Server, st: Boot.State, pool: Option<string>, own: string,
                   database: string, w: World): (Boot.State, Option<string>)
  {
    if Text.Blank(database) then RunShared(queries, server, st, pool, own, w.statements)
    else
      var (after, entry) := Entry(queries, server, st, pool, own);
      (after, if entry.None? then None else Scope(entry.value, database, w).0)
  }

  /** How it ends. */
  function UseEnds(queries: seq<string>, server: Boot.Server, st: Boot.State, pool: Option<string>, own: string,
                   database: string, w: World): Outcome
  {
    if Text.Blank(database) then OutcomeOf(w.ending)
    else
      var entry := Entry(queries, server, st, pool, own).1;
      if entry.None? then Err else Scope(entry.value, database, w).1
  }

  /** The callback of a scope runs: there is a connection, it can be read, and it takes the
      USE of the database. */
  predicate Reached(entry: Option<string>, database: string, w: World) {
    entry.Some? && w.connects && w.readable && w.uses && '\0' !in database
  }

  /** How a call ends, for every way in which the world can behave: well only if the
      callback does and the database of entry is selected again, in a panic only if the
      callback panics, and with an error otherwise. */
  lemma CallEndsExactly(queries: seq<string>, server: Boot.Server, st: Boot.State, pool: Option<string>, own: string,
                        database: string, w: World)
    ensures var entry := Entry(queries, server, st, pool, own).1;
            var ends := UseEnds(queries, server, st, pool, own, database, w);
            && (ends == Ok <==>
                  && w.ending == ReturnsNil
                  && (Text.Blank(database) || (Reached(entry, database, w) && w.restores && '\0' !in entry.value)))
            && (ends == Panicked <==> w.ending == Panics && (Text.Blank(database) || Reached(entry, database, w)))
  {
    hide Entry, Boot.UseStatement;
    var entry := Entry(queries, server, st, pool, own).1;
    UseIsSentIffNameHasNoNul(database);
    if entry.Some? {
      UseIsSentIffNameHasNoNul(entry.value);
    }
  }

  /** A connection taken from the pool. */
  class Conn {
    var current: string

    constructor (current: string)
      ensures this.current == current
    {
      this.current := current;
    }

    method Use(database: string, succeeds: bool, otherwise: string) returns (done: bool)
      modifies this
      ensures (current, done) == SelectOn(old(current), database, succeeds, otherwise)
    {
      if !Sendable(Boot.UseStatement(database)) {
        return false;
      }
      current := if succeeds then database else otherwise;
      return succeeds;
    }

    method RunCallback(statements: seq<Statement>, ending: Ending) returns (outcome: Outcome)
      modifies this
      ensures current == AfterStatements(old(current), statements)
      ensures outcome == OutcomeOf(ending)
    {
      var i := 0;
      while i < |statements|
        invariant 0 <= i <= |statements|
        invariant AfterStatements(current, statements[i..]) == AfterStatements(old(current), statements)
      {
        if Sendable(statements[i].query) {
          current := statements[i].after;
        }
        i := i + 1;
      }
      return OutcomeOf(ending);
    }
  }

  /** `sem` holds `tokens` elements; the pool keeps at most one idle connection,
      described by its current database. */
  class Client {
    var tokens: nat
    var pool: Option<string>
    const initializer: Boot.OneTimeInitializer

    constructor (initializer: Boot.OneTimeInitializer)
      ensures tokens == 0 && pool == None && this.initializer == initializer
    {
      this.initializer := initializer;
      tokens, pool := 0, None;
    }

    /** `acquire`, once its `select` has chosen a ready case: the send is ready
        only while the channel has room. */
    method Acquire(alreadyDone: bool, sends: bool) returns (admitted: bool)
      requires sends ==> tokens < CAPACITY
      modifies this`tokens
      ensures admitted <==> !alreadyDone && sends
      ensures tokens == old(tokens) + (if admitted then 1 else 0)
      ensures tokens == Take(Alone(old(tokens), Call, Waiting), if admitted then Admit(0) else GiveUp(0)).tokens
    {
      if alreadyDone {
        return false;
      }
      if sends {
        tokens := tokens + 1;
      }
      return sends;
    }

    method Release()
      requires tokens > 0
      modifies this`tokens
      ensures tokens == old(tokens) - 1
      ensures tokens == Take(Alone(old(tokens), Call, Admitted), Finish(0)).tokens
    {
      tokens := tokens - 1;
    }

    /** Takes a connection from the pool, or opens one over `execer`. */
    method TakeConn(execer: Boot.Execer, own: string) returns (conn: Conn?)
      requires execer.queryable
      modifies this`pool, initializer, execer
      ensures conn != null ==> fresh(conn)
      ensures pool == None
      ensures (initializer.StateOn(execer), if conn == null then None else Some(conn.current)) ==
              Entry(initializer.queries, execer.server, old(initializer.StateOn(execer)), old(pool), own)
    {
      if pool.Some? {
        conn := new Conn(pool.value);
        pool := None;
        return;
      }
      var plain := initializer.initialized && initializer.defaultDatabase == "";
      var ok := initializer.Run(execer);
      if !ok {
        return null;
      }
      conn := new Conn(if plain then own else initializer.defaultDatabase);
    }

    method RunOnPool(execer: Boot.Execer, own: string, statements: seq<Statement>)
      requires execer.queryable
      modifies this`pool, initializer, execer
      ensures (initializer.StateOn(execer), pool) ==
              RunShared(initializer.queries, execer.server, old(initializer.StateOn(execer)), old(pool), own,
                        statements)
    {
      var i := 0;
      while i < |statements|
        invariant 0 <= i <= |statements|
        invariant RunShared(initializer.queries, execer.server, initializer.StateOn(execer), pool, own,
                            statements[i..]) ==
                  RunShared(initializer.queries, execer.server, old(initializer.StateOn(execer)), old(pool), own,
                            statements)
      {
        hide Boot.Connect;
        if Sendable(statements[i].query) {
          var conn := TakeConn(execer, own);
          if conn != null {
            pool := Some(statements[i].after);
          }
        }
        assert statements[i..][1..] == statements[i + 1..];
        i := i + 1;
      }
    }

    /** `execer` is the driver connection that is opened when the pool is empty, and
        `began` the database in which the callback of a scope started. */
    method WithDatabaseUse(execer: Boot.Execer, own: string, database: string, w: World, alreadyDone: bool, sends: bool)
      returns (outcome: Outcome, ghost began: Option<string>)
      requires execer.queryable
      requires sends ==> tokens < CAPACITY
      modifies this, initializer, execer
      ensures tokens == old(tokens)
      ensures Text.Blank(database) || (!alreadyDone && sends) ==>
                && (initializer.StateOn(execer), pool) ==
                   UseOnce(initializer.queries, execer.server, old(initializer.StateOn(execer)), old(pool), own,
                           database, w)
                && outcome ==
                   UseEnds(initializer.queries, execer.server, old(initializer.StateOn(execer)), old(pool), own,
                           database, w)
      ensures !Text.Blank(database) && (alreadyDone || !sends) ==>
                outcome == Err && pool == old(pool) && initializer.StateOn(execer) == old(initializer.StateOn(execer))
      ensures var entry :=
                Entry(initializer.queries, execer.server, old(initializer.StateOn(execer)), old(pool), own).1;
              var scoped := !alreadyDone && sends && Reached(entry, database, w);
              && (outcome == Ok <==>
                    && w.ending == ReturnsNil
                    && (Text.Blank(database) || (scoped && w.restores && '\0' !in entry.value)))
              && (outcome == Panicked <==> w.ending == Panics && (Text.Blank(database) || scoped))
      ensures began.Some? ==> began.value == database
      ensures !Text.Blank(database) && (outcome == Ok || outcome == Panicked) ==> began.Some?
    {
      hide Boot.Connect, RunShared, Entry;
      CallEndsExactly(initializer.queries, execer.server, initializer.StateOn(execer), pool, own, database, w);
      began := None;
      if Text.Blank(database) {
        RunOnPool(execer, own, w.statements);
        return OutcomeOf(w.ending), began;
      }
      var admitted := Acquire(alreadyDone, sends);
      if !admitted {
        return Err, began;
      }
      var conn := TakeConn(execer, own);
      if conn == null {
        Release();
        return Err, began;
      }
      if !w.connects {
        Leave(conn, false);
        return Err, began;
      }
      var discard := false;
      if !w.readable {
        Leave(conn, discard);
        return Err, began;
      }
      var previous := conn.current;
      var used := conn.Use(database, w.uses, w.afterUse);
      if !used {
        discard := true;
        Leave(conn, discard);
        return Err, began;
      }
      discard := true;
      began := Some(conn.current);
      outcome := conn.RunCallback(w.statements, w.ending);
      if outcome != Panicked {
        var restored := conn.Use(previous, w.restores, w.afterRestore);
        if restored {
          discard := false;
        } else {
          outcome := Err;
        }
      }
      Leave(conn, discard);
    }

    /** The deferred calls of `WithDatabaseUse`. */
    method Leave(conn: Conn, discard: bool)
      requires tokens > 0 && pool == None
      modifies this
      ensures tokens == old(tokens) - 1
      ensures pool == if discard then None else Some(conn.current)
    {
      if !discard {
        pool := Some(conn.current);
      }
      Release();
    }
  }

  /** The handle that `QueryRow` returns: `client` is absent when no slot was
      taken, and `fired` is the state of its `sync.Once`. */
  class RowHandle {
    const client: Client?
    var fired: bool
    const err: bool

    constructor (client: Client?, err: bool)
      ensures this.client == client && this.err == err && !fired
    {
      this.client, this.err, fired := client, err, false;
    }

    /** Scanning returns the slot the first time, and never again. */
    method Scan(succeeds: bool) returns (ok: bool)
      requires client != null && !fired ==> client.tokens > 0
      modifies this`fired, if client == null then {} else {client}
      ensures ok <==> !err && succeeds
      ensures client != null ==> fired && client.pool == old(client.pool) &&
                                 client.tokens == old(client.tokens) - (if old(fired) then 0 else 1)
      ensures client == null ==> fired == old(fired)
      ensures client != null ==>
                var phase := if old(fired) then Released else Admitted;
                var after := Take(Alone(old(client.tokens), Row, phase), LeaveScan(0));
                client.tokens == after.tokens && fired == (after.ops[0].phase == Released)
    {
      ok := !err && succeeds;
      if client != null && !fired {
        fired := true;
        client.Release();
      }
    }
  }

  /** Scanning a row twice while another operation is admitted in between leaves
      that operation its slot. */
  method ScanTwice(client: Client, row: RowHandle, other: bool)
    requires row.client == client && !row.fired && client.tokens == 1
    modifies client, row
    ensures client.tokens == if other then 1 else 0
  {
    var _ := row.Scan(true);
    var admitted := client.Acquire(false, other);
    var _ := row.Scan(true);
  }

  /** Whatever fails, and also after a panic, the pool holds the connection with
      the database it had on entry, or does not hold it at all.  It is kept exactly
      when the first read failed or the previous database was restored. */
  lemma ScopeRestoresOrDiscards(entry: string, database: string, w: World)
    ensures var (pool, outcome) := Scope(entry, database, w);
            && (pool == Some(entry) || pool == None)
            && (pool == Some(entry) <==>
                  || !w.connects || !w.readable
                  || (w.uses && Sendable(Boot.UseStatement(database)) && w.ending != Panics &&
                      w.restores && Sendable(Boot.UseStatement(entry))))
            && (outcome == Ok ==> pool == Some(entry))
            && (outcome == Panicked ==> pool == None)
  {
  }

  /** Quoting neither adds nor removes a NUL byte, so it is the database name
      that decides whether the statement is sent. */
  lemma {:induction false} DoubleKeepsNul(name: string, q: char)
    requires q != '\0'
    ensures '\0' in Double(name, q) <==> '\0' in name
  {
    if name != [] {
      DoubleKeepsNul(name[1..], q);
      assert name == [name[0]] + name[1..];
    }
  }

  /** The statement that selects a database names it, quoted, and nothing else, whatever
      the name holds. */
  lemma UseNamesTheDatabase(database: string)
    ensures var s := Boot.UseStatement(database);
            |s| > 5 && s[..5] == "USE \"" && ReadQuoted(s[5..], '"') == Some((database, ""))
  {
    var s := Boot.UseStatement(database);
    ReadQuotedOfDouble(database, '"', "");
    assert s == "USE \"" + (Double(database, '"') + (['"'] + ""));
    assert s[5..] == Double(database, '"') + (['"'] + "");
  }

  lemma UseIsSentIffNameHasNoNul(database: string)
    ensures Sendable(Boot.UseStatement(database)) <==> '\0' !in database
  {
    DoubleKeepsNul(database, '"');
    var q := QuoteIdentifier(database);
    assert Boot.UseStatement(database) == "USE " + q;
  }

  // ---------------------------------------------------------------------
  // Runs of scopes over the pool and the boot sequence
  // ---------------------------------------------------------------------

  datatype Request = Request(database: string, w: World, own: string)

  function UseAll(queries: seq<string>, server: Boot.Server, st: Boot.State, pool: Option<string>,
                  requests: seq<Request>): (Boot.State, Option<string>)
    decreases |requests|
  {
    if requests == [] then (st, pool)
    else
      var r := requests[0];
      var (st', pool') := UseOnce(queries, server, st, pool, r.own, r.database, r.w);
      UseAll(queries, server, st', pool', requests[1..])
  }

  /** In every run of non-blank scopes, with failures and panics anywhere, the
      pooled connection is never left in a temporary database: it is either in the
      default database or gone. */
  lemma {:induction false} ScopesNeverLeak(queries: seq<string>, server: Boot.Server, st: Boot.State,
                                           pool: Option<string>, requests: seq<Request>)
    requires st.initialized && st.defaultDatabase != ""
    requires pool.Some? ==> pool.value == st.defaultDatabase
    requires forall i :: 0 <= i < |requests| ==> !Text.Blank(requests[i].database)
    ensures var (after, left) := UseAll(queries, server, st, pool, requests);
            && after.initialized && after.defaultDatabase == st.defaultDatabase
            && (left.Some? ==> left.value == st.defaultDatabase)
    decreases |requests|
  {
    if requests != [] {
      var r := requests[0];
      ScopeRestoresOrDiscards(st.defaultDatabase, r.database, r.w);
      var (st', pool') := UseOnce(queries, server, st, pool, r.own, r.database, r.w);
      ScopesNeverLeak(queries, server, st', pool', requests[1..]);
    }
  }

  /** A replacement connection selects the default database before anything else
      runs on it, or it is not used. */
  lemma ReplacementSelectsTheDefault(queries: seq<string>, server: Boot.Server, st: Boot.State, own: string)
    requires st.initialized && st.defaultDatabase != ""
    ensures var (after, link) := Open(queries, server, st, own);
            && after.log == st.log + [Boot.Selected(Boot.UseStatement(st.defaultDatabase), server(|st.log|))]
            && (link == if server(|st.log|) == Boot.Done then Some(st.defaultDatabase) else None)
  {
  }

  /** The pooled connection never ends in another database than the one on entry,
      whatever the callback does and whatever fails, exactly if the database named is not
      blank: a blank one opens no scope, and the callback runs on the shared connection
      as it is. */
  lemma EntryIsKeptIffNotBlank(queries: seq<string>, server: Boot.Server, st: Boot.State, own: string, database: string)
    ensures (forall entry: string, w: World ::
               UseOnce(queries, server, st, Some(entry), own, database, w).1 in {None, Some(entry)})
            <==> !Text.Blank(database)
  {
    if Text.Blank(database) {
      var w := LeavesOther();
      BlankScopeCanLeak(queries, server, st, own, database);
      assert UseOnce(queries, server, st, Some("home"), own, database, w).1 == Some("other");
      assert "home"[0] != "other"[0];
    } else {
      forall entry: string, w: World
        ensures UseOnce(queries, server, st, Some(entry), own, database, w).1 in {None, Some(entry)}
      {
        ScopeRestoresOrDiscards(entry, database, w);
      }
    }
  }

  /** A callback that leaves another database selected. */
  function LeavesOther(): World {
    World(true, true, true, "", [Statement("USE other", true, "other")], ReturnsNil, true, "")
  }

  lemma BlankScopeCanLeak(queries: seq<string>, server: Boot.Server, st: Boot.State, own: string, database: string)
    requires Text.Blank(database)
    ensures UseOnce(queries, server, st, Some("home"), own, database, LeavesOther()).1 == Some("other")
  {
    var statements := [Statement("USE other", true, "other")];
    assert Sendable(statements[0].query);
    assert statements[1..] == [];
  }
}
