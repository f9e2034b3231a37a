/** What the rendered options do to an Iceberg database, over whole runs:
    internal/resources/database_iceberg.go. */
module IcebergRuns {
  import opened Wrappers
  import opened Tf
  import opened Iceberg

  /** The options that are set on the database. */
  type Options = map<Key, Value>

  function Lookup(live: Options, k: Key): Option<Value> {
    if k in live then Some(live[k]) else None
  }

  function Assign(live: Options, a: Assignment): Options {
    match a
    case Set(k, v) => live[k := v]
    case Clear(k) => live - {k}
  }

  function ApplyAll(live: Options, list: seq<Assignment>): Options
    decreases |list|
  {
    if list == [] then live else Assign(ApplyAll(live, list[..|list| - 1]), list[|list| - 1])
  }

  predicate IsString(k: Key) {
    k.Secret? || k.DefaultSchema? || k.Endpoint? || k.Warehouse? || k.EndpointType?
    || k.DefaultRegion? || k.AccessDelegationMode? || k.MaxTableStaleness?
  }

  predicate Immutable(k: Key) {
    k.Endpoint? || k.Warehouse? || k.EndpointType? || k.ReadOnly?
  }

  /** The setting that a model asks for.  The presence of ENCODE_ENTIRE_PREFIX turns it
      on, so off is not having it. */
  function Wanted(m: Model, k: Key): Option<Value> {
    if IsString(k) then
      if StringValue(m, k).Known? then Some(Text(StringValue(m, k).value)) else None
    else if !BoolValue(m, k).Known? || (k.EncodeEntirePrefix? && !BoolValue(m, k).value) then None
    else Some(Flag(BoolValue(m, k).value))
  }

  /** The options in effect under a model. */
  function Effective(m: Model): Options {
    map k: Key | Wanted(m, k).Some? :: Wanted(m, k).value
  }

  /** The required attributes have values. */
  predicate WellFormed(m: Model) {
    m.secret.Known? && m.defaultSchema.Known?
  }

  /** A model in the state: no value is unknown. */
  ghost predicate Recorded(m: Model) {
    WellFormed(m) && forall k: Key :: !StringValue(m, k).Unknown? && !BoolValue(m, k).Unknown?
  }

  // ---------------------------------------------------------------------
  // One option at a time
  // ---------------------------------------------------------------------

  /** The place of an option in its table. */
  function Position(k: Key): nat {
    match k
    case Secret => 0
    case DefaultSchema => 1
    case Endpoint => 2
    case Warehouse => 3
    case EndpointType => 4
    case DefaultRegion => 5
    case AccessDelegationMode => 6
    case MaxTableStaleness => 7
    case ReadOnly => 0
    case StageCreateTables => 1
    case SkipCreateTableMetadataUpdates => 2
    case DisableMultiTableCommit => 3
    case RemoveFilesOnDelete => 4
    case PurgeRequested => 5
    case SupportNestedNamespaces => 6
    case EncodeEntirePrefix => 7
  }

  /** The tables hold every option once, with the flags of the predicates above. */
  lemma StringTable(i: nat)
    requires i < |STRING_OPTIONS|
    ensures var o := STRING_OPTIONS[i];
            && IsString(o.key) && Position(o.key) == i && o.immutable == Immutable(o.key)
            && (o.required <==> o.key.Secret? || o.key.DefaultSchema?)
  {
  }

  lemma BoolTable(i: nat)
    requires i < |BOOL_OPTIONS|
    ensures var o := BOOL_OPTIONS[i];
            && !IsString(o.key) && Position(o.key) == i && o.immutable == Immutable(o.key)
            && (o.presenceEnables <==> o.key.EncodeEntirePrefix?)
  {
  }

  lemma EveryKeyIsInATable(k: Key)
    ensures |STRING_OPTIONS| == 8 == |BOOL_OPTIONS| && Position(k) < 8
    ensures IsString(k) ==> STRING_OPTIONS[Position(k)].key == k
    ensures !IsString(k) ==> BOOL_OPTIONS[Position(k)].key == k
  {
  }

  /** What a rendering assigns to one option: nothing, or one value for that option. */
  predicate Only(list: seq<Assignment>, k: Key) {
    |list| == 0 || (|list| == 1 && list[0].key == k)
  }

  function Effect(list: seq<Assignment>, before: Option<Value>): Option<Value> {
    if list == [] then before else if list[0].Set? then Some(list[0].value) else None
  }

  lemma ApplyOne(live: Options, list: seq<Assignment>, key: Key, k: Key)
    requires Only(list, key)
    ensures Lookup(ApplyAll(live, list), k) == if k == key then Effect(list, Lookup(live, k)) else Lookup(live, k)
  {
    if list != [] {
      assert list[..0] == [];
    }
  }

  lemma {:induction false} ApplyConcat(live: Options, a: seq<Assignment>, b: seq<Assignment>)
    ensures ApplyAll(live, a + b) == ApplyAll(ApplyAll(live, a), b)
    decreases |b|
  {
    if b == [] {
      assert a + b == a;
    } else {
      assert (a + b)[..|a + b| - 1] == a + b[..|b| - 1];
      ApplyConcat(live, a, b[..|b| - 1]);
    }
  }

  /** Renders `f` for each option of a table; `keys` are the options' names. */
  ghost predicate Renders<T(!new)>(options: seq<T>, keys: seq<Key>, f: T -> seq<Assignment>) {
    && |keys| == |options|
    && (forall i :: 0 <= i < |options| ==> Only(f(options[i]), keys[i]))
    && (forall i, j :: 0 <= i < j < |keys| ==> keys[i] != keys[j])
  }

  lemma {:induction false} ApplyElsewhere<T(!new)>(live: Options, options: seq<T>, keys: seq<Key>,
                                                   f: T -> seq<Assignment>, k: Key)
    requires Renders(options, keys, f) && k !in keys
    ensures Lookup(ApplyAll(live, RenderAll(options, f)), k) == Lookup(live, k)
    decreases |options|
  {
    if options != [] {
      var n := |options| - 1;
      ApplyElsewhere(live, options[..n], keys[..n], f, k);
      ApplyConcat(live, RenderAll(options[..n], f), f(options[n]));
      ApplyOne(ApplyAll(live, RenderAll(options[..n], f)), f(options[n]), keys[n], k);
    }
  }

  /** Each option ends with the effect of its own rendering. */
  lemma {:induction false} ApplyAt<T(!new)>(live: Options, options: seq<T>, keys: seq<Key>,
                                            f: T -> seq<Assignment>, i: nat)
    requires Renders(options, keys, f) && i < |options|
    ensures Lookup(ApplyAll(live, RenderAll(options, f)), keys[i]) == Effect(f(options[i]), Lookup(live, keys[i]))
    decreases |options|
  {
    var n := |options| - 1;
    ApplyConcat(live, RenderAll(options[..n], f), f(options[n]));
    ApplyOne(ApplyAll(live, RenderAll(options[..n], f)), f(options[n]), keys[n], keys[i]);
    if i < n {
      ApplyAt(live, options[..n], keys[..n], f, i);
    } else {
      ApplyElsewhere(live, options[..n], keys[..n], f, keys[n]);
    }
  }

  function StringKeys(): (keys: seq<Key>)
    ensures |keys| == |STRING_OPTIONS| && forall i :: 0 <= i < |keys| ==> keys[i] == STRING_OPTIONS[i].key
  {
    seq(|STRING_OPTIONS|, i requires 0 <= i < |STRING_OPTIONS| => STRING_OPTIONS[i].key)
  }

  function BoolKeys(): (keys: seq<Key>)
    ensures |keys| == |BOOL_OPTIONS| && forall i :: 0 <= i < |keys| ==> keys[i] == BOOL_OPTIONS[i].key
  {
    seq(|BOOL_OPTIONS|, i requires 0 <= i < |BOOL_OPTIONS| => BOOL_OPTIONS[i].key)
  }

  lemma KeysAreDistinct()
    ensures forall i, j :: 0 <= i < j < |StringKeys()| ==> StringKeys()[i] != StringKeys()[j]
    ensures forall i, j :: 0 <= i < j < |BoolKeys()| ==> BoolKeys()[i] != BoolKeys()[j]
    ensures forall k :: k in StringKeys() <==> IsString(k)
    ensures forall k :: k in BoolKeys() <==> !IsString(k)
  {
    hide Position, IsString;
    forall i | 0 <= i < |StringKeys()|
      ensures Position(StringKeys()[i]) == i && IsString(StringKeys()[i])
    {
      StringTable(i);
    }
    forall i | 0 <= i < |BoolKeys()|
      ensures Position(BoolKeys()[i]) == i && !IsString(BoolKeys()[i])
    {
      BoolTable(i);
    }
    forall k: Key
      ensures k in StringKeys() <==> IsString(k)
      ensures k in BoolKeys() <==> !IsString(k)
    {
      EveryKeyIsInATable(k);
      if IsString(k) {
        assert StringKeys()[Position(k)] == k;
      } else {
        assert BoolKeys()[Position(k)] == k;
      }
    }
  }

  /** The rendering of both tables, option by option. */
  lemma ApplyTables(live: Options, f: StringOption -> seq<Assignment>, g: BoolOption -> seq<Assignment>, k: Key)
    requires forall o :: Only(f(o), o.key)
    requires forall o :: Only(g(o), o.key)
    ensures Position(k) < |STRING_OPTIONS| && Position(k) < |BOOL_OPTIONS|
    ensures var after := ApplyAll(live, RenderAll(STRING_OPTIONS, f) + RenderAll(BOOL_OPTIONS, g));
            Lookup(after, k) ==
            if IsString(k) then Effect(f(STRING_OPTIONS[Position(k)]), Lookup(live, k))
            else Effect(g(BOOL_OPTIONS[Position(k)]), Lookup(live, k))
  {
    hide STRING_OPTIONS, BOOL_OPTIONS, Position, IsString, RenderAll, ApplyAll, Effect;
    KeysAreDistinct();
    EveryKeyIsInATable(k);
    ApplyConcat(live, RenderAll(STRING_OPTIONS, f), RenderAll(BOOL_OPTIONS, g));
    var middle := ApplyAll(live, RenderAll(STRING_OPTIONS, f));
    assert Renders(STRING_OPTIONS, StringKeys(), f) && Renders(BOOL_OPTIONS, BoolKeys(), g);
    if IsString(k) {
      ApplyAt(live, STRING_OPTIONS, StringKeys(), f, Position(k));
      ApplyElsewhere(middle, BOOL_OPTIONS, BoolKeys(), g, k);
    } else {
      ApplyElsewhere(live, STRING_OPTIONS, StringKeys(), f, k);
      ApplyAt(middle, BOOL_OPTIONS, BoolKeys(), g, Position(k));
    }
  }

  // ---------------------------------------------------------------------
  // Create and alter
  // ---------------------------------------------------------------------

  lemma SameLookups(a: Options, b: Options)
    requires forall k: Key :: Lookup(a, k) == Lookup(b, k)
    ensures a == b
  {
    forall k: Key ensures k in a <==> k in b {
      assert Lookup(a, k) == Lookup(b, k);
    }
    forall k: Key | k in a ensures a[k] == b[k] {
      assert Lookup(a, k) == Lookup(b, k);
    }
  }

  lemma EffectiveAt(m: Model, k: Key)
    ensures Lookup(Effective(m), k) == Wanted(m, k)
  {
  }

  /** CREATE DATABASE sets exactly the options in effect under the model. */
  lemma CreateIsEffective(m: Model)
    ensures ApplyAll(map[], CreateOptions(m)) == Effective(m)
  {
    hide STRING_OPTIONS, BOOL_OPTIONS, RenderAll, ApplyAll, Position, Effective, Wanted, CreateString, CreateBool;
    var after := ApplyAll(map[], CreateOptions(m));
    forall k: Key ensures Lookup(after, k) == Lookup(Effective(m), k) {
      CreateAt(m, k);
      EffectiveAt(m, k);
    }
    SameLookups(after, Effective(m));
  }

  lemma CreateAt(m: Model, k: Key)
    ensures Lookup(ApplyAll(map[], CreateOptions(m)), k) == Wanted(m, k)
  {
    hide STRING_OPTIONS, BOOL_OPTIONS, RenderAll, ApplyAll, Position, StringValue, BoolValue;
    ApplyTables(map[], o => CreateString(o, m), o => CreateBool(o, m), k);
    EveryKeyIsInATable(k);
    if IsString(k) {
      StringTable(Position(k));
    } else {
      BoolTable(Position(k));
    }
  }

  /** What an ALTER does to each option that is set as under the prior model: a
      mutable one becomes what the plan asks for, an immutable one stays. */
  function Target(planned: Model, prior: Model, k: Key): Option<Value> {
    Wanted(if Immutable(k) then prior else planned, k)
  }

  /** ... and what it does to any other database. */
  lemma AlterAt(planned: Model, prior: Model, live: Options, k: Key)
    requires WellFormed(planned) && Recorded(prior)
    ensures Lookup(ApplyAll(live, AlterAssignments(Some(planned), Some(prior))), k) ==
            if Immutable(k) || Wanted(planned, k) == Wanted(prior, k) then Lookup(live, k) else Wanted(planned, k)
  {
    hide STRING_OPTIONS, BOOL_OPTIONS, RenderAll, ApplyAll, Position;
    ApplyTables(live, o => AlterString(o, planned, prior, false), o => AlterBool(o, planned, prior, false), k);
    EveryKeyIsInATable(k);
    if IsString(k) {
      StringTable(Position(k));
    } else {
      BoolTable(Position(k));
    }
  }

  /** The alteration turns what is in effect under the prior model into what the
      planned one asks for. */
  lemma AlterReachesThePlan(planned: Model, prior: Model)
    requires WellFormed(planned) && Recorded(prior)
    ensures var after := ApplyAll(Effective(prior), AlterAssignments(Some(planned), Some(prior)));
            && (forall k: Key :: Lookup(after, k) == Target(planned, prior, k))
            && ((forall k: Key :: Immutable(k) ==> Wanted(planned, k) == Wanted(prior, k)) ==>
                  after == Effective(planned))
  {
    hide ApplyAll, AlterAssignments, Effective, Wanted, Recorded;
    var after := ApplyAll(Effective(prior), AlterAssignments(Some(planned), Some(prior)));
    forall k: Key
      ensures Lookup(after, k) == Target(planned, prior, k)
      ensures Lookup(Effective(planned), k) == Wanted(planned, k)
    {
      AlterAt(planned, prior, Effective(prior), k);
      EffectiveAt(prior, k);
      EffectiveAt(planned, k);
    }
    if forall k: Key :: Immutable(k) ==> Wanted(planned, k) == Wanted(prior, k) {
      SameLookups(after, Effective(planned));
    }
  }

  lemma {:induction false} RendersNothing<T(!new)>(options: seq<T>, f: T -> seq<Assignment>)
    ensures RenderAll(options, f) == [] <==> forall i :: 0 <= i < |options| ==> f(options[i]) == []
    decreases |options|
  {
    if options != [] {
      var n := |options| - 1;
      RendersNothing(options[..n], f);
      assert forall i :: 0 <= i < |options| ==> i == n || options[i] == options[..n][i];
    }
  }

  /** The two models want the same of a mutable option. */
  predicate AgreesAt(planned: Model, prior: Model, k: Key) {
    !Immutable(k) ==> Wanted(planned, k) == Wanted(prior, k)
  }

  /** No statement is sent exactly when the mutable options agree. */
  lemma AlterIsEmptyIffMutableOptionsAgree(planned: Model, prior: Model)
    requires WellFormed(planned) && Recorded(prior)
    ensures AlterAssignments(Some(planned), Some(prior)) == [] <==>
            forall k: Key :: AgreesAt(planned, prior, k)
  {
    hide STRING_OPTIONS, BOOL_OPTIONS, RenderAll, AgreesAt, AlterString, AlterBool, Recorded;
    var f := (o: StringOption) => AlterString(o, planned, prior, false);
    var g := (o: BoolOption) => AlterBool(o, planned, prior, false);
    RendersNothing(STRING_OPTIONS, f);
    RendersNothing(BOOL_OPTIONS, g);
    forall i | 0 <= i < |STRING_OPTIONS|
      ensures f(STRING_OPTIONS[i]) == [] <==> AgreesAt(planned, prior, STRING_OPTIONS[i].key)
    {
      NoStringAssignmentIff(planned, prior, i);
    }
    forall i | 0 <= i < |BOOL_OPTIONS|
      ensures g(BOOL_OPTIONS[i]) == [] <==> AgreesAt(planned, prior, BOOL_OPTIONS[i].key)
    {
      NoBoolAssignmentIff(planned, prior, i);
    }
    assert AlterAssignments(Some(planned), Some(prior)) == RenderAll(STRING_OPTIONS, f) + RenderAll(BOOL_OPTIONS, g);
    AgreementIsPerOption(planned, prior);
  }

  lemma AgreementIsPerOption(planned: Model, prior: Model)
    ensures (forall k: Key :: AgreesAt(planned, prior, k)) <==>
            && (forall i :: 0 <= i < |STRING_OPTIONS| ==> AgreesAt(planned, prior, STRING_OPTIONS[i].key))
            && (forall i :: 0 <= i < |BOOL_OPTIONS| ==> AgreesAt(planned, prior, BOOL_OPTIONS[i].key))
  {
    hide STRING_OPTIONS, BOOL_OPTIONS, Position, AgreesAt, IsString;
    forall k: Key
      ensures IsString(k) ==> Position(k) < |STRING_OPTIONS| && STRING_OPTIONS[Position(k)].key == k
      ensures !IsString(k) ==> Position(k) < |BOOL_OPTIONS| && BOOL_OPTIONS[Position(k)].key == k
    {
      EveryKeyIsInATable(k);
    }
    if !(forall k: Key :: AgreesAt(planned, prior, k)) {
      var k: Key :| !AgreesAt(planned, prior, k);
      assert IsString(k) || !IsString(k);
    }
  }

  lemma NoStringAssignmentIff(planned: Model, prior: Model, i: nat)
    requires WellFormed(planned) && Recorded(prior) && i < |STRING_OPTIONS|
    ensures AlterString(STRING_OPTIONS[i], planned, prior, false) == [] <==>
            AgreesAt(planned, prior, STRING_OPTIONS[i].key)
  {
    hide STRING_OPTIONS;
    StringTable(i);
  }

  lemma NoBoolAssignmentIff(planned: Model, prior: Model, i: nat)
    requires WellFormed(planned) && Recorded(prior) && i < |BOOL_OPTIONS|
    ensures AlterBool(BOOL_OPTIONS[i], planned, prior, false) == [] <==> AgreesAt(planned, prior, BOOL_OPTIONS[i].key)
  {
    hide BOOL_OPTIONS;
    BoolTable(i);
  }

  /** The options that a list assigns, in order. */
  predicate AssignsEachOnce(list: seq<Assignment>) {
    forall i, j :: 0 <= i < j < |list| ==> list[i].key != list[j].key
  }

  lemma {:induction false} RenderedOnce<T(!new)>(options: seq<T>, keys: seq<Key>, f: T -> seq<Assignment>)
    requires Renders(options, keys, f)
    ensures AssignsEachOnce(RenderAll(options, f))
    ensures forall a :: a in RenderAll(options, f) ==> a.key in keys
    decreases |options|
  {
    if options != [] {
      var n := |options| - 1;
      var earlier, last := RenderAll(options[..n], f), f(options[n]);
      RenderedOnce(options[..n], keys[..n], f);
      assert keys[n] !in keys[..n];
      assert Only(last, keys[n]);
      assert keys == keys[..n] + [keys[n]];
    }
  }

  /** Whatever the plan and the state, managed, adopted or imported: an ALTER assigns
      each option at most once, never an identity option, never NULL to a required one,
      and never a value other than on to ENCODE_ENTIRE_PREFIX. */
  lemma AlterIsWellFormed(planned: Option<Model>, prior: Option<Model>)
    ensures var list := AlterAssignments(planned, prior);
            && AssignsEachOnce(list)
            && forall a :: a in list ==>
                 && !Immutable(a.key)
                 && (a.Clear? ==> !a.key.Secret? && !a.key.DefaultSchema?)
                 && (a.Set? && a.key.EncodeEntirePrefix? ==> a.value == Flag(true))
  {
    if planned.Some? {
      var had := if prior.None? then EMPTY_MODEL else prior.value;
      StringsAreWellFormed(planned.value, had, prior.None?);
      BoolsAreWellFormed(planned.value, had, prior.None?);
    }
  }

  lemma StringsAreWellFormed(planned: Model, prior: Model, adopting: bool)
    ensures var list := RenderAll(STRING_OPTIONS, o => AlterString(o, planned, prior, adopting));
            AssignsEachOnce(list) && forall a :: a in list ==> Allowed(a) && IsString(a.key)
  {
    hide STRING_OPTIONS, BOOL_OPTIONS, RenderAll, Position, IsString, Immutable, AlterString, AssignsEachOnce, Allowed;
    var f := (o: StringOption) => AlterString(o, planned, prior, adopting);
    KeysAreDistinct();
    forall i | 0 <= i < |STRING_OPTIONS|
      ensures Only(f(STRING_OPTIONS[i]), StringKeys()[i]) && forall a :: a in f(STRING_OPTIONS[i]) ==> Allowed(a)
    {
      StringTable(i);
      StringAssignmentIsAllowed(STRING_OPTIONS[i], planned, prior, adopting);
    }
    RenderedOnce(STRING_OPTIONS, StringKeys(), f);
    RenderedAllowed(STRING_OPTIONS, f);
  }

  lemma BoolsAreWellFormed(planned: Model, prior: Model, adopting: bool)
    ensures var list := RenderAll(BOOL_OPTIONS, o => AlterBool(o, planned, prior, adopting));
            AssignsEachOnce(list) && forall a :: a in list ==> Allowed(a) && !IsString(a.key)
  {
    hide STRING_OPTIONS, BOOL_OPTIONS, RenderAll, Position, IsString, Immutable, AlterBool, AssignsEachOnce, Allowed;
    var f := (o: BoolOption) => AlterBool(o, planned, prior, adopting);
    KeysAreDistinct();
    forall i | 0 <= i < |BOOL_OPTIONS|
      ensures Only(f(BOOL_OPTIONS[i]), BoolKeys()[i]) && forall a :: a in f(BOOL_OPTIONS[i]) ==> Allowed(a)
    {
      BoolTable(i);
      BoolAssignmentIsAllowed(BOOL_OPTIONS[i], planned, prior, adopting);
    }
    RenderedOnce(BOOL_OPTIONS, BoolKeys(), f);
    RenderedAllowed(BOOL_OPTIONS, f);
  }

  predicate Allowed(a: Assignment) {
    && !Immutable(a.key)
    && (a.Clear? ==> !a.key.Secret? && !a.key.DefaultSchema?)
    && (a.Set? && a.key.EncodeEntirePrefix? ==> a.value == Flag(true))
  }

  lemma StringAssignmentIsAllowed(o: StringOption, planned: Model, prior: Model, adopting: bool)
    requires IsString(o.key) && o.immutable == Immutable(o.key)
    requires o.required <==> o.key.Secret? || o.key.DefaultSchema?
    ensures Only(AlterString(o, planned, prior, adopting), o.key)
    ensures forall a :: a in AlterString(o, planned, prior, adopting) ==> Allowed(a)
  {
  }

  lemma BoolAssignmentIsAllowed(o: BoolOption, planned: Model, prior: Model, adopting: bool)
    requires !IsString(o.key) && o.immutable == Immutable(o.key) && (o.presenceEnables <==> o.key.EncodeEntirePrefix?)
    ensures Only(AlterBool(o, planned, prior, adopting), o.key)
    ensures forall a :: a in AlterBool(o, planned, prior, adopting) ==> Allowed(a)
  {
  }

  lemma {:induction false} RenderedAllowed<T(!new)>(options: seq<T>, f: T -> seq<Assignment>)
    requires forall i :: 0 <= i < |options| ==> forall a :: a in f(options[i]) ==> Allowed(a)
    ensures forall a :: a in RenderAll(options, f) ==> Allowed(a)
    decreases |options|
  {
    if options != [] {
      var n := |options| - 1;
      RenderedAllowed(options[..n], f);
    }
  }

  // ---------------------------------------------------------------------
  // Runs
  // ---------------------------------------------------------------------

  /** An unset READ_ONLY attaches the catalog read-write, as FALSE does. */
  function Norm(k: Key, v: Option<Value>): Option<Value> {
    if k.ReadOnly? && v == Some(Flag(false)) then None else v
  }

  ghost predicate SameMeaning(a: Options, b: Options) {
    forall k: Key :: Norm(k, Lookup(a, k)) == Norm(k, Lookup(b, k))
  }

  /** `icebergIdentityStringReplace` and `icebergIdentityBoolReplace`, each consulted
      for an attribute whose planned value is not the recorded one. */
  predicate Replaces(planned: Model, prior: Model) {
    || planned.endpoint != prior.endpoint || planned.warehouse != prior.warehouse
    || planned.endpointType != prior.endpointType
    || (planned.readOnly != prior.readOnly
        && !(!ValueBool(prior.readOnly) && !planned.readOnly.Unknown? && !ValueBool(planned.readOnly)))
  }

  /** The database and the block in the state. */
  datatype Database = Database(live: Options, state: Option<Model>)

  /** How the read-back after an update ends.  Only a database that is not listed keeps
      the plan out of the state: a read that fails is reported, and the plan recorded. */
  datatype Reading = Shown | NotVisible | ReadError

  /** An apply: whether the database is replaced for another reason, whether an ALTER
      works, and how the read-back that follows ends. */
  datatype Apply = Apply(planned: Model, replaced: bool, alters: bool, reading: Reading)

  function Create(planned: Model): Database {
    Database(ApplyAll(map[], CreateOptions(planned)), Some(planned))
  }

  predicate IsReplaced(d: Database, a: Apply) {
    d.state.Some? && (Replaces(a.planned, d.state.value) || a.replaced)
  }

  function Sent(d: Database, a: Apply): seq<Assignment> {
    AlterAssignments(Some(a.planned), d.state)
  }

  /** The update in place: nothing is executed when there is nothing to assign. */
  function Alter(d: Database, a: Apply): Database {
    if Sent(d, a) != [] && !a.alters then d
    else Database(ApplyAll(d.live, Sent(d, a)), if a.reading.NotVisible? then d.state else Some(a.planned))
  }

  function Change(d: Database, a: Apply): Database {
    if IsReplaced(d, a) then Create(a.planned) else Alter(d, a)
  }

  class DatabaseResource {
    var live: Options
    var state: Option<Model>

    constructor (live: Options, state: Option<Model>)
      ensures this.live == live && this.state == state
    {
      this.live, this.state := live, state;
    }

    /** `Update`, for a plan that does not replace the database. */
    method Update(a: Apply) returns (ok: bool)
      modifies this
      ensures Database(live, state) == Alter(Database(old(live), old(state)), a)
      ensures ok <==> a.reading.Shown? && (a.alters || Sent(Database(old(live), old(state)), a) == [])
    {
      var assignments := DatabaseIcebergAlterAssignments(Some(a.planned), state);
      if |assignments| > 0 {
        if !a.alters {
          return false;
        }
        live := ApplyAll(live, assignments);
      }
      if a.reading.NotVisible? {
        return false;
      }
      state := Some(a.planned);
      return a.reading.Shown?;
    }
  }

  /** The options were altered and the database was not listed afterwards: what was
      applied is not recorded. */
  predicate IsLost(d: Database, a: Apply) {
    !IsReplaced(d, a) && Sent(d, a) != [] && a.alters && a.reading.NotVisible?
  }

  function Run(d: Database, applies: seq<Apply>): Database
    decreases |applies|
  {
    if applies == [] then d else Run(Change(d, applies[0]), applies[1..])
  }

  predicate NoneIsLost(d: Database, applies: seq<Apply>)
    decreases |applies|
  {
    applies == [] || (!IsLost(d, applies[0]) && NoneIsLost(Change(d, applies[0]), applies[1..]))
  }

  ghost predicate Consistent(d: Database) {
    d.state.Some? && Recorded(d.state.value) && SameMeaning(d.live, Effective(d.state.value))
  }

  lemma CreateIsConsistent(planned: Model)
    requires Recorded(planned)
    ensures Consistent(Create(planned))
  {
    hide Recorded, Effective, ApplyAll, CreateOptions;
    CreateIsEffective(planned);
  }

  /** What was altered, or did not have to be, is as the plan says. */
  lemma AlteredMeansThePlan(d: Database, planned: Model)
    requires Consistent(d) && Recorded(planned) && !Replaces(planned, d.state.value)
    ensures SameMeaning(ApplyAll(d.live, AlterAssignments(Some(planned), d.state)), Effective(planned))
  {
    hide Recorded, Effective, ApplyAll, CreateOptions, AlterAssignments, Wanted;
    var prior := d.state.value;
    var after := ApplyAll(d.live, AlterAssignments(Some(planned), d.state));
    forall k: Key ensures Norm(k, Lookup(after, k)) == Norm(k, Lookup(Effective(planned), k)) {
      RecordedIsWellFormed(planned);
      AlterAt(planned, prior, d.live, k);
      EffectiveAt(planned, k);
      EffectiveAt(prior, k);
      assert Norm(k, Lookup(d.live, k)) == Norm(k, Lookup(Effective(prior), k));
      if Immutable(k) {
        UnreplacedIdentityAgrees(planned, prior, k);
      }
    }
  }

  lemma ChangeKeepsConsistent(d: Database, a: Apply)
    requires Consistent(d) && Recorded(a.planned) && !IsLost(d, a)
    ensures Consistent(Change(d, a))
  {
    hide Recorded, Effective, CreateOptions, AlterAssignments, SameMeaning;
    if IsReplaced(d, a) {
      CreateIsConsistent(a.planned);
    } else {
      AlteredMeansThePlan(d, a.planned);
    }
  }

  lemma RecordedIsWellFormed(m: Model)
    requires Recorded(m)
    ensures WellFormed(m)
  {
  }

  lemma UnreplacedIdentityAgrees(planned: Model, prior: Model, k: Key)
    requires !Replaces(planned, prior) && Immutable(k)
    ensures Norm(k, Wanted(planned, k)) == Norm(k, Wanted(prior, k))
  {
  }

  /** In every run that keeps the block, with replacements, failing ALTERs and failing
      reads, the database has the options of the recorded configuration. */
  lemma {:induction false} RunKeepsOptions(d: Database, applies: seq<Apply>)
    requires Consistent(d) && NoneIsLost(d, applies)
    requires forall i :: 0 <= i < |applies| ==> Recorded(applies[i].planned)
    ensures Consistent(Run(d, applies))
    decreases |applies|
  {
    if applies != [] {
      hide SameMeaning, Recorded, Change, IsLost;
      ChangeKeepsConsistent(d, applies[0]);
      RunKeepsOptions(Change(d, applies[0]), applies[1..]);
    }
  }

  /** After a run from creation the last apply, unless its ALTER fails, leaves the
      options of its configuration, however its read-back ends: every option as
      configured, READ_ONLY unset or FALSE alike, ENCODE_ENTIRE_PREFIX only where it is
      configured true. */
  lemma {:induction false} LatestConfigurationIsInEffect(first: Model, applies: seq<Apply>, last: Apply)
    requires Recorded(first) && Recorded(last.planned)
    requires forall i :: 0 <= i < |applies| ==> Recorded(applies[i].planned)
    requires NoneIsLost(Create(first), applies)
    requires var d := Run(Create(first), applies); IsReplaced(d, last) || Sent(d, last) == [] || last.alters
    ensures var live := Change(Run(Create(first), applies), last).live;
            && SameMeaning(live, Effective(last.planned))
            && (EncodeEntirePrefix in live <==> last.planned.encodeEntirePrefix == Known(true))
            && (Lookup(live, ReadOnly) == Some(Flag(true)) <==> last.planned.readOnly == Known(true))
  {
    hide Recorded, Run, SameMeaning, NoneIsLost;
    var d := Run(Create(first), applies);
    CreateIsConsistent(first);
    RunKeepsOptions(Create(first), applies);
    LastIsInEffect(d, last);
    var live := Change(d, last).live;
    hide Change;
    MeaningAt(live, last.planned, EncodeEntirePrefix);
    MeaningAt(live, last.planned, ReadOnly);
  }

  lemma LastIsInEffect(d: Database, a: Apply)
    requires Consistent(d) && Recorded(a.planned)
    requires IsReplaced(d, a) || Sent(d, a) == [] || a.alters
    ensures SameMeaning(Change(d, a).live, Effective(a.planned))
  {
    hide Recorded, Effective, CreateOptions, AlterAssignments, SameMeaning;
    if IsReplaced(d, a) {
      CreateIsConsistent(a.planned);
    } else {
      AlteredMeansThePlan(d, a.planned);
    }
  }

  lemma MeaningAt(live: Options, m: Model, k: Key)
    requires SameMeaning(live, Effective(m))
    ensures Norm(k, Lookup(live, k)) == Norm(k, Wanted(m, k))
  {
    hide Effective, Wanted;
    EffectiveAt(m, k);
    assert Norm(k, Lookup(live, k)) == Norm(k, Lookup(Effective(m), k));
  }

  /** Applies in place whose ALTER works, or is not needed, and after which the database
      is not listed: each leaves the recorded block as it was. */
  ghost predicate AllUnlisted(prior: Model, lost: seq<Apply>) {
    forall i :: 0 <= i < |lost| ==>
      && Recorded(lost[i].planned) && lost[i].alters && lost[i].reading.NotVisible?
      && !lost[i].replaced && !Replaces(lost[i].planned, prior)
  }

  /** What they leave of one option: the last of them that wants something else than the
      record decides. */
  lemma {:induction false} UnlistedLeave(live: Options, prior: Model, lost: seq<Apply>, k: Key)
    requires Recorded(prior) && AllUnlisted(prior, lost)
    ensures var d := Run(Database(live, Some(prior)), lost);
            && d.state == Some(prior)
            && ((forall i :: 0 <= i < |lost| ==> AgreesAt(lost[i].planned, prior, k)) ==>
                  Lookup(d.live, k) == Lookup(live, k))
            && ((exists i :: 0 <= i < |lost| && !AgreesAt(lost[i].planned, prior, k)) ==>
                  !Immutable(k) && Lookup(d.live, k) != Wanted(prior, k))
    decreases |lost|
  {
    if lost != [] {
      hide ApplyAll, AlterAssignments, Wanted, Recorded, Immutable, Replaces;
      var d1 := Change(Database(live, Some(prior)), lost[0]);
      assert d1.live == ApplyAll(live, AlterAssignments(Some(lost[0].planned), Some(prior)));
      RecordedIsWellFormed(lost[0].planned);
      AlterAt(lost[0].planned, prior, live, k);
      UnlistedLeave(d1.live, prior, lost[1..], k);
      FirstOrLater(prior, lost, k);
    }
  }

  lemma FirstOrLater(prior: Model, lost: seq<Apply>, k: Key)
    requires lost != []
    ensures (forall i :: 0 <= i < |lost| ==> AgreesAt(lost[i].planned, prior, k)) <==>
            && AgreesAt(lost[0].planned, prior, k)
            && (forall i :: 0 <= i < |lost[1..]| ==> AgreesAt(lost[1..][i].planned, prior, k))
  {
    hide AgreesAt;
    if forall i :: 0 <= i < |lost[1..]| ==> AgreesAt(lost[1..][i].planned, prior, k) {
      assert forall i :: 1 <= i < |lost| ==> lost[i] == lost[1..][i - 1];
    }
  }

  /** After any number of applies that were not recorded, an apply in place reaches its
      configuration exactly if no lost one wanted something else of an option on which
      it agrees with the record. */
  lemma LostReadBackIff(d: Database, lost: seq<Apply>, last: Apply)
    requires Consistent(d) && AllUnlisted(d.state.value, lost)
    requires Recorded(last.planned) && last.alters && !last.replaced && !Replaces(last.planned, d.state.value)
    ensures SameMeaning(Change(Run(d, lost), last).live, Effective(last.planned)) <==>
            forall k: Key, i :: 0 <= i < |lost| && !Immutable(k) && AgreesAt(last.planned, d.state.value, k) ==>
              AgreesAt(lost[i].planned, d.state.value, k)
  {
    hide ApplyAll, AlterAssignments, Effective, Wanted, Recorded, Immutable, Replaces, Run;
    var prior := d.state.value;
    var before := Run(d, lost);
    var after := Change(before, last);
    UnlistedLeave(d.live, prior, lost, Secret);
    assert after.live == ApplyAll(before.live, AlterAssignments(Some(last.planned), Some(prior)));
    RecordedIsWellFormed(last.planned);
    forall k: Key
      ensures Norm(k, Lookup(after.live, k)) == Norm(k, Lookup(Effective(last.planned), k)) <==>
              (!Immutable(k) && AgreesAt(last.planned, prior, k) ==>
                 forall i :: 0 <= i < |lost| ==> AgreesAt(lost[i].planned, prior, k))
    {
      LastReachesAt(d, lost, last, k);
    }
  }

  lemma LastReachesAt(d: Database, lost: seq<Apply>, last: Apply, k: Key)
    requires Consistent(d) && AllUnlisted(d.state.value, lost)
    requires Recorded(last.planned) && last.alters && !last.replaced && !Replaces(last.planned, d.state.value)
    ensures Norm(k, Lookup(Change(Run(d, lost), last).live, k)) == Norm(k, Lookup(Effective(last.planned), k)) <==>
            (!Immutable(k) && AgreesAt(last.planned, d.state.value, k) ==>
               forall i :: 0 <= i < |lost| ==> AgreesAt(lost[i].planned, d.state.value, k))
  {
    hide ApplyAll, AlterAssignments, Effective, Wanted, Recorded, Replaces, Run;
    var prior := d.state.value;
    var before := Run(d, lost);
    var after := Change(before, last);
    UnlistedLeave(d.live, prior, lost, k);
    assert after.live == ApplyAll(before.live, AlterAssignments(Some(last.planned), Some(prior)));
    RecordedIsWellFormed(last.planned);
    AlterAt(last.planned, prior, before.live, k);
    EffectiveAt(last.planned, k);
    EffectiveAt(prior, k);
    assert Norm(k, Lookup(d.live, k)) == Norm(k, Lookup(Effective(prior), k));
    if Immutable(k) {
      UnreplacedIdentityAgrees(last.planned, prior, k);
    }
  }

  /** A replacement reaches its configuration from anywhere. */
  lemma ReplacementReachesThePlan(d: Database, a: Apply)
    requires IsReplaced(d, a)
    ensures Change(d, a) == Database(Effective(a.planned), Some(a.planned))
  {
    CreateIsEffective(a.planned);
  }

  /** Adopting a database whose options were not managed: nothing is cleared and no
      identity option is set, so the configuration is in effect exactly if each option
      that it does not set, or cannot alter, already is as configured. */
  lemma AdoptionIff(planned: Model, live: Options)
    ensures var after := ApplyAll(live, AlterAssignments(Some(planned), None));
            SameMeaning(after, Effective(planned)) <==>
            forall k: Key :: Immutable(k) || Wanted(planned, k).None? ==>
              Norm(k, Lookup(live, k)) == Norm(k, Wanted(planned, k))
  {
    hide ApplyAll, AlterAssignments, Effective, Wanted, Immutable;
    var after := ApplyAll(live, AlterAssignments(Some(planned), None));
    forall k: Key
      ensures Lookup(after, k) ==
              if Immutable(k) || Wanted(planned, k).None? then Lookup(live, k) else Wanted(planned, k)
      ensures Lookup(Effective(planned), k) == Wanted(planned, k)
    {
      AdoptAt(planned, live, k);
      EffectiveAt(planned, k);
    }
    if forall k: Key :: Immutable(k) || Wanted(planned, k).None? ==>
         Norm(k, Lookup(live, k)) == Norm(k, Wanted(planned, k)) {
    } else {
      var k: Key :| (Immutable(k) || Wanted(planned, k).None?)
                    && Norm(k, Lookup(live, k)) != Norm(k, Wanted(planned, k));
      assert Norm(k, Lookup(after, k)) != Norm(k, Lookup(Effective(planned), k));
    }
  }

  lemma AdoptAt(planned: Model, live: Options, k: Key)
    ensures Lookup(ApplyAll(live, AlterAssignments(Some(planned), None)), k) ==
            if Immutable(k) || Wanted(planned, k).None? then Lookup(live, k) else Wanted(planned, k)
  {
    hide STRING_OPTIONS, BOOL_OPTIONS, RenderAll, ApplyAll, Position;
    ApplyTables(live, o => AlterString(o, planned, EMPTY_MODEL, true),
                o => AlterBool(o, planned, EMPTY_MODEL, true), k);
    EveryKeyIsInATable(k);
    if IsString(k) {
      StringTable(Position(k));
    } else {
      BoolTable(Position(k));
    }
  }

  /** A model with the required options and this region. */
  function InRegion(region: Attr<string>): Model {
    EMPTY_MODEL.(secret := Known("s"), defaultSchema := Known("d"), defaultRegion := region)
  }

  lemma InRegionIsRecorded(region: Attr<string>)
    requires !region.Unknown?
    ensures Recorded(InRegion(region))
    ensures forall k: Key :: k != DefaultRegion ==> Wanted(InRegion(region), k) == Wanted(InRegion(Null), k)
    ensures Wanted(InRegion(region), DefaultRegion) == if region.Known? then Some(Text(region.value)) else None
  {
  }

  /** A region is set, the database is not listed afterwards, and the configuration
      goes back to no region: the next apply sends nothing and the region stays. */
  lemma LostRegionStays(applied: Apply, reverted: Apply)
    requires applied == Apply(InRegion(Known("r")), false, true, NotVisible)
    requires reverted == Apply(InRegion(Null), false, true, Shown)
    ensures var d := Run(Create(InRegion(Null)), [applied, reverted]);
            d.state == Some(InRegion(Null)) && Lookup(d.live, DefaultRegion) == Some(Text("r"))
  {
    hide ApplyAll, AlterAssignments, Effective, Wanted, Recorded, CreateOptions;
    var none, some := InRegion(Null), InRegion(Known("r"));
    InRegionIsRecorded(Null);
    InRegionIsRecorded(Known("r"));
    RecordedIsWellFormed(none);
    RecordedIsWellFormed(some);
    CreateIsEffective(none);
    EffectiveAt(none, DefaultRegion);
    var d0 := Create(none);
    AlterAt(some, none, d0.live, DefaultRegion);
    var d1 := Change(d0, applied);
    assert d1.live == ApplyAll(d0.live, AlterAssignments(Some(some), Some(none)));
    AlterAt(none, none, d1.live, DefaultRegion);
    var d2 := Change(d1, reverted);
    assert d2.live == ApplyAll(d1.live, AlterAssignments(Some(none), Some(none)));
    assert [applied, reverted][1..] == [reverted];
    assert Run(d2, [reverted][1..]) == d2;
  }

  /** A database with a region is adopted by a configuration without one: it keeps the
      region. */
  lemma AdoptedRegionStays(live: Options)
    requires Lookup(live, DefaultRegion) == Some(Text("r"))
    ensures var after := ApplyAll(live, AlterAssignments(Some(InRegion(Null)), None));
            Lookup(after, DefaultRegion) == Some(Text("r")) && !SameMeaning(after, Effective(InRegion(Null)))
  {
    hide ApplyAll, AlterAssignments, Effective, Wanted, Recorded;
    var after := ApplyAll(live, AlterAssignments(Some(InRegion(Null)), None));
    InRegionIsRecorded(Null);
    AdoptAt(InRegion(Null), live, DefaultRegion);
    EffectiveAt(InRegion(Null), DefaultRegion);
    assert Norm(DefaultRegion, Lookup(after, DefaultRegion)) !=
           Norm(DefaultRegion, Lookup(Effective(InRegion(Null)), DefaultRegion));
  }
}
