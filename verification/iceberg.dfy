/** The options of an Iceberg database: internal/resources/database_iceberg.go. */
module Iceberg {
  import opened Wrappers
  import opened Tf

  datatype Key =
    | Secret | DefaultSchema | Endpoint | Warehouse | EndpointType
    | DefaultRegion | AccessDelegationMode | MaxTableStaleness
    | ReadOnly | StageCreateTables | SkipCreateTableMetadataUpdates | DisableMultiTableCommit
    | RemoveFilesOnDelete | PurgeRequested | SupportNestedNamespaces | EncodeEntirePrefix

  datatype Model = Model(
    secret: Attr<string>, defaultSchema: Attr<string>,
    endpoint: Attr<string>, warehouse: Attr<string>, endpointType: Attr<string>,
    readOnly: Attr<bool>,
    defaultRegion: Attr<string>, accessDelegationMode: Attr<string>, maxTableStaleness: Attr<string>,
    stageCreateTables: Attr<bool>, skipCreateTableMetadataUpdates: Attr<bool>, disableMultiTableCommit: Attr<bool>,
    removeFilesOnDelete: Attr<bool>, purgeRequested: Attr<bool>, supportNestedNamespaces: Attr<bool>,
    encodeEntirePrefix: Attr<bool>)

  const EMPTY_MODEL :=
    Model(Null, Null, Null, Null, Null, Null, Null, Null, Null, Null, Null, Null, Null, Null, Null, Null)

  datatype StringOption = StringOption(key: Key, immutable: bool, required: bool)

  datatype BoolOption = BoolOption(key: Key, immutable: bool, presenceEnables: bool)

  const STRING_OPTIONS: seq<StringOption> := [
    StringOption(Secret, false, true),
    StringOption(DefaultSchema, false, true),
    StringOption(Endpoint, true, false),
    StringOption(Warehouse, true, false),
    StringOption(EndpointType, true, false),
    StringOption(DefaultRegion, false, false),
    StringOption(AccessDelegationMode, false, false),
    StringOption(MaxTableStaleness, false, false)]

  const BOOL_OPTIONS: seq<BoolOption> := [
    BoolOption(ReadOnly, true, false),
    BoolOption(StageCreateTables, false, false),
    BoolOption(SkipCreateTableMetadataUpdates, false, false),
    BoolOption(DisableMultiTableCommit, false, false),
    BoolOption(RemoveFilesOnDelete, false, false),
    BoolOption(PurgeRequested, false, false),
    BoolOption(SupportNestedNamespaces, false, false),
    BoolOption(EncodeEntirePrefix, false, true)]

  function StringValue(m: Model, k: Key): Attr<string> {
    match k
    case Secret => m.secret
    case DefaultSchema => m.defaultSchema
    case Endpoint => m.endpoint
    case Warehouse => m.warehouse
    case EndpointType => m.endpointType
    case DefaultRegion => m.defaultRegion
    case AccessDelegationMode => m.accessDelegationMode
    case MaxTableStaleness => m.maxTableStaleness
    case _ => Null
  }

  function BoolValue(m: Model, k: Key): Attr<bool> {
    match k
    case ReadOnly => m.readOnly
    case StageCreateTables => m.stageCreateTables
    case SkipCreateTableMetadataUpdates => m.skipCreateTableMetadataUpdates
    case DisableMultiTableCommit => m.disableMultiTableCommit
    case RemoveFilesOnDelete => m.removeFilesOnDelete
    case PurgeRequested => m.purgeRequested
    case SupportNestedNamespaces => m.supportNestedNamespaces
    case EncodeEntirePrefix => m.encodeEntirePrefix
    case _ => Null
  }

  // ---------------------------------------------------------------------
  // Rendering
  // ---------------------------------------------------------------------

  datatype Value = Text(text: string) | Flag(on: bool)

  /** One `NAME value` of a CREATE or `NAME = value` of an ALTER; `Clear` is
      `NAME = NULL`. */
  datatype Assignment = Set(key: Key, value: Value) | Clear(key: Key)

  function CreateString(o: StringOption, m: Model): seq<Assignment> {
    if StringValue(m, o.key).Known? then [Set(o.key, Text(StringValue(m, o.key).value))] else []
  }

  function CreateBool(o: BoolOption, m: Model): seq<Assignment> {
    var value := BoolValue(m, o.key);
    if !value.Known? || (o.presenceEnables && !value.value) then [] else [Set(o.key, Flag(value.value))]
  }

  function AlterString(o: StringOption, planned: Model, prior: Model, adopting: bool): seq<Assignment> {
    var want, have := StringValue(planned, o.key), StringValue(prior, o.key);
    if o.immutable || (!adopting && want == have) then []
    else if want.Known? then [Set(o.key, Text(want.value))]
    else if !adopting && !o.required && !have.Null? then [Clear(o.key)]
    else []
  }

  function AlterBool(o: BoolOption, planned: Model, prior: Model, adopting: bool): seq<Assignment> {
    var want, have := BoolValue(planned, o.key), BoolValue(prior, o.key);
    if o.immutable then []
    else if o.presenceEnables then
      var wantOn, haveOn := ValueBool(want), ValueBool(have);
      if wantOn && (adopting || !haveOn) then [Set(o.key, Flag(true))]
      else if !wantOn && haveOn && !adopting then [Clear(o.key)]
      else []
    else if !adopting && want == have then []
    else if want.Known? then [Set(o.key, Flag(want.value))]
    else if !adopting && !have.Null? then [Clear(o.key)]
    else []
  }

  /** What `f` renders for each of the options, in order. */
  function RenderAll<T>(options: seq<T>, f: T -> seq<Assignment>): seq<Assignment> {
    if options == [] then []
    else RenderAll(options[..|options| - 1], f) + f(options[|options| - 1])
  }

  function CreateOptions(m: Model): seq<Assignment> {
    RenderAll(STRING_OPTIONS, o => CreateString(o, m)) + RenderAll(BOOL_OPTIONS, o => CreateBool(o, m))
  }

  function AlterAssignments(planned: Option<Model>, prior: Option<Model>): seq<Assignment> {
    if planned.None? then []
    else
      var had := if prior.None? then EMPTY_MODEL else prior.value;
      RenderAll(STRING_OPTIONS, o => AlterString(o, planned.value, had, prior.None?)) +
      RenderAll(BOOL_OPTIONS, o => AlterBool(o, planned.value, had, prior.None?))
  }

  lemma RenderOneMore<T>(options: seq<T>, n: nat, f: T -> seq<Assignment>)
    requires n < |options|
    ensures RenderAll(options[..n + 1], f) == RenderAll(options[..n], f) + f(options[n])
  {
    assert options[..n + 1][..n] == options[..n];
  }

  method DatabaseIcebergCreateOptions(options: Option<Model>) returns (rendered: seq<Assignment>)
    ensures rendered == if options.None? then [] else CreateOptions(options.value)
  {
    rendered := [];
    if options.None? {
      return;
    }
    var m := options.value;
    ghost var strings := (o: StringOption) => CreateString(o, m);
    ghost var bools := (o: BoolOption) => CreateBool(o, m);
    for i := 0 to |STRING_OPTIONS|
      invariant rendered == RenderAll(STRING_OPTIONS[..i], strings)
    {
      var option := STRING_OPTIONS[i];
      RenderOneMore(STRING_OPTIONS, i, strings);
      if StringValue(m, option.key).Known? {
        rendered := rendered + [Set(option.key, Text(StringValue(m, option.key).value))];
      }
    }
    assert STRING_OPTIONS[..|STRING_OPTIONS|] == STRING_OPTIONS;
    ghost var before := rendered;
    for i := 0 to |BOOL_OPTIONS|
      invariant rendered == before + RenderAll(BOOL_OPTIONS[..i], bools)
    {
      var option := BOOL_OPTIONS[i];
      var value := BoolValue(m, option.key);
      RenderOneMore(BOOL_OPTIONS, i, bools);
      if !value.Known? {
        continue;
      }
      if option.presenceEnables {
        if value.value {
          rendered := rendered + [Set(option.key, Flag(true))];
        }
        continue;
      }
      rendered := rendered + [Set(option.key, Flag(value.value))];
    }
    assert BOOL_OPTIONS[..|BOOL_OPTIONS|] == BOOL_OPTIONS;
  }

  method DatabaseIcebergAlterAssignments(planned: Option<Model>, prior: Option<Model>)
    returns (assignments: seq<Assignment>)
    ensures assignments == AlterAssignments(planned, prior)
  {
    assignments := [];
    if planned.None? {
      return;
    }
    var adopting := prior.None?;
    var had := if adopting then EMPTY_MODEL else prior.value;
    ghost var strings := (o: StringOption) => AlterString(o, planned.value, had, adopting);
    ghost var bools := (o: BoolOption) => AlterBool(o, planned.value, had, adopting);
    for i := 0 to |STRING_OPTIONS|
      invariant assignments == RenderAll(STRING_OPTIONS[..i], strings)
    {
      var option := STRING_OPTIONS[i];
      RenderOneMore(STRING_OPTIONS, i, strings);
      if option.immutable {
        continue;
      }
      var want, have := StringValue(planned.value, option.key), StringValue(had, option.key);
      if !adopting && want == have {
        continue;
      }
      if want.Known? {
        assignments := assignments + [Set(option.key, Text(want.value))];
      } else if !adopting && !option.required && !have.Null? {
        assignments := assignments + [Clear(option.key)];
      }
    }
    assert STRING_OPTIONS[..|STRING_OPTIONS|] == STRING_OPTIONS;
    ghost var before := assignments;
    for i := 0 to |BOOL_OPTIONS|
      invariant assignments == before + RenderAll(BOOL_OPTIONS[..i], bools)
    {
      var option := BOOL_OPTIONS[i];
      RenderOneMore(BOOL_OPTIONS, i, bools);
      var rendered := AlterBoolOption(option, planned.value, had, adopting);
      assignments := assignments + rendered;
    }
    assert BOOL_OPTIONS[..|BOOL_OPTIONS|] == BOOL_OPTIONS;
  }

  method AlterBoolOption(option: BoolOption, planned: Model, prior: Model, adopting: bool)
    returns (assignments: seq<Assignment>)
    ensures assignments == AlterBool(option, planned, prior, adopting)
  {
    assignments := [];
    if option.immutable {
      return;
    }
    var want, have := BoolValue(planned, option.key), BoolValue(prior, option.key);
    if option.presenceEnables {
      var wantOn := want.Known? && want.value;
      var haveOn := have.Known? && have.value;
      if wantOn && (adopting || !haveOn) {
        assignments := [Set(option.key, Flag(true))];
      } else if !wantOn && haveOn && !adopting {
        assignments := [Clear(option.key)];
      }
      return;
    }
    if !adopting && want == have {
      return;
    }
    if want.Known? {
      assignments := [Set(option.key, Flag(want.value))];
    } else if !adopting && !have.Null? {
      assignments := [Clear(option.key)];
    }
  }
}
