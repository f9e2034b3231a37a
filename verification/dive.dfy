/** The in-place update of a Dive in internal/resources/dive_resource.go: up to
    three writes, each of which may fail, and the read-back that follows. */
module Dive {
  import opened Text
  import opened Tf
  import opened DiveUrls

  // ---------------------------------------------------------------------
  // Values
  // ---------------------------------------------------------------------

  /** A mount of `required_resources`: the configured parts. */
  datatype Mount = Mount(alias: string, url: string)

  /** The attributes of `diveModel` that a configuration can set. */
  datatype Model = Model(
    title: Attr<string>,
    description: Attr<string>,
    content: Attr<string>,
    versionDescription: Attr<string>,
    apiVersion: Attr<int>,
    resources: Attr<seq<Mount>>,
    status: Attr<string>)

  datatype LiveMount = LiveMount(name: Live<string>, alias: Live<string>, url: string)

  datatype Version = Version(
    content: string, description: Live<string>, apiVersion: Live<int>, mounts: Live<seq<LiveMount>>)

  /** The Dive on the server: the current version and the number of versions. */
  datatype Remote = Remote(
    title: string, description: Live<string>, status: Live<string>, version: Version, count: nat)

  datatype Arg = Title | Description | Content | ApiVersion | RequiredResources

  datatype Value = Text(text: string) | Number(number: int) | Mounts(mounts: seq<Mount>) | NullValue

  type Args = map<Arg, Value>

  // ---------------------------------------------------------------------
  // Comparing and reading mounts
  // ---------------------------------------------------------------------

  predicate Alike(a: Mount, b: Mount) {
    a.alias == b.alias && Equivalent(a.url, b.url)
  }

  predicate MountsEqual(left: Attr<seq<Mount>>, right: Attr<seq<Mount>>) {
    if left.Null? || right.Null? then left.Null? && right.Null?
    else
      && left.Known? && right.Known? && |left.value| == |right.value|
      && forall i :: 0 <= i < |left.value| ==> Alike(left.value[i], right.value[i])
  }

  method DiveRequiredResourcesEqual(left: Attr<seq<Mount>>, right: Attr<seq<Mount>>) returns (equal: bool)
    ensures equal <==> MountsEqual(left, right)
  {
    if left.Null? || right.Null? {
      return left.Null? && right.Null?;
    }
    if left.Unknown? || right.Unknown? || |left.value| != |right.value| {
      return false;
    }
    for i := 0 to |left.value|
      invariant forall j :: 0 <= j < i ==> Alike(left.value[j], right.value[j])
    {
      if left.value[i].alias != right.value[i].alias || !Equivalent(left.value[i].url, right.value[i].url) {
        return false;
      }
    }
    return true;
  }

  function AliasOf(m: LiveMount): string {
    if m.alias.Valid? then m.alias.value else if m.name.Valid? then m.name.value else ""
  }

  function LiveMounts(raw: Live<seq<LiveMount>>): seq<LiveMount> {
    if raw.Valid? then raw.value else []
  }

  function Configured(mounts: Attr<seq<Mount>>): seq<Mount> {
    if mounts.Known? then mounts.value else []
  }

  /** A live mount is the one that a prior value spells. */
  predicate SameMount(m: Mount, live: LiveMount) {
    EqualFold(m.alias, AliasOf(live)) && Equivalent(m.url, live.url)
  }

  function ReadMount(prior: seq<Mount>, live: LiveMount, i: nat): Mount {
    if i < |prior| && SameMount(prior[i], live) then prior[i] else Mount(AliasOf(live), live.url)
  }

  function MountsFromLive(prior: Attr<seq<Mount>>, raw: Live<seq<LiveMount>>): Attr<seq<Mount>> {
    var live := LiveMounts(raw);
    if live == [] then if prior.Known? then Known([]) else Null
    else Known(seq(|live|, i requires 0 <= i < |live| => ReadMount(Configured(prior), live[i], i)))
  }

  method DiveRequiredResourcesFromLive(prior: Attr<seq<Mount>>, raw: Live<seq<LiveMount>>)
    returns (read: Attr<seq<Mount>>)
    ensures read == MountsFromLive(prior, raw)
  {
    var live := LiveMounts(raw);
    if |live| == 0 {
      return if prior.Known? then Known([]) else Null;
    }
    var priorItems := if prior.Known? then prior.value else [];
    var items := [];
    for i := 0 to |live|
      invariant |items| == i
      invariant forall j :: 0 <= j < i ==> items[j] == ReadMount(priorItems, live[j], j)
    {
      var alias := "";
      if live[i].alias.Valid? {
        alias := live[i].alias.value;
      } else if live[i].name.Valid? {
        alias := live[i].name.value;
      }
      if i < |priorItems| && EqualFold(priorItems[i].alias, alias) && Equivalent(priorItems[i].url, live[i].url) {
        items := items + [priorItems[i]];
        continue;
      }
      items := items + [Mount(alias, live[i].url)];
    }
    assert items == MountsFromLive(prior, raw).value;
    return Known(items);
  }

  /** Mounts read without a prior value are the live ones: the alias, or the name where
      there is none, and the URL as it is stored. */
  lemma MountsOfImport(live: seq<LiveMount>)
    ensures var read := MountsFromLive(Null, Valid(live));
            && (live == [] <==> read == Null)
            && (live != [] ==>
                  && read.Known? && |read.value| == |live|
                  && forall i :: 0 <= i < |live| ==>
                       && read.value[i].url == live[i].url
                       && (live[i].alias.Valid? ==> read.value[i].alias == live[i].alias.value)
                       && (live[i].alias.Missing? && live[i].name.Valid? ==> read.value[i].alias == live[i].name.value)
                       && (live[i].alias.Missing? && live[i].name.Missing? ==> read.value[i].alias == ""))
  {
  }

  /** The server mounts what the configuration asks for, up to the case of aliases
      and the spelling of URLs. */
  predicate Mounted(config: Attr<seq<Mount>>, raw: Live<seq<LiveMount>>) {
    var ms, live := Configured(config), LiveMounts(raw);
    |ms| == |live| && forall i :: 0 <= i < |ms| ==> SameMount(ms[i], live[i])
  }

  /** Reading mounts back next to the configured ones compares equal to them exactly
      when the server mounts them. */
  lemma ReadBackEqualIffMounted(config: Attr<seq<Mount>>, raw: Live<seq<LiveMount>>)
    requires !config.Unknown?
    ensures MountsEqual(config, MountsFromLive(config, raw)) <==> Mounted(config, raw)
  {
    hide Equivalent;
    var ms, live := Configured(config), LiveMounts(raw);
    if Mounted(config, raw) {
      forall i | 0 <= i < |ms| ensures Equivalent(ms[i].url, ms[i].url) {
        EquivalentIsReflexive(ms[i].url);
      }
      assert forall i :: 0 <= i < |ms| ==> SameMount(ms[i], live[i]);
    } else if config.Known? && live != [] && |ms| == |live| {
      var i :| 0 <= i < |ms| && !SameMount(ms[i], live[i]);
      var read := MountsFromLive(config, raw);
      assert read.value[i] == Mount(AliasOf(live[i]), live[i].url);
    }
  }

  lemma ReadBackKeepsMounted(config: Attr<seq<Mount>>, raw: Live<seq<LiveMount>>)
    requires Mounted(config, raw)
    ensures MountsFromLive(config, raw) == if config.Known? then config else Null
  {
    hide SameMount;
    if config.Known? && config.value != [] {
      assert MountsFromLive(config, raw).value == config.value;
    }
  }

  // ---------------------------------------------------------------------
  // What an update has to write
  // ---------------------------------------------------------------------

  predicate DescriptionEmpty(description: Attr<string>) {
    ValueString(description) == ""
  }

  predicate StatusChanged(plan: Attr<string>, state: Attr<string>) {
    plan.Known? && plan != state
  }

  /** Neither description can be cleared nor an empty one be stored. */
  predicate ClearsDescription(plan: Model, state: Model) {
    plan.description != state.description && DescriptionEmpty(plan.description) && !DescriptionEmpty(state.description)
  }

  function MetadataArgs(plan: Model, state: Model): Args {
    (if plan.title != state.title then map[Title := Text(ValueString(plan.title))] else map[]) +
    (if plan.description != state.description && !DescriptionEmpty(plan.description) then
       map[Description := Text(ValueString(plan.description))]
     else map[])
  }

  predicate ContentUnchanged(plan: Model, state: Model) {
    && plan.content == state.content
    && (plan.apiVersion.Known? ==> plan.apiVersion == state.apiVersion)
    && MountsEqual(plan.resources, state.resources)
    && (plan.versionDescription.Known? ==> plan.versionDescription == state.versionDescription)
  }

  function ContentArgs(plan: Model, state: Model): Args {
    map[Content := Text(ValueString(plan.content))] +
    (if plan.apiVersion.Known? then map[ApiVersion := Number(plan.apiVersion.value)] else map[]) +
    (if plan.resources.Known? then map[RequiredResources := Mounts(plan.resources.value)]
     else if plan.resources.Null? && !MountsEqual(plan.resources, state.resources) then
       map[RequiredResources := NullValue]
     else map[]) +
    (if plan.versionDescription.Known? then map[Description := Text(plan.versionDescription.value)] else map[])
  }

  method DiveMetadataArgs(plan: Model, state: Model) returns (args: Args, update: bool, failed: bool)
    ensures failed <==> ClearsDescription(plan, state)
    ensures !failed ==> args == MetadataArgs(plan, state) && (update <==> args != map[])
  {
    args, update, failed := map[], false, false;
    if plan.title != state.title {
      args := args[Title := Text(ValueString(plan.title))];
    }
    if plan.description != state.description {
      if !DescriptionEmpty(plan.description) {
        args := args[Description := Text(ValueString(plan.description))];
      } else if !DescriptionEmpty(state.description) {
        failed := true;
        return;
      }
    }
    update := |args| > 0;
    assert |args| == 0 <==> args == map[];
  }

  method DiveContentArgs(plan: Model, state: Model) returns (args: Args, update: bool)
    ensures update <==> !ContentUnchanged(plan, state)
    ensures update ==> args == ContentArgs(plan, state)
  {
    hide MountsEqual, Equivalent;
    var resourcesEqual := DiveRequiredResourcesEqual(plan.resources, state.resources);
    var apiVersionEqual := !plan.apiVersion.Known? || plan.apiVersion == state.apiVersion;
    var descriptionEqual := !plan.versionDescription.Known? || plan.versionDescription == state.versionDescription;
    args, update := map[], false;
    if plan.content == state.content && apiVersionEqual && resourcesEqual && descriptionEqual {
      return;
    }
    update := true;
    args := args[Content := Text(ValueString(plan.content))];
    if plan.apiVersion.Known? {
      args := args[ApiVersion := Number(plan.apiVersion.value)];
    }
    if plan.resources.Known? {
      args := args[RequiredResources := Mounts(plan.resources.value)];
    }
    if plan.versionDescription.Known? {
      args := args[Description := Text(plan.versionDescription.value)];
    }
    if plan.resources.Null? && !resourcesEqual {
      args := args[RequiredResources := NullValue];
    }
  }

  /** Which of the three writes a plan asks for; Rejected if it would have to clear
      a description. */
  datatype Writes = Rejected | Writes(metadata: bool, content: bool, status: bool)

  function Planned(plan: Model, state: Model): Writes {
    if ClearsDescription(plan, state) then Rejected
    else
      Writes(MetadataArgs(plan, state) != map[], !ContentUnchanged(plan, state),
             StatusChanged(plan.status, state.status))
  }

  // ---------------------------------------------------------------------
  // The server
  // ---------------------------------------------------------------------

  /** `spell` rewrites a mount URL; a version without an API version gets `api`; an
      empty version description is stored as `blank`, no mounts as `none`. */
  datatype Server = Server(spell: string -> string, api: Live<int>, blank: Live<string>, none: Live<seq<LiveMount>>)

  ghost predicate Conforming(b: Server) {
    && (forall u :: Equivalent(u, b.spell(u)))
    && (b.blank == Missing || b.blank == Valid(""))
    && LiveMounts(b.none) == []
  }

  function Store(b: Server, ms: seq<Mount>): Live<seq<LiveMount>> {
    if ms == [] then b.none
    else Valid(seq(|ms|, i requires 0 <= i < |ms| => LiveMount(Missing, Valid(ms[i].alias), b.spell(ms[i].url))))
  }

  function TextIn(args: Args, k: Arg, otherwise: string): string {
    if k in args && args[k].Text? then args[k].text else otherwise
  }

  /** The server ignores an empty description. */
  function WriteMetadata(d: Remote, args: Args): Remote {
    var description := TextIn(args, Description, "");
    d.(title := TextIn(args, Title, d.title),
       description := if description == "" then d.description else Valid(description))
  }

  /** A content write always appends a version.  Omitted mounts stay as they are;
      an omitted API version or description does not. */
  function WriteContent(b: Server, d: Remote, args: Args): Remote {
    var description := TextIn(args, Description, "");
    d.(count := d.count + 1,
       version := Version(
         TextIn(args, Content, ""),
         if description != "" then Valid(description) else if Description in args then b.blank else Missing,
         if ApiVersion in args && args[ApiVersion].Number? then Valid(args[ApiVersion].number) else b.api,
         if RequiredResources !in args then d.version.mounts
         else if args[RequiredResources].Mounts? then Store(b, args[RequiredResources].mounts)
         else b.none))
  }

  /** `readDive` on success.  `prior` is the model it overwrites. */
  function ReadBack(prior: Model, d: Remote, hasStatus: bool): Model {
    Model(
      Known(d.title),
      ClearableFromLive(prior.description, d.description),
      Known(d.version.content),
      ClearableFromLive(prior.versionDescription, d.version.description),
      FromLive(d.version.apiVersion),
      MountsFromLive(prior.resources, d.version.mounts),
      if hasStatus then FromLive(d.status) else Null)
  }

  /** What happens during one update: which SQL functions the session offers, which
      writes succeed, and whether the Dive can be read. */
  datatype World = World(
    hasMetadata: bool, hasContent: bool, hasStatus: bool, hasGet: bool,
    metadata: bool, content: bool, status: bool, readable: bool)

  predicate ProbesFail(w: World, writes: Writes)
    requires writes.Writes?
  {
    || (writes.metadata && !w.hasMetadata)
    || (writes.content && !w.hasContent)
    || (writes.status && !w.hasStatus)
    || ((writes.metadata || writes.content || writes.status) && !w.hasGet)
  }

  predicate Reads(w: World) {
    w.hasGet && w.readable
  }

  /** `keepAppliedDiveUpdate` */
  function Keep(plan: Model, state: Model, d: Remote, w: World): Model {
    if Reads(w) then ReadBack(plan, d, w.hasStatus) else state
  }

  /** The server, the state and the success after one `Update`. */
  function Update(b: Server, w: World, plan: Model, state: Model, d: Remote): (Remote, Model, bool) {
    var writes := Planned(plan, state);
    if writes.Rejected? || ProbesFail(w, writes) || (writes.metadata && !w.metadata) then (d, state, false)
    else
      var d1 := if writes.metadata then WriteMetadata(d, MetadataArgs(plan, state)) else d;
      if writes.content && !w.content then
        (d1, if writes.metadata then Keep(plan, state, d1, w) else state, false)
      else
        var d2 := if writes.content then WriteContent(b, d1, ContentArgs(plan, state)) else d1;
        if writes.status && !w.status then
          (d2, if writes.metadata || writes.content then Keep(plan, state, d2, w) else state, false)
        else
          var d3 := if writes.status then d2.(status := Valid(plan.status.value)) else d2;
          (d3, Keep(plan, state, d3, w), Reads(w))
  }

  /** The resource and its Dive. */
  class DiveResource {
    const server: Server
    var remote: Remote
    var state: Model

    constructor (server: Server, remote: Remote, state: Model)
      ensures this.server == server && this.remote == remote && this.state == state
    {
      this.server, this.remote, this.state := server, remote, state;
    }

    method ReadDive(model: Model, w: World) returns (read: Model, found: bool)
      ensures found <==> Reads(w)
      ensures found ==> read == ReadBack(model, remote, w.hasStatus)
    {
      read := model;
      if !w.hasGet || !w.readable {
        return read, false;
      }
      read := read.(title := Known(remote.title));
      read := read.(description := ClearableFromLive(read.description, remote.description));
      read := read.(content := Known(remote.version.content));
      read := read.(versionDescription := ClearableFromLive(read.versionDescription, remote.version.description));
      read := read.(apiVersion := FromLive(remote.version.apiVersion));
      var resources := DiveRequiredResourcesFromLive(read.resources, remote.version.mounts);
      read := read.(resources := resources);
      read := read.(status := if w.hasStatus then FromLive(remote.status) else Null);
      return read, true;
    }

    method KeepAppliedDiveUpdate(plan: Model, w: World)
      modifies this`state
      ensures state == Keep(plan, old(state), remote, w)
    {
      var applied, found := ReadDive(plan, w);
      if found {
        state := applied;
      }
    }

    method Apply(plan: Model, w: World) returns (ok: bool)
      modifies this
      ensures (remote, state, ok) == Update(server, w, plan, old(state), old(remote))
    {
      var metadataArgs, updateMetadata, failed := DiveMetadataArgs(plan, state);
      var contentArgs, updateContent := DiveContentArgs(plan, state);
      var updateStatus := StatusChanged(plan.status, state.status);
      if failed || ProbesFail(w, Writes(updateMetadata, updateContent, updateStatus)) {
        return false;
      }
      if updateMetadata {
        if !w.metadata {
          return false;
        }
        remote := WriteMetadata(remote, metadataArgs);
      }
      if updateContent {
        if !w.content {
          if updateMetadata {
            KeepAppliedDiveUpdate(plan, w);
          }
          return false;
        }
        remote := WriteContent(server, remote, contentArgs);
      }
      if updateStatus {
        if !w.status {
          if updateMetadata || updateContent {
            KeepAppliedDiveUpdate(plan, w);
          }
          return false;
        }
        remote := remote.(status := Valid(plan.status.value));
      }
      var read, found := ReadDive(plan, w);
      if found {
        state := read;
      }
      return found;
    }
  }
}
