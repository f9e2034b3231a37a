/** What repeated applies of one configuration do to a Dive when writes fail:
    internal/resources/dive_resource.go. */
module DiveConvergence {
  import opened Text
  import opened Tf
  import opened DiveUrls
  import opened Dive

  /** A configuration at apply time: title and content are required and nothing is
      unknown. */
  predicate Complete(config: Model) {
    && config.title.Known? && config.content.Known?
    && !config.description.Unknown? && !config.versionDescription.Unknown? && !config.apiVersion.Unknown?
    && !config.resources.Unknown? && !config.status.Unknown?
  }

  predicate ContentWriteUnchanged(plan: Model, state: Model) {
    plan.content == state.content && MountsEqual(plan.resources, state.resources)
  }

  /** The plan for a configuration.  `marked` says whether the framework marked the
      unconfigured computed attributes as unknown; if not they hold the prior
      values, otherwise the plan modifiers decide. */
  function PlanOf(config: Model, state: Model, marked: bool): Model {
    config.(
      versionDescription :=
        if !config.versionDescription.Null? then config.versionDescription
        else if !marked then state.versionDescription
        else if config.apiVersion.Known? && config.apiVersion != state.apiVersion then Unknown
        else if ContentWriteUnchanged(config, state) then state.versionDescription
        else Unknown,
      apiVersion :=
        if !config.apiVersion.Null? then config.apiVersion
        else if !marked then state.apiVersion
        else if !state.apiVersion.Null? && ContentWriteUnchanged(config, state) then state.apiVersion
        else Unknown,
      status :=
        if !config.status.Null? then config.status
        else if !marked || !state.status.Null? then state.status
        else Unknown)
  }

  /** The writes that the next plan of the configuration asks for. */
  function Next(config: Model, state: Model, marked: bool): Writes {
    Planned(PlanOf(config, state, marked), state)
  }

  // ---------------------------------------------------------------------
  // What the server still lacks
  // ---------------------------------------------------------------------

  /** The server holds this text, where an empty one may be stored as NULL. */
  predicate Holds(live: Live<string>, text: string) {
    if text == "" then live == Missing || live == Valid("") else live == Valid(text)
  }

  /** The current version is not what the configuration asks for. */
  predicate ContentPending(config: Model, v: Version) {
    || config.content != Known(v.content)
    || (config.apiVersion.Known? && v.apiVersion != Valid(config.apiVersion.value))
    || (config.versionDescription.Known? && !Holds(v.description, config.versionDescription.value))
    || !Mounted(config.resources, v.mounts)
  }

  predicate MetadataPending(config: Model, d: Remote) {
    || config.title != Known(d.title)
    || (!DescriptionEmpty(config.description) && !Holds(d.description, ValueString(config.description)))
  }

  predicate StatusPending(config: Model, d: Remote, hasStatus: bool) {
    config.status.Known? && !(hasStatus && d.status == Valid(config.status.value))
  }

  /** The configuration compared with the server, with no state in between. */
  function Pending(config: Model, d: Remote, hasStatus: bool): Writes {
    if DescriptionEmpty(config.description) && !Holds(d.description, "") then Rejected
    else Writes(MetadataPending(config, d), ContentPending(config, d.version), StatusPending(config, d, hasStatus))
  }

  /** The state spells the mounts and texts as the configuration does, as far as they
      are the server's: it was read back over a plan of the configuration. */
  ghost predicate ReadOver(config: Model, state: Model, d: Remote, hasStatus: bool) {
    exists earlier: Model, marked: bool :: state == ReadBack(PlanOf(config, earlier, marked), d, hasStatus)
  }

  /** After a read-back the next plan asks exactly for what the server lacks. */
  lemma NextIsPending(config: Model, state: Model, d: Remote, hasStatus: bool, marked: bool)
    requires Complete(config) && ReadOver(config, state, d, hasStatus)
    ensures Next(config, state, marked) == Pending(config, d, hasStatus)
  {
    hide MountsEqual, MountsFromLive, Mounted, ContentWriteUnchanged;
    ReadBackEqualIffMounted(config.resources, d.version.mounts);
    assert state.resources == MountsFromLive(config.resources, d.version.mounts);
    var plan := PlanOf(config, state, marked);
    assert plan.title == config.title && plan.description == config.description;
    assert MetadataArgs(plan, state) == map[] <==>
           plan.title == state.title &&
           (plan.description == state.description || DescriptionEmpty(plan.description)) by {
      if plan.title != state.title {
        assert Title in MetadataArgs(plan, state);
      }
      if plan.description != state.description && !DescriptionEmpty(plan.description) {
        assert Description in MetadataArgs(plan, state);
      }
    }
  }

  // ---------------------------------------------------------------------
  // What each write settles
  // ---------------------------------------------------------------------

  /** The state is a read-back of this Dive, over whatever came before. */
  ghost predicate Fresh(state: Model, d: Remote, hasStatus: bool) {
    exists prior: Model :: state == ReadBack(prior, d, hasStatus)
  }

  /** Over a fresh state the metadata and the status are planned exactly when the
      server lacks them. */
  lemma PlannedOverFreshState(config: Model, state: Model, d: Remote, hasStatus: bool, marked: bool)
    requires Complete(config) && Fresh(state, d, hasStatus)
    ensures Next(config, state, marked).Rejected? <==> Pending(config, d, hasStatus).Rejected?
    ensures Next(config, state, marked).Writes? ==>
              && Next(config, state, marked).metadata == MetadataPending(config, d)
              && Next(config, state, marked).status == StatusPending(config, d, hasStatus)
  {
    hide MountsEqual, MountsFromLive, ContentWriteUnchanged, ContentUnchanged;
    var plan := PlanOf(config, state, marked);
    if plan.title != state.title {
      assert Title in MetadataArgs(plan, state);
    }
    if plan.description != state.description && !DescriptionEmpty(plan.description) {
      assert Description in MetadataArgs(plan, state);
    }
  }

  lemma MetadataWriteSettles(config: Model, state: Model, d: Remote, hasStatus: bool, marked: bool)
    requires Complete(config) && Fresh(state, d, hasStatus)
    requires !Pending(config, d, hasStatus).Rejected?
    ensures var d1 := WriteMetadata(d, MetadataArgs(PlanOf(config, state, marked), state));
            && !MetadataPending(config, d1) && !Pending(config, d1, hasStatus).Rejected?
            && d1 == d.(title := d1.title, description := d1.description)
  {
    hide MountsEqual, MountsFromLive, ContentWriteUnchanged;
  }

  /** An update is reported as done exactly if nothing has to be cleared, every write that
      it needs is offered and works, and the Dive can be read; before a function that is
      not offered nothing is written. */
  lemma UpdateSucceedsIff(b: Server, w: World, config: Model, state: Model, d: Remote, marked: bool)
    requires Complete(config) && Fresh(state, d, w.hasStatus)
    ensures var (d', state', ok) := Update(b, w, PlanOf(config, state, marked), state, d);
            var needs := Pending(config, d, w.hasStatus);
            var content := !ContentUnchanged(PlanOf(config, state, marked), state);
            var offered := needs.Writes? && w.hasGet && (needs.metadata ==> w.hasMetadata) &&
                           (content ==> w.hasContent) && (needs.status ==> w.hasStatus);
            && (ok ==> offered)
            && (offered ==>
                  (ok <==> w.readable && (needs.metadata ==> w.metadata) && (content ==> w.content) &&
                           (needs.status ==> w.status)))
            && (needs.Writes? && !offered && (needs.metadata || content || needs.status) ==> d' == d && state' == state)
            && (needs.Rejected? ==> d' == d && state' == state)
  {
    hide ContentUnchanged, ContentPending, MetadataPending, StatusPending, WriteContent, WriteMetadata, ReadBack,
      PlanOf;
    PlannedOverFreshState(config, state, d, w.hasStatus, marked);
  }

  /** No mounts in the state means none on the server. */
  predicate NullMeansNone(state: Model, d: Remote) {
    state.resources.Null? ==> LiveMounts(d.version.mounts) == []
  }

  lemma StoredMountsAreMounted(b: Server, config: Attr<seq<Mount>>)
    requires Conforming(b)
    ensures Mounted(config, Store(b, Configured(config)))
  {
  }

  lemma ContentWriteSettles(b: Server, config: Model, state: Model, d: Remote, marked: bool)
    requires Complete(config) && Conforming(b) && NullMeansNone(state, d)
    ensures var d1 := WriteContent(b, d, ContentArgs(PlanOf(config, state, marked), state));
            && !ContentPending(config, d1.version)
            && d1 == d.(version := d1.version, count := d.count + 1)
            && (config.resources.Known? ==> d1.version.mounts == Store(b, config.resources.value))
            && (config.resources.Null? ==> LiveMounts(d1.version.mounts) == [])
  {
    hide Mounted, Store, ContentWriteUnchanged, SameMount;
    StoredMountsAreMounted(b, config.resources);
    var plan := PlanOf(config, state, marked);
    var d1 := WriteContent(b, d, ContentArgs(plan, state));
    if config.resources.Null? {
      assert LiveMounts(d1.version.mounts) == [];
      assert Mounted(config.resources, d1.version.mounts) by {
        NothingIsMounted(config.resources, d1.version.mounts);
      }
    }
  }

  lemma NothingIsMounted(config: Attr<seq<Mount>>, raw: Live<seq<LiveMount>>)
    requires config.Null? && LiveMounts(raw) == []
    ensures Mounted(config, raw)
  {
  }

  /** Every URL here is plain. */
  predicate Plain(raw: Live<seq<LiveMount>>) {
    forall i :: 0 <= i < |LiveMounts(raw)| ==> PlainUrl(LiveMounts(raw)[i].url)
  }

  predicate PlainState(mounts: Attr<seq<Mount>>) {
    forall i :: 0 <= i < |Configured(mounts)| ==> PlainUrl(Configured(mounts)[i].url)
  }

  predicate AllSettled(mounts: Attr<seq<Mount>>) {
    forall i :: 0 <= i < |Configured(mounts)| ==> Settled(Configured(mounts)[i].url)
  }

  /** If the configured mounts compare equal to the ones read back, and their URLs
      are settled, the server mounts them: this is where the comparison of URLs has
      to be transitive. */
  lemma EqualMountsAreMounted(config: Attr<seq<Mount>>, prior: Attr<seq<Mount>>, raw: Live<seq<LiveMount>>)
    requires MountsEqual(config, MountsFromLive(prior, raw))
    requires AllSettled(config) && PlainState(MountsFromLive(prior, raw)) && Plain(raw)
    ensures Mounted(config, raw)
  {
    hide Settled, Equivalent;
    var read, live := MountsFromLive(prior, raw), LiveMounts(raw);
    if config.Known? && live != [] {
      forall i | 0 <= i < |live|
        ensures SameMount(config.value[i], live[i])
      {
        assert Alike(config.value[i], read.value[i]);
        assert Configured(config)[i] == config.value[i] && Configured(read)[i] == read.value[i];
        EquivalentIsReflexive(live[i].url);
        SettledKeepsTarget(config.value[i].url, read.value[i].url, live[i].url);
      }
    }
  }

  lemma UnplannedContentIsNotPending(config: Model, state: Model, d: Remote, hasStatus: bool, marked: bool)
    requires Complete(config) && Fresh(state, d, hasStatus)
    requires ContentUnchanged(PlanOf(config, state, marked), state)
    requires AllSettled(config.resources) && PlainState(state.resources) && Plain(d.version.mounts)
    ensures !ContentPending(config, d.version)
  {
    hide MountsEqual, MountsFromLive, Mounted, Plain, PlainState, AllSettled;
    var prior: Model :| state == ReadBack(prior, d, hasStatus);
    EqualMountsAreMounted(config.resources, prior.resources, d.version.mounts);
  }

  // ---------------------------------------------------------------------
  // Refreshes
  // ---------------------------------------------------------------------

  /** The state after this many refreshes. */
  function Refreshed(n: nat, state: Model, d: Remote, hasStatus: bool): Model {
    if n == 0 then state else ReadBack(Refreshed(n - 1, state, d, hasStatus), d, hasStatus)
  }

  /** Reading mounts back over a read-back changes nothing. */
  lemma MountsReadBackTwice(prior: Attr<seq<Mount>>, raw: Live<seq<LiveMount>>)
    ensures var read := MountsFromLive(prior, raw); MountsFromLive(read, raw) == read
  {
    hide Equivalent, EqualFold;
    var live := LiveMounts(raw);
    var read := MountsFromLive(prior, raw);
    forall i | 0 <= i < |live| ensures SameMount(Mount(AliasOf(live[i]), live[i].url), live[i]) {
      AsLiveIsSame(live[i]);
    }
    if live != [] {
      assert MountsFromLive(read, raw).value == read.value;
    }
  }

  lemma AsLiveIsSame(live: LiveMount)
    ensures SameMount(Mount(AliasOf(live), live.url), live)
  {
  }

  lemma ReadBackTwice(prior: Model, d: Remote, hasStatus: bool)
    ensures var read := ReadBack(prior, d, hasStatus); ReadBack(read, d, hasStatus) == read
  {
    hide MountsFromLive;
    MountsReadBackTwice(prior.resources, d.version.mounts);
  }

  /** A refresh leaves a state alone that was read back, however often it comes. */
  lemma {:induction false} RefreshesKeepReadBack(n: nat, prior: Model, d: Remote, hasStatus: bool)
    ensures var read := ReadBack(prior, d, hasStatus); Refreshed(n, read, d, hasStatus) == read
  {
    hide ReadBack;
    if n > 0 {
      RefreshesKeepReadBack(n - 1, prior, d, hasStatus);
      ReadBackTwice(prior, d, hasStatus);
    }
  }

  // ---------------------------------------------------------------------
  // One update with a failure
  // ---------------------------------------------------------------------

  /** The metadata was written and the content write failed: the next update leaves
      the metadata alone, asks for the status as this one did, and repeats the content
      write if and only if the server's version is not what is configured. */
  lemma FailedContentWrite(b: Server, w: World, config: Model, state: Model, d: Remote,
                           marked: bool, next: bool, refreshes: nat)
    requires Complete(config) && Fresh(state, d, w.hasStatus)
    requires var writes := Next(config, state, marked);
             writes.Writes? && writes.metadata && writes.content && !ProbesFail(w, writes)
    requires w.metadata && !w.content && w.readable
    ensures var plan := PlanOf(config, state, marked);
            var (d', state', ok) := Update(b, w, plan, state, d);
            && !ok && d'.version == d.version && d'.count == d.count
            && Next(config, Refreshed(refreshes, state', d', w.hasStatus), next) ==
               Writes(false, ContentPending(config, d.version), Next(config, state, marked).status)
  {
    hide ContentPending, MetadataPending, WriteMetadata, MetadataArgs, ReadBack, ContentUnchanged, PlanOf;
    PlannedOverFreshState(config, state, d, w.hasStatus, marked);
    MetadataWriteSettles(config, state, d, w.hasStatus, marked);
    var plan := PlanOf(config, state, marked);
    var d1 := WriteMetadata(d, MetadataArgs(plan, state));
    RefreshesKeepReadBack(refreshes, plan, d1, w.hasStatus);
    NextIsPending(config, ReadBack(plan, d1, w.hasStatus), d1, w.hasStatus, next);
  }

  /** Metadata or content was written and the status write failed: the next update
      asks for the status alone, unless no content was written and mounts that
      compare equal to the state are not the server's. */
  lemma FailedStatusWrite(b: Server, w: World, config: Model, state: Model, d: Remote,
                          marked: bool, next: bool, refreshes: nat)
    requires Complete(config) && Conforming(b) && Fresh(state, d, w.hasStatus)
    requires var writes := Next(config, state, marked);
             && writes.Writes? && writes.status && (writes.metadata || writes.content)
             && !ProbesFail(w, writes) && w.hasStatus
    requires w.metadata && w.content && !w.status && w.readable
    ensures var plan, writes := PlanOf(config, state, marked), Next(config, state, marked);
            var (d', state', ok) := Update(b, w, plan, state, d);
            && !ok && d'.count == d.count + (if writes.content then 1 else 0)
            && Next(config, Refreshed(refreshes, state', d', w.hasStatus), next) ==
               Writes(false, !writes.content && ContentPending(config, d.version), true)
  {
    hide ContentPending, MetadataPending, WriteMetadata, MetadataArgs, WriteContent, ContentArgs, ReadBack, PlanOf;
    PlannedOverFreshState(config, state, d, w.hasStatus, marked);
    MetadataWriteSettles(config, state, d, w.hasStatus, marked);
    var plan, writes := PlanOf(config, state, marked), Next(config, state, marked);
    var d1 := if writes.metadata then WriteMetadata(d, MetadataArgs(plan, state)) else d;
    FreshMeansNone(state, d, w.hasStatus);
    ContentWriteSettles(b, config, state, d1, marked);
    var d2 := if writes.content then WriteContent(b, d1, ContentArgs(plan, state)) else d1;
    assert MetadataPending(config, d2) == MetadataPending(config, d1) by {
      MetadataReadsTextsOnly(config, d1, d2);
    }
    RefreshesKeepReadBack(refreshes, plan, d2, w.hasStatus);
    NextIsPending(config, ReadBack(plan, d2, w.hasStatus), d2, w.hasStatus, next);
  }

  lemma MetadataReadsTextsOnly(config: Model, d: Remote, d': Remote)
    requires d.title == d'.title && d.description == d'.description
    ensures MetadataPending(config, d) == MetadataPending(config, d')
  {
  }

  lemma FreshMeansNone(state: Model, d: Remote, hasStatus: bool)
    requires Fresh(state, d, hasStatus)
    ensures NullMeansNone(state, d)
  {
  }

  /** With settled URLs only the failed status write is repeated. */
  lemma FailedStatusWriteIsRetriedAlone(b: Server, w: World, config: Model, state: Model, d: Remote, marked: bool,
                                        next: bool, refreshes: nat)
    requires Complete(config) && Conforming(b) && Fresh(state, d, w.hasStatus)
    requires var writes := Next(config, state, marked);
             && writes.Writes? && writes.status && (writes.metadata || writes.content)
             && !ProbesFail(w, writes) && w.hasStatus
    requires w.metadata && w.content && !w.status && w.readable
    requires AllSettled(config.resources) && PlainState(state.resources) && Plain(d.version.mounts)
    ensures var (d', state', _) := Update(b, w, PlanOf(config, state, marked), state, d);
            Next(config, Refreshed(refreshes, state', d', w.hasStatus), next) == Writes(false, false, true)
  {
    hide ContentPending, MetadataPending, WriteMetadata, MetadataArgs, WriteContent, ContentArgs, ReadBack, PlanOf,
      AllSettled, PlainState, Plain, ContentUnchanged, Update;
    FailedStatusWrite(b, w, config, state, d, marked, next, refreshes);
    if ContentUnchanged(PlanOf(config, state, marked), state) {
      UnplannedContentIsNotPending(config, state, d, w.hasStatus, marked);
    }
  }

  /** A content write that changes only the case of an alias and fails is not
      repeated: its read-back already looks like the configuration. */
  lemma AliasCaseChangeIsLost(b: Server, was: string, changed: string)
    requires was != changed && EqualFold(changed, was)
    ensures var live := Version("c", Missing, Missing, Valid([LiveMount(Missing, Valid(was), "md:x")]));
            var d := Remote("old", Missing, Missing, live, 1);
            var config := Model(Known("new"), Null, Known("c"), Null, Null, Known([Mount(changed, "md:x")]), Null);
            var state := ReadBack(config.(resources := Null), d, true);
            var w := World(true, true, true, true, true, false, true, true);
            && Next(config, state, true) == Writes(true, true, false)
            && Next(config, Update(b, w, PlanOf(config, state, true), state, d).1, true) == Writes(false, false, false)
  {
    hide Token, EqualFold;
    var live := Version("c", Missing, Missing, Valid([LiveMount(Missing, Valid(was), "md:x")]));
    var d := Remote("old", Missing, Missing, live, 1);
    var config := Model(Known("new"), Null, Known("c"), Null, Null, Known([Mount(changed, "md:x")]), Null);
    var state := ReadBack(config.(resources := Null), d, true);
    var w := World(true, true, true, true, true, false, true, true);
    assert state.resources.value[0] == Mount(was, "md:x");
    assert !Alike(Mount(changed, "md:x"), Mount(was, "md:x"));
    assert !ContentUnchanged(PlanOf(config, state, true), state);
    assert Title in MetadataArgs(PlanOf(config, state, true), state);
    EquivalentIsReflexive("md:x");
    assert SameMount(Mount(changed, "md:x"), live.mounts.value[0]);
    FailedContentWrite(b, w, config, state, d, true, true, 0);
  }

  /** Such aliases, within ASCII and beyond. */
  lemma AliasesThatDifferInCase()
    ensures "A" != "a" && EqualFold("A", "a")
    ensures [CAPITAL_E_ACUTE] != [SMALL_E_ACUTE] && EqualFold([CAPITAL_E_ACUTE], [SMALL_E_ACUTE])
  {
    assert "A"[0] != "a"[0] && [CAPITAL_E_ACUTE][0] != [SMALL_E_ACUTE][0];
    assert FoldChar('A') == FoldChar('a') && FoldChar(CAPITAL_E_ACUTE) == FoldChar(SMALL_E_ACUTE);
  }

  /** After an update that succeeds the next one has nothing to write, unless no content
      was written and mounts that compare equal to the state are not the server's. */
  lemma SuccessfulUpdateConverges(b: Server, w: World, config: Model, state: Model, d: Remote, marked: bool,
                                  next: bool, refreshes: nat)
    requires Complete(config) && Conforming(b) && Fresh(state, d, w.hasStatus)
    requires Update(b, w, PlanOf(config, state, marked), state, d).2
    ensures var (d', state', _) := Update(b, w, PlanOf(config, state, marked), state, d);
            Next(config, Refreshed(refreshes, state', d', w.hasStatus), next) ==
            Writes(false, !Next(config, state, marked).content && ContentPending(config, d.version), false)
  {
    hide ContentPending, MetadataPending, WriteMetadata, MetadataArgs, WriteContent, ContentArgs, ReadBack, PlanOf,
      ContentUnchanged;
    PlannedOverFreshState(config, state, d, w.hasStatus, marked);
    MetadataWriteSettles(config, state, d, w.hasStatus, marked);
    var plan, writes := PlanOf(config, state, marked), Next(config, state, marked);
    var d1 := if writes.metadata then WriteMetadata(d, MetadataArgs(plan, state)) else d;
    FreshMeansNone(state, d, w.hasStatus);
    ContentWriteSettles(b, config, state, d1, marked);
    var d2 := if writes.content then WriteContent(b, d1, ContentArgs(plan, state)) else d1;
    var d3 := if writes.status then d2.(status := Valid(plan.status.value)) else d2;
    MetadataReadsTextsOnly(config, d1, d3);
    if writes.status {
      StatusIsPlanned(config, state, marked);
    }
    RefreshesKeepReadBack(refreshes, plan, d3, w.hasStatus);
    NextIsPending(config, ReadBack(plan, d3, w.hasStatus), d3, w.hasStatus, next);
  }

  /** With settled URLs nothing is left to write. */
  lemma SuccessWithSettledUrlsConverges(b: Server, w: World, config: Model, state: Model, d: Remote, marked: bool,
                                        next: bool, refreshes: nat)
    requires Complete(config) && Conforming(b) && Fresh(state, d, w.hasStatus)
    requires AllSettled(config.resources) && PlainState(state.resources) && Plain(d.version.mounts)
    requires Update(b, w, PlanOf(config, state, marked), state, d).2
    ensures var (d', state', _) := Update(b, w, PlanOf(config, state, marked), state, d);
            Next(config, Refreshed(refreshes, state', d', w.hasStatus), next) == Writes(false, false, false)
  {
    hide ContentPending, MetadataArgs, ReadBack, PlanOf, AllSettled, PlainState, Plain, ContentUnchanged, Update;
    SuccessfulUpdateConverges(b, w, config, state, d, marked, next, refreshes);
    if ContentUnchanged(PlanOf(config, state, marked), state) {
      UnplannedContentIsNotPending(config, state, d, w.hasStatus, marked);
    } else {
      UpdateWasPlanned(b, w, config, state, d, marked);
    }
  }

  lemma UpdateWasPlanned(b: Server, w: World, config: Model, state: Model, d: Remote, marked: bool)
    requires Update(b, w, PlanOf(config, state, marked), state, d).2
    ensures Next(config, state, marked).Writes?
    ensures Next(config, state, marked).content <==> !ContentUnchanged(PlanOf(config, state, marked), state)
  {
    hide ContentUnchanged, MetadataArgs, ReadBack;
  }

  /** A mount that is recorded equal to both the configured and the live one, which are not
      the same. */
  lemma OneMountBetween(configured: string, recorded: string, live: string)
    requires Equivalent(configured, recorded) && Equivalent(recorded, live) && !Equivalent(configured, live)
    ensures var mounts := Valid([LiveMount(Missing, Valid("a"), live)]);
            && MountsFromLive(Known([Mount("a", recorded)]), mounts) == Known([Mount("a", recorded)])
            && MountsEqual(Known([Mount("a", configured)]), Known([Mount("a", recorded)]))
            && !Mounted(Known([Mount("a", configured)]), mounts)
  {
    hide Equivalent, EqualFold;
    FoldsToItself("a");
    var m := LiveMount(Missing, Valid("a"), live);
    var mounts := Valid([m]);
    assert SameMount(Mount("a", recorded), m) && !SameMount(Mount("a", configured), m);
    assert Alike(Mount("a", configured), Mount("a", recorded));
    assert MountsFromLive(Known([Mount("a", recorded)]), mounts).value == [Mount("a", recorded)];
    assert !SameMount(Configured(Known([Mount("a", configured)]))[0], LiveMounts(mounts)[0]);
  }

  /** An update of the title alone succeeds, and the next plan asks for a content write:
      the recorded spelling of a URL is equivalent to the configured and to the live one,
      and those are not to each other, as the URLs of `DiveUrls.NotTransitive`. */
  lemma SuccessThatLeavesContentPending(b: Server, configured: string, recorded: string, live: string)
    requires Conforming(b)
    requires Equivalent(configured, recorded) && Equivalent(recorded, live) && !Equivalent(configured, live)
    ensures var config := Model(Known("new"), Null, Known("c"), Null, Null, Known([Mount("a", configured)]), Null);
            var d := Remote("old", Missing, Missing,
                            Version("c", Missing, Missing, Valid([LiveMount(Missing, Valid("a"), live)])), 1);
            var state := ReadBack(config.(resources := Known([Mount("a", recorded)])), d, true);
            var w := World(true, true, true, true, true, true, true, true);
            var (d', state', ok) := Update(b, w, PlanOf(config, state, true), state, d);
            && Next(config, state, true) == Writes(true, false, false) && ok
            && Next(config, state', true) == Writes(false, true, false)
  {
    hide Equivalent, EqualFold, Conforming, MountsFromLive, MountsEqual, Mounted;
    var config := Model(Known("new"), Null, Known("c"), Null, Null, Known([Mount("a", configured)]), Null);
    var mounts := [LiveMount(Missing, Valid("a"), live)];
    var d := Remote("old", Missing, Missing, Version("c", Missing, Missing, Valid(mounts)), 1);
    var state := ReadBack(config.(resources := Known([Mount("a", recorded)])), d, true);
    var w := World(true, true, true, true, true, true, true, true);
    OneMountBetween(configured, recorded, live);
    assert Title in MetadataArgs(PlanOf(config, state, true), state);
    SuccessfulUpdateConverges(b, w, config, state, d, true, true, 0);
  }

  lemma FoldsToItself(s: string)
    ensures EqualFold(s, s)
  {
  }

  lemma StatusIsPlanned(config: Model, state: Model, marked: bool)
    requires Complete(config) && Next(config, state, marked).Writes? && Next(config, state, marked).status
    ensures config.status.Known? && PlanOf(config, state, marked).status == config.status
  {
  }
}
