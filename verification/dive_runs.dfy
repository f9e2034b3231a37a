/** Whole runs of applies of one configuration to a Dive, with failures, refreshes
    and changes of URL spelling in between: internal/resources/dive_resource.go. */
module DiveRuns {
  import opened Text
  import opened Tf
  import opened DiveUrls
  import opened Dive
  import opened DiveConvergence

  /** The server leaves a mount URL alone, or respells it: it still names the same
      resource. */
  predicate Respells(from: LiveMount, to: LiveMount) {
    && AliasOf(from) == AliasOf(to)
    && (from.url == to.url || (Equivalent(from.url, to.url) && PlainUrl(from.url) && PlainUrl(to.url)))
  }

  ghost predicate Respelled(from: seq<LiveMount>, to: seq<LiveMount>) {
    |from| == |to| && forall i :: 0 <= i < |from| ==> Respells(from[i], to[i])
  }

  /** Mounts stay mounted through every change of spelling exactly when each of
      their URLs is settled. */
  lemma MountsSurviveRespellingIffSettled(ms: seq<Mount>)
    ensures AllSettled(Known(ms)) <==>
            forall from, to ::
              Mounted(Known(ms), Valid(from)) && Respelled(from, to) ==> Mounted(Known(ms), Valid(to))
  {
    hide Settled, Equivalent, Fold;
    if AllSettled(Known(ms)) {
      forall from, to | Mounted(Known(ms), Valid(from)) && Respelled(from, to)
        ensures Mounted(Known(ms), Valid(to))
      {
        SettledStaysMounted(Known(ms), from, to);
      }
    } else {
      var k :| 0 <= k < |ms| && !Settled(ms[k].url);
      StableIffSettled(ms[k].url);
      var v, w :| PlainUrl(v) && PlainUrl(w)
                  && Equivalent(ms[k].url, v) && Equivalent(v, w) && !Equivalent(ms[k].url, w);
      var from, to := Placed(ms, k, v), Placed(ms, k, w);
      PlacedIsMounted(ms, k, v);
      assert !SameMount(ms[k], to[k]);
      assert !Mounted(Known(ms), Valid(to));
      RespellOne(ms, k, v, w);
    }
  }

  /** The mounts as configured, but the k-th with another URL. */
  function Placed(ms: seq<Mount>, k: nat, url: string): seq<LiveMount> {
    seq(|ms|, i requires 0 <= i < |ms| => LiveMount(Missing, Valid(ms[i].alias), if i == k then url else ms[i].url))
  }

  lemma PlacedIsMounted(ms: seq<Mount>, k: nat, url: string)
    requires k < |ms| && Equivalent(ms[k].url, url)
    ensures Mounted(Known(ms), Valid(Placed(ms, k, url)))
  {
    hide Equivalent, Fold;
    forall i | 0 <= i < |ms| ensures SameMount(ms[i], Placed(ms, k, url)[i]) {
      EquivalentIsReflexive(ms[i].url);
    }
  }

  lemma RespellOne(ms: seq<Mount>, k: nat, v: string, w: string)
    requires k < |ms| && PlainUrl(v) && PlainUrl(w) && Equivalent(v, w)
    ensures Respelled(Placed(ms, k, v), Placed(ms, k, w))
  {
    hide Equivalent, PlainUrl;
    forall i | 0 <= i < |ms| ensures Respells(Placed(ms, k, v)[i], Placed(ms, k, w)[i]) {
    }
  }

  lemma SettledStaysMounted(config: Attr<seq<Mount>>, from: seq<LiveMount>, to: seq<LiveMount>)
    requires AllSettled(config) && Mounted(config, Valid(from)) && Respelled(from, to)
    ensures Mounted(config, Valid(to))
  {
    hide Settled, Equivalent, Fold;
    var ms := Configured(config);
    forall i | 0 <= i < |ms| ensures SameMount(ms[i], to[i]) {
      assert SameMount(ms[i], from[i]) && Respells(from[i], to[i]);
      if from[i].url != to[i].url {
        SettledKeepsTarget(ms[i].url, from[i].url, to[i].url);
      }
    }
  }

  // ---------------------------------------------------------------------
  // Runs
  // ---------------------------------------------------------------------

  /** One apply, one refresh, or the server respelling its mount URLs. */
  datatype Event = Apply(w: World, marked: bool) | Refresh(hasStatus: bool) | Respell(to: seq<LiveMount>)

  ghost function Happen(b: Server, config: Model, e: Event, d: Remote, state: Model): (Remote, Model) {
    match e
    case Apply(w, marked) =>
      var (d', state', _) := Update(b, w, PlanOf(config, state, marked), state, d);
      (d', state')
    case Refresh(hasStatus) => (d, ReadBack(state, d, hasStatus))
    case Respell(to) =>
      if Respelled(LiveMounts(d.version.mounts), to) then (d.(version := d.version.(mounts := Valid(to))), state)
      else (d, state)
  }

  ghost function Run(b: Server, config: Model, events: seq<Event>, d: Remote, state: Model): (Remote, Model)
    decreases |events|
  {
    if events == [] then (d, state)
    else
      var (d', state') := Happen(b, config, events[0], d, state);
      Run(b, config, events[1..], d', state')
  }

  /** Every read-back in the run works. */
  ghost predicate ReadsWork(events: seq<Event>) {
    forall i :: 0 <= i < |events| && events[i].Apply? ==> Reads(events[i].w)
  }

  /** The state repeats the configuration in all that a content write carries. */
  predicate Aligned(config: Model, state: Model) {
    && state.content == config.content
    && (config.apiVersion.Known? ==> state.apiVersion == config.apiVersion)
    && (config.versionDescription.Known? ==> state.versionDescription == config.versionDescription)
    && state.resources == config.resources
  }

  /** The content is on the server and the state knows it. */
  predicate ContentSettled(config: Model, state: Model, d: Remote) {
    Aligned(config, state) && !ContentPending(config, d.version)
  }

  lemma MountsEqualReflexive(mounts: Attr<seq<Mount>>)
    requires !mounts.Unknown?
    ensures MountsEqual(mounts, mounts)
  {
    hide Equivalent;
    if mounts.Known? {
      forall i | 0 <= i < |mounts.value| ensures Alike(mounts.value[i], mounts.value[i]) {
        EquivalentIsReflexive(mounts.value[i].url);
      }
    }
  }

  lemma AlignedPlansNoContent(config: Model, state: Model, marked: bool)
    requires Complete(config) && Aligned(config, state)
    ensures ContentUnchanged(PlanOf(config, state, marked), state)
  {
    hide MountsEqual;
    MountsEqualReflexive(config.resources);
  }

  /** Reading back over the configured spelling keeps the state aligned. */
  lemma ReadBackAligns(config: Model, prior: Model, d: Remote, hasStatus: bool)
    requires Complete(config) && !ContentPending(config, d.version)
    requires prior.resources == config.resources
    requires config.versionDescription.Known? ==> prior.versionDescription == config.versionDescription
    ensures ContentSettled(config, ReadBack(prior, d, hasStatus), d)
  {
    hide Mounted, MountsFromLive;
    ReadBackKeepsMounted(config.resources, d.version.mounts);
  }

  lemma UpdateKeepsSettled(b: Server, w: World, config: Model, state: Model, d: Remote, marked: bool)
    requires Complete(config) && Reads(w) && ContentSettled(config, state, d)
    ensures var (d', state', _) := Update(b, w, PlanOf(config, state, marked), state, d);
            ContentSettled(config, state', d') && d'.count == d.count && d'.version == d.version
  {
    hide ContentPending, MetadataArgs, ReadBack, ContentUnchanged, MountsEqual;
    AlignedPlansNoContent(config, state, marked);
    var plan := PlanOf(config, state, marked);
    var d' := Update(b, w, plan, state, d).0;
    assert d'.version == d.version;
    ReadBackAligns(config, plan, d', w.hasStatus);
  }

  /** An update either writes no version and leaves the state or reads it back, or it
      writes one and then the content is settled. */
  lemma UpdateWritesAtMostOneVersion(b: Server, w: World, config: Model, state: Model, d: Remote, marked: bool)
    requires Complete(config) && Conforming(b) && Reads(w) && NullMeansNone(state, d)
    ensures var (d', state', _) := Update(b, w, PlanOf(config, state, marked), state, d);
            && d'.count <= d.count + 1 && (d'.count == d.count ==> d'.version == d.version)
            && (d'.count == d.count + 1 ==> ContentSettled(config, state', d'))
            && NullMeansNone(state', d')
            && d'.count >= d.count
  {
    hide ContentPending, MetadataArgs, ContentArgs, ContentUnchanged, MountsEqual, WriteContent, ReadBack;
    var plan := PlanOf(config, state, marked);
    var d1 := if MetadataArgs(plan, state) != map[] then WriteMetadata(d, MetadataArgs(plan, state)) else d;
    ContentWriteSettles(b, config, state, d1, marked);
    var (d', state', _) := Update(b, w, plan, state, d);
    if d'.count != d.count {
      ReadBackAligns(config, plan, d', w.hasStatus);
    }
    ReadBackMeansNone(plan, d', w.hasStatus);
  }

  lemma ReadBackMeansNone(prior: Model, d: Remote, hasStatus: bool)
    ensures NullMeansNone(ReadBack(prior, d, hasStatus), d)
  {
  }

  lemma {:induction false} SettledStaysSettled(b: Server, config: Model, events: seq<Event>, d: Remote, state: Model)
    requires Complete(config) && AllSettled(config.resources) && ReadsWork(events)
    requires ContentSettled(config, state, d)
    ensures var (d', state') := Run(b, config, events, d, state);
            d'.count == d.count && ContentSettled(config, state', d')
    decreases |events|
  {
    if events != [] {
      hide ContentPending, ReadBack, Update, AllSettled, Aligned, Mounted;
      var (d1, state1) := Happen(b, config, events[0], d, state);
      match events[0] {
        case Apply(w, marked) =>
          UpdateKeepsSettled(b, w, config, state, d, marked);
        case Refresh(hasStatus) =>
          RefreshKeepsSettled(config, state, d, hasStatus);
        case Respell(to) =>
          RespellKeepsSettled(config, state, d, to);
      }
      assert d1.count == d.count && ContentSettled(config, state1, d1);
      assert ReadsWork(events[1..]);
      SettledStaysSettled(b, config, events[1..], d1, state1);
    }
  }

  lemma RefreshKeepsSettled(config: Model, state: Model, d: Remote, hasStatus: bool)
    requires Complete(config) && ContentSettled(config, state, d)
    ensures ContentSettled(config, ReadBack(state, d, hasStatus), d)
  {
    hide ContentPending;
    ReadBackAligns(config, state, d, hasStatus);
  }

  lemma RespellKeepsSettled(config: Model, state: Model, d: Remote, to: seq<LiveMount>)
    requires Complete(config) && AllSettled(config.resources) && ContentSettled(config, state, d)
    ensures Respelled(LiveMounts(d.version.mounts), to) ==>
              ContentSettled(config, state, d.(version := d.version.(mounts := Valid(to))))
  {
    hide AllSettled;
    if Respelled(LiveMounts(d.version.mounts), to) {
      assert Mounted(config.resources, Valid(LiveMounts(d.version.mounts)));
      SettledStaysMounted(config.resources, LiveMounts(d.version.mounts), to);
    }
  }

  /** With settled URLs, in every run of applies of one configuration whose read-backs
      work, whatever writes fail and however the server respells its URLs, at most one
      content version is appended. */
  lemma {:induction false} AtMostOneVersionOfSettledUrls(b: Server, config: Model, events: seq<Event>,
                                                         d: Remote, state: Model)
    requires Complete(config) && Conforming(b) && AllSettled(config.resources) && ReadsWork(events)
    requires NullMeansNone(state, d)
    ensures d.count <= Run(b, config, events, d, state).0.count <= d.count + 1
    decreases |events|
  {
    if events != [] {
      hide ContentPending, ReadBack, Update, AllSettled, Aligned, Mounted;
      var e := events[0];
      var (d1, state1) := Happen(b, config, e, d, state);
      assert ReadsWork(events[1..]);
      if e.Apply? {
        UpdateWritesAtMostOneVersion(b, e.w, config, state, d, e.marked);
      } else if e.Refresh? {
        ReadBackMeansNone(state, d, e.hasStatus);
      }
      if d1.count == d.count {
        AtMostOneVersionOfSettledUrls(b, config, events[1..], d1, state1);
      } else {
        SettledStaysSettled(b, config, events[1..], d1, state1);
      }
    }
  }

  /** The server that gives one URL another spelling and stores the others as sent. */
  function Spelling(url: string, spelled: string): Server {
    Server(u => if u == url then spelled else u, Missing, Missing, Missing)
  }

  lemma SpellingConforms(url: string, spelled: string)
    requires Equivalent(url, spelled)
    ensures Conforming(Spelling(url, spelled))
  {
    hide Equivalent;
    var b := Spelling(url, spelled);
    forall u ensures Equivalent(u, b.spell(u)) {
      EquivalentIsReflexive(u);
    }
  }

  /** Nothing is recorded and nothing is mounted. */
  const BLANK := Model(Null, Null, Null, Null, Null, Null, Null)
  const BARE := Remote("", Missing, Missing, Version("", Missing, Missing, Missing), 1)

  const ALL_WORKS := World(true, true, true, true, true, true, true, true)

  /** An unsettled URL of the configuration, and two plain spellings of which the
      configured one is equivalent to the first alone. */
  lemma UnsettledSpellings(ms: seq<Mount>) returns (k: nat, v: string, w: string)
    requires !AllSettled(Known(ms))
    ensures k < |ms| && PlainUrl(v) && PlainUrl(w)
    ensures Equivalent(ms[k].url, v) && Equivalent(v, w) && !Equivalent(ms[k].url, w)
  {
    hide Settled, Equivalent, PlainUrl;
    k :| 0 <= k < |ms| && !Settled(ms[k].url);
    StableIffSettled(ms[k].url);
    v, w :| PlainUrl(v) && PlainUrl(w) && Equivalent(ms[k].url, v) && Equivalent(v, w) && !Equivalent(ms[k].url, w);
  }

  /** Stored mounts with one of the spellings changed. */
  lemma RespellStored(ms: seq<Mount>, k: nat, v: string, w: string) returns (to: seq<LiveMount>)
    requires k < |ms| && PlainUrl(v) && PlainUrl(w) && Equivalent(v, w) && !Equivalent(ms[k].url, w)
    ensures Respelled(LiveMounts(Store(Spelling(ms[k].url, v), ms)), to) && !Mounted(Known(ms), Valid(to))
  {
    hide Equivalent, PlainUrl, EqualFold;
    var from := LiveMounts(Store(Spelling(ms[k].url, v), ms));
    to := from[k := from[k].(url := w)];
    assert from[k].url == v;
    assert !SameMount(ms[k], to[k]);
  }

  lemma FirstApplyWrites(b: Server, config: Model)
    requires Complete(config) && Conforming(b)
    ensures var (d, state) := Happen(b, config, Apply(ALL_WORKS, true), BARE, BLANK);
            && d.count == 2 && ContentSettled(config, state, d)
            && (config.resources.Known? ==> d.version.mounts == Store(b, config.resources.value))
            && (DescriptionEmpty(config.description) ==> d.description == Missing)
  {
    hide ContentPending, MountsFromLive, Conforming, Store;
    var plan := PlanOf(config, BLANK, true);
    var d1 := if MetadataArgs(plan, BLANK) != map[] then WriteMetadata(BARE, MetadataArgs(plan, BLANK)) else BARE;
    ContentWriteSettles(b, config, BLANK, d1, true);
    var d := Happen(b, config, Apply(ALL_WORKS, true), BARE, BLANK).0;
    ReadBackAligns(config, plan, d, true);
  }

  /** Over mounts that are not the configured ones the next apply appends a version. */
  lemma ApplyWritesAgain(b: Server, config: Model, d: Remote, state: Model)
    requires Complete(config) && !Mounted(config.resources, d.version.mounts)
    requires state.resources == config.resources
    requires DescriptionEmpty(config.description) ==> d.description == Missing
    ensures var seen := ReadBack(state, d, true);
            Happen(b, config, Apply(ALL_WORKS, true), d, seen).0.count == d.count + 1
  {
    hide Mounted, MountsFromLive, MountsEqual, ContentWriteUnchanged;
    ReadBackEqualIffMounted(config.resources, d.version.mounts);
    var seen := ReadBack(state, d, true);
    assert !ContentUnchanged(PlanOf(config, seen, true), seen);
  }

  lemma RunCons(b: Server, config: Model, e: Event, rest: seq<Event>, d: Remote, state: Model)
    ensures Run(b, config, [e] + rest, d, state) ==
            Run(b, config, rest, Happen(b, config, e, d, state).0, Happen(b, config, e, d, state).1)
  {
    hide Happen;
    assert ([e] + rest)[1..] == rest;
  }

  lemma RespellHappens(b: Server, config: Model, d: Remote, state: Model, to: seq<LiveMount>)
    requires Respelled(LiveMounts(d.version.mounts), to)
    ensures Happen(b, config, Respell(to), d, state) ==
            (d.(version := d.version.(mounts := Valid(to))), state)
  {
    hide Respelled, Update, ReadBack;
  }

  function RespellApply(to: seq<LiveMount>): seq<Event> {
    [Respell(to)] + ([Refresh(true)] + ([Apply(ALL_WORKS, true)] + []))
  }

  /** Respelled mounts that are not the configured ones any more are written again. */
  lemma RespellingAppends(b: Server, config: Model, d: Remote, state: Model, to: seq<LiveMount>)
    requires Complete(config) && state.resources == config.resources
    requires DescriptionEmpty(config.description) ==> d.description == Missing
    requires Respelled(LiveMounts(d.version.mounts), to) && !Mounted(config.resources, Valid(to))
    ensures Run(b, config, RespellApply(to), d, state).0.count == d.count + 1
  {
    hide Respelled, Mounted, Run, Happen, ReadBack;
    var apply := Apply(ALL_WORKS, true);
    RespellHappens(b, config, d, state, to);
    var d1 := d.(version := d.version.(mounts := Valid(to)));
    ApplyWritesAgain(b, config, d1, state);
    RefreshHappens(b, config, d1, state);
    var seen := ReadBack(state, d1, true);
    RunCons(b, config, Respell(to), [Refresh(true)] + ([apply] + []), d, state);
    RunCons(b, config, Refresh(true), [apply] + [], d1, state);
    RunCons(b, config, apply, [], d1, seen);
    RunEnds(b, config, Happen(b, config, apply, d1, seen).0, Happen(b, config, apply, d1, seen).1);
  }

  lemma RefreshHappens(b: Server, config: Model, d: Remote, state: Model)
    ensures Happen(b, config, Refresh(true), d, state) == (d, ReadBack(state, d, true))
  {
    hide ReadBack, Update;
  }

  lemma RunEnds(b: Server, config: Model, d: Remote, state: Model)
    ensures Run(b, config, [], d, state) == (d, state)
  {
  }

  /** With an unsettled URL there is a server, a Dive and a run whose read-backs all work
      that appends two versions: the server respells the URL in between. */
  lemma UnsettledUrlAppendsTwice(config: Model)
    returns (b: Server, events: seq<Event>, d: Remote, state: Model)
    requires Complete(config) && !AllSettled(config.resources)
    ensures Conforming(b) && ReadsWork(events) && NullMeansNone(state, d)
    ensures Run(b, config, events, d, state).0.count == d.count + 2
  {
    hide Conforming, Respelled, Equivalent, PlainUrl, Store, Run, Settled, Mounted, Happen, ContentPending;
    var ms := config.resources.value;
    var k, v, w := UnsettledSpellings(ms);
    b := Spelling(ms[k].url, v);
    SpellingConforms(ms[k].url, v);
    var to := RespellStored(ms, k, v, w);
    d, state, events := BARE, BLANK, [Apply(ALL_WORKS, true)] + RespellApply(to);
    FirstApplyWrites(b, config);
    var (d1, state1) := Happen(b, config, Apply(ALL_WORKS, true), d, state);
    RespellingAppends(b, config, d1, state1, to);
    RunCons(b, config, Apply(ALL_WORKS, true), RespellApply(to), d, state);
    assert ReadsWork(events);
  }

  /** A configuration appends at most one content version, in every run with every
      conforming server whose read-backs work, exactly if its mount URLs are settled. */
  lemma AtMostOneVersion(config: Model)
    requires Complete(config)
    ensures AllSettled(config.resources) <==>
            forall b: Server, events: seq<Event>, d: Remote, state: Model ::
              Conforming(b) && ReadsWork(events) && NullMeansNone(state, d) ==>
                Run(b, config, events, d, state).0.count <= d.count + 1
  {
    if AllSettled(config.resources) {
      forall b: Server, events: seq<Event>, d: Remote, state: Model
        | Conforming(b) && ReadsWork(events) && NullMeansNone(state, d)
        ensures Run(b, config, events, d, state).0.count <= d.count + 1
      {
        AtMostOneVersionOfSettledUrls(b, config, events, d, state);
      }
    } else {
      var b, events, d, state := UnsettledUrlAppendsTwice(config);
    }
  }

  /** Without the read-back this is false: the content is on the server, but a refresh
      keeps the old spelling of an alias and the next plan writes the version again. */
  lemma LostReadBackRepeatsTheVersion(b: Server, was: string, changed: string)
    requires Conforming(b) && was != changed && EqualFold(was, changed)
    ensures var live := Version("c", Missing, Missing, Valid([LiveMount(Missing, Valid(was), "md:x")]));
            var d := Remote("t", Missing, Missing, live, 1);
            var config := Model(Known("t"), Null, Known("c2"), Null, Null, Known([Mount(changed, "md:x")]), Null);
            var state := ReadBack(config.(resources := Null), d, true);
            var w := World(true, true, true, true, true, true, true, false);
            var (d', state', _) := Update(b, w, PlanOf(config, state, true), state, d);
            && d'.count == 2 && !ContentPending(config, d'.version) && state' == state
            && Next(config, ReadBack(state', d', true), true).Writes?
            && Next(config, ReadBack(state', d', true), true).content
  {
    hide Equivalent, EqualFold, PlanOf;
    var live := Version("c", Missing, Missing, Valid([LiveMount(Missing, Valid(was), "md:x")]));
    var d := Remote("t", Missing, Missing, live, 1);
    var config := Model(Known("t"), Null, Known("c2"), Null, Null, Known([Mount(changed, "md:x")]), Null);
    var state := ReadBack(config.(resources := Null), d, true);
    var w := World(true, true, true, true, true, true, true, false);
    PlanIsConfigured(config, state);
    ContentWriteSettles(b, config, state, d, true);
    var d' := Update(b, w, PlanOf(config, state, true), state, d).0;
    assert state.resources.value == [Mount(was, "md:x")];
    var again := ReadBack(state, d', true);
    PlanIsConfigured(config, again);
    assert again.resources.value[0] == Mount(was, "md:x");
    assert !Alike(Mount(changed, "md:x"), again.resources.value[0]);
  }

  /** The recorded mount `n` is read in the place of the configured `m`, as the server
      stores it, and does not compare equal to it. */
  predicate Misread(b: Server, m: Mount, n: Mount) {
    SameMount(n, LiveMount(Missing, Valid(m.alias), b.spell(m.url))) && !Alike(m, n)
  }

  /** The configuration spells something differently from the state that is the same
      where the server is read: a recorded mount stands for a configured one, no mounts
      are null or an empty list, an empty version description is not recorded. */
  predicate OnlySpellingDiffers(b: Server, config: Model, state: Model) {
    var cs, ss := Configured(config.resources), Configured(state.resources);
    || (exists i :: 0 <= i < |cs| && i < |ss| && Misread(b, cs[i], ss[i]))
    || (cs == [] && config.resources.Null? != state.resources.Null?)
    || (config.versionDescription == Known("") && state.versionDescription != Known(""))
  }

  /** An alias in another case, with an equivalent URL. */
  predicate Recased(m: Mount, n: Mount) {
    m.alias != n.alias && EqualFold(m.alias, n.alias) && Equivalent(m.url, n.url)
  }

  /** Between plain URLs only the case of an alias can be misread. */
  lemma PlainMountsAreMisreadIffRecased(b: Server, m: Mount, n: Mount)
    requires Conforming(b) && PlainUrl(m.url) && PlainUrl(n.url) && PlainUrl(b.spell(m.url))
    ensures Misread(b, m, n) <==> Recased(m, n)
  {
    hide Fold, Token;
    var u := b.spell(m.url);
    assert Equivalent(m.url, u);
    PlainUrlsCompareByTarget(m.url, u);
    PlainUrlsCompareByTarget(n.url, u);
    PlainUrlsCompareByTarget(m.url, n.url);
  }

  /** In general a URL can be, too: a recorded spelling that names the stored share, but
      is not equivalent to the configured one. */
  lemma UrlIsMisread()
    ensures var configured, stored := SHARE_PREFIX + [LONG_S], SHARE_PREFIX + ['s'];
            var recorded := SHARE_PREFIX + ("a/" + ['s']);
            var b := Spelling(configured, stored);
            && Conforming(b) && !Recased(Mount("a", configured), Mount("a", recorded))
            && Misread(b, Mount("a", configured), Mount("a", recorded))
  {
    hide Equivalent, Token;
    var configured, stored, recorded := SHARE_PREFIX + [LONG_S], SHARE_PREFIX + ['s'], SHARE_PREFIX + ("a/" + ['s']);
    NotTransitive();
    SpellingConforms(configured, stored);
    EquivalentIsSymmetric(stored, recorded);
  }

  lemma StoredMountsReadBack(b: Server, config: Attr<seq<Mount>>, state: Attr<seq<Mount>>)
    requires Conforming(b) && config.Known? && config.value != [] && !state.Unknown?
    ensures MountsEqual(config, MountsFromLive(state, Store(b, config.value))) <==>
            !exists i :: 0 <= i < |config.value| && i < |Configured(state)| &&
                         Misread(b, config.value[i], Configured(state)[i])
  {
    hide Equivalent, EqualFold, Alike;
    var cs, ss := config.value, Configured(state);
    var raw := Store(b, cs);
    var read := MountsFromLive(state, raw);
    forall i | 0 <= i < |cs|
      ensures Alike(cs[i], read.value[i]) <==> !(i < |ss| && Misread(b, cs[i], ss[i]))
    {
      var live := LiveMounts(raw)[i];
      assert live == LiveMount(Missing, Valid(cs[i].alias), b.spell(cs[i].url));
      assert read.value[i] == ReadMount(ss, live, i);
      NewMountIsAlike(b, cs[i]);
    }
  }

  lemma NewMountIsAlike(b: Server, m: Mount)
    requires Conforming(b)
    ensures Alike(m, Mount(m.alias, b.spell(m.url)))
  {
    assert Equivalent(m.url, b.spell(m.url));
  }

  /** A content version that was written, but whose read-back failed, is written again
      after a refresh if and only if the configuration and the recorded state differ in
      spelling alone somewhere. */
  lemma RepeatsAfterLostReadBackIff(b: Server, config: Model, state: Model, d: Remote, hasStatus: bool,
                                    marked: bool, next: bool)
    requires Complete(config) && Conforming(b) && Fresh(state, d, hasStatus)
    ensures var written := WriteContent(b, d, ContentArgs(PlanOf(config, state, marked), state));
            var seen := ReadBack(state, written, hasStatus);
            ContentUnchanged(PlanOf(config, seen, next), seen) <==> !OnlySpellingDiffers(b, config, state)
  {
    hide MountsEqual, MountsFromLive, Store, Mounted, Misread, WriteContent, ContentArgs, Conforming;
    FreshMeansNone(state, d, hasStatus);
    FreshMountsAreKnown(state, d, hasStatus);
    ContentWriteSettles(b, config, state, d, marked);
    var written := WriteContent(b, d, ContentArgs(PlanOf(config, state, marked), state));
    var seen := ReadBack(state, written, hasStatus);
    var cs, ss := Configured(config.resources), Configured(state.resources);
    assert MountsEqual(config.resources, seen.resources) <==>
           && !(exists i :: 0 <= i < |cs| && i < |ss| && Misread(b, cs[i], ss[i]))
           && !(cs == [] && config.resources.Null? != state.resources.Null?) by {
      if cs == [] {
        NoMountsReadBack(config.resources, state.resources, written.version.mounts);
      } else {
        StoredMountsReadBack(b, config.resources, state.resources);
      }
    }
  }

  lemma NoMountsReadBack(config: Attr<seq<Mount>>, state: Attr<seq<Mount>>, raw: Live<seq<LiveMount>>)
    requires Configured(config) == [] && !config.Unknown? && !state.Unknown?
    requires Mounted(config, raw)
    ensures MountsEqual(config, MountsFromLive(state, raw)) <==> (config.Null? <==> state.Null?)
  {
  }

  lemma FreshMountsAreKnown(state: Model, d: Remote, hasStatus: bool)
    requires Fresh(state, d, hasStatus)
    ensures !state.resources.Unknown?
  {
  }

  lemma PlanIsConfigured(config: Model, state: Model)
    ensures var plan := PlanOf(config, state, true);
            && plan.title == config.title && plan.description == config.description && plan.content == config.content
            && plan.resources == config.resources
            && (config.status.Null? && state.status.Null? ==> !plan.status.Known?)
            && (config.apiVersion.Null? && state.apiVersion.Null? ==> !plan.apiVersion.Known?)
  {
  }
}
