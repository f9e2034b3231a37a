/** One update brings a Flight to its configuration, and the next one has nothing to
    send: internal/resources/flight_resource.go. */
module FlightConvergence {
  import opened Wrappers
  import opened Text
  import opened Tf
  import opened Flight

  /** A configuration at apply time. */
  predicate Complete(config: Model) {
    && config.name.Known? && config.sourceCode.Known?
    && !config.scheduleCron.Unknown? && !config.requirementsTxt.Unknown? && !config.config.Unknown?
    && !config.accessTokenName.Unknown? && !config.secretNames.Unknown?
    && !config.maxRuntimeSec.Unknown? && !config.instanceType.Unknown?
  }

  function Computed<T(==)>(config: Attr<T>, state: Attr<T>, marked: bool): Attr<T> {
    if !config.Null? then config else if !marked || !state.Null? then state else Unknown
  }

  /** The plan: unconfigured computed values come from the state, or are unknown if the
      framework marked them and the state has none. */
  function PlanOf(config: Model, state: Model, marked: bool): Model {
    config.(maxRuntimeSec := Computed(config.maxRuntimeSec, state.maxRuntimeSec, marked),
            instanceType := Computed(config.instanceType, state.instanceType, marked))
  }

  /** The state was read back from this Flight, over whatever came before. */
  ghost predicate Fresh(state: Model, d: Remote) {
    d.version.Valid? && exists prior: Model :: !prior.scheduleCron.Unknown? && state == ReadBack(prior, d)
  }

  /** What is sent for one field. */
  function Sent(k: Arg, plan: Model, state: Model): Args {
    match k
    case Name => Field(Name, plan.name != state.name, Text(ValueString(plan.name)))
    case SourceCode => Field(SourceCode, plan.sourceCode != state.sourceCode, Text(ValueString(plan.sourceCode)))
    case ScheduleCron => ScheduleArgs(plan, state)
    case RequirementsTxt =>
      OptionalString(RequirementsTxt, plan.requirementsTxt, state.requirementsTxt, map[RequirementsTxt := NullValue])
    case AccessTokenName => OptionalString(AccessTokenName, plan.accessTokenName, state.accessTokenName, map[])
    case Config => Field(Config, plan.config != state.config, ConfigValue(plan.config))
    case SecretNames => Field(SecretNames, plan.secretNames != state.secretNames, SecretsValue(plan.secretNames))
    case MaxRuntimeSec =>
      Field(MaxRuntimeSec, plan.maxRuntimeSec != state.maxRuntimeSec && !plan.maxRuntimeSec.Unknown?,
            Number(ValueInt64(plan.maxRuntimeSec)))
    case InstanceType =>
      Field(InstanceType, plan.instanceType != state.instanceType && plan.instanceType.Known?,
            Text(ValueString(plan.instanceType)))
  }

  lemma SentIsOneField(k: Arg, plan: Model, state: Model)
    ensures Sent(k, plan, state).Keys <= {k}
  {
  }

  /** What an argument list says of one key. */
  function At(args: Args, k: Arg): Option<Value> {
    if k in args then Some(args[k]) else None
  }

  function Plus(m: Args, n: Args): Args {
    m + n
  }

  lemma SumAt(m: Args, n: Args, own: Arg, k: Arg)
    requires n.Keys <= {own}
    ensures k != own ==> At(Plus(m, n), k) == At(m, k)
    ensures At(m, own) == None ==> At(Plus(m, n), own) == At(n, own)
  {
    if own in n {
    } else {
      assert n == map[];
      assert m + n == m;
    }
  }

  /** The fields do not disturb each other. */
  lemma ArgsAt(k: Arg, plan: Model, state: Model)
    ensures k in UpdateArgs(plan, state) <==> k in Sent(k, plan, state)
    ensures k in UpdateArgs(plan, state) ==> UpdateArgs(plan, state)[k] == Sent(k, plan, state)[k]
  {
    hide Field, OptionalString, ScheduleArgs;
    SentIsOneField(Name, plan, state);
    SentIsOneField(SourceCode, plan, state);
    SentIsOneField(ScheduleCron, plan, state);
    SentIsOneField(RequirementsTxt, plan, state);
    SentIsOneField(AccessTokenName, plan, state);
    SentIsOneField(Config, plan, state);
    SentIsOneField(SecretNames, plan, state);
    SentIsOneField(MaxRuntimeSec, plan, state);
    SentIsOneField(InstanceType, plan, state);
    assert UpdateArgs(plan, state) ==
           Sum(Sent(Name, plan, state), Sent(SourceCode, plan, state), Sent(ScheduleCron, plan, state),
               Sent(RequirementsTxt, plan, state), Sent(AccessTokenName, plan, state), Sent(Config, plan, state),
               Sent(SecretNames, plan, state), Sent(MaxRuntimeSec, plan, state), Sent(InstanceType, plan, state));
    hide Sent, UpdateArgs, Sum;
    SumOfNine(Sent(Name, plan, state), Sent(SourceCode, plan, state), Sent(ScheduleCron, plan, state),
              Sent(RequirementsTxt, plan, state), Sent(AccessTokenName, plan, state), Sent(Config, plan, state),
              Sent(SecretNames, plan, state), Sent(MaxRuntimeSec, plan, state), Sent(InstanceType, plan, state), k);
    assert At(UpdateArgs(plan, state), k) == At(Sent(k, plan, state), k);
  }

  function Sum(a: Args, b: Args, c: Args, d: Args, e: Args, f: Args, g: Args, h: Args, i: Args): Args {
    Plus(Plus(Plus(Plus(Plus(Plus(Plus(Plus(a, b), c), d), e), f), g), h), i)
  }

  lemma SumOfNine(a: Args, b: Args, c: Args, d: Args, e: Args, f: Args, g: Args, h: Args, i: Args, k: Arg)
    requires a.Keys <= {Name} && b.Keys <= {SourceCode} && c.Keys <= {ScheduleCron}
    requires d.Keys <= {RequirementsTxt} && e.Keys <= {AccessTokenName} && f.Keys <= {Config}
    requires g.Keys <= {SecretNames} && h.Keys <= {MaxRuntimeSec} && i.Keys <= {InstanceType}
    ensures At(Sum(a, b, c, d, e, f, g, h, i), k) ==
            At(match k
               case Name => a
               case SourceCode => b
               case ScheduleCron => c
               case RequirementsTxt => d
               case AccessTokenName => e
               case Config => f
               case SecretNames => g
               case MaxRuntimeSec => h
               case InstanceType => i, k)
  {
    assert k != Name ==> At(a, k) == None;
    hide Plus, At;
    var ab := Plus(a, b);
    var abc := Plus(ab, c);
    var abcd := Plus(abc, d);
    var abcde := Plus(abcd, e);
    var abcdef := Plus(abcde, f);
    var abcdefg := Plus(abcdef, g);
    SumAt(a, b, SourceCode, k);
    SumAt(ab, c, ScheduleCron, k);
    SumAt(abc, d, RequirementsTxt, k);
    SumAt(abcd, e, AccessTokenName, k);
    SumAt(abcde, f, Config, k);
    SumAt(abcdef, g, SecretNames, k);
    SumAt(abcdefg, h, MaxRuntimeSec, k);
    SumAt(Plus(abcdefg, h), i, InstanceType, k);
  }

  /** The Flight after the update: nothing is called when nothing is sent. */
  function Updated(plan: Model, state: Model, d: Remote, active: string): Remote {
    var args := UpdateArgs(plan, state);
    if args == map[] then d else Write(d, args, active)
  }

  // ---------------------------------------------------------------------
  // The fields of one update, each read back over the plan
  // ---------------------------------------------------------------------

  /** A field that is sent as it is and stored as it is. */
  lemma TextsConverge(config: Model, state: Model, d: Remote, active: string, marked: bool)
    requires Complete(config) && Fresh(state, d) && !ClearsToken(config, state)
    ensures var plan := PlanOf(config, state, marked);
            var next := ReadBack(plan, Updated(plan, state, d, active));
            && next.name == config.name && next.sourceCode == config.sourceCode
            && next.requirementsTxt == config.requirementsTxt && next.accessTokenName == config.accessTokenName
  {
    hide UpdateArgs, ScheduleArgs, ScheduleCronFromLive;
    var plan := PlanOf(config, state, marked);
    ArgsAt(Name, plan, state);
    ArgsAt(SourceCode, plan, state);
    ArgsAt(RequirementsTxt, plan, state);
    ArgsAt(AccessTokenName, plan, state);
  }

  lemma CollectionsConverge(config: Model, state: Model, d: Remote, active: string, marked: bool)
    requires Complete(config) && Fresh(state, d)
    ensures var plan := PlanOf(config, state, marked);
            var next := ReadBack(plan, Updated(plan, state, d, active));
            next.config == config.config && next.secretNames == config.secretNames
  {
    hide UpdateArgs, ScheduleArgs, ScheduleCronFromLive;
    var plan := PlanOf(config, state, marked);
    ArgsAt(Config, plan, state);
    ArgsAt(SecretNames, plan, state);
  }

  lemma LimitsConverge(config: Model, state: Model, d: Remote, active: string, marked: bool)
    requires Complete(config) && Fresh(state, d)
    ensures var plan := PlanOf(config, state, marked);
            var next := ReadBack(plan, Updated(plan, state, d, active));
            && (config.maxRuntimeSec.Known? ==> next.maxRuntimeSec == config.maxRuntimeSec)
            && (config.instanceType.Known? ==> next.instanceType == config.instanceType)
  {
    hide UpdateArgs, ScheduleArgs, ScheduleCronFromLive;
    var plan := PlanOf(config, state, marked);
    ArgsAt(MaxRuntimeSec, plan, state);
    ArgsAt(InstanceType, plan, state);
  }

  /** No schedule runs: it is disabled or there is none. */
  predicate NoSchedule(d: Remote) {
    ScheduleDisabled(d.scheduleStatus) || d.cron.Missing? || d.cron.value == ""
  }

  lemma {:induction false} TrimLeftTakes(s: string) returns (a: string)
    ensures s == a + TrimLeft(s) && Blank(a)
    decreases |s|
  {
    a := "";
    if s != "" && IsSpace(s[0]) {
      a := TrimLeftTakes(s[1..]);
      a := [s[0]] + a;
    }
  }

  lemma {:induction false} TrimRightTakes(s: string) returns (b: string)
    ensures s == TrimRight(s) + b && Blank(b)
    decreases |s|
  {
    b := "";
    if s != "" && IsSpace(s[|s| - 1]) {
      var n := |s| - 1;
      b := TrimRightTakes(s[..n]);
      assert s == s[..n] + [s[n]];
      b := b + [s[n]];
    }
  }

  lemma {:induction false} TrimRightOfBlank(s: string)
    requires Blank(s)
    ensures TrimRight(s) == ""
    decreases |s|
  {
    if s != "" {
      TrimRightOfBlank(s[..|s| - 1]);
    }
  }

  lemma UpperOfSlice(t: string, k: nat)
    requires k <= |t|
    ensures Upper(t)[k..] == Upper(t[k..])
  {
  }

  lemma UpperIsNoSpace(c: char)
    requires UpperChar(c) == 'D'
    ensures !IsSpace(c)
  {
  }

  lemma TrimLeftBefore(head: string, x: string)
    requires x != "" && !IsSpace(x[0])
    ensures TrimLeft(head + x) == TrimLeft(head) + x
  {
    TrimLeftAppend(head, x);
    assert TrimLeft(x) == x && "" + x == x;
  }

  lemma TrimRightBehind(h: string, tail: string)
    requires h != "" && !IsSpace(h[|h| - 1]) && Blank(tail)
    ensures TrimRight(h + tail) == h
  {
    TrimRightOfBlank(tail);
    TrimRightAppend(h, tail);
    assert h + "" == h;
  }

  lemma Associate(a: string, b: string, c: string)
    ensures a + (b + c) == (a + b) + c
    ensures b != "" ==> a + b != "" && (a + b)[|a + b| - 1] == b[|b| - 1] && (b + c)[0] == b[0]
  {
  }

  /** A text around its last word, with nothing but space behind it. */
  lemma TrimAroundWord(head: string, w: string, tail: string)
    requires w != "" && !IsSpace(w[0]) && !IsSpace(w[|w| - 1]) && Blank(tail)
    ensures Trim(head + (w + tail)) == TrimLeft(head) + w
  {
    hide TrimLeft, TrimRight, IsSpace, Blank;
    Associate("", w, tail);
    TrimLeftBefore(head, w + tail);
    Associate(TrimLeft(head), w, tail);
    TrimRightBehind(TrimLeft(head) + w, tail);
  }

  /** The word stands at `k`, in any case, and nothing but space behind it. */
  predicate EndsInWord(s: string, k: nat) {
    k + 8 <= |s| && Upper(s[k..k + 8]) == "DISABLED" && Blank(s[k + 8..])
  }

  /** A status disables the schedule exactly if it ends in that word. */
  lemma DisabledIff(s: string)
    ensures ScheduleDisabled(Valid(s)) <==>
            exists k :: EndsInWord(s, k)
  {
    if ScheduleDisabled(Valid(s)) {
      EndsDisabled(s);
    }
    if exists k :: EndsInWord(s, k) {
      var k :| EndsInWord(s, k);
      WordDisables(s, k);
    }
  }

  lemma EndsDisabled(s: string)
    requires ScheduleDisabled(Valid(s))
    ensures exists k :: EndsInWord(s, k)
  {
    hide Upper, TrimLeft, TrimRight, Blank;
    var t := Trim(s);
    var a := TrimLeftTakes(s);
    var b := TrimRightTakes(TrimLeft(s));
    var k := |a| + |t| - 8;
    UpperOfSlice(t, |t| - 8);
    assert s == a + (t + b);
    assert s[k..k + 8] == t[|t| - 8..] && s[k + 8..] == b;
    assert EndsInWord(s, k);
  }

  lemma WordDisables(s: string, k: nat)
    requires EndsInWord(s, k)
    ensures ScheduleDisabled(Valid(s))
  {
    hide TrimLeft, TrimRight, Blank, Trim;
    var w := s[k..k + 8];
    assert Upper(w)[0] == 'D' && Upper(w)[7] == 'D';
    UpperIsNoSpace(w[0]);
    UpperIsNoSpace(w[7]);
    TrimAroundWord(s[..k], w, s[k + 8..]);
    assert s == s[..k] + (w + s[k + 8..]);
    var t := Trim(s);
    UpperOfSlice(t, |t| - 8);
    assert t[|t| - 8..] == w;
  }

  lemma DisabledIsDisabled()
    ensures ScheduleDisabled(Valid("DISABLED"))
  {
    var s := "DISABLED";
    assert Trimmed(s);
    TrimOfTrimmed(s);
    assert Upper(s) == s;
  }

  /** The schedule converges too: null and "" both mean none and read back as they are
      configured, and the server is never asked to clear what does not exist. */
  lemma ScheduleConverges(config: Model, state: Model, d: Remote, active: string, marked: bool)
    requires Complete(config) && Fresh(state, d)
    ensures var plan := PlanOf(config, state, marked);
            var after := Updated(plan, state, d, active);
            && Accepts(d, UpdateArgs(plan, state))
            && ReadBack(plan, after).scheduleCron == config.scheduleCron
            && (ValueString(config.scheduleCron) == "" ==> NoSchedule(after))
            && (ValueString(config.scheduleCron) != "" ==> after.cron == Valid(config.scheduleCron.value))
  {
    hide UpdateArgs, ScheduleDisabled;
    var plan := PlanOf(config, state, marked);
    ArgsAt(ScheduleCron, plan, state);
    DisabledIsDisabled();
  }

  /** The state agrees with the configuration in every attribute that it sets or has to
      leave unset. */
  predicate Matches(config: Model, state: Model) {
    && state == config.(maxRuntimeSec := state.maxRuntimeSec, instanceType := state.instanceType)
    && (config.maxRuntimeSec.Known? ==> state.maxRuntimeSec == config.maxRuntimeSec)
    && (config.instanceType.Known? ==> state.instanceType == config.instanceType)
  }

  /** An optional text, where the server's "" and nothing are both unset. */
  predicate HoldsText(live: Live<string>, config: Attr<string>) {
    if config.Known? then live == Valid(config.value) else live.Missing? || live.value == ""
  }

  predicate HoldsList(live: Live<seq<string>>, config: Attr<seq<string>>) {
    (if live.Valid? then live.value else []) == if config.Known? then config.value else []
  }

  predicate HoldsPairs(live: Live<map<string, string>>, config: Attr<map<string, string>>) {
    (if live.Valid? then live.value else map[]) == if config.Known? then config.value else map[]
  }

  /** The Flight on the server is as configured.  A token that is not configured is left
      alone, and so are limits. */
  predicate Holds(d: Remote, config: Model)
    requires Complete(config)
  {
    && d.version.Valid?
    && var v := d.version.value;
    && d.name == Valid(config.name.value)
    && v.sourceCode == Valid(config.sourceCode.value)
    && (if ValueString(config.scheduleCron) == "" then NoSchedule(d) else d.cron == Valid(config.scheduleCron.value))
    && HoldsText(v.requirementsTxt, config.requirementsTxt)
    && (config.accessTokenName.Known? ==> v.accessTokenName == Valid(config.accessTokenName.value))
    && HoldsPairs(v.config, config.config)
    && HoldsList(v.secretNames, config.secretNames)
    && (config.maxRuntimeSec.Known? ==> v.maxRuntimeSec == Valid(config.maxRuntimeSec.value))
    && (config.instanceType.Known? ==> v.instanceType == Valid(config.instanceType.value))
  }

  /** A read-back over what is configured shows it exactly if the server holds it: no
      change that was made outside Terraform is missed. */
  lemma ReadBackMatchesIffHeld(config: Model, prior: Model, d: Remote)
    requires Complete(config) && Matches(config, prior) && d.version.Valid?
    ensures Matches(config, ReadBack(prior, d)) <==> Holds(d, config)
  {
    hide ScheduleDisabled;
  }

  lemma PlanMatches(config: Model, state: Model, marked: bool)
    ensures Matches(config, PlanOf(config, state, marked))
  {
  }

  /** After an update that does not fail, the server holds the configuration, the state
      equals the plan in every configured attribute, the server accepted the call, and the
      next update sends nothing. */
  lemma UpdateConverges(config: Model, state: Model, d: Remote, active: string, marked: bool, again: bool)
    requires Complete(config) && Fresh(state, d) && !ClearsToken(config, state)
    ensures var plan := PlanOf(config, state, marked);
            var after := Updated(plan, state, d, active);
            var next := ReadBack(plan, after);
            && Accepts(d, UpdateArgs(plan, state)) && Fresh(next, after)
            && Holds(after, config) && Matches(config, next)
            && !ClearsToken(PlanOf(config, next, again), next)
            && UpdateArgs(PlanOf(config, next, again), next) == map[]
  {
    var plan := PlanOf(config, state, marked);
    var after := Updated(plan, state, d, active);
    var next := ReadBack(plan, after);
    TextsConverge(config, state, d, active, marked);
    CollectionsConverge(config, state, d, active, marked);
    LimitsConverge(config, state, d, active, marked);
    ScheduleConverges(config, state, d, active, marked);
    assert Fresh(next, after);
    hide ReadBack, Updated, Holds;
    EqualSendsNothing(config, next, again);
    PlanMatches(config, state, marked);
    ReadBackMatchesIffHeld(config, plan, after);
  }

  lemma EqualSendsNothing(config: Model, state: Model, again: bool)
    requires Complete(config)
    requires Matches(config, state)
    ensures UpdateArgs(PlanOf(config, state, again), state) == map[]
  {
  }

  /** A change between null and "" alone is not sent. */
  lemma NullAndEmptyCronAreOne(plan: Model, state: Model)
    requires ValueString(plan.scheduleCron) == "" == ValueString(state.scheduleCron)
    requires plan == state.(scheduleCron := plan.scheduleCron)
    ensures UpdateArgs(plan, state) == map[] && !ClearsToken(plan, state)
  {
  }

  /** A schedule that was set outside Terraform is seen by a refresh and cleared by the
      next update. */
  lemma ForeignScheduleIsCleared(config: Model, state: Model, d: Remote, active: string, marked: bool)
    requires Complete(config) && ValueString(config.scheduleCron) == "" == ValueString(state.scheduleCron)
    requires !state.scheduleCron.Unknown? && !NoSchedule(d) && d.version.Valid?
    ensures var seen := ReadBack(state, d);
            && seen.scheduleCron == Known(d.cron.value)
            && ScheduleCron in UpdateArgs(PlanOf(config, seen, marked), seen)
            && NoSchedule(Updated(PlanOf(config, seen, marked), seen, d, active))
  {
    var seen := ReadBack(state, d);
    ArgsAt(ScheduleCron, PlanOf(config, seen, marked), seen);
    assert Fresh(seen, d);
    ScheduleConverges(config, seen, d, active, marked);
  }

  // ---------------------------------------------------------------------
  // Runs
  // ---------------------------------------------------------------------

  /** An apply after a refresh, and whether the call and the read-back work. */
  datatype Apply = Apply(config: Model, active: string, marked: bool, writes: bool, readable: bool)

  function Step(a: Apply, d: Remote, state: Model): (Remote, Model) {
    var seen := ReadBack(state, d);
    var plan := PlanOf(a.config, seen, a.marked);
    var args := UpdateArgs(plan, seen);
    if ClearsToken(plan, seen) || (args != map[] && !(a.writes && Accepts(d, args))) then (d, seen)
    else
      var after := Updated(plan, seen, d, a.active);
      (after, if a.readable then ReadBack(plan, after) else seen)
  }

  function Run(applies: seq<Apply>, d: Remote, state: Model): (Remote, Model)
    decreases |applies|
  {
    if applies == [] then (d, state)
    else
      var (d', state') := Step(applies[0], d, state);
      Run(applies[1..], d', state')
  }

  /** Whatever earlier applies did, in any order of configurations and with calls and
      read-backs failing, an apply that goes through leaves the Flight and the state
      as it configures them. */
  lemma {:induction false} RunConverges(applies: seq<Apply>, last: Apply, d: Remote, state: Model, again: bool)
    requires d.version.Valid? && !state.scheduleCron.Unknown?
    requires forall i :: 0 <= i < |applies| ==> Complete(applies[i].config)
    requires Complete(last.config) && last.writes && last.readable
    requires var (d0, s0) := Run(applies, d, state); !ClearsToken(last.config, ReadBack(s0, d0))
    ensures var (d0, s0) := Run(applies, d, state);
            var (d1, s1) := Step(last, d0, s0);
            && Matches(last.config, s1) && Holds(d1, last.config)
            && UpdateArgs(PlanOf(last.config, s1, again), s1) == map[]
    decreases |applies|
  {
    hide UpdateArgs, Updated, PlanOf, Accepts, NoSchedule;
    if applies == [] {
      var seen := ReadBack(state, d);
      assert Fresh(seen, d);
      PlanKeepsToken(last.config, seen, last.marked);
      UpdateConverges(last.config, seen, d, last.active, last.marked, again);
    } else {
      StepKeepsReadable(applies[0], d, state);
      var (d', state') := Step(applies[0], d, state);
      RunConverges(applies[1..], last, d', state', again);
    }
  }

  /** With a server that takes the call and answers the read, an apply reaches its
      configuration unless that drops a token which is recorded and still on the
      server; then neither the Flight nor the refreshed state changes. */
  lemma UpdateFailsIffTokenIsRemoved(a: Apply, d: Remote, state: Model)
    requires Complete(a.config) && d.version.Valid? && !state.scheduleCron.Unknown? && a.writes && a.readable
    ensures var (d', state') := Step(a, d, state);
            var removed := a.config.accessTokenName.Null? && !state.accessTokenName.Null?
                           && d.version.value.accessTokenName.Valid?;
            && (Matches(a.config, state') <==> !removed)
            && (removed ==> d' == d && state' == ReadBack(state, d))
  {
    hide UpdateArgs, Updated, Accepts, ReadBack, PlanOf;
    var seen := ReadBack(state, d);
    SeenToken(state, d);
    PlanKeepsToken(a.config, seen, a.marked);
    if !ClearsToken(a.config, seen) {
      UpdateConverges(a.config, seen, d, a.active, a.marked, true);
    }
  }

  lemma SeenToken(state: Model, d: Remote)
    requires d.version.Valid? && !state.scheduleCron.Unknown?
    ensures Fresh(ReadBack(state, d), d)
    ensures ReadBack(state, d).accessTokenName.Null? <==>
            state.accessTokenName.Null? || d.version.value.accessTokenName.Missing?
  {
  }

  lemma PlanKeepsToken(config: Model, state: Model, marked: bool)
    ensures PlanOf(config, state, marked).accessTokenName == config.accessTokenName
  {
  }

  lemma StepKeepsReadable(a: Apply, d: Remote, state: Model)
    requires Complete(a.config) && d.version.Valid? && !state.scheduleCron.Unknown?
    ensures var (d', state') := Step(a, d, state); d'.version.Valid? && !state'.scheduleCron.Unknown?
  {
    hide UpdateArgs;
  }
}
