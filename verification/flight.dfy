/** The update of a Flight and its read-back: internal/resources/flight_resource.go and
    internal/resources/app_helpers.go. */
module Flight {
  import opened Text
  import opened Tf

  datatype Model = Model(
    name: Attr<string>,
    sourceCode: Attr<string>,
    scheduleCron: Attr<string>,
    requirementsTxt: Attr<string>,
    config: Attr<map<string, string>>,
    accessTokenName: Attr<string>,
    secretNames: Attr<seq<string>>,
    maxRuntimeSec: Attr<int>,
    instanceType: Attr<string>)

  /** The current version of a Flight on the server. */
  datatype Version = Version(
    sourceCode: Live<string>,
    requirementsTxt: Live<string>,
    accessTokenName: Live<string>,
    secretNames: Live<seq<string>>,
    config: Live<map<string, string>>,
    maxRuntimeSec: Live<int>,
    instanceType: Live<string>)

  datatype Remote = Remote(name: Live<string>, cron: Live<string>, scheduleStatus: Live<string>, version: Live<Version>)

  datatype Arg =
    | Name | SourceCode | ScheduleCron | RequirementsTxt | AccessTokenName
    | Config | SecretNames | MaxRuntimeSec | InstanceType

  datatype Value =
    Text(text: string) | Number(number: int) | Pairs(pairs: map<string, string>) | List(list: seq<string>) | NullValue

  type Args = map<Arg, Value>

  // ---------------------------------------------------------------------
  // What an update sends
  // ---------------------------------------------------------------------

  /** `addOptionalStringUpdate`; `cleared` is the value that clears the field, if it
      can be cleared. */
  function OptionalString(k: Arg, plan: Attr<string>, state: Attr<string>, cleared: Args): Args {
    if plan == state then map[] else if plan.Null? then cleared else map[k := Text(ValueString(plan))]
  }

  /** One field that is sent when it differs. */
  function Field(k: Arg, differs: bool, v: Value): Args {
    if differs then map[k := v] else map[]
  }

  function ScheduleArgs(plan: Model, state: Model): Args {
    if ValueString(plan.scheduleCron) != "" || ValueString(state.scheduleCron) != "" then
      OptionalString(ScheduleCron, plan.scheduleCron, state.scheduleCron, map[ScheduleCron := Text("")])
    else map[]
  }

  function ConfigValue(config: Attr<map<string, string>>): Value {
    if config.Null? then NullValue else Pairs(if config.Known? then config.value else map[])
  }

  function SecretsValue(names: Attr<seq<string>>): Value {
    if names.Null? then NullValue else List(if names.Known? then names.value else [])
  }

  /** The token cannot be cleared in place. */
  predicate ClearsToken(plan: Model, state: Model) {
    plan.accessTokenName.Null? && !state.accessTokenName.Null?
  }

  function UpdateArgs(plan: Model, state: Model): Args {
    Field(Name, plan.name != state.name, Text(ValueString(plan.name))) +
    Field(SourceCode, plan.sourceCode != state.sourceCode, Text(ValueString(plan.sourceCode))) +
    ScheduleArgs(plan, state) +
    OptionalString(RequirementsTxt, plan.requirementsTxt, state.requirementsTxt, map[RequirementsTxt := NullValue]) +
    OptionalString(AccessTokenName, plan.accessTokenName, state.accessTokenName, map[]) +
    Field(Config, plan.config != state.config, ConfigValue(plan.config)) +
    Field(SecretNames, plan.secretNames != state.secretNames, SecretsValue(plan.secretNames)) +
    Field(MaxRuntimeSec, plan.maxRuntimeSec != state.maxRuntimeSec && !plan.maxRuntimeSec.Unknown?,
          Number(ValueInt64(plan.maxRuntimeSec))) +
    Field(InstanceType, plan.instanceType != state.instanceType && plan.instanceType.Known?,
          Text(ValueString(plan.instanceType)))
  }

  method AddField(args: Args, k: Arg, differs: bool, v: Value) returns (r: Args)
    ensures r == args + Field(k, differs, v)
  {
    r := args;
    if differs {
      r := r[k := v];
    }
  }

  method AddOptionalStringUpdate(args: Args, k: Arg, plan: Attr<string>, state: Attr<string>, nullValue: Args)
    returns (r: Args)
    ensures r == args + OptionalString(k, plan, state, nullValue)
  {
    r := args;
    if plan == state {
      return;
    }
    if plan.Null? {
      return args + nullValue;
    }
    r := r[k := Text(ValueString(plan))];
  }

  method AddSchedule(args: Args, plan: Model, state: Model) returns (r: Args)
    ensures r == args + ScheduleArgs(plan, state)
  {
    r := args;
    if ValueString(plan.scheduleCron) != "" || ValueString(state.scheduleCron) != "" {
      r := AddOptionalStringUpdate(r, ScheduleCron, plan.scheduleCron, state.scheduleCron,
                                   map[ScheduleCron := Text("")]);
    }
  }

  method FlightUpdateArgs(plan: Model, state: Model) returns (args: Args, ok: bool)
    ensures ok <==> !ClearsToken(plan, state)
    ensures ok ==> args == UpdateArgs(plan, state)
  {
    hide Field, OptionalString, ScheduleArgs;
    args, ok := Field(Name, plan.name != state.name, Text(ValueString(plan.name))), true;
    args := AddField(args, SourceCode, plan.sourceCode != state.sourceCode, Text(ValueString(plan.sourceCode)));
    args := AddSchedule(args, plan, state);
    args := AddOptionalStringUpdate(args, RequirementsTxt, plan.requirementsTxt, state.requirementsTxt,
                                    map[RequirementsTxt := NullValue]);
    if plan.accessTokenName.Null? && !state.accessTokenName.Null? {
      return map[], false;
    }
    args := AddOptionalStringUpdate(args, AccessTokenName, plan.accessTokenName, state.accessTokenName, map[]);
    args := AddField(args, Config, plan.config != state.config, ConfigValue(plan.config));
    args := AddField(args, SecretNames, plan.secretNames != state.secretNames, SecretsValue(plan.secretNames));
    args := AddField(args, MaxRuntimeSec, plan.maxRuntimeSec != state.maxRuntimeSec && !plan.maxRuntimeSec.Unknown?,
                     Number(ValueInt64(plan.maxRuntimeSec)));
    args := AddField(args, InstanceType, plan.instanceType != state.instanceType && plan.instanceType.Known?,
                     Text(ValueString(plan.instanceType)));
  }

  // ---------------------------------------------------------------------
  // What a read-back makes of the server's values
  // ---------------------------------------------------------------------

  predicate ScheduleDisabled(status: Live<string>) {
    status.Valid? && HasSuffix(Upper(Trim(status.value)), "DISABLED")
  }

  function ScheduleCronFromLive(prior: Attr<string>, live: Live<string>, status: Live<string>): Attr<string> {
    if ScheduleDisabled(status) && !prior.Unknown? && ValueString(prior) == "" then prior
    else ClearableFromLive(prior, live)
  }

  function OptionalStringFromLive(current: Attr<string>, live: Live<string>): Attr<string> {
    if live.Missing? || (live.value == "" && current.Null?) then Null else Known(live.value)
  }

  function ConfigOwnedFromLive(current: Attr<string>, live: Live<string>): Attr<string> {
    if current.Null? then Null else OptionalStringFromLive(current, live)
  }

  function ListFromLive(current: Attr<seq<string>>, live: Live<seq<string>>): Attr<seq<string>> {
    var values := if live.Valid? then live.value else [];
    if values == [] && current.Null? then Null else Known(values)
  }

  function MapFromLive(current: Attr<map<string, string>>, live: Live<map<string, string>>): Attr<map<string, string>> {
    var values := if live.Valid? then live.value else map[];
    if values == map[] && current.Null? then Null else Known(values)
  }

  /** `readFlight`; without a current version its fields stay as they are. */
  function ReadBack(prior: Model, d: Remote): Model {
    var m := prior.(
      name := FromLive(d.name),
      scheduleCron := ScheduleCronFromLive(prior.scheduleCron, d.cron, d.scheduleStatus));
    if d.version.Missing? then m else ReadVersion(m, d.version.value)
  }

  function ReadVersion(m: Model, v: Version): Model {
    m.(sourceCode := FromLive(v.sourceCode),
       requirementsTxt := OptionalStringFromLive(m.requirementsTxt, v.requirementsTxt),
       accessTokenName := ConfigOwnedFromLive(m.accessTokenName, v.accessTokenName),
       secretNames := ListFromLive(m.secretNames, v.secretNames),
       config := MapFromLive(m.config, v.config),
       maxRuntimeSec := FromLive(v.maxRuntimeSec),
       instanceType := FromLive(v.instanceType))
  }

  // ---------------------------------------------------------------------
  // The server
  // ---------------------------------------------------------------------

  /** MotherDuck rejects clearing a schedule that never existed. */
  predicate Accepts(d: Remote, args: Args) {
    ScheduleCron in args && args[ScheduleCron] == Text("") ==> d.cron.Valid? && d.cron.value != ""
  }

  function TextOr(args: Args, k: Arg, otherwise: Live<string>): Live<string> {
    if k !in args then otherwise else if args[k].Text? then Valid(args[k].text) else Missing
  }

  /** Sent fields are stored as they are.  Clearing the schedule keeps the cron and
      disables it; setting one gives it the status `active`. */
  function Write(d: Remote, args: Args, active: string): Remote {
    var v := if d.version.Valid? then d.version.value
             else Version(Missing, Missing, Missing, Missing, Missing, Missing, Missing);
    var clears := ScheduleCron in args && args[ScheduleCron] == Text("");
    d.(
      name := TextOr(args, Name, d.name),
      cron := if clears then d.cron else TextOr(args, ScheduleCron, d.cron),
      scheduleStatus := if clears then Valid("DISABLED")
                        else if ScheduleCron in args then Valid(active)
                        else d.scheduleStatus,
      version := Valid(Version(
        TextOr(args, SourceCode, v.sourceCode),
        TextOr(args, RequirementsTxt, v.requirementsTxt),
        TextOr(args, AccessTokenName, v.accessTokenName),
        if SecretNames !in args then v.secretNames
        else if args[SecretNames].List? then Valid(args[SecretNames].list) else Missing,
        if Config !in args then v.config
        else if args[Config].Pairs? then Valid(args[Config].pairs) else Missing,
        if MaxRuntimeSec !in args then v.maxRuntimeSec
        else if args[MaxRuntimeSec].Number? then Valid(args[MaxRuntimeSec].number) else Missing,
        TextOr(args, InstanceType, v.instanceType))))
  }

  /** The resource and its Flight. */
  class FlightResource {
    var remote: Remote
    var state: Model
    const active: string

    constructor (remote: Remote, state: Model, active: string)
      ensures this.remote == remote && this.state == state && this.active == active
    {
      this.remote, this.state, this.active := remote, state, active;
    }

    method ReadFlight(model: Model) returns (read: Model)
      ensures read == ReadBack(model, remote)
    {
      read := model;
      read := read.(name := FromLive(remote.name));
      read := read.(scheduleCron := ScheduleCronFromLive(read.scheduleCron, remote.cron, remote.scheduleStatus));
      if remote.version.Valid? {
        read := ReadFlightVersion(read, remote.version.value);
      }
    }

    method ReadFlightVersion(model: Model, v: Version) returns (read: Model)
      ensures read == ReadVersion(model, v)
    {
      read := model;
      read := read.(sourceCode := FromLive(v.sourceCode));
      read := read.(requirementsTxt := OptionalStringFromLive(read.requirementsTxt, v.requirementsTxt));
      read := read.(accessTokenName := ConfigOwnedFromLive(read.accessTokenName, v.accessTokenName));
      read := read.(secretNames := ListFromLive(read.secretNames, v.secretNames));
      read := read.(config := MapFromLive(read.config, v.config));
      read := read.(maxRuntimeSec := FromLive(v.maxRuntimeSec));
      read := read.(instanceType := FromLive(v.instanceType));
    }

    /** `Update`: `writes` says whether the server takes the call, if it accepts the
        arguments, and `readable` whether the read-back works. */
    method Update(plan: Model, writes: bool, readable: bool) returns (ok: bool)
      modifies this
      ensures ClearsToken(plan, old(state)) ==> !ok && state == old(state) && remote == old(remote)
      ensures !ClearsToken(plan, old(state)) ==>
                var args := UpdateArgs(plan, old(state));
                var sent := args != map[];
                var taken := !sent || (writes && Accepts(old(remote), args));
                && ok == (taken && readable)
                && remote == (if sent && taken then Write(old(remote), args, active) else old(remote))
                && state == (if ok then ReadBack(plan, remote) else old(state))
    {
      var args, valid := FlightUpdateArgs(plan, state);
      if !valid {
        return false;
      }
      if |args| > 0 {
        if !writes || !Accepts(remote, args) {
          return false;
        }
        remote := Write(remote, args, active);
      }
      if !readable {
        return false;
      }
      state := ReadFlight(plan);
      return true;
    }
  }
}
