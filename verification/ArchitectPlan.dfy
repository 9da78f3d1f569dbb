/**
 The architect's plan from selection to execution: candidate strategies are
 collected and one is selected (agent.py), stored as a dict (strategy.py),
 rebuilt when a user approves it (server.py) and executed (executor.py).
 */
module ArchitectPlan {
  import opened Common
  import S = StableSort

  datatype ActionType =
    | Translate | PathChange | VpnReroute | PowerAdjust | RadioTune | QosMark | SliceAdjust | TsnSchedule | BeamSteer
    | MultibandBond | OranTune | SyncConfig | SecurityEncrypt | XpicEnable | MarlIgnite | TelemetryProbe | Monitor
    | Alert

  function ValueOf(a: ActionType): (value: string)
    ensures |value| >= 5
  {
    match a
    case Translate => "translate"
    case PathChange => "path_change"
    case VpnReroute => "vpn_reroute"
    case PowerAdjust => "power_adjust"
    case RadioTune => "radio_tune"
    case QosMark => "qos_mark"
    case SliceAdjust => "slice_adjust"
    case TsnSchedule => "tsn_schedule"
    case BeamSteer => "beam_steer"
    case MultibandBond => "multiband_bond"
    case OranTune => "oran_tune"
    case SyncConfig => "sync_config"
    case SecurityEncrypt => "security_encrypt"
    case XpicEnable => "xpic_enable"
    case MarlIgnite => "marl_ignite"
    case TelemetryProbe => "telemetry_probe"
    case Monitor => "monitor"
    case Alert => "alert"
  }

  const ACTION_TYPES: seq<ActionType> := [
    Translate, PathChange, VpnReroute, PowerAdjust, RadioTune, QosMark, SliceAdjust, TsnSchedule, BeamSteer,
    MultibandBond, OranTune, SyncConfig, SecurityEncrypt, XpicEnable, MarlIgnite, TelemetryProbe, Monitor, Alert]

  /** Enum lookup by value; None where Python raises ValueError. */
  function FindType(types: seq<ActionType>, value: string): Option<ActionType> {
    if types == [] then None
    else if ValueOf(types[0]) == value then Some(types[0])
    else FindType(types[1..], value)
  }

  datatype ConfigAction = ConfigAction(
    actionId: string,
    actionType: ActionType,
    intentTypeOverride: Option<string>,
    parameterOverrides: map<string, string>,
    targetOverride: Option<string>,
    rationale: string,
    executionOrder: int,
    required: bool,
    estimatedImpact: string)

  datatype StrategyStatus = Candidate | Selected

  datatype Strategy = Strategy(
    strategyId: string,
    name: string,
    description: string,
    skillSource: string,
    confidence: real,
    actions: seq<ConfigAction>,
    rationale: string,
    tradeoffs: string,
    status: StrategyStatus)

  predicate RunsNoLater(a: ConfigAction, b: ConfigAction) {
    a.executionOrder <= b.executionOrder
  }

  function InOrder(actions: seq<ConfigAction>): seq<ConfigAction> {
    S.Sort(RunsNoLater, actions)
  }

  lemma RunsNoLaterIsPreorder()
    ensures S.TotalPreorder(RunsNoLater)
  {
  }

  // ----- stored form -----

  datatype ActionDict = ActionDict(
    actionId: string,
    actionType: string,
    intentTypeOverride: Option<string>,
    parameterOverrides: map<string, string>,
    targetOverride: Option<string>,
    rationale: string,
    executionOrder: int,
    estimatedImpact: string)

  datatype StrategyDict = StrategyDict(
    strategyId: string,
    name: string,
    description: string,
    skillSource: string,
    confidence: real,
    rationale: string,
    tradeoffs: string,
    status: StrategyStatus,
    actions: seq<ActionDict>)

  function ActionToDict(a: ConfigAction): ActionDict {
    ActionDict(a.actionId, ValueOf(a.actionType), a.intentTypeOverride, a.parameterOverrides, a.targetOverride,
               a.rationale, a.executionOrder, a.estimatedImpact)
  }

  function ActionsToDict(actions: seq<ConfigAction>): seq<ActionDict> {
    seq(|actions|, i requires 0 <= i < |actions| => ActionToDict(actions[i]))
  }

  function ToDict(s: Strategy): StrategyDict {
    StrategyDict(s.strategyId, s.name, s.description, s.skillSource, s.confidence, s.rationale, s.tradeoffs, s.status,
                 ActionsToDict(InOrder(s.actions)))
  }

  // ----- rebuilding at approval -----

  /** `freshId` stands for the uuid the dataclass draws; `required` and `estimated_impact` take their defaults. */
  function RebuildAction(d: ActionDict, freshId: string): Option<ConfigAction> {
    match FindType(ACTION_TYPES, d.actionType)
    case None => None
    case Some(t) =>
      Some(ConfigAction(freshId, t, d.intentTypeOverride, d.parameterOverrides, d.targetOverride, d.rationale,
                        d.executionOrder, true, ""))
  }

  function RebuildActions(ds: seq<ActionDict>, freshId: nat -> string): Option<seq<ConfigAction>> {
    if ds == [] then Some([])
    else
      var last := |ds| - 1;
      match (RebuildActions(ds[..last], freshId), RebuildAction(ds[last], freshId(last)))
      case (Some(done), Some(a)) => Some(done + [a])
      case _ => None
  }

  function Rebuild(d: StrategyDict, strategyId: string, freshId: nat -> string): Option<Strategy> {
    match RebuildActions(d.actions, freshId)
    case None => None
    case Some(actions) =>
      Some(Strategy(strategyId, d.name, d.description, d.skillSource, d.confidence, actions,
                    d.rationale, "", Candidate))
  }

  // ----- execution -----

  /** What `_execute_action` reads of an action. */
  datatype Call = Call(
    actionType: ActionType,
    intentTypeOverride: Option<string>,
    parameterOverrides: map<string, string>,
    targetOverride: Option<string>,
    rationale: string)

  function CallOf(a: ConfigAction): Call {
    Call(a.actionType, a.intentTypeOverride, a.parameterOverrides, a.targetOverride, a.rationale)
  }

  /** The translation of one action: device configs and an explanation, or the exception's message. */
  type Outcome<C> = Result<(seq<C>, string), string>

  datatype Translation<C> =
    | Failed(error: string)
    | Translated(configs: seq<C>, explanation: string, warnings: seq<string>)

  function FailureMessage(a: ConfigAction, error: string): string {
    "Action " + ValueOf(a.actionType) + " failed: " + error
  }

  function WarningMessage(a: ConfigAction, error: string): string {
    "Optional action " + ValueOf(a.actionType) + " failed: " + error
  }

  function Joined(parts: seq<string>): string {
    if parts == [] then ""
    else if |parts| == 1 then parts[0]
    else parts[0] + " | " + Joined(parts[1..])
  }

  function WithPart(parts: seq<string>, explanation: string): seq<string> {
    if explanation != "" then parts + [explanation] else parts
  }

  /** The loop over sorted actions, from the given accumulators on. */
  function Fold<C>(
      exec: Call -> Outcome<C>, actions: seq<ConfigAction>, configs: seq<C>, parts: seq<string>,
      warnings: seq<string>)
    : Translation<C>
  {
    if actions == [] then Translated(configs, Joined(parts), warnings)
    else
      var a := actions[0];
      match exec(CallOf(a))
      case Ok((cs, explanation)) =>
        Fold(exec, actions[1..], configs + cs, WithPart(parts, explanation), warnings)
      case Err(e) =>
        if a.required then Failed(FailureMessage(a, e))
        else Fold(exec, actions[1..], configs, parts, warnings + [WarningMessage(a, e)])
  }

  function Execute<C>(exec: Call -> Outcome<C>, s: Strategy): Translation<C> {
    Fold(exec, InOrder(s.actions), [], ["Architect Strategy: " + s.name], [])
  }

  method ExecutePlan<C>(exec: Call -> Outcome<C>, selected: Option<Strategy>) returns (r: Translation<C>)
    ensures r == match selected { case None => Failed("No strategy selected") case Some(s) => Execute(exec, s) }
  {
    if selected.None? {
      return Failed("No strategy selected");
    }
    var s := selected.value;
    var configs: seq<C>, parts, warnings := [], ["Architect Strategy: " + s.name], [];
    var sorted := InOrder(s.actions);
    var i := 0;
    assert sorted[0..] == sorted;
    while i < |sorted|
      invariant 0 <= i <= |sorted|
      invariant Fold(exec, sorted[i..], configs, parts, warnings) == Execute(exec, s)
    {
      var a := sorted[i];
      assert sorted[i..][1..] == sorted[i + 1..];
      match exec(CallOf(a)) {
        case Ok((cs, explanation)) =>
          configs := configs + cs;
          if explanation != "" {
            parts := parts + [explanation];
          }
        case Err(e) =>
          if a.required {
            return Failed(FailureMessage(a, e));
          }
          warnings := warnings + [WarningMessage(a, e)];
      }
      i := i + 1;
    }
    return Translated(configs, Joined(parts), warnings);
  }

  // ----- the round trip -----

  lemma {:induction false} FindTypeFinds(types: seq<ActionType>, t: ActionType)
    requires t in types
    ensures FindType(types, ValueOf(t)) == Some(t)
  {
    if types[0] == t {
    } else {
      ValuesDiffer(types[0], t);
      assert types == [types[0]] + types[1..];
      FindTypeFinds(types[1..], t);
    }
  }

  /** Enough of a value to tell it from the others. */
  function Fingerprint(value: string): (nat, char, char, char)
    requires |value| >= 5
  {
    (|value|, value[0], value[1], value[3])
  }

  lemma ValuesDiffer(a: ActionType, b: ActionType)
    requires a != b
    ensures ValueOf(a) != ValueOf(b)
  {
    assert Fingerprint(ValueOf(a)) != Fingerprint(ValueOf(b));
  }

  lemma EveryTypeIsListed(t: ActionType)
    ensures t in ACTION_TYPES
  {
  }

  /** The value stored for an action's type is read back as that type. */
  lemma TypeRoundTrips(t: ActionType)
    ensures FindType(ACTION_TYPES, ValueOf(t)) == Some(t)
  {
    EveryTypeIsListed(t);
    FindTypeFinds(ACTION_TYPES, t);
  }

  /** Rebuilt actions are the stored ones, in order, but with fresh ids, all required, impact text gone. */
  ghost predicate AreRebuilt(rebuilt: seq<ConfigAction>, actions: seq<ConfigAction>) {
    && |rebuilt| == |actions|
    && forall i :: 0 <= i < |actions| ==>
         && CallOf(rebuilt[i]) == CallOf(actions[i])
         && rebuilt[i].executionOrder == actions[i].executionOrder
         && rebuilt[i].required && rebuilt[i].estimatedImpact == ""
  }

  lemma ActionRoundTrips(a: ConfigAction, freshId: string)
    ensures var r := RebuildAction(ActionToDict(a), freshId);
            && r.Some? && CallOf(r.value) == CallOf(a) && r.value.executionOrder == a.executionOrder
            && r.value.required && r.value.estimatedImpact == ""
  {
    TypeRoundTrips(a.actionType);
  }

  lemma LastActionToDict(init: seq<ConfigAction>, a: ConfigAction)
    ensures ActionsToDict(init + [a]) == ActionsToDict(init) + [ActionToDict(a)]
  {
  }

  lemma {:induction false} ActionsRoundTrip(actions: seq<ConfigAction>, freshId: nat -> string)
    ensures RebuildActions(ActionsToDict(actions), freshId).Some?
    ensures AreRebuilt(RebuildActions(ActionsToDict(actions), freshId).value, actions)
  {
    if actions != [] {
      var init, a := actions[..|actions| - 1], actions[|actions| - 1];
      assert actions == init + [a];
      ActionsRoundTrip(init, freshId);
      ActionRoundTrips(a, freshId(|init|));
      LastActionToDict(init, a);
      assert ActionsToDict(actions)[..|init|] == ActionsToDict(init);
      assert ActionsToDict(actions)[|init|] == ActionToDict(a);
    }
  }

  lemma RebuiltStaysSorted(rebuilt: seq<ConfigAction>, actions: seq<ConfigAction>)
    requires AreRebuilt(rebuilt, InOrder(actions))
    ensures InOrder(rebuilt) == rebuilt
  {
    RunsNoLaterIsPreorder();
    S.SortSorts(RunsNoLater, actions);
    assert S.Sorted(RunsNoLater, rebuilt);
    S.SortedIsFixed(RunsNoLater, rebuilt);
  }

  /** The message of the first action that fails, in the given order, counting all or only required ones. */
  function FirstFailure<C>(exec: Call -> Outcome<C>, actions: seq<ConfigAction>, requiredOnly: bool): Option<string> {
    if actions == [] then None
    else
      match exec(CallOf(actions[0]))
      case Err(e) =>
        if requiredOnly && !actions[0].required then FirstFailure(exec, actions[1..], requiredOnly)
        else Some(FailureMessage(actions[0], e))
      case Ok(_) => FirstFailure(exec, actions[1..], requiredOnly)
  }

  lemma {:induction false} FoldFailsExactly<C>(
      exec: Call -> Outcome<C>, actions: seq<ConfigAction>, configs: seq<C>, parts: seq<string>,
      warnings: seq<string>)
    ensures match FirstFailure(exec, actions, true)
            case Some(m) => Fold(exec, actions, configs, parts, warnings) == Failed(m)
            case None => Fold(exec, actions, configs, parts, warnings).Translated?
  {
    if actions != [] {
      match exec(CallOf(actions[0]))
      case Ok((cs, explanation)) =>
        FoldFailsExactly(exec, actions[1..], configs + cs, WithPart(parts, explanation), warnings);
      case Err(e) =>
        FoldFailsExactly(exec, actions[1..], configs, parts, warnings + [WarningMessage(actions[0], e)]);
    }
  }

  /** The configs of the actions that succeed, in order. */
  function ConfigsOf<C>(exec: Call -> Outcome<C>, actions: seq<ConfigAction>): seq<C> {
    if actions == [] then []
    else ConfigsOf(exec, actions[..|actions| - 1]) +
         match exec(CallOf(actions[|actions| - 1])) { case Ok((cs, _)) => cs case Err(_) => [] }
  }

  lemma {:induction false} ConfigsOfCons<C>(exec: Call -> Outcome<C>, a: ConfigAction, rest: seq<ConfigAction>)
    ensures ConfigsOf(exec, [a] + rest) == ConfigsOf(exec, [a]) + ConfigsOf(exec, rest)
  {
    if rest != [] {
      ConfigsOfCons(exec, a, rest[..|rest| - 1]);
      assert ([a] + rest)[..|rest|] == [a] + rest[..|rest| - 1];
    } else {
      assert [a] + rest == [a];
    }
  }

  lemma ConfigsOfOne<C>(exec: Call -> Outcome<C>, a: ConfigAction)
    ensures ConfigsOf(exec, [a]) == match exec(CallOf(a)) { case Ok((cs, _)) => cs case Err(_) => [] }
  {
    assert [a][..0] == [];
    assert ConfigsOf(exec, []) == [];
  }

  /** A successful execution yields the configs of all actions that succeeded and one warning per other action. */
  lemma {:induction false} FoldCollects<C>(
      exec: Call -> Outcome<C>, actions: seq<ConfigAction>, configs: seq<C>, parts: seq<string>,
      warnings: seq<string>)
    requires FirstFailure(exec, actions, true).None?
    ensures var r := Fold(exec, actions, configs, parts, warnings);
            && r.Translated? && r.configs == configs + ConfigsOf(exec, actions)
            && |r.warnings| == |warnings| + FailureCount(exec, actions)
  {
    if actions != [] {
      var a, rest := actions[0], actions[1..];
      assert actions == [a] + rest;
      ConfigsOfCons(exec, a, rest);
      ConfigsOfOne(exec, a);
      match exec(CallOf(a))
      case Ok((cs, explanation)) =>
        assert (configs + cs) + ConfigsOf(exec, rest) == configs + (cs + ConfigsOf(exec, rest));
        FoldCollects(exec, rest, configs + cs, WithPart(parts, explanation), warnings);
      case Err(e) =>
        assert [] + ConfigsOf(exec, rest) == ConfigsOf(exec, rest);
        FoldCollects(exec, rest, configs, parts, warnings + [WarningMessage(a, e)]);
    }
  }

  function FailureCount<C>(exec: Call -> Outcome<C>, actions: seq<ConfigAction>): nat {
    if actions == [] then 0 else (if exec(CallOf(actions[0])).Err? then 1 else 0) + FailureCount(exec, actions[1..])
  }

  /** Executing rebuilt actions: any failure is fatal; without failures nothing has changed. */
  lemma {:induction false} FoldOfRebuilt<C>(
      exec: Call -> Outcome<C>, actions: seq<ConfigAction>, rebuilt: seq<ConfigAction>, configs: seq<C>,
      parts: seq<string>, warnings: seq<string>)
    requires AreRebuilt(rebuilt, actions)
    ensures match FirstFailure(exec, actions, false)
            case Some(m) => Fold(exec, rebuilt, configs, parts, warnings) == Failed(m)
            case None => Fold(exec, rebuilt, configs, parts, warnings) == Fold(exec, actions, configs, parts, warnings)
  {
    if actions != [] {
      assert AreRebuilt(rebuilt[1..], actions[1..]);
      assert CallOf(rebuilt[0]) == CallOf(actions[0]);
      match exec(CallOf(actions[0]))
      case Ok((cs, explanation)) =>
        FoldOfRebuilt(exec, actions[1..], rebuilt[1..], configs + cs, WithPart(parts, explanation), warnings);
      case Err(e) =>
    }
  }

  lemma {:induction false} NoFailureNoRequiredFailure<C>(exec: Call -> Outcome<C>, actions: seq<ConfigAction>)
    ensures FirstFailure(exec, actions, false).None? ==> FirstFailure(exec, actions, true).None?
    ensures (forall a :: a in actions ==> a.required) ==>
              FirstFailure(exec, actions, true) == FirstFailure(exec, actions, false)
  {
    if actions != [] {
      NoFailureNoRequiredFailure(exec, actions[1..]);
      assert actions[0] in actions;
      assert forall a :: a in actions[1..] ==> a in actions;
    }
  }

  /**
   For given translators: executing the rebuilt strategy gives the same configs, explanation, warnings or error
   as executing the original, exactly when no action fails or the first failing action is reported the same way
   as the first failing required one.
   */
  lemma PlanRoundTripsExactly<C>(exec: Call -> Outcome<C>, s: Strategy, strategyId: string, freshId: nat -> string)
    ensures Rebuild(ToDict(s), strategyId, freshId).Some?
    ensures var first := FirstFailure(exec, InOrder(s.actions), false);
            Execute(exec, Rebuild(ToDict(s), strategyId, freshId).value) == Execute(exec, s)
            <==> first.None? || first == FirstFailure(exec, InOrder(s.actions), true)
  {
    var sorted := InOrder(s.actions);
    ActionsRoundTrip(sorted, freshId);
    var rebuilt := RebuildActions(ActionsToDict(sorted), freshId).value;
    RebuiltStaysSorted(rebuilt, s.actions);
    var parts := ["Architect Strategy: " + s.name];
    FoldOfRebuilt(exec, sorted, rebuilt, [], parts, []);
    FoldFailsExactly(exec, sorted, [], parts, []);
  }

  predicate Fails<C>(exec: Call -> Outcome<C>, actions: seq<ConfigAction>, n: nat)
    requires n < |actions|
  {
    exec(CallOf(actions[n])).Err?
  }

  /** The n-th action is the first to fail, among all of them or among the required ones. */
  ghost predicate FailsFirst<C>(exec: Call -> Outcome<C>, actions: seq<ConfigAction>, requiredOnly: bool, n: nat)
    requires n < |actions|
  {
    && Fails(exec, actions, n) && (requiredOnly ==> actions[n].required)
    && forall m :: 0 <= m < n && Fails(exec, actions, m) ==> requiredOnly && !actions[m].required
  }

  lemma {:induction false} FirstFailureAt<C>(
    exec: Call -> Outcome<C>, actions: seq<ConfigAction>, requiredOnly: bool, n: nat)
    requires n < |actions| && FailsFirst(exec, actions, requiredOnly, n)
    ensures FirstFailure(exec, actions, requiredOnly) ==
            Some(FailureMessage(actions[n], exec(CallOf(actions[n])).error))
  {
    if n > 0 {
      assert Fails(exec, actions, 0) ==> requiredOnly && !actions[0].required;
      forall m | 0 <= m < n - 1 && Fails(exec, actions[1..], m) ensures requiredOnly && !actions[1..][m].required {
        assert Fails(exec, actions, m + 1);
      }
      FirstFailureAt(exec, actions[1..], requiredOnly, n - 1);
    }
  }

  lemma {:induction false} FindFirstFailure<C>(exec: Call -> Outcome<C>, actions: seq<ConfigAction>) returns (n: nat)
    requires FirstFailure(exec, actions, false).Some?
    ensures n < |actions| && FailsFirst(exec, actions, false, n)
  {
    if Fails(exec, actions, 0) {
      n := 0;
    } else {
      n := FindFirstFailure(exec, actions[1..]);
      n := n + 1;
      forall m | 0 <= m < n && Fails(exec, actions, m) ensures false {
        if m > 0 { assert Fails(exec, actions[1..], m - 1); }
      }
    }
  }

  /** The call of the k-th action occurs among the first i. */
  ghost predicate OccursBefore(actions: seq<ConfigAction>, k: nat, i: nat)
    requires k < |actions| && i <= |actions|
  {
    exists h :: 0 <= h < i && CallOf(actions[h]) == CallOf(actions[k])
  }

  /** Required action j makes optional action i's failure fatal, in the same words, before any other failure can. */
  ghost predicate Answers(actions: seq<ConfigAction>, i: nat, j: nat)
    requires i < |actions| && j < |actions|
  {
    && actions[j].required && CallOf(actions[j]) == CallOf(actions[i])
    && (j > i ==> forall k :: i < k < j && actions[k].required ==> OccursBefore(actions, k, i))
  }

  ghost predicate IsAnswered(actions: seq<ConfigAction>, i: nat)
    requires i < |actions|
  {
    actions[i].required || exists j :: 0 <= j < |actions| && Answers(actions, i, j)
  }

  ghost predicate AllAnswered(actions: seq<ConfigAction>) {
    forall i :: 0 <= i < |actions| ==> IsAnswered(actions, i)
  }

  lemma AnsweredFailuresAgree<C>(exec: Call -> Outcome<C>, actions: seq<ConfigAction>)
    requires AllAnswered(actions) && FirstFailure(exec, actions, false).Some?
    ensures FirstFailure(exec, actions, true) == FirstFailure(exec, actions, false)
  {
    var i := FindFirstFailure(exec, actions);
    FirstFailureAt(exec, actions, false, i);
    assert IsAnswered(actions, i);
    var j := i;
    if !actions[i].required {
      j :| 0 <= j < |actions| && Answers(actions, i, j);
      assert Fails(exec, actions, j);
    }
    AnswerFailsFirst(exec, actions, i, j);
    FirstFailureAt(exec, actions, true, j);
  }

  lemma AnswerFailsFirst<C>(exec: Call -> Outcome<C>, actions: seq<ConfigAction>, i: nat, j: nat)
    requires i < |actions| && j < |actions| && FailsFirst(exec, actions, false, i)
    requires if actions[i].required then j == i else Answers(actions, i, j)
    ensures FailsFirst(exec, actions, true, j)
  {
    assert Fails(exec, actions, j);
    forall k | 0 <= k < j && actions[k].required ensures !Fails(exec, actions, k) {
      if i < k {
        var h :| 0 <= h < i && CallOf(actions[h]) == CallOf(actions[k]);
        assert !Fails(exec, actions, h);
      }
    }
  }

  /** A translator that fails on two calls, in words of different length, and succeeds on all others. */
  function FailOnTwo<C>(c: Call, d: Call): Call -> Outcome<C> {
    var longer := if |ValueOf(c.actionType)| == |ValueOf(d.actionType)| then "x" else "";
    (x: Call) => if x == c then Err("") else if x == d then Err(longer) else Ok(([], ""))
  }

  lemma MessagesDiffer(a: ConfigAction, b: ConfigAction)
    ensures FailureMessage(a, "") !=
            FailureMessage(b, if |ValueOf(a.actionType)| == |ValueOf(b.actionType)| then "x" else "")
  {
    var longer := if |ValueOf(a.actionType)| == |ValueOf(b.actionType)| then "x" else "";
    assert |FailureMessage(a, "")| != |FailureMessage(b, longer)|;
  }

  /** What answers an action answers every later one with the same call. */
  lemma AnswerCarriesOver(actions: seq<ConfigAction>, h: nat, i: nat)
    requires h < i < |actions| && IsAnswered(actions, h) && CallOf(actions[h]) == CallOf(actions[i])
    ensures IsAnswered(actions, i)
  {
    if actions[h].required {
      assert Answers(actions, i, h);
    } else if !actions[i].required {
      var j :| 0 <= j < |actions| && Answers(actions, h, j);
      if j > i {
        forall k | i < k < j && actions[k].required ensures OccursBefore(actions, k, i) {
          assert OccursBefore(actions, k, h);
        }
      }
      assert Answers(actions, i, j);
    }
  }

  lemma {:induction false} FindFirstOccurrence(actions: seq<ConfigAction>, i: nat) returns (h: nat)
    requires i < |actions|
    ensures h <= i && CallOf(actions[h]) == CallOf(actions[i]) && !OccursBefore(actions, h, h)
  {
    if OccursBefore(actions, i, i) {
      var g :| 0 <= g < i && CallOf(actions[g]) == CallOf(actions[i]);
      h := FindFirstOccurrence(actions, g);
    } else {
      h := i;
    }
  }

  ghost predicate IsNewRequired(actions: seq<ConfigAction>, i: nat, k: nat)
    requires i < |actions| && k < |actions|
  {
    i < k && actions[k].required && !OccursBefore(actions, k, i)
  }

  lemma {:induction false} FindFirstNewRequired(actions: seq<ConfigAction>, i: nat, k: nat) returns (n: nat)
    requires i < |actions| && k < |actions| && IsNewRequired(actions, i, k)
    ensures n <= k && IsNewRequired(actions, i, n)
    ensures forall m :: 0 <= m < n ==> !IsNewRequired(actions, i, m)
    decreases k
  {
    if m :| 0 <= m < k && IsNewRequired(actions, i, m) {
      n := FindFirstNewRequired(actions, i, m);
    } else {
      n := k;
    }
  }

  /** An unanswered action fails while no required action with its call, or another call, fails in the same words. */
  lemma UnansweredFailureDisagrees<C>(actions: seq<ConfigAction>, i: nat) returns (exec: Call -> Outcome<C>)
    requires i < |actions| && !IsAnswered(actions, i) && !OccursBefore(actions, i, i)
    ensures FirstFailure(exec, actions, false).Some?
    ensures FirstFailure(exec, actions, true) != FirstFailure(exec, actions, false)
  {
    var c := CallOf(actions[i]);
    if j :| 0 <= j < |actions| && actions[j].required && CallOf(actions[j]) == c {
      var k := NewRequiredBefore(actions, i, j);
      exec := FailOnTwo(c, CallOf(actions[k]));
      TwoFailuresDisagree(actions, i, k, exec);
    } else {
      exec := FailOnTwo(c, c);
      assert Fails(exec, actions, i);
      FirstFailureAt(exec, actions, false, i);
      NoRequiredFailure(exec, actions);
    }
  }

  lemma {:induction false} NoRequiredFailure<C>(exec: Call -> Outcome<C>, actions: seq<ConfigAction>)
    requires forall n :: 0 <= n < |actions| && Fails(exec, actions, n) ==> !actions[n].required
    ensures FirstFailure(exec, actions, true).None?
  {
    if actions != [] {
      forall n | 0 <= n < |actions| - 1 && Fails(exec, actions[1..], n) ensures !actions[1..][n].required {
        assert Fails(exec, actions, n + 1);
      }
      assert Fails(exec, actions, 0) ==> !actions[0].required;
      NoRequiredFailure(exec, actions[1..]);
    }
  }

  /** Before any required action with the same call there is a required action with a call new at i. */
  lemma NewRequiredBefore(actions: seq<ConfigAction>, i: nat, j: nat) returns (k: nat)
    requires i < |actions| && !IsAnswered(actions, i) && !OccursBefore(actions, i, i)
    requires j < |actions| && actions[j].required && CallOf(actions[j]) == CallOf(actions[i])
    ensures k < |actions| && IsNewRequired(actions, i, k) && CallOf(actions[k]) != CallOf(actions[i])
    ensures forall m :: 0 <= m < k ==> !IsNewRequired(actions, i, m)
    ensures forall m :: 0 <= m <= k && actions[m].required ==> CallOf(actions[m]) != CallOf(actions[i])
  {
    assert !Answers(actions, i, j);
    var k0 :| i < k0 < j && actions[k0].required && !OccursBefore(actions, k0, i);
    k := FindFirstNewRequired(actions, i, k0);
    forall m | 0 <= m <= k && actions[m].required ensures CallOf(actions[m]) != CallOf(actions[i]) {
      if CallOf(actions[m]) == CallOf(actions[i]) {
        assert !Answers(actions, i, m);
        var k1 :| i < k1 < m && actions[k1].required && !OccursBefore(actions, k1, i);
        assert IsNewRequired(actions, i, k1);
      }
    }
  }

  /** The setting of the two lemmas below: i makes a call for the first time, k a new one, required, after it. */
  ghost predicate FailPair(actions: seq<ConfigAction>, i: nat, k: nat) {
    && i < |actions| && k < |actions| && !actions[i].required && !OccursBefore(actions, i, i)
    && IsNewRequired(actions, i, k) && CallOf(actions[k]) != CallOf(actions[i])
    && (forall m :: 0 <= m < k ==> !IsNewRequired(actions, i, m))
    && (forall m :: 0 <= m <= k && actions[m].required ==> CallOf(actions[m]) != CallOf(actions[i]))
  }

  lemma PairFailsAtOptional<C>(actions: seq<ConfigAction>, i: nat, k: nat, exec: Call -> Outcome<C>)
    requires FailPair(actions, i, k) && exec == FailOnTwo(CallOf(actions[i]), CallOf(actions[k]))
    ensures FailsFirst(exec, actions, false, i)
  {
    forall m | 0 <= m < i ensures !Fails(exec, actions, m) {
      assert CallOf(actions[m]) != CallOf(actions[i]);
      assert CallOf(actions[m]) != CallOf(actions[k]);
    }
  }

  lemma PairFailsAtRequired<C>(actions: seq<ConfigAction>, i: nat, k: nat, exec: Call -> Outcome<C>)
    requires FailPair(actions, i, k) && exec == FailOnTwo(CallOf(actions[i]), CallOf(actions[k]))
    ensures FailsFirst(exec, actions, true, k)
  {
    forall m | 0 <= m < k && actions[m].required ensures CallOf(actions[m]) != CallOf(actions[k]) {
      if i < m {
        assert !IsNewRequired(actions, i, m);
        var h :| 0 <= h < i && CallOf(actions[h]) == CallOf(actions[m]);
      }
    }
  }

  lemma TwoFailuresDisagree<C>(actions: seq<ConfigAction>, i: nat, k: nat, exec: Call -> Outcome<C>)
    requires FailPair(actions, i, k) && exec == FailOnTwo(CallOf(actions[i]), CallOf(actions[k]))
    ensures FirstFailure(exec, actions, false).Some?
    ensures FirstFailure(exec, actions, true) != FirstFailure(exec, actions, false)
  {
    PairFailsAtOptional(actions, i, k, exec);
    FirstFailureAt(exec, actions, false, i);
    PairFailsAtRequired(actions, i, k, exec);
    FirstFailureAt(exec, actions, true, k);
    MessagesDiffer(actions[i], actions[k]);
  }

  ghost predicate SurvivesStorage<C(!new)>(s: Strategy, strategyId: string, freshId: nat -> string) {
    && Rebuild(ToDict(s), strategyId, freshId).Some?
    && forall exec: Call -> Outcome<C> ::
         Execute(exec, Rebuild(ToDict(s), strategyId, freshId).value) == Execute(exec, s)
  }

  /**
   A stored strategy executes like the original, whatever the translators answer, exactly when every optional
   action is answered: some required action makes the same call, either earlier, or later with no required action
   in between whose call is new.
   */
  lemma PlanSurvivesStorageExactly<C(!new)>(s: Strategy, strategyId: string, freshId: nat -> string)
    ensures SurvivesStorage<C>(s, strategyId, freshId) <==> AllAnswered(InOrder(s.actions))
  {
    ActionsRoundTrip(InOrder(s.actions), freshId);
    if AllAnswered(InOrder(s.actions)) {
      forall exec: Call -> Outcome<C>
        ensures Execute(exec, Rebuild(ToDict(s), strategyId, freshId).value) == Execute(exec, s)
      {
        AnsweredPlanSurvives(exec, s, strategyId, freshId);
      }
    } else {
      var exec: Call -> Outcome<C> := UnansweredPlanDiffers<C>(s, strategyId, freshId);
    }
  }

  lemma AnsweredPlanSurvives<C>(exec: Call -> Outcome<C>, s: Strategy, strategyId: string, freshId: nat -> string)
    requires AllAnswered(InOrder(s.actions))
    ensures Rebuild(ToDict(s), strategyId, freshId).Some?
    ensures Execute(exec, Rebuild(ToDict(s), strategyId, freshId).value) == Execute(exec, s)
  {
    PlanRoundTripsExactly(exec, s, strategyId, freshId);
    if FirstFailure(exec, InOrder(s.actions), false).Some? { AnsweredFailuresAgree(exec, InOrder(s.actions)); }
  }

  lemma UnansweredPlanDiffers<C>(s: Strategy, strategyId: string, freshId: nat -> string)
    returns (exec: Call -> Outcome<C>)
    requires !AllAnswered(InOrder(s.actions))
    ensures Rebuild(ToDict(s), strategyId, freshId).Some?
    ensures Execute(exec, Rebuild(ToDict(s), strategyId, freshId).value) != Execute(exec, s)
  {
    var sorted := InOrder(s.actions);
    var i :| 0 <= i < |sorted| && !IsAnswered(sorted, i);
    var h := FindFirstOccurrence(sorted, i);
    if h < i && IsAnswered(sorted, h) { AnswerCarriesOver(sorted, h, i); }
    exec := UnansweredFailureDisagrees<C>(sorted, h);
    PlanRoundTripsExactly(exec, s, strategyId, freshId);
  }

  /** In particular when every action is required, whatever fails. */
  lemma RequiredPlansRoundTrip<C>(exec: Call -> Outcome<C>, s: Strategy, strategyId: string, freshId: nat -> string)
    requires forall a :: a in s.actions ==> a.required
    ensures Rebuild(ToDict(s), strategyId, freshId).Some?
    ensures Execute(exec, Rebuild(ToDict(s), strategyId, freshId).value) == Execute(exec, s)
  {
    PlanRoundTripsExactly(exec, s, strategyId, freshId);
    S.SortKeepsMembers(RunsNoLater, s.actions);
    NoFailureNoRequiredFailure(exec, InOrder(s.actions));
  }

  /** An optional action that fails is a warning before the round trip and an error after it. */
  lemma OptionalFailureTurnsFatal<C>(
      exec: Call -> Outcome<C>, s: Strategy, a: ConfigAction, strategyId: string, freshId: nat -> string)
    requires s.actions == [a] && !a.required && exec(CallOf(a)).Err?
    ensures Execute(exec, s).Translated?
    ensures Rebuild(ToDict(s), strategyId, freshId).Some?
    ensures Execute(exec, Rebuild(ToDict(s), strategyId, freshId).value).Failed?
  {
    assert s.actions[1..] == [];
    S.SortedIsFixed(RunsNoLater, [a]);
    PlanRoundTripsExactly(exec, s, strategyId, freshId);
    ActionsRoundTrip([a], freshId);
    var rebuilt := RebuildActions(ActionsToDict([a]), freshId).value;
    RebuiltStaysSorted(rebuilt, [a]);
    FoldOfRebuilt(exec, [a], rebuilt, [], ["Architect Strategy: " + s.name], []);
    FoldFailsExactly(exec, [a], [], ["Architect Strategy: " + s.name], []);
  }

  // ----- selecting a strategy -----

  predicate AtLeastAsConfident(a: Strategy, b: Strategy) {
    a.confidence >= b.confidence
  }

  /** What one skill yields: its strategies, or the exception it raises. */
  type SkillResult = Result<seq<Strategy>, string>

  function Collected(results: seq<SkillResult>): seq<Strategy> {
    if results == [] then []
    else Collected(results[..|results| - 1]) +
         match results[|results| - 1] { case Ok(ss) => ss case Err(_) => [] }
  }

  /** The candidates in plan order; the object selected is the first of them, so its status shows in both places. */
  method SelectStrategy(results: seq<SkillResult>) returns (candidates: seq<Strategy>, selected: Option<Strategy>)
    ensures selected.None? <==> Collected(results) == []
    ensures selected.None? ==> candidates == []
    ensures selected.Some? ==>
              var sorted := S.Sort(AtLeastAsConfident, Collected(results));
              && sorted != []
              && selected.value == sorted[0].(status := Selected)
              && candidates == [selected.value] + sorted[1..]
              && IsFirstBest(Collected(results), sorted[0])
    ensures forall i, j :: 0 <= i < j < |candidates| ==> candidates[i].confidence >= candidates[j].confidence
  {
    var all: seq<Strategy> := [];
    for i := 0 to |results|
      invariant all == Collected(results[..i])
    {
      assert results[..i + 1][..i] == results[..i];
      match results[i]
      case Ok(ss) => all := all + ss;
      case Err(_) =>
    }
    assert results[..|results|] == results;
    if all == [] {
      return [], None;
    }
    FirstOfSortedIsFirstBest(all);
    S.SortSorts(AtLeastAsConfident, all);
    all := S.Sort(AtLeastAsConfident, all);
    var best := all[0].(status := Selected);
    return [best] + all[1..], Some(best);
  }

  /** The most confident strategy, and of several equally confident ones the first generated. */
  ghost predicate IsFirstBest(all: seq<Strategy>, best: Strategy) {
    exists k :: 0 <= k < |all| && all[k] == best
                && (forall j :: 0 <= j < |all| ==> all[j].confidence <= best.confidence)
                && (forall j :: 0 <= j < k ==> all[j].confidence < best.confidence)
  }

  lemma {:induction false} FirstTie(all: seq<Strategy>, x: Strategy) returns (k: nat)
    requires S.Ties(AtLeastAsConfident, x, all) != []
    ensures k < |all| && all[k] == S.Ties(AtLeastAsConfident, x, all)[0] && all[k].confidence == x.confidence
    ensures forall j :: 0 <= j < k ==> all[j].confidence != x.confidence
  {
    if all[0].confidence == x.confidence {
      k := 0;
    } else {
      k := FirstTie(all[1..], x);
      assert forall j :: 0 < j < |all| ==> all[j] == all[1..][j - 1];
      k := k + 1;
    }
  }

  lemma FirstOfSortedIsFirstBest(all: seq<Strategy>)
    requires all != []
    ensures S.Sort(AtLeastAsConfident, all) != []
    ensures IsFirstBest(all, S.Sort(AtLeastAsConfident, all)[0])
  {
    var sorted := S.Sort(AtLeastAsConfident, all);
    S.SortPermutes(AtLeastAsConfident, all);
    S.SortSorts(AtLeastAsConfident, all);
    S.SortKeepsMembers(AtLeastAsConfident, all);
    assert all[0] in sorted;
    var best := sorted[0];
    S.SortIsStable(AtLeastAsConfident, best, all);
    S.TiesFirst(AtLeastAsConfident, sorted);
    var k := FirstTie(all, best);
    forall j | 0 <= j < |all| ensures all[j].confidence <= best.confidence {
      assert all[j] in sorted;
      S.SortedHeadIsLeast(AtLeastAsConfident, sorted, all[j]);
    }
  }
}
