/**
 What-if evaluation and the safety gate of tfs_unity/tfs_digital_twin_api.py.
 Quantities are not rounded; the power of a rain rate is taken as given.
 */
module DigitalTwin {
  import opened Common
  import opened JsonValues

  /** The fields of a perturbation the code reads, as the request holds them; `rainPower` is rain_rate ** 0.80. */
  datatype Perturbation = Perturbation(
    kind: Option<Json>,
    device: Option<Json>,
    trafficMultiplier: Option<Json>,
    linkId: Option<Json>,
    backupPath: Option<Json>,
    sectors: Option<Json>,
    sliceId: Option<Json>,
    bandwidthMbps: Option<Json>,
    maxLatencyMs: Option<Json>,
    obstacleDb: Option<Json>,
    mispointingDb: Option<Json>,
    rainRate: Option<Json>,
    linkDistance: Option<Json>,
    rainPower: Float)

  datatype Domain = Traffic | Resilience | Energy | Admission | Blockage | Mispointing | Rain | Ignored

  function DomainOf(kind: string): Domain {
    if kind in ["traffic_surge", "congestion", "microburst"] then Traffic
    else if kind in ["link_failure", "fiber_cut", "interface_down"] then Resilience
    else if kind in ["energy_saving_sleep", "green_sleep_mode", "carrier_shutdown"] then Energy
    else if kind in ["slice_admission", "admission_control"] then Admission
    else if kind == "los_blockage" then Blockage
    else if kind == "beam_mispointing" then Mispointing
    else if kind in ["rain_fade", "channel_degradation"] then Rain
    else Ignored
  }

  /** The domain of a perturbation, None if its type has no lower(). */
  function DomainIn(p: Perturbation): Option<Domain> {
    match p.kind
    case None => Some(Traffic)
    case Some(Text(kind, _)) => Some(DomainOf(kind))
    case _ => None
  }

  function TargetOf(p: Perturbation): Json {
    p.device.GetOr(Str("f676623c-1a65-54bd-b1e8-279c8a6d8a1c"))
  }

  /** float(pert.get(key, default)). */
  function Converted(field: Option<Json>, default: real): Option<Float> {
    FloatOf(field.GetOr(Num(default)))
  }

  /** A recommended rule, and equally an action of a mitigation plan: a type with optional fields. */
  datatype Rule = Rule(
    kind: string,
    target: Json,
    minMcs: Option<Json>,
    targetGhz: Option<Json>,
    bandwidthMhz: Option<Json>,
    sliceId: Option<Json>,
    vlanId: Option<Json>,
    rateMbps: Option<Json>)

  function PlainRule(kind: string, target: Json): Rule {
    Rule(kind, target, None, None, None, None, None, None)
  }

  datatype Impact = Impact(domain: Domain, breach: bool)

  datatype Evaluation = Evaluation(impacts: seq<Impact>, rules: seq<Rule>)

  // ----- one perturbation -----

  function SimulatedLoad(multiplier: Float): Float {
    Min(Finite(0.98), Times(Finite(0.35), multiplier))
  }

  function TrafficLatency(load: Float): Float {
    Plus(Finite(0.85), Over(Finite(2.5), Max(Finite(0.02), Minus(Finite(1.0), load))))
  }

  function TrafficLoss(load: Float): Float {
    if Less(load, Finite(0.85)) then Finite(0.00001)
    else Times(Minus(load, Finite(0.8)), Finite(0.08))
  }

  predicate TrafficBreaches(multiplier: Float) {
    var load := SimulatedLoad(multiplier);
    Less(Finite(2.0), TrafficLatency(load)) || Less(Finite(0.001), TrafficLoss(load))
  }

  const AVAILABLE_MBPS: real := 850.0

  predicate CanAdmit(mbps: Float) {
    AtMost(mbps, Finite(AVAILABLE_MBPS))
  }

  /** The power of a negative number is complex, and round() does not take it. */
  function RainAttenuation(rate: Float, power: Float, distance: Float): Option<Float> {
    if rate.Finite? && rate.value < 0.0 then None
    else Some(Times(Times(Finite(0.85), power), distance))
  }

  function Attenuation(d: Domain, p: Perturbation): Option<Float> {
    match d
    case Blockage => Converted(p.obstacleDb, 22.5)
    case Mispointing => Converted(p.mispointingDb, 14.2)
    case _ =>
      var rate, distance := Converted(p.rainRate, 45.0), Converted(p.linkDistance, 0.8);
      if rate.None? || distance.None? then None
      else RainAttenuation(rate.value, p.rainPower, distance.value)
  }

  function PredictedSnr(attenuation: Float, baseSnr: real): (snr: Float)
    ensures AtMost(Finite(2.0), snr)
  {
    Max(Finite(2.0), Minus(Finite(baseSnr), attenuation))
  }

  function PredictedThroughput(snr: Float): real {
    if AtMost(Finite(22.0), snr) then 1000.0
    else if AtMost(Finite(17.0), snr) then 650.0
    else if AtMost(Finite(12.0), snr) then 380.0
    else if AtMost(Finite(7.0), snr) then 180.0
    else 50.0
  }

  function FadeLatency(snr: Float): Float
    requires AtMost(Finite(2.0), snr)
  {
    Plus(Finite(0.85), Over(Finite(30.0), Plus(snr, Finite(1.0))))
  }

  predicate FadeBreaches(snr: Float)
    requires AtMost(Finite(2.0), snr)
  {
    PredictedThroughput(snr) < 500.0 || Less(Finite(2.0), FadeLatency(snr))
  }

  function SurgeRules(target: Json): seq<Rule> {
    [PlainRule("DYNAMIC_QOS_SLICING", Null).(sliceId := Some(Str("slice-uran-6g")), rateMbps := Some(Num(1200.0))),
     PlainRule("QUEUE_DISCIPLINE_OPTIMIZE", target)]
  }

  function FadeRules(): seq<Rule> {
    [PlainRule("ACM_FLOOR_HARDENING", Null).(minMcs := Some(Num(2.0))),
     PlainRule("CARRIER_FREQUENCY_RETUNE", Null)
     .(targetGhz := Some(Num(64.8)), bandwidthMhz := Some(Num(2000.0)))]
  }

  function ReservationRule(p: Perturbation, mbps: Float): Rule {
    PlainRule("URLLC_SLICE_RESERVATION", p.sliceId.GetOr(Str("slice-smartgrid-teleprotection")))
    .(vlanId := Some(Num(210.0)), rateMbps := Some(Number(mbps)))
  }

  /** What one perturbation adds to the scenario; None where the source raises. */
  function EvaluateIn(d: Domain, p: Perturbation, baseSnr: real): Option<Evaluation> {
    match d
    case Traffic =>
      var multiplier := Converted(p.trafficMultiplier, 3.0);
      if multiplier.None? then None
      else Some(Evaluation([Impact(d, TrafficBreaches(multiplier.value))], SurgeRules(TargetOf(p))))
    case Resilience =>
      if !HasLength(p.backupPath.GetOr(List([]))) then None
      else
        var failed := p.linkId.GetOr(Str("link-ctu96-ctu97"));
        Some(Evaluation([Impact(d, false)], [PlainRule("CSPF_REROUTE_OPTIMIZATION", failed)]))
    case Energy =>
      if !HasLength(p.sectors.GetOr(List([]))) then None
      else Some(Evaluation([Impact(d, false)], [PlainRule("ENERGY_SLEEP_POLICY_ACTIVATE", TargetOf(p))]))
    case Admission =>
      var mbps := Converted(p.bandwidthMbps, 400.0);
      if mbps.None? || Converted(p.maxLatencyMs, 1.5).None? then None
      else
        var admit := CanAdmit(mbps.value);
        Some(Evaluation([Impact(d, !admit)], if admit then [ReservationRule(p, mbps.value)] else []))
    case Ignored => Some(Evaluation([], []))
    case _ =>
      var attenuation := Attenuation(d, p);
      if attenuation.None? then None
      else Some(Evaluation([Impact(d, FadeBreaches(PredictedSnr(attenuation.value, baseSnr)))], FadeRules()))
  }

  const DEFAULT_SNR: real := 24.0

  /** The synchronised telemetry: SNR by device. */
  type Telemetry = map<string, real>

  function BaseSnr(t: Telemetry, target: Json): real {
    if target.Text? && target.text in t then t[target.text] else DEFAULT_SNR
  }

  function Evaluate(t: Telemetry, p: Perturbation): Option<Evaluation> {
    if DomainIn(p).None? || !IsHashable(TargetOf(p)) then None
    else EvaluateIn(DomainIn(p).value, p, BaseSnr(t, TargetOf(p)))
  }

  // ----- which perturbations can be evaluated -----

  /** The fields float() is applied to. */
  function NumericFields(d: Domain, p: Perturbation): seq<Option<Json>> {
    match d
    case Traffic => [p.trafficMultiplier]
    case Admission => [p.bandwidthMbps, p.maxLatencyMs]
    case Blockage => [p.obstacleDb]
    case Mispointing => [p.mispointingDb]
    case Rain => [p.rainRate, p.linkDistance]
    case _ => []
  }

  /** The fields len() is applied to. */
  function CountedFields(d: Domain, p: Perturbation): seq<Option<Json>> {
    match d
    case Resilience => [p.backupPath]
    case Energy => [p.sectors]
    case _ => []
  }

  predicate HasNegativeRain(p: Perturbation) {
    var rate := if p.rainRate.Some? then FloatOf(p.rainRate.value) else None;
    rate.Some? && rate.value.Finite? && rate.value.value < 0.0
  }

  /** Every field this kind of perturbation reads can be converted if present, and no rain rate is negative. */
  predicate ReadsWell(d: Domain, p: Perturbation) {
    && (forall f :: f in NumericFields(d, p) && f.Some? ==> FloatOf(f.value).Some?)
    && (forall f :: f in CountedFields(d, p) && f.Some? ==> f.value.Text? || f.value.List? || f.value.Object?)
    && !(d.Rain? && HasNegativeRain(p))
  }

  /** The type is a text, the device can be a dict key and the fields read well. */
  predicate Evaluable(p: Perturbation) {
    && (p.kind.Some? ==> p.kind.value.Text?)
    && (p.device.Some? ==> !p.device.value.List? && !p.device.value.Object?)
    && ReadsWell(if p.kind.Some? then DomainOf(p.kind.value.text) else Traffic, p)
  }

  lemma DomainFailsExactly(d: Domain, p: Perturbation, baseSnr: real)
    ensures EvaluateIn(d, p, baseSnr).None? <==> !ReadsWell(d, p)
  {
    FieldsOf(d, p);
  }

  /** A perturbation fails to evaluate exactly when it is not evaluable. */
  lemma EvaluationFailsExactly(t: Telemetry, p: Perturbation)
    ensures Evaluate(t, p).None? <==> !Evaluable(p)
  {
    if DomainIn(p).Some? {
      DomainFailsExactly(DomainIn(p).value, p, BaseSnr(t, TargetOf(p)));
    }
  }

  /** The fields of a domain, one by one. */
  lemma FieldsOf(d: Domain, p: Perturbation)
    ensures (forall f :: f in NumericFields(d, p) && f.Some? ==> FloatOf(f.value).Some?) <==>
            match d
            case Traffic => Converted(p.trafficMultiplier, 3.0).Some?
            case Admission => Converted(p.bandwidthMbps, 400.0).Some? && Converted(p.maxLatencyMs, 1.5).Some?
            case Blockage => Converted(p.obstacleDb, 22.5).Some?
            case Mispointing => Converted(p.mispointingDb, 14.2).Some?
            case Rain => Converted(p.rainRate, 45.0).Some? && Converted(p.linkDistance, 0.8).Some?
            case _ => true
    ensures (forall f :: f in CountedFields(d, p) && f.Some? ==> HasLength(f.value)) <==>
            match d
            case Resilience => HasLength(p.backupPath.GetOr(List([])))
            case Energy => HasLength(p.sectors.GetOr(List([])))
            case _ => true
  {
    if |NumericFields(d, p)| > 0 {
      assert NumericFields(d, p)[0] in NumericFields(d, p);
    }
    if |NumericFields(d, p)| > 1 {
      assert NumericFields(d, p)[1] in NumericFields(d, p);
    }
    if |CountedFields(d, p)| > 0 {
      assert CountedFields(d, p)[0] in CountedFields(d, p);
    }
  }

  const NO_FIELDS: Perturbation :=
    Perturbation(None, None, None, None, None, None, None, None, None, None, None, None, None, Finite(0.0))

  lemma RainFadeIsRain()
    ensures DomainOf("rain_fade") == Rain
  {
  }

  lemma {:induction false} RainFails(t: Telemetry, p: Perturbation, rate: real)
    requires DomainIn(p) == Some(Rain) && p.device.None? && p.linkDistance.None? && p.rainRate == Some(Num(rate))
    ensures Evaluate(t, p).None? <==> rate < 0.0
  {
  }

  /** A rain fade of -5 mm/h holds nothing but a text and a number, and cannot be evaluated; one of 5 mm/h can. */
  lemma {:induction false} RainRateOfMinusFive(t: Telemetry, power: Float)
    ensures var p := NO_FIELDS.(kind := Some(Str("rain_fade")), rainRate := Some(Num(-5.0)), rainPower := power);
            Evaluate(t, p).None? && Evaluate(t, p.(rainRate := Some(Num(5.0)))).Some?
  {
    var p := NO_FIELDS.(kind := Some(Str("rain_fade")), rainRate := Some(Num(-5.0)), rainPower := power);
    RainFadeIsRain();
    RainFails(t, p, -5.0);
    RainFails(t, p.(rainRate := Some(Num(5.0))), 5.0);
  }

  // ----- a scenario -----

  /** What the loop over the perturbations accumulates; None if it raises. */
  function Evaluated(t: Telemetry, ps: seq<Perturbation>): Option<Evaluation> {
    if ps == [] then Some(Evaluation([], []))
    else
      var before, last := Evaluated(t, ps[..|ps| - 1]), Evaluate(t, ps[|ps| - 1]);
      if before.None? || last.None? then None
      else Some(Evaluation(before.value.impacts + last.value.impacts, before.value.rules + last.value.rules))
  }

  /** A scenario fails exactly when one of its perturbations cannot be evaluated. */
  lemma {:induction false} ScenarioFailsExactly(t: Telemetry, ps: seq<Perturbation>)
    ensures Evaluated(t, ps).None? <==> exists p :: p in ps && !Evaluable(p)
  {
    if ps != [] {
      var init, p := ps[..|ps| - 1], ps[|ps| - 1];
      assert ps == init + [p];
      ScenarioFailsExactly(t, init);
      EvaluationFailsExactly(t, p);
    }
  }

  lemma {:induction false} FailedPrefix(t: Telemetry, ps: seq<Perturbation>, i: nat)
    requires i <= |ps| && Evaluated(t, ps[..i]).None?
    ensures Evaluated(t, ps).None?
    decreases |ps|
  {
    if i < |ps| {
      assert ps[..|ps| - 1][..i] == ps[..i];
      FailedPrefix(t, ps[..|ps| - 1], i);
    } else {
      assert ps[..i] == ps;
    }
  }

  predicate AnyBreach(impacts: seq<Impact>) {
    exists i :: i in impacts && i.breach
  }

  /** The first rule of the given kind: what deduplication should keep. */
  function FirstOfKind(rules: seq<Rule>, kind: string): Option<Rule> {
    if rules == [] then None
    else if rules[0].kind == kind then Some(rules[0])
    else FirstOfKind(rules[1..], kind)
  }

  /** The rules no earlier rule shares its kind with, in order. */
  function Deduplicated(rules: seq<Rule>): seq<Rule> {
    if rules == [] then []
    else
      var init, r := rules[..|rules| - 1], rules[|rules| - 1];
      Deduplicated(init) + if FirstOfKind(init, r.kind).None? then [r] else []
  }

  datatype Scenario = Scenario(impacts: seq<Impact>, overallBreach: bool, proposedRules: seq<Rule>)

  // ----- deduplication -----

  lemma {:induction false} FirstOfKindAppend(a: seq<Rule>, r: Rule, kind: string)
    ensures FirstOfKind(a + [r], kind) ==
            if FirstOfKind(a, kind).Some? then FirstOfKind(a, kind) else if r.kind == kind then Some(r) else None
  {
    if a != [] {
      FirstOfKindAppend(a[1..], r, kind);
      assert (a + [r])[1..] == a[1..] + [r];
    }
  }

  lemma {:induction false} FirstOfKindFinds(rules: seq<Rule>, kind: string)
    ensures FirstOfKind(rules, kind).Some? <==> exists r :: r in rules && r.kind == kind
    ensures FirstOfKind(rules, kind).Some? ==>
              FirstOfKind(rules, kind).value in rules && FirstOfKind(rules, kind).value.kind == kind
  {
    if rules != [] {
      FirstOfKindFinds(rules[1..], kind);
      assert rules == [rules[0]] + rules[1..];
    }
  }

  ghost predicate KindsDistinct(rules: seq<Rule>) {
    forall i, j :: 0 <= i < j < |rules| ==> rules[i].kind != rules[j].kind
  }

  /** Deduplication keeps, of every kind, the first rule and no other. */
  lemma {:induction false} DeduplicationKeepsFirsts(rules: seq<Rule>)
    ensures KindsDistinct(Deduplicated(rules))
    ensures forall kind :: FirstOfKind(Deduplicated(rules), kind) == FirstOfKind(rules, kind)
    ensures forall r :: r in Deduplicated(rules) <==> FirstOfKind(rules, r.kind) == Some(r)
  {
    if rules != [] {
      var init, r := rules[..|rules| - 1], rules[|rules| - 1];
      assert rules == init + [r];
      DeduplicationKeepsFirsts(init);
      forall kind ensures FirstOfKind(Deduplicated(rules), kind) == FirstOfKind(rules, kind) {
        FirstOfKindAppend(init, r, kind);
        FirstOfKindAppend(Deduplicated(init), r, kind);
        assert Deduplicated(init) + [] == Deduplicated(init);
      }
      forall x | x in Deduplicated(init) ensures FirstOfKind(init, r.kind).None? ==> x.kind != r.kind {
        FirstOfKindFinds(init, r.kind);
        FirstOfKindFinds(Deduplicated(init), r.kind);
      }
      forall x ensures x in Deduplicated(rules) <==> FirstOfKind(rules, x.kind) == Some(x) {
        FirstOfKindAppend(init, r, x.kind);
      }
    }
  }

  // ----- the safety gate -----

  datatype Gate = FloorGate | CarrierGate | RateGate | NoGate

  function GateOf(kind: string): Gate {
    if kind == "ACM_FLOOR_HARDENING" then FloorGate
    else if kind == "CARRIER_FREQUENCY_RETUNE" then CarrierGate
    else if kind == "URLLC_SLICE_RESERVATION" || kind == "DYNAMIC_QOS_SLICING" then RateGate
    else NoGate
  }

  /** The value of an action that its gate looks at. */
  function Gated(a: Rule): Json {
    match GateOf(a.kind)
    case FloorGate => a.minMcs.GetOr(Num(2.0))
    case CarrierGate => a.targetGhz.GetOr(Num(64.8))
    case RateGate => a.rateMbps.GetOr(Num(1000.0))
    case NoGate => Null
  }

  /** Comparing anything but a number raises. */
  predicate IsComparable(a: Rule) {
    GateOf(a.kind).NoGate? || NumberOf(Gated(a)).Some?
  }

  /** The tests as the source makes them: two look for a value out of range, one for a value in range. */
  predicate Admits(g: Gate, x: Float) {
    match g
    case FloorGate => !(Less(x, Finite(0.0)) || Less(Finite(12.0), x))
    case CarrierGate => AtMost(Finite(57.0), x) && AtMost(x, Finite(71.0))
    case RateGate => !(AtMost(x, Finite(0.0)) || Less(Finite(10000.0), x))
    case NoGate => true
  }

  predicate IsAccepted(a: Rule) {
    GateOf(a.kind).NoGate? || (NumberOf(Gated(a)).Some? && Admits(GateOf(a.kind), NumberOf(Gated(a)).value))
  }

  ghost predicate AllAccepted(actions: seq<Rule>) {
    forall a :: a in actions ==> IsAccepted(a)
  }

  /** The operating envelope the gate is there to enforce. */
  predicate InEnvelope(g: Gate, j: Json) {
    var x := NumberOf(j);
    && x.Some? && x.value.Finite?
    && match g
       case FloorGate => 0.0 <= x.value.value <= 12.0
       case CarrierGate => 57.0 <= x.value.value <= 71.0
       case RateGate => 0.0 < x.value.value <= 10000.0
       case NoGate => true
  }

  /** The gate accepts a value exactly when it is in the envelope, or is a NaN for a rate or an MCS floor. */
  lemma GateAcceptsExactly(a: Rule)
    ensures IsAccepted(a) <==>
            || GateOf(a.kind).NoGate?
            || InEnvelope(GateOf(a.kind), Gated(a))
            || (Gated(a) == Number(NaN) && !GateOf(a.kind).CarrierGate?)
  {
  }

  /** Calls into the TeraFlowSDN client. */
  datatype TfsCall =
    | SetAcmFloor(device: Json, minMcs: Json)
    | SetRadioTuning(device: Json, ghz: Json, bandwidthMhz: Json)
    | SetSliceQos(device: Json, slice: Json, vlan: Json, rateMbps: Json)

  function CallsOf(device: Json, a: Rule): seq<TfsCall> {
    match GateOf(a.kind)
    case FloorGate => [SetAcmFloor(device, a.minMcs.GetOr(Num(2.0)))]
    case CarrierGate => [SetRadioTuning(device, a.targetGhz.GetOr(Num(64.8)), a.bandwidthMhz.GetOr(Num(2000.0)))]
    case RateGate => [
      SetSliceQos(device, a.sliceId.GetOr(Str("slice-uran-6g")), a.vlanId.GetOr(Num(200.0)),
                  a.rateMbps.GetOr(Num(1000.0)))]
    case NoGate => []
  }

  function AllCalls(device: Json, actions: seq<Rule>): seq<TfsCall> {
    if actions == [] then [] else AllCalls(device, actions[..|actions| - 1]) + CallsOf(device, actions[|actions| - 1])
  }

  predicate IsSafeCall(c: TfsCall) {
    match c
    case SetAcmFloor(_, mcs) => InEnvelope(FloorGate, mcs)
    case SetRadioTuning(_, ghz, _) => InEnvelope(CarrierGate, ghz)
    case SetSliceQos(_, _, _, rate) => InEnvelope(RateGate, rate)
  }

  predicate SetsNaN(c: TfsCall) {
    (c.SetAcmFloor? && c.minMcs == Number(NaN)) || (c.SetSliceQos? && c.rateMbps == Number(NaN))
  }

  /** Of the calls of accepted actions, those outside the envelope are the ones that set a rate or floor to NaN. */
  lemma {:induction false} UnsafeCallsSetNaN(device: Json, actions: seq<Rule>)
    requires AllAccepted(actions)
    ensures forall c :: c in AllCalls(device, actions) ==> (IsSafeCall(c) <==> !SetsNaN(c))
  {
    if actions != [] {
      var init, a := actions[..|actions| - 1], actions[|actions| - 1];
      assert actions == init + [a];
      UnsafeCallsSetNaN(device, init);
      GateAcceptsExactly(a);
    }
  }

  /** An accepted plan may set a slice rate to NaN. */
  lemma NaNRateIsSent(device: Json)
    ensures var plan := [PlainRule("DYNAMIC_QOS_SLICING", Null).(rateMbps := Some(Number(NaN)))];
            && AllAccepted(plan)
            && AllCalls(device, plan) == [SetSliceQos(device, Str("slice-uran-6g"), Num(200.0), Number(NaN))]
            && !IsSafeCall(AllCalls(device, plan)[0])
  {
    var plan := [PlainRule("DYNAMIC_QOS_SLICING", Null).(rateMbps := Some(Number(NaN)))];
    assert plan[..0] == [];
  }

  datatype NdtiState = Synchronized | ExecutingExperiment

  class Twin {
    var state: NdtiState
    var telemetry: Telemetry
    var scenarios: map<string, Scenario>
    var sent: seq<TfsCall>

    /** A call ever sent is outside the envelope exactly when it sets a rate or an MCS floor to NaN. */
    ghost predicate Valid()
      reads this
    {
      forall c :: c in sent ==> (IsSafeCall(c) <==> !SetsNaN(c))
    }

    constructor (t: Telemetry)
      ensures Valid() && sent == [] && telemetry == t && scenarios == map[]
    {
      state, telemetry, scenarios, sent := Synchronized, t, map[], [];
    }

    /** A perturbation that cannot be evaluated ends the call with the twin still marked as experimenting. */
    method ExecuteWhatIfScenario(id: string, perturbations: seq<Perturbation>) returns (r: Option<Scenario>)
      requires Valid()
      modifies this`state, this`scenarios
      ensures Valid()
      ensures r.None? <==> exists p :: p in perturbations && !Evaluable(p)
      ensures r.None? ==> state == ExecutingExperiment && scenarios == old(scenarios)
      ensures r.Some? ==> state == Synchronized && scenarios == old(scenarios)[id := r.value]
      ensures r.Some? ==>
                && Evaluated(telemetry, perturbations).Some?
                && r.value.impacts == Evaluated(telemetry, perturbations).value.impacts
                && (r.value.overallBreach <==> AnyBreach(r.value.impacts))
                && r.value.proposedRules == Deduplicated(Evaluated(telemetry, perturbations).value.rules)
    {
      state := ExecutingExperiment;
      var evaluated, overall := EvaluateAll(telemetry, perturbations);
      ScenarioFailsExactly(telemetry, perturbations);
      if evaluated.None? {
        return None;
      }
      var unique := Deduplicate(evaluated.value.rules);
      r := Some(Scenario(evaluated.value.impacts, overall, unique));
      scenarios := scenarios[id := r.value];
      state := Synchronized;
    }

    /** `answered` is the number of calls the client answers before it raises, if it does. */
    method ValidateAndCloseLoop(device: Json, actions: seq<Rule>, answered: Option<nat>) returns (r: LoopOutcome)
      requires Valid()
      modifies this`sent
      ensures Valid()
      ensures r.Incomparable? <==> exists a :: a in actions && !IsComparable(a)
      ensures r.Refused? <==> !r.Incomparable? && !AllAccepted(actions)
      ensures r.Applied? <==> AllAccepted(actions) && (answered.None? || |AllCalls(device, actions)| <= answered.value)
      ensures sent == old(sent) +
                      match r
                      case Incomparable => []
                      case Refused => []
                      case Applied => AllCalls(device, actions)
                      case Raised => AllCalls(device, actions)[..answered.value]
    {
      var safe := Validate(actions);
      if safe.None? {
        return Incomparable;
      }
      if !safe.value {
        return Refused;
      }
      UnsafeCallsSetNaN(device, actions);
      var calls, raised := Dispatch(device, actions, answered);
      sent := sent + calls;
      return if raised then Raised else Applied;
    }
  }

  /** Incomparable and Raised are exceptions, from the gate and from the client. */
  datatype LoopOutcome = Incomparable | Refused | Applied | Raised

  lemma {:induction false} CallsOfPrefix(device: Json, actions: seq<Rule>, i: nat)
    requires i <= |actions|
    ensures AllCalls(device, actions[..i]) <= AllCalls(device, actions)
    decreases |actions|
  {
    if i < |actions| {
      var init := actions[..|actions| - 1];
      assert init[..i] == actions[..i];
      CallsOfPrefix(device, init, i);
    } else {
      assert actions[..i] == actions;
    }
  }

  lemma DispatchStep(device: Json, actions: seq<Rule>, i: nat)
    requires i < |actions|
    ensures AllCalls(device, actions[..i + 1]) == AllCalls(device, actions[..i]) + CallsOf(device, actions[i])
    ensures |CallsOf(device, actions[i])| <= 1
  {
    assert actions[..i + 1][..i] == actions[..i];
  }

  lemma DispatchRaises(device: Json, actions: seq<Rule>, i: nat, n: nat)
    requires i < |actions| && n == |AllCalls(device, actions[..i])| && CallsOf(device, actions[i]) != []
    ensures n < |AllCalls(device, actions)| && AllCalls(device, actions)[..n] == AllCalls(device, actions[..i])
  {
    DispatchStep(device, actions, i);
    CallsOfPrefix(device, actions, i + 1);
  }

  /** The dispatch loop: the calls made before it ends or the client raises. */
  method Dispatch(device: Json, actions: seq<Rule>, answered: Option<nat>)
    returns (calls: seq<TfsCall>, raised: bool)
    ensures raised <==> answered.Some? && answered.value < |AllCalls(device, actions)|
    ensures calls == if raised then AllCalls(device, actions)[..answered.value] else AllCalls(device, actions)
  {
    calls := [];
    for i := 0 to |actions|
      invariant calls == AllCalls(device, actions[..i])
      invariant answered.Some? ==> |calls| <= answered.value
    {
      DispatchStep(device, actions, i);
      var next := CallsOf(device, actions[i]);
      if next != [] && answered == Some(|calls|) {
        DispatchRaises(device, actions, i, |calls|);
        return calls, true;
      }
      calls := calls + next;
    }
    assert actions[..|actions|] == actions;
    return calls, false;
  }

  /** The gate looks at every action, so one that cannot be compared raises even after one that is refused. */
  method Validate(actions: seq<Rule>) returns (safe: Option<bool>)
    ensures safe.None? <==> exists a :: a in actions && !IsComparable(a)
    ensures safe.Some? ==> (safe.value <==> AllAccepted(actions))
  {
    var passed := true;
    for i := 0 to |actions|
      invariant forall a :: a in actions[..i] ==> IsComparable(a)
      invariant passed <==> AllAccepted(actions[..i])
    {
      assert actions[..i + 1] == actions[..i] + [actions[i]];
      if !IsComparable(actions[i]) {
        return None;
      }
      if !IsAccepted(actions[i]) {
        passed := false;
      }
    }
    assert actions[..|actions|] == actions;
    return Some(passed);
  }

  /** The branch of one domain: what it adds, and whether it raises the overall flag. */
  method EvaluateDomain(d: Domain, p: Perturbation, baseSnr: real) returns (e: Option<Evaluation>, breach: bool)
    ensures e == EvaluateIn(d, p, baseSnr)
    ensures e.Some? ==> (breach <==> AnyBreach(e.value.impacts))
  {
    breach := false;
    e := EvaluateIn(d, p, baseSnr);
    if e.None? {
      return;
    }
    match d {
      case Traffic =>
        if TrafficBreaches(Converted(p.trafficMultiplier, 3.0).value) { breach := true; }
      case Admission =>
        if !CanAdmit(Converted(p.bandwidthMbps, 400.0).value) { breach := true; }
      case Resilience =>
      case Energy =>
      case Ignored =>
      case _ =>
        var snr := PredictedSnr(Attenuation(d, p).value, baseSnr);
        if !AtMost(Finite(7.0), snr) { breach := true; }
        if FadeBreaches(snr) { breach := true; }
    }
    assert |e.value.impacts| > 0 ==> e.value.impacts[0] in e.value.impacts;
  }

  /** One turn of the evaluation loop. */
  method EvaluateOne(t: Telemetry, p: Perturbation) returns (e: Option<Evaluation>, breach: bool)
    ensures e == Evaluate(t, p)
    ensures e.Some? ==> (breach <==> AnyBreach(e.value.impacts))
  {
    var d := DomainIn(p);
    if d.None? || !IsHashable(TargetOf(p)) {
      return None, false;
    }
    e, breach := EvaluateDomain(d.value, p, BaseSnr(t, TargetOf(p)));
  }

  lemma EvaluateStep(t: Telemetry, ps: seq<Perturbation>, i: nat)
    requires i < |ps|
    requires Evaluated(t, ps[..i]).Some?
    ensures var before, now := Evaluated(t, ps[..i]).value, Evaluate(t, ps[i]);
            Evaluated(t, ps[..i + 1]) ==
            if now.None? then None
            else Some(Evaluation(before.impacts + now.value.impacts, before.rules + now.value.rules))
  {
    assert ps[..i + 1][..i] == ps[..i];
  }

  lemma BreachConcat(a: seq<Impact>, b: seq<Impact>)
    ensures AnyBreach(a + b) <==> AnyBreach(a) || AnyBreach(b)
  {
    assert forall i :: i in a + b <==> i in a || i in b;
  }

  method EvaluateAll(t: Telemetry, perturbations: seq<Perturbation>)
    returns (e: Option<Evaluation>, overall: bool)
    ensures e == Evaluated(t, perturbations)
    ensures e.Some? ==> (overall <==> AnyBreach(e.value.impacts))
  {
    var impacts, rules := [], [];
    overall := false;
    for i := 0 to |perturbations|
      invariant Evaluated(t, perturbations[..i]) == Some(Evaluation(impacts, rules))
      invariant overall <==> AnyBreach(impacts)
    {
      EvaluateStep(t, perturbations, i);
      var one, breach := EvaluateOne(t, perturbations[i]);
      if one.None? {
        FailedPrefix(t, perturbations, i + 1);
        return None, overall;
      }
      BreachConcat(impacts, one.value.impacts);
      overall := overall || breach;
      impacts := impacts + one.value.impacts;
      rules := rules + one.value.rules;
    }
    assert perturbations[..|perturbations|] == perturbations;
    return Some(Evaluation(impacts, rules)), overall;
  }

  method Deduplicate(rules: seq<Rule>) returns (unique: seq<Rule>)
    ensures unique == Deduplicated(rules)
  {
    unique := [];
    var seen: set<string> := {};
    for i := 0 to |rules|
      invariant unique == Deduplicated(rules[..i])
      invariant forall kind :: kind in seen <==> FirstOfKind(rules[..i], kind).Some?
    {
      assert rules[..i + 1][..i] == rules[..i];
      assert rules[..i + 1] == rules[..i] + [rules[i]];
      forall kind
        ensures FirstOfKind(rules[..i + 1], kind).Some? <==>
                FirstOfKind(rules[..i], kind).Some? || kind == rules[i].kind
      {
        FirstOfKindAppend(rules[..i], rules[i], kind);
      }
      if rules[i].kind !in seen {
        unique := unique + [rules[i]];
        seen := seen + {rules[i].kind};
      }
    }
    assert rules[..|rules|] == rules;
  }

  // ----- the evaluator against the gate -----

  /** The bandwidth of a slice request that is admitted. */
  function AdmittedIn(d: Domain, p: Perturbation): Option<Float> {
    var mbps := Converted(p.bandwidthMbps, 400.0);
    if d.Admission? && mbps.Some? && CanAdmit(mbps.value) then mbps else None
  }

  function AdmittedOf(p: Perturbation): Option<Float> {
    if DomainIn(p).Some? then AdmittedIn(DomainIn(p).value, p) else None
  }

  /** The bandwidth of the first slice request that is admitted. */
  function FirstAdmitted(ps: seq<Perturbation>): Option<Float> {
    if ps == [] then None
    else
      var before := FirstAdmitted(ps[..|ps| - 1]);
      if before.Some? then before else AdmittedOf(ps[|ps| - 1])
  }

  lemma {:induction false} FirstOfKindConcat(a: seq<Rule>, b: seq<Rule>, kind: string)
    ensures FirstOfKind(a + b, kind) ==
            if FirstOfKind(a, kind).Some? then FirstOfKind(a, kind) else FirstOfKind(b, kind)
  {
    if a == [] {
      assert a + b == b;
    } else {
      FirstOfKindConcat(a[1..], b, kind);
      assert (a + b)[1..] == a[1..] + b;
    }
  }

  const RESERVATION: string := "URLLC_SLICE_RESERVATION"

  function ReservedRate(r: Option<Rule>): Option<Json> {
    if r.None? then None else r.value.rateMbps
  }

  /** The reservation rules are for the given bandwidth, at most what is available; all others are accepted. */
  ghost predicate RulesAre(rules: seq<Rule>, reserved: Option<Float>) {
    && ReservedRate(FirstOfKind(rules, RESERVATION)) == (if reserved.None? then None else Some(Number(reserved.value)))
    && forall r :: r in rules ==>
         if r.kind == RESERVATION then
           r.rateMbps.Some? && r.rateMbps.value.Number? && CanAdmit(r.rateMbps.value.value)
         else IsAccepted(r)
  }

  lemma SurgeRulesAre(target: Json)
    ensures RulesAre(SurgeRules(target), None)
  {
    FirstOfTwo(SurgeRules(target)[0], SurgeRules(target)[1], RESERVATION);
  }

  lemma FadeRulesAre()
    ensures RulesAre(FadeRules(), None)
  {
    FirstOfTwo(FadeRules()[0], FadeRules()[1], RESERVATION);
  }

  lemma OneRuleIs(r: Rule)
    requires r.kind != RESERVATION && IsAccepted(r)
    ensures RulesAre([r], None)
  {
    assert [r][1..] == [];
  }

  lemma UngatedRulesAre(kind: string, target: Json)
    requires kind == "CSPF_REROUTE_OPTIMIZATION" || kind == "ENERGY_SLEEP_POLICY_ACTIVATE"
    ensures RulesAre([PlainRule(kind, target)], None)
  {
    OneRuleIs(PlainRule(kind, target));
  }

  lemma ReservationRuleIs(p: Perturbation, mbps: Float)
    requires CanAdmit(mbps)
    ensures RulesAre([ReservationRule(p, mbps)], Some(mbps))
  {
  }

  lemma {:induction false} RulesIn(d: Domain, p: Perturbation, baseSnr: real)
    requires EvaluateIn(d, p, baseSnr).Some?
    ensures RulesAre(EvaluateIn(d, p, baseSnr).value.rules, AdmittedIn(d, p))
  {
    match d
    case Traffic => SurgeRulesAre(TargetOf(p));
    case Resilience => UngatedRulesAre("CSPF_REROUTE_OPTIMIZATION", p.linkId.GetOr(Str("link-ctu96-ctu97")));
    case Energy => UngatedRulesAre("ENERGY_SLEEP_POLICY_ACTIVATE", TargetOf(p));
    case Admission =>
      var mbps := Converted(p.bandwidthMbps, 400.0).value;
      if CanAdmit(mbps) {
        ReservationRuleIs(p, mbps);
      }
    case Ignored =>
    case _ => FadeRulesAre();
  }

  lemma {:induction false} RulesAreConcat(a: seq<Rule>, b: seq<Rule>, first: Option<Float>, next: Option<Float>)
    requires RulesAre(a, first) && RulesAre(b, next)
    ensures RulesAre(a + b, if first.Some? then first else next)
  {
    FirstOfKindConcat(a, b, RESERVATION);
    FirstOfKindFinds(a, RESERVATION);
  }

  lemma FirstOfTwo(a: Rule, b: Rule, kind: string)
    ensures FirstOfKind([a, b], kind) == if a.kind == kind then Some(a) else if b.kind == kind then Some(b) else None
  {
    assert [a, b][1..] == [b] && [b][1..] == [];
    assert FirstOfKind([b], kind) == if b.kind == kind then Some(b) else None;
  }

  lemma {:induction false} RulesOfAll(t: Telemetry, ps: seq<Perturbation>)
    requires Evaluated(t, ps).Some?
    ensures RulesAre(Evaluated(t, ps).value.rules, FirstAdmitted(ps))
  {
    if ps != [] {
      var init, p := ps[..|ps| - 1], ps[|ps| - 1];
      RulesOfAll(t, init);
      RulesIn(DomainIn(p).value, p, BaseSnr(t, TargetOf(p)));
      RulesAreConcat(Evaluated(t, init).value.rules, Evaluate(t, p).value.rules, FirstAdmitted(init), AdmittedOf(p));
    }
  }

  lemma ReservationPassesExactly(r: Rule, mbps: Float)
    requires r.kind == RESERVATION && r.rateMbps == Some(Number(mbps)) && CanAdmit(mbps)
    ensures IsAccepted(r) <==> Less(Finite(0.0), mbps)
  {
  }

  lemma {:induction false} RulesPassExactly(rules: seq<Rule>, first: Option<Float>)
    requires RulesAre(rules, first)
    ensures AllAccepted(Deduplicated(rules)) <==> (first.Some? ==> Less(Finite(0.0), first.value))
  {
    DeduplicationKeepsFirsts(rules);
    FirstOfKindFinds(rules, RESERVATION);
    if first.Some? {
      var reservation := FirstOfKind(rules, RESERVATION).value;
      ReservationPassesExactly(reservation, first.value);
      assert reservation in Deduplicated(rules);
    }
    forall r | r in Deduplicated(rules)
      ensures if r.kind == RESERVATION then Some(r) == FirstOfKind(rules, RESERVATION) else IsAccepted(r)
    {
      FirstOfKindFinds(rules, r.kind);
    }
  }

  /**
   The rules a scenario proposes pass the gate exactly when the first slice request it admitted, if any,
   asks for positive bandwidth.
   */
  lemma ProposalsPassTheGateExactly(t: Telemetry, ps: seq<Perturbation>)
    requires Evaluated(t, ps).Some?
    ensures var first := FirstAdmitted(ps);
            AllAccepted(Deduplicated(Evaluated(t, ps).value.rules)) <==>
            (first.Some? ==> Less(Finite(0.0), first.value))
  {
    RulesOfAll(t, ps);
    RulesPassExactly(Evaluated(t, ps).value.rules, FirstAdmitted(ps));
  }

  lemma LoadIsModerate(multiplier: Float)
    requires !Less(multiplier, Finite(0.0))
    ensures SimulatedLoad(multiplier).Finite? && 0.0 <= SimulatedLoad(multiplier).value <= 0.98
  {
  }

  lemma LoadBreaches(load: Float)
    requires load.Finite? && 0.0 <= load.value <= 0.98
    ensures Less(Finite(2.0), TrafficLatency(load))
  {
    var room := Max(Finite(0.02), Minus(Finite(1.0), load));
    QuotientAtLeast(2.5, room.value, 2.5);
  }

  lemma LowSnrBreaches(snr: Float)
    requires snr.Finite? && 2.0 <= snr.value <= DEFAULT_SNR
    ensures Less(Finite(2.0), FadeLatency(snr))
  {
    QuotientAtLeast(30.0, snr.value + 1.0, 1.2);
  }

  lemma FadeLowersSnr(attenuation: Float, baseSnr: real)
    requires baseSnr <= DEFAULT_SNR && !Less(attenuation, Finite(0.0))
    ensures PredictedSnr(attenuation, baseSnr).Finite? && 2.0 <= PredictedSnr(attenuation, baseSnr).value <= DEFAULT_SNR
  {
  }

  /** Every surge that is not negative, and every such fade from a nominal SNR or worse, is predicted to breach. */
  lemma SurgesAndFadesBreach(multiplier: Float, attenuation: Float, baseSnr: real)
    ensures !Less(multiplier, Finite(0.0)) ==> TrafficBreaches(multiplier)
    ensures baseSnr <= DEFAULT_SNR && !Less(attenuation, Finite(0.0)) ==>
              FadeBreaches(PredictedSnr(attenuation, baseSnr))
  {
    if !Less(multiplier, Finite(0.0)) {
      LoadIsModerate(multiplier);
      LoadBreaches(SimulatedLoad(multiplier));
    }
    if baseSnr <= DEFAULT_SNR && !Less(attenuation, Finite(0.0)) {
      FadeLowersSnr(attenuation, baseSnr);
      LowSnrBreaches(PredictedSnr(attenuation, baseSnr));
    }
  }

  lemma QuotientAtLeast(a: real, b: real, q: real)
    requires b > 0.0 && q * b <= a
    ensures a / b >= q
  {
    var x := a / b;
    assert x * b == a;
    SameSign(x - q, b);
    assert (x - q) * b == a - q * b;
  }

  lemma SameSign(x: real, b: real)
    requires b > 0.0
    ensures x * b >= 0.0 <==> x >= 0.0
  {
  }
}
