/** The digital twin by the words of its requests: what each type of perturbation and of action comes to. */
module TwinRequests {
  import opened Common
  import opened JsonValues
  import opened DigitalTwin

  // ----- actions, by type -----

  /** A number, as JSON has it, between two bounds; true counts as 1 and false as 0. */
  predicate IsBetween(j: Json, low: real, high: real) {
    || (j.Number? && j.value.Finite? && low <= j.value.value <= high)
    || (j == Bool(true) && low <= 1.0 <= high)
    || (j == Bool(false) && low <= 0.0 <= high)
  }

  predicate IsNumeric(j: Json) {
    j.Number? || j.Bool?
  }

  /** An MCS floor is accepted from 0 to 12, and as NaN, and set as it is. */
  lemma FloorAction(device: Json, a: Rule)
    requires a.kind == "ACM_FLOOR_HARDENING"
    ensures var floor := a.minMcs.GetOr(Num(2.0));
            && (IsComparable(a) <==> IsNumeric(floor))
            && (IsAccepted(a) <==> IsBetween(floor, 0.0, 12.0) || floor == Number(NaN))
            && CallsOf(device, a) == [SetAcmFloor(device, floor)]
  {
  }

  /** A carrier is accepted from 57 to 71 GHz, and the radio tuned to it. */
  lemma CarrierAction(device: Json, a: Rule)
    requires a.kind == "CARRIER_FREQUENCY_RETUNE"
    ensures var ghz := a.targetGhz.GetOr(Num(64.8));
            && (IsComparable(a) <==> IsNumeric(ghz))
            && (IsAccepted(a) <==> IsBetween(ghz, 57.0, 71.0))
            && CallsOf(device, a) == [SetRadioTuning(device, ghz, a.bandwidthMhz.GetOr(Num(2000.0)))]
  {
  }

  /** A slice is accepted with a positive rate up to 10000 Mbps, and as NaN, and its QoS set. */
  lemma SliceAction(device: Json, a: Rule)
    requires a.kind == "URLLC_SLICE_RESERVATION" || a.kind == "DYNAMIC_QOS_SLICING"
    ensures var rate := a.rateMbps.GetOr(Num(1000.0));
            && (IsComparable(a) <==> IsNumeric(rate))
            && (IsAccepted(a) <==>
                (IsBetween(rate, 0.0, 10000.0) && rate != Num(0.0) && rate != Bool(false)) || rate == Number(NaN))
            && CallsOf(device, a) == [
                 SetSliceQos(device, a.sliceId.GetOr(Str("slice-uran-6g")), a.vlanId.GetOr(Num(200.0)), rate)]
  {
  }

  /** Any other action is accepted and sends nothing. */
  lemma OtherAction(device: Json, a: Rule)
    requires a.kind !in ["ACM_FLOOR_HARDENING", "CARRIER_FREQUENCY_RETUNE", "URLLC_SLICE_RESERVATION",
                         "DYNAMIC_QOS_SLICING"]
    ensures IsComparable(a) && IsAccepted(a) && CallsOf(device, a) == []
  {
  }

  lemma {:induction false} AllCallsAppend(device: Json, actions: seq<Rule>, a: Rule)
    ensures AllCalls(device, actions + [a]) == AllCalls(device, actions) + CallsOf(device, a)
  {
    assert (actions + [a])[..|actions|] == actions;
  }

  lemma AppendAfter<T>(a: seq<T>, b: seq<T>, x: seq<T>, whole: seq<T>, init: seq<T>, rest: seq<T>)
    requires whole == init + x && init == a + b && rest == b + x
    ensures whole == a + rest
  {
  }

  /** The calls of a plan are those of its actions, one after the other. */
  lemma {:induction false} AllCallsConcat(device: Json, a: seq<Rule>, b: seq<Rule>)
    ensures AllCalls(device, a + b) == AllCalls(device, a) + AllCalls(device, b)
  {
    if b == [] {
      assert a + b == a;
    } else {
      var init, x := b[..|b| - 1], b[|b| - 1];
      assert b == init + [x] && a + b == (a + init) + [x];
      AllCallsConcat(device, a, init);
      AllCallsAppend(device, a + init, x);
      AllCallsAppend(device, init, x);
      AppendAfter(AllCalls(device, a), AllCalls(device, init), CallsOf(device, x), AllCalls(device, a + b),
                  AllCalls(device, a + init), AllCalls(device, b));
    }
  }

  // ----- thresholds -----

  lemma QuotientExceeds(a: real, b: real, q: real)
    requires b > 0.0
    ensures a / b > q <==> a > q * b
  {
    var x := a / b;
    assert x * b == a;
    SameSign(q - x, b);
    assert (q - x) * b == q * b - a;
  }

  lemma LoadBreachesExactly(load: Float)
    requires load.Finite? && load.value <= 0.98
    ensures Less(Finite(2.0), TrafficLatency(load)) <==> -27.0 < 23.0 * load.value
  {
    var room := Max(Finite(0.02), Minus(Finite(1.0), load));
    QuotientExceeds(2.5, room.value, 1.15);
  }

  lemma LossBreachesLate(load: Float)
    requires load.Finite? && Less(Finite(0.001), TrafficLoss(load))
    ensures load.value >= 0.85
  {
  }

  /** A surge breaches the SLA unless its multiplier is -540/161, about -3.35, or less; so every real surge does. */
  lemma SurgeBreachesExactly(multiplier: Float)
    ensures TrafficBreaches(multiplier) <==>
            multiplier.NaN? || multiplier.PosInf? || (multiplier.Finite? && -540.0 < 161.0 * multiplier.value)
  {
    var load := SimulatedLoad(multiplier);
    if load.Finite? {
      LoadBreachesExactly(load);
      if Less(Finite(0.001), TrafficLoss(load)) { LossBreachesLate(load); }
    }
  }

  /** A fade breaches the SLA exactly below an SNR of 577/23, about 25.09 dB. */
  lemma FadeBreachesExactly(snr: Float)
    requires AtMost(Finite(2.0), snr)
    ensures FadeBreaches(snr) <==> snr.Finite? && 23.0 * snr.value < 577.0
  {
    if snr.Finite? {
      QuotientExceeds(30.0, snr.value + 1.0, 1.15);
    }
  }

  // ----- perturbations, by type -----

  /** The type of a perturbation, as a text; traffic_surge if none is given. */
  predicate IsOfType(p: Perturbation, kinds: seq<string>) {
    if p.kind.None? then "traffic_surge" in kinds else p.kind.value.Text? && p.kind.value.text in kinds
  }

  const SURGES: seq<string> := ["traffic_surge", "congestion", "microburst"]
  const FAILURES: seq<string> := ["link_failure", "fiber_cut", "interface_down"]
  const SLEEPS: seq<string> := ["energy_saving_sleep", "green_sleep_mode", "carrier_shutdown"]
  const ADMISSIONS: seq<string> := ["slice_admission", "admission_control"]
  const RAINS: seq<string> := ["rain_fade", "channel_degradation"]

  /** The SNR synchronised for the device, or 24 dB. */
  function MeasuredSnr(t: Telemetry, p: Perturbation): real {
    var device := if p.device.Some? then p.device.value else Str("f676623c-1a65-54bd-b1e8-279c8a6d8a1c");
    if device.Text? && device.text in t then t[device.text] else 24.0
  }

  /** What is left of it: never below 2 dB. */
  function SnrAfter(t: Telemetry, p: Perturbation, loss: Float): Float {
    match loss
    case Finite(x) => Finite(if MeasuredSnr(t, p) - x > 2.0 then MeasuredSnr(t, p) - x else 2.0)
    case NegInf => PosInf
    case _ => Finite(2.0)
  }

  lemma SnrIs(t: Telemetry, p: Perturbation, loss: Float)
    ensures PredictedSnr(loss, BaseSnr(t, TargetOf(p))) == SnrAfter(t, p, loss)
  {
  }

  /** The one impact, flagged or not, and the types of the rules recommended. */
  ghost predicate Recommends(e: Option<Evaluation>, breach: bool, kinds: seq<string>) {
    && e.Some? && |e.value.impacts| == 1 && e.value.impacts[0].breach == breach
    && |e.value.rules| == |kinds| && forall i :: 0 <= i < |kinds| ==> e.value.rules[i].kind == kinds[i]
  }

  lemma SurgeTypes(p: Perturbation)
    requires IsOfType(p, SURGES)
    ensures DomainIn(p) == Some(Traffic)
  {
  }

  lemma FailureTypes(p: Perturbation)
    requires IsOfType(p, FAILURES)
    ensures DomainIn(p) == Some(Resilience)
  {
  }

  lemma SleepTypes(p: Perturbation)
    requires IsOfType(p, SLEEPS)
    ensures DomainIn(p) == Some(Energy)
  {
  }

  lemma AdmissionTypes(p: Perturbation)
    requires IsOfType(p, ADMISSIONS)
    ensures DomainIn(p) == Some(Admission)
  {
  }

  lemma LossTypes(p: Perturbation)
    requires IsOfType(p, ["los_blockage", "beam_mispointing"])
    ensures DomainIn(p) == Some(if IsOfType(p, ["los_blockage"]) then Blockage else Mispointing)
  {
  }

  lemma RainTypes(p: Perturbation)
    requires IsOfType(p, RAINS)
    ensures DomainIn(p) == Some(Rain)
  {
  }

  lemma EvaluateIs(t: Telemetry, p: Perturbation, d: Domain)
    requires Evaluable(p) && DomainIn(p) == Some(d)
    ensures Evaluate(t, p) == EvaluateIn(d, p, BaseSnr(t, TargetOf(p))) && Evaluate(t, p).Some?
  {
    EvaluationFailsExactly(t, p);
  }

  /** A surge is flagged by its multiplier, 3 by default, and answered by 1200 Mbps of QoS and queue management. */
  lemma SurgeRequest(t: Telemetry, p: Perturbation)
    requires Evaluable(p) && IsOfType(p, SURGES)
    ensures var multiplier := FloatOf(p.trafficMultiplier.GetOr(Num(3.0)));
            && multiplier.Some?
            && Recommends(Evaluate(t, p), TrafficBreaches(multiplier.value),
                          ["DYNAMIC_QOS_SLICING", "QUEUE_DISCIPLINE_OPTIMIZE"])
            && var rules := Evaluate(t, p).value.rules;
               && rules[0].rateMbps == Some(Num(1200.0)) && rules[0].sliceId == Some(Str("slice-uran-6g"))
               && rules[1].target == TargetOf(p)
  {
    SurgeTypes(p);
    EvaluateIs(t, p, Traffic);
  }

  /** A cut is protected and never flagged; the route around the failed link is recomputed. */
  lemma FailureRequest(t: Telemetry, p: Perturbation)
    requires Evaluable(p) && IsOfType(p, FAILURES)
    ensures Recommends(Evaluate(t, p), false, ["CSPF_REROUTE_OPTIMIZATION"])
    ensures Evaluate(t, p).value.rules[0].target == p.linkId.GetOr(Str("link-ctu96-ctu97"))
  {
    FailureTypes(p);
    EvaluateIs(t, p, Resilience);
  }

  /** Nor is putting sectors to sleep. */
  lemma SleepRequest(t: Telemetry, p: Perturbation)
    requires Evaluable(p) && IsOfType(p, SLEEPS)
    ensures Recommends(Evaluate(t, p), false, ["ENERGY_SLEEP_POLICY_ACTIVATE"])
    ensures Evaluate(t, p).value.rules[0].target == TargetOf(p)
  {
    SleepTypes(p);
    EvaluateIs(t, p, Energy);
  }

  /** One request, and what is reserved for it if it fits. */
  ghost predicate Reserves(e: Option<Evaluation>, p: Perturbation, mbps: Float) {
    var fits := mbps.NegInf? || (mbps.Finite? && mbps.value <= 850.0);
    && Recommends(e, !fits, if fits then ["URLLC_SLICE_RESERVATION"] else [])
    && (fits ==>
          var rule := e.value.rules[0];
          && rule.rateMbps == Some(Number(mbps)) && rule.vlanId == Some(Num(210.0))
          && rule.target == p.sliceId.GetOr(Str("slice-smartgrid-teleprotection")))
  }

  lemma AdmissionBranch(p: Perturbation, baseSnr: real)
    requires EvaluateIn(Admission, p, baseSnr).Some?
    ensures var mbps := FloatOf(p.bandwidthMbps.GetOr(Num(400.0)));
            mbps.Some? && Reserves(EvaluateIn(Admission, p, baseSnr), p, mbps.value)
  {
  }

  /** A slice request is flagged exactly if it asks for more than 850 Mbps; otherwise just that is reserved. */
  lemma AdmissionRequest(t: Telemetry, p: Perturbation)
    requires Evaluable(p) && IsOfType(p, ADMISSIONS)
    ensures var mbps := FloatOf(p.bandwidthMbps.GetOr(Num(400.0)));
            mbps.Some? && Reserves(Evaluate(t, p), p, mbps.value)
  {
    AdmissionTypes(p);
    EvaluateIs(t, p, Admission);
    AdmissionBranch(p, BaseSnr(t, TargetOf(p)));
  }

  /** A fade, flagged or not, is answered by a floor of MCS 2 and a carrier of 64.8 GHz and 2 GHz bandwidth. */
  ghost predicate Hardens(e: Option<Evaluation>, breach: bool) {
    && Recommends(e, breach, ["ACM_FLOOR_HARDENING", "CARRIER_FREQUENCY_RETUNE"])
    && e.value.rules[0].minMcs == Some(Num(2.0))
    && e.value.rules[1].targetGhz == Some(Num(64.8)) && e.value.rules[1].bandwidthMhz == Some(Num(2000.0))
  }

  lemma FadeBranch(t: Telemetry, p: Perturbation, d: Domain)
    requires d.Blockage? || d.Mispointing? || d.Rain?
    requires EvaluateIn(d, p, BaseSnr(t, TargetOf(p))).Some?
    ensures Attenuation(d, p).Some?
    ensures var snr := SnrAfter(t, p, Attenuation(d, p).value);
            AtMost(Finite(2.0), snr) && Hardens(EvaluateIn(d, p, BaseSnr(t, TargetOf(p))), FadeBreaches(snr))
  {
    SnrIs(t, p, Attenuation(d, p).value);
  }

  /** An obstacle takes 22.5 dB by default, a mispointed beam 14.2; what is left decides. */
  lemma LossRequest(t: Telemetry, p: Perturbation)
    requires Evaluable(p) && IsOfType(p, ["los_blockage", "beam_mispointing"])
    ensures var loss := if IsOfType(p, ["los_blockage"]) then FloatOf(p.obstacleDb.GetOr(Num(22.5)))
                        else FloatOf(p.mispointingDb.GetOr(Num(14.2)));
            && loss.Some?
            && AtMost(Finite(2.0), SnrAfter(t, p, loss.value))
            && Hardens(Evaluate(t, p), FadeBreaches(SnrAfter(t, p, loss.value)))
  {
    LossTypes(p);
    EvaluateIs(t, p, DomainIn(p).value);
    FadeBranch(t, p, DomainIn(p).value);
  }

  /** What rain takes from the SNR decides. */
  lemma RainRequest(t: Telemetry, p: Perturbation)
    requires Evaluable(p) && IsOfType(p, RAINS)
    ensures Attenuation(Rain, p).Some?
    ensures var snr := SnrAfter(t, p, Attenuation(Rain, p).value);
            AtMost(Finite(2.0), snr) && Hardens(Evaluate(t, p), FadeBreaches(snr))
  {
    RainTypes(p);
    EvaluateIs(t, p, Rain);
    FadeBranch(t, p, Rain);
  }

  /** It takes 0.85 dB per km, 0.8 km by default, times the power of its rate. */
  lemma RainTakes(p: Perturbation)
    requires Attenuation(Rain, p).Some?
    ensures var km := FloatOf(p.linkDistance.GetOr(Num(0.8)));
            km.Some? && Attenuation(Rain, p).value == Times(Times(Finite(0.85), p.rainPower), km.value)
  {
  }

  lemma OtherTypes(p: Perturbation)
    requires Evaluable(p)
    requires !IsOfType(p, SURGES) && !IsOfType(p, FAILURES) && !IsOfType(p, SLEEPS) && !IsOfType(p, ADMISSIONS)
    requires !IsOfType(p, RAINS) && !IsOfType(p, ["los_blockage", "beam_mispointing"])
    ensures DomainIn(p) == Some(Ignored)
  {
  }

  /** A perturbation of any other type leaves no trace. */
  lemma OtherRequest(t: Telemetry, p: Perturbation)
    requires Evaluable(p)
    requires !IsOfType(p, SURGES) && !IsOfType(p, FAILURES) && !IsOfType(p, SLEEPS) && !IsOfType(p, ADMISSIONS)
    requires !IsOfType(p, RAINS) && !IsOfType(p, ["los_blockage", "beam_mispointing"])
    ensures Evaluate(t, p) == Some(Evaluation([], []))
  {
    OtherTypes(p);
    EvaluateIs(t, p, Ignored);
  }
}
