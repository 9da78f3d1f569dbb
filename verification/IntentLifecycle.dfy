/**
 The life of an intent: submission, approval, deletion and the service-DLC calls
 of cer_intent/api/server.py, and the reconciler of
 cer_intent/assurance/reconciler.py.  Each call is one step.  What the parser,
 validator, translator, conflict fabric and adapter answer is input.
 */
module IntentLifecycle {
  import opened Common

  datatype Status =
    | Pending | Parsing | Validated | AwaitingApproval | Translating | Applying
    | Applied | Drift | Remediated | Failed | Expired

  datatype State3gpp = Preparation | Commissioning | Operation | Decommissioning

  datatype ServiceDlc = Activation | Running | Paused | Suspended | Closed

  datatype Verdict = Allow | Modify | Defer | Deny

  /** `verdict` is the conflict fabric's last answer about the intent. */
  datatype Intent = Intent(
    status: Status,
    state3gpp: State3gpp,
    serviceDlc: ServiceDlc,
    appliedAt: Option<int>,
    verdict: Option<Verdict>,
    hasStrategy: bool,
    savesEnergy: bool,
    submittedAt: int,
    ttlSeconds: Option<int>)

  type Store = map<string, Intent>

  // ----- submission -----

  /** Where an exception other than a parsing error strikes, if one does. */
  datatype Crash =
    | NoCrash | WhileParsing | AfterParsing | WhileValidating | WhilePlanning | WhileTranslating | WhileMediating
    | AfterVerdict | WhileApplying | WhileRecording

  datatype Answers = Answers(
    parses: bool,
    valid: bool,
    hasStrategy: bool,
    alwaysApply: bool,
    translates: bool,
    verdict: Verdict,
    results: seq<bool>,
    savesEnergy: bool,
    ttlSeconds: Option<int>,
    now: int,
    crash: Crash)

  function AllOk(results: seq<bool>): bool {
    forall r :: r in results ==> r
  }

  /** The intent as the parser returns it. */
  function NewIntent(a: Answers): Intent {
    Intent(Pending, Preparation, Activation, None, None, false, a.savesEnergy, a.now, a.ttlSeconds)
  }

  function ActiveDlc(i: Intent): ServiceDlc {
    if i.savesEnergy then Paused else Running
  }

  /** Translation, mediation and actuation of an intent that need not wait for approval. */
  function Commissioned(planned: Intent, a: Answers): Intent {
    var i := planned.(status := Translating, state3gpp := Commissioning);
    if a.crash.WhileTranslating? then i
    else if !a.translates then i.(status := Failed)
    else if a.crash.WhileMediating? then i
    else
      var judged := i.(verdict := Some(a.verdict));
      if a.crash.AfterVerdict? then judged
      else if a.verdict.Deny? then judged.(status := Failed)
      else if a.verdict.Defer? then judged.(status := Pending)
      else if a.crash.WhileApplying? then judged.(status := Applying)
      else if AllOk(a.results) then
        judged.(status := Applied, state3gpp := Operation, serviceDlc := ActiveDlc(judged), appliedAt := Some(a.now))
      else
        judged.(status := Failed, state3gpp := Commissioning, appliedAt := Some(a.now))
  }

  /** What a submission leaves in the store under its id; None when it stores nothing. */
  function Submitted(a: Answers): Option<Intent> {
    var i := NewIntent(a);
    if a.crash.WhileParsing? then None
    else if !a.parses then Some(i.(status := Failed, savesEnergy := false, ttlSeconds := None))
    else if a.crash.AfterParsing? then Some(i.(status := Parsing))
    else if a.crash.WhileValidating? then Some(i.(status := Validated))
    else if !a.valid then Some(i.(status := Failed))
    else if a.crash.WhilePlanning? then Some(i.(status := Validated))
    else
      var planned := i.(status := Validated, hasStrategy := a.hasStrategy);
      if !a.alwaysApply then Some(planned.(status := AwaitingApproval)) else Some(Commissioned(planned, a))
  }

  // ----- approval -----

  /** The same intent after an approval; unchanged when the call is refused or raises before it starts. */
  function Approved(i: Intent, a: Answers): Intent {
    if !i.status.AwaitingApproval? || !i.hasStrategy then i
    else
      var commissioned := i.(status := Translating, state3gpp := Commissioning);
      if a.crash.WhileTranslating? || !a.translates || a.crash.WhileMediating? then commissioned.(status := Failed)
      else
        var judged := commissioned.(verdict := Some(a.verdict));
        if a.crash.AfterVerdict? || a.verdict.Deny? || a.crash.WhileApplying? then judged.(status := Failed)
        else
          var applied := judged.(status := Applied, state3gpp := Operation, serviceDlc := ActiveDlc(judged),
                                 appliedAt := Some(a.now));
          if a.crash.WhileRecording? then applied.(status := Failed) else applied
  }

  // ----- reconciliation -----

  predicate IsExpired(i: Intent, now: int) {
    i.ttlSeconds.Some? && now - i.submittedAt > i.ttlSeconds.value
  }

  predicate IsMonitored(i: Intent) {
    i.status.Applied? || i.status.Drift? || i.status.Remediated?
  }

  /** `drifts` says whether the telemetry shows drift for this intent. */
  function ReconcileOne(i: Intent, now: int, drifts: bool): Intent {
    if !IsMonitored(i) then i
    else if IsExpired(i, now) then i.(status := Expired)
    else if drifts then i.(status := Drift)
    else i
  }

  function Reconciled(s: Store, now: int, drifting: set<string>): Store {
    map id | id in s :: ReconcileOne(s[id], now, id in drifting)
  }

  // ----- calls -----

  datatype Call =
    | Submit(id: string, answers: Answers)
    | Approve(id: string, answers: Answers)
    | Reconcile(now: int, drifting: set<string>)
    | Delete(id: string)
    | PauseService(id: string)
    | ResumeService(id: string)
    | SuspendService(id: string)

  function WithDlc(s: Store, id: string, dlc: ServiceDlc): Store {
    if id in s then s[id := s[id].(serviceDlc := dlc)] else s
  }

  function Step(s: Store, c: Call): Store {
    match c
    case Submit(id, a) => (match Submitted(a) case None => s case Some(i) => s[id := i])
    case Approve(id, a) => if id in s then s[id := Approved(s[id], a)] else s
    case Reconcile(now, drifting) => Reconciled(s, now, drifting)
    case Delete(id) => s - {id}
    case PauseService(id) => WithDlc(s, id, Paused)
    case ResumeService(id) => WithDlc(s, id, Running)
    case SuspendService(id) => WithDlc(s, id, Suspended)
  }

  function RunAll(s: Store, cs: seq<Call>): Store {
    if cs == [] then s else Step(RunAll(s, cs[..|cs| - 1]), cs[|cs| - 1])
  }

  // ----- the server -----

  class IntentServer {
    var intents: Store

    constructor ()
      ensures intents == map[]
    {
      intents := map[];
    }

    method SubmitIntent(id: string, a: Answers)
      modifies this
      ensures intents == Step(old(intents), Submit(id, a))
    {
      if a.crash.WhileParsing? { return; }
      var i := NewIntent(a);
      if !a.parses {
        intents := intents[id := i.(status := Failed, savesEnergy := false, ttlSeconds := None)];
        return;
      }
      i := i.(status := Parsing);
      intents := intents[id := i];
      if a.crash.AfterParsing? { return; }
      i := i.(status := Validated);
      intents := intents[id := i];
      if a.crash.WhileValidating? { return; }
      if !a.valid {
        intents := intents[id := i.(status := Failed)];
        return;
      }
      if a.crash.WhilePlanning? { return; }
      i := i.(hasStrategy := a.hasStrategy);
      if a.alwaysApply {
        CommissionIntent(id, i, a);
      } else {
        intents := intents[id := i.(status := AwaitingApproval)];
      }
    }

    method CommissionIntent(id: string, planned: Intent, a: Answers)
      modifies this
      ensures intents == old(intents)[id := Commissioned(planned, a)]
    {
      var i := planned.(status := Translating, state3gpp := Commissioning);
      intents := intents[id := i];
      if a.crash.WhileTranslating? { return; }
      if !a.translates {
        intents := intents[id := i.(status := Failed)];
        return;
      }
      if a.crash.WhileMediating? { return; }
      i := i.(verdict := Some(a.verdict));
      intents := intents[id := i];
      if a.crash.AfterVerdict? { return; }
      if a.verdict == Deny {
        intents := intents[id := i.(status := Failed)];
        return;
      }
      if a.verdict == Defer {
        intents := intents[id := i.(status := Pending)];
        return;
      }
      i := i.(status := Applying);
      intents := intents[id := i];
      if a.crash.WhileApplying? { return; }
      var allOk := AllOk(a.results);
      i := i.(status := if allOk then Applied else Failed, state3gpp := if allOk then Operation else Commissioning);
      if allOk {
        i := i.(serviceDlc := ActiveDlc(i));
      }
      intents := intents[id := i.(appliedAt := Some(a.now))];
    }

    method ApproveIntent(id: string, a: Answers)
      modifies this
      ensures intents == Step(old(intents), Approve(id, a))
    {
      if id !in intents { return; }
      var i := intents[id];
      if !i.status.AwaitingApproval? || !i.hasStrategy {
        assert intents == intents[id := i];
        return;
      }
      i := i.(status := Translating, state3gpp := Commissioning);
      intents := intents[id := i];
      if a.crash.WhileTranslating? || !a.translates || a.crash.WhileMediating? {
        intents := intents[id := i.(status := Failed)];
        return;
      }
      i := i.(verdict := Some(a.verdict));
      intents := intents[id := i];
      if a.crash.AfterVerdict? || a.verdict == Deny {
        intents := intents[id := i.(status := Failed)];
        return;
      }
      i := i.(status := Applying);
      intents := intents[id := i];
      if a.crash.WhileApplying? {
        intents := intents[id := i.(status := Failed)];
        return;
      }
      i := i.(status := Applied, state3gpp := Operation, serviceDlc := ActiveDlc(i), appliedAt := Some(a.now));
      intents := intents[id := i];
      if a.crash.WhileRecording? {
        intents := intents[id := i.(status := Failed)];
      }
    }

    /** First pass: expire, and note who drifts. */
    method ExpireAndCheck(now: int, drifting: set<string>) returns (drifted: set<string>)
      modifies this
      ensures intents == map id | id in old(intents) :: ReconcileOne(old(intents)[id], now, false)
      ensures drifted == set id | id in old(intents) && id in drifting &&
                                  IsMonitored(old(intents)[id]) && !IsExpired(old(intents)[id], now)
    {
      ghost var before := intents;
      var monitored := set id | id in intents && IsMonitored(intents[id]);
      drifted := {};
      var todo := monitored;
      while todo != {}
        invariant todo <= monitored && drifted <= monitored - todo && intents.Keys == before.Keys
        invariant forall id :: id in before ==>
                    intents[id] == if id in todo then before[id] else ReconcileOne(before[id], now, false)
        invariant forall id :: id in monitored - todo ==>
                    (id in drifted <==> !IsExpired(before[id], now) && id in drifting)
      {
        var id :| id in todo;
        if IsExpired(intents[id], now) {
          intents := intents[id := intents[id].(status := Expired)];
        } else if id in drifting {
          drifted := drifted + {id};
        }
        todo := todo - {id};
      }
    }

    /** Second pass: mark the drifted. */
    method MarkDrifted(drifted: set<string>)
      requires drifted <= intents.Keys
      modifies this
      ensures intents == map id | id in old(intents) ::
                if id in drifted then old(intents)[id].(status := Drift) else old(intents)[id]
    {
      ghost var before := intents;
      var todo := drifted;
      while todo != {}
        invariant todo <= drifted && intents.Keys == before.Keys
        invariant forall id :: id in before ==>
                    intents[id] == if id in drifted - todo then before[id].(status := Drift) else before[id]
      {
        var id :| id in todo;
        intents := intents[id := intents[id].(status := Drift)];
        todo := todo - {id};
      }
    }

    method ReconcileIntents(now: int, drifting: set<string>)
      modifies this
      ensures intents == Step(old(intents), Reconcile(now, drifting))
    {
      var drifted := ExpireAndCheck(now, drifting);
      MarkDrifted(drifted);
    }

    method DeleteIntent(id: string) returns (found: bool)
      modifies this
      ensures intents == Step(old(intents), Delete(id)) && found == (id in old(intents))
    {
      found := id in intents;
      if found {
        intents := intents[id := intents[id].(state3gpp := Decommissioning, serviceDlc := Closed)];
        intents := intents - {id};
      }
    }

    method SetServiceDlc(id: string, dlc: ServiceDlc) returns (found: bool)
      modifies this
      ensures intents == WithDlc(old(intents), id, dlc) && found == (id in old(intents))
    {
      found := id in intents;
      if found {
        intents := intents[id := intents[id].(serviceDlc := dlc)];
      }
    }
  }

  // ----- what every run keeps -----

  /** An intent that was ever in force was applied, under a verdict other than DENY; REMEDIATED never occurs. */
  predicate IsSound(i: Intent) {
    && !i.status.Remediated?
    && (i.status.Applied? || i.status.Drift? || i.status.Expired? ==>
          i.appliedAt.Some? && i.state3gpp.Operation? && i.verdict.Some? && !i.verdict.value.Deny?)
    && (i.state3gpp.Operation? ==> i.appliedAt.Some?)
  }

  ghost predicate AllSound(s: Store) {
    forall id :: id in s ==> IsSound(s[id])
  }

  lemma SubmittedIsSound(a: Answers)
    ensures Submitted(a).Some? ==> IsSound(Submitted(a).value)
  {
  }

  lemma ApprovedIsSound(i: Intent, a: Answers)
    requires IsSound(i)
    ensures IsSound(Approved(i, a))
  {
  }

  lemma StepKeepsSound(s: Store, c: Call)
    requires AllSound(s)
    ensures AllSound(Step(s, c))
  {
    match c
    case Submit(id, a) => SubmittedIsSound(a);
    case Approve(id, a) => if id in s { ApprovedIsSound(s[id], a); }
    case _ =>
  }

  lemma {:induction false} RunsAreSound(cs: seq<Call>)
    ensures AllSound(RunAll(map[], cs))
  {
    if cs != [] {
      RunsAreSound(cs[..|cs| - 1]);
      StepKeepsSound(RunAll(map[], cs[..|cs| - 1]), cs[|cs| - 1]);
    }
  }

  /** The moves an intent already in the store can make. */
  predicate MayMove(from: Status, to: Status) {
    || to == from
    || (from.AwaitingApproval? && (to.Applied? || to.Failed?))
    || (from.Applied? && (to.Drift? || to.Expired?))
    || (from.Drift? && to.Expired?)
  }

  /** Submissions use ids the store does not hold: they are fresh uuids. */
  predicate IsFresh(s: Store, c: Call) {
    c.Submit? ==> c.id !in s
  }

  lemma StepMoves(s: Store, c: Call, id: string)
    requires AllSound(s) && IsFresh(s, c) && id in s
    ensures id in Step(s, c) ==> MayMove(s[id].status, Step(s, c)[id].status)
    ensures id !in Step(s, c) ==> c == Delete(id)
  {
  }

  ghost predicate FreshRun(s: Store, cs: seq<Call>) {
    forall n :: 0 <= n < |cs| ==> IsFresh(RunAll(s, cs[..n]), cs[n])
  }

  /** States no call but deletion ends: failed and expired intents, and those a crash or a deferral left behind. */
  predicate IsStuck(x: Status) {
    !(x.AwaitingApproval? || x.Applied? || x.Drift? || x.Remediated?)
  }

  lemma FreshRunPrefix(s: Store, cs: seq<Call>)
    requires FreshRun(s, cs) && cs != []
    ensures FreshRun(s, cs[..|cs| - 1]) && IsFresh(RunAll(s, cs[..|cs| - 1]), cs[|cs| - 1])
  {
    var init := cs[..|cs| - 1];
    forall n | 0 <= n < |init| ensures IsFresh(RunAll(s, init[..n]), init[n]) {
      assert init[..n] == cs[..n];
    }
  }

  lemma {:induction false} RunKeepsSound(s: Store, cs: seq<Call>)
    requires AllSound(s)
    ensures AllSound(RunAll(s, cs))
  {
    if cs != [] {
      RunKeepsSound(s, cs[..|cs| - 1]);
      StepKeepsSound(RunAll(s, cs[..|cs| - 1]), cs[|cs| - 1]);
    }
  }

  /** FAILED and EXPIRED are never left, and neither is the state of a deferred or crashed intent. */
  lemma {:induction false} StuckStaysStuck(s: Store, cs: seq<Call>, id: string)
    requires AllSound(s) && FreshRun(s, cs) && id in s && IsStuck(s[id].status)
    requires Delete(id) !in cs
    ensures id in RunAll(s, cs) && RunAll(s, cs)[id].status == s[id].status
  {
    if cs != [] {
      var init, c := cs[..|cs| - 1], cs[|cs| - 1];
      FreshRunPrefix(s, cs);
      assert cs == init + [c];
      StuckStaysStuck(s, init, id);
      RunKeepsSound(s, init);
      StepMoves(RunAll(s, init), c, id);
      assert c in cs;
    }
  }

  /** Reconciling again with the same clock and telemetry changes nothing. */
  lemma ReconcileIsIdempotent(s: Store, now: int, drifting: set<string>)
    ensures Reconciled(Reconciled(s, now, drifting), now, drifting) == Reconciled(s, now, drifting)
  {
    var once := Reconciled(s, now, drifting);
    forall id | id in s ensures ReconcileOne(once[id], now, id in drifting) == once[id] {}
  }

  predicate AwaitsInVain(s: Store, id: string) {
    id in s && s[id].status.AwaitingApproval? && !s[id].hasStrategy
  }

  lemma StepAwaitsInVain(s: Store, c: Call, id: string)
    requires AwaitsInVain(s, id) && IsFresh(s, c) && c != Delete(id)
    ensures AwaitsInVain(Step(s, c), id)
  {
  }

  /** A plan without a selected strategy can never be approved. */
  lemma {:induction false} NoStrategyNoApproval(s: Store, cs: seq<Call>, id: string)
    requires FreshRun(s, cs) && AwaitsInVain(s, id) && Delete(id) !in cs
    ensures AwaitsInVain(RunAll(s, cs), id)
  {
    if cs != [] {
      var init, c := cs[..|cs| - 1], cs[|cs| - 1];
      FreshRunPrefix(s, cs);
      assert cs == init + [c];
      NoStrategyNoApproval(s, init, id);
      StepAwaitsInVain(RunAll(s, init), c, id);
    }
  }

  // ----- when an intent is applied -----

  predicate CrashesBeforeRecording(c: Crash) {
    !(c.NoCrash? || c.WhileRecording?)
  }

  /** A submission ends APPLIED exactly when it asked not to wait, nothing refused it and every device succeeded. */
  lemma SubmissionAppliesExactly(a: Answers)
    ensures (Submitted(a).Some? && Submitted(a).value.status.Applied?) <==>
            && a.parses && a.valid && a.alwaysApply && a.translates
            && (a.verdict.Allow? || a.verdict.Modify?)
            && AllOk(a.results) && !CrashesBeforeRecording(a.crash)
  {
  }

  /** An approval ignores what the devices answer, and a deferral does not stop it; any exception fails the intent. */
  lemma ApprovalAppliesExactly(i: Intent, a: Answers)
    requires i.status.AwaitingApproval?
    ensures Approved(i, a).status.Applied? <==>
            && i.hasStrategy && a.translates && !a.verdict.Deny?
            && !(a.crash.WhileTranslating? || a.crash.WhileMediating? || a.crash.AfterVerdict?)
            && !(a.crash.WhileApplying? || a.crash.WhileRecording?)
    ensures Approved(i, a).status.Applied? || Approved(i, a).status.Failed? || Approved(i, a) == i
  {
  }
}
