/** Where submissions, approvals and reconciliations leave an intent, told from the answers they meet. */
module IntentOutcomes {
  import opened Common
  import opened IntentLifecycle

  // ----- how far a call gets -----

  /** How many stages of a submission an exception lets pass. */
  function Stage(c: Crash): nat {
    match c
    case WhileParsing => 0
    case AfterParsing => 1
    case WhileValidating => 2
    case WhilePlanning => 3
    case WhileTranslating => 4
    case WhileMediating => 5
    case AfterVerdict => 6
    case WhileApplying => 7
    case WhileRecording => 8
    case NoCrash => 9
  }

  /** Parsed, and no exception before the validator has answered. */
  predicate IsJudgedValid(a: Answers) {
    a.parses && a.valid && Stage(a.crash) > 2
  }

  /** Validated and planned, and asked not to wait. */
  predicate GoesOn(a: Answers) {
    IsJudgedValid(a) && Stage(a.crash) > 3 && a.alwaysApply
  }

  /** Translated and judged by the conflict fabric. */
  predicate HasVerdict(a: Answers) {
    GoesOn(a) && a.translates && Stage(a.crash) > 5
  }

  /** The devices have answered. */
  predicate IsActuated(a: Answers) {
    HasVerdict(a) && (a.verdict == Allow || a.verdict == Modify) && Stage(a.crash) > 7
  }

  predicate AllSucceed(a: Answers) {
    forall r :: r in a.results ==> r
  }

  predicate EndsIn(a: Answers, x: Status) {
    Submitted(a).Some? && Submitted(a).value.status == x
  }

  /** A submission stores nothing exactly when an exception other than a parsing error strikes the parser. */
  lemma SubmissionStoresExactly(a: Answers)
    ensures Submitted(a).None? <==> Stage(a.crash) == 0
  {
  }

  /** FAILED: it does not parse, is not valid, cannot be translated, is denied, or a device fails. */
  lemma SubmissionFailsExactly(a: Answers)
    ensures EndsIn(a, Failed) <==>
            || (!a.parses && Stage(a.crash) > 0)
            || (a.parses && !a.valid && Stage(a.crash) > 2)
            || (GoesOn(a) && !a.translates && Stage(a.crash) > 4)
            || (HasVerdict(a) && a.verdict == Deny && Stage(a.crash) > 6)
            || (IsActuated(a) && !AllSucceed(a))
  {
  }

  /** PENDING: translated, then deferred. */
  lemma SubmissionPendsExactly(a: Answers)
    ensures EndsIn(a, Pending) <==> HasVerdict(a) && a.verdict == Defer && Stage(a.crash) > 6
  {
  }

  /** AWAITING_APPROVAL: valid and planned, and not asked to go on at once. */
  lemma SubmissionWaitsExactly(a: Answers)
    ensures EndsIn(a, AwaitingApproval) <==> IsJudgedValid(a) && Stage(a.crash) > 3 && !a.alwaysApply
  {
  }

  /** APPLIED: every device has succeeded. */
  lemma SubmissionSucceedsExactly(a: Answers)
    ensures EndsIn(a, Applied) <==> IsActuated(a) && AllSucceed(a)
  {
  }

  /** The transient states are those an exception has left behind. */
  lemma SubmissionCrashesExactly(a: Answers)
    ensures EndsIn(a, Parsing) <==> a.parses && a.crash == AfterParsing
    ensures EndsIn(a, Validated) <==>
            a.parses && (a.crash == WhileValidating || (a.valid && a.crash == WhilePlanning))
    ensures EndsIn(a, Translating) <==>
            && GoesOn(a)
            && (a.crash == WhileTranslating || (a.translates && (a.crash == WhileMediating || a.crash == AfterVerdict)))
    ensures EndsIn(a, Applying) <==>
            HasVerdict(a) && (a.verdict == Allow || a.verdict == Modify) && a.crash == WhileApplying
  {
  }

  /** The rest of what a submission stores. */
  lemma SubmissionRecords(a: Answers)
    requires Submitted(a).Some?
    ensures var i := Submitted(a).value;
            && i.submittedAt == a.now
            && i.ttlSeconds == (if a.parses then a.ttlSeconds else None)
            && i.savesEnergy == (a.parses && a.savesEnergy)
            && i.hasStrategy == (IsJudgedValid(a) && Stage(a.crash) > 3 && a.hasStrategy)
            && i.verdict == (if HasVerdict(a) then Some(a.verdict) else None)
            && i.appliedAt == (if IsActuated(a) then Some(a.now) else None)
            && i.state3gpp == (if EndsIn(a, Applied) then Operation else if GoesOn(a) then Commissioning
                               else Preparation)
            && i.serviceDlc == (if !EndsIn(a, Applied) then Activation else if a.savesEnergy then Paused else Running)
  {
  }

  // ----- approval -----

  /** The devices have been asked, whatever they answer. */
  predicate ApprovalGoesThrough(a: Answers) {
    a.translates && a.verdict != Deny && (Stage(a.crash) < 4 || Stage(a.crash) == 9)
  }

  /**
   An intent that does not wait, or has no strategy to approve, is left alone; any other ends APPLIED or FAILED.
   The stages before translation are not part of an approval.
   */
  lemma ApprovalEndsExactly(i: Intent, a: Answers)
    ensures !i.status.AwaitingApproval? || !i.hasStrategy ==> Approved(i, a) == i
    ensures i.status.AwaitingApproval? && i.hasStrategy ==>
              Approved(i, a).status == if ApprovalGoesThrough(a) then Applied else Failed
  {
  }

  lemma ApprovalRecords(i: Intent, a: Answers)
    requires i.status.AwaitingApproval? && i.hasStrategy
    ensures var judged, asked := a.translates && !(4 <= Stage(a.crash) <= 5),
                                 a.translates && a.verdict != Deny && !(4 <= Stage(a.crash) <= 7);
            Approved(i, a) ==
            i.(status := if ApprovalGoesThrough(a) then Applied else Failed,
               verdict := if judged then Some(a.verdict) else i.verdict,
               state3gpp := if asked then Operation else Commissioning,
               appliedAt := if asked then Some(a.now) else i.appliedAt,
               serviceDlc := if !asked then i.serviceDlc else if i.savesEnergy then Paused else Running)
  {
  }

  // ----- reconciliation -----

  /**
   Of the intents in force, those older than their time to live expire, of the others those that drift are marked;
   nothing else about them changes, and no other intent does.
   */
  lemma ReconciliationExactly(s: Store, now: int, drifting: set<string>, id: string)
    ensures Step(s, Reconcile(now, drifting)).Keys == s.Keys
    ensures id in s ==>
              var inForce := s[id].status == Applied || s[id].status == Drift || s[id].status == Remediated;
              var outlived := s[id].ttlSeconds.Some? && now > s[id].submittedAt + s[id].ttlSeconds.value;
              Step(s, Reconcile(now, drifting))[id] ==
              if inForce && outlived then s[id].(status := Expired)
              else if inForce && id in drifting then s[id].(status := Drift)
              else s[id]
  {
  }

  /** So an intent applied with a time to live is not in force after it, and expires no sooner. */
  lemma ExpiryIsOnTime(s: Store, now: int, drifting: set<string>, id: string, a: Answers)
    requires id in s && Submitted(a) == Some(s[id]) && s[id].status == Applied && a.ttlSeconds.Some?
    ensures Step(s, Reconcile(now, drifting))[id].status == Expired <==> now - a.now > a.ttlSeconds.value
  {
  }

  // ----- the other calls -----

  /** Pausing, resuming and suspending touch one field of one intent; deleting removes it. */
  lemma ServiceCallsExactly(s: Store, id: string)
    requires id in s
    ensures Step(s, PauseService(id)) == s[id := s[id].(serviceDlc := Paused)]
    ensures Step(s, ResumeService(id)) == s[id := s[id].(serviceDlc := Running)]
    ensures Step(s, SuspendService(id)) == s[id := s[id].(serviceDlc := Suspended)]
    ensures id !in Step(s, Delete(id)) && forall x :: x in s && x != id ==> x in Step(s, Delete(id))
  {
  }

  /** A call for an id the store does not hold changes nothing, unless it is a submission. */
  lemma UnknownIdsChangeNothing(s: Store, id: string, a: Answers)
    requires id !in s
    ensures Step(s, Approve(id, a)) == s && Step(s, Delete(id)) == s
    ensures Step(s, PauseService(id)) == s && Step(s, ResumeService(id)) == s && Step(s, SuspendService(id)) == s
  {
  }
}
