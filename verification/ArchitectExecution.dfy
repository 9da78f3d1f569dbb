/** What executing a plan comes to, told from the plan's actions and the translators' answers alone. */
module ArchitectExecution {
  import opened ArchitectPlan
  import S = StableSort

  // ----- the order of execution -----

  ghost predicate Ascends(actions: seq<ConfigAction>) {
    forall i, j :: 0 <= i < j < |actions| ==> actions[i].executionOrder <= actions[j].executionOrder
  }

  /** The actions of one execution order, as they are listed. */
  function AtOrder(actions: seq<ConfigAction>, n: int): seq<ConfigAction> {
    if actions == [] then []
    else (if actions[0].executionOrder == n then [actions[0]] else []) + AtOrder(actions[1..], n)
  }

  /** The same actions by ascending execution order, those of equal order as they are listed. */
  ghost predicate IsRunOf(run: seq<ConfigAction>, actions: seq<ConfigAction>) {
    Ascends(run) && forall n :: AtOrder(run, n) == AtOrder(actions, n)
  }

  lemma {:induction false} TiesAreAtOrder(x: ConfigAction, actions: seq<ConfigAction>)
    ensures S.Ties(RunsNoLater, x, actions) == AtOrder(actions, x.executionOrder)
  {
    if actions != [] {
      TiesAreAtOrder(x, actions[1..]);
    }
  }

  lemma {:induction false} NoneAtOrder(actions: seq<ConfigAction>, n: int)
    requires forall a :: a in actions ==> a.executionOrder != n
    ensures AtOrder(actions, n) == []
  {
    if actions != [] {
      NoneAtOrder(actions[1..], n);
    }
  }

  lemma SortedAscends(actions: seq<ConfigAction>)
    ensures S.Sorted(RunsNoLater, actions) <==> Ascends(actions)
  {
    if S.Sorted(RunsNoLater, actions) {
      forall i, j | 0 <= i < j < |actions| ensures RunsNoLater(actions[i], actions[j]) {}
    }
    if Ascends(actions) {
      forall i, j | 0 <= i < j < |actions| ensures RunsNoLater(actions[i], actions[j]) {}
    }
  }

  /** Sorting yields the one run of the actions there is. */
  lemma InOrderIsTheRun(run: seq<ConfigAction>, actions: seq<ConfigAction>)
    ensures IsRunOf(run, actions) <==> run == InOrder(actions)
  {
    InOrderIsRun(actions);
    if IsRunOf(run, actions) {
      RunsNoLaterIsPreorder();
      SortedAscends(run);
      SortedAscends(InOrder(actions));
      forall y ensures S.Ties(RunsNoLater, y, run) == S.Ties(RunsNoLater, y, InOrder(actions)) {
        TiesAreAtOrder(y, run);
        TiesAreAtOrder(y, InOrder(actions));
      }
      S.StableSortIsUnique(RunsNoLater, run, InOrder(actions));
    }
  }

  lemma InOrderIsRun(actions: seq<ConfigAction>)
    ensures IsRunOf(InOrder(actions), actions)
  {
    RunsNoLaterIsPreorder();
    S.SortSorts(RunsNoLater, actions);
    SortedAscends(InOrder(actions));
    forall n ensures AtOrder(InOrder(actions), n) == AtOrder(actions, n) {
      SortKeepsOrder(actions, n);
    }
  }

  lemma SortKeepsOrder(actions: seq<ConfigAction>, n: int)
    ensures AtOrder(InOrder(actions), n) == AtOrder(actions, n)
  {
    RunsNoLaterIsPreorder();
    S.SortKeepsMembers(RunsNoLater, actions);
    if a :| a in actions && a.executionOrder == n {
      S.SortIsStable(RunsNoLater, a, actions);
      TiesAreAtOrder(a, actions);
      TiesAreAtOrder(a, InOrder(actions));
    } else {
      NoneAtOrder(actions, n);
      NoneAtOrder(InOrder(actions), n);
    }
  }

  // ----- the outcome of a run -----

  /** The translators' answer to an action. */
  function Answer<C>(exec: Call -> Outcome<C>, a: ConfigAction): Outcome<C> {
    exec(Call(a.actionType, a.intentTypeOverride, a.parameterOverrides, a.targetOverride, a.rationale))
  }

  /** The configs of the actions that succeed. */
  function ConfigsIn<C>(exec: Call -> Outcome<C>, run: seq<ConfigAction>): seq<C> {
    if run == [] then []
    else ConfigsIn(exec, run[..|run| - 1]) +
         match Answer(exec, run[|run| - 1]) { case Ok((configs, _)) => configs case Err(_) => [] }
  }

  /** The strategy's name and every explanation that is not empty. */
  function ExplanationOf<C>(exec: Call -> Outcome<C>, name: string, run: seq<ConfigAction>): string {
    if run == [] then "Architect Strategy: " + name
    else ExplanationOf(exec, name, run[..|run| - 1]) +
         match Answer(exec, run[|run| - 1])
         case Ok((_, explanation)) => if explanation == "" then "" else " | " + explanation
         case Err(_) => ""
  }

  /** One warning for every action that fails. */
  function WarningsIn<C>(exec: Call -> Outcome<C>, run: seq<ConfigAction>): seq<string> {
    if run == [] then []
    else WarningsIn(exec, run[..|run| - 1]) +
         match Answer(exec, run[|run| - 1])
         case Ok(_) => []
         case Err(e) => ["Optional action " + ValueOf(run[|run| - 1].actionType) + " failed: " + e]
  }

  predicate IsFatal<C>(exec: Call -> Outcome<C>, a: ConfigAction) {
    a.required && Answer(exec, a).Err?
  }

  lemma {:induction false} JoinedAppend(parts: seq<string>, x: string)
    requires parts != []
    ensures Joined(parts + [x]) == Joined(parts) + " | " + x
  {
    if |parts| == 1 {
      assert (parts + [x])[1..] == [x];
      assert Joined(parts + [x]) == parts[0] + " | " + Joined([x]);
    } else {
      JoinedAppend(parts[1..], x);
      assert (parts + [x])[1..] == parts[1..] + [x];
      assert Joined(parts + [x]) == parts[0] + " | " + Joined(parts[1..] + [x]);
      assert Joined(parts) == parts[0] + " | " + Joined(parts[1..]);
      Reassociate(parts[0] + " | ", Joined(parts[1..]), " | " + x);
      Reassociate(Joined(parts[1..]), " | ", x);
      Reassociate(Joined(parts), " | ", x);
    }
  }

  lemma Reassociate(a: string, b: string, c: string)
    ensures a + (b + c) == (a + b) + c
  {
  }

  /** The accumulators of the loop after the first n actions of a run without fatal failure among them. */
  ghost predicate Accumulated<C>(
      exec: Call -> Outcome<C>, name: string, done: seq<ConfigAction>, configs: seq<C>, parts: seq<string>,
      warnings: seq<string>) {
    && configs == ConfigsIn(exec, done) && warnings == WarningsIn(exec, done)
    && parts != [] && Joined(parts) == ExplanationOf(exec, name, done)
  }

  lemma AccumulateStep<C>(
      exec: Call -> Outcome<C>, name: string, done: seq<ConfigAction>, a: ConfigAction, configs: seq<C>,
      parts: seq<string>, warnings: seq<string>)
    requires Accumulated(exec, name, done, configs, parts, warnings)
    ensures match Answer(exec, a)
            case Ok((cs, explanation)) =>
              Accumulated(exec, name, done + [a], configs + cs, WithPart(parts, explanation), warnings)
            case Err(e) => Accumulated(exec, name, done + [a], configs, parts, warnings + [WarningMessage(a, e)])
  {
    assert (done + [a])[..|done|] == done;
    match Answer(exec, a)
    case Ok((cs, explanation)) =>
      if explanation != "" {
        JoinedAppend(parts, explanation);
        Reassociate(Joined(parts), " | ", explanation);
      }
      assert warnings + [] == warnings;
    case Err(e) =>
      assert configs + [] == configs;
  }

  /** The loop succeeds with everything accumulated if no failure among the remaining actions is fatal. */
  lemma {:induction false} FoldSucceeds<C>(
      exec: Call -> Outcome<C>, name: string, done: seq<ConfigAction>, todo: seq<ConfigAction>, configs: seq<C>,
      parts: seq<string>, warnings: seq<string>)
    requires Accumulated(exec, name, done, configs, parts, warnings)
    requires forall a :: a in todo ==> !IsFatal(exec, a)
    ensures var run := done + todo;
            Fold(exec, todo, configs, parts, warnings) ==
            Translated(ConfigsIn(exec, run), ExplanationOf(exec, name, run), WarningsIn(exec, run))
    decreases |todo|
  {
    if todo == [] {
      assert done + todo == done;
    } else {
      var a, rest := todo[0], todo[1..];
      assert !IsFatal(exec, a);
      AccumulateStep(exec, name, done, a, configs, parts, warnings);
      assert (done + [a]) + rest == done + todo;
      match Answer(exec, a)
      case Ok((cs, explanation)) =>
        FoldSucceeds(exec, name, done + [a], rest, configs + cs, WithPart(parts, explanation), warnings);
      case Err(e) =>
        FoldSucceeds(exec, name, done + [a], rest, configs, parts, warnings + [WarningMessage(a, e)]);
    }
  }

  /** It fails with the message of the first fatal failure. */
  lemma {:induction false} FoldFails<C>(
      exec: Call -> Outcome<C>, actions: seq<ConfigAction>, configs: seq<C>, parts: seq<string>,
      warnings: seq<string>, n: nat)
    requires n < |actions| && IsFatal(exec, actions[n]) && forall i :: 0 <= i < n ==> !IsFatal(exec, actions[i])
    ensures Fold(exec, actions, configs, parts, warnings) ==
            Failed("Action " + ValueOf(actions[n].actionType) + " failed: " + Answer(exec, actions[n]).error)
  {
    if n > 0 {
      assert !IsFatal(exec, actions[0]);
      assert forall i :: 0 <= i < n - 1 ==> actions[1..][i] == actions[i + 1];
      match Answer(exec, actions[0])
      case Ok((cs, explanation)) =>
        FoldFails(exec, actions[1..], configs + cs, WithPart(parts, explanation), warnings, n - 1);
      case Err(e) =>
        FoldFails(exec, actions[1..], configs, parts, warnings + [WarningMessage(actions[0], e)], n - 1);
    }
  }

  /**
   Executing a strategy takes its actions by ascending execution order, those of equal order as listed.  If no
   required action fails, the configs of all successful actions are returned in that order, with one explanation
   after the other and one warning for each action that failed.
   */
  lemma {:induction false} ExecutionCollects<C>(exec: Call -> Outcome<C>, s: Strategy, run: seq<ConfigAction>)
    requires IsRunOf(run, s.actions) && forall a :: a in run ==> !IsFatal(exec, a)
    ensures Execute(exec, s) ==
            Translated(ConfigsIn(exec, run), ExplanationOf(exec, s.name, run), WarningsIn(exec, run))
  {
    InOrderIsTheRun(run, s.actions);
    FoldSucceeds(exec, s.name, [], run, [], ["Architect Strategy: " + s.name], []);
    assert [] + run == run;
  }

  /** Otherwise the first required action to fail, in that order, ends it with its message. */
  lemma {:induction false} ExecutionFails<C>(exec: Call -> Outcome<C>, s: Strategy, run: seq<ConfigAction>, n: nat)
    requires IsRunOf(run, s.actions) && n < |run| && IsFatal(exec, run[n])
    requires forall i :: 0 <= i < n ==> !IsFatal(exec, run[i])
    ensures Execute(exec, s) ==
            Failed("Action " + ValueOf(run[n].actionType) + " failed: " + Answer(exec, run[n]).error)
  {
    InOrderIsTheRun(run, s.actions);
    FoldFails(exec, run, [], ["Architect Strategy: " + s.name], [], n);
  }

  /** A run exists, and holds the actions of the strategy. */
  lemma RunExists(s: Strategy)
    ensures exists run :: IsRunOf(run, s.actions) && multiset(run) == multiset(s.actions)
  {
    InOrderIsRun(s.actions);
    S.SortPermutes(RunsNoLater, s.actions);
  }

  // ----- what is stored -----

  /**
   Storing lists the actions in the order of their run, and rebuilding keeps every field execution reads; tradeoffs,
   impact and ids are lost, and every action is required.
   */
  lemma StorageKeeps(s: Strategy, strategyId: string, freshId: nat -> string, run: seq<ConfigAction>, i: nat)
    requires IsRunOf(run, s.actions) && i < |run|
    ensures var r := Rebuild(ToDict(s), strategyId, freshId);
            && r.Some?
            && r.value.name == s.name && r.value.description == s.description && r.value.skillSource == s.skillSource
            && r.value.confidence == s.confidence && r.value.rationale == s.rationale
            && r.value.strategyId == strategyId && r.value.tradeoffs == "" && |r.value.actions| == |run|
            && var (a, b) := (run[i], r.value.actions[i]);
               && b.actionType == a.actionType && b.intentTypeOverride == a.intentTypeOverride
               && b.parameterOverrides == a.parameterOverrides && b.targetOverride == a.targetOverride
               && b.rationale == a.rationale && b.executionOrder == a.executionOrder && b.required
               && b.estimatedImpact == ""
  {
    InOrderIsTheRun(run, s.actions);
    ActionsRoundTrip(InOrder(s.actions), freshId);
  }

  // ----- what is collected from the skills -----

  lemma {:induction false} CollectedConcat(a: seq<SkillResult>, b: seq<SkillResult>)
    ensures Collected(a + b) == Collected(a) + Collected(b)
  {
    if b == [] {
      assert a + b == a;
    } else {
      CollectedConcat(a, b[..|b| - 1]);
      assert (a + b)[..|a + b| - 1] == a + b[..|b| - 1];
    }
  }

  /** A skill that raises contributes nothing, any other its strategies, in the order of the skills. */
  lemma CollectedIs(before: seq<SkillResult>, r: SkillResult, after: seq<SkillResult>)
    ensures Collected(before + [r] + after) ==
            Collected(before) + (match r { case Ok(ss) => ss case Err(_) => [] }) + Collected(after)
  {
    CollectedConcat(before + [r], after);
    CollectedConcat(before, [r]);
    assert [r][..0] == [];
    assert Collected([r]) == match r { case Ok(ss) => ss case Err(_) => [] };
  }
}
