/** How the step budget is lost with exclusion, and exactly when it can be. */
module Overspending {
  import opened ClaimProtocol
  import opened Options
  import opened Powers
  import opened SafeConditions
  import opened StepBudgets
  import opened Tasks

  /** Some continuation made of safe steps asks for more decisions than the limit. */
  ghost predicate CanOverspend(s: State, t: nat)
    requires t < |s.rows|
  {
    exists steps ::
      && SafeRun(s, steps) && t < |Run(s, steps).decisions|
      && Run(s, steps).decisions[t] > Max(s.rows[t].maxSteps, 0)
  }

  lemma OverspendsAfter(s: State, step: Step, t: nat)
    requires t < |s.rows| && t < |Next(s, step).rows| && Next(s, step).rows[t].maxSteps == s.rows[t].maxSteps
    requires Safe(s, step) && CanOverspend(Next(s, step), t)
    ensures CanOverspend(s, t)
  {
    hide Safe, Next, Max;
    var n := Next(s, step);
    var steps :| SafeRun(n, steps) && t < |Run(n, steps).decisions|
                 && Run(n, steps).decisions[t] > Max(n.rows[t].maxSteps, 0);
    var all := [step] + steps;
    assert all[0] == step && all[1..] == steps;
    assert SafeRun(s, all) && Run(s, all) == Run(n, steps);
  }

  lemma {:induction false} OverspendsLater(s: State, steps: seq<Step>, t: nat)
    requires t < |s.rows| && t < |Run(s, steps).rows| && SafeRun(s, steps) && CanOverspend(Run(s, steps), t)
    ensures CanOverspend(s, t)
    decreases |steps|
  {
    if steps != [] {
      hide Safe, CanOverspend;
      NothingLost(s, steps[0], t);
      OverspendsLater(Next(s, steps[0]), steps[1..], t);
      OverspendsAfter(s, steps[0], t);
    }
  }

  lemma NothingLost(s: State, step: Step, t: nat)
    requires t < |s.rows|
    ensures t < |Next(s, step).rows| && Next(s, step).rows[t].maxSteps == s.rows[t].maxSteps
  {
    hide Select, Backoff;
  }

  /** The row is not finished, and its decisions are no fewer than its counter says. */
  ghost predicate Spending(s: State, t: nat) {
    t < |s.rows| == |s.decisions| && !Terminal(s.rows[t].status) && s.decisions[t] >= s.rows[t].step
  }

  /** One worker holds a counter below the limit; the other takes every step there is. */
  lemma {:induction false} OneHoldsOneSpends(s: State, holds: WorkerId, spends: WorkerId, t: nat)
    requires Spending(s, t) && holds != spends && Live(s, holds, t) && Live(s, spends, t)
    requires s.workers[holds].place.Loaded? && s.workers[holds].place.step < s.rows[t].maxSteps
    requires s.workers[spends].place.Top?
    ensures CanOverspend(s, t)
    decreases s.rows[t].maxSteps - s.rows[t].step
  {
    hide CanOverspend;
    if s.rows[t].step >= s.rows[t].maxSteps {
      var n := Next(s, Persist(holds));
      assert Run(n, []) == n && SafeRun(n, []);
      OverspentNow(n, t);
      OverspendsAfter(s, Persist(holds), t);
    } else {
      var s1 := Next(s, Load(spends));
      var s2 := Next(s1, Persist(spends));
      var s3 := Next(s2, Carry(spends));
      OneHoldsOneSpends(s3, holds, spends, t);
      OverspendsAfter(s2, Carry(spends), t);
      OverspendsAfter(s1, Persist(spends), t);
      OverspendsAfter(s, Load(spends), t);
    }
  }

  lemma OverspentNow(s: State, t: nat)
    requires t < |s.rows| == |s.decisions| && s.decisions[t] > Max(s.rows[t].maxSteps, 0)
    ensures CanOverspend(s, t)
  {
    assert SafeRun(s, []) && Run(s, []) == s;
  }

  /** A worker's place, if it is one with a counter, is one with a counter below the limit. */
  ghost predicate CanGoOn(s: State, w: WorkerId, t: nat)
    requires t < |s.rows| == |s.decisions|
  {
    && Live(s, w, t)
    && (s.workers[w].place.Loaded? ==>
          s.workers[w].place.step < s.rows[t].maxSteps && s.workers[w].place.step <= s.decisions[t])
  }

  /** Wherever in the loop the second one is, it comes to the top. */
  lemma HolderAndAnyone(s: State, holds: WorkerId, spends: WorkerId, t: nat)
    requires Spending(s, t) && holds != spends && CanGoOn(s, holds, t) && CanGoOn(s, spends, t)
    requires s.workers[holds].place.Loaded?
    ensures CanOverspend(s, t)
  {
    hide CanOverspend;
    match s.workers[spends].place {
      case Top => OneHoldsOneSpends(s, holds, spends, t);
      case Deciding =>
        OneHoldsOneSpends(Next(s, Carry(spends)), holds, spends, t);
        OverspendsAfter(s, Carry(spends), t);
      case Loaded(_) =>
        var s1 := Next(s, Persist(spends));
        OneHoldsOneSpends(Next(s1, Carry(spends)), holds, spends, t);
        OverspendsAfter(s1, Carry(spends), t);
        OverspendsAfter(s, Persist(spends), t);
    }
  }

  /** Any two live workers on a row with steps left can overspend it, wherever in the loop
      they are. */
  lemma TwoLiveWorkersOverspend(s: State, v: WorkerId, w: WorkerId, t: nat)
    requires Spending(s, t) && s.rows[t].step < s.rows[t].maxSteps
    requires v != w && CanGoOn(s, v, t) && CanGoOn(s, w, t)
    ensures CanOverspend(s, t)
  {
    hide CanOverspend;
    match s.workers[v].place {
      case Loaded(_) => HolderAndAnyone(s, v, w, t);
      case Top =>
        HolderAndAnyone(Next(s, Load(v)), v, w, t);
        OverspendsAfter(s, Load(v), t);
      case Deciding =>
        var s1 := Next(s, Carry(v));
        HolderAndAnyone(Next(s1, Load(v)), v, w, t);
        OverspendsAfter(s1, Load(v), t);
        OverspendsAfter(s, Carry(v), t);
    }
  }

  lemma MeetingOverspends(s: State, t: nat)
    requires CanMeet(s, t) && t < |s.rows| == |s.decisions| && Current(s, t)
    requires s.decisions[t] >= s.rows[t].step && s.rows[t].step < s.rows[t].maxSteps
    ensures CanOverspend(s, t)
  {
    hide CanOverspend;
    var steps :| SafeRun(s, steps) && Quiet(s, Run(s, steps), t)
                 && !ExclusiveAt(Run(s, steps), t) && Run(s, steps).rows[t].status == Running;
    var e := Run(s, steps);
    var v: WorkerId, w: WorkerId :| Live(e, v, t) && Live(e, w, t) && v != w;
    TwoLiveWorkersOverspend(e, v, w, t);
    OverspendsLater(s, steps, t);
  }

  // ------------------------------------------------------------------ //
  // When no step is left
  // ------------------------------------------------------------------ //

  /** The counter has reached the limit, and so has what live workers have loaded. */
  ghost predicate Spent(s: State, t: nat) {
    && t < |s.rows| == |s.decisions|
    && s.rows[t].step >= s.rows[t].maxSteps && s.decisions[t] <= Max(s.rows[t].maxSteps, 0)
    && forall w: WorkerId :: Live(s, w, t) && s.workers[w].place.Loaded? ==>
         s.workers[w].place.step >= s.rows[t].maxSteps
  }

  lemma StepKeepsSpent(s: State, step: Step, t: nat)
    requires Spent(s, t)
    ensures Spent(Next(s, step), t) && Next(s, step).rows[t].maxSteps == s.rows[t].maxSteps
  {
    hide Select, Backoff;
    var n := Next(s, step);
    if step.Persist? && CanPersist(s, step.worker) {
      assert Live(s, step.worker, s.workers[step.worker].task);
    }
    forall w: WorkerId | Live(n, w, t) && n.workers[w].place.Loaded?
      ensures n.workers[w].place.step >= n.rows[t].maxSteps
    {
      assert Live(s, w, t);
    }
  }

  lemma {:induction false} SpentNeverOverspends(s: State, steps: seq<Step>, t: nat)
    requires Spent(s, t)
    ensures Spent(Run(s, steps), t) && Run(s, steps).rows[t].maxSteps == s.rows[t].maxSteps
    decreases |steps|
  {
    if steps != [] {
      hide Next, Spent;
      StepKeepsSpent(s, steps[0], t);
      assert t < |Next(s, steps[0]).rows| by { SpentHasRow(Next(s, steps[0]), t); }
      SpentNeverOverspends(Next(s, steps[0]), steps[1..], t);
    }
  }

  lemma SpentHasRow(s: State, t: nat)
    requires Spent(s, t)
    ensures t < |s.rows|
  {
  }

  /** When the limit can be exceeded: a step lets a task ask for more decisions than its
      limit exactly when it is not safe for that task and leaves it a step to take. */
  lemma OverspendsIff(s: State, step: Step, t: nat)
    requires Inv(s) && BudgetAt(s, t)
    ensures t < |Next(s, step).rows|
    ensures CanOverspend(Next(s, step), t) <==>
              !SafeAt(s, step, t) && Next(s, step).rows[t].step < Next(s, step).rows[t].maxSteps
  {
    var n := Next(s, step);
    hide CanOverspend, Inv, Next, SafeAt, CanMeet, CanDouble;
    assert InvAt(s, t) by { InvHas(s, t); }
    StepKeepsBudget(s, step, t);
    SafeIff(s, step, t);
    if SafeAt(s, step, t) {
      StepKeepsInvAt(s, step, t);
      WithinBudgetNeverOverspends(n, t);
    } else if n.rows[t].step < n.rows[t].maxSteps {
      MeetingOverspends(n, t);
    } else {
      SpentIsFinal(n, t);
    }
  }

  lemma InvHas(s: State, t: nat)
    requires Inv(s) && t < |s.rows|
    ensures InvAt(s, t)
  {
  }

  lemma WithinBudgetNeverOverspends(s: State, t: nat)
    requires InvAt(s, t) && BudgetAt(s, t)
    ensures !CanOverspend(s, t)
  {
    forall steps | SafeRun(s, steps)
      ensures t < |Run(s, steps).decisions| && Run(s, steps).decisions[t] <= Max(s.rows[t].maxSteps, 0)
    {
      SafeRunIsSafeAt(s, steps, t);
      StepBudget(s, steps, t);
    }
  }

  lemma SpentIsFinal(s: State, t: nat)
    requires Spent(s, t)
    ensures !CanOverspend(s, t)
  {
    forall steps ensures t < |Run(s, steps).decisions| && Run(s, steps).decisions[t] <= Max(s.rows[t].maxSteps, 0) {
      SpentNeverOverspends(s, steps, t);
    }
  }

  // ------------------------------------------------------------------ //
  // Turning the counter back
  // ------------------------------------------------------------------ //

  /** Some continuation made of safe steps lowers the task's counter. */
  ghost predicate CanTurnBack(s: State, t: nat) {
    exists steps, step ::
      && SafeRun(s, steps) && Safe(Run(s, steps), step)
      && Lowers(Run(s, steps), step, t)
  }

  ghost predicate Lowers(s: State, step: Step, t: nat) {
    && t < |s.rows| && t < |Next(s, step).rows|
    && Next(s, step).rows[t].step < s.rows[t].step
  }

  lemma TurnsBackAfter(s: State, step: Step, t: nat)
    requires Safe(s, step) && CanTurnBack(Next(s, step), t)
    ensures CanTurnBack(s, t)
  {
    hide Safe, Next, Lowers;
    var n := Next(s, step);
    var steps, last :| SafeRun(n, steps) && Safe(Run(n, steps), last) && Lowers(Run(n, steps), last, t);
    var all := [step] + steps;
    assert all[0] == step && all[1..] == steps;
    assert SafeRun(s, all) && Run(s, all) == Run(n, steps);
  }

  lemma {:induction false} TurnsBackLater(s: State, steps: seq<Step>, t: nat)
    requires SafeRun(s, steps) && CanTurnBack(Run(s, steps), t)
    ensures CanTurnBack(s, t)
    decreases |steps|
  {
    if steps != [] {
      hide Safe, CanTurnBack, Next;
      TurnsBackLater(Next(s, steps[0]), steps[1..], t);
      TurnsBackAfter(s, steps[0], t);
    }
  }

  lemma TurnedBackNow(s: State, step: Step, t: nat)
    requires Safe(s, step) && Lowers(s, step, t)
    ensures CanTurnBack(s, t)
  {
    assert SafeRun(s, []) && Run(s, []) == s;
  }

  /** One worker holds the counter; the other, with it in hand as well, takes two steps;
      and then the first one writes what it holds. */
  lemma SlowWriterTurnsBack(s: State, slow: WorkerId, quick: WorkerId, t: nat)
    requires Spending(s, t) && slow != quick && Live(s, slow, t) && Live(s, quick, t)
    requires s.workers[slow].place == s.workers[quick].place == Loaded(s.rows[t].step)
    requires s.rows[t].step + 1 < s.rows[t].maxSteps
    ensures CanTurnBack(s, t)
  {
    hide CanTurnBack;
    var s1 := Next(s, Persist(quick));
    var s2 := Next(s1, Carry(quick));
    var s3 := Next(s2, Load(quick));
    var s4 := Next(s3, Persist(quick));
    assert s4.rows[t].step == s.rows[t].step + 2;
    TurnedBackNow(s4, Persist(slow), t);
    TurnsBackAfter(s3, Persist(quick), t);
    TurnsBackAfter(s2, Load(quick), t);
    TurnsBackAfter(s1, Carry(quick), t);
    TurnsBackAfter(s, Persist(quick), t);
  }

  ghost predicate UpToDate(s: State, w: WorkerId, t: nat)
    requires t < |s.rows|
  {
    Live(s, w, t) && (s.workers[w].place.Loaded? ==> s.workers[w].place.step == s.rows[t].step)
  }

  /** Both workers come to hold the counter. */
  lemma TwoLiveWorkersTurnBack(s: State, v: WorkerId, w: WorkerId, t: nat)
    requires Spending(s, t) && s.rows[t].step + 1 < s.rows[t].maxSteps
    requires v != w && UpToDate(s, v, t) && UpToDate(s, w, t)
    ensures CanTurnBack(s, t)
    decreases (if s.workers[v].place.Loaded? then 0 else if s.workers[v].place.Top? then 1 else 2)
              + (if s.workers[w].place.Loaded? then 0 else if s.workers[w].place.Top? then 1 else 2)
  {
    hide CanTurnBack;
    if !s.workers[v].place.Loaded? {
      var step := if s.workers[v].place.Top? then Load(v) else Carry(v);
      TwoLiveWorkersTurnBack(Next(s, step), v, w, t);
      TurnsBackAfter(s, step, t);
    } else if !s.workers[w].place.Loaded? {
      var step := if s.workers[w].place.Top? then Load(w) else Carry(w);
      TwoLiveWorkersTurnBack(Next(s, step), v, w, t);
      TurnsBackAfter(s, step, t);
    } else {
      SlowWriterTurnsBack(s, v, w, t);
    }
  }

  lemma MeetingTurnsBack(s: State, t: nat)
    requires CanMeet(s, t) && t < |s.rows| == |s.decisions| && Current(s, t)
    requires s.decisions[t] >= s.rows[t].step && s.rows[t].step + 1 < s.rows[t].maxSteps
    ensures CanTurnBack(s, t)
  {
    hide CanTurnBack;
    var steps :| SafeRun(s, steps) && Quiet(s, Run(s, steps), t)
                 && !ExclusiveAt(Run(s, steps), t) && Run(s, steps).rows[t].status == Running;
    var e := Run(s, steps);
    var v: WorkerId, w: WorkerId :| Live(e, v, t) && Live(e, w, t) && v != w;
    TwoLiveWorkersTurnBack(e, v, w, t);
    TurnsBackLater(s, steps, t);
  }

  /** At most one step is left, for the row and for what live workers have loaded. */
  ghost predicate LastStep(s: State, t: nat) {
    && t < |s.rows| == |s.decisions|
    && s.rows[t].step + 1 >= s.rows[t].maxSteps && (s.rows[t].step == 0 || s.rows[t].step <= s.rows[t].maxSteps)
    && forall w: WorkerId :: Live(s, w, t) && s.workers[w].place.Loaded? ==>
         s.workers[w].place.step + 1 >= s.rows[t].maxSteps
  }

  lemma LastStepStays(s: State, step: Step, t: nat)
    requires LastStep(s, t)
    ensures LastStep(Next(s, step), t) && !Lowers(s, step, t)
  {
    hide Select, Backoff;
    var n := Next(s, step);
    if step.Persist? && CanPersist(s, step.worker) {
      assert Live(s, step.worker, s.workers[step.worker].task);
    }
    forall w: WorkerId | Live(n, w, t) && n.workers[w].place.Loaded?
      ensures n.workers[w].place.step + 1 >= n.rows[t].maxSteps
    {
      assert Live(s, w, t) || step == Load(w);
    }
  }

  lemma {:induction false} LastStepForGood(s: State, steps: seq<Step>, t: nat)
    requires LastStep(s, t)
    ensures LastStep(Run(s, steps), t)
    decreases |steps|
  {
    if steps != [] {
      hide Next, LastStep;
      LastStepStays(s, steps[0], t);
      LastStepForGood(Next(s, steps[0]), steps[1..], t);
    }
  }

  /** When the counter can go back: exactly when a step is not safe for the task and leaves
      it two steps to take. */
  lemma TurnsBackIff(s: State, step: Step, t: nat)
    requires Inv(s) && BudgetAt(s, t)
    ensures t < |Next(s, step).rows|
    ensures CanTurnBack(Next(s, step), t) <==>
              !SafeAt(s, step, t) && Next(s, step).rows[t].step + 1 < Next(s, step).rows[t].maxSteps
  {
    var n := Next(s, step);
    hide CanTurnBack, Inv, Next, SafeAt, CanMeet, CanDouble;
    assert InvAt(s, t) by { InvHas(s, t); }
    StepKeepsBudget(s, step, t);
    SafeIff(s, step, t);
    if SafeAt(s, step, t) {
      StepKeepsInvAt(s, step, t);
      WithinBudgetNeverTurnsBack(n, t);
    } else if n.rows[t].step + 1 < n.rows[t].maxSteps {
      MeetingTurnsBack(n, t);
    } else {
      LastStepNeverTurnsBack(n, t);
    }
  }

  lemma WithinBudgetNeverTurnsBack(s: State, t: nat)
    requires InvAt(s, t) && BudgetAt(s, t)
    ensures !CanTurnBack(s, t)
  {
    hide InvAt, BudgetAt, Next, Safe, SafeAt;
    forall steps, step | SafeRun(s, steps) && Safe(Run(s, steps), step) ensures !Lowers(Run(s, steps), step, t) {
      SafeRunIsSafeAt(s, steps, t);
      RunKeepsBudget(s, steps, t);
      NeverLowers(Run(s, steps), step, t);
    }
  }

  lemma NeverLowers(s: State, step: Step, t: nat)
    requires InvAt(s, t) && BudgetAt(s, t)
    ensures !Lowers(s, step, t)
  {
    hide Next;
    StepKeepsBudget(s, step, t);
  }

  lemma LastStepNeverTurnsBack(s: State, t: nat)
    requires LastStep(s, t)
    ensures !CanTurnBack(s, t)
  {
    hide LastStep, Next, Safe, Lowers;
    forall steps, step ensures !Lowers(Run(s, steps), step, t) {
      LastStepForGood(s, steps, t);
      LastStepStays(Run(s, steps), step, t);
    }
  }

  // ------------------------------------------------------------------ //
  // From an empty table
  // ------------------------------------------------------------------ //

  const ONE_STEP := Row(Pending, None, None, None, 0, 2, 0, 1)
  const CLAIMED_AGAIN := ONE_STEP.(status := Running, worker := Some(2), lease := Some(900))

  /** A task with a limit of one step is reopened under the worker that claimed it. */
  lemma ReopenedUnderWorker()
    ensures
      var steps := [Read(1), TryClaim(1, 900), Reopen(0, false), Read(2), TryClaim(2, 900)];
      Run(State(0, [ONE_STEP], map[], [0]), steps)
      == State(0, [CLAIMED_AGAIN], map[1 := Working(0, 900, Top), 2 := Working(0, 900, Top)], [0])
  {
    hide Run;
    var s := State(0, [ONE_STEP], map[], [0]);
    OnlyCandidate([ONE_STEP], 0, 0);
    var s3 := Next(Next(Next(s, Read(1)), TryClaim(1, 900)), Reopen(0, false));
    var reopened := ONE_STEP.(worker := Some(1), lease := Some(900));
    assert s3 == State(0, [reopened], map[1 := Working(0, 900, Top)], [0]);
    OnlyCandidate([reopened], 0, 0);
    RunOf5(s, Read(1), TryClaim(1, 900), Reopen(0, false), Read(2), TryClaim(2, 900));
  }

  /** So two live workers load the same counter and both write it back: two decisions for
      one step, and one more than the limit allows. */
  lemma TwoWorkersOverspend()
    ensures
      var s := State(0, [ONE_STEP], map[], [0]);
      var reopened := [Read(1), TryClaim(1, 900), Reopen(0, false), Read(2), TryClaim(2, 900)];
      var e := Run(s, reopened + [Load(1), Load(2), Persist(1), Persist(2)]);
      Start(s) && |e.rows| == 1 && e.rows[0].step == e.rows[0].maxSteps == 1 && e.decisions == [2]
  {
    hide Run;
    ReopenedUnderWorker();
    var s := State(0, [ONE_STEP], map[], [0]);
    var reopened := [Read(1), TryClaim(1, 900), Reopen(0, false), Read(2), TryClaim(2, 900)];
    RunAppend(s, reopened, [Load(1), Load(2), Persist(1), Persist(2)]);
    var two := Run(s, reopened);
    var held := Working(0, 900, Loaded(0));
    assert Next(Next(two, Load(1)), Load(2)) == State(0, [CLAIMED_AGAIN], map[1 := held, 2 := held], [0]);
    RunOf4(two, Load(1), Load(2), Persist(1), Persist(2));
  }
}
