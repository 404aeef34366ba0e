/** The step counter over whole runs of the protocol: what a task may cost. */
module StepBudgets {
  import opened ClaimProtocol
  import opened Options
  import opened Powers
  import opened Tasks

  /** Workers with a decision in hand on task `t`. */
  ghost function Deciders(s: State, t: nat): set<WorkerId> {
    set w | w in s.workers && s.workers[w].Working? && s.workers[w].place.Deciding? && s.workers[w].task == t
  }

  /** The counter that live workers have loaded is still the one in the row. */
  ghost predicate Current(s: State, t: nat)
    requires t < |s.rows|
  {
    forall w: WorkerId :: Live(s, w, t) && s.workers[w].place.Loaded? ==> s.workers[w].place.step == s.rows[t].step
  }

  /** Every decision is paid for by a persisted step, and every retry by a decision that
      nobody holds any more. */
  ghost predicate RowWithinBudget(row: Row, decided: nat, open: nat) {
    && decided == row.step
    && (row.step == 0 || row.step <= row.maxSteps)
    && row.retries + open <= decided
  }

  ghost predicate BudgetAt(s: State, t: nat) {
    && t < |s.rows| == |s.decisions|
    && Current(s, t)
    && RowWithinBudget(s.rows[t], s.decisions[t], |Deciders(s, t)|)
  }

  lemma DecidersAfter(s: State, n: State, w: WorkerId, t: nat)
    requires n.workers.Keys == s.workers.Keys + {w}
    requires forall v <- s.workers :: v != w ==> n.workers[v] == s.workers[v]
    ensures var now := n.workers[w].Working? && n.workers[w].place.Deciding? && n.workers[w].task == t;
            var before := w in Deciders(s, t);
            |Deciders(n, t)| == |Deciders(s, t)| + (if now && !before then 1
                                                    else if before && !now then -1 else 0)
  {
    var rest := Deciders(s, t) - {w};
    assert Deciders(s, t) == if w in Deciders(s, t) then rest + {w} else rest;
    assert Deciders(n, t) == if w in Deciders(n, t) then rest + {w} else rest;
  }

  ghost predicate Moved(s: State, n: State, t: nat)
    requires t < |s.rows|
  {
    t < |n.rows| && n.rows[t].step >= s.rows[t].step && n.rows[t].maxSteps == s.rows[t].maxSteps
  }

  predicate ByWorker(step: Step) {
    step.Read? || step.TryClaim? || step.Renew? || step.Load? || step.Persist? || step.Carry?
      || step.End? || step.Crash?
  }

  /** Only the worker itself, alone on its row, moves the counter it has loaded. */
  lemma WorkerStaysCurrent(s: State, step: Step, t: nat)
    requires InvAt(s, t) && BudgetAt(s, t) && ByWorker(step)
    ensures Current(Next(s, step), t)
  {
    hide Select, Backoff, RowWithinBudget;
    var n, w := Next(s, step), step.worker;
    forall v: WorkerId | Live(n, v, t) && n.workers[v].place.Loaded?
      ensures n.workers[v].place.step == n.rows[t].step
    {
      assert Live(s, v, t);
      assert step.Persist? && CanPersist(s, w) && v != w ==> s.workers[w].task != t by {
        assert Acting(s, w) ==> Live(s, w, s.workers[w].task);
      }
    }
  }

  /** A worker's step changes at most the row it works on. */
  lemma WorkerStepBudget(s: State, step: Step, t: nat)
    requires InvAt(s, t) && BudgetAt(s, t) && ByWorker(step)
    ensures BudgetAt(Next(s, step), t) && Moved(s, Next(s, step), t)
  {
    hide Select, InvAt, Backoff;
    var n, w := Next(s, step), step.worker;
    if n != s {
      WorkerStaysCurrent(s, step, t);
      DecidersAfter(s, n, w, t);
      assert w in s.workers && Acting(s, w) && s.workers[w].task == t ==> Live(s, w, t);
    }
  }

  lemma OutsideStepBudget(s: State, step: Step, t: nat)
    requires BudgetAt(s, t) && !ByWorker(step)
    ensures BudgetAt(Next(s, step), t) && Moved(s, Next(s, step), t)
  {
    var n := Next(s, step);
    assert forall v: WorkerId :: Live(n, v, t) ==> Live(s, v, t);
    assert Deciders(n, t) == Deciders(s, t);
  }

  lemma StepKeepsBudget(s: State, step: Step, t: nat)
    requires InvAt(s, t) && BudgetAt(s, t)
    ensures BudgetAt(Next(s, step), t) && Moved(s, Next(s, step), t)
  {
    if ByWorker(step) {
      WorkerStepBudget(s, step, t);
    } else {
      OutsideStepBudget(s, step, t);
    }
  }

  lemma {:induction false} RunKeepsBudget(s: State, steps: seq<Step>, t: nat)
    requires InvAt(s, t) && BudgetAt(s, t) && SafeRunAt(s, steps, t)
    ensures InvAt(Run(s, steps), t) && BudgetAt(Run(s, steps), t) && Moved(s, Run(s, steps), t)
    decreases |steps|
  {
    if steps != [] {
      hide InvAt, BudgetAt, Next, SafeAt;
      StepKeepsInvAt(s, steps[0], t);
      StepKeepsBudget(s, steps[0], t);
      RunKeepsBudget(Next(s, steps[0]), steps[1..], t);
    }
  }

  /** Over any run whose steps are safe for the task, across retries, crashes, replies and
      approvals: its step counter never goes back, its model decisions number at most its
      step limit, and so do its requeues, even when retries are unlimited. */
  lemma StepBudget(s: State, steps: seq<Step>, t: nat)
    requires InvAt(s, t) && BudgetAt(s, t) && SafeRunAt(s, steps, t)
    ensures
      var e := Run(s, steps);
      && t < |e.rows| == |e.decisions|
      && s.rows[t].step <= e.rows[t].step && e.rows[t].maxSteps == s.rows[t].maxSteps
      && e.rows[t].retries <= e.decisions[t] <= Max(s.rows[t].maxSteps, 0)
  {
    RunKeepsBudget(s, steps, t);
  }

  lemma StartHasBudget(s: State)
    requires Start(s)
    ensures Inv(s) && forall t: nat :: t < |s.rows| ==> BudgetAt(s, t)
  {
    forall t: nat | t < |s.rows| ensures BudgetAt(s, t) {
      assert Deciders(s, t) == {};
    }
  }
}
