/** What becomes of a finished row, above all of one cancelled under its workers. */
module FinishedTasks {
  import opened ClaimProtocol
  import opened Options
  import opened Tasks

  // A worker looks at the status once, at the top of its loop, and writes RUNNING back
  // without looking again. Between the two a cancellation is lost.

  /** Nobody deliberately brings the row back: it is not reopened, and no worker ends its
      work on it by giving it back. */
  ghost predicate LeavesFinished(s: State, step: Step, t: nat)
    requires t < |s.rows|
  {
    match step
    case Reopen(u, _) => u != t
    case End(w, ending) =>
      Acting(s, w) && s.workers[w].task == t ==> Terminal(EndRow(s.rows[t], ending, s.now).status)
    case _ => true
  }

  ghost predicate LeftFinished(s: State, steps: seq<Step>, t: nat)
    decreases |steps|
  {
    steps == [] || (t < |s.rows| && LeavesFinished(s, steps[0], t) && LeftFinished(Next(s, steps[0]), steps[1..], t))
  }

  /** No reader remembers the row as finished, which no query returns. */
  ghost predicate NotSeenFinished(s: State, t: nat) {
    forall y <- s.workers :: s.workers[y].Reading? ==>
      forall c <- s.workers[y].candidates :: c.task == t ==> !Terminal(c.seen.status)
  }

  /** A live worker has passed the top of its loop, below the step limit, and has not yet
      written back. */
  ghost predicate OnItsWay(s: State, w: WorkerId, t: nat) {
    && t < |s.rows| && Live(s, w, t) && s.workers[w].place.Loaded?
    && s.workers[w].place.step < s.rows[t].maxSteps
  }

  ghost predicate Settled(s: State, t: nat) {
    && t < |s.rows| == |s.decisions| && Terminal(s.rows[t].status) && NotSeenFinished(s, t)
    && forall w: WorkerId :: !OnItsWay(s, w, t)
  }

  lemma ReadIsNotSeenFinished(s: State, w: WorkerId, t: nat)
    requires NotSeenFinished(s, t)
    ensures NotSeenFinished(Next(s, Read(w)), t)
  {
    SelectFacts(s.rows, s.now);
    hide Select;
    forall c | c in Select(s.rows, s.now) ensures !Terminal(c.seen.status) {
      WhoIsRunnable(c.seen, s.now);
    }
  }

  lemma StepIsNotSeenFinished(s: State, step: Step, t: nat)
    requires NotSeenFinished(s, t)
    ensures NotSeenFinished(Next(s, step), t)
  {
    if step.Read? {
      ReadIsNotSeenFinished(s, step.worker, t);
    } else {
      hide Select, Backoff;
      var n := Next(s, step);
      forall y, c | y in n.workers && n.workers[y].Reading? && c in n.workers[y].candidates && c.task == t
        ensures !Terminal(c.seen.status)
      {
        assert c in s.workers[y].candidates;
      }
    }
  }

  /** So in every state that is reached from one without readers. */
  lemma {:induction false} ReadersNeverSeeFinished(s: State, steps: seq<Step>, t: nat)
    requires NotSeenFinished(s, t)
    ensures NotSeenFinished(Run(s, steps), t)
    decreases |steps|
  {
    if steps != [] {
      StepIsNotSeenFinished(s, steps[0], t);
      ReadersNeverSeeFinished(Next(s, steps[0]), steps[1..], t);
    }
  }

  lemma StepKeepsRow(s: State, step: Step, t: nat)
    requires Settled(s, t) && LeavesFinished(s, step, t)
    ensures var n := Next(s, step);
            && t < |n.rows| == |n.decisions| && Terminal(n.rows[t].status)
            && n.rows[t].maxSteps == s.rows[t].maxSteps && n.decisions[t] == s.decisions[t]
  {
    hide Select, Backoff;
    if step.Persist? { assert !OnItsWay(s, step.worker, t); }
  }

  lemma StepKeepsSettled(s: State, step: Step, t: nat)
    requires Settled(s, t) && LeavesFinished(s, step, t)
    ensures Settled(Next(s, step), t) && Next(s, step).decisions[t] == s.decisions[t]
  {
    StepIsNotSeenFinished(s, step, t);
    StepKeepsRow(s, step, t);
    hide Select, Backoff;
    var n := Next(s, step);
    forall w: WorkerId ensures !OnItsWay(n, w, t) {
      assert !OnItsWay(s, w, t);
    }
  }

  lemma {:induction false} RunKeepsSettled(s: State, steps: seq<Step>, t: nat)
    requires Settled(s, t) && LeftFinished(s, steps, t)
    ensures Settled(Run(s, steps), t) && Run(s, steps).decisions[t] == s.decisions[t]
    decreases |steps|
  {
    if steps != [] {
      StepKeepsSettled(s, steps[0], t);
      RunKeepsSettled(Next(s, steps[0]), steps[1..], t);
    }
  }

  ghost predicate BackOrAsked(s: State, e: State, t: nat) {
    && t < |s.decisions| && t < |e.rows| == |e.decisions|
    && (!Terminal(e.rows[t].status) || e.decisions[t] != s.decisions[t])
  }

  /** In some continuation the row is RUNNING again, or a decision is asked for it. */
  ghost predicate CanComeBack(s: State, t: nat) {
    exists steps :: LeftFinished(s, steps, t) && BackOrAsked(s, Run(s, steps), t)
  }

  lemma OneStepBack(s: State, w: WorkerId, t: nat)
    requires t < |s.rows| == |s.decisions| && OnItsWay(s, w, t)
    ensures CanComeBack(s, t)
  {
    var steps := [Persist(w)];
    assert steps[1..] == [] && LeavesFinished(s, steps[0], t);
    var e := Next(s, Persist(w));
    assert LeftFinished(e, [], t) && Run(e, []) == e;
    assert LeftFinished(s, steps, t) && Run(s, steps) == e;
  }

  /** A finished row stays finished and no decision is asked for it any more, over every
      run in which nobody gives it back, unless a live worker has passed the top of its
      loop without having written back; exactly then it can come back by itself. */
  lemma ComesBackIff(s: State, t: nat)
    requires t < |s.rows| == |s.decisions| && Terminal(s.rows[t].status) && NotSeenFinished(s, t)
    ensures CanComeBack(s, t) <==>
            exists w: WorkerId :: Live(s, w, t) && s.workers[w].place.Loaded?
                                  && s.workers[w].place.step < s.rows[t].maxSteps
  {
    if w: WorkerId :| Live(s, w, t) && s.workers[w].place.Loaded? && s.workers[w].place.step < s.rows[t].maxSteps {
      assert OnItsWay(s, w, t);
      OneStepBack(s, w, t);
    } else {
      forall steps | LeftFinished(s, steps, t)
        ensures Settled(Run(s, steps), t) && Run(s, steps).decisions[t] == s.decisions[t]
      {
        RunKeepsSettled(s, steps, t);
      }
    }
  }
}
