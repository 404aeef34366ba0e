/** Workers, the owner and the clock acting on one task table, one atomic step at a time. */
module ClaimProtocol {
  import opened Options
  import opened Powers
  import opened Tasks

  // A worker is one claim attempt: it reads candidates, tries them one by one, and then
  // works on the row it took. Between any two of its steps anything else may happen.
  // A worker stops by itself when the lease it believes in has run out. Once it is gone,
  // its id may go round again for the next claim.

  /** Where a worker is in the loop over its row: at the top, with the step counter it has
      loaded but not yet written back, or with a decision in hand. */
  datatype Place = Top | Loaded(step: nat) | Deciding

  datatype Phase =
    | Reading(candidates: seq<Candidate>, readAt: int)
    | Working(task: nat, until: int, place: Place)
    | Gone

  datatype State = State(
    now: int,
    rows: seq<Row>,
    workers: map<WorkerId, Phase>,
    // decisions asked of the model for each task, since the task was created
    decisions: seq<nat>)

  /** How a worker ends its work on a row. */
  datatype Ending =
    | Settle(status: Status)          // completed, failed, or waiting for the owner
    | TryAgain(persistForever: bool)  // the model failed: requeue, or fail for good
    | Release                         // the process is shutting down

  datatype Step =
    | Tick(seconds: nat)
    | Create(maxSteps: int, maxRetries: int, runAfter: Option<int>)
    | Read(worker: WorkerId)
    | TryClaim(worker: WorkerId, leaseS: int)
    | Renew(worker: WorkerId, leaseS: int)
    | Load(worker: WorkerId)
    | Persist(worker: WorkerId)
    | Carry(worker: WorkerId)
    | End(worker: WorkerId, ending: Ending)
    | Crash(worker: WorkerId)
    | Rejoin(worker: WorkerId)
    | Cancel(task: nat)
    | Reopen(task: nat, keepDelay: bool)
    | Sweep

  ghost predicate Live(s: State, w: WorkerId, t: nat) {
    && w in s.workers
    && s.workers[w].Working?
    && s.workers[w].task == t
    && s.now <= s.workers[w].until
  }

  /** The steps of one live worker need it to be working under an unexpired lease. */
  ghost predicate Acting(s: State, w: WorkerId) {
    w in s.workers && s.workers[w].Working? && s.now <= s.workers[w].until
      && s.workers[w].task < |s.rows| && |s.decisions| == |s.rows|
  }

  ghost function Put(s: State, t: nat, row: Row): State
    requires t < |s.rows|
  {
    s.(rows := s.rows[t := row])
  }

  ghost function Enter(s: State, w: WorkerId, phase: Phase): State {
    s.(workers := s.workers[w := phase])
  }

  ghost function NextClaim(s: State, w: WorkerId, leaseS: int): State {
    if !(w in s.workers && s.workers[w].Reading?) then s
    else
      var phase := s.workers[w];
      if phase.candidates == [] then Enter(s, w, Gone)
      else
        var c := phase.candidates[0];
        var until := phase.readAt + leaseS;
        if c.task < |s.rows| && GuardPasses(s.rows[c.task], c.seen) then
          Enter(Put(s, c.task, ClaimRow(s.rows[c.task], w, until)), w, Working(c.task, until, Top))
        else
          Enter(s, w, Reading(phase.candidates[1..], phase.readAt))
  }

  /** The top of the loop: a finished row ends it, otherwise the counter is remembered. */
  ghost function NextLoad(s: State, w: WorkerId): State
    requires Acting(s, w)
  {
    var row := s.rows[s.workers[w].task];
    if Terminal(row.status) then Enter(s, w, Gone)
    else Enter(s, w, s.workers[w].(place := Loaded(row.step)))
  }

  /** Below the step limit of the row as loaded, the next step is written back. */
  ghost predicate CanPersist(s: State, w: WorkerId) {
    && Acting(s, w)
    && s.workers[w].place.Loaded?
    && s.workers[w].place.step < s.rows[s.workers[w].task].maxSteps
  }

  /** The counter as loaded plus one, and RUNNING, whatever the row says by now. */
  ghost function NextPersist(s: State, w: WorkerId): State
    requires CanPersist(s, w)
  {
    var phase := s.workers[w];
    var t := phase.task;
    Enter(Put(s, t, s.rows[t].(step := phase.place.step + 1, status := Running)), w, phase.(place := Deciding))
      .(decisions := s.decisions[t := s.decisions[t] + 1])
  }

  function EndRow(row: Row, ending: Ending, now: int): Row {
    match ending
    case Settle(status) => StatusRow(row, status)
    case TryAgain(persist) => RetryRow(row, persist, now)
    case Release => row.(status := Pending, worker := None, lease := None)
  }

  /** The owner's answer or decision puts the task back in the queue without looking. */
  function ReopenRow(row: Row, keepDelay: bool): Row {
    row.(status := Pending, runAfter := if keepDelay then row.runAfter else None)
  }

  /** Ending with an outcome needs an open decision; a timeout, an unexpected error, the
      step limit or a shutdown can strike at any point. */
  ghost predicate CanEnd(s: State, w: WorkerId, ending: Ending) {
    && Acting(s, w)
    && (s.workers[w].place.Deciding? || ending.Release? || ending == Settle(Failed))
    && (ending.Settle? ==> ending.status in {Completed, Failed, WaitingForUser})
  }

  ghost function Next(s: State, step: Step): State {
    match step
    case Tick(d) => s.(now := s.now + d)
    case Create(maxSteps, maxRetries, runAfter) =>
      s.(rows := s.rows + [Row(Pending, None, None, runAfter, 0, maxRetries, 0, maxSteps)],
         decisions := s.decisions + [0])
    case Read(w) =>
      if w in s.workers then s else Enter(s, w, Reading(Select(s.rows, s.now), s.now))
    case TryClaim(w, leaseS) => NextClaim(s, w, leaseS)
    case Renew(w, leaseS) =>
      if !Acting(s, w) then s
      else
        var t := s.workers[w].task;
        Enter(Put(s, t, RenewRow(s.rows[t], w, s.now + leaseS)), w, s.workers[w].(until := s.now + leaseS))
    case Load(w) => if Acting(s, w) && s.workers[w].place.Top? then NextLoad(s, w) else s
    case Persist(w) => if CanPersist(s, w) then NextPersist(s, w) else s
    case Carry(w) =>
      if Acting(s, w) && s.workers[w].place.Deciding?
      then Enter(s, w, s.workers[w].(place := Top)) else s
    case End(w, ending) =>
      if !CanEnd(s, w, ending) then s
      else
        var t := s.workers[w].task;
        Enter(Put(s, t, EndRow(s.rows[t], ending, s.now)), w, Gone)
    case Crash(w) => if w in s.workers then Enter(s, w, Gone) else s
    case Rejoin(w) =>
      if w in s.workers && s.workers[w].Gone? then s.(workers := s.workers - {w}) else s
    case Cancel(t) => if t < |s.rows| then Put(s, t, StatusRow(s.rows[t], Cancelled)) else s
    case Reopen(t, keepDelay) =>
      if t < |s.rows| then Put(s, t, ReopenRow(s.rows[t], keepDelay)) else s
    case Sweep => s.(rows := seq(|s.rows|, i requires 0 <= i < |s.rows| => RecoverRow(s.rows[i])))
  }

  ghost function Run(s: State, steps: seq<Step>): State
    decreases |steps|
  {
    if steps == [] then s else Run(Next(s, steps[0]), steps[1..])
  }

  // ------------------------------------------------------------------ //
  // Mutual exclusion, one task at a time
  // ------------------------------------------------------------------ //

  ghost predicate ExclusiveAt(s: State, t: nat) {
    forall v: WorkerId, w: WorkerId :: Live(s, v, t) && Live(s, w, t) ==> v == w
  }

  ghost predicate Exclusive(s: State) { forall t: nat :: ExclusiveAt(s, t) }

  /** An owner and a lease come and go together, and a finished row has neither. */
  predicate WellOwned(row: Row) {
    (row.worker.None? <==> row.lease.None?) && (Terminal(row.status) ==> row.worker.None?)
  }

  /** `w` cannot come to work on `t` any more, except by being there already. */
  ghost predicate Bound(s: State, w: WorkerId, t: nat) {
    w in s.workers && (s.workers[w].Gone? || (s.workers[w].Working? && s.workers[w].task == t))
  }

  /** No reader remembers this row as RUNNING. */
  ghost predicate NotSeenRunning(s: State, t: nat) {
    forall y <- s.workers :: s.workers[y].Reading? ==>
      forall c <- s.workers[y].candidates :: c.task == t ==> c.seen.status != Running
  }

  /** A live worker's row names it with the very lease it believes in; or it has been
      cancelled under it; or, cancelled, it was set RUNNING again by the worker, nobody's,
      when no reader remembered it as RUNNING. */
  ghost predicate Owns(s: State, w: WorkerId, t: nat)
    requires t < |s.rows|
  {
    Live(s, w, t) ==>
      var row := s.rows[t];
      || Terminal(row.status)
      || (row.status == Running && row.worker == Some(w) && row.lease == Some(s.workers[w].until))
      || (row.status == Running && row.worker.None? && NotSeenRunning(s, t))
  }

  /** A snapshot never shows a terminal row; a RUNNING one names an owner that has given
      up and cannot come back to it. */
  ghost predicate SoundSnapshot(s: State, c: Candidate) {
    && !Terminal(c.seen.status)
    && (c.seen.status == Running ==>
          c.seen.worker.Some? && Bound(s, c.seen.worker.value, c.task)
          && !Live(s, c.seen.worker.value, c.task))
  }

  ghost predicate SoundRow(s: State, t: nat)
    requires t < |s.rows|
  {
    && WellOwned(s.rows[t])
    && (s.rows[t].status == Running && s.rows[t].worker.Some? ==> Bound(s, s.rows[t].worker.value, t))
  }

  ghost predicate SoundReader(s: State, w: WorkerId, t: nat) {
    w in s.workers && s.workers[w].Reading? ==>
      forall c <- s.workers[w].candidates :: c.task == t ==> SoundSnapshot(s, c)
  }

  /** What holds about one task and everybody who works on it or has read it. */
  ghost predicate InvAt(s: State, t: nat) {
    && t < |s.rows| == |s.decisions|
    && ExclusiveAt(s, t)
    && (forall w <- s.workers :: Owns(s, w, t))
    && SoundRow(s, t)
    && (forall w <- s.workers :: SoundReader(s, w, t))
  }

  /** Readers and workers have tasks that exist, and readers have them in order. */
  ghost predicate Formed(s: State) {
    && |s.decisions| == |s.rows|
    && forall w <- s.workers ::
         && (s.workers[w].Working? ==> s.workers[w].task < |s.rows|)
         && (s.workers[w].Reading? ==>
               && Increasing(s.workers[w].candidates)
               && forall c <- s.workers[w].candidates :: c.task < |s.rows|)
  }

  ghost predicate Inv(s: State) {
    Formed(s) && forall t: nat :: t < |s.rows| ==> InvAt(s, t)
  }

  /** The row is not RUNNING in this id's name, and nobody remembers that it was. */
  ghost predicate Forgotten(s: State, w: WorkerId, t: nat) {
    && (t < |s.rows| ==> !(s.rows[t].status == Running && s.rows[t].worker == Some(w)))
    && forall y <- s.workers :: s.workers[y].Reading? ==>
         forall c <- s.workers[y].candidates ::
           !(c.task == t && c.seen.status == Running && c.seen.worker == Some(w))
  }

  /** The writes that do not look at the owner, and the reuse of an id, are safe for a task
      under a condition each; every other step is safe. */
  ghost predicate SafeAt(s: State, step: Step, t: nat) {
    match step
    case Reopen(u, _) => u == t ==> forall w: WorkerId :: !Live(s, w, t)
    case Sweep => t < |s.rows| && s.rows[t].status == Running ==> forall w: WorkerId :: !Live(s, w, t)
    case Persist(w) =>
      CanPersist(s, w) && s.workers[w].task == t && Terminal(s.rows[t].status) ==> NotSeenRunning(s, t)
    case Rejoin(w) => w in s.workers && s.workers[w].Gone? ==> Forgotten(s, w, t)
    case _ => true
  }

  ghost predicate SafeRunAt(s: State, steps: seq<Step>, t: nat)
    decreases |steps|
  {
    steps == [] || (SafeAt(s, steps[0], t) && SafeRunAt(Next(s, steps[0]), steps[1..], t))
  }

  /** Safe for every task. */
  ghost predicate Safe(s: State, step: Step) { forall t: nat :: SafeAt(s, step, t) }

  ghost predicate SafeRun(s: State, steps: seq<Step>)
    decreases |steps|
  {
    steps == [] || (Safe(s, steps[0]) && SafeRun(Next(s, steps[0]), steps[1..]))
  }

  lemma {:induction false} SafeRunIsSafeAt(s: State, steps: seq<Step>, t: nat)
    requires SafeRun(s, steps)
    ensures SafeRunAt(s, steps, t)
    decreases |steps|
  {
    if steps != [] {
      hide SafeAt, Next;
      SafeRunIsSafeAt(Next(s, steps[0]), steps[1..], t);
    }
  }

  /** What is left to check after a step that only worker `w` took: every other worker
      is where it was, and nobody becomes live on a row that is not already theirs. */
  lemma OthersUndisturbed(s: State, n: State, w: WorkerId, t: nat)
    requires InvAt(s, t)
    requires n.now == s.now && |n.rows| == |s.rows| && |n.decisions| == |n.rows|
    requires w in s.workers && n.workers.Keys == s.workers.Keys
    requires forall v <- s.workers :: v != w ==> n.workers[v] == s.workers[v]
    requires s.workers[w].Gone? ==> n.workers[w].Gone?
    requires s.workers[w].Working? ==>
               n.workers[w].Gone? || (n.workers[w].Working? && n.workers[w].task == s.workers[w].task)
    requires n.workers[w].Reading? ==>
               && s.workers[w].Reading?
               && forall c <- n.workers[w].candidates :: c in s.workers[w].candidates
    requires s.workers[w].Reading? || (Live(n, w, t) ==> Live(s, w, t))
    requires Live(n, w, t) ==> forall v: WorkerId :: Live(s, v, t) ==> v == w
    requires Owns(n, w, t)
    requires n.rows[t] != s.rows[t] ==>
               && SoundRow(n, t)
               && forall v: WorkerId :: Live(s, v, t) && v != w ==> Terminal(n.rows[t].status)
    ensures InvAt(n, t)
  {
    forall v: WorkerId | v != w && Live(n, v, t) ensures Live(s, v, t) {}
    forall v: WorkerId | Bound(s, v, t) ensures Bound(n, v, t) {}
    assert NotSeenRunning(s, t) ==> NotSeenRunning(n, t);
    forall v | v in n.workers ensures Owns(n, v, t) {
      assert Owns(s, v, t);
    }
    forall v | v in n.workers ensures SoundReader(n, v, t) {
      assert SoundReader(s, v, t);
      if n.workers[v].Reading? {
        forall c | c in n.workers[v].candidates && c.task == t ensures SoundSnapshot(n, c) {
          assert SoundSnapshot(s, c);
        }
      }
    }
  }

  /** The guard lets nobody onto a row that somebody is at work on. */
  lemma GuardProtects(s: State, w: WorkerId, v: WorkerId, t: nat)
    requires InvAt(s, t) && w in s.workers && s.workers[w].Reading?
    requires s.workers[w].candidates != [] && s.workers[w].candidates[0].task == t
    ensures GuardPasses(s.rows[t], s.workers[w].candidates[0].seen) ==> !Live(s, v, t)
  {
    var c := s.workers[w].candidates[0];
    assert SoundReader(s, w, t) && SoundSnapshot(s, c);
    assert v in s.workers ==> Owns(s, v, t);
  }

  lemma ClaimKeepsInv(s: State, w: WorkerId, leaseS: int, t: nat)
    requires InvAt(s, t)
    ensures InvAt(NextClaim(s, w, leaseS), t)
  {
    if w in s.workers && s.workers[w].Reading? {
      if s.workers[w].candidates != [] && s.workers[w].candidates[0].task == t {
        forall v ensures GuardPasses(s.rows[t], s.workers[w].candidates[0].seen) ==> !Live(s, v, t) {
          GuardProtects(s, w, v, t);
        }
        assert SoundReader(s, w, t);
      }
      OthersUndisturbed(s, NextClaim(s, w, leaseS), w, t);
    }
  }

  lemma WorkKeepsInv(s: State, step: Step, t: nat)
    requires InvAt(s, t) && SafeAt(s, step, t)
    requires step.Renew? || step.Load? || step.Persist? || step.Carry? || step.End? || step.Crash?
    ensures InvAt(Next(s, step), t)
  {
    var w := step.worker;
    if w in s.workers && Next(s, step) != s {
      assert Owns(s, w, t);
      assert Acting(s, w) ==> Live(s, w, s.workers[w].task);
      OthersUndisturbed(s, Next(s, step), w, t);
    }
  }

  lemma ReadKeepsInv(s: State, w: WorkerId, t: nat)
    requires InvAt(s, t)
    ensures InvAt(Next(s, Read(w)), t)
  {
    var n := Next(s, Read(w));
    if w !in s.workers {
      SelectFacts(s.rows, s.now);
      forall v: WorkerId | Live(n, v, t) ensures Live(s, v, t) {}
      forall v: WorkerId | Bound(s, v, t) ensures Bound(n, v, t) {}
      assert NotSeenRunning(s, t) && s.rows[t].worker.None? ==> NotSeenRunning(n, t);
      forall v | v in s.workers ensures Owns(n, v, t) {
        assert Owns(s, v, t);
      }
      forall c | c in Select(s.rows, s.now) && c.task == t ensures SoundSnapshot(n, c) {
        assert c.seen.worker.Some? && c.seen.worker.value in s.workers ==> Owns(s, c.seen.worker.value, t);
      }
      forall v | v in s.workers ensures SoundReader(n, v, t) {
        assert SoundReader(s, v, t);
        if s.workers[v].Reading? {
          forall c | c in s.workers[v].candidates && c.task == t ensures SoundSnapshot(n, c) {
            assert SoundSnapshot(s, c);
          }
        }
      }
    }
  }

  /** Steps of the clock, the owner and the sweep touch no worker; an id that goes round
      again leaves only itself. */
  lemma OutsideKeepsInv(s: State, step: Step, t: nat)
    requires InvAt(s, t) && SafeAt(s, step, t)
    requires step.Tick? || step.Create? || step.Cancel? || step.Reopen? || step.Sweep? || step.Rejoin?
    ensures InvAt(Next(s, step), t)
  {
    var n := Next(s, step);
    forall v: WorkerId | Live(n, v, t) ensures Live(s, v, t) {}
    assert NotSeenRunning(s, t) ==> NotSeenRunning(n, t);
    forall v | v in n.workers ensures Owns(n, v, t) {
      assert Owns(s, v, t);
    }
    forall v | v in n.workers ensures SoundReader(n, v, t) {
      assert SoundReader(s, v, t);
      if n.workers[v].Reading? {
        forall c | c in n.workers[v].candidates && c.task == t ensures SoundSnapshot(n, c) {
          assert SoundSnapshot(s, c);
        }
      }
    }
  }

  lemma StepKeepsInvAt(s: State, step: Step, t: nat)
    requires InvAt(s, t) && SafeAt(s, step, t)
    ensures InvAt(Next(s, step), t)
  {
    match step
    case Read(w) => ReadKeepsInv(s, w, t);
    case TryClaim(w, leaseS) => ClaimKeepsInv(s, w, leaseS, t);
    case Tick(_) => OutsideKeepsInv(s, step, t);
    case Create(_, _, _) => OutsideKeepsInv(s, step, t);
    case Cancel(_) => OutsideKeepsInv(s, step, t);
    case Reopen(_, _) => OutsideKeepsInv(s, step, t);
    case Sweep => OutsideKeepsInv(s, step, t);
    case Rejoin(_) => OutsideKeepsInv(s, step, t);
    case _ => WorkKeepsInv(s, step, t);
  }

  /** An unsafe step endangers no task but the one it is unsafe for: exclusion on a task
      lasts over every run whose steps are safe for this task, whatever becomes of others. */
  lemma {:induction false} ExclusionIsPerTask(s: State, steps: seq<Step>, t: nat)
    requires InvAt(s, t) && SafeRunAt(s, steps, t)
    ensures InvAt(Run(s, steps), t) && ExclusiveAt(Run(s, steps), t)
    decreases |steps|
  {
    if steps != [] {
      hide InvAt, Next, SafeAt;
      StepKeepsInvAt(s, steps[0], t);
      ExclusionIsPerTask(Next(s, steps[0]), steps[1..], t);
    } else {
      hide ExclusiveAt;
    }
  }

  lemma StepKeepsFormed(s: State, step: Step)
    requires Formed(s)
    ensures Formed(Next(s, step)) && |Next(s, step).rows| >= |s.rows|
  {
    SelectFacts(s.rows, s.now);
    hide Select;
  }

  /** A row that has just been created. */
  lemma NewRowInv(s: State, maxSteps: int, maxRetries: int, runAfter: Option<int>)
    requires Formed(s)
    ensures InvAt(Next(s, Create(maxSteps, maxRetries, runAfter)), |s.rows|)
  {
  }

  lemma StepKeepsInv(s: State, step: Step)
    requires Inv(s) && Safe(s, step)
    ensures Inv(Next(s, step))
  {
    hide InvAt, SafeAt, Formed;
    StepKeepsFormed(s, step);
    forall t: nat | t < |Next(s, step).rows| ensures InvAt(Next(s, step), t) {
      if t < |s.rows| {
        StepKeepsInvAt(s, step, t);
      } else {
        NewRowInv(s, step.maxSteps, step.maxRetries, step.runAfter);
      }
    }
  }

  lemma {:induction false} RunKeepsInv(s: State, steps: seq<Step>)
    requires Inv(s) && SafeRun(s, steps)
    ensures Inv(Run(s, steps))
    decreases |steps|
  {
    if steps != [] {
      hide Inv, Next, Safe;
      StepKeepsInv(s, steps[0]);
      RunKeepsInv(Next(s, steps[0]), steps[1..]);
    }
  }

  /** A table nobody has claimed from yet. */
  ghost predicate Start(s: State) {
    && s.workers == map[]
    && |s.decisions| == |s.rows|
    && forall t :: 0 <= t < |s.rows| ==>
         && s.rows[t].worker.None? && s.rows[t].lease.None?
         && s.rows[t].step == s.rows[t].retries == s.decisions[t] == 0
  }

  /** However reads, claims, renewals, loads, writes, requeues, crashes, cancellations, ids
      that go round again and clock ticks interleave, no two live workers are ever on the
      same task. */
  lemma MutualExclusion(s: State, steps: seq<Step>)
    requires Start(s) && SafeRun(s, steps)
    ensures Exclusive(Run(s, steps))
  {
    assert Inv(s);
    RunKeepsInv(s, steps);
    var e := Run(s, steps);
    forall t: nat ensures ExclusiveAt(e, t) {
      if t < |e.rows| {
        assert InvAt(e, t);
      }
    }
  }

  /** The worker loop may use its id again after every claim it did not lose: when it found
      nothing to claim, when its row turned out to be finished, and when it ended its work
      before its lease did. */
  lemma LoopReusesItsIdSafely(s: State, step: Step)
    requires Inv(s) && Safe(s, step)
    requires step.TryClaim? || step.Load? || step.End?
    requires step.worker in s.workers && !s.workers[step.worker].Gone?
    requires Next(s, step).workers[step.worker].Gone?
    ensures Safe(Next(s, step), Rejoin(step.worker))
  {
    var w, n := step.worker, Next(s, step);
    forall t: nat ensures Forgotten(n, w, t) {
      if t < |s.rows| {
        assert InvAt(s, t) && SoundRow(s, t) && Owns(s, w, t);
        forall y, c | y in n.workers && n.workers[y].Reading? && c in n.workers[y].candidates && c.task == t
          ensures !(c.seen.status == Running && c.seen.worker == Some(w))
        {
          assert SoundReader(s, y, t) && SoundSnapshot(s, c);
          assert s.workers[w].Working? ==> Live(s, w, s.workers[w].task);
        }
      }
    }
  }

  // ------------------------------------------------------------------ //
  // Runs
  // ------------------------------------------------------------------ //

  lemma {:induction false} RunAppend(s: State, a: seq<Step>, b: seq<Step>)
    ensures Run(s, a + b) == Run(Run(s, a), b)
    decreases |a|
  {
    hide Next;
    if a == [] {
      assert a + b == b;
    } else {
      assert (a + b)[0] == a[0] && (a + b)[1..] == a[1..] + b;
      RunAppend(Next(s, a[0]), a[1..], b);
    }
  }

  lemma RunSnoc(s: State, steps: seq<Step>, i: nat)
    requires i < |steps|
    ensures Run(s, steps[..i + 1]) == Next(Run(s, steps[..i]), steps[i])
  {
    hide Next;
    assert steps[..i + 1] == steps[..i] + [steps[i]];
    RunAppend(s, steps[..i], [steps[i]]);
    var r := Run(s, steps[..i]);
    assert [steps[i]][1..] == [] && Run(Next(r, steps[i]), []) == Next(r, steps[i]);
  }

  lemma RunOf3(s: State, a: Step, b: Step, c: Step)
    ensures Run(s, [a, b, c]) == Next(Next(Next(s, a), b), c)
  {
    hide Next;
    assert [a, b, c][1..] == [b, c] && [b, c][1..] == [c] && [c][1..] == [];
    var last := Next(Next(Next(s, a), b), c);
    assert Run(last, []) == last;
    assert Run(Next(Next(s, a), b), [c]) == last;
  }

  lemma RunOf4(s: State, a: Step, b: Step, c: Step, d: Step)
    ensures Run(s, [a, b, c, d]) == Next(Next(Next(Next(s, a), b), c), d)
  {
    hide Next;
    assert [a, b, c, d][1..] == [b, c, d];
    RunOf3(Next(s, a), b, c, d);
  }

  lemma RunOf5(s: State, a: Step, b: Step, c: Step, d: Step, e: Step)
    ensures Run(s, [a, b, c, d, e]) == Next(Next(Next(Next(Next(s, a), b), c), d), e)
  {
    hide Next;
    assert [a, b, c, d, e][1..] == [b, c, d, e];
    RunOf4(Next(s, a), b, c, d, e);
  }

  lemma RunOf6(s: State, a: Step, b: Step, c: Step, d: Step, e: Step, f: Step)
    ensures Run(s, [a, b, c, d, e, f]) == Next(Next(Next(Next(Next(Next(s, a), b), c), d), e), f)
  {
    hide Next;
    assert [a, b, c, d, e, f][1..] == [b, c, d, e, f];
    RunOf5(Next(s, a), b, c, d, e, f);
  }

  lemma TwoHaveTwoTasks(cs: seq<Candidate>, t: nat)
    requires Increasing(cs)
    ensures |cs| >= 2 ==> exists c <- cs :: c.task != t
  {
    if |cs| >= 2 {
      assert cs[0] in cs && cs[1] in cs && cs[0].task < cs[1].task;
    }
  }

  lemma OnlyCandidate(rows: seq<Row>, now: int, t: nat)
    requires t < |rows| && Runnable(rows[t], now)
    requires forall j :: 0 <= j < |rows| && j != t ==> !Runnable(rows[j], now)
    ensures Select(rows, now) == [Candidate(t, rows[t])]
  {
    SelectFacts(rows, now);
    var cs := Select(rows, now);
    TwoHaveTwoTasks(cs, t);
    assert Candidate(t, rows[t]) in cs || |cs| == 5;
    assert forall c <- cs :: c == Candidate(t, rows[t]);
  }

  const FRESH_ROW := Row(Pending, None, None, None, 0, 2, 0, 14)
}
