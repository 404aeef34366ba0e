/** What stale reads and ids that go round again can and cannot do. */
module StaleClaims {
  import opened ClaimProtocol
  import opened Options
  import opened Tasks

  /** As long as its id does not go round again, a reader only drops candidates. */
  lemma {:induction false} ReadersOnlyDrop(s: State, steps: seq<Step>, w: WorkerId)
    requires w in s.workers && forall step <- steps :: step != Rejoin(w)
    ensures w in Run(s, steps).workers
    ensures Run(s, steps).workers[w].Reading? ==>
              && s.workers[w].Reading?
              && forall c <- Run(s, steps).workers[w].candidates :: c in s.workers[w].candidates
    decreases |steps|
  {
    if steps != [] {
      hide Select, Backoff;
      assert steps[0] in steps && forall step <- steps[1..] :: step in steps;
      ReadersOnlyDrop(Next(s, steps[0]), steps[1..], w);
    }
  }

  /** One worker claims a row that another has read as well. Whatever happens then, however
      many other candidates the second one still tries: when it comes to this row, its
      claim changes nothing as long as the row is RUNNING in the first one's name. When it
      is in that name but no longer RUNNING, the claim still changes nothing, unless the
      second one read it in that very name, from an earlier round of the id. */
  lemma AtMostOneClaimPerRead(s: State, first: WorkerId, second: WorkerId, leaseS: int,
                              steps: seq<Step>, otherLeaseS: int)
    requires Inv(s) && first != second
    requires first in s.workers && s.workers[first].Reading? && s.workers[first].candidates != []
    requires second in s.workers && s.workers[second].Reading?
    requires forall step <- steps :: step != Rejoin(second)
    ensures
      var t := s.workers[first].candidates[0].task;
      var e := Run(Next(s, TryClaim(first, leaseS)), steps);
      && second in e.workers
      && (e.workers[second].Reading? && e.workers[second].candidates != []
          && e.workers[second].candidates[0].task == t && t < |e.rows| && e.rows[t].worker == Some(first)
          && (e.rows[t].status == Running || e.workers[second].candidates[0].seen.worker != Some(first)) ==>
            Next(e, TryClaim(second, otherLeaseS)).rows == e.rows)
  {
    var t := s.workers[first].candidates[0].task;
    var s1 := Next(s, TryClaim(first, leaseS));
    ReadersOnlyDrop(s1, steps, second);
    var e := Run(s1, steps);
    if e.workers[second].Reading? && e.workers[second].candidates != [] && e.workers[second].candidates[0].task == t {
      var c := e.workers[second].candidates[0];
      assert c in s.workers[second].candidates;
      assert t < |s.rows| && InvAt(s, t) && SoundReader(s, second, t) && SoundSnapshot(s, c);
    }
  }

  // ------------------------------------------------------------------ //
  // Claims that come too early
  // ------------------------------------------------------------------ //

  /** This step puts the task back in the queue with a delay. */
  ghost predicate Requeues(s: State, step: Step, t: nat) {
    && step.End? && step.ending.TryAgain? && CanEnd(s, step.worker, step.ending)
    && s.workers[step.worker].task == t
    && (step.ending.persistForever || s.rows[t].retries < s.rows[t].maxRetries)
  }

  predicate DropsDelay(step: Step, t: nat) {
    step.Reopen? && step.task == t && !step.keepDelay
  }

  lemma DelayStep(s: State, step: Step, t: nat)
    requires t < |s.rows|
    ensures t < |Next(s, step).rows| && Next(s, step).now >= s.now
    ensures Next(s, step).rows[t].runAfter
            == if Requeues(s, step, t) then Some(s.now + Backoff(s.rows[t].retries))
               else if DropsDelay(step, t) then None
               else s.rows[t].runAfter
  {
    hide Backoff, Select;
  }

  /** Step `i` requeued the task with a delay that runs beyond `now`, and no later step
      requeued it again or dropped the delay. */
  ghost predicate DelayedBy(s: State, steps: seq<Step>, t: nat, now: int, i: nat) {
    && i < |steps|
    && (var r := Run(s, steps[..i]);
        t < |r.rows| && Requeues(r, steps[i], t) && r.now + Backoff(r.rows[t].retries) > now)
    && forall j :: i < j < |steps| ==> !DropsDelay(steps[j], t) && !Requeues(Run(s, steps[..j]), steps[j], t)
  }

  predicate Ahead(runAfter: Option<int>, now: int) {
    runAfter.Some? && runAfter.value > now
  }

  /** A row whose delay was over is delayed again exactly by a requeue since. */
  lemma {:induction false} DelayedIff(s: State, steps: seq<Step>, t: nat, now: int)
    requires t < |s.rows| && !Ahead(s.rows[t].runAfter, now)
    ensures t < |Run(s, steps).rows|
    ensures Ahead(Run(s, steps).rows[t].runAfter, now) <==> exists i: nat :: DelayedBy(s, steps, t, now, i)
    decreases |steps|
  {
    if steps != [] {
      var n := |steps| - 1;
      var front, last := steps[..n], steps[n];
      DelayedIff(s, front, t, now);
      RunSnoc(s, steps, n);
      assert steps[..n + 1] == steps;
      hide Run, Next, Backoff, Requeues;
      DelayStep(Run(s, front), last, t);
      DelayedSnoc(s, steps, t, now);
    }
  }

  lemma DelayedSnoc(s: State, steps: seq<Step>, t: nat, now: int)
    requires steps != [] && t < |Run(s, steps[..|steps| - 1]).rows|
    ensures
      var n := |steps| - 1;
      var r := Run(s, steps[..n]);
      (exists i: nat :: DelayedBy(s, steps, t, now, i)) <==>
        if Requeues(r, steps[n], t) then r.now + Backoff(r.rows[t].retries) > now
        else !DropsDelay(steps[n], t) && exists i: nat :: DelayedBy(s, steps[..n], t, now, i)
  {
    hide Run, Next, Backoff, Requeues;
    var n := |steps| - 1;
    var front, r := steps[..n], Run(s, steps[..n]);
    assert forall i: nat :: i < n ==> front[i] == steps[i] && front[..i] == steps[..i];
    if Requeues(r, steps[n], t) {
      assert DelayedBy(s, steps, t, now, n) <==> r.now + Backoff(r.rows[t].retries) > now;
      assert forall i: nat :: DelayedBy(s, steps, t, now, i) ==> i == n;
    } else {
      forall i: nat ensures DelayedBy(s, steps, t, now, i) <==>
                            !DropsDelay(steps[n], t) && DelayedBy(s, front, t, now, i)
      {
        if i < n {
          assert forall j :: i < j < n ==> front[j] == steps[j] && front[..j] == steps[..j];
        }
      }
    }
  }

  /** When a claim comes too early. A worker reads a row; anything happens; and then its
      guard passes. The row it takes is still waiting for its retry exactly when some
      model failure since the read requeued it, the delay of that is not over, and nothing
      has dropped it. */
  lemma ClaimIsEarlyIff(s: State, r: WorkerId, c: Candidate, steps: seq<Step>, w: WorkerId, leaseS: int)
    requires r !in s.workers && c in Select(s.rows, s.now)
    requires
      var e := Run(Next(s, Read(r)), steps);
      && w in e.workers && e.workers[w].Reading?
      && e.workers[w].candidates != [] && e.workers[w].candidates[0] == c
      && c.task < |e.rows| && GuardPasses(e.rows[c.task], c.seen)
    ensures
      var n := Next(s, Read(r));
      var e := Run(n, steps);
      var claimed := Next(e, TryClaim(w, leaseS));
      && claimed.rows[c.task].worker == Some(w)
      && (Ahead(claimed.rows[c.task].runAfter, claimed.now) <==>
            exists i: nat :: DelayedBy(n, steps, c.task, e.now, i))
  {
    SelectFacts(s.rows, s.now);
    var n := Next(s, Read(r));
    TimeGoesOn(n, steps);
    DelayedIff(n, steps, c.task, Run(n, steps).now);
  }

  lemma {:induction false} TimeGoesOn(s: State, steps: seq<Step>)
    ensures Run(s, steps).now >= s.now
    decreases |steps|
  {
    if steps != [] {
      TimeGoesOn(Next(s, steps[0]), steps[1..]);
    }
  }

  /** In particular a claim is never early when nothing requeued the task since the read. */
  lemma UnrequeuedClaimIsNeverEarly(s: State, r: WorkerId, c: Candidate, steps: seq<Step>, w: WorkerId, leaseS: int)
    requires r !in s.workers && c in Select(s.rows, s.now)
    requires
      var e := Run(Next(s, Read(r)), steps);
      && w in e.workers && e.workers[w].Reading?
      && e.workers[w].candidates != [] && e.workers[w].candidates[0] == c
      && c.task < |e.rows| && GuardPasses(e.rows[c.task], c.seen)
    requires forall i: nat :: i < |steps| ==> !Requeues(Run(Next(s, Read(r)), steps[..i]), steps[i], c.task)
    ensures
      var claimed := Next(Run(Next(s, Read(r)), steps), TryClaim(w, leaseS));
      claimed.rows[c.task].worker == Some(w) && !Ahead(claimed.rows[c.task].runAfter, claimed.now)
  {
    ClaimIsEarlyIff(s, r, c, steps, w, leaseS);
  }

  // ------------------------------------------------------------------ //
  // Two ways to defeat the guard
  // ------------------------------------------------------------------ //

  /** A claim that is early: a worker that read the row before it was requeued takes it at
      once, although no query would offer it for another 30 s. */
  lemma StaleClaimIgnoresDelay()
    ensures
      var s := State(0, [FRESH_ROW], map[], [0]);
      var s1 := Run(s, [Read(1), Read(2), TryClaim(1, 900), Load(1), Persist(1), End(1, TryAgain(false))]);
      var requeued := Row(Pending, None, None, Some(30), 1, 2, 1, 14);
      && Start(s)
      && s1.rows == [requeued] && !Runnable(requeued, s1.now)
      && Live(Next(s1, TryClaim(2, 900)), 2, 0)
  {
    hide Run;
    var s := State(0, [FRESH_ROW], map[], [0]);
    OnlyCandidate(s.rows, 0, 0);
    hide Select;
    var two := Next(Next(s, Read(1)), Read(2));
    var reading := Reading([Candidate(0, FRESH_ROW)], 0);
    assert two == State(0, [FRESH_ROW], map[1 := reading, 2 := reading], [0]);
    var s5 := Next(Next(Next(two, TryClaim(1, 900)), Load(1)), Persist(1));
    assert s5.rows == [Row(Running, Some(1), Some(900), None, 0, 2, 1, 14)];
    RunOf6(s, Read(1), Read(2), TryClaim(1, 900), Load(1), Persist(1), End(1, TryAgain(false)));
  }

  /** Worker 1 lets its lease run out and is gone, and worker 2 reads the expired row. */
  lemma LeaseRunsOut()
    ensures
      var taken := ClaimRow(FRESH_ROW, 1, 10);
      Run(State(0, [FRESH_ROW], map[], [0]), [Read(1), TryClaim(1, 10), Tick(11), Read(2), Crash(1)])
      == State(11, [taken], map[1 := Gone, 2 := Reading([Candidate(0, taken)], 11)], [0])
  {
    hide Run;
    var taken := ClaimRow(FRESH_ROW, 1, 10);
    OnlyCandidate([FRESH_ROW], 0, 0);
    OnlyCandidate([taken], 11, 0);
    hide Select;
    var s := State(0, [FRESH_ROW], map[], [0]);
    var s2 := Next(Next(s, Read(1)), TryClaim(1, 10));
    assert s2 == State(0, [taken], map[1 := Working(0, 10, Top)], [0]);
    RunOf5(s, Read(1), TryClaim(1, 10), Tick(11), Read(2), Crash(1));
  }

  /** An id that goes round again too soon. Worker 1 lets its lease run out; worker 2 reads
      the expired row; the id comes back and claims the row again. The row looks to worker
      2 exactly as it was read, so its claim goes through as well. */
  lemma ReusedIdDefeatsTheLock()
    ensures
      var s := State(0, [FRESH_ROW], map[], [0]);
      var expired := Run(s, [Read(1), TryClaim(1, 10), Tick(11), Read(2), Crash(1)]);
      var doubled := Run(expired, [Rejoin(1), Read(1), TryClaim(1, 10), TryClaim(2, 10)]);
      Start(s) && Live(doubled, 1, 0) && Live(doubled, 2, 0)
  {
    hide Run;
    LeaseRunsOut();
    var taken, again := ClaimRow(FRESH_ROW, 1, 10), ClaimRow(FRESH_ROW, 1, 21);
    var seen := Reading([Candidate(0, taken)], 11);
    var expired := State(11, [taken], map[1 := Gone, 2 := seen], [0]);
    assert map[1 := Gone, 2 := seen] - {1} == map[2 := seen];
    OnlyCandidate([taken], 11, 0);
    hide Select;
    var claimed := Next(Next(Next(expired, Rejoin(1)), Read(1)), TryClaim(1, 10));
    assert claimed.rows == [again] && claimed.workers[1] == Working(0, 21, Top);
    RunOf4(expired, Rejoin(1), Read(1), TryClaim(1, 10), TryClaim(2, 10));
  }
}
