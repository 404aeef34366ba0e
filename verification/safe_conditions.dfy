/** The conditions under which the protocol's unguarded steps are safe are exact. */
module SafeConditions {
  import opened ClaimProtocol
  import opened Options
  import opened Powers
  import opened Tasks

  /** Some continuation made of safe steps puts two live workers on the task. */
  ghost predicate CanDouble(s: State, t: nat) {
    exists steps :: SafeRun(s, steps) && !ExclusiveAt(Run(s, steps), t)
  }

  lemma NeverDoubles(s: State, t: nat)
    requires InvAt(s, t)
    ensures !CanDouble(s, t)
  {
    forall steps | SafeRun(s, steps) ensures ExclusiveAt(Run(s, steps), t) {
      SafeRunIsSafeAt(s, steps, t);
      ExclusionIsPerTask(s, steps, t);
    }
  }

  /** From one state to the other the task was not worked on: its counter and its decisions
      are the same, and whoever holds a counter loaded from it now held it then. */
  ghost predicate Quiet(s: State, n: State, t: nat) {
    && t < |s.rows| == |s.decisions| && t < |n.rows| == |n.decisions|
    && n.rows[t].step == s.rows[t].step && n.rows[t].maxSteps == s.rows[t].maxSteps
    && n.decisions[t] == s.decisions[t]
    && forall w: WorkerId :: Live(n, w, t) && n.workers[w].place.Loaded? ==>
         Live(s, w, t) && s.workers[w].place == n.workers[w].place
  }

  /** Two workers can come together on the task, which is RUNNING, before anything is done
      about it. */
  ghost predicate CanMeet(s: State, t: nat) {
    exists steps ::
      && SafeRun(s, steps) && Quiet(s, Run(s, steps), t)
      && !ExclusiveAt(Run(s, steps), t) && Run(s, steps).rows[t].status == Running
  }

  lemma MeetingDoubles(s: State, t: nat)
    requires CanMeet(s, t)
    ensures CanDouble(s, t)
  {
    hide SafeRun, ExclusiveAt, Quiet;
  }

  lemma MetNow(s: State, t: nat)
    requires t < |s.rows| == |s.decisions| && !ExclusiveAt(s, t) && s.rows[t].status == Running
    ensures CanMeet(s, t)
  {
    assert SafeRun(s, []) && Run(s, []) == s;
  }

  lemma MeetsAfter(s: State, step: Step, t: nat)
    requires Safe(s, step) && Quiet(s, Next(s, step), t) && CanMeet(Next(s, step), t)
    ensures CanMeet(s, t)
  {
    var n := Next(s, step);
    var steps :| SafeRun(n, steps) && Quiet(n, Run(n, steps), t) && !ExclusiveAt(Run(n, steps), t)
                 && Run(n, steps).rows[t].status == Running;
    QuietTwice(s, n, Run(n, steps), t);
    hide Safe, Next, ExclusiveAt, Quiet;
    var all := [step] + steps;
    assert all[0] == step && all[1..] == steps;
    assert SafeRun(s, all);
  }

  lemma QuietTwice(s: State, n: State, e: State, t: nat)
    requires Quiet(s, n, t) && Quiet(n, e, t)
    ensures Quiet(s, e, t)
  {
  }

  /** Every row from `i` on but `t` cancelled. */
  ghost function OnlyLeft(s: State, t: nat, i: nat): State {
    s.(rows := seq(|s.rows|, j requires 0 <= j < |s.rows| =>
      if j >= i && j != t then StatusRow(s.rows[j], Cancelled) else s.rows[j]))
  }

  lemma {:induction false} MeetsAlone(s: State, t: nat, i: nat)
    requires i <= |s.rows| && t < |s.rows| == |s.decisions| && CanMeet(OnlyLeft(s, t, i), t)
    ensures CanMeet(s, t)
    decreases |s.rows| - i
  {
    hide CanMeet;
    if i == |s.rows| {
      assert OnlyLeft(s, t, i) == s;
    } else if i == t {
      assert OnlyLeft(s, t, i + 1) == OnlyLeft(s, t, i);
      MeetsAlone(s, t, i + 1);
    } else {
      var n := Next(s, Cancel(i));
      assert OnlyLeft(n, t, i + 1) == OnlyLeft(s, t, i);
      MeetsAlone(n, t, i + 1);
      MeetsAfter(s, Cancel(i), t);
    }
  }

  /** A reader that remembers the row so that the guard passes, while somebody else is at
      work on it and every other row is finished, gets onto it. */
  lemma {:induction false} ReaderMeets(s: State, w: WorkerId, y: WorkerId, c: Candidate)
    requires w != y && Live(s, w, c.task)
    requires y in s.workers && s.workers[y].Reading? && c in s.workers[y].candidates
    requires Increasing(s.workers[y].candidates)
    requires forall d <- s.workers[y].candidates :: d.task < |s.rows| && !Terminal(d.seen.status)
    requires |s.rows| == |s.decisions| && forall j :: 0 <= j < |s.rows| && j != c.task ==> Terminal(s.rows[j].status)
    requires GuardPasses(s.rows[c.task], c.seen)
    ensures CanMeet(s, c.task)
    decreases |s.workers[y].candidates|
  {
    hide CanMeet;
    var cs := s.workers[y].candidates;
    assert cs[0] in cs;
    var step := TryClaim(y, s.now - s.workers[y].readAt);
    var n := Next(s, step);
    if cs[0].task == c.task {
      var i :| 0 <= i < |cs| && cs[i] == c;
      assert i == 0;
      assert Live(n, y, c.task) && Live(n, w, c.task);
      MetNow(n, c.task);
    } else {
      assert c in cs[1..];
      assert forall d <- cs[1..] :: d in cs;
      ReaderMeets(n, w, y, c);
    }
    MeetsAfter(s, step, c.task);
  }

  lemma {:induction false} UpperBound(ids: set<WorkerId>) returns (bound: nat)
    ensures forall w <- ids :: w < bound
  {
    if ids == {} {
      bound := 0;
    } else {
      var w :| w in ids;
      var rest := UpperBound(ids - {w});
      bound := if w < rest then rest else w + 1;
      assert forall v <- ids :: v == w || v in ids - {w};
    }
  }

  /** A runnable row with a live worker on it goes to a newcomer as well. */
  lemma RunnableUnderLiveWorkerMeets(s: State, w: WorkerId, t: nat)
    requires Live(s, w, t) && t < |s.rows| == |s.decisions| && Runnable(s.rows[t], s.now)
    ensures CanMeet(s, t)
  {
    hide CanMeet;
    var x := UpperBound(s.workers.Keys);
    assert x !in s.workers;
    var alone := OnlyLeft(s, t, 0);
    OnlyCandidate(alone.rows, alone.now, t);
    var read := Next(alone, Read(x));
    ReaderMeets(read, w, x, Candidate(t, s.rows[t]));
    MeetsAfter(alone, Read(x), t);
    MeetsAlone(s, t, 0);
  }

  /** A queued row that still has a live worker on it can be given to a second one: the
      first renews, any retry delay runs out, and a newcomer claims it. */
  lemma QueuedUnderLiveWorkerMeets(s: State, w: WorkerId, t: nat)
    requires Live(s, w, t) && t < |s.rows| == |s.decisions| && s.rows[t].status == Pending
    ensures CanMeet(s, t)
  {
    hide CanMeet;
    var wait := if s.rows[t].runAfter.Some? && s.rows[t].runAfter.value > s.now
                then s.rows[t].runAfter.value - s.now else 0;
    var s1 := Next(s, Renew(w, wait));
    var s2 := Next(s1, Tick(wait));
    RunnableUnderLiveWorkerMeets(s2, w, t);
    MeetsAfter(s1, Tick(wait), t);
    MeetsAfter(s, Renew(w, wait), t);
  }

  /** Reopening a task endangers exclusion on it exactly when somebody is still at work on it. */
  lemma ReopenSafeIff(s: State, t: nat, keepDelay: bool)
    requires Inv(s) && t < |s.rows|
    ensures CanDouble(Next(s, Reopen(t, keepDelay)), t) <==> exists w: WorkerId :: Live(s, w, t)
  {
    var n := Next(s, Reopen(t, keepDelay));
    hide CanDouble;
    if w: WorkerId :| Live(s, w, t) {
      ReopenMeets(s, w, t, keepDelay);
      MeetingDoubles(n, t);
    } else {
      StepKeepsInvAt(s, Reopen(t, keepDelay), t);
      NeverDoubles(n, t);
    }
  }

  lemma ReopenMeets(s: State, w: WorkerId, t: nat, keepDelay: bool)
    requires Live(s, w, t) && t < |s.rows| == |s.decisions|
    ensures CanMeet(Next(s, Reopen(t, keepDelay)), t)
  {
    var n := Next(s, Reopen(t, keepDelay));
    assert Live(n, w, t);
    QueuedUnderLiveWorkerMeets(n, w, t);
  }

  /** The start-up sweep endangers exclusion on a task exactly when its row is RUNNING and
      still has a live worker. */
  lemma SweepSafeIff(s: State, t: nat)
    requires Inv(s) && t < |s.rows|
    ensures CanDouble(Next(s, Sweep), t) <==> s.rows[t].status == Running && exists w: WorkerId :: Live(s, w, t)
  {
    var n := Next(s, Sweep);
    hide CanDouble;
    if s.rows[t].status == Running && exists w: WorkerId :: Live(s, w, t) {
      var w: WorkerId :| Live(s, w, t);
      SweepMeets(s, w, t);
      MeetingDoubles(n, t);
    } else {
      StepKeepsInvAt(s, Sweep, t);
      NeverDoubles(n, t);
    }
  }

  lemma SweepMeets(s: State, w: WorkerId, t: nat)
    requires Live(s, w, t) && t < |s.rows| == |s.decisions| && s.rows[t].status == Running
    ensures CanMeet(Next(s, Sweep), t)
  {
    var n := Next(s, Sweep);
    assert Live(n, w, t);
    QueuedUnderLiveWorkerMeets(n, w, t);
  }

  /** Writing a step back endangers exclusion exactly when the row was cancelled since it
      was loaded and a reader remembers it as RUNNING: the write makes it RUNNING again,
      in nobody's name, and the guard lets that reader onto it. */
  lemma PersistSafeIff(s: State, w: WorkerId)
    requires Inv(s) && CanPersist(s, w)
    ensures var t := s.workers[w].task;
            CanDouble(Next(s, Persist(w)), t) <==> Terminal(s.rows[t].status) && !NotSeenRunning(s, t)
  {
    var n, t := Next(s, Persist(w)), s.workers[w].task;
    hide CanDouble;
    if Terminal(s.rows[t].status) && !NotSeenRunning(s, t) {
      PersistMeets(s, w);
      MeetingDoubles(n, t);
    } else {
      StepKeepsInvAt(s, Persist(w), t);
      NeverDoubles(n, t);
    }
  }

  lemma PersistMeets(s: State, w: WorkerId)
    requires Inv(s) && CanPersist(s, w)
    requires Terminal(s.rows[s.workers[w].task].status) && !NotSeenRunning(s, s.workers[w].task)
    ensures CanMeet(Next(s, Persist(w)), s.workers[w].task)
  {
    var n, t := Next(s, Persist(w)), s.workers[w].task;
    hide CanMeet;
    assert InvAt(s, t);
    var y, c :| y in s.workers && s.workers[y].Reading? && c in s.workers[y].candidates
                && c.task == t && c.seen.status == Running;
    SnapshotsAreSound(s, y);
    ReaderMeets(OnlyLeft(n, t, 0), w, y, c);
    MeetsAlone(n, t, 0);
  }

  lemma SnapshotsAreSound(s: State, y: WorkerId)
    requires Inv(s) && y in s.workers && s.workers[y].Reading?
    ensures Increasing(s.workers[y].candidates)
    ensures forall c <- s.workers[y].candidates :: c.task < |s.rows| && SoundSnapshot(s, c)
  {
    forall c | c in s.workers[y].candidates ensures c.task < |s.rows| && SoundSnapshot(s, c) {
      assert InvAt(s, c.task) && SoundReader(s, y, c.task);
    }
  }

  /** A newcomer and the id itself read a row whose lease in that id's name is over, the
      id claims it again, and to the newcomer it looks as it was read. */
  lemma ExpiredRowMeets(s: State, w: WorkerId, x: WorkerId, t: nat)
    requires w !in s.workers && x !in s.workers && w != x
    requires t < |s.rows| == |s.decisions| && Runnable(s.rows[t], s.now)
    requires s.rows[t].status == Running && s.rows[t].worker == Some(w)
    requires forall j :: 0 <= j < |s.rows| && j != t ==> Terminal(s.rows[j].status)
    ensures CanMeet(s, t)
  {
    hide CanMeet;
    OnlyCandidate(s.rows, s.now, t);
    var s1 := Next(s, Read(x));
    var s2 := Next(s1, Read(w));
    var s3 := Next(s2, TryClaim(w, 0));
    assert Live(s3, w, t);
    ReaderMeets(s3, w, x, Candidate(t, s.rows[t]));
    MeetsAfter(s2, TryClaim(w, 0), t);
    MeetsAfter(s1, Read(w), t);
    MeetsAfter(s, Read(x), t);
  }

  /** A RUNNING row left behind in the name of an id that goes round again: its lease, and
      any retry delay, run out. */
  lemma LeftBehindMeets(s: State, w: WorkerId, t: nat)
    requires w !in s.workers && t < |s.rows| == |s.decisions|
    requires s.rows[t].status == Running && s.rows[t].worker == Some(w) && s.rows[t].lease.Some?
    ensures CanMeet(s, t)
  {
    hide CanMeet;
    var alone, row := OnlyLeft(s, t, 0), s.rows[t];
    var wait := Max(0, Max(row.lease.value + 1 - s.now,
                           if row.runAfter.Some? then row.runAfter.value - s.now else 0));
    var x := UpperBound(s.workers.Keys + {w});
    assert x !in s.workers.Keys + {w};
    ExpiredRowMeets(Next(alone, Tick(wait)), w, x, t);
    MeetsAfter(alone, Tick(wait), t);
    MeetsAlone(s, t, 0);
  }

  /** A reader that remembers a row as RUNNING in that id's name: the id gets the row back
      into its own name, and to the reader it looks as it was read. */
  lemma RememberedMeets(s: State, w: WorkerId, y: WorkerId, c: Candidate)
    requires w !in s.workers && c.task < |s.rows| == |s.decisions|
    requires forall v: WorkerId :: !Live(s, v, c.task)
    requires y in s.workers && s.workers[y].Reading? && c in s.workers[y].candidates
    requires Increasing(s.workers[y].candidates)
    requires forall d <- s.workers[y].candidates :: d.task < |s.rows| && !Terminal(d.seen.status)
    requires c.seen.status == Running && c.seen.worker == Some(w)
    ensures CanMeet(s, c.task)
  {
    hide CanMeet;
    var t := c.task;
    var alone := OnlyLeft(s, t, 0);
    var s1 := Next(alone, Reopen(t, false));
    assert Safe(alone, Reopen(t, false)) by {
      assert forall v: WorkerId :: Live(alone, v, t) ==> Live(s, v, t);
    }
    OnlyCandidate(s1.rows, s1.now, t);
    var s2 := Next(s1, Read(w));
    var s3 := Next(s2, TryClaim(w, 0));
    assert Live(s3, w, t);
    ReaderMeets(s3, w, y, c);
    MeetsAfter(s2, TryClaim(w, 0), t);
    MeetsAfter(s1, Read(w), t);
    MeetsAfter(alone, Reopen(t, false), t);
    MeetsAlone(s, t, 0);
  }

  /** The same, once whoever is at work on the row has died. */
  lemma RememberedMeetsAnyway(s: State, w: WorkerId, y: WorkerId, c: Candidate)
    requires ExclusiveAt(s, c.task) && w !in s.workers && c.task < |s.rows| == |s.decisions|
    requires y in s.workers && s.workers[y].Reading? && c in s.workers[y].candidates
    requires Increasing(s.workers[y].candidates)
    requires forall d <- s.workers[y].candidates :: d.task < |s.rows| && !Terminal(d.seen.status)
    requires c.seen.status == Running && c.seen.worker == Some(w)
    ensures CanMeet(s, c.task)
  {
    hide CanMeet;
    if v: WorkerId :| Live(s, v, c.task) {
      var n := Next(s, Crash(v));
      forall z: WorkerId ensures !Live(n, z, c.task) {
        assert Live(n, z, c.task) ==> Live(s, z, c.task);
      }
      RememberedMeets(n, w, y, c);
      MeetsAfter(s, Crash(v), c.task);
    } else {
      RememberedMeets(s, w, y, c);
    }
  }

  /** A row is RUNNING in this id's name, or somebody remembers that it was. */
  ghost predicate Remembered(s: State, w: WorkerId, t: nat)
    requires t < |s.rows|
  {
    || (s.rows[t].status == Running && s.rows[t].worker == Some(w))
    || exists y, c :: y in s.workers && s.workers[y].Reading? && c in s.workers[y].candidates
                      && c.task == t && c.seen.status == Running && c.seen.worker == Some(w)
  }

  lemma RejoinMeets(s: State, w: WorkerId, t: nat)
    requires Inv(s) && w in s.workers && s.workers[w].Gone? && t < |s.rows| && Remembered(s, w, t)
    ensures CanMeet(Next(s, Rejoin(w)), t)
  {
    var n := Next(s, Rejoin(w));
    hide CanMeet;
    assert InvAt(s, t);
    if s.rows[t].status == Running && s.rows[t].worker == Some(w) {
      assert SoundRow(s, t);
      LeftBehindMeets(n, w, t);
    } else {
      var y, c :| y in s.workers && s.workers[y].Reading? && c in s.workers[y].candidates
                  && c.task == t && c.seen.status == Running && c.seen.worker == Some(w);
      SnapshotsAreSound(s, y);
      assert forall v: WorkerId :: Live(n, v, t) ==> Live(s, v, t);
      RememberedMeetsAnyway(n, w, y, c);
    }
  }

  /** Letting an id go round again endangers exclusion on a task exactly when its row is
      still RUNNING in that name, or a reader remembers that it was. */
  lemma ReuseSafeIff(s: State, w: WorkerId, t: nat)
    requires Inv(s) && w in s.workers && s.workers[w].Gone? && t < |s.rows|
    ensures CanDouble(Next(s, Rejoin(w)), t) <==> Remembered(s, w, t)
  {
    var n := Next(s, Rejoin(w));
    hide CanDouble;
    if Remembered(s, w, t) {
      RejoinMeets(s, w, t);
      MeetingDoubles(n, t);
    } else {
      StepKeepsInvAt(s, Rejoin(w), t);
      NeverDoubles(n, t);
    }
  }

  /** All of it in one: a step lets two live workers come together on a task exactly when
      it is not safe for that task. */
  lemma SafeIff(s: State, step: Step, t: nat)
    requires Inv(s) && t < |s.rows|
    ensures CanDouble(Next(s, step), t) <==> !SafeAt(s, step, t)
    ensures !SafeAt(s, step, t) ==> CanMeet(Next(s, step), t)
  {
    var n := Next(s, step);
    hide CanDouble, CanMeet;
    assert InvAt(s, t);
    if SafeAt(s, step, t) {
      StepKeepsInvAt(s, step, t);
      NeverDoubles(n, t);
    } else {
      match step {
        case Reopen(_, keepDelay) =>
          var w: WorkerId :| Live(s, w, t);
          ReopenMeets(s, w, t, keepDelay);
        case Sweep =>
          var w: WorkerId :| Live(s, w, t);
          SweepMeets(s, w, t);
        case Persist(w) => PersistMeets(s, w);
        case Rejoin(w) => RejoinMeets(s, w, t);
      }
      MeetingDoubles(n, t);
    }
  }
}
