/** Task rows and the repository calls that change them, one atomic call at a time. */
module Tasks {
  import opened Options
  import opened Powers

  // Rows are kept in creation order, so a task is identified by its position and the
  // "oldest first" ordering of the claim query is the order of the sequence. Times are
  // whole seconds.

  type WorkerId = nat

  datatype Status =
    | Pending | Running | Waiting | WaitingForUser | WaitingForExternalEvent
    | Completed | Failed | Cancelled

  predicate Terminal(status: Status) {
    status == Completed || status == Failed || status == Cancelled
  }

  datatype Row = Row(
    status: Status,
    worker: Option<WorkerId>,
    lease: Option<int>,
    runAfter: Option<int>,
    retries: nat,
    maxRetries: int,
    step: nat,
    maxSteps: int)

  /** What a claim read about one row. */
  datatype Candidate = Candidate(task: nat, seen: Row)

  const CLAIM_LIMIT := 5

  predicate Runnable(row: Row, now: int) {
    && (|| row.status == Pending
        || row.status == Waiting
        || (row.status == Running && row.lease.Some? && row.lease.value < now))
    && (row.runAfter.None? || row.runAfter.value <= now)
  }

  /** The optimistic lock: the status as read, and nobody but the worker as read. */
  predicate GuardPasses(row: Row, seen: Row) {
    && row.status == seen.status
    && (row.worker.None? || row.worker == seen.worker)
  }

  function ClaimRow(row: Row, worker: WorkerId, until: int): Row {
    row.(status := Running, worker := Some(worker), lease := Some(until))
  }

  function RenewRow(row: Row, worker: WorkerId, until: int): Row {
    if row.worker == Some(worker) then row.(lease := Some(until)) else row
  }

  function StatusRow(row: Row, status: Status): Row {
    if Terminal(status) then row.(status := status, worker := None, lease := None)
    else row.(status := status)
  }

  function RequeueRow(row: Row, runAfter: int): Row {
    row.(status := Pending, worker := None, lease := None,
         runAfter := Some(runAfter), retries := row.retries + 1)
  }

  function RecoverRow(row: Row): Row {
    if row.status == Running then row.(status := Pending, worker := None, lease := None) else row
  }

  /** A failure that may pass: back to the queue while retries last, failed for good after. */
  function RetryRow(row: Row, persistForever: bool, now: int): Row {
    if persistForever || row.retries < row.maxRetries
    then RequeueRow(row, now + Backoff(row.retries))
    else StatusRow(row, Failed)
  }

  /** Every runnable row from position `from` on, oldest first. */
  function RunnableFrom(rows: seq<Row>, now: int, from: nat): seq<Candidate>
    requires from <= |rows|
    decreases |rows| - from
  {
    if from == |rows| then []
    else if Runnable(rows[from], now) then
      [Candidate(from, rows[from])] + RunnableFrom(rows, now, from + 1)
    else RunnableFrom(rows, now, from + 1)
  }

  /** The claim query: the oldest runnable rows, at most CLAIM_LIMIT of them. */
  function Select(rows: seq<Row>, now: int): seq<Candidate> {
    var all := RunnableFrom(rows, now, 0);
    if |all| <= CLAIM_LIMIT then all else all[..CLAIM_LIMIT]
  }

  predicate Increasing(cs: seq<Candidate>) {
    forall i, j :: 0 <= i < j < |cs| ==> cs[i].task < cs[j].task
  }

  lemma {:induction false} RunnableFromFacts(rows: seq<Row>, now: int, from: nat)
    requires from <= |rows|
    ensures var cs := RunnableFrom(rows, now, from);
            && (forall c <- cs :: from <= c.task < |rows| && c.seen == rows[c.task] && Runnable(c.seen, now))
            && (forall t :: from <= t < |rows| && Runnable(rows[t], now) ==> Candidate(t, rows[t]) in cs)
            && Increasing(cs)
    decreases |rows| - from
  {
    if from < |rows| {
      RunnableFromFacts(rows, now, from + 1);
    }
  }

  /** The query returns true snapshots of runnable rows, oldest first: all of them, or the
      five oldest, in which case every other runnable row is younger than the last. */
  lemma SelectFacts(rows: seq<Row>, now: int)
    ensures var cs := Select(rows, now);
            && (forall c <- cs :: c.task < |rows| && c.seen == rows[c.task] && Runnable(c.seen, now))
            && Increasing(cs) && |cs| <= 5
            && forall t :: 0 <= t < |rows| && Runnable(rows[t], now) && Candidate(t, rows[t]) !in cs ==>
                 |cs| == 5 && t > cs[4].task
  {
    RunnableFromFacts(rows, now, 0);
    var all, cs := RunnableFrom(rows, now, 0), Select(rows, now);
    assert forall j :: 0 <= j < |cs| ==> cs[j] == all[j] && all[j] in cs;
    forall t | 0 <= t < |rows| && Runnable(rows[t], now) && Candidate(t, rows[t]) !in cs
      ensures |cs| == 5 && t > cs[4].task
    {
      var i :| 0 <= i < |all| && all[i] == Candidate(t, rows[t]);
    }
  }

  /** Which rows can be claimed: queued and waiting ones, and running ones whose lease is
      over, once their delay is over; none that is finished or waits for somebody. */
  lemma WhoIsRunnable(row: Row, now: int)
    ensures row.runAfter.Some? && row.runAfter.value > now ==> !Runnable(row, now)
    ensures row.runAfter == None || row.runAfter.value <= now ==>
              (Runnable(row, now) <==>
                 match row.status
                 case Pending => true
                 case Waiting => true
                 case Running => row.lease.Some? && row.lease.value < now
                 case WaitingForUser => false
                 case WaitingForExternalEvent => false
                 case Completed => false
                 case Failed => false
                 case Cancelled => false)
  {
  }

  /** The first candidate is the oldest runnable row, and there is none only when no row
      is runnable. */
  lemma SelectOldest(rows: seq<Row>, now: int)
    ensures var cs := Select(rows, now);
            && (cs == [] <==> forall t :: 0 <= t < |rows| ==> !Runnable(rows[t], now))
            && (cs != [] ==>
                  cs[0].task < |rows| && forall t :: 0 <= t < cs[0].task ==> !Runnable(rows[t], now))
  {
    SelectFacts(rows, now);
    var cs := Select(rows, now);
    if cs != [] {
      assert cs[0] in cs;
      forall t | 0 <= t < cs[0].task ensures !Runnable(rows[t], now) {
        assert forall i :: 0 <= i < |cs| ==> cs[i].task >= cs[0].task;
      }
    }
  }

  /** The seconds a task waits before its next attempt: doubling, capped at half an hour. */
  function Backoff(retries: nat): int {
    Min(30 * Pow2(retries), 1800)
  }

  /** The first wait is 30 s, every further one twice the one before, up to half an hour. */
  lemma BackoffDoubles(n: nat)
    ensures Backoff(0) == 30
    ensures Backoff(n + 1) == Min(2 * Backoff(n), 1800)
  {
    assert Pow2(0) == 1 && Pow2(n + 1) == 2 * Pow2(n);
  }

  /** So waiting never gets shorter, and settles at half an hour from the seventh retry on. */
  lemma BackoffShape(m: nat, n: nat)
    requires m <= n
    ensures 30 <= Backoff(m) <= Backoff(n) <= 1800
    ensures Backoff(n) == 1800 <==> n >= 6
  {
    Pow2Monotone(m, n);
    Pow2Monotone(0, m);
    assert Pow2(6) == 64 && Pow2(5) == 32 by { assert Pow2(3) == 8; }
    if n >= 6 { Pow2Monotone(6, n); } else { Pow2Monotone(n, 5); }
  }

  /** The repository over the task table: each method is one committed statement. */
  class TaskTable {
    var rows: seq<Row>

    constructor ()
      ensures rows == []
    {
      rows := [];
    }

    /** The guarded update of one candidate; true when the row was taken. */
    method TryClaim(c: Candidate, worker: WorkerId, until: int) returns (taken: bool)
      modifies this
      ensures taken <==> c.task < |old(rows)| && GuardPasses(old(rows)[c.task], c.seen)
      ensures rows == if taken
                      then old(rows)[c.task := old(rows)[c.task].(
                             status := Running, worker := Some(worker), lease := Some(until))]
                      else old(rows)
    {
      taken := c.task < |rows| && GuardPasses(rows[c.task], c.seen);
      if taken {
        rows := rows[c.task := ClaimRow(rows[c.task], worker, until)];
      }
    }

    /** Works down candidates that may be stale: the first one whose guard still
        passes is claimed, and every one before it was refused. */
    method ClaimFrom(candidates: seq<Candidate>, worker: WorkerId, until: int)
        returns (claimed: Option<nat>)
      modifies this
      ensures claimed.None? ==>
                && rows == old(rows)
                && forall c <- candidates ::
                     c.task < |old(rows)| ==> !GuardPasses(old(rows)[c.task], c.seen)
      ensures claimed.Some? ==>
                exists k :: 0 <= k < |candidates| && candidates[k].task == claimed.value
                  && claimed.value < |old(rows)|
                  && GuardPasses(old(rows)[claimed.value], candidates[k].seen)
                  && (forall j :: 0 <= j < k ==>
                        var c := candidates[j];
                        c.task < |old(rows)| ==> !GuardPasses(old(rows)[c.task], c.seen))
                  && rows == old(rows)[claimed.value :=
                                         ClaimRow(old(rows)[claimed.value], worker, until)]
    {
      var k := 0;
      while k < |candidates|
        invariant 0 <= k <= |candidates|
        invariant rows == old(rows)
        invariant forall j :: 0 <= j < k ==>
                    var c := candidates[j];
                    c.task < |old(rows)| ==> !GuardPasses(old(rows)[c.task], c.seen)
      {
        var taken := TryClaim(candidates[k], worker, until);
        if taken {
          return Some(candidates[k].task);
        }
        k := k + 1;
      }
      return None;
    }

    /** With nobody writing in between, a claim takes exactly the oldest runnable row,
        and comes back empty only when no row is runnable. */
    method ClaimNextTask(worker: WorkerId, now: int, leaseS: int) returns (claimed: Option<nat>)
      modifies this
      ensures claimed.None? <==>
              forall t :: 0 <= t < |old(rows)| ==> !Runnable(old(rows)[t], now)
      ensures claimed.None? ==> rows == old(rows)
      ensures claimed.Some? ==>
                && claimed.value < |old(rows)|
                && Runnable(old(rows)[claimed.value], now)
                && (forall t :: 0 <= t < claimed.value ==> !Runnable(old(rows)[t], now))
                && rows == old(rows)[claimed.value :=
                             ClaimRow(old(rows)[claimed.value], worker, now + leaseS)]
    {
      var candidates := Select(rows, now);
      SelectFacts(rows, now);
      SelectOldest(rows, now);
      claimed := ClaimFrom(candidates, worker, now + leaseS);
      if candidates != [] {
        assert candidates[0] in candidates;
        assert GuardPasses(old(rows)[candidates[0].task], candidates[0].seen);
      }
    }

    /** Changes nothing unless the row still names this worker, and then only the lease. */
    method RenewLease(task: nat, worker: WorkerId, now: int, leaseS: int)
      modifies this
      ensures |rows| == |old(rows)|
      ensures forall t :: 0 <= t < |rows| ==>
                rows[t] == if t == task && old(rows)[t].worker == Some(worker)
                           then old(rows)[t].(lease := Some(now + leaseS)) else old(rows)[t]
    {
      if task < |rows| && rows[task].worker == Some(worker) {
        rows := rows[task := rows[task].(lease := Some(now + leaseS))];
      }
    }

    /** A terminal status also clears the owner and the lease, whatever the row said. */
    method SetTaskStatus(task: nat, status: Status)
      modifies this
      ensures |rows| == |old(rows)|
      ensures forall t :: 0 <= t < |rows| ==>
                rows[t] == if t != task then old(rows)[t]
                           else if status in {Completed, Failed, Cancelled}
                           then old(rows)[t].(status := status, worker := None, lease := None)
                           else old(rows)[t].(status := status)
      ensures task < |rows| ==> rows[task] == StatusRow(old(rows)[task], status)
    {
      if task < |rows| {
        rows := rows[task := rows[task].(status := status)];
        if Terminal(status) {
          rows := rows[task := rows[task].(worker := None, lease := None)];
        }
      }
    }

    /** Back in the queue, nobody's, not before the delay is over, and one retry used up. */
    method RequeueTask(task: nat, now: int, delayS: int)
      modifies this
      ensures |rows| == |old(rows)|
      ensures forall t :: 0 <= t < |rows| && t != task ==> rows[t] == old(rows)[t]
      ensures task < |rows| ==>
                && rows[task] == old(rows)[task].(status := Pending, worker := None, lease := None,
                                                  runAfter := Some(now + delayS),
                                                  retries := old(rows)[task].retries + 1)
                && rows[task] == RequeueRow(old(rows)[task], now + delayS)
                && (delayS > 0 ==> !Runnable(rows[task], now))
                && Runnable(rows[task], now + delayS)
    {
      if task < |rows| {
        rows := rows[task := RequeueRow(rows[task], now + delayS)];
      }
    }

    /** The start-up sweep: every RUNNING row goes back to the queue unowned, every
        other row is untouched, and the count is the number of rows swept. */
    method RecoverStaleRunning() returns (count: nat)
      modifies this
      ensures |rows| == |old(rows)|
      ensures forall t :: 0 <= t < |rows| ==> rows[t] == RecoverRow(old(rows)[t])
      ensures forall t :: 0 <= t < |rows| ==>
                rows[t] == if old(rows)[t].status == Running
                           then old(rows)[t].(status := Pending, worker := None, lease := None)
                           else old(rows)[t]
      ensures count == |set t | 0 <= t < |old(rows)| && old(rows)[t].status == Running|
    {
      count := 0;
      ghost var swept: set<int> := {};
      for k := 0 to |rows|
        invariant |rows| == |old(rows)|
        invariant forall t :: 0 <= t < k ==> rows[t] == RecoverRow(old(rows)[t])
        invariant forall t :: k <= t < |rows| ==> rows[t] == old(rows)[t]
        invariant swept == set t | 0 <= t < k && old(rows)[t].status == Running
        invariant count == |swept|
      {
        if rows[k].status == Running {
          count := count + 1;
          swept := swept + {k};
          rows := rows[k := RecoverRow(rows[k])];
        }
      }
    }
  }
}
