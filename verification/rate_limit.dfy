/** The per-user sliding-window limiter. Times are monotonic microseconds. */
module RateLimit {
  type UserId = int

  const WINDOW := 60_000_000

  /** One message: who, when, and whether it was let through. */
  datatype Call = Call(user: UserId, at: int, accepted: bool)

  /** The entries less than a window old. */
  function Recent(times: seq<int>, now: int): seq<int> {
    if times == [] then []
    else (if now - times[0] < WINDOW then [times[0]] else []) + Recent(times[1..], now)
  }

  function Get(rate: map<UserId, seq<int>>, user: UserId): seq<int> {
    if user in rate then rate[user] else []
  }

  /** The table after one call, and the verdict. */
  function Step(rate: map<UserId, seq<int>>, limit: int, user: UserId, now: int)
      : (map<UserId, seq<int>>, bool)
  {
    var window := Recent(Get(rate, user), now);
    if |window| >= limit then (rate[user := window], false)
    else (rate[user := window + [now]], true)
  }

  class Limiter {
    var rate: map<UserId, seq<int>>
    const limit: int

    constructor (limit: int)
      ensures rate == map[] && this.limit == limit
    {
      rate := map[];
      this.limit := limit;
    }

    method RateOk(user: UserId, now: int) returns (ok: bool)
      modifies this`rate
      ensures (rate, ok) == Step(old(rate), limit, user, now)
    {
      var times := Get(rate, user);
      var window := [];
      var i := 0;
      assert times[0..] == times;
      while i < |times|
        invariant 0 <= i <= |times|
        invariant window + Recent(times[i..], now) == Recent(times, now)
      {
        assert times[i..][0] == times[i] && times[i..][1..] == times[i + 1..];
        if now - times[i] < WINDOW {
          window := window + [times[i]];
        }
        i := i + 1;
      }
      assert window == Recent(times, now);
      if |window| >= limit {
        rate := rate[user := window];
        return false;
      }
      window := window + [now];
      rate := rate[user := window];
      return true;
    }
  }

  // ------------------------------------------------------------------ //
  // Whole histories
  // ------------------------------------------------------------------ //

  datatype Request = Request(user: UserId, at: int)

  /** Everything that happened, oldest first, with its verdict, and the final table. */
  function History(limit: int, requests: seq<Request>): (seq<Call>, map<UserId, seq<int>>) {
    if requests == [] then ([], map[])
    else
      var (calls, rate) := History(limit, requests[..|requests| - 1]);
      var last := requests[|requests| - 1];
      var (rate', ok) := Step(rate, limit, last.user, last.at);
      (calls + [Call(last.user, last.at, ok)], rate')
  }

  predicate Monotone(requests: seq<Request>) {
    forall i, j :: 0 <= i <= j < |requests| ==> requests[i].at <= requests[j].at
  }

  /** How many of one user's messages were let through at times in (from, to]. */
  function Accepted(calls: seq<Call>, user: UserId, from: int, to: int): nat {
    if calls == [] then 0
    else
      var c := calls[|calls| - 1];
      Accepted(calls[..|calls| - 1], user, from, to)
        + if c.user == user && c.accepted && from < c.at <= to then 1 else 0
  }

  lemma {:induction false} RecentAppend(a: seq<int>, x: int, now: int)
    ensures Recent(a + [x], now) == Recent(a, now) + if now - x < WINDOW then [x] else []
  {
    if a != [] {
      assert (a + [x])[1..] == a[1..] + [x];
      RecentAppend(a[1..], x, now);
    }
  }

  lemma {:induction false} RecentAgain(a: seq<int>, early: int, late: int)
    requires early <= late
    ensures Recent(Recent(a, early), late) == Recent(a, late)
  {
    if a != [] {
      RecentAgain(a[1..], early, late);
      var rest := Recent(a[1..], early);
      assert ([a[0]] + rest)[1..] == rest;
      assert [] + rest == rest;
    }
  }

  /** The last call, decided on what the pruned list then held. */
  lemma LastCall(limit: int, requests: seq<Request>)
    requires requests != []
    ensures var n := |requests| - 1;
            var (before, rate) := History(limit, requests[..n]);
            var last := requests[n];
            History(limit, requests).0
              == before + [Call(last.user, last.at, |Recent(Get(rate, last.user), last.at)| < limit)]
  {
  }

  lemma {:induction false} HistoryShape(limit: int, requests: seq<Request>)
    ensures var calls := History(limit, requests).0;
            && |calls| == |requests|
            && forall i :: 0 <= i < |calls| ==>
                 calls[i].user == requests[i].user && calls[i].at == requests[i].at
  {
    if requests != [] {
      LastCall(limit, requests);
      HistoryShape(limit, requests[..|requests| - 1]);
    }
  }

  /** The pruned list kept per user is as good as the whole history: at any moment from
      the last call on, it holds as many live entries as messages were really accepted in
      the preceding window. */
  lemma {:induction false} StoredCountsAreTrue(limit: int, requests: seq<Request>, user: UserId, t: int)
    requires Monotone(requests)
    requires requests != [] ==> requests[|requests| - 1].at <= t
    ensures var (calls, rate) := History(limit, requests);
            |Recent(Get(rate, user), t)| == Accepted(calls, user, t - 60_000_000, t)
    decreases |requests|
  {
    if requests != [] {
      var before := requests[..|requests| - 1];
      var last := requests[|requests| - 1];
      var (calls, rate) := History(limit, before);
      var calls' := History(limit, requests).0;
      assert calls'[..|calls'| - 1] == calls;
      StoredCountsAreTrue(limit, before, user, t);
      if last.user == user {
        var window := Recent(Get(rate, user), last.at);
        RecentAgain(Get(rate, user), last.at, t);
        RecentAppend(window, last.at, t);
      }
    }
  }

  lemma LastRefusedIffFull(limit: int, requests: seq<Request>)
    requires Monotone(requests) && requests != []
    ensures var n := |requests| - 1;
            var before := History(limit, requests[..n]).0;
            History(limit, requests).0 == before + [Call(requests[n].user, requests[n].at,
              Accepted(before, requests[n].user, requests[n].at - 60_000_000, requests[n].at) < limit)]
  {
    hide History, Accepted, Recent;
    var n := |requests| - 1;
    LastCall(limit, requests);
    assert n > 0 ==> requests[..n][n - 1] == requests[n - 1];
    StoredCountsAreTrue(limit, requests[..n], requests[n].user, requests[n].at);
  }

  /** A message is let through exactly when fewer than the limit were let through for the
      same user in the sixty seconds before it. */
  lemma {:induction false} RefusedIffFull(limit: int, requests: seq<Request>, i: nat)
    requires Monotone(requests) && i < |requests|
    ensures var calls := History(limit, requests).0;
            && |calls| == |requests|
            && (calls[i].accepted <==>
                  Accepted(calls[..i], requests[i].user, requests[i].at - 60_000_000, requests[i].at) < limit)
    decreases |requests|
  {
    hide History, Accepted;
    var n := |requests| - 1;
    HistoryShape(limit, requests);
    HistoryShape(limit, requests[..n]);
    LastRefusedIffFull(limit, requests);
    var calls := History(limit, requests).0;
    if i < n {
      RefusedIffFull(limit, requests[..n], i);
      assert calls[..i] == calls[..n][..i];
    }
  }

  lemma {:induction false} WiderWindowHoldsMore(calls: seq<Call>, user: UserId, from: int, to: int,
                                                from': int, to': int)
    requires from' <= from
    requires forall c <- calls :: c.at <= to'
    ensures Accepted(calls, user, from, to) <= Accepted(calls, user, from', to')
  {
    if calls != [] {
      assert calls[|calls| - 1].at <= to';
      WiderWindowHoldsMore(calls[..|calls| - 1], user, from, to, from', to');
    }
  }

  lemma AcceptedAppend(calls: seq<Call>, c: Call, user: UserId, from: int, to: int)
    ensures Accepted(calls + [c], user, from, to) == Accepted(calls, user, from, to)
              + if c.user == user && c.accepted && from < c.at <= to then 1 else 0
  {
    assert (calls + [c])[..|calls|] == calls;
  }

  /** Every half-open window of sixty seconds, wherever it starts, holds at most the
      limit of accepted messages of one user. */
  lemma {:induction false} WindowBound(limit: int, requests: seq<Request>, user: UserId, from: int)
    requires Monotone(requests)
    ensures var n := Accepted(History(limit, requests).0, user, from, from + 60_000_000);
            n <= limit || n == 0
    decreases |requests|
  {
    if requests != [] {
      var n := |requests| - 1;
      var last := requests[n];
      var before := History(limit, requests[..n]).0;
      WindowBound(limit, requests[..n], user, from);
      LastRefusedIffFull(limit, requests);
      HistoryShape(limit, requests[..n]);
      AddLastToWindow(limit, before, last, user, from);
    }
  }

  lemma AddLastToWindow(limit: int, before: seq<Call>, last: Request, user: UserId, from: int)
    requires forall i :: 0 <= i < |before| ==> before[i].at <= last.at
    requires var n := Accepted(before, user, from, from + 60_000_000); n <= limit || n == 0
    ensures var accepted := Accepted(before, last.user, last.at - 60_000_000, last.at) < limit;
            var n := Accepted(before + [Call(last.user, last.at, accepted)], user, from, from + 60_000_000);
            n <= limit || n == 0
  {
    var accepted := Accepted(before, last.user, last.at - 60_000_000, last.at) < limit;
    AcceptedAppend(before, Call(last.user, last.at, accepted), user, from, from + 60_000_000);
    if last.user == user && from < last.at <= from + 60_000_000 {
      WiderWindowHoldsMore(before, user, from, from + 60_000_000, last.at - 60_000_000, last.at);
    }
  }
}
