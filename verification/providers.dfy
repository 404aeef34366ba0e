/** Falling back between model providers, with doubling cooldowns. Times are microseconds. */
module Providers {
  import opened Options
  import opened Powers

  type Provider = string

  const SECOND := 1_000_000
  const COOLDOWN := 120 * SECOND
  const RATE_LIMIT_COOLDOWN := 300 * SECOND
  const AUTH_COOLDOWN := 3600 * SECOND
  const MAX_COOLDOWN := 7200 * SECOND

  /** What the error text says went wrong. */
  datatype Failure = BadKey | RateLimited | Transient

  function Base(f: Failure): int {
    match f
    case BadKey => AUTH_COOLDOWN
    case RateLimited => RATE_LIMIT_COOLDOWN
    case Transient => COOLDOWN
  }

  function Wait(f: Failure, strikes: nat): int
    requires strikes >= 1
  {
    Min(Base(f) * Pow2(strikes - 1), MAX_COOLDOWN)
  }

  /** The shortest a provider waits after its n-th failure in a row. */
  function LeastWait(n: nat): int
    requires n >= 1
  {
    Wait(Transient, n)
  }

  // ------------------------------------------------------------------ //
  // Order
  // ------------------------------------------------------------------ //

  /** A configured provider and its place in the ranking; unranked ones come last. */
  datatype Configured = Configured(key: Provider, usable: bool)

  function Rank(p: Provider): nat {
    if p == "anthropic" then 0 else if p == "openai" then 1
    else if p == "omniroute" then 2 else if p == "ollama" then 3 else 9
  }

  /** Stable insertion by rank. */
  function Insert(p: Provider, sorted: seq<Provider>): seq<Provider> {
    if sorted == [] || Rank(p) < Rank(sorted[0]) then [p] + sorted
    else [sorted[0]] + Insert(p, sorted[1..])
  }

  function SortByRank(ps: seq<Provider>): seq<Provider> {
    if ps == [] then [] else Insert(ps[|ps| - 1], SortByRank(ps[..|ps| - 1]))
  }

  function Others(all: seq<Configured>, active: Provider): seq<Provider> {
    if all == [] then []
    else (if all[0].key != active && all[0].usable then [all[0].key] else []) + Others(all[1..], active)
  }

  function FallbackOrder(active: Provider, all: seq<Configured>, fallback: bool): seq<Provider> {
    [active] + if fallback then SortByRank(Others(all, active)) else []
  }

  predicate Ranked(ps: seq<Provider>) {
    forall i, j :: 0 <= i < j < |ps| ==> Rank(ps[i]) <= Rank(ps[j])
  }

  lemma {:induction false} InsertAdds(p: Provider, sorted: seq<Provider>)
    ensures multiset(Insert(p, sorted)) == multiset(sorted) + multiset{p}
  {
    if sorted != [] && Rank(p) >= Rank(sorted[0]) {
      InsertAdds(p, sorted[1..]);
      assert sorted == [sorted[0]] + sorted[1..];
    }
  }

  lemma {:induction false} InsertKeepsRanked(p: Provider, sorted: seq<Provider>)
    requires Ranked(sorted)
    ensures Ranked(Insert(p, sorted))
  {
    if sorted != [] && Rank(p) >= Rank(sorted[0]) {
      InsertKeepsRanked(p, sorted[1..]);
      InsertAdds(p, sorted[1..]);
      var rest := Insert(p, sorted[1..]);
      forall j | 0 <= j < |rest| ensures Rank(sorted[0]) <= Rank(rest[j]) {
        assert rest[j] in multiset(sorted[1..]) + multiset{p};
      }
    }
  }

  lemma {:induction false} SortSorts(ps: seq<Provider>)
    ensures Ranked(SortByRank(ps)) && multiset(SortByRank(ps)) == multiset(ps)
  {
    if ps != [] {
      var n := |ps| - 1;
      SortSorts(ps[..n]);
      InsertKeepsRanked(ps[n], SortByRank(ps[..n]));
      InsertAdds(ps[n], SortByRank(ps[..n]));
      assert ps == ps[..n] + [ps[n]];
    }
  }

  lemma {:induction false} OthersAre(all: seq<Configured>, active: Provider, p: Provider)
    ensures p in Others(all, active) <==> p != active && Configured(p, true) in all
  {
    if all != [] {
      OthersAre(all[1..], active, p);
      assert all == [all[0]] + all[1..];
    }
  }

  predicate Distinct(ps: seq<Provider>) {
    forall i, j :: 0 <= i < j < |ps| ==> ps[i] != ps[j]
  }

  /** The providers of one rank, in order. */
  function OfRank(ps: seq<Provider>, rank: nat): seq<Provider> {
    if ps == [] then []
    else (if Rank(ps[0]) == rank then [ps[0]] else []) + OfRank(ps[1..], rank)
  }

  lemma {:induction false} OfRankAppend(a: seq<Provider>, b: seq<Provider>, rank: nat)
    ensures OfRank(a + b, rank) == OfRank(a, rank) + OfRank(b, rank)
  {
    hide Rank;
    if a == [] {
      assert a + b == b;
    } else {
      assert (a + b)[0] == a[0] && (a + b)[1..] == a[1..] + b;
      OfRankAppend(a[1..], b, rank);
    }
  }

  lemma {:induction false} NoneOfRank(ps: seq<Provider>, rank: nat)
    requires forall p <- ps :: Rank(p) != rank
    ensures OfRank(ps, rank) == []
  {
    if ps != [] {
      hide Rank;
      assert ps[0] in ps;
      NoneOfRank(ps[1..], rank);
    }
  }

  lemma {:induction false} InsertSplits(p: Provider, sorted: seq<Provider>) returns (k: nat)
    ensures k <= |sorted| && Insert(p, sorted) == sorted[..k] + ([p] + sorted[k..])
    ensures k < |sorted| ==> Rank(p) < Rank(sorted[k])
  {
    hide Rank;
    k := 0;
    if sorted != [] && Rank(p) >= Rank(sorted[0]) {
      k := InsertSplits(p, sorted[1..]);
      k := k + 1;
      assert sorted[..k] == [sorted[0]] + sorted[1..][..k - 1] && sorted[k..] == sorted[1..][k - 1..];
    }
  }

  lemma InsertGoesLast(p: Provider, sorted: seq<Provider>, rank: nat)
    requires Ranked(sorted)
    ensures OfRank(Insert(p, sorted), rank) == OfRank(sorted, rank) + if Rank(p) == rank then [p] else []
  {
    var k := InsertSplits(p, sorted);
    hide Insert, Rank;
    assert sorted == sorted[..k] + sorted[k..];
    OfRankAppend(sorted[..k], sorted[k..], rank);
    OfRankAppend(sorted[..k], [p] + sorted[k..], rank);
    OfRankAppend([p], sorted[k..], rank);
    assert [p][1..] == [];
    assert OfRank([p], rank) == if Rank(p) == rank then [p] else [];
    hide OfRank;
    if Rank(p) == rank {
      forall q | q in sorted[k..] ensures Rank(q) != rank {
        var i :| k <= i < |sorted| && sorted[i] == q;
      }
      NoneOfRank(sorted[k..], rank);
    }
  }

  lemma {:induction false} SortIsStable(ps: seq<Provider>, rank: nat)
    ensures OfRank(SortByRank(ps), rank) == OfRank(ps, rank)
  {
    if ps != [] {
      hide Rank, Insert;
      var n := |ps| - 1;
      SortSorts(ps[..n]);
      SortIsStable(ps[..n], rank);
      InsertGoesLast(ps[n], SortByRank(ps[..n]), rank);
      OfRankAppend(ps[..n], [ps[n]], rank);
      assert ps == ps[..n] + [ps[n]];
      assert [ps[n]][1..] == [];
    }
  }

  lemma DistinctSnoc(ps: seq<Provider>, p: Provider)
    ensures Distinct(ps + [p]) <==> Distinct(ps) && p !in ps
  {
    var all := ps + [p];
    assert forall i :: 0 <= i < |ps| ==> all[i] == ps[i];
    assert all[|ps|] == p;
  }

  lemma DistinctCons(p: Provider, ps: seq<Provider>)
    ensures Distinct([p] + ps) <==> p !in ps && Distinct(ps)
  {
    var all := [p] + ps;
    assert forall i :: 0 <= i < |ps| ==> all[i + 1] == ps[i];
    assert all[0] == p;
    if Distinct(all) {
      forall i, j | 0 <= i < j < |ps| ensures ps[i] != ps[j] {
        assert all[i + 1] != all[j + 1];
      }
    }
  }

  lemma {:induction false} DistinctMeansOnce(ps: seq<Provider>)
    ensures Distinct(ps) <==> forall p :: multiset(ps)[p] <= 1
  {
    if ps == [] {
      assert Distinct(ps);
    } else {
      var n := |ps| - 1;
      DistinctMeansOnce(ps[..n]);
      DistinctSnoc(ps[..n], ps[n]);
      assert ps == ps[..n] + [ps[n]];
      hide Distinct;
      assert multiset(ps) == multiset(ps[..n]) + multiset{ps[n]};
      assert ps[n] in ps[..n] <==> multiset(ps[..n])[ps[n]] > 0;
      forall p ensures multiset(ps)[p] == multiset(ps[..n])[p] + if p == ps[n] then 1 else 0 {}
    }
  }

  lemma {:induction false} OthersAreDistinct(all: seq<Configured>, active: Provider)
    requires forall i, j :: 0 <= i < j < |all| ==> all[i].key != all[j].key
    ensures Distinct(Others(all, active))
  {
    if all != [] {
      OthersAreDistinct(all[1..], active);
      OthersAre(all[1..], active, all[0].key);
      assert forall c <- all[1..] :: c.key != all[0].key;
      DistinctCons(all[0].key, Others(all[1..], active));
      assert [] + Others(all[1..], active) == Others(all[1..], active);
    }
  }

  const PREFERRED: seq<Provider> := ["anthropic", "openai", "omniroute", "ollama"]

  /** Where a provider stands among the preferred ones, behind all of them if it does not. */
  function Place(p: Provider): nat { PlaceFrom(p, PREFERRED) }

  function PlaceFrom(p: Provider, ps: seq<Provider>): nat {
    if ps == [] || ps[0] == p then 0 else 1 + PlaceFrom(p, ps[1..])
  }

  lemma RankFollowsPlace(p: Provider, q: Provider)
    ensures Place(p) <= Place(q) <==> Rank(p) <= Rank(q)
  {
    PlacesAre(p);
    PlacesAre(q);
  }

  lemma PlacesAre(p: Provider)
    ensures Place(p) == if p == "anthropic" then 0 else if p == "openai" then 1
                        else if p == "omniroute" then 2 else if p == "ollama" then 3 else 4
  {
    assert PREFERRED[1..] == ["openai", "omniroute", "ollama"];
    assert ["openai", "omniroute", "ollama"][1..] == ["omniroute", "ollama"];
    assert ["omniroute", "ollama"][1..] == ["ollama"] && ["ollama"][1..] == [];
    assert PlaceFrom(p, []) == 0;
    assert PlaceFrom(p, ["ollama"]) == if p == "ollama" then 0 else 1;
    assert PlaceFrom(p, ["omniroute", "ollama"]) == if p == "omniroute" then 0 else 1 + PlaceFrom(p, ["ollama"]);
    assert PlaceFrom(p, ["openai", "omniroute", "ollama"])
           == if p == "openai" then 0 else 1 + PlaceFrom(p, ["omniroute", "ollama"]);
  }

  /** The active provider is asked first; behind it, exactly the other usable ones, best
      ranked first: personal keys before the shared gateway before the local model, and
      those of one rank as they were configured. When no key is configured twice, nobody is
      in the order twice. */
  lemma OrderIsActiveThenRanked(active: Provider, all: seq<Configured>, p: Provider, rank: nat)
    ensures var order := FallbackOrder(active, all, true);
            && order[0] == active && FallbackOrder(active, all, false) == [active]
            && (forall i, j :: 1 <= i < j < |order| ==> Place(order[i]) <= Place(order[j]))
            && (p in order[1..] <==> p != active && Configured(p, true) in all)
            && OfRank(order[1..], rank) == OfRank(Others(all, active), rank)
            && ((forall i, j :: 0 <= i < j < |all| ==> all[i].key != all[j].key) ==> Distinct(order))
  {
    hide Rank, Insert, Place;
    var others := Others(all, active);
    var order := FallbackOrder(active, all, true);
    SortSorts(others);
    forall i, j | 1 <= i < j < |order| ensures Place(order[i]) <= Place(order[j]) {
      RankFollowsPlace(order[i], order[j]);
      assert order[i] == order[1..][i - 1] && order[j] == order[1..][j - 1];
    }
    SortIsStable(others, rank);
    OthersAre(all, active, p);
    assert order[1..] == SortByRank(others);
    assert p in order[1..] <==> p in multiset(order[1..]);
    assert p in others <==> p in multiset(others);
    if forall i, j :: 0 <= i < j < |all| ==> all[i].key != all[j].key {
      OthersAreDistinct(all, active);
      DistinctMeansOnce(others);
      DistinctMeansOnce(order[1..]);
      OthersAre(all, active, active);
      ActiveIsNoOther(order, active, others);
    }
  }

  lemma ActiveIsNoOther(order: seq<Provider>, active: Provider, others: seq<Provider>)
    requires order != [] && order[0] == active && Distinct(order[1..])
    requires multiset(order[1..]) == multiset(others) && active !in others
    ensures Distinct(order)
  {
    assert active !in multiset(others);
    assert forall j :: 1 <= j < |order| ==> order[j] == order[1..][j - 1] && order[j] in multiset(order[1..]);
  }

  // ------------------------------------------------------------------ //
  // One chat
  // ------------------------------------------------------------------ //

  /** The manager's memory: deadlines, and strikes in a row. */
  datatype Memory = Memory(cooldowns: map<Provider, int>, failures: map<Provider, nat>)

  /** How one attempt goes: how long it takes, and what fails, if anything. */
  datatype Reply = Reply(takes: nat, failure: Option<Failure>)

  /** One attempt as it happened. */
  datatype Attempt = Attempt(provider: Provider, from: int, to: int, failed: bool)

  function Strikes(m: Memory, p: Provider): nat {
    if p in m.failures then m.failures[p] else 0
  }

  predicate Cooling(m: Memory, p: Provider, now: int) {
    p in m.cooldowns && now < m.cooldowns[p]
  }

  function MarkFailed(m: Memory, p: Provider, f: Failure, now: int): Memory {
    var strikes := Strikes(m, p) + 1;
    Memory(m.cooldowns[p := now + Wait(f, strikes)], m.failures[p := strikes])
  }

  function Cleared(m: Memory, p: Provider): Memory {
    Memory(m.cooldowns - {p}, m.failures - {p})
  }

  /** Looking a provider up drops a deadline that has passed. */
  function LookedUp(m: Memory, p: Provider, now: int): Memory {
    if p in m.cooldowns && !Cooling(m, p, now) then m.(cooldowns := m.cooldowns - {p}) else m
  }

  /** The providers not cooling down, in order, and the memory after looking. */
  function LiveOf(m: Memory, order: seq<Provider>, now: int): (seq<Provider>, Memory)
    decreases |order|
  {
    if order == [] then ([], m)
    else
      var rest := LiveOf(LookedUp(m, order[0], now), order[1..], now);
      (if Cooling(m, order[0], now) then rest.0 else [order[0]] + rest.0, rest.1)
  }

  datatype Outcome = Outcome(memory: Memory, now: int, answered: Option<Provider>, attempts: seq<Attempt>)

  /** Asking each of `live` in turn until one answers. */
  function AskInTurn(m: Memory, live: seq<Provider>, replies: Provider -> Reply, now: int): Outcome
    decreases |live|
  {
    if live == [] then Outcome(m, now, None, [])
    else
      var p := live[0];
      var reply := replies(p);
      var done := now + reply.takes;
      var attempt := Attempt(p, now, done, reply.failure.Some?);
      if reply.failure.None? then Outcome(Cleared(m, p), done, Some(p), [attempt])
      else
        var rest := AskInTurn(MarkFailed(m, p, reply.failure.value, done), live[1..], replies, done);
        rest.(attempts := [attempt] + rest.attempts)
  }

  /** When everybody is cooling down, the last in the order is tried all the same. */
  function ToAsk(live: seq<Provider>, order: seq<Provider>): seq<Provider>
    requires order != []
  {
    if live == [] then [order[|order| - 1]] else live
  }

  function ChatOutcome(m: Memory, order: seq<Provider>, replies: Provider -> Reply, now: int): Outcome
    requires order != []
  {
    var (live, looked) := LiveOf(m, order, now);
    AskInTurn(looked, ToAsk(live, order), replies, now)
  }

  class LlmManager {
    var cooldowns: map<Provider, int>
    var failures: map<Provider, nat>

    constructor ()
      ensures View() == Memory(map[], map[])
    {
      cooldowns, failures := map[], map[];
    }

    function View(): Memory
      reads this
    {
      Memory(cooldowns, failures)
    }

    method InCooldown(key: Provider, now: int) returns (cooling: bool)
      modifies this
      ensures cooling == Cooling(old(View()), key, now)
      ensures cooling <==> key in old(cooldowns) && now < old(cooldowns)[key]
      ensures View() == LookedUp(old(View()), key, now)
    {
      if key !in cooldowns {
        return false;
      }
      if now >= cooldowns[key] {
        cooldowns := cooldowns - {key};
        return false;
      }
      return true;
    }

    method RecordFailure(key: Provider, failure: Failure, now: int)
      modifies this
      ensures View() == MarkFailed(old(View()), key, failure, now)
    {
      var strikes := (if key in failures then failures[key] else 0) + 1;
      failures := failures[key := strikes];
      cooldowns := cooldowns[key := now + Wait(failure, strikes)];
    }

    method ClearCooldown(key: Provider)
      modifies this
      ensures View() == Cleared(old(View()), key)
    {
      cooldowns := cooldowns - {key};
      failures := failures - {key};
    }

    method LiveProviders(order: seq<Provider>, now: int) returns (live: seq<Provider>)
      modifies this
      ensures (live, View()) == LiveOf(old(View()), order, now)
    {
      live := [];
      var i := 0;
      assert order[0..] == order;
      ghost var found := LiveOf(View(), order, now);
      assert live + found.0 == found.0;
      while i < |order|
        invariant 0 <= i <= |order|
        invariant var rest := LiveOf(View(), order[i..], now);
                  found == (live + rest.0, rest.1)
      {
        assert order[i..][0] == order[i] && order[i..][1..] == order[i + 1..];
        ghost var rest := LiveOf(LookedUp(View(), order[i], now), order[i + 1..], now);
        assert live + ([order[i]] + rest.0) == live + [order[i]] + rest.0;
        var cooling := InCooldown(order[i], now);
        if !cooling {
          live := live + [order[i]];
        }
        i := i + 1;
      }
      assert live + [] == live;
    }

    /** Asking the first of them, and then the others. */
    static lemma AskNext(m: Memory, live: seq<Provider>, replies: Provider -> Reply, now: int)
      requires live != []
      ensures var o, reply, p := AskInTurn(m, live, replies, now), replies(live[0]), live[0];
              var done := now + reply.takes;
              if reply.failure.None? then
                o.memory == Cleared(m, p) && o.now == done && o.answered == Some(p)
              else
                var rest := AskInTurn(MarkFailed(m, p, reply.failure.value, done), live[1..], replies, done);
                o.memory == rest.memory && o.now == rest.now && o.answered == rest.answered
    {
    }

    static lemma NobodyLeft(m: Memory, replies: Provider -> Reply, now: int)
      ensures AskInTurn(m, [], replies, now) == Outcome(m, now, None, [])
    {
    }

    method AskEach(live: seq<Provider>, replies: Provider -> Reply, start: int)
        returns (answered: Option<Provider>, now: int)
      modifies this
      ensures var o := AskInTurn(old(View()), live, replies, start);
              View() == o.memory && now == o.now && answered == o.answered
    {
      hide AskInTurn, MarkFailed, Cleared;
      now := start;
      ghost var whole := AskInTurn(View(), live, replies, now);
      assert live[0..] == live;
      var i := 0;
      while i < |live|
        invariant 0 <= i <= |live|
        invariant var rest := AskInTurn(View(), live[i..], replies, now);
                  whole.memory == rest.memory && whole.now == rest.now && whole.answered == rest.answered
      {
        var key := live[i];
        assert live[i..][0] == key && live[i..][1..] == live[i + 1..];
        AskNext(View(), live[i..], replies, now);
        var reply := replies(key);
        now := now + reply.takes;
        if reply.failure.None? {
          ClearCooldown(key);
          return Some(key), now;
        }
        RecordFailure(key, reply.failure.value, now);
        i := i + 1;
      }
      NobodyLeft(View(), replies, now);
      assert live[i..] == [];
      return None, now;
    }

    /** Nobody answering is the caller's error: every provider asked has failed. */
    method Chat(order: seq<Provider>, replies: Provider -> Reply, start: int)
        returns (answered: Option<Provider>, now: int)
      requires order != []
      modifies this
      ensures var o := ChatOutcome(old(View()), order, replies, start);
              View() == o.memory && now == o.now && answered == o.answered
    {
      var live := LiveProviders(order, start);
      if live == [] {
        live := [order[|order| - 1]];
      }
      answered, now := AskEach(live, replies, start);
    }
  }

  // ------------------------------------------------------------------ //
  // What one chat does to one provider
  // ------------------------------------------------------------------ //

  function AttemptsOn(p: Provider, attempts: seq<Attempt>): seq<Attempt> {
    if attempts == [] then []
    else (if attempts[0].provider == p then [attempts[0]] else []) + AttemptsOn(p, attempts[1..])
  }

  predicate SameOn(m: Memory, n: Memory, p: Provider) {
    && Strikes(m, p) == Strikes(n, p)
    && (p in m.cooldowns <==> p in n.cooldowns)
    && (p in m.cooldowns ==> m.cooldowns[p] == n.cooldowns[p])
  }

  /** The live list is the order without whoever is cooling down; looking forgets no
      strike and no deadline that is still ahead. */
  lemma {:induction false} LiveIsNotCooling(m: Memory, order: seq<Provider>, now: int, p: Provider)
    ensures var (live, n) := LiveOf(m, order, now);
            && (p in live <==> p in order && !Cooling(m, p, now))
            && Strikes(n, p) == Strikes(m, p)
            && (Cooling(m, p, now) ==> SameOn(m, n, p))
            && (p in n.cooldowns ==> p in m.cooldowns && n.cooldowns[p] == m.cooldowns[p])
            && (Distinct(order) ==> Distinct(live))
            && (forall q <- live :: q in order)
    decreases |order|
  {
    if order != [] {
      LiveIsNotCooling(LookedUp(m, order[0], now), order[1..], now, p);
      assert order == [order[0]] + order[1..];
      var (live, _) := LiveOf(m, order, now);
      var rest := LiveOf(LookedUp(m, order[0], now), order[1..], now).0;
      assert forall q <- rest :: q in order[1..];
      assert live == rest || (live == [order[0]] + rest && !Cooling(m, order[0], now));
      if Distinct(order) {
        assert Distinct(order[1..]);
        assert order[0] !in order[1..];
      }
    }
  }

  /** Those of the order who were not cooling down to begin with, in their places. */
  function Awake(m: Memory, order: seq<Provider>, now: int): seq<Provider> {
    if order == [] then []
    else (if Cooling(m, order[0], now) then [] else [order[0]]) + Awake(m, order[1..], now)
  }

  lemma LookingChangesNobody(m: Memory, p: Provider, q: Provider, now: int)
    ensures Cooling(LookedUp(m, p, now), q, now) <==> Cooling(m, q, now)
  {
  }

  lemma {:induction false} SameAwake(m: Memory, p: Provider, order: seq<Provider>, now: int)
    ensures Awake(LookedUp(m, p, now), order, now) == Awake(m, order, now)
  {
    if order != [] {
      hide Cooling, LookedUp;
      LookingChangesNobody(m, p, order[0], now);
      SameAwake(m, p, order[1..], now);
    }
  }

  /** Dropping passed deadlines while going through the order changes nobody's turn. */
  lemma {:induction false} LiveKeepsOrder(m: Memory, order: seq<Provider>, now: int)
    ensures LiveOf(m, order, now).0 == Awake(m, order, now)
    decreases |order|
  {
    if order != [] {
      hide Cooling, LookedUp;
      LiveKeepsOrder(LookedUp(m, order[0], now), order[1..], now);
      SameAwake(m, order[0], order[1..], now);
      assert [] + Awake(m, order[1..], now) == Awake(m, order[1..], now);
    }
  }

  /** Asked one after the other without a gap, in the order of `live`, until one answered;
      nobody answered only if all of them were asked and failed. */
  predicate AskedOneByOne(o: Outcome, live: seq<Provider>, now: int) {
    var n := |o.attempts|;
    && n <= |live|
    && (forall i :: 0 <= i < n ==> o.attempts[i].provider == live[i])
    && (forall i :: 0 <= i < n - 1 ==> o.attempts[i].failed && o.attempts[i].to == o.attempts[i + 1].from)
    && (n > 0 ==> o.attempts[0].from == now && o.attempts[n - 1].to == o.now)
    && (n == 0 ==> o.now == now)
    && (o.answered.Some? ==> n > 0 && !o.attempts[n - 1].failed && o.answered.value == live[n - 1])
    && (o.answered.None? ==> n == |live| && (n > 0 ==> o.attempts[n - 1].failed))
  }

  lemma AskedOneMore(rest: Outcome, live: seq<Provider>, now: int, done: int)
    requires live != [] && AskedOneByOne(rest, live[1..], done)
    ensures AskedOneByOne(rest.(attempts := [Attempt(live[0], now, done, true)] + rest.attempts), live, now)
  {
    var all := [Attempt(live[0], now, done, true)] + rest.attempts;
    assert forall i :: 0 < i < |all| ==> all[i] == rest.attempts[i - 1] && live[1..][i - 1] == live[i];
  }

  lemma {:induction false} AskedInOrder(m: Memory, live: seq<Provider>, replies: Provider -> Reply, now: int)
    ensures AskedOneByOne(AskInTurn(m, live, replies, now), live, now)
    decreases |live|
  {
    if live != [] {
      var reply := replies(live[0]);
      if reply.failure.Some? {
        hide MarkFailed, Cleared, AskedOneByOne;
        var done := now + reply.takes;
        var marked := MarkFailed(m, live[0], reply.failure.value, done);
        AskedInOrder(marked, live[1..], replies, done);
        AskedOneMore(AskInTurn(marked, live[1..], replies, done), live, now, done);
      }
    }
  }

  lemma {:induction false} AskingOthersLeavesItAlone(m: Memory, live: seq<Provider>,
                                                     replies: Provider -> Reply, now: int, p: Provider)
    requires p !in live
    ensures var o := AskInTurn(m, live, replies, now);
            AttemptsOn(p, o.attempts) == [] && SameOn(m, o.memory, p) && o.now >= now
    decreases |live|
  {
    if live != [] {
      var q := live[0];
      assert q != p;
      var reply := replies(q);
      if reply.failure.Some? {
        var done := now + reply.takes;
        AskingOthersLeavesItAlone(MarkFailed(m, q, reply.failure.value, done), live[1..], replies, done, p);
      }
    }
  }

  /** A provider that fails is either not reached or asked exactly once; then it has one
      strike more and waits for the time that goes with it. */
  predicate AskedAtMostOnce(m: Memory, o: Outcome, p: Provider, now: int) {
    && o.now >= now
    && var on := AttemptsOn(p, o.attempts);
       || (on == [] && SameOn(m, o.memory, p))
       || (&& |on| == 1
           && now <= on[0].from <= on[0].to <= o.now
           && Strikes(o.memory, p) == Strikes(m, p) + 1
           && p in o.memory.cooldowns
           && o.memory.cooldowns[p] >= on[0].to + LeastWait(Strikes(m, p) + 1))
  }

  lemma LeastWaitIsLeast(f: Failure, n: nat)
    requires n >= 1
    ensures LeastWait(n) <= Wait(f, n)
  {
    Pow2Monotone(0, n - 1);
    assert Base(f) * Pow2(n - 1) >= COOLDOWN * Pow2(n - 1);
  }

  lemma NobodyAsked(m: Memory, p: Provider, now: int)
    ensures AskedAtMostOnce(m, Outcome(m, now, None, []), p, now)
  {
  }

  lemma SomebodyElseAnswers(m: Memory, q: Provider, p: Provider, reply: Reply, now: int)
    requires q != p
    ensures var done := now + reply.takes;
            AskedAtMostOnce(m, Outcome(Cleared(m, q), done, Some(q), [Attempt(q, now, done, false)]), p, now)
  {
    var attempt := Attempt(q, now, now + reply.takes, false);
    assert [attempt][1..] == [];
  }

  lemma AskedFirst(m: Memory, rest: Outcome, p: Provider, reply: Reply, now: int)
    requires reply.failure.Some?
    requires var done := now + reply.takes;
             && AttemptsOn(p, rest.attempts) == [] && rest.now >= done
             && SameOn(MarkFailed(m, p, reply.failure.value, done), rest.memory, p)
    ensures AskedAtMostOnce(m, rest.(attempts := [Attempt(p, now, now + reply.takes, true)] + rest.attempts), p, now)
  {
    LeastWaitIsLeast(reply.failure.value, Strikes(m, p) + 1);
    var attempt := Attempt(p, now, now + reply.takes, true);
    assert ([attempt] + rest.attempts)[1..] == rest.attempts;
    assert AttemptsOn(p, [attempt] + rest.attempts) == [attempt];
  }

  lemma AskedLater(m: Memory, rest: Outcome, q: Provider, p: Provider, reply: Reply, now: int)
    requires q != p && reply.failure.Some?
    requires var done := now + reply.takes;
             AskedAtMostOnce(MarkFailed(m, q, reply.failure.value, done), rest, p, done)
    ensures AskedAtMostOnce(m, rest.(attempts := [Attempt(q, now, now + reply.takes, true)] + rest.attempts), p, now)
  {
    hide LeastWait, Wait;
    var attempt := Attempt(q, now, now + reply.takes, true);
    assert ([attempt] + rest.attempts)[1..] == rest.attempts;
    assert AttemptsOn(p, [attempt] + rest.attempts) == AttemptsOn(p, rest.attempts);
    assert SameOn(m, MarkFailed(m, q, reply.failure.value, now + reply.takes), p);
  }

  lemma {:induction false} AskingAFailure(m: Memory, live: seq<Provider>, replies: Provider -> Reply,
                                          now: int, p: Provider)
    requires Distinct(live) && replies(p).failure.Some?
    ensures AskedAtMostOnce(m, AskInTurn(m, live, replies, now), p, now)
    decreases |live|
  {
    hide AskedAtMostOnce, SameOn, MarkFailed, AttemptsOn;
    NobodyAsked(m, p, now);
    if live != [] {
      var q := live[0];
      var reply := replies(q);
      var done := now + reply.takes;
      if reply.failure.Some? {
        var marked := MarkFailed(m, q, reply.failure.value, done);
        if q == p {
          assert p !in live[1..];
          AskingOthersLeavesItAlone(marked, live[1..], replies, done, p);
          AskedFirst(m, AskInTurn(marked, live[1..], replies, done), p, reply, now);
        } else {
          AskingAFailure(marked, live[1..], replies, done, p);
          AskedLater(m, AskInTurn(marked, live[1..], replies, done), q, p, reply, now);
        }
      } else {
        SomebodyElseAnswers(m, q, p, reply, now);
      }
    }
  }

  /** The provider was not asked, or asked once because its deadline had passed; then it
      has one strike more and waits for the time that goes with it. */
  predicate AskedWhenDue(m: Memory, o: Outcome, p: Provider, now: int) {
    var on := AttemptsOn(p, o.attempts);
    && o.now >= now
    && (on == [] ==> Strikes(o.memory, p) == Strikes(m, p) && (Cooling(m, p, now) ==> SameOn(m, o.memory, p)))
    && (on != [] ==>
          && !Cooling(m, p, now)
          && |on| == 1 && now <= on[0].from <= on[0].to <= o.now
          && Strikes(o.memory, p) == Strikes(m, p) + 1
          && p in o.memory.cooldowns
          && o.memory.cooldowns[p] >= on[0].to + LeastWait(Strikes(m, p) + 1))
  }

  /** Everybody in the order is cooling down, and this provider is the last of them. */
  predicate LastResort(m: Memory, order: seq<Provider>, p: Provider, now: int) {
    order != [] && order[|order| - 1] == p && forall q <- order :: Cooling(m, q, now)
  }

  lemma NobodyLive(m: Memory, order: seq<Provider>, now: int)
    ensures LiveOf(m, order, now).0 == [] <==> forall q <- order :: Cooling(m, q, now)
  {
    hide Cooling;
    var live := LiveOf(m, order, now).0;
    forall q ensures q in live <==> q in order && !Cooling(m, q, now) {
      LiveIsNotCooling(m, order, now, q);
    }
    assert live != [] ==> live[0] in live;
  }

  /** A provider whose deadline is ahead is asked exactly when it is the last resort. */
  lemma CoolingIsAskedIff(m: Memory, order: seq<Provider>, replies: Provider -> Reply, now: int, p: Provider)
    requires order != [] && Cooling(m, p, now)
    ensures AttemptsOn(p, ChatOutcome(m, order, replies, now).attempts) != [] <==> LastResort(m, order, p, now)
  {
    NobodyLive(m, order, now);
    LiveIsNotCooling(m, order, now, p);
    hide Cooling;
    var (live, looked) := LiveOf(m, order, now);
    var asked := ToAsk(live, order);
    if p in asked {
      assert asked == [p];
      assert AskInTurn(looked, [p], replies, now).attempts[0].provider == p;
    } else {
      AskingOthersLeavesItAlone(looked, asked, replies, now, p);
    }
  }

  /** One chat, in which the provider fails if asked and is not the last resort: it is asked
      at most once, and only if its deadline has passed. */
  lemma ChatAsksAtMostOnce(m: Memory, order: seq<Provider>, replies: Provider -> Reply, now: int, p: Provider)
    requires order != [] && Distinct(order) && replies(p).failure.Some?
    requires !LastResort(m, order, p, now)
    ensures AskedWhenDue(m, ChatOutcome(m, order, replies, now), p, now)
  {
    NobodyLive(m, order, now);
    LiveIsNotCooling(m, order, now, p);
    var (live, looked) := LiveOf(m, order, now);
    var asked := ToAsk(live, order);
    if p in asked {
      assert asked == live;
      AskingAFailure(looked, live, replies, now, p);
    } else {
      AskingOthersLeavesItAlone(looked, asked, replies, now, p);
    }
  }

  // ------------------------------------------------------------------ //
  // Many chats, one after the other
  // ------------------------------------------------------------------ //

  datatype Talk = Talk(order: seq<Provider>, replies: Provider -> Reply, idle: nat)

  datatype Session = Session(memory: Memory, now: int, attempts: seq<Attempt>)

  function After(s: Session, t: Talk): Session
    requires t.order != []
  {
    var o := ChatOutcome(s.memory, t.order, t.replies, s.now + t.idle);
    Session(o.memory, o.now, s.attempts + o.attempts)
  }

  /** The provider fails whenever it is asked, and no chat has it as the last resort. */
  ghost predicate Doomed(s: Session, talks: seq<Talk>, p: Provider)
    decreases |talks|
  {
    talks == [] ||
    (var t := talks[0];
     && t.order != [] && Distinct(t.order)
     && t.replies(p).failure.Some?
     && !LastResort(s.memory, t.order, p, s.now + t.idle)
     && Doomed(After(s, t), talks[1..], p))
  }

  ghost function Finish(s: Session, talks: seq<Talk>, p: Provider): Session
    requires Doomed(s, talks, p)
    decreases |talks|
  {
    if talks == [] then s else Finish(After(s, talks[0]), talks[1..], p)
  }

  /** Each attempt keeps its distance from the one before, counting from `strikes`
      failures already on record. */
  predicate Spaced(on: seq<Attempt>, strikes: nat) {
    && (forall i :: 0 <= i < |on| ==> on[i].from <= on[i].to)
    && forall i :: 0 <= i < |on| - 1 ==> on[i + 1].from >= on[i].to + LeastWait(strikes + i + 1)
  }

  /** When the wait after the last attempt is over. */
  function WaitsUntil(on: seq<Attempt>, strikes: nat): int
    requires on != []
  {
    on[|on| - 1].to + LeastWait(strikes + |on|)
  }

  predicate OffLimits(m: Memory, p: Provider, now: int, until: int) {
    now >= until || (p in m.cooldowns && m.cooldowns[p] >= until)
  }

  /** The attempts so far kept their distance, and the next must wait for its turn. */
  predicate Held(on: seq<Attempt>, m: Memory, now: int, p: Provider, strikes: nat) {
    && Spaced(on, strikes)
    && Strikes(m, p) == strikes + |on|
    && (on != [] ==> OffLimits(m, p, now, WaitsUntil(on, strikes)))
  }

  /** The provider is off limits until its last failure's wait is over. */
  predicate HeldBack(s: Session, p: Provider, strikes: nat) {
    Held(AttemptsOn(p, s.attempts), s.memory, s.now, p, strikes)
  }

  lemma {:induction false} AttemptsOnAppend(p: Provider, a: seq<Attempt>, b: seq<Attempt>)
    ensures AttemptsOn(p, a + b) == AttemptsOn(p, a) + AttemptsOn(p, b)
  {
    if a == [] {
      assert a + b == b;
      assert [] + AttemptsOn(p, b) == AttemptsOn(p, b);
    } else {
      assert (a + b)[0] == a[0] && (a + b)[1..] == a[1..] + b;
      AttemptsOnAppend(p, a[1..], b);
      var first := if a[0].provider == p then [a[0]] else [];
      assert first + (AttemptsOn(p, a[1..]) + AttemptsOn(p, b)) == first + AttemptsOn(p, a[1..]) + AttemptsOn(p, b);
    }
  }

  lemma SpacedAppend(on: seq<Attempt>, a: Attempt, strikes: nat)
    requires Spaced(on, strikes) && a.from <= a.to
    requires on != [] ==> a.from >= on[|on| - 1].to + LeastWait(strikes + |on|)
    ensures Spaced(on + [a], strikes)
  {
  }

  /** The provider's waiting carries over when it was not asked. */
  lemma NotAskedStaysHeld(on: seq<Attempt>, m: Memory, m': Memory, now: int, start: int, now': int,
                          p: Provider, strikes: nat)
    requires Held(on, m, now, p, strikes) && now <= start <= now'
    requires Strikes(m', p) == Strikes(m, p)
    requires Cooling(m, p, start) ==> SameOn(m, m', p)
    ensures Held(on, m', now', p, strikes)
  {
  }

  lemma AskedStaysHeld(on: seq<Attempt>, a: Attempt, m: Memory, m': Memory, now: int, start: int, now': int,
                       p: Provider, strikes: nat)
    requires Held(on, m, now, p, strikes) && now <= start <= a.from <= a.to <= now'
    requires !Cooling(m, p, start)
    requires Strikes(m', p) == Strikes(m, p) + 1
    requires p in m'.cooldowns && m'.cooldowns[p] >= a.to + LeastWait(Strikes(m, p) + 1)
    ensures Held(on + [a], m', now', p, strikes)
  {
    SpacedAppend(on, a, strikes);
    assert WaitsUntil(on + [a], strikes) == a.to + LeastWait(Strikes(m, p) + 1);
  }

  lemma OutcomeHoldsBack(s: Session, o: Outcome, start: int, p: Provider, strikes: nat)
    requires HeldBack(s, p, strikes) && s.now <= start
    requires AskedWhenDue(s.memory, o, p, start)
    ensures HeldBack(Session(o.memory, o.now, s.attempts + o.attempts), p, strikes)
  {
    AttemptsOnAppend(p, s.attempts, o.attempts);
    var on, more := AttemptsOn(p, s.attempts), AttemptsOn(p, o.attempts);
    if more == [] {
      assert on + more == on;
      NotAskedStaysHeld(on, s.memory, o.memory, s.now, start, o.now, p, strikes);
    } else {
      assert more == [more[0]];
      AskedStaysHeld(on, more[0], s.memory, o.memory, s.now, start, o.now, p, strikes);
    }
  }

  lemma OneTalkHoldsBack(s: Session, t: Talk, p: Provider, strikes: nat)
    requires HeldBack(s, p, strikes)
    requires t.order != [] && Distinct(t.order) && t.replies(p).failure.Some?
    requires !LastResort(s.memory, t.order, p, s.now + t.idle)
    ensures HeldBack(After(s, t), p, strikes)
  {
    hide HeldBack, ChatOutcome, AskedWhenDue, Cooling, LastResort;
    var start := s.now + t.idle;
    ChatAsksAtMostOnce(s.memory, t.order, t.replies, start, p);
    OutcomeHoldsBack(s, ChatOutcome(s.memory, t.order, t.replies, start), start, p, strikes);
  }

  /** Over any number of chats one after the other: a provider that always fails, and is
      never the last resort, is not asked again before the wait of its n-th failure is over,
      and that wait doubles from two minutes up to two hours. */
  lemma {:induction false} FailingProviderIsHeldBack(s: Session, talks: seq<Talk>, p: Provider, strikes: nat)
    requires Doomed(s, talks, p) && HeldBack(s, p, strikes)
    ensures HeldBack(Finish(s, talks, p), p, strikes)
    decreases |talks|
  {
    if talks != [] {
      OneTalkHoldsBack(s, talks[0], p, strikes);
      FailingProviderIsHeldBack(After(s, talks[0]), talks[1..], p, strikes);
    }
  }

  lemma LeastWaitShape(m: nat, n: nat)
    requires 1 <= m <= n
    ensures COOLDOWN <= LeastWait(m) <= LeastWait(n) <= MAX_COOLDOWN
    ensures LeastWait(n) == MAX_COOLDOWN <==> n >= 7
  {
    Pow2Monotone(0, m - 1);
    Pow2Monotone(m - 1, n - 1);
    assert Pow2(3) == 8;
    assert Pow2(6) == 64 && Pow2(5) == 32;
    if n >= 7 { Pow2Monotone(6, n - 1); } else { Pow2Monotone(n - 1, 5); }
  }

  lemma {:induction false} LateAttemptsAreFarApart(on: seq<Attempt>, strikes: nat, i: nat, j: nat)
    requires Spaced(on, strikes) && 6 <= i <= j < |on|
    ensures on[j].from - on[i].from >= (j - i) * MAX_COOLDOWN
    decreases j - i
  {
    if i < j {
      LateAttemptsAreFarApart(on, strikes, i, j - 1);
      LeastWaitShape(1, strikes + j);
      assert on[j].from >= on[j - 1].to + LeastWait(strikes + (j - 1) + 1);
    }
  }

  lemma {:induction false} AttemptsAreOrdered(on: seq<Attempt>, strikes: nat, i: nat, j: nat)
    requires Spaced(on, strikes) && i <= j < |on|
    ensures on[i].from <= on[j].from
    decreases j - i
  {
    if i < j {
      AttemptsAreOrdered(on, strikes, i, j - 1);
      LeastWaitShape(1, strikes + j);
      assert on[j].from >= on[j - 1].to + LeastWait(strikes + (j - 1) + 1);
    }
  }

  /** So in any stretch of T time it is asked at most 7 + T / 2 h times. */
  lemma AtMostSevenPlus(on: seq<Attempt>, strikes: nat, i: nat, j: nat)
    requires Spaced(on, strikes) && i <= j < |on|
    ensures j - i + 1 <= 7 + (on[j].from - on[i].from) / MAX_COOLDOWN
  {
    AttemptsAreOrdered(on, strikes, i, j);
    if j >= 6 {
      var k := if i >= 6 then i else 6;
      LateAttemptsAreFarApart(on, strikes, k, j);
      AttemptsAreOrdered(on, strikes, i, k);
      var t := on[j].from - on[i].from;
      assert t >= (j - k) * MAX_COOLDOWN;
      QuotientAtLeast(t, MAX_COOLDOWN, j - k);
    }
  }

  lemma NoAttempts(p: Provider)
    ensures AttemptsOn(p, []) == []
  {
  }

  /** The wait in numbers: a failure puts the deadline off by two minutes, five when the rate
      was limited, an hour when the key was bad, doubled for every strike before it since the
      last success, and by two hours at most. */
  lemma DeadlineDoubles(m: Memory, p: Provider, f: Failure, now: int)
    ensures
      var before := if p in m.failures then m.failures[p] else 0;
      var seconds := match f case Transient => 120 case RateLimited => 300 case BadKey => 3600;
      var n := MarkFailed(m, p, f, now);
      && p in n.cooldowns && p in n.failures
      && n.cooldowns[p] == now + Min(seconds * Pow2(before), 7200) * 1_000_000
      && n.failures[p] == before + 1
      && forall q :: q != p ==> SameOn(m, n, q)
  {
    var before := if p in m.failures then m.failures[p] else 0;
    ScaledMin(Base(f) / SECOND, Pow2(before));
  }

  lemma ScaledMin(seconds: int, times: int)
    ensures Min(seconds * SECOND * times, MAX_COOLDOWN) == Min(seconds * times, 7200) * 1_000_000
  {
    assert seconds * SECOND * times == seconds * times * SECOND;
  }

  lemma LeastWaitInNumbers(i: nat)
    ensures LeastWait(i + 1) == Min(120 * Pow2(i), 7200) * 1_000_000
  {
    ScaledMin(120, Pow2(i));
  }

  /** The two together, from any starting memory, in numbers: the i-th failure is followed
      by at least two minutes doubled i times, or two hours; and any stretch of time holds
      at most seven attempts and one more for every two hours. */
  lemma CooldownBound(m: Memory, now: int, talks: seq<Talk>, p: Provider, i: nat, j: nat)
    requires Doomed(Session(m, now, []), talks, p)
    requires i <= j < |AttemptsOn(p, Finish(Session(m, now, []), talks, p).attempts)|
    ensures var on := AttemptsOn(p, Finish(Session(m, now, []), talks, p).attempts);
            && (i < j ==> on[i + 1].from - on[i].to >= Min(120 * Pow2(i), 7200) * 1_000_000)
            && j - i + 1 <= 7 + (on[j].from - on[i].from) / 7_200_000_000
  {
    LeastWaitInNumbers(i);
    hide Min;
    hide Finish, AttemptsOn, Doomed, LeastWait;
    assert AttemptsOn(p, []) == [] by { NoAttempts(p); }
    var strikes := Strikes(m, p);
    FailingProviderIsHeldBack(Session(m, now, []), talks, p, strikes);
    var on := AttemptsOn(p, Finish(Session(m, now, []), talks, p).attempts);
    AtMostSevenPlus(on, strikes, i, j);
    LeastWaitShape(i + 1, strikes + i + 1);
  }

  lemma QuotientAtLeast(t: int, d: int, n: int)
    requires d > 0 && t >= n * d
    ensures t / d >= n
  {
    assert t == (t / d) * d + t % d;
    assert (t / d + 1) * d > n * d;
    PositiveFactor(t / d + 1 - n, d);
  }

  lemma PositiveFactor(a: int, d: int)
    requires d > 0 && a * d > 0
    ensures a > 0
  {
  }

  /** One success clears the record: the next failure starts from the short wait again. */
  lemma OneSuccessResets(m: Memory, live: seq<Provider>, replies: Provider -> Reply, now: int,
                         f: Failure, later: int)
    requires AskInTurn(m, live, replies, now).answered.Some?
    ensures var o := AskInTurn(m, live, replies, now);
            var p := o.answered.value;
            && Strikes(o.memory, p) == 0 && !Cooling(o.memory, p, o.now)
            && MarkFailed(o.memory, p, f, later).cooldowns[p]
                 == later + (match f case Transient => 120 case RateLimited => 300 case BadKey => 3600) * 1_000_000
    decreases |live|
  {
    var reply := replies(live[0]);
    if reply.failure.Some? {
      var done := now + reply.takes;
      OneSuccessResets(MarkFailed(m, live[0], reply.failure.value, done), live[1..], replies, done, f, later);
    } else {
      assert Pow2(0) == 1;
    }
  }

  /** The last resort: when everyone is cooling down, the last provider in the order is
      asked at once, and nobody else, whatever its deadline says. */
  lemma LastResortIsAskedAnyway(m: Memory, order: seq<Provider>, replies: Provider -> Reply, now: int)
    requires order != [] && forall q <- order :: Cooling(m, q, now)
    ensures var o := ChatOutcome(m, order, replies, now);
            |o.attempts| == 1 && o.attempts[0].provider == order[|order| - 1] && o.attempts[0].from == now
  {
    var (live, looked) := LiveOf(m, order, now);
    if live != [] {
      LiveIsNotCooling(m, order, now, live[0]);
    }
    var last := order[|order| - 1];
    assert ToAsk(live, order) == [last];
    assert [last][1..] == [];
    var reply := replies(last);
    assert reply.failure.Some? ==>
        AskInTurn(MarkFailed(looked, last, reply.failure.value, now + reply.takes), [last][1..], replies,
                  now + reply.takes).attempts == [];
  }
}
