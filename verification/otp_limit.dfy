/** "Three refills" means three: the limit over whole histories, and the one way round it. */
module OtpLimit {
  import opened Options
  import opened Text
  import opened Clock
  import opened Schedule
  import opened OtpBot
  import opened OtpStart
  import opened OtpCycle
  import opened OtpHistory

  // ------------------------------------------------------------------ //
  // Counting
  // ------------------------------------------------------------------ //

  /** How many times a file of this country was added again, successfully. */
  function Readded(deeds: seq<Deed>, key: Key): nat {
    if deeds == [] then 0
    else
      var n := |deeds| - 1;
      Readded(deeds[..n], key)
        + if deeds[n].Readd? && deeds[n].ok && KeyOf(deeds[n].entry) == key then 1 else 0
  }

  predicate RetiredKey(deeds: seq<Deed>, key: Key) {
    exists d <- deeds :: d.Retired? && KeyOf(d.entry) == key
  }

  lemma {:induction false} ReaddedAppend(deeds: seq<Deed>, more: seq<Deed>, key: Key)
    ensures Readded(deeds + more, key) == Readded(deeds, key) + Readded(more, key)
    decreases |more|
  {
    if more == [] {
      assert deeds + more == deeds;
    } else {
      var n := |more| - 1;
      assert (deeds + more)[..|deeds| + n] == deeds + more[..n];
      ReaddedAppend(deeds, more[..n], key);
    }
  }

  lemma {:induction false} NoneReadded(deeds: seq<Deed>, key: Key)
    requires forall d <- deeds :: KeyOf(d.entry) != key || !Refilling(d)
    ensures Readded(deeds, key) == 0 && !RetiredKey(deeds, key)
  {
    if deeds != [] {
      hide KeyOf;
      assert deeds[|deeds| - 1] in deeds;
      NoneReadded(deeds[..|deeds| - 1], key);
    }
  }

  lemma RetiredKeyAppend(deeds: seq<Deed>, more: seq<Deed>, key: Key)
    ensures RetiredKey(deeds + more, key) <==> RetiredKey(deeds, key) || RetiredKey(more, key)
  {
    hide KeyOf;
    assert forall d :: d in deeds + more <==> d in deeds || d in more;
  }

  predicate BeginsAnew(d: Deed, key: Key) { d.FirstAdd? && d.ok && KeyOf(d.entry) == key }

  /** What the stored counter comes to: from `count` on, a first add that goes through puts
      it back to nothing, and a successful re-add counts one. */
  function Counter(deeds: seq<Deed>, key: Key, count: nat): nat {
    if deeds == [] then count
    else
      var n := |deeds| - 1;
      if BeginsAnew(deeds[n], key) then 0
      else
        Counter(deeds[..n], key, count)
          + if deeds[n].Readd? && deeds[n].ok && KeyOf(deeds[n].entry) == key then 1 else 0
  }

  lemma {:induction false} CounterAppend(deeds: seq<Deed>, more: seq<Deed>, key: Key, count: nat)
    ensures Counter(deeds + more, key, count) == Counter(more, key, Counter(deeds, key, count))
    decreases |more|
  {
    hide KeyOf;
    if more == [] {
      assert deeds + more == deeds;
    } else {
      var n := |more| - 1;
      assert (deeds + more)[..|deeds| + n] == deeds + more[..n];
      CounterAppend(deeds, more[..n], key, count);
    }
  }

  lemma {:induction false} CounterWithoutBegins(deeds: seq<Deed>, key: Key, count: nat)
    requires forall d <- deeds :: !BeginsAnew(d, key)
    ensures Counter(deeds, key, count) == count + Readded(deeds, key)
  {
    hide KeyOf;
    if deeds != [] {
      assert deeds[|deeds| - 1] in deeds;
      CounterWithoutBegins(deeds[..|deeds| - 1], key, count);
    }
  }

  /** A first add of the country goes through when something was already added again. */
  predicate BegunLate(deeds: seq<Deed>, key: Key, count: nat) {
    exists j :: 0 <= j < |deeds| && BeginsAnew(deeds[j], key) && count + Readded(deeds[..j], key) > 0
  }

  lemma BegunLateSnoc(deeds: seq<Deed>, key: Key, count: nat)
    requires deeds != []
    ensures var n := |deeds| - 1;
            BegunLate(deeds, key, count) <==>
              || BegunLate(deeds[..n], key, count)
              || (BeginsAnew(deeds[n], key) && count + Readded(deeds[..n], key) > 0)
  {
    hide KeyOf, Readded;
    var n := |deeds| - 1;
    assert forall j :: 0 <= j < n ==> deeds[..n][j] == deeds[j] && deeds[..n][..j] == deeds[..j];
  }

  /** The counter tells how many re-adds there were exactly when no first add went through
      after one of them; otherwise it tells too few. */
  lemma {:induction false} CounterTellsIff(deeds: seq<Deed>, key: Key, count: nat)
    ensures Counter(deeds, key, count) <= count + Readded(deeds, key)
    ensures Counter(deeds, key, count) == count + Readded(deeds, key) <==> !BegunLate(deeds, key, count)
  {
    if deeds != [] {
      hide KeyOf, BegunLate;
      var n := |deeds| - 1;
      CounterTellsIff(deeds[..n], key, count);
      BegunLateSnoc(deeds, key, count);
    } else {
      assert Readded(deeds, key) == 0;
    }
  }

  // ------------------------------------------------------------------ //
  // One refill after the other
  // ------------------------------------------------------------------ //

  /** The country's refills counted on one side and recorded on the other. */
  predicate Tracks(before: Store, after: Store, deeds: seq<Deed>, key: Key, limit: int)
    requires key in before.runs
  {
    if RetiredKey(deeds, key) then Readded(deeds, key) == 0
    else
      && key in after.runs
      && after.runs[key].refills == before.runs[key].refills + Readded(deeds, key) <= limit
  }

  lemma OutRefillsTrack(book: Book, refill: seq<Entry>, o: CycleOrder, key: Key)
    requires Out(refill, key)
    ensures SameRun(RefillAll(book, refill, o).book.sched, book.sched, key)
    ensures Readded(RefillAll(book, refill, o).deeds, key) == 0
    ensures !RetiredKey(RefillAll(book, refill, o).deeds, key)
  {
    hide RefillOne, KeyOf, AsScheduled;
    var deeds := RefillAll(book, refill, o).deeds;
    RefillsLeaveOthers(book, refill, o, key);
    RefillsFollowTheList(book, refill, o);
    forall d | d in deeds ensures KeyOf(d.entry) != key {
      var i :| 0 <= i < |deeds| && deeds[i] == d;
      assert refill[i] in refill;
    }
    NoneReadded(deeds, key);
  }

  lemma OneRefillTracks(so: Pass, e: Entry, o: CycleOrder, k: nat, key: Key, limit: int)
    requires limit > 0 && Effective(so.book.sched, key, o.base).maxRefills == limit
    requires KeyOf(e) == key ==> GateOpen(so.book.sched, key, o.base, o.now) && o.checkAt(k) >= o.now
    requires key in so.book.sched.runs && so.book.sched.runs[key].refills <= limit
    ensures
      var n := RefillOne(so, e, o, k);
      && |so.deeds| <= |n.deeds| && n.deeds == so.deeds + n.deeds[|so.deeds|..]
      && Tracks(so.book.sched, n.book.sched, n.deeds[|so.deeds|..], key, limit)
      && (KeyOf(e) != key ==> !RetiredKey(n.deeds[|so.deeds|..], key))
  {
    hide Effective, GateOpen, RefillOne, AsScheduled, KeyOf;
    RefillOneKeeps(so, e, o, k);
    RefillOneRuns(so, e, o, k, key, limit);
    var n := RefillOne(so, e, o, k);
    var more := n.deeds[|so.deeds|..];
    if n.deeds == so.deeds {
      assert more == [];
    } else {
      var d := n.deeds[|so.deeds|];
      assert more == [d] && [d][0] == d && [d][..0] == [];
      assert RetiredKey(more, key) <==> d.Retired? && KeyOf(e) == key;
      assert Readded(more, key) == if d.Readd? && d.ok && KeyOf(e) == key then 1 else 0;
    }
  }

  lemma OneRefillElsewhere(so: Pass, e: Entry, o: CycleOrder, k: nat, key: Key)
    requires KeyOf(e) != key
    ensures
      var n := RefillOne(so, e, o, k);
      && |so.deeds| <= |n.deeds| && n.deeds == so.deeds + n.deeds[|so.deeds|..]
      && Readded(n.deeds[|so.deeds|..], key) == 0 && !RetiredKey(n.deeds[|so.deeds|..], key)
  {
    hide RefillOne, AsScheduled, KeyOf;
    RefillOneKeeps(so, e, o, k);
    var n := RefillOne(so, e, o, k);
    NoneReadded(n.deeds[|so.deeds|..], key);
  }

  lemma TracksOn(before: Store, mid: Store, after: Store, deeds: seq<Deed>, more: seq<Deed>, key: Key, limit: int)
    requires key in before.runs && Tracks(before, mid, deeds, key, limit)
    requires RetiredKey(deeds, key) ==> Readded(more, key) == 0
    requires !RetiredKey(deeds, key) ==>
               Tracks(mid, after, more, key, limit) && (RetiredKey(more, key) ==> Readded(deeds, key) == 0)
    ensures Tracks(before, after, deeds + more, key, limit)
  {
    hide RetiredKey, Readded;
    ReaddedAppend(deeds, more, key);
    RetiredKeyAppend(deeds, more, key);
  }

  lemma OneMoreTracks(before: Store, so: Pass, e: Entry, o: CycleOrder, k: nat, key: Key, limit: int)
    requires limit > 0 && Effective(so.book.sched, key, o.base).maxRefills == limit
    requires key in before.runs && Tracks(before, so.book.sched, so.deeds, key, limit)
    requires KeyOf(e) == key ==>
               && GateOpen(so.book.sched, key, o.base, o.now) && o.checkAt(k) >= o.now
               && Readded(so.deeds, key) == 0 && !RetiredKey(so.deeds, key)
    ensures Tracks(before, RefillOne(so, e, o, k).book.sched, RefillOne(so, e, o, k).deeds, key, limit)
  {
    hide Effective, RefillOne, AsScheduled, KeyOf, GateOpen, RetiredKey, Readded;
    var n := RefillOne(so, e, o, k);
    if KeyOf(e) != key {
      OneRefillElsewhere(so, e, o, k, key);
    }
    if !RetiredKey(so.deeds, key) {
      OneRefillTracks(so, e, o, k, key, limit);
    }
    TracksOn(before, so.book.sched, n.book.sched, so.deeds, n.deeds[|so.deeds|..], key, limit);
  }

  lemma {:induction false} RefillsTrack(book: Book, refill: seq<Entry>, o: CycleOrder, key: Key, limit: int)
    requires limit > 0 && Effective(book.sched, key, o.base).maxRefills == limit && ClocksForward(o)
    requires key in book.sched.runs && book.sched.runs[key].refills <= limit
    requires GateOpen(book.sched, key, o.base, o.now) && Sole(refill, key)
    ensures Tracks(book.sched, RefillAll(book, refill, o).book.sched, RefillAll(book, refill, o).deeds, key, limit)
  {
    if refill == [] {
      NoneReadded([], key);
    } else {
      hide Effective, RefillOne, KeyOf, GateOpen, RetiredKey, Readded, DeedFor;
      var k := |refill| - 1;
      var so := RefillAll(book, refill[..k], o);
      RefillsFollowTheList(book, refill[..k], o);
      SameSettings(so.book.sched, book.sched, key, o.base);
      if KeyOf(refill[k]) == key {
        OutRefillsTrack(book, refill[..k], o, key);
      } else {
        SoleFront(refill, key);
        RefillsTrack(book, refill[..k], o, key, limit);
      }
      hide Sole, Tracks;
      RefillsStayBelow(book, refill[..k], o, key, limit);
      if !so.stopped {
        OneMoreTracks(book.sched, so, refill[k], o, k, key, limit);
      }
    }
  }

  lemma SoleFront(es: seq<Entry>, key: Key)
    requires es != [] && Sole(es, key)
    ensures Sole(es[..|es| - 1], key)
  {
    hide KeyOf;
  }

  lemma {:induction false} RefillsKeepSole(book: Book, refill: seq<Entry>, o: CycleOrder, key: Key)
    requires Sole(book.active, key)
    ensures Sole(RefillAll(book, refill, o).book.active, key)
  {
    if refill != [] {
      hide KeyOf, FinishedReason, Sole;
      var k := |refill| - 1;
      RefillsKeepSole(book, refill[..k], o, key);
      WhereKeepsSole(RefillAll(book, refill[..k], o).book.active, OtherThan(refill[k].id), key);
    }
  }

  lemma SpotsKeepSole(es: seq<Entry>, fs: seq<Entry>, key: Key)
    requires SameSpots(es, fs) && Sole(fs, key)
    ensures Sole(es, key) && (NoneWaiting(fs, key) ==> NoneWaiting(es, key))
  {
    assert forall i :: 0 <= i < |es| ==> KeyOf(es[i]) == KeyOf(fs[i]) && fs[i] in fs;
    hide KeyOf;
  }

  // ------------------------------------------------------------------ //
  // One cycle after the other
  // ------------------------------------------------------------------ //

  lemma {:induction false} FirstAddsCount(book: Book, begun: seq<Entry>, o: CycleOrder, key: Key, count: nat)
    requires key in book.sched.runs && book.sched.runs[key].refills == count
    ensures
      var (b, deeds) := FirstAdds(book, begun, o);
      key in b.sched.runs && b.sched.runs[key].refills == Counter(deeds, key, count)
  {
    if begun == [] {
      assert Counter([], key, count) == count;
    } else {
      var k := |begun| - 1;
      var (front, early) := FirstAdds(book, begun[..k], o);
      var last := FirstAdd(begun[k], o.firstAdds(k));
      FirstAddsCount(book, begun[..k], o, key, count);
      CounterAppend(early, [last], key, count);
      assert [last][..0] == [] && [last][0] == last;
      assert Counter([last], key, Counter(early, key, count))
             == if BeginsAnew(last, key) then 0 else Counter(early, key, count);
    }
  }

  /** A run in progress: one active file, waiting or not, and `count` refills on record
      since its run began; or the country is out of the active set. */
  predicate Following(book: Book, key: Key, count: nat, limit: int) {
    && count <= limit
    && Sole(book.active, key)
    && (Out(book.active, key) || (key in book.sched.runs && book.sched.runs[key].refills == count))
  }

  lemma OpeningFollows(book: Book, o: CycleOrder, key: Key, count: nat, limit: int)
    requires Following(book, key, count, limit) && !Out(book.active, key)
    ensures
      var (next, _, early) := Opening(book, o);
      && Sole(next.active, key) && key in next.sched.runs
      && next.sched.runs[key].refills == Counter(early, key, count) <= limit
  {
    var (sched, ready) := ReadyCheck(book.sched, Labels(book.active), o.base, o.force, o.now);
    ReadyIsExact(book.sched, Labels(book.active), o.base, o.force, o.now, key);
    OpeningKeeps(book, o);
    hide ReadyCheck, FirstAdds, KeyOf, Sole, BeginsAnew;
    var due := Where(book.active, In(ready));
    FirstAddsCount(book.(sched := sched), Where(due, Waits()), o, key, count);
    var early := Opening(book, o).2;
    OpeningReadds(early, key, count);
    SpotsKeepSole(Opening(book, o).0.active, book.active, key);
  }

  lemma {:induction false} OpeningReadds(early: seq<Deed>, key: Key, count: nat)
    requires forall d <- early :: d.FirstAdd?
    ensures Readded(early, key) == 0 && Counter(early, key, count) <= count
  {
    hide KeyOf;
    if early != [] {
      assert early[|early| - 1] in early;
      OpeningReadds(early[..|early| - 1], key, count);
    }
  }

  lemma RefillsBeginNothing(deeds: seq<Deed>, refill: seq<Entry>, o: CycleOrder, sched: Store, key: Key)
    requires FollowList(deeds, refill, o, sched)
    ensures forall d <- deeds :: !BeginsAnew(d, key)
  {
    hide KeyOf, AsScheduled, SamePlan;
    forall d | d in deeds ensures !BeginsAnew(d, key) {
      var i :| 0 <= i < |deeds| && deeds[i] == d;
      assert DeedFor(deeds[i], refill[i], o, i, sched);
    }
  }

  /** The refills of a cycle, for a country with one file. */
  lemma RefillsFollow(book: Book, o: CycleOrder, key: Key, limit: int)
    requires limit > 0 && Effective(book.sched, key, o.base).maxRefills == limit && ClocksForward(o)
    requires Sole(book.active, key)
    requires var next := Opening(book, o).0; key in next.sched.runs && next.sched.runs[key].refills <= limit
    ensures
      var next := Opening(book, o).0;
      var pass := RefillAll(next, Refilled(book, o), o);
      && Tracks(next.sched, pass.book.sched, pass.deeds, key, limit)
      && forall d <- pass.deeds :: !BeginsAnew(d, key)
  {
    hide Opening, Refilled, Effective, HasStarted, KeyOf, RetiredKey, Readded, Sole, BeginsAnew;
    OpeningKeeps(book, o);
    OpeningRuns(book, o, key, limit);
    RefilledIsSole(book, o, key);
    var (next, due, _) := Opening(book, o);
    var refill := Refilled(book, o);
    SameSettings(next.sched, book.sched, key, o.base);
    forall e | e in refill ensures e in due {
      RefilledRanShort(book, o, e);
    }
    RefillsFollowTheList(next, refill, o);
    RefillsBeginNothing(RefillAll(next, refill, o).deeds, refill, o, next.sched, key);
    if Out(refill, key) {
      OutRefillsTrack(next, refill, o, key);
    } else {
      RefillsTrack(next, refill, o, key, limit);
    }
  }

  /** One cycle, for a country with one active file. */
  lemma CycleFollows(book: Book, o: CycleOrder, key: Key, count: nat, limit: int)
    requires limit > 0 && Effective(book.sched, key, o.base).maxRefills == limit && ClocksForward(o)
    requires Following(book, key, count, limit) && !Out(book.active, key)
    ensures Following(Cycle(book, o).0, key, Counter(Cycle(book, o).1, key, count), limit)
    ensures RetiredKey(Cycle(book, o).1, key) ==> Out(Cycle(book, o).0.active, key)
  {
    hide Cycle, Opening, Refilled, Effective, HasStarted, KeyOf, RetiredKey, Readded, Sole, Counter, BeginsAnew;
    CycleIs(book, o);
    OpeningKeeps(book, o);
    OpeningFollows(book, o, key, count, limit);
    RefillsFollow(book, o, key, limit);
    var (next, _, early) := Opening(book, o);
    var pass := RefillAll(next, Refilled(book, o), o);
    CounterAppend(early, pass.deeds, key, count);
    CounterWithoutBegins(pass.deeds, key, Counter(early, key, count));
    RefillsKeepSole(next, Refilled(book, o), o, key);
    EarlyRetiresNobody(early, pass.deeds, key);
    if RetiredKey(Cycle(book, o).1, key) {
      var i := RetiredAt(Cycle(book, o).1, key);
      FinishTakesItOut(book, o, i);
    }
  }

  lemma EarlyRetiresNobody(early: seq<Deed>, more: seq<Deed>, key: Key)
    requires forall d <- early :: d.FirstAdd?
    ensures RetiredKey(early + more, key) <==> RetiredKey(more, key)
  {
    hide KeyOf;
    RetiredKeyAppend(early, more, key);
  }

  lemma RetiredAt(deeds: seq<Deed>, key: Key) returns (i: nat)
    requires RetiredKey(deeds, key)
    ensures i < |deeds| && deeds[i].Retired? && KeyOf(deeds[i].entry) == key
  {
    var d :| d in deeds && d.Retired? && KeyOf(d.entry) == key;
    i :| 0 <= i < |deeds| && deeds[i] == d;
  }

  // ------------------------------------------------------------------ //
  // Histories
  // ------------------------------------------------------------------ //

  /** This neither begins the country's run anew by hand nor forgets it. */
  predicate KeepsRun(book: Book, act: Act, key: Key) {
    && (act.DoStart? ==> Out(book.queue, key))
    && (act.DoResume? ==> Out(book.active, key))
    && (act.Tune? ==> !Restarts(act.op, key))
  }

  predicate NoRestart(book: Book, acts: seq<Act>, key: Key)
    decreases |acts|
  {
    acts == [] || (KeepsRun(book, acts[0], key) && NoRestart(Do(book, acts[0]).0, acts[1..], key))
  }

  lemma OutIsSole(es: seq<Entry>, key: Key)
    requires Out(es, key)
    ensures Sole(es, key) && NoneWaiting(es, key)
  {
    hide KeyOf;
  }

  lemma {:induction false} NothingCounted(deeds: seq<Deed>, key: Key, count: nat)
    requires forall d <- deeds :: KeyOf(d.entry) != key || d.StartAdd?
    ensures Counter(deeds, key, count) == count && Readded(deeds, key) == 0
  {
    hide KeyOf;
    if deeds != [] {
      assert deeds[|deeds| - 1] in deeds;
      NothingCounted(deeds[..|deeds| - 1], key, count);
    }
  }

  lemma StartFollows(book: Book, o: StartOrder, key: Key, count: nat, limit: int)
    requires Following(book, key, count, limit) && Out(book.queue, key)
    ensures Following(Start(book, o).book, key, count, limit)
    ensures NoneWaiting(book.active, key) ==> NoneWaiting(Start(book, o).book.active, key)
  {
    hide PlanOf, ArmAll, Sole;
    if Start(book, o).ok {
      var front, marked := Where(book.active, NotIn(Labels(book.queue))), Planned(book.sched, o, book.queue);
      WhereKeepsSole(book.active, NotIn(Labels(book.queue)), key);
      forall e ensures e in front ==> e in book.active {
        WhereHas(book.active, NotIn(Labels(book.queue)), e);
      }
      forall i | 0 <= i < |marked| ensures KeyOf(marked[i]) != key {
        assert book.queue[i] in book.queue;
      }
      assert Out(marked, key);
      SoleAppend(front, marked, key);
      ArmLeavesOthers(book.sched, o, book.queue, key);
    }
  }

  lemma SoleAppend(es: seq<Entry>, fs: seq<Entry>, key: Key)
    requires Sole(es, key) && Out(fs, key)
    ensures Sole(es + fs, key)
  {
    hide KeyOf;
  }

  lemma RemoveFollows(book: Book, id: nat, key: Key, count: nat, limit: int)
    requires Following(book, key, count, limit)
    ensures Following(Removed(book, id), key, count, limit)
    ensures NoneWaiting(book.active, key) ==> NoneWaiting(Removed(book, id).active, key)
  {
    hide KeyOf, Sole;
    RemovedIs(book, id);
    WhereKeepsSole(book.active, OtherThan(id), key);
  }

  lemma TuneFollows(book: Book, op: Op, at: int, key: Key, count: nat, limit: int)
    requires Following(book, key, count, limit)
    requires !Restarts(op, key) && !(op.Refill? && op.key == key)
    ensures Following(book.(sched := Apply(book.sched, op, at)), key, count, limit)
  {
    hide KeyOf, Sole, DuePass, Normalise, Effective;
  }

  /** What an act that is no cycle, or a cycle when the country is out, leaves as it was. */
  lemma QuietActFollows(book: Book, act: Act, key: Key, count: nat, limit: int)
    requires limit > 0 && Following(book, key, count, limit)
    requires SteadyAct(book, act, key, limit) && KeepsRun(book, act, key)
    requires act.DoCycle? ==> Out(book.active, key)
    ensures Following(Do(book, act).0, key, count, limit)
    ensures forall d <- Do(book, act).1 :: KeyOf(d.entry) != key || d.StartAdd?
    ensures NoneWaiting(book.active, key) ==> NoneWaiting(Do(book, act).0.active, key)
  {
    hide Cycle, Start, Apply, Effective, KeyOf, Sole, ClocksForward, Where;
    match act {
      case DoStart(o) => StartFollows(book, o, key, count, limit);
      case DoResume(o) =>
        StartStaysOut(book.(queue := book.active), o, key);
        OutIsSole(Resume(book, o).book.active, key);
      case DoCycle(o) =>
        CycleStaysOut(book, o, key);
        OutIsSole(Cycle(book, o).0.active, key);
      case Remove(id) => RemoveFollows(book, id, key, count, limit);
      case Tune(op, at) => TuneFollows(book, op, at, key, count, limit);
      case Upload(_) =>
      case Unqueue(_) =>
    }
  }

  lemma ActFollows(book: Book, act: Act, key: Key, count: nat, limit: int)
    requires limit > 0 && Following(book, key, count, limit)
    requires SteadyAct(book, act, key, limit) && KeepsRun(book, act, key)
    ensures Following(Do(book, act).0, key, Counter(Do(book, act).1, key, count), limit)
  {
    if act.DoCycle? && !Out(book.active, key) {
      CycleFollows(book, act.cycle, key, count, limit);
    } else {
      QuietActFollows(book, act, key, count, limit);
      NothingCounted(Do(book, act).1, key, count);
    }
  }

  lemma RunNext(book: Book, acts: seq<Act>)
    requires acts != []
    ensures var next := Do(book, acts[0]);
            var rest := Run(next.0, acts[1..]);
            Run(book, acts) == (rest.0, next.1 + rest.1)
  {
    hide Do;
  }

  lemma NothingRun(book: Book)
    ensures Run(book, []) == (book, [])
  {
  }

  lemma {:induction false} RunFollows(book: Book, acts: seq<Act>, key: Key, count: nat, limit: int)
    requires limit > 0 && Following(book, key, count, limit)
    requires Steady(book, acts, key, limit) && NoRestart(book, acts, key)
    ensures Following(Run(book, acts).0, key, Counter(Run(book, acts).1, key, count), limit)
    decreases |acts|
  {
    hide Do, SteadyAct, KeepsRun, Following, Run, Counter, KeyOf;
    if acts == [] {
      NothingRun(book);
      NothingCounted([], key, count);
    } else {
      RunNext(book, acts);
      ActFollows(book, acts[0], key, count, limit);
      var next, deeds := Do(book, acts[0]).0, Do(book, acts[0]).1;
      RunFollows(next, acts[1..], key, Counter(deeds, key, count), limit);
      CounterAppend(deeds, Run(next, acts[1..]).1, key, count);
    }
  }

  /** While a country has one active file and its run is not begun anew by hand, a limit of n
      means at most n successful re-adds in all, those before included, over any history in
      which no first add goes through after a re-add. In every history, as long as the file
      is active, the stored counter tells all its re-adds exactly when that is so; the
      counter, and not the re-adds, is what the limit bounds. */
  lemma LimitMeansThatMany(book: Book, acts: seq<Act>, key: Key, count: nat, limit: int)
    requires limit > 0 && Following(book, key, count, limit)
    requires Steady(book, acts, key, limit) && NoRestart(book, acts, key)
    ensures
      var (end, deeds) := Run(book, acts);
      && (!BegunLate(deeds, key, count) ==> count + Readded(deeds, key) <= limit)
      && (!Out(end.active, key) ==>
            && key in end.sched.runs && end.sched.runs[key].refills <= limit
            && (end.sched.runs[key].refills == count + Readded(deeds, key) <==> !BegunLate(deeds, key, count)))
  {
    RunFollows(book, acts, key, count, limit);
    CounterTellsIff(Run(book, acts).1, key, count);
  }

  // ------------------------------------------------------------------ //
  // When no first add comes late
  // ------------------------------------------------------------------ //

  predicate FirstAddOf(d: Deed, key: Key) { d.FirstAdd? && KeyOf(d.entry) == key }

  /** The country's first add, if there is one, goes through the first time it is tried. */
  predicate FirstTryWorks(deeds: seq<Deed>, key: Key) {
    forall j ::
      (0 <= j < |deeds| && FirstAddOf(deeds[j], key) && forall i :: 0 <= i < j ==> !FirstAddOf(deeds[i], key))
      ==> deeds[j].ok
  }

  lemma ReaddedBefore(deeds: seq<Deed>, more: seq<Deed>, key: Key, j: nat)
    requires j <= |more|
    ensures Readded((deeds + more)[..|deeds| + j], key) == Readded(deeds, key) + Readded(more[..j], key)
  {
    assert (deeds + more)[..|deeds| + j] == deeds + more[..j];
    ReaddedAppend(deeds, more[..j], key);
  }

  /** A late begin of a history is one of its first part or one of its second. */
  lemma BegunLateSplits(deeds: seq<Deed>, more: seq<Deed>, key: Key, count: nat)
    requires BegunLate(deeds + more, key, count)
    ensures BegunLate(deeds, key, count) || BegunLate(more, key, count + Readded(deeds, key))
  {
    hide BeginsAnew, Readded;
    var all := deeds + more;
    var j :| 0 <= j < |all| && BeginsAnew(all[j], key) && count + Readded(all[..j], key) > 0;
    if j < |deeds| {
      assert all[j] == deeds[j] && all[..j] == deeds[..j];
    } else {
      var i := j - |deeds|;
      assert all[j] == more[i] && all[..j] == all[..|deeds| + i];
      ReaddedBefore(deeds, more, key, i);
    }
  }

  /** A country with nothing left to begin begins nothing in a cycle. */
  lemma SettledCycle(book: Book, o: CycleOrder, key: Key)
    requires NoneWaiting(book.active, key)
    ensures NoneWaiting(Cycle(book, o).0.active, key)
    ensures forall d <- Cycle(book, o).1 :: !FirstAddOf(d, key)
  {
    hide Cycle, Opening, Refilled, KeyOf, TurnHadCome, RanShort, AsScheduled;
    var deeds := Cycle(book, o).1;
    forall d | d in deeds ensures !FirstAddOf(d, key) {
      var i :| 0 <= i < |deeds| && deeds[i] == d;
      DeedsAreWarranted(book, o, i);
    }
    NothingActive(book, o);
    if book.active != [] {
      CycleIs(book, o);
      OpeningKeeps(book, o);
      var next, refill := Opening(book, o).0, Refilled(book, o);
      SpotsKeepSettled(next.active, book.active, key);
      forall a ensures a in RefillAll(next, refill, o).book.active ==> a in next.active {
        OnlyRetiredLeave(next, refill, o, a);
      }
    }
  }

  lemma SpotsKeepSettled(es: seq<Entry>, fs: seq<Entry>, key: Key)
    requires SameSpots(es, fs) && NoneWaiting(fs, key)
    ensures NoneWaiting(es, key)
  {
    assert forall i :: 0 <= i < |es| ==> KeyOf(es[i]) == KeyOf(fs[i]) && fs[i] in fs;
    hide KeyOf;
  }

  lemma {:induction false} SettledNeverBegins(book: Book, acts: seq<Act>, key: Key, count: nat, limit: int)
    requires limit > 0 && Following(book, key, count, limit) && NoneWaiting(book.active, key)
    requires Steady(book, acts, key, limit) && NoRestart(book, acts, key)
    ensures forall d <- Run(book, acts).1 :: !FirstAddOf(d, key)
    decreases |acts|
  {
    hide Do, SteadyAct, KeepsRun, Following, Run, Counter, KeyOf, NoneWaiting;
    if acts == [] {
      NothingRun(book);
    } else {
      RunNext(book, acts);
      var act, next := acts[0], Do(book, acts[0]).0;
      ActFollows(book, act, key, count, limit);
      SettledAct(book, act, key, count, limit);
      SettledNeverBegins(next, acts[1..], key, Counter(Do(book, act).1, key, count), limit);
    }
  }

  lemma SettledAct(book: Book, act: Act, key: Key, count: nat, limit: int)
    requires limit > 0 && Following(book, key, count, limit) && NoneWaiting(book.active, key)
    requires SteadyAct(book, act, key, limit) && KeepsRun(book, act, key)
    ensures NoneWaiting(Do(book, act).0.active, key)
    ensures forall d <- Do(book, act).1 :: !FirstAddOf(d, key)
  {
    if act.DoCycle? {
      SettledCycle(book, act.cycle, key);
    } else {
      QuietActFollows(book, act, key, count, limit);
    }
  }

  /** The first cycle in which a waiting country's turn comes: either nothing was done for
      it, or its first add was tried, before anything else; and if that went through, the
      country has nothing left to begin. */
  lemma TurnComes(book: Book, o: CycleOrder, key: Key)
    requires Sole(book.active, key) && !NoneWaiting(book.active, key)
    ensures
      var (b, deeds) := Cycle(book, o);
      || (forall d <- deeds :: KeyOf(d.entry) != key)
      || (exists k :: 0 <= k < |deeds| && FirstAddOf(deeds[k], key)
            && (forall j :: 0 <= j < |deeds| && j != k ==> !FirstAddOf(deeds[j], key))
            && Readded(deeds[..k], key) == 0
            && (deeds[k].ok ==> NoneWaiting(b.active, key)))
  {
    var e :| e in book.active && KeyOf(e) == key && e.waiting != "";
    hide Cycle, Opening, Refilled, KeyOf, AsScheduled, TurnHadCome, RanShort, Begun;
    CycleIs(book, o);
    OpeningKeeps(book, o);
    var (b, deeds) := Cycle(book, o);
    var (next, due, early) := Opening(book, o);
    var late := RefillAll(next, Refilled(book, o), o).deeds;
    if e in due {
      var k := TriedInOpening(book, o, e);
      assert forall j :: 0 <= j < |early| ==> deeds[j] == early[j];
      assert deeds[..k] == early[..k];
      EarlyReaddsNothing(early, k, key);
      RefillsAreNoFirstAdds(next, Refilled(book, o), o);
      assert forall j :: |early| <= j < |deeds| ==> deeds[j] == late[j - |early|];
      if deeds[k].ok {
        BegunIsSettled(book, o, e);
      }
    } else {
      forall d | d in deeds ensures KeyOf(d.entry) != key {
        var i :| 0 <= i < |deeds| && deeds[i] == d;
        DeedsAreDue(book, o, i);
        SoleIsOne(book.active, e, d.entry);
      }
    }
  }

  lemma SoleIsOne(es: seq<Entry>, e: Entry, d: Entry)
    requires Sole(es, KeyOf(e)) && e in es && d in es
    ensures KeyOf(d) == KeyOf(e) ==> d == e
  {
    hide KeyOf;
    var i :| 0 <= i < |es| && es[i] == e;
    var j :| 0 <= j < |es| && es[j] == d;
  }

  /** Every deed of a cycle is of a due file. */
  lemma DeedsAreDue(book: Book, o: CycleOrder, i: nat)
    requires book.active != [] && i < |Cycle(book, o).1|
    ensures Cycle(book, o).1[i].entry in Opening(book, o).1
    ensures Cycle(book, o).1[i].entry in book.active
  {
    hide Cycle, Opening, Refilled, AsScheduled, TurnHadCome, RanShort;
    CycleIs(book, o);
    OpeningKeeps(book, o);
    var (next, due, early) := Opening(book, o);
    var refill := Refilled(book, o);
    RefillsFollowTheList(next, refill, o);
    var late := RefillAll(next, refill, o).deeds;
    if i < |early| {
      assert Cycle(book, o).1[i] == early[i];
    } else {
      assert DeedFor(late[i - |early|], refill[i - |early|], o, i - |early|, next.sched);
      RefilledRanShort(book, o, refill[i - |early|]);
    }
    DueFilesHadTheirTurn(book, o, Cycle(book, o).1[i].entry);
  }

  lemma {:induction false} EarlyReaddsNothing(early: seq<Deed>, k: nat, key: Key)
    requires k <= |early| && forall d <- early :: d.FirstAdd?
    ensures Readded(early[..k], key) == 0
  {
    OpeningReadds(early[..k], key, 0);
  }

  lemma RefillsAreNoFirstAdds(book: Book, refill: seq<Entry>, o: CycleOrder)
    ensures forall d <- RefillAll(book, refill, o).deeds :: !d.FirstAdd?
  {
    hide RefillAll, AsScheduled, SamePlan;
    RefillsFollowTheList(book, refill, o);
    var deeds := RefillAll(book, refill, o).deeds;
    forall d | d in deeds ensures !d.FirstAdd? {
      var i :| 0 <= i < |deeds| && deeds[i] == d;
      assert DeedFor(deeds[i], refill[i], o, i, book.sched);
    }
  }

  /** A due waiting file, alone of its country, is tried once in the opening. */
  lemma TriedInOpening(book: Book, o: CycleOrder, e: Entry) returns (k: nat)
    requires Sole(book.active, KeyOf(e)) && e in book.active && e in Opening(book, o).1 && e.waiting != ""
    ensures
      var early := Opening(book, o).2;
      && k < |early| && early[k].FirstAdd? && early[k].entry == e
      && forall j :: 0 <= j < |early| && j != k ==> !FirstAddOf(early[j], KeyOf(e))
  {
    var ready := ReadyCheck(book.sched, Labels(book.active), o.base, o.force, o.now);
    var checked := book.(sched := ready.0);
    var due := Where(book.active, In(ready.1));
    hide ReadyCheck, FirstAdds, KeyOf;
    var begun := Where(due, Waits());
    WhereHas(due, Waits(), e);
    WhereKeepsSole(book.active, In(ready.1), KeyOf(e));
    WhereKeepsSole(due, Waits(), KeyOf(e));
    FirstAddsKeep(checked, begun, o);
    k :| 0 <= k < |begun| && begun[k] == e;
  }

  lemma BegunIsSettled(book: Book, o: CycleOrder, e: Entry)
    requires book.active != [] && Sole(book.active, KeyOf(e)) && e in book.active
    requires FirstAdd(e, true) in Opening(book, o).2
    ensures NoneWaiting(Cycle(book, o).0.active, KeyOf(e))
  {
    var ready := ReadyCheck(book.sched, Labels(book.active), o.base, o.force, o.now);
    FirstAddBegins(book.(sched := ready.0), Where(Where(book.active, In(ready.1)), Waits()), o, e);
    hide ReadyCheck, FirstAdds, KeyOf, Cycle, Refilled;
    var next := Opening(book, o).0;
    assert Begun(next, e);
    OpeningKeeps(book, o);
    hide Opening;
    CycleIs(book, o);
    forall a | a in next.active ensures KeyOf(a) == KeyOf(e) ==> a.waiting == "" {
      var i :| 0 <= i < |next.active| && next.active[i] == a;
      SameKey(next.active[i], book.active[i]);
      SoleIsOne(book.active, e, book.active[i]);
    }
    forall a ensures a in RefillAll(next, Refilled(book, o), o).book.active ==> a in next.active {
      OnlyRetiredLeave(next, Refilled(book, o), o, a);
    }
  }

  lemma SameKey(a: Entry, b: Entry)
    requires a == b || a == b.(waiting := "")
    ensures KeyOf(a) == KeyOf(b) && a.id == b.id
  {
  }

  /** A condition to check beforehand. The limit holds when the file is not waiting, and
      also when it is, with nothing added again yet, and its first add goes through the
      first time its turn comes. */
  lemma {:induction false} FirstTryKeepsTheLimit(book: Book, acts: seq<Act>, key: Key, count: nat, limit: int)
    requires limit > 0 && Following(book, key, count, limit)
    requires Steady(book, acts, key, limit) && NoRestart(book, acts, key)
    requires NoneWaiting(book.active, key) || (count == 0 && FirstTryWorks(Run(book, acts).1, key))
    ensures !BegunLate(Run(book, acts).1, key, count) && count + Readded(Run(book, acts).1, key) <= limit
    decreases |acts|
  {
    LimitMeansThatMany(book, acts, key, count, limit);
    if NoneWaiting(book.active, key) {
      SettledNeverBegins(book, acts, key, count, limit);
      NoBeginIsLate(Run(book, acts).1, key, count);
    } else if acts != [] {
      hide Do, SteadyAct, KeepsRun, Following, Run, KeyOf, NoneWaiting, Readded, BegunLate, FirstTryWorks;
      RunNext(book, acts);
      var (next, deeds) := Do(book, acts[0]);
      var more := Run(next, acts[1..]).1;
      ActFollows(book, acts[0], key, count, limit);
      FirstTrySplits(deeds, more, key);
      FirstActDecides(book, acts[0], key, limit);
      if forall d <- deeds :: !FirstAddOf(d, key) {
        FirstTryKeepsTheLimit(next, acts[1..], key, 0, limit);
      } else {
        SettledNeverBegins(next, acts[1..], key, Counter(deeds, key, count), limit);
        NoBeginIsLate(more, key, count + Readded(deeds, key));
      }
      if BegunLate(deeds + more, key, count) {
        BegunLateSplits(deeds, more, key, count);
      }
    } else {
      assert Run(book, acts).1 == [];
    }
  }

  lemma NoBeginIsLate(deeds: seq<Deed>, key: Key, count: nat)
    requires forall d <- deeds :: !FirstAddOf(d, key)
    ensures !BegunLate(deeds, key, count)
  {
    hide KeyOf, Readded;
    assert forall j :: 0 <= j < |deeds| ==> deeds[j] in deeds && !FirstAddOf(deeds[j], key);
    assert forall d: Deed :: BeginsAnew(d, key) ==> FirstAddOf(d, key);
  }

  lemma FirstTrySplits(deeds: seq<Deed>, more: seq<Deed>, key: Key)
    requires FirstTryWorks(deeds + more, key)
    ensures FirstTryWorks(deeds, key)
    ensures (forall d <- deeds :: !FirstAddOf(d, key)) ==> FirstTryWorks(more, key)
  {
    hide FirstAddOf;
    var all := deeds + more;
    assert forall j :: 0 <= j < |deeds| ==> all[j] == deeds[j];
    assert forall j :: 0 <= j < |more| ==> all[|deeds| + j] == more[j];
    if forall d <- deeds :: !FirstAddOf(d, key) {
      forall j | 0 <= j < |more| && FirstAddOf(more[j], key)
                 && (forall i :: 0 <= i < j ==> !FirstAddOf(more[i], key))
        ensures FirstAddOf(more[j], key) && all[|deeds| + j] == more[j]
        ensures forall i :: 0 <= i < |deeds| + j ==> !FirstAddOf(all[i], key)
      {
        forall i | 0 <= i < |deeds| + j ensures !FirstAddOf(all[i], key) {
          if i >= |deeds| { assert all[i] == more[i - |deeds|]; }
        }
      }
    }
  }

  /** One act for a waiting country with nothing added again yet: without a first add it
      stays so; with one that goes through, the country has nothing left to begin. */
  lemma FirstActDecides(book: Book, act: Act, key: Key, limit: int)
    requires limit > 0 && Following(book, key, 0, limit) && !NoneWaiting(book.active, key)
    requires SteadyAct(book, act, key, limit) && KeepsRun(book, act, key)
    requires FirstTryWorks(Do(book, act).1, key)
    ensures !BegunLate(Do(book, act).1, key, 0)
    ensures if forall d <- Do(book, act).1 :: !FirstAddOf(d, key) then
              Readded(Do(book, act).1, key) == 0 && Following(Do(book, act).0, key, 0, limit)
            else NoneWaiting(Do(book, act).0.active, key)
  {
    var deeds := Do(book, act).1;
    hide Following, Cycle, KeyOf;
    ActFollows(book, act, key, 0, limit);
    if act.DoCycle? {
      FollowingIsSole(book, key, 0, limit);
      TurnComes(book, act.cycle, key);
      if forall d <- deeds :: KeyOf(d.entry) != key {
        NothingCounted(deeds, key, 0);
        NoBeginIsLate(deeds, key, 0);
      }
    } else {
      FollowingIsSole(book, key, 0, limit);
      QuietActFollows(book, act, key, 0, limit);
      NothingCounted(deeds, key, 0);
      NoBeginIsLate(deeds, key, 0);
    }
  }

  lemma FollowingIsSole(book: Book, key: Key, count: nat, limit: int)
    requires Following(book, key, count, limit)
    ensures Sole(book.active, key)
  {
  }

  // ------------------------------------------------------------------ //
  // A waiting file defeats the limit
  // ------------------------------------------------------------------ //

  /** A check that a person asks for at `t`, when nothing is in stock: the first add is
      accepted or refused, and the re-add is accepted. */
  function ShortOfStock(base: Config, t: int, firstOk: bool): CycleOrder {
    CycleOrder(base, true, t, _ => firstOk, _ => t, Answer([], Some(base.threshold)), true, _ => true, _ => t, _ => t)
  }

  /** This file alone is active, its country past its gate at `t`, with so many refills on
      record, this limit, and neither a stop time nor a run length. */
  predicate Alone(book: Book, e: Entry, base: Config, t: int, count: nat, limit: int) {
    var cfg := Effective(book.sched, KeyOf(e), base);
    && book.active == [e]
    && KeyOf(e) in book.sched.runs && book.sched.runs[KeyOf(e)].refills == count <= limit
    && HasStarted(book.sched, KeyOf(e), base, t)
    && cfg.maxRefills == limit && Strip(cfg.stopAt) == "" && cfg.runMinutes == 0
  }

  lemma WhereOne(e: Entry, keep: Entry -> bool)
    ensures Where([e], keep) == if keep(e) then [e] else []
  {
    assert [e][..0] == [];
    assert Where([], keep) == [];
  }

  lemma ReadyAlone(book: Book, e: Entry, base: Config, t: int)
    requires book.active == [e] && HasStarted(book.sched, KeyOf(e), base, t)
    ensures ReadyCheck(book.sched, Labels(book.active), base, true, t).1 == [e.country]
  {
    hide HasStarted, Normalise;
    var labels := Labels(book.active);
    assert labels == [e.country] && labels[..0] == [];
    assert StartedOnes(book.sched, [], base, t) == [];
  }

  /** The waiting file's first add is tried, and it is refilled. */
  lemma OpeningAlone(book: Book, e: Entry, base: Config, t: int, firstOk: bool)
    requires book.active == [e] && e.waiting != "" && HasStarted(book.sched, KeyOf(e), base, t)
    ensures
      var o := ShortOfStock(base, t, firstOk);
      var (next, due, deeds) := Opening(book, o);
      && deeds == [FirstAdd(e, firstOk)] && Refilled(book, o) == [e]
      && next.active == [if firstOk then e.(waiting := "") else e]
      && next.sched.settings == book.sched.settings
      && next.sched.runs == if firstOk then book.sched.runs[KeyOf(e) := RunState(At(t), At(t), 0, "")]
                            else book.sched.runs
  {
    var o := ShortOfStock(base, t, firstOk);
    ReadyAlone(book, e, base, t);
    ReadyIsExact(book.sched, Labels(book.active), base, true, t, KeyOf(e));
    hide HasStarted, ReadyCheck, Normalise, Effective;
    var (sched, ready) := ReadyCheck(book.sched, Labels(book.active), base, true, t);
    var checked := book.(sched := sched);
    WhereOne(e, In(ready));
    assert ready[0] == e.country;
    WhereOne(e, Waits());
    assert [e][..0] == [];
    assert FirstAdds(checked, [], o) == (checked, []);
    assert FirstAdds(checked, [e], o) == (FirstAddOne(checked, e, o, 0), [] + [FirstAdd(e, firstOk)]);
    assert Strip("") == "";
  }

  lemma RefillAlone(book: Book, e: Entry, a: Entry, base: Config, t: int, firstOk: bool, count: nat, limit: int)
    requires Alone(book.(active := [e]), e, base, t, count, limit) && book.active == [a] && count < limit
    ensures
      var pass := RefillAll(book, [e], ShortOfStock(base, t, firstOk));
      && |pass.deeds| == 1 && pass.deeds[0].Readd? && pass.deeds[0].ok && pass.deeds[0].entry == e
      && pass.book.active == [a] && pass.book.sched.settings == book.sched.settings
      && pass.book.sched.runs
         == book.sched.runs[KeyOf(e) := book.sched.runs[KeyOf(e)].(refills := count + 1)]
  {
    hide HasStarted, Normalise, Effective, EffectiveStart, StopTimePassed;
    var o := ShortOfStock(base, t, firstOk);
    assert [e][..0] == [];
    assert RefillAll(book, [], o) == Pass(book, [], false);
    assert RefillAll(book, [e], o) == RefillOne(Pass(book, [], false), e, o, 0);
    assert FinishedReason(book.sched, KeyOf(e), base, t) == Going;
  }

  lemma OneReadded(first: Deed, last: Deed, e: Entry)
    requires first.FirstAdd? && last.Readd? && last.ok && last.entry == e
    ensures Readded([first, last], KeyOf(e)) == 1
  {
    hide KeyOf;
    assert [first, last][..1] == [first] && [first][..0] == [];
    assert Readded([], KeyOf(e)) == 0;
    assert Readded([first], KeyOf(e)) == 0;
  }

  lemma StillStarted(s: Store, t: Store, key: Key, base: Config, now: int)
    requires key in s.runs && key in t.runs && t.runs[key] == s.runs[key].(refills := t.runs[key].refills)
    requires HasStarted(s, key, base, now)
    ensures HasStarted(t, key, base, now)
  {
    hide StartTimeReached;
  }

  /** Refused at the first add and accepted at the refill, the file still waits, and one
      more refill is on record. */
  lemma RefusedAndRefilled(book: Book, e: Entry, base: Config, t: int, count: nat, limit: int)
    requires Alone(book, e, base, t, count, limit) && e.waiting != "" && count < limit
    ensures
      var (next, deeds) := Cycle(book, ShortOfStock(base, t, false));
      Alone(next, e, base, t, count + 1, limit) && Readded(deeds, KeyOf(e)) == 1
  {
    hide Cycle, Opening, Refilled, KeyOf, HasStarted, RefillAll, Readded, Effective;
    var o := ShortOfStock(base, t, false);
    CycleIs(book, o);
    OpeningAlone(book, e, base, t, false);
    var mid := Opening(book, o).0;
    SameSettings(mid.sched, book.sched, KeyOf(e), base);
    StillStarted(book.sched, mid.sched, KeyOf(e), base, t);
    RefillAlone(mid, e, e, base, t, false, count, limit);
    var pass := RefillAll(mid, [e], o);
    SameSettings(pass.book.sched, book.sched, KeyOf(e), base);
    StillStarted(mid.sched, pass.book.sched, KeyOf(e), base, t);
    assert Cycle(book, o).1 == [FirstAdd(e, false), pass.deeds[0]];
    OneReadded(FirstAdd(e, false), pass.deeds[0], e);
  }

  /** Accepted at last, the counter starts from nothing again, and one more refill goes
      through, whatever was on record. */
  lemma AcceptedAndRefilled(book: Book, e: Entry, base: Config, t: int, count: nat, limit: int)
    requires Alone(book, e, base, t, count, limit) && e.waiting != "" && limit > 0
    ensures Readded(Cycle(book, ShortOfStock(base, t, true)).1, KeyOf(e)) == 1
  {
    hide Cycle, Opening, Refilled, KeyOf, RefillAll, Readded, Effective, StartTimeReached;
    var o := ShortOfStock(base, t, true);
    CycleIs(book, o);
    OpeningAlone(book, e, base, t, true);
    var mid := Opening(book, o).0;
    SameSettings(mid.sched, book.sched, KeyOf(e), base);
    assert Strip("") == "";
    assert HasStarted(mid.sched, KeyOf(e), base, t);
    hide HasStarted;
    RefillAlone(mid, e, mid.active[0], base, t, true, 0, limit);
    var pass := RefillAll(mid, [e], o);
    assert Cycle(book, o).1 == [FirstAdd(e, true), pass.deeds[0]];
    OneReadded(FirstAdd(e, true), pass.deeds[0], e);
  }

  lemma OneActRuns(book: Book, act: Act)
    ensures Run(book, [act]) == (Do(book, act).0, Do(book, act).1 + [])
  {
    hide Do;
    assert [act][1..] == [];
    assert Run(Do(book, act).0, []) == (Do(book, act).0, []);
  }

  /** Checks asked for by hand while the stock is short, the first adds refused as long as
      the limit lets the file be refilled, and then accepted. */
  function KnockingOn(base: Config, t: int, times: nat): seq<Act> {
    if times == 0 then [DoCycle(ShortOfStock(base, t, true))]
    else [DoCycle(ShortOfStock(base, t, false))] + KnockingOn(base, t, times - 1)
  }

  /** A waiting file is added again once more often than the limit says, with nothing begun
      anew by hand: its refused first adds leave it waiting while its refills are counted,
      and when one is accepted, the counter starts from nothing. */
  lemma {:induction false} WaitingFileDefeatsTheLimit(book: Book, e: Entry, base: Config, t: int,
                                                      count: nat, limit: int)
    requires limit > 0 && Alone(book, e, base, t, count, limit) && e.waiting != ""
    ensures
      var acts := KnockingOn(base, t, limit - count);
      && Steady(book, acts, KeyOf(e), limit) && NoRestart(book, acts, KeyOf(e))
      && count + Readded(Run(book, acts).1, KeyOf(e)) == limit + 1
    decreases limit - count
  {
    hide Cycle, KeyOf, HasStarted, Run, Effective, Readded;
    var acts := KnockingOn(base, t, limit - count);
    var next := Do(book, acts[0]).0;
    if count == limit {
      AcceptedAndRefilled(book, e, base, t, count, limit);
      OneActRuns(book, acts[0]);
      assert Do(book, acts[0]).1 + [] == Do(book, acts[0]).1;
      assert acts[1..] == [];
    } else {
      RefusedAndRefilled(book, e, base, t, count, limit);
      WaitingFileDefeatsTheLimit(next, e, base, t, count + 1, limit);
      assert acts[1..] == KnockingOn(base, t, limit - count - 1);
      RunNext(book, acts);
      ReaddedAppend(Do(book, acts[0]).1, Run(next, acts[1..]).1, KeyOf(e));
    }
  }

  /** For a file that is active alone, with neither a stop time nor a run length: the limit
      holds over every history without a new run by hand exactly when the file is not
      waiting for its first add. */
  lemma LimitHoldsIffNotWaiting(book: Book, e: Entry, base: Config, t: int, count: nat, limit: int)
    requires limit > 0 && Alone(book, e, base, t, count, limit)
    ensures (forall acts :: Steady(book, acts, KeyOf(e), limit) && NoRestart(book, acts, KeyOf(e)) ==>
               count + Readded(Run(book, acts).1, KeyOf(e)) <= limit)
            <==> e.waiting == ""
  {
    hide Run, KeyOf, HasStarted, Effective, Steady, NoRestart, Readded;
    if e.waiting == "" {
      forall acts | Steady(book, acts, KeyOf(e), limit) && NoRestart(book, acts, KeyOf(e))
        ensures count + Readded(Run(book, acts).1, KeyOf(e)) <= limit
      {
        FirstTryKeepsTheLimit(book, acts, KeyOf(e), count, limit);
      }
    } else {
      WaitingFileDefeatsTheLimit(book, e, base, t, count, limit);
      assert Steady(book, KnockingOn(base, t, limit - count), KeyOf(e), limit);
    }
  }
}
