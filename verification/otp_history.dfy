/** Whole histories of starts, cycles and settings: finishing for good, and the refill limit. */
module OtpHistory {
  import opened Options
  import opened Text
  import opened Clock
  import opened Schedule
  import opened OtpBot
  import opened OtpStart
  import opened OtpCycle

  // ------------------------------------------------------------------ //
  // Histories
  // ------------------------------------------------------------------ //

  datatype Act =
    | DoStart(order: StartOrder)
    | DoResume(order: StartOrder)
    | DoCycle(cycle: CycleOrder)
    | Upload(entry: Entry)
    | Unqueue(id: nat)
    | Remove(id: nat)
    | Tune(op: Op, at: int)

  function Sent(es: seq<Entry>): seq<Deed> {
    seq(|es|, i requires 0 <= i < |es| => StartAdd(es[i]))
  }

  function Do(book: Book, act: Act): (Book, seq<Deed>) {
    match act
    case DoStart(o) => (Start(book, o).book, Sent(Start(book, o).sent))
    case DoResume(o) => (Resume(book, o).book, Sent(Resume(book, o).sent))
    case DoCycle(o) => Cycle(book, o)
    case Upload(e) => (book.(queue := book.queue + [e]), [])
    case Unqueue(id) => (book.(queue := Where(book.queue, OtherThan(id))), [])
    case Remove(id) => (Removed(book, id), [])
    case Tune(op, at) => (book.(sched := Apply(book.sched, op, at)), [])
  }

  function Run(book: Book, acts: seq<Act>): (Book, seq<Deed>)
    decreases |acts|
  {
    if acts == [] then (book, [])
    else
      var (next, deeds) := Do(book, acts[0]);
      var (last, more) := Run(next, acts[1..]);
      (last, deeds + more)
  }

  /** No file of this country is stored. */
  predicate Absent(book: Book, key: Key) { Out(book.queue, key) && Out(book.active, key) }

  lemma WhereStaysOut(es: seq<Entry>, keep: Entry -> bool, key: Key)
    requires Out(es, key)
    ensures Out(Where(es, keep), key)
  {
    hide KeyOf;
    forall e | e in Where(es, keep) ensures KeyOf(e) != key {
      WhereHas(es, keep, e);
    }
  }

  lemma StartStaysOut(book: Book, o: StartOrder, key: Key)
    requires Absent(book, key)
    ensures Absent(Start(book, o).book, key) && Out(Start(book, o).sent, key)
  {
    var marked := Planned(book.sched, o, book.queue);
    var toAdd := Where(marked, NeedsAdd());
    hide PlanOf, ArmAll, Where, Accepted;
    assert Out(marked, key) by {
      forall i | 0 <= i < |marked| ensures KeyOf(marked[i]) != key {
        assert book.queue[i] in book.queue;
      }
    }
    WhereStaysOut(marked, NeedsAdd(), key);
    StartIsAllOrNothing(book, o);
    assert forall e <- Start(book, o).sent :: e in toAdd;
    if Start(book, o).ok {
      WhereStaysOut(book.active, NotIn(Labels(book.queue)), key);
    }
  }

  lemma CycleStaysOut(book: Book, o: CycleOrder, key: Key)
    requires Out(book.active, key)
    ensures Out(Cycle(book, o).0.active, key) && Cycle(book, o).0.queue == book.queue
    ensures forall d <- Cycle(book, o).1 :: KeyOf(d.entry) != key
  {
    hide Cycle, TurnHadCome, RanShort, AsScheduled;
    NothingActive(book, o);
    OnlyRetiredLeaveTheCycle(book, o, 0);
    if book.active != [] { TimersAdvanceAnyway(book, o); }
    forall d | d in Cycle(book, o).1 ensures KeyOf(d.entry) != key {
      var i :| 0 <= i < |Cycle(book, o).1| && Cycle(book, o).1[i] == d;
      DeedsAreWarranted(book, o, i);
    }
  }

  /** A country no file of which is stored, as after it finished, is never touched again:
      no start and no resume sends anything for it, and no cycle adds or retires anything,
      in any later history of starts, resumes, cycles, removals and settings, until a file
      of that country is uploaded. */
  lemma {:induction false} NothingAfterFinish(book: Book, acts: seq<Act>, key: Key)
    requires Absent(book, key)
    requires forall act <- acts :: act.Upload? ==> KeyOf(act.entry) != key
    ensures Absent(Run(book, acts).0, key)
    ensures forall d <- Run(book, acts).1 :: KeyOf(d.entry) != key
    decreases |acts|
  {
    if acts != [] {
      hide Cycle, Start, KeyOf, Apply;
      var act := acts[0];
      var next := Do(book, act).0;
      match act {
        case DoStart(o) => StartStaysOut(book, o, key);
        case DoResume(o) => StartStaysOut(book.(queue := book.active), o, key);
        case DoCycle(o) => CycleStaysOut(book, o, key);
        case Upload(e) =>
        case Unqueue(id) => WhereStaysOut(book.queue, OtherThan(id), key);
        case Remove(id) => WhereStaysOut(book.active, OtherThan(id), key);
        case Tune(_, _) =>
      }
      assert forall d <- Do(book, act).1 :: KeyOf(d.entry) != key;
      hide Do;
      NothingAfterFinish(next, acts[1..], key);
    }
  }

  /** A person's check of two files of one started country, neither of them waiting. */
  lemma OpeningOfTwo(book: Book, o: CycleOrder, a: Entry, b: Entry)
    requires book.active == [a, b] && a.country == b.country && a.waiting == "" && b.waiting == ""
    requires o.force && HasStarted(book.sched, KeyOf(a), o.base, o.now)
    requires o.cleanup && o.report == Answer([], Some(o.base.threshold))
    ensures
      var (next, due, deeds) := Opening(book, o);
      && next.active == [a, b] && next.sched.runs == book.sched.runs
      && next.sched.settings == book.sched.settings
      && deeds == [] && Refilled(book, o) == [a, b]
  {
    hide HasStarted, Effective, Normalise, StartedOnes, Where, ArmEach;
    var labels := Labels(book.active);
    assert labels == [a.country, a.country];
    StartedTwo(book.sched, a.country, o.base, o.now);
    var ready := StartedOnes(book.sched, labels, o.base, o.now);
    ArmEachIs(book.sched, ready, o.base, o.now, KeyOf(a));
    WhereTwo(a, b, In(ready));
    assert labels[0] == a.country;
    assert Where(book.active, In(ready)) == [a, b];
    WhereTwo(a, b, Waits());
    assert Where([a, b], Waits()) == [];
    var checked := book.(sched := ArmEach(book.sched, ready, o.base, o.now));
    assert FirstAdds(checked, [], o) == (checked, []);
  }

  lemma StartedTwo(sched: Store, c: string, base: Config, now: int)
    requires HasStarted(sched, Normalise(c), base, now)
    ensures StartedOnes(sched, [c, c], base, now) == [c, c]
  {
    hide HasStarted, Normalise;
    assert [c, c][..1] == [c] && [c][..0] == [];
    assert StartedOnes(sched, [], base, now) == [];
    assert StartedOnes(sched, [c], base, now) == [c];
  }

  lemma RetireThenReadd(book: Book, o: CycleOrder, a: Entry, b: Entry)
    requires book.active == [a, b] && a.id != b.id && a.country == b.country
    requires KeyOf(a) in book.sched.runs && IsNow(Strip(book.sched.runs[KeyOf(a)].gate))
    requires 0 < Effective(book.sched, KeyOf(a), o.base).maxRefills <= book.sched.runs[KeyOf(a)].refills
    requires o.adds(1)
    ensures
      var pass := RefillAll(book, [a, b], o);
      && |pass.deeds| == 2 && pass.deeds[0].Retired? && pass.deeds[0].entry == a && pass.deeds[0].why == RefillsSpent
      && pass.deeds[1].Readd? && pass.deeds[1].entry == b && pass.deeds[1].ok
      && pass.book.active == [b]
      && KeyOf(b) in pass.book.sched.runs && pass.book.sched.runs[KeyOf(b)].refills == 1
  {
    hide Effective, Normalise, StartTimeReached, EffectiveStart, StopTimePassed, IsNow;
    RefillTwo(book, a, b, o);
    WhereTwo(a, b, OtherThan(a.id));
    var one := RefillOne(Pass(book, [], false), a, o, 0);
    assert one == Pass(Retire(book, a), [Retired(a, book.sched, o.checkAt(0), RefillsSpent)], false);
    assert KeyOf(b) !in one.book.sched.runs;
  }

  /** Why one file per country is needed. Retiring the first of two files clears the run
      state they share, so in the very same cycle the second one is sent again, as the
      first refill of a run that nobody began. */
  lemma TwoFilesDefeatTheFinish(book: Book, o: CycleOrder, a: Entry, b: Entry)
    requires book.active == [a, b] && a.id != b.id && a.country == b.country
    requires a.waiting == "" && b.waiting == ""
    requires KeyOf(a) in book.sched.runs && IsNow(Strip(book.sched.runs[KeyOf(a)].gate))
    requires 0 < Effective(book.sched, KeyOf(a), o.base).maxRefills <= book.sched.runs[KeyOf(a)].refills
    requires o.force && o.cleanup && o.report == Answer([], Some(o.base.threshold)) && o.adds(1)
    ensures
      var (after, deeds) := Cycle(book, o);
      && |deeds| == 2 && deeds[0].Retired? && deeds[0].entry == a && deeds[0].why == RefillsSpent
      && deeds[1].Readd? && deeds[1].entry == b && deeds[1].ok
      && after.active == [b] && KeyOf(b) in after.sched.runs && after.sched.runs[KeyOf(b)].refills == 1
  {
    assert HasStarted(book.sched, KeyOf(a), o.base, o.now);
    hide Cycle, Opening, Refilled, Effective, IsNow, KeyOf, RefillAll, HasStarted;
    OpeningOfTwo(book, o, a, b);
    var next := Opening(book, o).0;
    SameSettings(next.sched, book.sched, KeyOf(a), o.base);
    RetireThenReadd(next, o, a, b);
    CycleIs(book, o);
    var pass := RefillAll(next, [a, b], o);
    assert [] + pass.deeds == pass.deeds;
  }

  lemma WhereTwo(a: Entry, b: Entry, keep: Entry -> bool)
    ensures Where([a, b], keep) == (if keep(a) then [a] else []) + (if keep(b) then [b] else [])
  {
    assert [a, b][..1] == [a] && [a][..0] == [];
    assert Where([a], keep) == if keep(a) then [a] else [];
  }

  lemma RefillTwo(book: Book, a: Entry, b: Entry, o: CycleOrder)
    ensures var one := RefillOne(Pass(book, [], false), a, o, 0);
            RefillAll(book, [a, b], o) == if one.stopped then one else RefillOne(one, b, o, 1)
  {
    hide RefillOne;
    assert [a, b][..1] == [a] && [a][..0] == [];
    assert RefillAll(book, [], o) == Pass(book, [], false);
    assert RefillAll(book, [a], o) == RefillOne(Pass(book, [], false), a, o, 0);
  }

  // ------------------------------------------------------------------ //
  // The refill limit
  // ------------------------------------------------------------------ //

  predicate AtMostRefills(sched: Store, key: Key, limit: int) {
    key in sched.runs ==> sched.runs[key].refills <= limit
  }

  predicate GateOpen(sched: Store, key: Key, base: Config, now: int) {
    key in sched.runs ==> HasStarted(sched, key, base, now)
  }

  predicate SameRun(s: Store, t: Store, key: Key) {
    (key in s.runs <==> key in t.runs) && (key in s.runs ==> s.runs[key] == t.runs[key])
  }

  /** No clock reading of the cycle lies before its beginning. */
  ghost predicate ClocksForward(o: CycleOrder) {
    forall k: nat :: o.checkAt(k) >= o.now
  }

  /** What one refill does to a country's run. For the country itself, once past its gate
      and under a fixed limit: it is only counted while the limit is not reached. */
  lemma RefillOneRuns(so: Pass, e: Entry, o: CycleOrder, k: nat, key: Key, limit: int)
    requires limit > 0 && Effective(so.book.sched, key, o.base).maxRefills == limit
    requires KeyOf(e) == key ==> GateOpen(so.book.sched, key, o.base, o.now) && o.checkAt(k) >= o.now
    ensures
      var n := RefillOne(so, e, o, k);
      if KeyOf(e) != key || n.deeds == so.deeds then SameRun(n.book.sched, so.book.sched, key)
      else
        var d := n.deeds[|n.deeds| - 1];
        if d.Retired? then key !in n.book.sched.runs
        else if !d.ok then SameRun(n.book.sched, so.book.sched, key)
        else
          && key in n.book.sched.runs && GateOpen(n.book.sched, key, o.base, o.now)
          && (key in so.book.sched.runs ==>
                so.book.sched.runs[key].refills < limit
                && n.book.sched.runs[key].refills == so.book.sched.runs[key].refills + 1)
          && (key !in so.book.sched.runs ==> n.book.sched.runs[key].refills == 1)
    ensures GateOpen(so.book.sched, key, o.base, o.now) ==>
              GateOpen(RefillOne(so, e, o, k).book.sched, key, o.base, o.now)
  {
    hide Effective, StartTimeReached, EffectiveStart, StopTimePassed, AsScheduled;
    RefillOneKeeps(so, e, o, k);
    RemovedIs(so.book, e.id);
    assert Strip("") == "";
    if KeyOf(e) == key && key in so.book.sched.runs {
      StartedStaysStarted(so.book.sched, [], key, o.base, o.now, o.base, o.checkAt(k));
    }
  }

  lemma {:induction false} RefillsLeaveOthers(book: Book, refill: seq<Entry>, o: CycleOrder, key: Key)
    requires Out(refill, key)
    ensures SameRun(RefillAll(book, refill, o).book.sched, book.sched, key)
  {
    if refill != [] {
      var k := |refill| - 1;
      assert refill[k] in refill;
      RefillsLeaveOthers(book, refill[..k], o, key);
      RemovedIs(RefillAll(book, refill[..k], o).book, refill[k].id);
    }
  }

  lemma {:induction false} RefillsStayBelow(book: Book, refill: seq<Entry>, o: CycleOrder, key: Key, limit: int)
    requires limit > 0 && Effective(book.sched, key, o.base).maxRefills == limit && ClocksForward(o)
    requires AtMostRefills(book.sched, key, limit) && GateOpen(book.sched, key, o.base, o.now)
    ensures
      var s := RefillAll(book, refill, o).book.sched;
      AtMostRefills(s, key, limit) && GateOpen(s, key, o.base, o.now)
  {
    if refill != [] {
      hide Effective, GateOpen, RefillOne, AsScheduled, KeyOf;
      var k := |refill| - 1;
      RefillsStayBelow(book, refill[..k], o, key, limit);
      var so := RefillAll(book, refill[..k], o);
      RefillsFollowTheList(book, refill[..k], o);
      SameSettings(so.book.sched, book.sched, key, o.base);
      if !so.stopped {
        RefillOneKeeps(so, refill[k], o, k);
        RefillOneRuns(so, refill[k], o, k, key, limit);
      }
    }
  }

  lemma {:induction false} FirstAddsRuns(book: Book, begun: seq<Entry>, o: CycleOrder, key: Key, limit: int)
    requires limit >= 0
    ensures
      var s := FirstAdds(book, begun, o).0.sched;
      && (AtMostRefills(book.sched, key, limit) ==> AtMostRefills(s, key, limit))
      && (GateOpen(book.sched, key, o.base, o.now) ==> GateOpen(s, key, o.base, o.now))
      && (Out(begun, key) ==> SameRun(s, book.sched, key))
  {
    if begun != [] {
      hide StartTimeReached, Effective, Normalise;
      var k := |begun| - 1;
      assert begun[k] in begun;
      FirstAddsRuns(book, begun[..k], o, key, limit);
      assert Strip("") == "";
    }
  }

  /** No active file of the country has its first add still to come. */
  predicate NoneWaiting(es: seq<Entry>, key: Key) {
    forall e <- es :: KeyOf(e) == key ==> e.waiting == ""
  }

  lemma OpeningRuns(book: Book, o: CycleOrder, key: Key, limit: int)
    requires limit >= 0
    ensures
      var (next, due, _) := Opening(book, o);
      && (AtMostRefills(book.sched, key, limit) ==> AtMostRefills(next.sched, key, limit))
      && (!Out(due, key) ==> GateOpen(next.sched, key, o.base, o.now))
      && (NoneWaiting(book.active, key) ==> SameRun(next.sched, book.sched, key))
  {
    var (sched, ready) := ReadyCheck(book.sched, Labels(book.active), o.base, o.force, o.now);
    var due := Where(book.active, In(ready));
    ReadyIsExact(book.sched, Labels(book.active), o.base, o.force, o.now, key);
    FirstAddsRuns(book.(sched := sched), Where(due, Waits()), o, key, limit);
    assert due == Opening(book, o).1;
    if !Out(due, key) {
      var e :| e in due && KeyOf(e) == key;
      DueFilesHadTheirTurn(book, o, e);
      GateOfSameRun(book.sched, sched, key, o);
    }
    hide ReadyCheck, FirstAdds, KeyOf;
    if NoneWaiting(book.active, key) {
      forall e | e in Where(due, Waits()) ensures KeyOf(e) != key {
        WhereHas(due, Waits(), e);
        WhereHas(book.active, In(ready), e);
      }
    }
  }

  lemma GateOfSameRun(s: Store, t: Store, key: Key, o: CycleOrder)
    requires SameRun(s, t, key) && HasStarted(s, key, o.base, o.now)
    ensures GateOpen(t, key, o.base, o.now)
  {
    hide StartTimeReached;
  }

  lemma CycleStaysBelow(book: Book, o: CycleOrder, key: Key, limit: int)
    requires limit > 0 && Effective(book.sched, key, o.base).maxRefills == limit && ClocksForward(o)
    requires AtMostRefills(book.sched, key, limit)
    ensures AtMostRefills(Cycle(book, o).0.sched, key, limit)
  {
    hide Cycle, Opening, Refilled, Effective, HasStarted, KeyOf;
    NothingActive(book, o);
    if book.active != [] {
      CycleIs(book, o);
      OpeningKeeps(book, o);
      OpeningRuns(book, o, key, limit);
      var (next, due, _) := Opening(book, o);
      var refill := Refilled(book, o);
      SameSettings(next.sched, book.sched, key, o.base);
      forall e | e in refill ensures e in due {
        RefilledRanShort(book, o, e);
      }
      if Out(refill, key) {
        RefillsLeaveOthers(next, refill, o, key);
      } else {
        RefillsStayBelow(next, refill, o, key, limit);
      }
    }
  }

  lemma {:induction false} ArmAllStaysBelow(sched: Store, o: StartOrder, queue: seq<Entry>, key: Key, limit: int)
    requires limit >= 0 && AtMostRefills(sched, key, limit)
    ensures AtMostRefills(ArmAll(sched, o, queue), key, limit)
  {
    if queue != [] {
      hide Effective, Normalise;
      ArmAllStaysBelow(sched, o, queue[..|queue| - 1], key, limit);
    }
  }

  /** When a cycle runs, the country's refill limit is this one and the clock goes forward;
      and nothing but a cycle counts refills. */
  ghost predicate SteadyAct(book: Book, act: Act, key: Key, limit: int) {
    && (act.DoCycle? ==>
          Effective(book.sched, key, act.cycle.base).maxRefills == limit && ClocksForward(act.cycle))
    && (act.Tune? ==> !(act.op.Refill? && act.op.key == key))
  }

  ghost predicate Steady(book: Book, acts: seq<Act>, key: Key, limit: int)
    decreases |acts|
  {
    acts == [] || (SteadyAct(book, acts[0], key, limit) && Steady(Do(book, acts[0]).0, acts[1..], key, limit))
  }

  lemma StartStaysBelow(book: Book, o: StartOrder, key: Key, limit: int)
    requires limit >= 0 && AtMostRefills(book.sched, key, limit)
    ensures AtMostRefills(Start(book, o).book.sched, key, limit)
  {
    hide AtMostRefills, ArmAll, Planned;
    ArmAllStaysBelow(book.sched, o, book.queue, key, limit);
  }

  /** With a fixed positive limit, the refill counter never exceeds it, in any history of
      starts, resumes, cycles with any answers and errors, uploads, removals and settings. */
  lemma {:induction false} RefillCounterIsBounded(book: Book, acts: seq<Act>, key: Key, limit: int)
    requires limit > 0 && AtMostRefills(book.sched, key, limit) && Steady(book, acts, key, limit)
    ensures AtMostRefills(Run(book, acts).0.sched, key, limit)
    decreases |acts|
  {
    if acts != [] {
      hide Cycle, Start, Effective, HasStarted, DuePass, Normalise;
      var act := acts[0];
      match act {
        case DoStart(o) => StartStaysBelow(book, o, key, limit);
        case DoResume(o) => StartStaysBelow(book.(queue := book.active), o, key, limit);
        case DoCycle(o) => CycleStaysBelow(book, o, key, limit);
        case Remove(id) => RemovedIs(book, id);
        case _ =>
      }
      RefillCounterIsBounded(Do(book, act).0, acts[1..], key, limit);
    }
  }
}
