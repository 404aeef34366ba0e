/** The upload queue, the active set and the refill cycle of the number-adding bot.

    `Book` is everything that is stored. The target bot's replies, good or bad, and the
    clock readings are inputs. A "deed" is one thing a cycle did to one country. */
module OtpBot {
  import opened Options
  import opened Text
  import opened Clock
  import opened Schedule
  import CountryNames

  /** One uploaded file. `country` is the file's name when no country is known. `waiting`
      is the start time it was told to wait for, blank if none; `held` says that it was
      kept back because the bot still had stock. */
  datatype Entry = Entry(id: nat, country: string, tag: string, waiting: string, held: bool)

  function KeyOf(e: Entry): Key { Normalise(e.country) }

  datatype Book = Book(queue: seq<Entry>, active: seq<Entry>, enabled: bool, sched: Store)

  function Labels(es: seq<Entry>): seq<string> {
    seq(|es|, i requires 0 <= i < |es| => es[i].country)
  }

  function Where(es: seq<Entry>, keep: Entry -> bool): seq<Entry> {
    if es == [] then []
    else
      var n := |es| - 1;
      Where(es[..n], keep) + if keep(es[n]) then [es[n]] else []
  }

  function NotIn(labels: seq<string>): Entry -> bool { (e: Entry) => e.country !in labels }

  function In(labels: seq<string>): Entry -> bool { (e: Entry) => e.country in labels }

  function OtherThan(id: nat): Entry -> bool { (e: Entry) => e.id != id }

  function Waits(): Entry -> bool { (e: Entry) => e.waiting != "" }

  // ------------------------------------------------------------------ //
  // Starting
  // ------------------------------------------------------------------ //

  /** The stock report is empty when it is not asked for or could not be read. `adds(k)`
      says whether the k-th add sent is accepted. */
  datatype StartOrder = StartOrder(
    base: Config, respect: bool, stock: seq<CountryNames.Line>, cleanup: bool, adds: nat -> bool,
    armAt: nat -> int, beginAt: nat -> int)

  datatype Plan = Add | Hold | Wait(startAt: string)

  function PlanOf(sched: Store, o: StartOrder, e: Entry): Plan {
    var cfg := Effective(sched, KeyOf(e), o.base);
    var startAt := Strip(cfg.startAt);
    if o.respect && !IsNow(startAt) then Wait(startAt)
    else
      var have := if o.stock == [] then None else CountryNames.Find(o.stock, e.country);
      if have.Some? && have.value > cfg.threshold then Hold else Add
  }

  function Marked(e: Entry, plan: Plan): Entry {
    match plan
    case Wait(startAt) => e.(waiting := startAt)
    case Hold => e.(waiting := "", held := true)
    case Add => e.(waiting := "", held := false)
  }

  function Planned(sched: Store, o: StartOrder, queue: seq<Entry>): seq<Entry> {
    seq(|queue|, i requires 0 <= i < |queue| => Marked(queue[i], PlanOf(sched, o, queue[i])))
  }

  function NeedsAdd(): Entry -> bool { (e: Entry) => e.waiting == "" && !e.held }

  /** Timer and run state of one started country. */
  function ArmOne(sched: Store, o: StartOrder, e: Entry, i: nat): Store {
    var cfg := Effective(sched, KeyOf(e), o.base);
    BeginRun(Arm(sched, KeyOf(e), cfg.interval, o.armAt(i)), KeyOf(e), Missing,
             if o.respect then cfg.startAt else "", o.beginAt(i))
  }

  function ArmAll(sched: Store, o: StartOrder, queue: seq<Entry>): Store {
    if queue == [] then sched
    else
      var n := |queue| - 1;
      ArmOne(ArmAll(sched, o, queue[..n]), o, queue[n], n)
  }

  /** How many adds are accepted before the first refusal. */
  function Accepted(adds: nat -> bool, n: nat): (k: nat)
    ensures k <= n && (forall i: nat :: i < k ==> adds(i)) && (k < n ==> !adds(k))
  {
    if n == 0 then 0
    else
      var k := Accepted(adds, n - 1);
      if k == n - 1 && adds(k) then n else k
  }

  /** What is stored afterwards, the files sent to the bot, and whether it all worked. */
  datatype Started = Started(book: Book, sent: seq<Entry>, ok: bool)

  function Start(book: Book, o: StartOrder): Started {
    if book.queue == [] || exists e <- book.queue :: e.tag == "" then Started(book, [], false)
    else
      var marked := Planned(book.sched, o, book.queue);
      var toAdd := Where(marked, NeedsAdd());
      if toAdd != [] && !o.cleanup then Started(book, [], false)
      else
        var k := Accepted(o.adds, |toAdd|);
        if k < |toAdd| then Started(book, toAdd[..k + 1], false)
        else
          Started(Book([], Where(book.active, NotIn(Labels(book.queue))) + marked, true,
                       ArmAll(book.sched, o, book.queue)), toAdd, true)
  }

  /** Starting again with the files that were already active: they become the queue. */
  function Resume(book: Book, o: StartOrder): Started {
    if book.active == [] then Started(book, [], false)
    else Start(book.(queue := book.active), o)
  }

  // ------------------------------------------------------------------ //
  // One cycle
  // ------------------------------------------------------------------ //

  /** The bot's answer to the stock question, if it came. */
  datatype Report = NoAnswer | Answer(stock: seq<CountryNames.Line>, quota: Option<int>)

  datatype CycleOrder = CycleOrder(
    base: Config, force: bool, now: int,
    firstAdds: nat -> bool, firstAt: nat -> int,
    report: Report, cleanup: bool, adds: nat -> bool, checkAt: nat -> int, recordAt: nat -> int)

  datatype Deed =
    // a file that a start sent
    | StartAdd(entry: Entry)
    | FirstAdd(entry: Entry, ok: bool)
    // both: the schedule as it was asked whether the run is finished, and when
    | Readd(entry: Entry, before: Store, at: int, ok: bool)
    | Retired(entry: Entry, before: Store, at: int, why: Finish)

  function StartedOnes(sched: Store, labels: seq<string>, base: Config, now: int): seq<string> {
    if labels == [] then []
    else
      var n := |labels| - 1;
      StartedOnes(sched, labels[..n], base, now)
        + if HasStarted(sched, Normalise(labels[n]), base, now) then [labels[n]] else []
  }

  function ArmEach(sched: Store, labels: seq<string>, base: Config, now: int): Store {
    if labels == [] then sched
    else
      var n := |labels| - 1;
      var front, key := ArmEach(sched, labels[..n], base, now), Normalise(labels[n]);
      Arm(front, key, Effective(front, key, base).interval, now)
  }

  /** Whose turn it is: by their timers, or, when a person asks, everyone who has started. */
  function ReadyCheck(sched: Store, labels: seq<string>, base: Config, force: bool, now: int)
      : (Store, seq<string>)
  {
    if force then
      var ready := StartedOnes(sched, labels, base, now);
      (ArmEach(sched, ready, base, now), ready)
    else
      var (due, ready) := DuePass(sched, sched.due, labels, base, now);
      (sched.(due := due), ready)
  }

  /** The marker comes off a file whose first add went through. */
  function Unmarked(active: seq<Entry>, id: nat): seq<Entry> {
    seq(|active|, i requires 0 <= i < |active| =>
      if active[i].id == id then active[i].(waiting := "") else active[i])
  }

  function FirstAddOne(book: Book, e: Entry, o: CycleOrder, k: nat): Book {
    if o.firstAdds(k) then
      book.(active := Unmarked(book.active, e.id),
            sched := BeginRun(book.sched, KeyOf(e), Missing, "", o.firstAt(k)))
    else book
  }

  /** The first adds of countries whose start time has come. None of them can fail the cycle. */
  function FirstAdds(book: Book, begun: seq<Entry>, o: CycleOrder): (Book, seq<Deed>) {
    if begun == [] then (book, [])
    else
      var k := |begun| - 1;
      var (front, deeds) := FirstAdds(book, begun[..k], o);
      (FirstAddOne(front, begun[k], o, k), deeds + [FirstAdd(begun[k], o.firstAdds(k))])
  }

  /** At or below its threshold; a country that is not listed has none. */
  function RunsShort(sched: Store, base: Config, stock: seq<CountryNames.Line>): Entry -> bool {
    (e: Entry) =>
      var have := CountryNames.Find(stock, e.country);
      Or(have, 0) <= Effective(sched, KeyOf(e), base).threshold
  }

  /** Which of the due files to add again. Without a listing, one number decides for all. */
  function ToRefill(sched: Store, due: seq<Entry>, o: CycleOrder): seq<Entry> {
    match o.report
    case NoAnswer => []
    case Answer(stock, quota) =>
      if stock != [] then Where(due, RunsShort(sched, o.base, stock))
      else if quota.None? || quota.value > o.base.threshold then []
      else due
  }

  function Removed(book: Book, id: nat): Book {
    if forall e <- book.active :: e.id != id then book
    else
      var rest := Where(book.active, OtherThan(id));
      book.(active := rest, enabled := book.enabled && rest != [])
  }

  /** A finished country leaves the active set and its run state is cleared. */
  function Retire(book: Book, e: Entry): Book {
    var left := Removed(book, e.id);
    left.(sched := ClearRun(left.sched, KeyOf(e)))
  }

  /** The refills so far, and whether an error has ended the cycle. */
  datatype Pass = Pass(book: Book, deeds: seq<Deed>, stopped: bool)

  function RefillOne(so: Pass, e: Entry, o: CycleOrder, k: nat): Pass {
    var sched := so.book.sched;
    var why := FinishedReason(sched, KeyOf(e), o.base, o.checkAt(k));
    if why == Raises then so.(stopped := true)
    else if why != Going then Pass(Retire(so.book, e), so.deeds + [Retired(e, sched, o.checkAt(k), why)], false)
    else
      var deed := Readd(e, sched, o.checkAt(k), o.adds(k));
      if !o.adds(k) then Pass(so.book, so.deeds + [deed], true)
      else
        Pass(so.book.(sched := RecordRefill(sched, KeyOf(e), o.recordAt(k))), so.deeds + [deed], false)
  }

  function RefillAll(book: Book, refill: seq<Entry>, o: CycleOrder): Pass {
    if refill == [] then Pass(book, [], false)
    else
      var k := |refill| - 1;
      var so := RefillAll(book, refill[..k], o);
      if so.stopped then so else RefillOne(so, refill[k], o, k)
  }

  function Cycle(book: Book, o: CycleOrder): (Book, seq<Deed>) {
    if book.active == [] then (book, [])
    else
      var (sched, ready) := ReadyCheck(book.sched, Labels(book.active), o.base, o.force, o.now);
      var checked := book.(sched := sched);
      if ready == [] then (checked, [])
      else
        var due := Where(book.active, In(ready));
        var (next, deeds) := FirstAdds(checked, Where(due, Waits()), o);
        var refill := ToRefill(next.sched, due, o);
        if refill == [] || !o.cleanup then (next, deeds)
        else
          var pass := RefillAll(next, refill, o);
          (pass.book, deeds + pass.deeds)
  }

  // ------------------------------------------------------------------ //
  // The bot itself
  // ------------------------------------------------------------------ //

  lemma AcceptedIs(adds: nat -> bool, n: nat, k: nat)
    requires k <= n && (forall j: nat :: j < k ==> adds(j)) && (k < n ==> !adds(k))
    ensures Accepted(adds, n) == k
  {
  }

  lemma PlanSays(sched: Store, o: StartOrder, e: Entry)
    ensures
      var cfg := Effective(sched, KeyOf(e), o.base);
      var startAt := Strip(cfg.startAt);
      var have := if o.stock == [] then None else CountryNames.Find(o.stock, e.country);
      var now := Marked(e, PlanOf(sched, o, e));
      if o.respect && !IsNow(startAt) then now == e.(waiting := startAt) && !NeedsAdd()(now)
      else if have.Some? && have.value > cfg.threshold then
        now == e.(waiting := "", held := true) && !NeedsAdd()(now)
      else now == e.(waiting := "", held := false) && NeedsAdd()(now)
  {
    hide Effective, CountryNames.Find;
    assert Strip("") == "";
  }

  lemma WhereSnoc(es: seq<Entry>, e: Entry, keep: Entry -> bool)
    ensures Where(es + [e], keep) == Where(es, keep) + if keep(e) then [e] else []
  {
    assert (es + [e])[..|es|] == es;
  }

  lemma WhereNothing(keep: Entry -> bool)
    ensures Where([], keep) == []
  {
  }

  lemma RefillNext(book: Book, refill: seq<Entry>, o: CycleOrder, k: nat)
    requires k < |refill|
    ensures var so := RefillAll(book, refill[..k], o);
            RefillAll(book, refill[..k + 1], o) == if so.stopped then so else RefillOne(so, refill[k], o, k)
  {
    hide RefillOne;
    assert refill[..k + 1][..k] == refill[..k];
  }

  lemma {:induction false} StoppedForGood(book: Book, refill: seq<Entry>, o: CycleOrder, k: nat)
    requires k <= |refill| && RefillAll(book, refill[..k], o).stopped
    ensures RefillAll(book, refill, o) == RefillAll(book, refill[..k], o)
    decreases |refill|
  {
    hide RefillOne;
    var n := |refill| - 1;
    if k <= n {
      assert refill[..n][..k] == refill[..k];
      StoppedForGood(book, refill[..n], o, k);
    } else {
      assert refill[..k] == refill;
    }
  }

  lemma FirstAddsNext(book: Book, begun: seq<Entry>, o: CycleOrder, k: nat)
    requires k < |begun|
    ensures var (front, deeds) := FirstAdds(book, begun[..k], o);
            FirstAdds(book, begun[..k + 1], o)
            == (FirstAddOne(front, begun[k], o, k), deeds + [FirstAdd(begun[k], o.firstAdds(k))])
  {
    hide FirstAddOne;
    assert begun[..k + 1][..k] == begun[..k];
  }

  lemma ArmNext(sched: Store, o: StartOrder, queue: seq<Entry>, i: nat)
    requires i < |queue|
    ensures ArmAll(sched, o, queue[..i + 1]) == ArmOne(ArmAll(sched, o, queue[..i]), o, queue[i], i)
  {
    hide ArmOne;
    assert queue[..i + 1][..i] == queue[..i];
  }

  lemma NothingArmed(sched: Store, o: StartOrder)
    ensures ArmAll(sched, o, []) == sched
  {
  }

  class NumberBot {
    var queue: seq<Entry>
    var active: seq<Entry>
    var enabled: bool
    const schedule: Scheduler

    constructor ()
      ensures View() == Book([], [], false, Store(map[], map[], map[]))
      ensures fresh(schedule)
    {
      queue, active, enabled := [], [], false;
      schedule := new Scheduler();
    }

    function View(): Book
      reads this, schedule
    {
      Book(queue, active, enabled, schedule.View())
    }

    method RemoveActiveFile(id: nat) returns (removed: bool)
      modifies this
      ensures View() == Removed(old(View()), id)
      ensures removed <==> exists e <- old(active) :: e.id == id
    {
      if forall e <- active :: e.id != id {
        return false;
      }
      active := Where(active, OtherThan(id));
      if active == [] {
        enabled := false;
      }
      return true;
    }

    method FinishCountry(e: Entry)
      modifies this, schedule
      ensures View() == Retire(old(View()), e)
    {
      var _ := RemoveActiveFile(e.id);
      schedule.ClearRunState(e.country);
    }

    /** One queued file: its markers, and whether it is to be sent. */
    method Classify(o: StartOrder, e: Entry) returns (entry: Entry, send: bool)
      ensures entry == Marked(e, PlanOf(schedule.View(), o, e)) && send == NeedsAdd()(entry)
    {
      hide Effective, CountryNames.Find, Strip, IsNow, PlanOf, Marked, NeedsAdd;
      PlanSays(schedule.View(), o, e);
      var cfg := Effective(schedule.View(), KeyOf(e), o.base);
      var startAt := if o.respect then Strip(cfg.startAt) else "";
      if o.respect && !IsNow(startAt) {
        return e.(waiting := startAt), false;
      }
      entry := e.(waiting := "");
      var have := if o.stock == [] then None else CountryNames.Find(o.stock, e.country);
      if have.Some? && have.value > cfg.threshold {
        return entry.(held := true), false;
      }
      return entry.(held := false), true;
    }

    /** Which files wait, which are held back, and which are to be sent, in queue order. */
    method ClassifyQueue(o: StartOrder) returns (marked: seq<Entry>, needsAdd: seq<Entry>)
      ensures marked == Planned(schedule.View(), o, queue)
      ensures needsAdd == Where(marked, NeedsAdd())
    {
      hide PlanOf, Marked, NeedsAdd, Where;
      marked, needsAdd := [], [];
      assert Where([], NeedsAdd()) == [] by { WhereNothing(NeedsAdd()); }
      for i := 0 to |queue|
        invariant |marked| == i
        invariant forall j :: 0 <= j < i ==>
                    marked[j] == Marked(queue[j], PlanOf(schedule.View(), o, queue[j]))
        invariant needsAdd == Where(marked, NeedsAdd())
      {
        var entry, send := Classify(o, queue[i]);
        if send {
          needsAdd := needsAdd + [entry];
        }
        WhereSnoc(marked, entry, NeedsAdd());
        marked := marked + [entry];
      }
    }

    method ArmQueued(o: StartOrder)
      modifies schedule
      ensures schedule.View() == ArmAll(old(schedule.View()), o, queue)
    {
      hide Effective, Normalise, ArmAll, Strip;
      ghost var before := schedule.View();
      assert queue[..0] == [];
      NothingArmed(before, o);
      for i := 0 to |queue|
        invariant schedule.View() == ArmAll(before, o, queue[..i])
      {
        ArmNext(before, o, queue, i);
        var country := queue[i].country;
        var cfg := Effective(schedule.View(), Normalise(country), o.base);
        schedule.ArmCountry(country, cfg.interval, o.armAt(i));
        schedule.BeginCountryRun(country, Missing, if o.respect then cfg.startAt else "", o.beginAt(i));
      }
      assert queue[..|queue|] == queue;
    }

    method StartAutomation(o: StartOrder) returns (ok: bool, sent: seq<Entry>)
      modifies this, schedule
      ensures var s := Start(old(View()), o); View() == s.book && sent == s.sent && ok == s.ok
    {
      hide Planned, ArmAll;
      if queue == [] || exists e <- queue :: e.tag == "" {
        return false, [];
      }
      var marked, needsAdd := ClassifyQueue(o);
      if needsAdd != [] && !o.cleanup {
        return false, [];
      }
      sent := [];
      for k := 0 to |needsAdd|
        invariant sent == needsAdd[..k]
        invariant forall j: nat :: j < k ==> o.adds(j)
      {
        sent := sent + [needsAdd[k]];
        if !o.adds(k) {
          AcceptedIs(o.adds, |needsAdd|, k);
          return false, sent;
        }
      }
      AcceptedIs(o.adds, |needsAdd|, |needsAdd|);
      ArmQueued(o);
      enabled := true;
      active := Where(active, NotIn(Labels(queue))) + marked;
      queue := [];
      return true, sent;
    }

    method HandleResumeTrigger(o: StartOrder) returns (ok: bool)
      modifies this, schedule
      ensures var s := Resume(old(View()), o); View() == s.book && ok == s.ok
    {
      hide Start;
      if active == [] {
        return false;
      }
      queue := active;
      var sent;
      ok, sent := StartAutomation(o);
    }

    method AddAfterWait(begun: seq<Entry>, o: CycleOrder) returns (deeds: seq<Deed>)
      modifies this, schedule
      ensures (View(), deeds) == FirstAdds(old(View()), begun, o)
    {
      ghost var before := View();
      var stored, changed := active, false;
      deeds := [];
      assert begun[..0] == [];
      for k := 0 to |begun|
        invariant (Book(queue, stored, enabled, schedule.View()), deeds) == FirstAdds(before, begun[..k], o)
        invariant queue == before.queue && active == before.active && enabled == before.enabled
        invariant !changed ==> stored == active
      {
        FirstAddsNext(before, begun, o, k);
        if o.firstAdds(k) {
          schedule.BeginCountryRun(begun[k].country, Missing, "", o.firstAt(k));
          stored := Unmarked(stored, begun[k].id);
          changed := true;
        }
        deeds := deeds + [FirstAdd(begun[k], o.firstAdds(k))];
      }
      assert begun[..|begun|] == begun;
      if changed {
        active := stored;
      }
    }

    method ReadyCountries(o: CycleOrder) returns (ready: seq<string>)
      modifies schedule
      ensures (schedule.View(), ready)
              == ReadyCheck(old(schedule.View()), Labels(active), o.base, o.force, o.now)
    {
      hide HasStarted, Effective, Normalise;
      ghost var before := schedule.View();
      if !o.force {
        ready := schedule.DueCountries(Labels(active), o.base, o.now);
        return;
      }
      ready := StartedOnes(schedule.View(), Labels(active), o.base, o.now);
      assert ready[..0] == [];
      for i := 0 to |ready|
        invariant schedule.View() == ArmEach(before, ready[..i], o.base, o.now)
      {
        assert ready[..i + 1][..i] == ready[..i];
        var cfg := Effective(schedule.View(), Normalise(ready[i]), o.base);
        schedule.ArmCountry(ready[i], cfg.interval, o.now);
      }
      assert ready[..|ready|] == ready;
    }

    method RefillEach(refill: seq<Entry>, o: CycleOrder) returns (deeds: seq<Deed>)
      modifies this, schedule
      ensures var pass := RefillAll(old(View()), refill, o); View() == pass.book && deeds == pass.deeds
    {
      hide FinishedReason, Removed, Retire, Normalise, Effective, DuePass;
      ghost var before := View();
      deeds := [];
      assert refill[..0] == [];
      for k := 0 to |refill|
        invariant Pass(View(), deeds, false) == RefillAll(before, refill[..k], o)
      {
        RefillNext(before, refill, o, k);
        var entry := refill[k];
        ghost var so := Pass(View(), deeds, false);
        var why := FinishedReason(schedule.View(), KeyOf(entry), o.base, o.checkAt(k));
        if why == Raises {
          StoppedForGood(before, refill, o, k + 1);
          return;
        }
        if why != Going {
          deeds := deeds + [Retired(entry, schedule.View(), o.checkAt(k), why)];
          FinishCountry(entry);
        } else {
          deeds := deeds + [Readd(entry, schedule.View(), o.checkAt(k), o.adds(k))];
          if !o.adds(k) {
            StoppedForGood(before, refill, o, k + 1);
            return;
          }
          var _ := schedule.RecordCountryRefill(entry.country, o.recordAt(k));
        }
      }
      assert refill[..|refill|] == refill;
    }

    method RunCycle(o: CycleOrder) returns (deeds: seq<Deed>)
      modifies this, schedule
      ensures (View(), deeds) == Cycle(old(View()), o)
    {
      hide ReadyCheck, FirstAdds, RefillAll, ToRefill;
      if active == [] {
        return [];
      }
      var ready := ReadyCountries(o);
      if ready == [] {
        return [];
      }
      var due := Where(active, In(ready));
      var begun := Where(due, Waits());
      deeds := AddAfterWait(begun, o);
      var refill := ToRefill(schedule.View(), due, o);
      if refill == [] || !o.cleanup {
        return deeds;
      }
      var more := RefillEach(refill, o);
      deeds := deeds + more;
    }
  }
}
