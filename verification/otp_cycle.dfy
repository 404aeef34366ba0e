/** What one refill cycle does, whatever the bot answers. */
module OtpCycle {
  import opened Options
  import opened Text
  import opened Clock
  import opened Schedule
  import opened OtpBot
  import CountryNames
  import opened OtpStart

  // ------------------------------------------------------------------ //
  // Whose turn it is
  // ------------------------------------------------------------------ //

  lemma {:induction false} StartedOnesAre(sched: Store, labels: seq<string>, base: Config, now: int, key: Key)
    ensures var ones := StartedOnes(sched, labels, base, now);
            && (Listed(ones, key) <==> Listed(labels, key) && HasStarted(sched, key, base, now))
            && forall c <- ones :: c in labels
  {
    if labels != [] {
      hide HasStarted;
      var n := |labels| - 1;
      StartedOnesAre(sched, labels[..n], base, now, key);
      ListedSnoc(labels[..n], labels[n], key);
      assert labels == labels[..n] + [labels[n]];
      ListedSnoc(StartedOnes(sched, labels[..n], base, now), labels[n], key);
    }
  }

  lemma ListedSnoc(labels: seq<string>, c: string, key: Key)
    ensures Listed(labels + [c], key) <==> Listed(labels, key) || Normalise(c) == key
  {
    hide Normalise;
    assert (labels + [c])[|labels|] == c;
    assert forall d <- labels :: d in labels + [c];
  }

  lemma {:induction false} ArmEachIs(sched: Store, labels: seq<string>, base: Config, now: int, key: Key)
    ensures var s := ArmEach(sched, labels, base, now);
            && s.settings == sched.settings && s.runs == sched.runs
            && (Listed(labels, key) ==>
                  key in s.due && s.due[key] == After(now, Effective(sched, key, base).interval))
            && (!Listed(labels, key) ==>
                  (key in s.due <==> key in sched.due) && (key in s.due ==> s.due[key] == sched.due[key]))
  {
    if labels != [] {
      var n := |labels| - 1;
      ArmEachIs(sched, labels[..n], base, now, key);
      ListedSnoc(labels[..n], labels[n], key);
      assert labels == labels[..n] + [labels[n]];
      assert Effective(ArmEach(sched, labels[..n], base, now), Normalise(labels[n]), base)
             == Effective(sched, Normalise(labels[n]), base);
    }
  }

  /** A listed country that has started is ready when its timer has run out and it is not
      paused, or when a person asks; a person's check looks at neither pause nor timer.
      Ready countries are re-armed on their own interval. */
  lemma ReadyIsExact(sched: Store, labels: seq<string>, base: Config, force: bool, now: int, key: Key)
    ensures
      var (s, ready) := ReadyCheck(sched, labels, base, force, now);
      && s.settings == sched.settings && s.runs == sched.runs
      && (forall c <- ready :: c in labels)
      && (Listed(ready, key) <==>
            && Listed(labels, key) && HasStarted(sched, key, base, now)
            && (force || (!Effective(sched, key, base).paused && Expired(sched.due, key, now))))
      && (Listed(ready, key) ==>
            key in s.due && s.due[key] == After(now, Effective(sched, key, base).interval))
      && (force && !Listed(ready, key) ==>
            (key in s.due <==> key in sched.due) && (key in s.due ==> s.due[key] == sched.due[key]))
  {
    hide HasStarted, Effective, Listed;
    if force {
      StartedOnesAre(sched, labels, base, now, key);
      ArmEachIs(sched, StartedOnes(sched, labels, base, now), base, now, key);
    } else {
      DuePassIsExact(sched, sched.due, labels, base, now, key);
    }
  }

  // ------------------------------------------------------------------ //
  // What a cycle leaves alone
  // ------------------------------------------------------------------ //

  /** The same files in the same places, some of them no longer marked as waiting. */
  predicate SameSpots(es: seq<Entry>, fs: seq<Entry>) {
    |es| == |fs| && forall i :: 0 <= i < |es| ==> es[i] == fs[i] || es[i] == fs[i].(waiting := "")
  }

  predicate SamePlan(s: Store, t: Store) { s.settings == t.settings && s.due == t.due }

  lemma {:induction false} FirstAddsKeep(book: Book, begun: seq<Entry>, o: CycleOrder)
    ensures var (b, deeds) := FirstAdds(book, begun, o);
            && SameSpots(b.active, book.active) && b.queue == book.queue && b.enabled == book.enabled
            && SamePlan(b.sched, book.sched)
            && |deeds| == |begun|
            && forall i :: 0 <= i < |deeds| ==> deeds[i] == FirstAdd(begun[i], o.firstAdds(i))
  {
    if begun != [] {
      FirstAddsKeep(book, begun[..|begun| - 1], o);
    }
  }

  lemma RemovedIs(book: Book, id: nat)
    ensures var b := Removed(book, id);
            && b.queue == book.queue && b.sched == book.sched
            && (forall e :: e in b.active <==> e in book.active && e.id != id)
            && (book.active != [] ==> (b.enabled && b.active != [] <==> book.enabled && b.active != []))
            && (b.active == [] && book.active != [] ==> !b.enabled)
  {
    if exists e <- book.active :: e.id == id {
      forall e ensures e in Where(book.active, OtherThan(id)) <==> e in book.active && e.id != id {
        WhereHas(book.active, OtherThan(id), e);
      }
    }
  }

  /** What the refills of a cycle do. */
  predicate Refilling(d: Deed) { d.Readd? || d.Retired? }

  /** A file was sent because the schedule said to go on, and retired because it said, for
      this very reason, that the run is over. */
  predicate AsScheduled(d: Deed, o: CycleOrder) {
    && (d.Readd? ==> FinishedReason(d.before, KeyOf(d.entry), o.base, d.at) == Going)
    && (d.Retired? ==> FinishedReason(d.before, KeyOf(d.entry), o.base, d.at) == d.why
                       && d.why != Going && d.why != Raises)
  }

  /** The k-th refill's deed: this file, sent or retired, on the plan that holds throughout. */
  predicate DeedFor(d: Deed, e: Entry, o: CycleOrder, k: nat, sched: Store) {
    && d.entry == e && Refilling(d) && AsScheduled(d, o)
    && SamePlan(d.before, sched) && d.at == o.checkAt(k) && (d.Readd? ==> d.ok == o.adds(k))
  }

  lemma DeedOnTheSamePlan(d: Deed, e: Entry, o: CycleOrder, k: nat, s: Store, t: Store)
    requires DeedFor(d, e, o, k, s) && SamePlan(s, t)
    ensures DeedFor(d, e, o, k, t)
  {
  }

  /** One refill: at most one deed, for this file; the plan stands; only a retired file's
      id leaves the active set. */
  lemma RefillOneKeeps(so: Pass, e: Entry, o: CycleOrder, k: nat)
    ensures
      var n := RefillOne(so, e, o, k);
      && n.book.queue == so.book.queue && SamePlan(n.book.sched, so.book.sched)
      && ((n.deeds == so.deeds && n.stopped)
          || (|n.deeds| == |so.deeds| + 1 && n.deeds[..|so.deeds|] == so.deeds
              && DeedFor(n.deeds[|so.deeds|], e, o, k, so.book.sched)))
      && (forall a :: a in n.book.active <==>
            a in so.book.active
            && !(|n.deeds| > |so.deeds| && n.deeds[|so.deeds|].Retired? && a.id == e.id))
      && (n.book.active != [] ==> n.book.enabled == so.book.enabled)
      && (n.book.enabled ==> so.book.enabled)
      && (n.book.active == [] && so.book.active != [] ==> !n.book.enabled)
  {
    hide FinishedReason;
    RemovedIs(so.book, e.id);
  }

  /** The deeds are the files to refill, one each, in order, up to some point. */
  predicate FollowList(deeds: seq<Deed>, refill: seq<Entry>, o: CycleOrder, sched: Store) {
    |deeds| <= |refill| && forall i :: 0 <= i < |deeds| ==> DeedFor(deeds[i], refill[i], o, i, sched)
  }

  lemma FollowFurther(deeds: seq<Deed>, refill: seq<Entry>, o: CycleOrder, sched: Store)
    requires refill != [] && FollowList(deeds, refill[..|refill| - 1], o, sched)
    ensures FollowList(deeds, refill, o, sched)
    ensures forall d :: |deeds| == |refill| - 1 && DeedFor(d, refill[|refill| - 1], o, |refill| - 1, sched) ==>
              FollowList(deeds + [d], refill, o, sched)
  {
    hide DeedFor;
  }

  /** The refills follow the list, to its end unless an error stopped them. */
  lemma {:induction false} RefillsFollowTheList(book: Book, refill: seq<Entry>, o: CycleOrder)
    ensures
      var pass := RefillAll(book, refill, o);
      && pass.book.queue == book.queue && SamePlan(pass.book.sched, book.sched)
      && FollowList(pass.deeds, refill, o, book.sched)
      && (!pass.stopped ==> |pass.deeds| == |refill|)
  {
    if refill != [] {
      hide DeedFor, RefillOne, FollowList;
      var k := |refill| - 1;
      RefillsFollowTheList(book, refill[..k], o);
      var so := RefillAll(book, refill[..k], o);
      FollowFurther(so.deeds, refill, o, book.sched);
      if !so.stopped {
        RefillOneKeeps(so, refill[k], o, k);
        var n := RefillOne(so, refill[k], o, k);
        if n.deeds != so.deeds {
          assert n.deeds == so.deeds + [n.deeds[k]];
          DeedOnTheSamePlan(n.deeds[k], refill[k], o, k, so.book.sched, book.sched);
        }
      }
    }
  }

  predicate RetiredId(deeds: seq<Deed>, id: nat) {
    exists d <- deeds :: d.Retired? && d.entry.id == id
  }

  lemma RetiredIdSnoc(deeds: seq<Deed>, d: Deed, id: nat)
    ensures RetiredId(deeds + [d], id) <==> RetiredId(deeds, id) || (d.Retired? && d.entry.id == id)
  {
    assert (deeds + [d])[|deeds|] == d;
    assert forall e <- deeds :: e in deeds + [d];
  }

  /** The refills take out of the active set exactly the files they retire, and monitoring
      goes off when that leaves none. */
  lemma {:induction false} OnlyRetiredLeave(book: Book, refill: seq<Entry>, o: CycleOrder, a: Entry)
    ensures
      var pass := RefillAll(book, refill, o);
      && (a in pass.book.active <==> a in book.active && !RetiredId(pass.deeds, a.id))
      && (pass.book.active != [] ==> pass.book.enabled == book.enabled)
      && (pass.book.active == [] && book.active != [] ==> !pass.book.enabled)
  {
    if refill != [] {
      hide AsScheduled, RefillOne, RetiredId;
      var k := |refill| - 1;
      OnlyRetiredLeave(book, refill[..k], o, a);
      var so := RefillAll(book, refill[..k], o);
      if !so.stopped {
        RefillOneKeeps(so, refill[k], o, k);
        var n := RefillOne(so, refill[k], o, k);
        if n.deeds != so.deeds {
          assert n.deeds == so.deeds + [n.deeds[|so.deeds|]];
          RetiredIdSnoc(so.deeds, n.deeds[|so.deeds|], a.id);
        }
      }
    } else {
      assert RefillAll(book, refill, o).deeds == [];
    }
  }

  // ------------------------------------------------------------------ //
  // What a cycle does
  // ------------------------------------------------------------------ //

  /** The state after the check, the files whose turn it is, and the first adds. */
  function Opening(book: Book, o: CycleOrder): (Book, seq<Entry>, seq<Deed>) {
    var (sched, ready) := ReadyCheck(book.sched, Labels(book.active), o.base, o.force, o.now);
    var due := Where(book.active, In(ready));
    var (next, deeds) := FirstAdds(book.(sched := sched), Where(due, Waits()), o);
    (next, due, deeds)
  }

  /** The files that the cycle goes on to refill. */
  function Refilled(book: Book, o: CycleOrder): seq<Entry> {
    var (next, due, _) := Opening(book, o);
    if o.cleanup then ToRefill(next.sched, due, o) else []
  }

  lemma NobodyReady(book: Book, o: CycleOrder)
    requires ReadyCheck(book.sched, Labels(book.active), o.base, o.force, o.now).1 == []
    ensures var (sched, _) := ReadyCheck(book.sched, Labels(book.active), o.base, o.force, o.now);
            Opening(book, o) == (book.(sched := sched), [], []) && Refilled(book, o) == []
  {
    var due := Where(book.active, In([]));
    if due != [] {
      WhereHas(book.active, In([]), due[0]);
    }
  }

  /** A cycle is its opening followed by its refills, with nothing ready or nothing short
      as the cases of empty lists. */
  lemma CycleIs(book: Book, o: CycleOrder)
    requires book.active != []
    ensures
      var (next, _, deeds) := Opening(book, o);
      var pass := RefillAll(next, Refilled(book, o), o);
      Cycle(book, o) == (pass.book, deeds + pass.deeds)
  {
    hide ReadyCheck, FirstAdds, ToRefill;
    if ReadyCheck(book.sched, Labels(book.active), o.base, o.force, o.now).1 == [] {
      NobodyReady(book, o);
    }
    var (next, _, deeds) := Opening(book, o);
    assert RefillAll(next, [], o) == Pass(next, [], false);
    assert deeds + [] == deeds;
  }

  /** The country's turn had come: it had started, and either its timer had run out and it
      was not paused, or a person asked. */
  predicate TurnHadCome(sched: Store, o: CycleOrder, key: Key) {
    && HasStarted(sched, key, o.base, o.now)
    && (o.force || (!Effective(sched, key, o.base).paused && Expired(sched.due, key, o.now)))
  }

  /** The bot answered and the country was at or below its own threshold, an unlisted one
      counting as empty; without a listing, the one number was at or below the general one. */
  predicate RanShort(sched: Store, o: CycleOrder, e: Entry) {
    && o.report.Answer?
    && if o.report.stock != [] then
         Or(CountryNames.Find(o.report.stock, e.country), 0) <= Effective(sched, KeyOf(e), o.base).threshold
       else o.report.quota.Some? && o.report.quota.value <= o.base.threshold
  }

  lemma DueFilesHadTheirTurn(book: Book, o: CycleOrder, e: Entry)
    requires e in Opening(book, o).1
    ensures e in book.active && TurnHadCome(book.sched, o, KeyOf(e))
  {
    var labels := Labels(book.active);
    var ready := ReadyCheck(book.sched, labels, o.base, o.force, o.now).1;
    hide HasStarted, Effective, Expired, ReadyCheck, FirstAdds, Normalise;
    WhereHas(book.active, In(ready), e);
    ReadyIsExact(book.sched, labels, o.base, o.force, o.now, KeyOf(e));
  }

  lemma OpeningKeeps(book: Book, o: CycleOrder)
    ensures
      var (next, due, deeds) := Opening(book, o);
      && SameSpots(next.active, book.active) && next.queue == book.queue && next.enabled == book.enabled
      && SamePlan(next.sched, ReadyCheck(book.sched, Labels(book.active), o.base, o.force, o.now).0)
      && next.sched.settings == book.sched.settings
      && forall d <- deeds :: d.FirstAdd? && d.entry in due && d.entry.waiting != ""
  {
    var (sched, ready) := ReadyCheck(book.sched, Labels(book.active), o.base, o.force, o.now);
    ReadyIsExact(book.sched, Labels(book.active), o.base, o.force, o.now, "");
    hide ReadyCheck, FirstAdds;
    var due := Where(book.active, In(ready));
    FirstAddsKeep(book.(sched := sched), Where(due, Waits()), o);
    forall e | e in Where(due, Waits()) ensures e in due && e.waiting != "" {
      WhereHas(due, Waits(), e);
    }
  }

  /** The cycle goes on to refill exactly the due files that ran short. */
  lemma RefilledRanShort(book: Book, o: CycleOrder, e: Entry)
    ensures e in Refilled(book, o) <==>
              o.cleanup && e in Opening(book, o).1 && RanShort(book.sched, o, e)
  {
    OpeningKeeps(book, o);
    var (next, due, _) := Opening(book, o);
    SameSettings(next.sched, book.sched, KeyOf(e), o.base);
    hide Opening, CountryNames.Find, Effective;
    if o.report.Answer? && o.report.stock != [] {
      WhereHas(due, RunsShort(next.sched, o.base, o.report.stock), e);
    }
  }

  lemma SameSettings(s: Store, t: Store, key: Key, base: Config)
    requires s.settings == t.settings
    ensures Effective(s, key, base) == Effective(t, key, base)
  {
  }

  /** No call to the bot fails in a refill, and no stop time is a pair of integers that is
      no time of day: then no error can end the cycle. */
  ghost predicate NothingGoesWrong(sched: Store, o: CycleOrder) {
    && (forall k: nat :: o.adds(k))
    && forall key: Key ::
         var stop := ReadClock(Strip(Effective(sched, key, o.base).stopAt)); stop.None? || stop.value.Valid()
  }

  lemma {:induction false} RefillsReachTheEnd(book: Book, refill: seq<Entry>, o: CycleOrder)
    requires NothingGoesWrong(book.sched, o)
    ensures !RefillAll(book, refill, o).stopped
  {
    if refill != [] {
      hide RefillOne, NothingGoesWrong, DeedFor;
      var k := |refill| - 1;
      RefillsReachTheEnd(book, refill[..k], o);
      RefillsFollowTheList(book, refill[..k], o);
      RefillGoesThrough(RefillAll(book, refill[..k], o), book.sched, refill[k], o, k);
    }
  }

  lemma RefillGoesThrough(so: Pass, sched: Store, e: Entry, o: CycleOrder, k: nat)
    requires NothingGoesWrong(sched, o) && so.book.sched.settings == sched.settings
    ensures !RefillOne(so, e, o, k).stopped
  {
    SameSettings(so.book.sched, sched, KeyOf(e), o.base);
    hide Effective, HasStarted, EffectiveStart, Removed;
  }

  /** When nothing goes wrong, a cycle leaves no country out: every due file that ran short
      is added again or retired, and no other file is. */
  lemma EveryShortFileIsHandled(book: Book, o: CycleOrder, e: Entry)
    requires book.active != [] && NothingGoesWrong(book.sched, o)
    ensures (exists d <- Cycle(book, o).1 :: Refilling(d) && d.entry == e) <==>
              o.cleanup && e in Opening(book, o).1 && RanShort(book.sched, o, e)
  {
    OpeningKeeps(book, o);
    CycleIs(book, o);
    RefilledRanShort(book, o, e);
    var (next, _, early) := Opening(book, o);
    var refill := Refilled(book, o);
    SameTrouble(next.sched, book.sched, o);
    RefillsReachTheEnd(next, refill, o);
    RefillsFollowTheList(next, refill, o);
    hide Cycle, Opening, Refilled, RanShort, AsScheduled, NothingGoesWrong, RefillAll, SamePlan;
    DeedsForAll(RefillAll(next, refill, o).deeds, refill, o, next.sched, e);
    LateDeeds(early, RefillAll(next, refill, o).deeds, e);
  }

  lemma SameTrouble(s: Store, t: Store, o: CycleOrder)
    requires s.settings == t.settings && NothingGoesWrong(t, o)
    ensures NothingGoesWrong(s, o)
  {
    forall key: Key ensures Effective(s, key, o.base) == Effective(t, key, o.base) {
      SameSettings(s, t, key, o.base);
    }
  }

  lemma DeedsForAll(deeds: seq<Deed>, refill: seq<Entry>, o: CycleOrder, sched: Store, e: Entry)
    requires FollowList(deeds, refill, o, sched) && |deeds| == |refill|
    ensures (exists d <- deeds :: Refilling(d) && d.entry == e) <==> e in refill
  {
    hide AsScheduled, SamePlan;
    if e in refill {
      var i :| 0 <= i < |refill| && refill[i] == e;
      assert DeedFor(deeds[i], e, o, i, sched);
    }
  }

  lemma LateDeeds(early: seq<Deed>, late: seq<Deed>, e: Entry)
    requires forall d <- early :: d.FirstAdd?
    ensures (exists d <- early + late :: Refilling(d) && d.entry == e) <==>
              exists d <- late :: Refilling(d) && d.entry == e
  {
    assert forall d :: d in early + late <==> d in early || d in late;
  }

  /** The file no longer waits, and its country has a run that is open at once and has no
      refills. */
  predicate Begun(b: Book, e: Entry) {
    && (forall a <- b.active :: a.id == e.id ==> a.waiting == "")
    && KeyOf(e) in b.sched.runs
    && b.sched.runs[KeyOf(e)].refills == 0 && b.sched.runs[KeyOf(e)].gate == ""
  }

  lemma BeginsOrStaysBegun(b: Book, f: Entry, o: CycleOrder, k: nat, e: Entry)
    requires Begun(b, e) || (f == e && o.firstAdds(k))
    ensures Begun(FirstAddOne(b, f, o, k), e)
  {
    hide KeyOf;
    assert Strip("") == "";
    var n := FirstAddOne(b, f, o, k);
    forall a | a in n.active ensures a.id == e.id ==> a.waiting == "" {
      var i :| 0 <= i < |n.active| && n.active[i] == a;
      assert b.active[i] in b.active;
    }
  }

  lemma OtherIdsStay(b: Book, f: Entry, o: CycleOrder, k: nat, a: Entry)
    requires a in b.active && (o.firstAdds(k) ==> f.id != a.id)
    ensures a in FirstAddOne(b, f, o, k).active
  {
    var i :| 0 <= i < |b.active| && b.active[i] == a;
    assert o.firstAdds(k) ==> Unmarked(b.active, f.id)[i] == a;
  }

  /** What first adds leave behind: a file whose add went through has begun; a file none of
      whose adds went through is as it was, to be tried again. */
  lemma {:induction false} FirstAddBegins(book: Book, begun: seq<Entry>, o: CycleOrder, e: Entry)
    ensures
      var (b, deeds) := FirstAdds(book, begun, o);
      && (FirstAdd(e, true) in deeds ==> Begun(b, e))
      && (e in book.active && (forall d <- deeds :: d.FirstAdd? && (d.ok ==> d.entry.id != e.id)) ==>
            e in b.active)
  {
    if begun != [] {
      hide Begun, FirstAddOne;
      var k := |begun| - 1;
      var (front, early) := FirstAdds(book, begun[..k], o);
      var last := FirstAdd(begun[k], o.firstAdds(k));
      assert forall d :: d in early + [last] <==> d in early || d == last;
      FirstAddBegins(book, begun[..k], o, e);
      if FirstAdd(e, true) in early + [last] {
        BeginsOrStaysBegun(front, begun[k], o, k, e);
      }
      if e in front.active && (last.ok ==> begun[k].id != e.id) {
        OtherIdsStay(front, begun[k], o, k, e);
      }
    }
  }

  /** Why a file may be acted on in a cycle, whatever the bot answers: its turn had come;
      a first add is of a file that was waiting; anything else needs the cleanup to have
      gone through and the stock to have run short; and a file is added again only while
      its run was not finished, and retired only when it was. */
  predicate Warranted(book: Book, o: CycleOrder, d: Deed) {
    && d.entry in book.active && TurnHadCome(book.sched, o, KeyOf(d.entry))
    && (d.FirstAdd? || Refilling(d))
    && (d.FirstAdd? ==> d.entry.waiting != "")
    && (Refilling(d) ==> o.cleanup && RanShort(book.sched, o, d.entry))
    && AsScheduled(d, o)
    && (Refilling(d) ==> d.before.settings == book.sched.settings)
  }

  lemma DeedsAreWarranted(book: Book, o: CycleOrder, i: nat)
    requires i < |Cycle(book, o).1|
    ensures Warranted(book, o, Cycle(book, o).1[i])
  {
    hide Opening, TurnHadCome, RanShort, AsScheduled, Cycle, Refilled;
    NothingActive(book, o);
    CycleIs(book, o);
    OpeningKeeps(book, o);
    var (next, due, deeds) := Opening(book, o);
    RefillsFollowTheList(next, Refilled(book, o), o);
    var d := Cycle(book, o).1[i];
    if i < |deeds| {
      assert d == deeds[i];
      assert AsScheduled(d, o) by { FirstAddsSay(d, o); }
    } else {
      assert d.entry == Refilled(book, o)[i - |deeds|];
      RefilledRanShort(book, o, d.entry);
    }
    DueFilesHadTheirTurn(book, o, d.entry);
  }

  lemma NothingActive(book: Book, o: CycleOrder)
    ensures book.active == [] ==> Cycle(book, o) == (book, [])
  {
  }

  lemma FirstAddsSay(d: Deed, o: CycleOrder)
    requires d.FirstAdd?
    ensures AsScheduled(d, o)
  {
  }

  lemma {:induction false} RefusalEndsThePass(book: Book, refill: seq<Entry>, o: CycleOrder, i: nat)
    requires i < |RefillAll(book, refill, o).deeds|
    ensures var so := RefillAll(book, refill, o);
            so.deeds[i].Readd? && !so.deeds[i].ok ==> i == |so.deeds| - 1 && so.stopped
  {
    var k := |refill| - 1;
    var front := RefillAll(book, refill[..k], o);
    hide FinishedReason;
    if i < |front.deeds| { RefusalEndsThePass(book, refill[..k], o, i); }
  }

  /** The first add the bot refuses is the last thing a cycle does. */
  lemma RefusalEndsTheCycle(book: Book, o: CycleOrder, i: nat)
    requires i < |Cycle(book, o).1|
    ensures var deeds := Cycle(book, o).1; deeds[i].Readd? && !deeds[i].ok ==> i == |deeds| - 1
  {
    hide Opening, Refilled, Cycle, RefillAll;
    NothingActive(book, o);
    CycleIs(book, o);
    OpeningKeeps(book, o);
    var (next, _, deeds) := Opening(book, o);
    if i < |deeds| {
      assert deeds[i] in deeds;
    } else {
      RefusalEndsThePass(next, Refilled(book, o), o, i - |deeds|);
    }
  }

  /** However the bot behaves, and wherever an error ends the cycle: the timers afterwards
      are those the ready check set, and no setting and no queued file has changed. */
  lemma TimersAdvanceAnyway(book: Book, o: CycleOrder)
    requires book.active != []
    ensures
      var b := Cycle(book, o).0;
      && b.sched.due == ReadyCheck(book.sched, Labels(book.active), o.base, o.force, o.now).0.due
      && b.sched.settings == book.sched.settings && b.queue == book.queue
  {
    hide Opening, ReadyCheck;
    CycleIs(book, o);
    OpeningKeeps(book, o);
    RefillsFollowTheList(Opening(book, o).0, Refilled(book, o), o);
  }

  /** A cycle takes out exactly the files it retired. Monitoring stays on exactly when it
      was on and something is left. */
  lemma OnlyRetiredLeaveTheCycle(book: Book, o: CycleOrder, id: nat)
    ensures
      var (b, deeds) := Cycle(book, o);
      && ((exists a <- b.active :: a.id == id) <==>
            (exists a <- book.active :: a.id == id) && !RetiredId(deeds, id))
      && (book.active != [] ==> (b.enabled <==> book.enabled && b.active != []))
      && forall a <- b.active :: exists e <- book.active :: e.(waiting := "") == a.(waiting := "")
  {
    hide Opening, Refilled, Cycle;
    NothingActive(book, o);
    if book.active != [] {
      CycleIs(book, o);
      OpeningKeeps(book, o);
      var (next, _, deeds) := Opening(book, o);
      var pass := RefillAll(next, Refilled(book, o), o);
      SpotsHaveTheSameIds(next.active, book.active, id);
      FirstAddsRetireNobody(deeds, pass.deeds, id);
      forall a: Entry ensures a in pass.book.active <==> a in next.active && !RetiredId(pass.deeds, a.id)
      {
        OnlyRetiredLeave(next, Refilled(book, o), o, a);
      }
      OnlyRetiredLeave(next, Refilled(book, o), o, next.active[0]);
      forall a | a in pass.book.active ensures exists e <- book.active :: e.(waiting := "") == a.(waiting := "") {
        var i :| 0 <= i < |next.active| && next.active[i] == a;
        assert book.active[i] in book.active;
      }
    }
  }

  lemma SpotsHaveTheSameIds(es: seq<Entry>, fs: seq<Entry>, id: nat)
    requires SameSpots(es, fs)
    ensures (exists a <- es :: a.id == id) <==> (exists a <- fs :: a.id == id)
  {
    assert forall i :: 0 <= i < |es| ==> es[i].id == fs[i].id && es[i] in es && fs[i] in fs;
  }

  lemma FirstAddsRetireNobody(deeds: seq<Deed>, more: seq<Deed>, id: nat)
    requires forall d <- deeds :: d.FirstAdd?
    ensures RetiredId(deeds + more, id) <==> RetiredId(more, id)
  {
    assert forall d <- more :: d in deeds + more;
  }

  // ------------------------------------------------------------------ //
  // Finished means finished
  // ------------------------------------------------------------------ //

  /** At most one of these files belongs to this country. */
  predicate Sole(es: seq<Entry>, key: Key) {
    forall i, j :: 0 <= i < j < |es| ==> !(KeyOf(es[i]) == key && KeyOf(es[j]) == key)
  }

  lemma {:induction false} WhereKeepsSole(es: seq<Entry>, keep: Entry -> bool, key: Key)
    requires Sole(es, key)
    ensures Sole(Where(es, keep), key)
  {
    if es != [] {
      hide KeyOf;
      var n := |es| - 1;
      WhereKeepsSole(es[..n], keep, key);
      forall e | e in Where(es[..n], keep) ensures KeyOf(e) == key ==> KeyOf(es[n]) != key {
        WhereHas(es[..n], keep, e);
      }
    }
  }

  lemma RefilledIsSole(book: Book, o: CycleOrder, key: Key)
    requires Sole(book.active, key)
    ensures Sole(Refilled(book, o), key)
  {
    var ready := ReadyCheck(book.sched, Labels(book.active), o.base, o.force, o.now).1;
    var (next, due, _) := Opening(book, o);
    hide ReadyCheck, FirstAdds, KeyOf;
    WhereKeepsSole(book.active, In(ready), key);
    if o.cleanup && o.report.Answer? && o.report.stock != [] {
      WhereKeepsSole(due, RunsShort(next.sched, o.base, o.report.stock), key);
    }
  }

  lemma RefillDeedsDiffer(book: Book, refill: seq<Entry>, o: CycleOrder, m: nat, n: nat)
    requires m < n < |RefillAll(book, refill, o).deeds|
    requires Sole(refill, KeyOf(RefillAll(book, refill, o).deeds[m].entry))
    ensures KeyOf(RefillAll(book, refill, o).deeds[n].entry) != KeyOf(RefillAll(book, refill, o).deeds[m].entry)
  {
    hide KeyOf, DeedFor, RefillAll;
    RefillsFollowTheList(book, refill, o);
    var deeds := RefillAll(book, refill, o).deeds;
    EntryOf(deeds[m], refill[m], o, m, book.sched);
    EntryOf(deeds[n], refill[n], o, n, book.sched);
  }

  /** After a file was retired, no other deed of the cycle is for its country. */
  lemma LaterDeedsAreOthers(book: Book, o: CycleOrder, i: nat, j: nat)
    requires i < j < |Cycle(book, o).1| && Cycle(book, o).1[i].Retired?
    requires Sole(book.active, KeyOf(Cycle(book, o).1[i].entry))
    ensures KeyOf(Cycle(book, o).1[j].entry) != KeyOf(Cycle(book, o).1[i].entry)
  {
    hide Opening, Cycle, Refilled, KeyOf, SamePlan, ReadyCheck, RefillAll, Sole;
    var deeds := Cycle(book, o).1;
    NothingActive(book, o);
    CycleIs(book, o);
    OpeningKeeps(book, o);
    RefilledIsSole(book, o, KeyOf(deeds[i].entry));
    var (next, _, early) := Opening(book, o);
    var refill := Refilled(book, o);
    assert forall k :: 0 <= k < |early| ==> deeds[k] == early[k] && early[k] in early;
    RefillDeedsDiffer(next, refill, o, i - |early|, j - |early|);
  }

  lemma EntryOf(d: Deed, e: Entry, o: CycleOrder, k: nat, sched: Store)
    requires DeedFor(d, e, o, k, sched)
    ensures d.entry == e
  {
  }

  /** When a country has one active file and a cycle retires it, the country is out of the
      active set afterwards, and nothing is done for it later in that cycle. */
  lemma FinishTakesItOut(book: Book, o: CycleOrder, i: nat)
    requires i < |Cycle(book, o).1| && Cycle(book, o).1[i].Retired?
    requires Sole(book.active, KeyOf(Cycle(book, o).1[i].entry))
    ensures
      var (b, deeds) := Cycle(book, o);
      var key := KeyOf(deeds[i].entry);
      Out(b.active, key) && forall j :: i < j < |deeds| ==> KeyOf(deeds[j].entry) != key
  {
    hide Cycle, KeyOf, Sole, TurnHadCome, RanShort, AsScheduled;
    var (b, deeds) := Cycle(book, o);
    var key := KeyOf(deeds[i].entry);
    forall j | i < j < |deeds| ensures KeyOf(deeds[j].entry) != key {
      LaterDeedsAreOthers(book, o, i, j);
    }
    DeedsAreWarranted(book, o, i);
    assert RetiredId(deeds, deeds[i].entry.id);
    forall a | a in b.active ensures KeyOf(a) != key {
      OnlyRetiredLeaveTheCycle(book, o, a.id);
      SoleFileIsGone(book.active, deeds[i].entry, a);
    }
  }

  /** This active file is due, and ran short, in a cycle whose cleanup goes through. */
  predicate ToBeRefilled(book: Book, o: CycleOrder, e: Entry) {
    && o.cleanup && RanShort(book.sched, o, e)
    && e.country in ReadyCheck(book.sched, Labels(book.active), o.base, o.force, o.now).1
  }

  function TheShortOnes(book: Book, o: CycleOrder): Entry -> bool { (e: Entry) => ToBeRefilled(book, o, e) }

  function All(): Entry -> bool { (e: Entry) => true }

  lemma {:induction false} WhereTwice(es: seq<Entry>, p: Entry -> bool, q: Entry -> bool, r: Entry -> bool)
    requires forall e <- es :: r(e) <==> p(e) && q(e)
    ensures Where(Where(es, p), q) == Where(es, r)
  {
    if es != [] {
      var n := |es| - 1;
      assert es[n] in es;
      WhereTwice(es[..n], p, q, r);
      if p(es[n]) {
        WhereSnoc(Where(es[..n], p), es[n], q);
      } else {
        assert Where(es[..n], p) + [] == Where(es[..n], p);
      }
    }
  }

  lemma {:induction false} WhereNever(es: seq<Entry>, keep: Entry -> bool)
    requires forall e <- es :: !keep(e)
    ensures Where(es, keep) == []
  {
    if es != [] {
      assert es[|es| - 1] in es;
      WhereNever(es[..|es| - 1], keep);
    }
  }

  lemma {:induction false} WhereAlways(es: seq<Entry>, keep: Entry -> bool)
    requires forall e <- es :: keep(e)
    ensures Where(es, keep) == es
  {
    if es != [] {
      assert es[|es| - 1] in es;
      WhereAlways(es[..|es| - 1], keep);
    }
  }

  /** The files to refill, in the order of the active set. */
  lemma RefilledInOrder(book: Book, o: CycleOrder)
    ensures Refilled(book, o) == Where(book.active, TheShortOnes(book, o))
  {
    var ready := ReadyCheck(book.sched, Labels(book.active), o.base, o.force, o.now).1;
    var (next, due, _) := Opening(book, o);
    OpeningKeeps(book, o);
    hide ReadyCheck, FirstAdds, CountryNames.Find, Effective, KeyOf, Opening;
    assert due == Where(book.active, In(ready)) by { DueIs(book, o); }
    if o.cleanup && o.report.Answer? && o.report.stock != [] {
      forall e | e in book.active
        ensures TheShortOnes(book, o)(e) <==> In(ready)(e) && RunsShort(next.sched, o.base, o.report.stock)(e)
      {
        SameSettings(next.sched, book.sched, KeyOf(e), o.base);
      }
      WhereTwice(book.active, In(ready), RunsShort(next.sched, o.base, o.report.stock), TheShortOnes(book, o));
    } else if Refilled(book, o) == [] && forall e <- book.active :: !ToBeRefilled(book, o, e) {
      WhereNever(book.active, TheShortOnes(book, o));
    } else {
      WhereAlways(due, All());
      WhereTwice(book.active, In(ready), All(), TheShortOnes(book, o));
    }
  }

  lemma DueIs(book: Book, o: CycleOrder)
    ensures Opening(book, o).1
            == Where(book.active, In(ReadyCheck(book.sched, Labels(book.active), o.base, o.force, o.now).1))
  {
    hide ReadyCheck, FirstAdds;
  }

  lemma PlaceOf(es: seq<Entry>, keep: Entry -> bool, part: seq<Entry>, at: seq<nat>, q: nat) returns (n: nat)
    requires Picks(es, keep, part, at) && q < |es| && keep(es[q])
    ensures n < |at| && at[n] == q
  {
    assert q in at;
    n :| 0 <= n < |at| && at[n] == q;
  }

  /** The k-th refill, if it comes to that, is not refused, and its country's stop time is
      not a pair of integers that is no time of day. */
  predicate GoesThrough(sched: Store, o: CycleOrder, e: Entry, k: nat) {
    && o.adds(k)
    && var stop := ReadClock(Strip(Effective(sched, KeyOf(e), o.base).stopAt)); stop.None? || stop.value.Valid()
  }

  lemma OneGoesThrough(so: Pass, sched: Store, e: Entry, o: CycleOrder, k: nat)
    requires GoesThrough(sched, o, e, k) && so.book.sched.settings == sched.settings
    ensures !RefillOne(so, e, o, k).stopped
  {
    SameSettings(so.book.sched, sched, KeyOf(e), o.base);
    hide Effective, HasStarted, EffectiveStart, Removed;
  }

  /** A retirement does not end the cycle; so, if all refills behind it go through, nothing
      does. */
  lemma {:induction false} RetiredGoesOn(book: Book, refill: seq<Entry>, o: CycleOrder, m: nat)
    requires m < |RefillAll(book, refill, o).deeds| && RefillAll(book, refill, o).deeds[m].Retired?
    requires forall k: nat :: m < k < |refill| ==> GoesThrough(book.sched, o, refill[k], k)
    ensures !RefillAll(book, refill, o).stopped
  {
    if refill != [] {
      var k := |refill| - 1;
      var so := RefillAll(book, refill[..k], o);
      hide GoesThrough, DeedFor, RefillAll, RefillOne;
      RefillSnoc(book, refill, o);
      RefillsFollowTheList(book, refill[..k], o);
      RefillsFollowTheList(book, refill, o);
      if m < k {
        if !so.stopped { RefillOneKeeps(so, refill[k], o, k); }
        if m < |so.deeds| {
          assert so.deeds[m] == RefillAll(book, refill, o).deeds[m];
          assert forall i: nat :: m < i < k ==> refill[..k][i] == refill[i];
          RetiredGoesOn(book, refill[..k], o, m);
        }
        if !so.stopped { OneGoesThrough(so, book.sched, refill[k], o, k); }
      } else if !so.stopped {
        RetiringGoesOn(so, refill[k], o, k);
      }
    }
  }

  lemma RefillSnoc(book: Book, refill: seq<Entry>, o: CycleOrder)
    requires refill != []
    ensures var k := |refill| - 1;
            var so := RefillAll(book, refill[..k], o);
            RefillAll(book, refill, o) == if so.stopped then so else RefillOne(so, refill[k], o, k)
  {
    hide RefillOne;
  }

  lemma RetiringGoesOn(so: Pass, e: Entry, o: CycleOrder, k: nat)
    ensures var n := RefillOne(so, e, o, k);
            |n.deeds| > |so.deeds| && n.deeds[|so.deeds|].Retired? ==> !n.stopped
  {
    hide FinishedReason;
  }

  /** When retiring a country is undone in the same cycle. If the refills behind it go
      through, something is done for a retired file's country after its retirement exactly
      when another due file of it that ran short stands later in the active set. */
  lemma RetirementIsUndoneIff(book: Book, o: CycleOrder, i: nat) returns (p: nat)
    requires i < |Cycle(book, o).1| && Cycle(book, o).1[i].Retired?
    requires forall e <- book.active, k: nat :: k > i - |Opening(book, o).2| ==> GoesThrough(book.sched, o, e, k)
    ensures
      var deeds := Cycle(book, o).1;
      var key := KeyOf(deeds[i].entry);
      && p < |book.active| && book.active[p] == deeds[i].entry
      && ((exists j :: i < j < |deeds| && KeyOf(deeds[j].entry) == key) <==>
            exists q :: p < q < |book.active| && KeyOf(book.active[q]) == key
                        && ToBeRefilled(book, o, book.active[q]))
  {
    hide Opening, Cycle, Refilled, KeyOf, ToBeRefilled, GoesThrough, SamePlan, RefillAll, FollowList;
    NothingActive(book, o);
    CycleIs(book, o);
    OpeningKeeps(book, o);
    RefilledInOrder(book, o);
    var (next, _, early) := Opening(book, o);
    var refill := Refilled(book, o);
    RefillsFollowTheList(next, refill, o);
    var late := RefillAll(next, refill, o).deeds;
    var at := WherePicks(book.active, TheShortOnes(book, o));
    RetiredIsLate(early, late, i);
    forall k: nat | i - |early| < k < |refill| ensures GoesThrough(next.sched, o, refill[k], k) {
      assert refill[k] == book.active[at[k]];
      SameGoing(next.sched, book.sched, o, refill[k], k);
    }
    RetiredGoesOn(next, refill, o, i - |early|);
    p := LaterInBoth(book, o, early, late, refill, next.sched, at, i);
  }

  lemma RetiredIsLate(early: seq<Deed>, late: seq<Deed>, i: nat)
    requires i < |early + late| && (early + late)[i].Retired? && forall d <- early :: d.FirstAdd?
    ensures i >= |early| && late[i - |early|] == (early + late)[i]
  {
    assert forall k :: 0 <= k < |early| ==> (early + late)[k] == early[k] && early[k] in early;
  }

  lemma SameGoing(s: Store, t: Store, o: CycleOrder, e: Entry, k: nat)
    requires s.settings == t.settings && GoesThrough(t, o, e, k)
    ensures GoesThrough(s, o, e, k)
  {
    SameSettings(s, t, KeyOf(e), o.base);
  }

  lemma LaterInBoth(book: Book, o: CycleOrder, early: seq<Deed>, late: seq<Deed>, refill: seq<Entry>,
                    sched: Store, at: seq<nat>, i: nat) returns (p: nat)
    requires forall d <- early :: d.FirstAdd?
    requires FollowList(late, refill, o, sched) && |late| == |refill|
    requires Picks(book.active, TheShortOnes(book, o), refill, at)
    requires i < |early + late| && (early + late)[i].Retired?
    ensures
      var deeds := early + late;
      var key := KeyOf(deeds[i].entry);
      && p < |book.active| && book.active[p] == deeds[i].entry
      && ((exists j :: i < j < |deeds| && KeyOf(deeds[j].entry) == key) <==>
            exists q :: p < q < |book.active| && KeyOf(book.active[q]) == key
                        && ToBeRefilled(book, o, book.active[q]))
  {
    hide KeyOf, ToBeRefilled, AsScheduled, SamePlan;
    var deeds := early + late;
    assert forall k :: 0 <= k < |early| ==> deeds[k] == early[k] && early[k] in early;
    assert forall k :: 0 <= k < |late| ==> deeds[|early| + k] == late[k] && late[k].entry == refill[k] by {
      assert forall k :: 0 <= k < |late| ==> DeedFor(late[k], refill[k], o, k, sched);
    }
    var m := i - |early|;
    p := at[m];
    var key := KeyOf(deeds[i].entry);
    if j :| i < j < |deeds| && KeyOf(deeds[j].entry) == key {
      var q := at[j - |early|];
      assert deeds[j] == late[j - |early|];
      assert q in at && q > p && TheShortOnes(book, o)(book.active[q]);
    }
    if q :| p < q < |book.active| && KeyOf(book.active[q]) == key && ToBeRefilled(book, o, book.active[q]) {
      var n := PlaceOf(book.active, TheShortOnes(book, o), refill, at, q);
      assert n > m;
      assert deeds[|early| + n] == late[n];
    }
  }

  /** Another file of the same country, left over from the same set, would be the same one. */
  lemma SoleFileIsGone(es: seq<Entry>, e: Entry, a: Entry)
    requires e in es && Sole(es, KeyOf(e)) && a.id != e.id
    requires exists f <- es :: f.(waiting := "") == a.(waiting := "")
    ensures KeyOf(a) != KeyOf(e)
  {
    var f :| f in es && f.(waiting := "") == a.(waiting := "");
    var i :| 0 <= i < |es| && es[i] == e;
    var j :| 0 <= j < |es| && es[j] == f;
    assert i != j;
  }
}
