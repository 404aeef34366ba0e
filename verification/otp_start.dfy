/** What starting and resuming the number-adding bot do to the stored files. */
module OtpStart {
  import opened Options
  import opened Text
  import opened Clock
  import opened Schedule
  import opened OtpBot
  import CountryNames

  // ------------------------------------------------------------------ //
  // Filtering
  // ------------------------------------------------------------------ //

  lemma {:induction false} WhereHas(es: seq<Entry>, keep: Entry -> bool, e: Entry)
    ensures e in Where(es, keep) <==> e in es && keep(e)
  {
    if es != [] {
      var n := |es| - 1;
      WhereHas(es[..n], keep, e);
      assert es == es[..n] + [es[n]];
    }
  }

  predicate OneEach(es: seq<Entry>) {
    forall i, j :: 0 <= i < j < |es| ==> KeyOf(es[i]) != KeyOf(es[j])
  }

  lemma {:induction false} WhereKeepsOneEach(es: seq<Entry>, keep: Entry -> bool)
    requires OneEach(es)
    ensures OneEach(Where(es, keep))
  {
    if es != [] {
      var n := |es| - 1;
      WhereKeepsOneEach(es[..n], keep);
      forall e | e in Where(es[..n], keep) ensures KeyOf(e) != KeyOf(es[n]) {
        WhereHas(es[..n], keep, e);
      }
    }
  }

  /** No active file belongs to this country. */
  predicate Out(es: seq<Entry>, key: Key) {
    forall e <- es :: KeyOf(e) != key
  }

  /** `part` is what `keep` picks out of `es`, each from its own place and in order. */
  predicate Picks(es: seq<Entry>, keep: Entry -> bool, part: seq<Entry>, at: seq<nat>) {
    && |at| == |part|
    && (forall i :: 0 <= i < |at| ==> at[i] < |es| && es[at[i]] == part[i])
    && (forall i, j :: 0 <= i < j < |at| ==> at[i] < at[j])
    && forall k: nat :: k < |es| ==> (k in at <==> keep(es[k]))
  }

  lemma PicksOneMore(es: seq<Entry>, keep: Entry -> bool, part: seq<Entry>, at: seq<nat>)
    requires es != [] && Picks(es[..|es| - 1], keep, part, at)
    ensures var n := |es| - 1;
            if keep(es[n]) then Picks(es, keep, part + [es[n]], at + [n]) else Picks(es, keep, part, at)
  {
    var n := |es| - 1;
    assert forall k: nat :: k < n ==> es[..n][k] == es[k];
    assert n !in at;
    if keep(es[n]) {
      var at' := at + [n];
      assert forall k: nat :: k in at' <==> k in at || k == n;
    }
  }

  lemma {:induction false} WherePicks(es: seq<Entry>, keep: Entry -> bool) returns (at: seq<nat>)
    ensures Picks(es, keep, Where(es, keep), at)
  {
    at := [];
    if es != [] {
      hide Picks;
      var n := |es| - 1;
      at := WherePicks(es[..n], keep);
      PicksOneMore(es, keep, Where(es[..n], keep), at);
      if keep(es[n]) {
        at := at + [n];
      } else {
        assert Where(es[..n], keep) + [] == Where(es[..n], keep);
      }
    }
  }

  // ------------------------------------------------------------------ //
  // What a start does
  // ------------------------------------------------------------------ //

  /** A start works exactly when there is a queue, every file in it has a tag, and no call
      to the bot fails. Otherwise nothing that is stored changes, and what was sent by then
      is a beginning of what was to be sent. */
  lemma StartIsAllOrNothing(book: Book, o: StartOrder)
    ensures
      var s := Start(book, o);
      var toAdd := Where(Planned(book.sched, o, book.queue), NeedsAdd());
      && (s.ok <==> && book.queue != [] && (forall e <- book.queue :: e.tag != "")
                    && (toAdd == [] || o.cleanup) && forall k: nat :: k < |toAdd| ==> o.adds(k))
      && (!s.ok ==> s.book == book && |s.sent| <= |toAdd| && s.sent == toAdd[..|s.sent|])
  {
  }

  /** After a start that worked the queue is empty, monitoring is on, and the active set is
      the old one without the countries that were queued, in order, followed by the whole
      queue in order, with only its markers changed. Each queued file is waiting, held back
      or sent, and only one of these; the files sent are sent in queue order. */
  lemma StartMerges(book: Book, o: StartOrder) returns (kept: seq<nat>, sent: seq<nat>)
    requires Start(book, o).ok
    ensures
      var b := Start(book, o).book;
      && b.queue == [] && b.enabled && |b.active| == |kept| + |book.queue|
      && Picks(book.active, NotIn(Labels(book.queue)), b.active[..|kept|], kept)
      && Picks(b.active[|kept|..], NeedsAdd(), Start(book, o).sent, sent)
      && forall i :: 0 <= i < |book.queue| ==>
           MarkedAs(book.queue[i], b.active[|kept| + i], PlanOf(book.sched, o, book.queue[i]))
  {
    hide PlanOf, ArmAll, Picks;
    var b := Start(book, o).book;
    var marked := Planned(book.sched, o, book.queue);
    var front := Where(book.active, NotIn(Labels(book.queue)));
    kept := WherePicks(book.active, NotIn(Labels(book.queue)));
    sent := WherePicks(marked, NeedsAdd());
    PicksAsMany(book.active, NotIn(Labels(book.queue)), front, kept);
    assert b.active == front + marked;
    assert b.active[..|kept|] == front && b.active[|kept|..] == marked;
    forall i | 0 <= i < |book.queue|
      ensures MarkedAs(book.queue[i], b.active[|kept| + i], PlanOf(book.sched, o, book.queue[i]))
    {
      assert b.active[|kept| + i] == marked[i];
      PlansWaitForSomething(book.sched, o, book.queue[i]);
    }
  }

  lemma PicksAsMany(es: seq<Entry>, keep: Entry -> bool, part: seq<Entry>, at: seq<nat>)
    requires Picks(es, keep, part, at)
    ensures |at| == |part|
  {
  }

  lemma PlansWaitForSomething(sched: Store, o: StartOrder, e: Entry)
    ensures PlanOf(sched, o, e).Wait? ==> PlanOf(sched, o, e).startAt != ""
  {
    hide Effective, CountryNames.Find;
    assert Strip("") == "";
  }

  /** Only the markers tell a started file from a queued one, and they say what was planned. */
  predicate MarkedAs(was: Entry, now: Entry, plan: Plan) {
    && now == was.(waiting := now.waiting, held := now.held)
    && (now.waiting != "" <==> plan.Wait?)
    && (now.waiting == "" ==> (now.held <==> plan.Hold?))
  }

  /** The country's last file in the queue decides; each arming replaces the one before. */
  predicate LastOfItsKey(queue: seq<Entry>, i: nat) {
    i < |queue| && forall j :: i < j < |queue| ==> KeyOf(queue[j]) != KeyOf(queue[i])
  }

  /** The settings, and one country's timer and run, are the same in both. */
  predicate Untouched(s: Store, t: Store, key: Key) {
    && s.settings == t.settings
    && (key in s.due <==> key in t.due) && (key in s.due ==> s.due[key] == t.due[key])
    && (key in s.runs <==> key in t.runs) && (key in s.runs ==> s.runs[key] == t.runs[key])
  }

  /** Armed and begun as the i-th file asks, by the settings in `sched`. */
  predicate ArmedAs(s: Store, sched: Store, o: StartOrder, e: Entry, i: nat) {
    var key := KeyOf(e);
    var cfg := Effective(sched, key, o.base);
    && s.settings == sched.settings
    && key in s.due && s.due[key] == After(o.armAt(i), cfg.interval)
    && key in s.runs
    && s.runs[key] == RunState(At(o.beginAt(i)), At(o.beginAt(i)), 0,
                               Strip(if o.respect then cfg.startAt else ""))
  }

  lemma ArmOneFacts(sched: Store, so: Store, o: StartOrder, e: Entry, i: nat, key: Key)
    requires so.settings == sched.settings
    ensures ArmedAs(ArmOne(so, o, e, i), sched, o, e, i)
    ensures key != KeyOf(e) ==> Untouched(ArmOne(so, o, e, i), so, key)
  {
    assert Effective(so, KeyOf(e), o.base) == Effective(sched, KeyOf(e), o.base);
    hide Effective;
  }

  lemma {:induction false} ArmLeavesOthers(sched: Store, o: StartOrder, queue: seq<Entry>, key: Key)
    requires Out(queue, key)
    ensures Untouched(ArmAll(sched, o, queue), sched, key)
  {
    if queue != [] {
      hide ArmOne;
      var n := |queue| - 1;
      assert queue[n] in queue;
      ArmLeavesOthers(sched, o, queue[..n], key);
      ArmOneFacts(sched, ArmAll(sched, o, queue[..n]), o, queue[n], n, key);
    }
  }

  lemma {:induction false} ArmKeepsSettings(sched: Store, o: StartOrder, queue: seq<Entry>)
    ensures ArmAll(sched, o, queue).settings == sched.settings
  {
    if queue != [] { ArmKeepsSettings(sched, o, queue[..|queue| - 1]); }
  }

  lemma {:induction false} ArmedByTheLast(sched: Store, o: StartOrder, queue: seq<Entry>, i: nat)
    requires LastOfItsKey(queue, i)
    ensures ArmedAs(ArmAll(sched, o, queue), sched, o, queue[i], i)
  {
    hide ArmOne;
    var n := |queue| - 1;
    var so := ArmAll(sched, o, queue[..n]);
    ArmKeepsSettings(sched, o, queue[..n]);
    ArmOneFacts(sched, so, o, queue[n], n, KeyOf(queue[i]));
    if i < n {
      ArmedByTheLast(sched, o, queue[..n], i);
    }
  }

  /** A start arms and begins exactly the queued countries. A country whose file was sent
      or held back has started at once; one whose file waits starts when the Dubai clock
      first shows its time after the run was begun (at once if that time is unusable). */
  lemma StartedWhenPlanned(book: Book, o: StartOrder, i: nat, base: Config, now: int)
    requires Start(book, o).ok && LastOfItsKey(book.queue, i)
    ensures
      var key, s := KeyOf(book.queue[i]), Start(book, o).book.sched;
      var plan := PlanOf(book.sched, o, book.queue[i]);
      && key in s.due && s.due[key] == After(o.armAt(i), Effective(book.sched, key, o.base).interval)
      && key in s.runs && s.runs[key].refills == 0
      && (HasStarted(s, key, base, now) <==>
            || !plan.Wait?
            || NextOccurrence(Strip(plan.startAt), o.beginAt(i)).None?
            || now >= NextOccurrence(Strip(plan.startAt), o.beginAt(i)).value)
  {
    hide Effective, CountryNames.Find, NextOccurrence, ArmAll, Planned;
    var key := KeyOf(book.queue[i]);
    ArmedByTheLast(book.sched, o, book.queue, i);
    StripTwice(Effective(book.sched, key, o.base).startAt);
    assert Strip("") == "";
  }

  /** Starting keeps one file per country exactly when the queue has one per country and
      spells no active country differently: the merge goes by spelling, everything else
      by the normalised name. */
  lemma StartKeepsOneEachIff(book: Book, o: StartOrder)
    requires Start(book, o).ok && OneEach(book.active)
    ensures OneEach(Start(book, o).book.active) <==>
            && OneEach(book.queue)
            && forall a <- book.active, q <- book.queue ::
                 KeyOf(a) == KeyOf(q) ==> a.country in Labels(book.queue)
  {
    hide PlanOf, ArmAll, Normalise;
    var marked := Planned(book.sched, o, book.queue);
    var front := Where(book.active, NotIn(Labels(book.queue)));
    assert Start(book, o).book.active == front + marked;
    WhereKeepsOneEach(book.active, NotIn(Labels(book.queue)));
    forall a ensures a in front <==> a in book.active && a.country !in Labels(book.queue) {
      WhereHas(book.active, NotIn(Labels(book.queue)), a);
    }
    OneEachTogether(front, marked);
    assert SameKeys(marked, book.queue) && SameKeys(book.queue, marked);
    SameKeysSameFacts(front, marked, book.queue);
    SameKeysSameFacts(front, book.queue, marked);
  }

  predicate Apart(es: seq<Entry>, fs: seq<Entry>) {
    forall e <- es, f <- fs :: KeyOf(e) != KeyOf(f)
  }

  lemma OneEachTogether(es: seq<Entry>, fs: seq<Entry>)
    ensures OneEach(es + fs) <==> OneEach(es) && OneEach(fs) && Apart(es, fs)
  {
    hide KeyOf;
    var whole := es + fs;
    assert forall i :: 0 <= i < |es| ==> whole[i] == es[i];
    assert forall j :: 0 <= j < |fs| ==> whole[|es| + j] == fs[j];
    if OneEach(whole) {
      forall e, f | e in es && f in fs ensures KeyOf(e) != KeyOf(f) {
        var i :| 0 <= i < |es| && es[i] == e;
        var j :| 0 <= j < |fs| && fs[j] == f;
        assert KeyOf(whole[i]) != KeyOf(whole[|es| + j]);
      }
    }
  }

  predicate SameKeys(fs: seq<Entry>, gs: seq<Entry>) {
    |fs| == |gs| && forall i :: 0 <= i < |fs| ==> KeyOf(fs[i]) == KeyOf(gs[i])
  }

  lemma SameKeysSameFacts(es: seq<Entry>, fs: seq<Entry>, gs: seq<Entry>)
    requires SameKeys(fs, gs)
    ensures OneEach(fs) ==> OneEach(gs)
    ensures Apart(es, fs) ==> Apart(es, gs)
  {
    hide KeyOf;
    if Apart(es, fs) {
      forall e, g | e in es && g in gs ensures KeyOf(e) != KeyOf(g) {
        var i :| 0 <= i < |gs| && gs[i] == g;
        assert fs[i] in fs;
      }
    }
  }

  /** Resuming replaces the queue by the active files before anything is checked. A start
      that fails leaves it that way, and either way an uploaded country that was not active
      is stored nowhere any more. */
  lemma ResumeDropsUploads(book: Book, o: StartOrder)
    requires book.active != []
    ensures
      var s := Resume(book, o);
      && (!s.ok ==> s.book == book.(queue := book.active))
      && (s.ok ==>
            && s.book.queue == [] && |s.book.active| == |book.active|
            && forall i :: 0 <= i < |book.active| ==>
                 MarkedAs(book.active[i], s.book.active[i], PlanOf(book.sched, o, book.active[i])))
      && forall e <- book.queue :: Out(book.active, KeyOf(e)) ==>
           Out(s.book.queue, KeyOf(e)) && Out(s.book.active, KeyOf(e))
  {
    hide PlanOf, ArmAll, Start, Picks, MarkedAs, KeyOf;
    var b := book.(queue := book.active);
    var s := Resume(book, o);
    StartIsAllOrNothing(b, o);
    if s.ok {
      var kept, _ := StartMerges(b, o);
      NothingKept(book.active, kept, s.book.active[..|kept|]);
      assert s.book.active[0..] == s.book.active;
      var plans := seq(|book.active|, i requires 0 <= i < |book.active| => PlanOf(book.sched, o, book.active[i]));
      forall e | e in book.queue && Out(book.active, KeyOf(e)) ensures Out(s.book.active, KeyOf(e)) {
        RestartedStayOut(book.active, s.book.active, plans, KeyOf(e));
      }
    }
  }

  lemma NothingKept(es: seq<Entry>, at: seq<nat>, part: seq<Entry>)
    requires Picks(es, NotIn(Labels(es)), part, at)
    ensures at == []
  {
    assert |at| > 0 ==> at[0] in at && at[0] < |es|;
    forall k: nat | k < |es| ensures k !in at {
      assert Labels(es)[k] == es[k].country;
    }
  }

  lemma RestartedStayOut(es: seq<Entry>, fs: seq<Entry>, plans: seq<Plan>, key: Key)
    requires |es| == |fs| == |plans| && Out(es, key)
    requires forall i :: 0 <= i < |es| ==> MarkedAs(es[i], fs[i], plans[i])
    ensures Out(fs, key)
  {
    forall i | 0 <= i < |fs| ensures KeyOf(fs[i]) != key {
      assert MarkedAs(es[i], fs[i], plans[i]);
      assert es[i] in es;
    }
  }
}
