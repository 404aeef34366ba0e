/** A country's own value decides where it has one, and the general value where not. */
module OwnSettings {
  import opened Options
  import opened Text
  import opened Clock
  import opened Schedule
  import opened OtpBot
  import opened OtpStart
  import opened OtpCycle
  import CountryNames

  // ------------------------------------------------------------------ //
  // The value in force, field by field
  // ------------------------------------------------------------------ //

  /** `v` is the stored value, or, when none is stored, the general one. */
  predicate Rules<T(==)>(stored: Option<T>, general: T, v: T) {
    stored == Some(v) || (stored == None && general == v)
  }

  /** So many minutes, but at least one. */
  function Microseconds(minutes: int): int { if minutes < 1 then 60_000_000 else minutes * 60_000_000 }

  predicate IntervalIs(s: Store, key: Key, base: Config, v: int) {
    Rules(if key in s.settings then s.settings[key].interval else None, base.interval, v)
  }

  predicate ThresholdIs(s: Store, key: Key, base: Config, v: int) {
    Rules(if key in s.settings then s.settings[key].threshold else None, base.threshold, v)
  }

  predicate RefillLimitIs(s: Store, key: Key, base: Config, v: int) {
    Rules(if key in s.settings then s.settings[key].maxRefills else None, base.maxRefills, v)
  }

  predicate RunLengthIs(s: Store, key: Key, base: Config, v: int) {
    Rules(if key in s.settings then s.settings[key].runMinutes else None, base.runMinutes, v)
  }

  predicate PausedIs(s: Store, key: Key, base: Config, v: bool) {
    Rules(if key in s.settings then s.settings[key].paused else None, base.paused, v)
  }

  predicate StopAtIs(s: Store, key: Key, base: Config, v: string) {
    Rules(if key in s.settings then s.settings[key].stopAt else None, base.stopAt, v)
  }

  predicate StartAtIs(s: Store, key: Key, base: Config, v: string) {
    Rules(if key in s.settings then s.settings[key].startAt else None, base.startAt, v)
  }

  // ------------------------------------------------------------------ //
  // Changing settings
  // ------------------------------------------------------------------ //

  /** Put decides from now on, Clear hands the field back, and Keep changes nothing. */
  function Given<T>(change: Change<T>, was: T, general: T): T {
    match change case Put(v) => v case Clear => general case Keep => was
  }

  /** These values are in force. */
  predicate InForce(s: Store, key: Key, base: Config, v: Config) {
    && IntervalIs(s, key, base, v.interval) && ThresholdIs(s, key, base, v.threshold)
    && RefillLimitIs(s, key, base, v.maxRefills) && RunLengthIs(s, key, base, v.runMinutes)
    && PausedIs(s, key, base, v.paused)
    && StopAtIs(s, key, base, v.stopAt) && StartAtIs(s, key, base, v.startAt)
  }

  predicate OnlyItsSettings(s: Store, n: Store, key: Key) {
    && n.runs == s.runs
    && (forall k <- n.settings :: k != key ==> k in s.settings && n.settings[k] == s.settings[k])
    && (forall k <- s.settings :: k in n.settings)
  }

  /** A settings change, whatever the general values are: a field that is put has its new
      value, one that is cleared the general value, one that is kept what it had; no other
      country's settings, no timer and no run changes. */
  lemma ChangeDecides(s: Store, key: Key, p: Patch, base: Config, was: Config, now: int)
    requires InForce(s, key, base, was)
    ensures
      var n := Apply(s, Change(key, p), now);
      && InForce(n, key, base, Config(
           Given(p.interval, was.interval, base.interval), Given(p.threshold, was.threshold, base.threshold),
           Given(p.maxRefills, was.maxRefills, base.maxRefills), Given(p.runMinutes, was.runMinutes, base.runMinutes),
           Given(p.paused, was.paused, base.paused),
           Given(p.stopAt, was.stopAt, base.stopAt), Given(p.startAt, was.startAt, base.startAt)))
      && OnlyItsSettings(s, n, key) && n.due == s.due
  {
  }

  function Preferred<T>(field: Option<T>, was: T): T { if field.Some? then field.value else was }

  /** A preset gives the country the fields it has, and restarts its timer on the interval it
      has, if it has one, by a minute at least. */
  lemma PresetDecides(s: Store, key: Key, preset: Settings, base: Config, was: Config, now: int)
    requires InForce(s, key, base, was)
    ensures
      var n := Apply(s, Preset(key, preset), now);
      && InForce(n, key, base, Config(
           Preferred(preset.interval, was.interval), Preferred(preset.threshold, was.threshold),
           Preferred(preset.maxRefills, was.maxRefills), Preferred(preset.runMinutes, was.runMinutes),
           Preferred(preset.paused, was.paused),
           Preferred(preset.stopAt, was.stopAt), Preferred(preset.startAt, was.startAt)))
      && OnlyItsSettings(s, n, key)
      && n.due == if preset.interval.Some? then s.due[key := At(now + Microseconds(preset.interval.value))]
                  else s.due
  {
  }

  /** Pausing and resuming change nothing but that; resuming restarts the timer on the
      country's own interval, or on ten minutes. */
  lemma PauseDecides(s: Store, key: Key, paused: bool, base: Config, was: Config, now: int)
    requires InForce(s, key, base, was)
    ensures
      var n := Apply(s, Pause(key, paused), now);
      var own := if key in s.settings then s.settings[key].interval else None;
      && InForce(n, key, base, was.(paused := paused))
      && OnlyItsSettings(s, n, key)
      && n.due == if paused then s.due
                  else
                    var minutes := if own == None || own == Some(0) then 10 else own.value;
                    s.due[key := At(now + Microseconds(minutes))]
  {
  }

  // ------------------------------------------------------------------ //
  // What the values decide
  // ------------------------------------------------------------------ //

  lemma EffectiveIs(s: Store, key: Key, base: Config)
    ensures InForce(s, key, base, Effective(s, key, base))
    ensures forall v :: InForce(s, key, base, v) ==> Effective(s, key, base) == v
  {
  }

  /** Threshold, in a cycle in which nothing goes wrong: with a stock listing, a due file is
      acted on exactly when its stock, none counting as zero, is at most the threshold. */
  lemma ThresholdDecides(book: Book, o: CycleOrder, e: Entry, v: int)
    requires book.active != [] && NothingGoesWrong(book.sched, o)
    requires o.cleanup && e in Opening(book, o).1 && o.report.Answer? && o.report.stock != []
    requires ThresholdIs(book.sched, KeyOf(e), o.base, v)
    ensures
      var have := CountryNames.Find(o.report.stock, e.country);
      (exists d <- Cycle(book, o).1 :: Refilling(d) && d.entry == e) <==>
        (if have.Some? then have.value else 0) <= v
  {
    EveryShortFileIsHandled(book, o, e);
    EffectiveIs(book.sched, KeyOf(e), o.base);
    assert RanShort(book.sched, o, e) <==> Or(CountryNames.Find(o.report.stock, e.country), 0) <= v;
    hide Cycle, Opening, Effective, CountryNames.Find;
  }

  /** Without a listing, the one number decides for every due file, by the general threshold. */
  lemma QuotaDecides(book: Book, o: CycleOrder, e: Entry, quota: Option<int>)
    requires book.active != [] && NothingGoesWrong(book.sched, o)
    requires o.cleanup && e in Opening(book, o).1 && o.report == Answer([], quota)
    ensures (exists d <- Cycle(book, o).1 :: Refilling(d) && d.entry == e) <==>
              quota.Some? && quota.value <= o.base.threshold
  {
    EveryShortFileIsHandled(book, o, e);
    assert RanShort(book.sched, o, e) <==> quota.Some? && quota.value <= o.base.threshold;
    hide Cycle, Opening, Effective, CountryNames.Find;
  }

  /** Threshold and start time, in a start: a file waits for its country's start time, if the
      start respects it and it is not a word for now; otherwise it is held back exactly when
      the listing has the country above its threshold. */
  lemma StartDecides(book: Book, o: StartOrder, i: nat, threshold: int, startAt: string)
    requires Start(book, o).ok && i < |book.queue|
    requires ThresholdIs(book.sched, KeyOf(book.queue[i]), o.base, threshold)
    requires StartAtIs(book.sched, KeyOf(book.queue[i]), o.base, startAt)
    ensures
      var e, active := book.queue[i], Start(book, o).book.active;
      var have := CountryNames.Find(o.stock, e.country);
      && |active| >= |book.queue|
      && var started := active[|active| - |book.queue| + i];
         && started.id == e.id && started.country == e.country
         && if o.respect && !IsNow(Strip(startAt)) then started.waiting == Strip(startAt)
            else started.waiting == "" && (started.held <==> o.stock != [] && have.Some? && have.value > threshold)
  {
    var e := book.queue[i];
    EffectiveIs(book.sched, KeyOf(e), o.base);
    PlanSays(book.sched, o, e);
    StartEndsWithTheQueue(book, o);
    hide Start, Effective, PlanOf, Marked, CountryNames.Find, Strip, IsNow, NeedsAdd;
  }

  lemma StartEndsWithTheQueue(book: Book, o: StartOrder)
    requires Start(book, o).ok
    ensures
      var active := Start(book, o).book.active;
      && |active| >= |book.queue|
      && forall i :: 0 <= i < |book.queue| ==>
           active[|active| - |book.queue| + i] == Marked(book.queue[i], PlanOf(book.sched, o, book.queue[i]))
  {
    hide PlanOf, Marked, ArmAll, Where;
    var front := Where(book.active, NotIn(Labels(book.queue)));
    var marked := Planned(book.sched, o, book.queue);
    assert Start(book, o).book.active == front + marked;
  }

  /** Interval and pause, in a check by timers: a listed, started country that is not paused
      is reported when its timer has run out, and its timer is set to its own interval, by a
      minute at least, when it has run out or there is none; every other timer stands. */
  lemma TimersDecide(s: Store, countries: seq<string>, base: Config, now: int, key: Key, interval: int, paused: bool)
    requires IntervalIs(s, key, base, interval) && PausedIs(s, key, base, paused)
    ensures
      var (due, ready) := DuePass(s, s.due, countries, base, now);
      var listed := exists c <- countries :: Normalise(c) == key;
      var mine := listed && !paused && HasStarted(s, key, base, now);
      var runOut := key in s.due && s.due[key].At? && s.due[key].t <= now;
      var unset := key !in s.due || !s.due[key].At?;
      && ((exists c <- ready :: Normalise(c) == key) <==> mine && runOut)
      && (if mine && (runOut || unset) then
            key in due && due[key] == At(now + Microseconds(interval))
          else (key in due <==> key in s.due) && (key in due ==> due[key] == s.due[key]))
  {
    EffectiveIs(s, key, base);
    DuePassIsExact(s, s.due, countries, base, now, key);
    hide Effective, HasStarted, DuePass, Normalise;
  }

  /** Interval, in a check that a person asks for, which looks at neither pause nor timer. */
  lemma ForcedCheckDecides(s: Store, labels: seq<string>, base: Config, now: int, key: Key, interval: int)
    requires IntervalIs(s, key, base, interval)
    ensures
      var (n, ready) := ReadyCheck(s, labels, base, true, now);
      && ((exists c <- ready :: Normalise(c) == key) <==>
            (exists c <- labels :: Normalise(c) == key) && HasStarted(s, key, base, now))
      && ((exists c <- ready :: Normalise(c) == key) ==>
            key in n.due && n.due[key] == At(now + Microseconds(interval)))
  {
    EffectiveIs(s, key, base);
    ReadyIsExact(s, labels, base, true, now, key);
    hide Effective, HasStarted, ReadyCheck, Normalise;
  }

  /** Interval, in a start. */
  lemma StartTimersDecide(book: Book, o: StartOrder, i: nat, interval: int)
    requires Start(book, o).ok && LastOfItsKey(book.queue, i)
    requires IntervalIs(book.sched, KeyOf(book.queue[i]), o.base, interval)
    ensures
      var key, n := KeyOf(book.queue[i]), Start(book, o).book.sched;
      key in n.due && n.due[key] == At(o.armAt(i) + Microseconds(interval))
  {
    EffectiveIs(book.sched, KeyOf(book.queue[i]), o.base);
    StartedWhenPlanned(book, o, i, o.base, 0);
    hide Effective, Start, PlanOf, HasStarted;
  }

  /** Start time, for a country without a run: it has started exactly when that is a word for
      now, or nothing that can be waited for. */
  lemma StartTimeDecides(s: Store, key: Key, base: Config, now: int, startAt: string)
    requires key !in s.runs && StartAtIs(s, key, base, startAt)
    ensures HasStarted(s, key, base, now) <==>
              var clock := ReadClock(Strip(startAt));
              IsNow(startAt) || clock.None? || !clock.value.Valid()
  {
    EffectiveIs(s, key, base);
    UnanchoredGateNeverOpens(s, key, base, now);
    StripTwice(startAt);
    hide Effective, HasStarted, ReadClock;
  }

  /** A run that was begun at a given instant waits for the next showing of its start time
      after that instant, whatever is configured. */
  lemma GivenAnchorDecides(s: Store, key: Key, armed: Stamp, startAt: string, now: int, base: Config, later: int)
    ensures
      var n := Apply(s, Begin(key, armed, startAt), now);
      var from := if armed == Missing then At(now) else armed;
      && key in n.runs && n.runs[key].refills == 0 && n.settings == s.settings && n.due == s.due
      && (from.At? ==>
            (HasStarted(n, key, base, later) <==>
               || IsNow(Strip(startAt))
               || NextOccurrence(Strip(startAt), from.t).None?
               || later >= NextOccurrence(Strip(startAt), from.t).value))
  {
    StripTwice(startAt);
    hide NextOccurrence, Effective;
  }

  /** Refill limit: a started run is out of refills exactly when there is a limit and it has
      been reached. */
  lemma RefillLimitDecides(s: Store, key: Key, base: Config, now: int, limit: int)
    requires RefillLimitIs(s, key, base, limit)
    ensures FinishedReason(s, key, base, now) == RefillsSpent <==>
              && key in s.runs && HasStarted(s, key, base, now)
              && limit != 0 && s.runs[key].refills >= limit
  {
    EffectiveIs(s, key, base);
    hide Effective, HasStarted, EffectiveStart, StopTimePassed, Strip;
  }

  /** Stop time and run length: while a started run still has refills, it is over for its
      stop time exactly when the first showing of that after its clock began has come, and
      otherwise for its length exactly when so many minutes have gone by since. */
  lemma StopAndLengthDecide(s: Store, key: Key, base: Config, now: int, limit: int, stopAt: string, minutes: int)
    requires key in s.runs && s.runs[key].startedAt.At? && s.runs[key].armedAt != Garbled
    requires RefillLimitIs(s, key, base, limit) && StopAtIs(s, key, base, stopAt) && RunLengthIs(s, key, base, minutes)
    requires limit == 0 || s.runs[key].refills < limit
    ensures
      var begins, verdict := ClockBegins(s.runs[key]), FinishedReason(s, key, base, now);
      var started, clock := HasStarted(s, key, base, now), ReadClock(Strip(stopAt));
      var stop := if Strip(stopAt) == "" then None else NextOccurrence(Strip(stopAt), begins);
      var stopped := stop.Some? && now >= stop.value;
      && (verdict == Raises <==> started && Strip(stopAt) != "" && clock.Some? && !clock.value.Valid())
      && (verdict == StopTime <==> started && stopped)
      && (verdict == TimeUp <==>
            && started && !stopped && verdict != Raises
            && minutes != 0 && now >= begins + minutes * 60_000_000)
  {
    EffectiveIs(s, key, base);
    RunClock(s, key, base, now);
    StopAgreesWithNextOccurrence(Strip(stopAt), At(ClockBegins(s.runs[key])), now);
    hide Effective, HasStarted, EffectiveStart, StopTimePassed, NextOccurrence, ReadClock, ClockBegins, Strip;
  }

  /** Hence the four verdicts, and going on, are told apart for every started run. */
  lemma NoRunNoFinish(s: Store, key: Key, base: Config, now: int)
    requires key !in s.runs || !HasStarted(s, key, base, now)
    ensures FinishedReason(s, key, base, now) == Going
  {
    hide HasStarted;
  }
}
