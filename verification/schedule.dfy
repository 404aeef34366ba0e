/** Per-country settings, timers, start gates and finish lines. */
module Schedule {
  import opened Options
  import opened Powers
  import opened Text
  import opened Clock

  // `Store` is what the database holds; the functions on it are the operations; the
  // class `Scheduler` performs them in place. Each operation sees one reading of the
  // clock. Intervals are minutes, instants are microseconds.

  type Key = string

  /** One country's overrides; None hands the field back to the global value. */
  datatype Settings = Settings(
    interval: Option<int>, threshold: Option<int>, maxRefills: Option<int>,
    runMinutes: Option<int>, paused: Option<bool>, stopAt: Option<string>, startAt: Option<string>)

  const NO_SETTINGS := Settings(None, None, None, None, None, None, None)

  datatype Config = Config(
    interval: int, threshold: int, maxRefills: int,
    runMinutes: int, paused: bool, stopAt: string, startAt: string)

  /** What a caller asks to change about one field. */
  datatype Change<T> = Keep | Clear | Put(value: T)

  datatype Patch = Patch(
    interval: Change<int>, threshold: Change<int>, maxRefills: Change<int>,
    runMinutes: Change<int>, paused: Change<bool>, stopAt: Change<string>, startAt: Change<string>)

  const NO_CHANGE := Patch(Keep, Keep, Keep, Keep, Keep, Keep, Keep)

  datatype RunState = RunState(startedAt: Stamp, armedAt: Stamp, refills: int, gate: string)

  datatype Store = Store(settings: map<Key, Settings>, due: map<Key, Stamp>, runs: map<Key, RunState>)

  // ------------------------------------------------------------------ //
  // Settings
  // ------------------------------------------------------------------ //

  function Or<T>(own: Option<T>, base: T): T { if own.Some? then own.value else base }

  function Own(store: Store, key: Key): Settings {
    if key in store.settings then store.settings[key] else NO_SETTINGS
  }

  function Effective(store: Store, key: Key, base: Config): Config {
    var own := Own(store, key);
    Config(Or(own.interval, base.interval), Or(own.threshold, base.threshold),
           Or(own.maxRefills, base.maxRefills), Or(own.runMinutes, base.runMinutes),
           Or(own.paused, base.paused), Or(own.stopAt, base.stopAt), Or(own.startAt, base.startAt))
  }

  function Changed<T>(own: Option<T>, change: Change<T>): Option<T> {
    match change case Keep => own case Clear => None case Put(v) => Some(v)
  }

  function SetSettings(store: Store, key: Key, p: Patch): Store {
    var own := Own(store, key);
    store.(settings := store.settings[key := Settings(
      Changed(own.interval, p.interval), Changed(own.threshold, p.threshold),
      Changed(own.maxRefills, p.maxRefills), Changed(own.runMinutes, p.runMinutes),
      Changed(own.paused, p.paused), Changed(own.stopAt, p.stopAt), Changed(own.startAt, p.startAt))])
  }

  // ------------------------------------------------------------------ //
  // Runs, gates and finish lines
  // ------------------------------------------------------------------ //

  function FirstStamp(a: Stamp, b: Stamp): Stamp { if a == Missing then b else a }

  function Anchor(run: RunState): Stamp { FirstStamp(run.armedAt, run.startedAt) }

  function BeginRun(store: Store, key: Key, armed: Stamp, startAt: string, now: int): Store {
    store.(runs := store.runs[key := RunState(At(now), FirstStamp(armed, At(now)), 0, Strip(startAt))])
  }

  function RecordRefill(store: Store, key: Key, now: int): Store {
    var run := if key in store.runs then store.runs[key] else RunState(At(now), Missing, 0, "");
    store.(runs := store.runs[key := run.(refills := run.refills + 1)])
  }

  function ClearRun(store: Store, key: Key): Store { store.(runs := store.runs - {key}) }

  function HasStarted(store: Store, key: Key, base: Config, now: int): bool {
    if key in store.runs then
      var run := store.runs[key];
      IsNow(Strip(run.gate)) || StartTimeReached(Strip(run.gate), Anchor(run), now)
    else
      var startAt := Strip(Effective(store, key, base).startAt);
      IsNow(startAt) || StartTimeReached(startAt, Missing, now)
  }

  /** When the run's own clock began: its gate's opening, or its start when ungated. */
  function EffectiveStart(run: RunState, now: int): Stamp {
    var gate := Strip(run.gate);
    if IsNow(gate) then run.startedAt
    else
      var began := StartsAt(gate, Anchor(run), now);
      if began.None? then run.startedAt else At(began.value)
  }

  datatype Finish = Raises | Going | RefillsSpent | StopTime | TimeUp

  function FinishedReason(store: Store, key: Key, base: Config, now: int): Finish {
    if key !in store.runs || !HasStarted(store, key, base, now) then Going
    else
      var cfg, run := Effective(store, key, base), store.runs[key];
      var stopAt, began := Strip(cfg.stopAt), EffectiveStart(run, now);
      var stopped := if stopAt == "" then Says(false) else StopTimePassed(stopAt, began, now);
      if cfg.maxRefills != 0 && run.refills >= cfg.maxRefills then RefillsSpent
      else if stopped == Raised then Raises
      else if stopped == Says(true) then StopTime
      else if cfg.runMinutes != 0 && began.At? && now >= began.t + cfg.runMinutes * MINUTE then TimeUp
      else Going
  }

  // ------------------------------------------------------------------ //
  // Timers
  // ------------------------------------------------------------------ //

  function After(now: int, minutes: int): Stamp { At(now + Max(1, minutes) * MINUTE) }

  function Arm(store: Store, key: Key, minutes: int, now: int): Store {
    store.(due := store.due[key := After(now, minutes)])
  }

  function Forget(store: Store, key: Key): Store {
    store.(due := store.due - {key}, settings := store.settings - {key})
  }

  function SetPaused(store: Store, key: Key, paused: bool, now: int): Store {
    var applied := SetSettings(store, key, NO_CHANGE.(paused := Put(paused)));
    if paused then applied
    else
      var own := Own(applied, key).interval;
      Arm(applied, key, if own.Some? && own.value != 0 then own.value else 10, now)
  }

  function AsChange<T>(field: Option<T>): Change<T> {
    if field.Some? then Put(field.value) else Keep
  }

  function ApplyPreset(store: Store, key: Key, preset: Settings, now: int): Store {
    var applied := SetSettings(store, key, Patch(
      AsChange(preset.interval), AsChange(preset.threshold), AsChange(preset.maxRefills),
      AsChange(preset.runMinutes), AsChange(preset.paused), AsChange(preset.stopAt),
      AsChange(preset.startAt)));
    if preset.interval.Some? then Arm(applied, key, preset.interval.value, now) else applied
  }

  /** A country whose timer may be looked at: not paused, and past its start gate. */
  predicate Eligible(store: Store, key: Key, base: Config, now: int) {
    !Effective(store, key, base).paused && HasStarted(store, key, base, now)
  }

  predicate Expired(due: map<Key, Stamp>, key: Key, now: int) {
    key in due && due[key].At? && due[key].t <= now
  }

  predicate Unarmed(due: map<Key, Stamp>, key: Key) {
    key !in due || !due[key].At?
  }

  /** One country of a pass: its timers afterwards. The country fires when it was expired. */
  function DueOne(store: Store, due: map<Key, Stamp>, key: Key, base: Config, now: int): map<Key, Stamp> {
    if Eligible(store, key, base, now) && (Unarmed(due, key) || Expired(due, key, now))
    then due[key := After(now, Effective(store, key, base).interval)]
    else due
  }

  /** A whole pass over a list of country names, left to right. */
  function DuePass(store: Store, due: map<Key, Stamp>, countries: seq<string>, base: Config, now: int)
      : (map<Key, Stamp>, seq<string>)
    decreases |countries|
  {
    if countries == [] then (due, [])
    else
      var key := Normalise(countries[0]);
      var rest := DuePass(store, DueOne(store, due, key, base, now), countries[1..], base, now);
      var fires := Eligible(store, key, base, now) && Expired(due, key, now);
      (rest.0, if fires then [countries[0]] + rest.1 else rest.1)
  }

  predicate Listed(countries: seq<string>, key: Key) {
    exists c <- countries :: Normalise(c) == key
  }

  /** The pass in one line per country: an eligible listed country that has no readable
      timer is armed, one whose timer has run out is reported and re-armed on its own
      interval, and every other timer is left exactly as it was. */
  lemma {:induction false} DuePassIsExact(store: Store, due: map<Key, Stamp>, countries: seq<string>,
                                          base: Config, now: int, key: Key)
    ensures var (due', ready) := DuePass(store, due, countries, base, now);
            var touched := Listed(countries, key) && Eligible(store, key, base, now)
                           && (Unarmed(due, key) || Expired(due, key, now));
            && (key in due' <==> key in due || touched)
            && (key in due' ==>
                  due'[key] == if touched then After(now, Effective(store, key, base).interval)
                               else due[key])
            && (Listed(ready, key) <==>
                  Listed(countries, key) && Eligible(store, key, base, now) && Expired(due, key, now))
            && (forall c <- ready :: c in countries)
    decreases |countries|
  {
    if countries != [] {
      var head := Normalise(countries[0]);
      var due1 := DueOne(store, due, head, base, now);
      DuePassIsExact(store, due1, countries[1..], base, now, key);
      assert Listed(countries, key) <==> head == key || Listed(countries[1..], key);
      var rest := DuePass(store, due1, countries[1..], base, now).1;
      var ready := DuePass(store, due, countries, base, now).1;
      assert ready != rest ==> ready == [countries[0]] + rest;
      assert ready == [countries[0]] + rest ==>
          (Listed(ready, key) <==> head == key || Listed(rest, key)) by {
        if ready == [countries[0]] + rest {
          assert ready[0] == countries[0];
          assert forall c <- rest :: c in ready;
        }
      }
    }
  }

  /** However often a country is listed, and however it is spelled, one pass reports it
      at most once. */
  lemma {:induction false} OnePassFiresOnce(store: Store, due: map<Key, Stamp>, countries: seq<string>,
                                            base: Config, now: int)
    ensures var ready := DuePass(store, due, countries, base, now).1;
            forall i, j :: 0 <= i < j < |ready| ==> Normalise(ready[i]) != Normalise(ready[j])
    decreases |countries|
  {
    if countries != [] {
      var head := Normalise(countries[0]);
      var due1 := DueOne(store, due, head, base, now);
      OnePassFiresOnce(store, due1, countries[1..], base, now);
      DuePassIsExact(store, due1, countries[1..], base, now, head);
      var rest := DuePass(store, due1, countries[1..], base, now).1;
      if Eligible(store, head, base, now) && Expired(due, head, now) {
        assert !Expired(due1, head, now);
        assert !Listed(rest, head);
        assert forall c <- rest :: Normalise(c) != head;
      }
    }
  }

  // ------------------------------------------------------------------ //
  // Histories
  // ------------------------------------------------------------------ //

  datatype Op =
    | Check(countries: seq<string>, base: Config)
    | Rearm(key: Key, minutes: int)
    | Pause(key: Key, paused: bool)
    | Preset(key: Key, preset: Settings)
    | Change(key: Key, patch: Patch)
    | Drop(key: Key)
    | Begin(key: Key, armed: Stamp, startAt: string)
    | Refill(key: Key)
    | ClearState(key: Key)

  function Apply(store: Store, op: Op, now: int): Store {
    match op
    case Check(countries, base) => store.(due := DuePass(store, store.due, countries, base, now).0)
    case Rearm(key, minutes) => Arm(store, key, minutes, now)
    case Pause(key, paused) => SetPaused(store, key, paused, now)
    case Preset(key, preset) => ApplyPreset(store, key, preset, now)
    case Change(key, patch) => SetSettings(store, key, patch)
    case Drop(key) => Forget(store, key)
    case Begin(key, armed, startAt) => BeginRun(store, key, armed, startAt, now)
    case Refill(key) => RecordRefill(store, key, now)
    case ClearState(key) => ClearRun(store, key)
  }

  predicate Fires(store: Store, op: Op, now: int, key: Key) {
    op.Check? && Listed(DuePass(store, store.due, op.countries, op.base, now).1, key)
  }

  /** Restarts or removes this country's timer by hand. */
  predicate Retimes(op: Op, key: Key) {
    match op
    case Rearm(k, _) => k == key
    case Pause(k, paused) => k == key && !paused
    case Preset(k, preset) => k == key && preset.interval.Some?
    case Drop(k) => k == key
    case _ => false
  }

  datatype Event = Event(op: Op, at: int)

  predicate Ordered(events: seq<Event>) {
    forall i, j :: 0 <= i <= j < |events| ==> events[i].at <= events[j].at
  }

  function Replay(store: Store, events: seq<Event>): Store
    decreases |events|
  {
    if events == [] then store
    else Replay(Apply(store, events[0].op, events[0].at), events[1..])
  }

  /** No timer of this country can run out before `t`. */
  predicate QuietUntil(store: Store, key: Key, t: int) {
    key in store.due && store.due[key].At? ==> store.due[key].t >= t
  }

  /** A firing leaves a timer that runs out no earlier than its own interval later. */
  lemma FiringRearms(store: Store, op: Op, now: int, key: Key)
    requires Fires(store, op, now, key)
    ensures var d := Apply(store, op, now).due;
            key in d && d[key] == After(now, Effective(store, key, op.base).interval)
  {
    DuePassIsExact(store, store.due, op.countries, op.base, now, key);
  }

  /** Nothing that happens later brings a timer closer than a minute after `t`, and only a
      hand re-timing can move a set timer at all before it runs out. */
  lemma QuietPersists(store: Store, op: Op, now: int, key: Key, t: int, until: int)
    requires t <= now
    ensures QuietUntil(store, key, t + MINUTE) && !Fires(store, op, now, key) ==>
              QuietUntil(Apply(store, op, now), key, t + MINUTE)
    ensures key in store.due && store.due[key] == At(until) && !Retimes(op, key)
              && !Fires(store, op, now, key) ==>
              && key in Apply(store, op, now).due
              && Apply(store, op, now).due[key] == At(until)
  {
    if op.Check? {
      DuePassIsExact(store, store.due, op.countries, op.base, now, key);
    }
  }

  /** From a quiet moment on, the last event of a stretch can only fire a minute later,
      and not before the timer that was set, if nothing re-timed it. */
  lemma {:induction false} NextFiring(store: Store, events: seq<Event>, key: Key,
                                      t: int, until: int, untouched: bool)
    requires events != [] && Ordered(events) && t <= events[0].at
    requires QuietUntil(store, key, t + MINUTE)
    requires untouched ==>
               && key in store.due && store.due[key] == At(until)
               && forall i :: 0 <= i < |events| - 1 ==> !Retimes(events[i].op, key)
    requires var last := events[|events| - 1];
             Fires(Replay(store, events[..|events| - 1]), last.op, last.at, key)
    ensures events[|events| - 1].at >= t + MINUTE
    ensures untouched ==> events[|events| - 1].at >= until
    decreases |events|
  {
    var e := events[0];
    if e.op.Check? {
      DuePassIsExact(store, store.due, e.op.countries, e.op.base, e.at, key);
    }
    if |events| > 1 && !Fires(store, e.op, e.at, key) {
      QuietPersists(store, e.op, e.at, key, t, until);
      assert events[..|events| - 1][1..] == events[1..][..|events| - 2];
      NextFiring(Apply(store, e.op, e.at), events[1..], key, t, until, untouched);
    }
  }

  /** Two firings of one country, whatever re-arms, resumes, presets, forgets and other
      passes lie between them, are at least a minute apart; when nothing in between
      re-times it by hand, at least the interval it had at the first one. */
  lemma TimerSpacing(store: Store, events: seq<Event>, key: Key)
    requires |events| >= 2 && Ordered(events)
    requires Fires(store, events[0].op, events[0].at, key)
    requires var last := events[|events| - 1];
             Fires(Replay(store, events[..|events| - 1]), last.op, last.at, key)
    ensures var first, last := events[0], events[|events| - 1];
            && last.at - first.at >= MINUTE
            && ((forall i :: 0 < i < |events| - 1 ==> !Retimes(events[i].op, key)) ==>
                  last.at - first.at
                    >= Max(1, Effective(store, key, first.op.base).interval) * MINUTE)
  {
    var e := events[0];
    FiringRearms(store, e.op, e.at, key);
    var next := Apply(store, e.op, e.at);
    var rest := events[1..];
    assert events[..|events| - 1][1..] == rest[..|rest| - 1];
    var until := next.due[key].t;
    var untouched := forall i :: 0 <= i < |rest| - 1 ==> !Retimes(rest[i].op, key);
    assert (forall i :: 0 < i < |events| - 1 ==> !Retimes(events[i].op, key)) ==> untouched by {
      assert forall i :: 0 <= i < |rest| - 1 ==> rest[i] == events[i + 1];
    }
    NextFiring(next, rest, key, e.at, until, untouched);
  }

  /** A pass leaves the timers of paused and of not-yet-started countries alone. */
  lemma PausedAndWaitingTimersUntouched(store: Store, countries: seq<string>, base: Config,
                                        now: int, key: Key)
    requires Effective(store, key, base).paused || !HasStarted(store, key, base, now)
    ensures var due' := Apply(store, Check(countries, base), now).due;
            && (key in due' <==> key in store.due)
            && (key in due' ==> due'[key] == store.due[key])
    ensures !Fires(store, Check(countries, base), now, key)
  {
    DuePassIsExact(store, store.due, countries, base, now, key);
  }

  // ------------------------------------------------------------------ //
  // Gate stability
  // ------------------------------------------------------------------ //

  predicate Restarts(op: Op, key: Key) {
    (op.Begin? && op.key == key) || (op.ClearState? && op.key == key)
  }

  lemma GateOpensForGood(gate: string, armed: Stamp, t: int, t': int)
    requires StartTimeReached(gate, armed, t) && t <= t'
    ensures StartTimeReached(gate, armed, t')
  {
    var c := ReadClock(Strip(gate));
    if c.Some? && c.value.Valid() {
      NextAtIsLeast(c.value, t);
      NextAtIsLeast(c.value, t');
    }
  }

  lemma {:induction false} RunIdentityKept(store: Store, events: seq<Event>, key: Key)
    requires key in store.runs
    requires forall e <- events :: !Restarts(e.op, key)
    ensures key in Replay(store, events).runs
    ensures Replay(store, events).runs[key].(refills := 0) == store.runs[key].(refills := 0)
    decreases |events|
  {
    if events != [] {
      assert !Restarts(events[0].op, key);
      RunIdentityKept(Apply(store, events[0].op, events[0].at), events[1..], key);
    }
  }

  /** Once a recorded run has started it stays started: until its run state is begun anew
      or cleared, no passage of time, settings change, preset, pause, refill, timer or
      different global configuration makes it wait again. */
  lemma StartedStaysStarted(store: Store, events: seq<Event>, key: Key,
                            base: Config, now: int, base': Config, now': int)
    requires key in store.runs && HasStarted(store, key, base, now) && now <= now'
    requires forall e <- events :: !Restarts(e.op, key)
    ensures HasStarted(Replay(store, events), key, base', now')
  {
    RunIdentityKept(store, events, key);
    var run := store.runs[key];
    if !IsNow(Strip(run.gate)) {
      GateOpensForGood(Strip(run.gate), Anchor(run), now, now');
    }
  }

  /** Without a run state there is no anchor, so a real start time never arrives: such a
      country has started exactly when its start time is a "now" word or no time of day. */
  lemma UnanchoredGateNeverOpens(store: Store, key: Key, base: Config, now: int)
    requires key !in store.runs
    ensures var startAt := Strip(Effective(store, key, base).startAt);
            HasStarted(store, key, base, now) <==>
              IsNow(startAt) || ReadClock(Strip(startAt)).None? || !ReadClock(Strip(startAt)).value.Valid()
  {
    var c := ReadClock(Strip(Strip(Effective(store, key, base).startAt)));
    if c.Some? && c.value.Valid() {
      NextAtIsLeast(c.value, now);
    }
  }

  // ------------------------------------------------------------------ //
  // The finish instant
  // ------------------------------------------------------------------ //

  /** The instant the run's clock starts, for a run with readable stamps: the opening of
      its gate if it has a usable one, its start otherwise. */
  function ClockBegins(run: RunState): int
    requires run.startedAt.At? && run.armedAt != Garbled
  {
    var gate := Strip(run.gate);
    var opens := NextOccurrence(Strip(gate), Anchor(run).t);
    if IsNow(gate) || opens.None? then run.startedAt.t else opens.value
  }

  function Earlier(a: Option<int>, b: Option<int>): Option<int> {
    if a.None? then b else if b.None? then a else Some(Min(a.value, b.value))
  }

  /** The first stop time after the clock begins, or the end of the run length. */
  function FinishInstant(cfg: Config, begins: int): Option<int> {
    Earlier(if Strip(cfg.stopAt) == "" then None else NextOccurrence(Strip(cfg.stopAt), begins),
            if cfg.runMinutes == 0 then None else Some(begins + cfg.runMinutes * MINUTE))
  }

  predicate TimeFinished(f: Finish) { f == StopTime || f == TimeUp }

  lemma RunClock(store: Store, key: Key, base: Config, now: int)
    requires key in store.runs
    requires store.runs[key].startedAt.At? && store.runs[key].armedAt != Garbled
    ensures var run := store.runs[key];
            && EffectiveStart(run, now) == At(ClockBegins(run))
            && (HasStarted(store, key, base, now) || now < ClockBegins(run))
            && (HasStarted(store, key, base, now) && now < ClockBegins(run) ==>
                  ClockBegins(run) == run.startedAt.t)
  {
    var run := store.runs[key];
    var gate := Strip(run.gate);
    StripTwice(run.gate);
  }

  /** For a run whose refills are not spent, with fixed settings: the verdict on time is
      exactly "the finish instant has come" (once started, should the run length be
      negative). The finish instant lies after the clock's beginning, so a waiting run is
      never finished, finishing is permanent, and a usable stop time ends the run within a
      day of its beginning. */
  lemma FinishInstantIsExact(store: Store, key: Key, base: Config, now: int)
    requires key in store.runs
    requires store.runs[key].startedAt.At? && store.runs[key].armedAt != Garbled
    requires var cfg := Effective(store, key, base);
             cfg.maxRefills == 0 || store.runs[key].refills < cfg.maxRefills
    ensures var cfg := Effective(store, key, base);
            var begins := ClockBegins(store.runs[key]);
            var finish := FinishInstant(cfg, begins);
            var verdict := FinishedReason(store, key, base, now);
            var stop := ReadClock(Strip(cfg.stopAt));
            && (verdict == Raises <==>
                  HasStarted(store, key, base, now) && Strip(cfg.stopAt) != ""
                  && stop.Some? && !stop.value.Valid())
            && (verdict != Raises ==>
                  (TimeFinished(verdict) <==>
                     HasStarted(store, key, base, now) && finish.Some? && now >= finish.value))
            && (cfg.runMinutes >= 0 ==>
                  && (finish.Some? ==> begins < finish.value)
                  && (verdict != Raises && (stop.None? || stop.value.Valid()) ==>
                        (TimeFinished(verdict) <==> finish.Some? && now >= finish.value)))
            && (Strip(cfg.stopAt) != "" && stop.Some? && stop.value.Valid() ==>
                  finish.Some? && finish.value <= begins + DAY)
  {
    var cfg := Effective(store, key, base);
    var begins := ClockBegins(store.runs[key]);
    RunClock(store, key, base, now);
    var stopAt := Strip(cfg.stopAt);
    StopAgreesWithNextOccurrence(stopAt, At(begins), now);
    var stop := ReadClock(stopAt);
    if stop.Some? && stop.value.Valid() { NextAtIsLeast(stop.value, begins); }
  }

  /** A run past its finish instant stays finished while its settings do not change. */
  lemma FinishIsPermanent(store: Store, key: Key, base: Config, now: int, now': int)
    requires key in store.runs
    requires store.runs[key].startedAt.At? && store.runs[key].armedAt != Garbled
    requires now <= now'
    requires var f := FinishedReason(store, key, base, now); f == RefillsSpent || TimeFinished(f)
    ensures var f' := FinishedReason(store, key, base, now'); f' == RefillsSpent || TimeFinished(f')
  {
    StartedStaysStarted(store, [], key, base, now, base, now');
    var cfg := Effective(store, key, base);
    if cfg.maxRefills == 0 || store.runs[key].refills < cfg.maxRefills {
      FinishInstantIsExact(store, key, base, now);
      FinishInstantIsExact(store, key, base, now');
    }
  }

  // ------------------------------------------------------------------ //
  // The scheduler itself
  // ------------------------------------------------------------------ //

  class Scheduler {
    var settings: map<Key, Settings>
    var due: map<Key, Stamp>
    var runs: map<Key, RunState>

    constructor ()
      ensures View() == Store(map[], map[], map[])
    {
      settings, due, runs := map[], map[], map[];
    }

    function View(): Store
      reads this
    {
      Store(settings, due, runs)
    }

    method SetCountrySettings(country: string, patch: Patch)
      modifies this
      ensures View() == Apply(old(View()), Change(Normalise(country), patch), 0)
    {
      var key := Normalise(country);
      var own := if key in settings then settings[key] else NO_SETTINGS;
      settings := settings[key := Settings(
        Changed(own.interval, patch.interval), Changed(own.threshold, patch.threshold),
        Changed(own.maxRefills, patch.maxRefills), Changed(own.runMinutes, patch.runMinutes),
        Changed(own.paused, patch.paused), Changed(own.stopAt, patch.stopAt),
        Changed(own.startAt, patch.startAt))];
    }

    method ArmCountry(country: string, minutes: int, now: int)
      modifies this
      ensures View() == Apply(old(View()), Rearm(Normalise(country), minutes), now)
    {
      due := due[Normalise(country) := After(now, minutes)];
    }

    method ForgetCountry(country: string)
      modifies this
      ensures View() == Apply(old(View()), Drop(Normalise(country)), 0)
      ensures var key := Normalise(country);
              due == old(due) - {key} && settings == old(settings) - {key} && runs == old(runs)
    {
      due := due - {Normalise(country)};
      settings := settings - {Normalise(country)};
    }

    method SetCountryPaused(country: string, paused: bool, now: int)
      modifies this
      ensures View() == Apply(old(View()), Pause(Normalise(country), paused), now)
    {
      SetCountrySettings(country, NO_CHANGE.(paused := Put(paused)));
      if !paused {
        var interval := settings[Normalise(country)].interval;
        ArmCountry(country, if interval.Some? && interval.value != 0 then interval.value else 10, now);
      }
    }

    method ApplyPresetTo(country: string, preset: Settings, now: int)
      modifies this
      ensures View() == Apply(old(View()), Preset(Normalise(country), preset), now)
    {
      SetCountrySettings(country, Patch(
        AsChange(preset.interval), AsChange(preset.threshold), AsChange(preset.maxRefills),
        AsChange(preset.runMinutes), AsChange(preset.paused), AsChange(preset.stopAt),
        AsChange(preset.startAt)));
      if preset.interval.Some? {
        ArmCountry(country, preset.interval.value, now);
      }
    }

    method BeginCountryRun(country: string, armed: Stamp, startAt: string, now: int)
      modifies this
      ensures View() == Apply(old(View()), Begin(Normalise(country), armed, startAt), now)
    {
      runs := runs[Normalise(country) := RunState(At(now), FirstStamp(armed, At(now)), 0, Strip(startAt))];
    }

    method RecordCountryRefill(country: string, now: int) returns (refills: int)
      modifies this
      ensures View() == Apply(old(View()), Refill(Normalise(country)), now)
      ensures refills == runs[Normalise(country)].refills
      ensures var key := Normalise(country);
              runs == old(runs)[key := if key in old(runs)
                                       then old(runs)[key].(refills := old(runs)[key].refills + 1)
                                       else RunState(At(now), Missing, 1, "")]
    {
      var key := Normalise(country);
      var run := if key in runs then runs[key] else RunState(At(now), Missing, 0, "");
      refills := run.refills + 1;
      runs := runs[key := run.(refills := refills)];
    }

    method ClearRunState(country: string)
      modifies this
      ensures View() == Apply(old(View()), ClearState(Normalise(country)), 0)
    {
      runs := runs - {Normalise(country)};
    }

    /** Which countries are due right now; their timers restart, every other one stands. */
    method DueCountries(countries: seq<string>, base: Config, now: int) returns (ready: seq<string>)
      modifies this
      ensures View() == Apply(old(View()), Check(countries, base), now)
      ensures ready == DuePass(old(View()), old(due), countries, base, now).1
      ensures forall i, j :: 0 <= i < j < |ready| ==> Normalise(ready[i]) != Normalise(ready[j])
    {
      ghost var store, whole := View(), DuePass(View(), due, countries, base, now);
      OnePassFiresOnce(store, due, countries, base, now);
      var dueMap := due;
      ready := [];
      var i := 0;
      assert countries[0..] == countries && ready + whole.1 == whole.1;
      while i < |countries|
        invariant 0 <= i <= |countries|
        invariant View() == store
        invariant var rest := DuePass(store, dueMap, countries[i..], base, now);
                  whole == (rest.0, ready + rest.1)
      {
        var key := Normalise(countries[i]);
        assert countries[i..][0] == countries[i] && countries[i..][1..] == countries[i + 1..];
        ghost var tail := DuePass(store, DueOne(store, dueMap, key, base, now), countries[i + 1..], base, now).1;
        assert ready + ([countries[i]] + tail) == ready + [countries[i]] + tail;
        if Eligible(View(), key, base, now) {
          var interval := Effective(View(), key, base).interval;
          if Unarmed(dueMap, key) {
            dueMap := dueMap[key := After(now, interval)];
          } else if Expired(dueMap, key, now) {
            ready := ready + [countries[i]];
            dueMap := dueMap[key := After(now, interval)];
          }
        }
        i := i + 1;
      }
      due := dueMap;
    }
  }
}
