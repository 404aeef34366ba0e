/** Wall-clock times in a fixed UTC+4 zone. Instants are UTC microseconds.

    A stop or start time is stored as text: blank, a word for "straight away", or hours and
    minutes. Reading it takes the integers on both sides of the first colon, whatever they
    are; a pair that is no time of day makes the program raise.

    The next showing of a time is computed on the day of the anchor, in the zone, and moved
    on by one day when that is not after the anchor. */
module Clock {
  import opened Options
  import opened Text

  const MINUTE := 60_000_000
  const HOUR := 3_600_000_000
  const DAY := 86_400_000_000
  const DUBAI_OFFSET := 14_400_000_000

  const NOW_WORDS: set<string> := {"now", "ekhoni", "ekhuni"}

  /** A stored timestamp: absent, unreadable, or an instant. */
  datatype Stamp = Missing | Garbled | At(t: int)

  datatype HourMinute = HourMinute(h: int, m: int) {
    predicate Valid() { 0 <= h <= 23 && 0 <= m <= 59 }
  }

  /** Blank, or a word for "straight away". */
  predicate IsNow(value: string) {
    Strip(value) == "" || Lower(Strip(value)) in NOW_WORDS
  }

  /** Nothing else is. */
  lemma IsNowIff(value: string)
    ensures IsNow(value) <==>
              var word := Lower(Strip(value));
              word == "" || word == "now" || word == "ekhoni" || word == "ekhuni"
  {
    hide Strip;
  }

  function IndexOf(s: string, c: char): (i: nat)
    ensures i <= |s|
    ensures forall k :: 0 <= k < i ==> s[k] != c
    ensures i < |s| ==> s[i] == c
  {
    if s == "" || s[0] == c then 0 else 1 + IndexOf(s[1..], c)
  }

  lemma FirstIndex(s: string, c: char, i: nat)
    requires i < |s| && s[i] == c && forall k :: 0 <= k < i ==> s[k] != c
    ensures IndexOf(s, c) == i
  {
  }

  /** Both sides of the first colon, when there is one and both are integers. */
  function ReadClock(s: string): Option<HourMinute> {
    var i := IndexOf(s, ':');
    if i == |s| then None
    else
      var h, m := ReadInt(s[..i]), ReadInt(s[i + 1..]);
      if h.Some? && m.Some? then Some(HourMinute(h.value, m.value)) else None
  }

  // ------------------------------------------------------------------ //
  // Parsing a stop time
  // ------------------------------------------------------------------ //

  /** What the checks look at, once the common shorthands are undone. */
  function Tidy(text: string): string {
    Without(Replace(Strip(text), '.', ':'), ' ')
  }

  function WithColon(raw: string): string {
    if ':' !in raw && AllDigits(raw) && (|raw| == 3 || |raw| == 4)
    then raw[..|raw| - 2] + ":" + raw[|raw| - 2..]
    else raw
  }

  function ParseStopTime(text: string): Result<string> {
    var raw := Tidy(text);
    if raw == "" then Ok("")
    else if Lower(raw) in NOW_WORDS then Ok(Lower(raw))
    else
      var clock := ReadClock(WithColon(raw));
      if clock.None? then Err("not HH:MM")
      else if !clock.value.Valid() then Err("out of range")
      else Ok(TwoDigits(clock.value.h) + ":" + TwoDigits(clock.value.m))
  }

  /** "HH:MM" of a real time of day, two digits each. */
  ghost predicate IsClockText(s: string) {
    exists h, m :: 0 <= h <= 23 && 0 <= m <= 59 && s == TwoDigits(h) + ":" + TwoDigits(m)
  }

  lemma ClockTextReads(h: nat, m: nat)
    requires h <= 23 && m <= 59
    ensures var s := TwoDigits(h) + ":" + TwoDigits(m);
            && Tidy(s) == s && WithColon(s) == s
            && ReadClock(s) == Some(HourMinute(h, m))
            && Lower(s) !in NOW_WORDS
  {
    var s := TwoDigits(h) + ":" + TwoDigits(m);
    StripKeepsTight(s);
    assert Replace(s, '.', ':') == s;
    WithoutKeeps(s, ' ');
    FirstIndex(s, ':', 2);
    assert s[..2] == TwoDigits(h) && s[3..] == TwoDigits(m);
    TwoDigitsRead(h);
    TwoDigitsRead(m);
    assert Lower(s)[0] == s[0];
  }

  /** What is stored is blank, a "now" word, or a real time of day in HH:MM, and it is the
      time the tidied text names. Text is refused exactly when it is none of these. */
  lemma ParseStopTimeIsExact(text: string)
    ensures
      var raw, clock := Tidy(text), ReadClock(WithColon(Tidy(text)));
      match ParseStopTime(text)
      case Ok(v) =>
        || (raw == "" && v == "")
        || (raw != "" && Lower(raw) in NOW_WORDS && v == Lower(raw))
        || (raw != "" && Lower(raw) !in NOW_WORDS && IsClockText(v) && ReadClock(v) == clock)
      case Err(_) =>
        raw != "" && Lower(raw) !in NOW_WORDS && (clock.None? || !clock.value.Valid())
  {
    var clock := ReadClock(WithColon(Tidy(text)));
    if clock.Some? && clock.value.Valid() {
      ClockTextReads(clock.value.h, clock.value.m);
    }
  }

  /** Parsing what was stored stores it again. */
  lemma ParseStopTimeIdempotent(text: string)
    requires ParseStopTime(text).Ok?
    ensures ParseStopTime(ParseStopTime(text).value) == ParseStopTime(text)
  {
    var v := ParseStopTime(text).value;
    var raw := Tidy(text);
    if raw != "" && Lower(raw) in NOW_WORDS {
      NowWordsAreTidy(v);
    } else if raw != "" {
      var clock := ReadClock(WithColon(raw)).value;
      ClockTextReads(clock.h, clock.m);
    }
  }

  /** The shorthands: a dot for the colon, or no colon at all. */
  lemma ShorthandsRead(h: nat, m: nat)
    requires h <= 23 && m <= 59
    ensures
      var hh, mm := TwoDigits(h), TwoDigits(m);
      ParseStopTime(hh + "." + mm) == Ok(hh + ":" + mm) == ParseStopTime(hh + mm)
  {
    var hh, mm := TwoDigits(h), TwoDigits(m);
    var whole := hh + ":" + mm;
    ClockTextReads(h, m);
    DottedIsTidy(hh, mm);
    BareIsTidy(hh, mm);
    hide ReadClock, Without, Strip, Lower, Replace, Tidy, WithColon;
  }

  lemma DottedIsTidy(hh: string, mm: string)
    requires AllDigits(hh) && AllDigits(mm) && |hh| == |mm| == 2
    ensures Tidy(hh + "." + mm) == hh + ":" + mm
  {
    var dotted := hh + "." + mm;
    assert hh[0] in hh && hh[1] in hh && mm[0] in mm && mm[1] in mm;
    StripKeepsTight(dotted);
    hide Strip;
    assert Replace(dotted, '.', ':') == hh + ":" + mm;
    WithoutKeeps(hh + ":" + mm, ' ');
  }

  lemma BareIsTidy(hh: string, mm: string)
    requires AllDigits(hh) && AllDigits(mm) && |hh| == |mm| == 2
    ensures Tidy(hh + mm) == hh + mm && WithColon(hh + mm) == hh + ":" + mm && Lower(hh + mm) !in NOW_WORDS
  {
    var bare := hh + mm;
    forall i | 0 <= i < 4 ensures IsDigit(bare[i]) {
      assert if i < 2 then bare[i] == hh[i] && hh[i] in hh else bare[i] == mm[i - 2] && mm[i - 2] in mm;
    }
    StripKeepsTight(bare);
    hide Strip;
    assert Replace(bare, '.', ':') == bare;
    WithoutKeeps(bare, ' ');
    hide Without, Replace;
    assert bare[..2] == hh && bare[2..] == mm;
    assert Lower(bare)[0] == bare[0] == hh[0];
  }

  lemma NowWordsAreTidy(word: string)
    requires word in NOW_WORDS
    ensures Tidy(word) == word && Lower(word) == word && word != ""
  {
    assert word != "" && forall i :: 0 <= i < |word| ==> 'a' <= word[i] <= 'z';
    LettersAreTidy(word);
  }

  lemma LettersAreTidy(word: string)
    requires word != "" && forall i :: 0 <= i < |word| ==> 'a' <= word[i] <= 'z'
    ensures Tidy(word) == word && Lower(word) == word
  {
    StripKeepsTight(word);
    assert Replace(word, '.', ':') == word;
    WithoutKeeps(word, ' ');
  }

  // ------------------------------------------------------------------ //
  // The next time the clock shows HH:MM
  // ------------------------------------------------------------------ //

  /** The Dubai clock shows exactly h:m, to the microsecond. */
  predicate Shows(t: int, h: int, m: int) {
    var local := t + 4 * 3_600_000_000;
    (local / 3_600_000_000) % 24 == h && (local / 60_000_000) % 60 == m && local % 60_000_000 == 0
  }

  /** The given time on the Dubai calendar day of `anchor`. */
  function SameDay(anchor: int, clock: HourMinute): int {
    var local := anchor + DUBAI_OFFSET;
    local - local % DAY + clock.h * HOUR + clock.m * MINUTE - DUBAI_OFFSET
  }

  function NextAt(clock: HourMinute, anchor: int): int {
    var today := SameDay(anchor, clock);
    if today <= anchor then today + DAY else today
  }

  function NextOccurrence(clock: string, anchor: int): Option<int> {
    var c := ReadClock(clock);
    if c.None? || !c.value.Valid() then None else Some(NextAt(c.value, anchor))
  }

  lemma ShowsByDay(t: int, clock: HourMinute)
    requires clock.Valid()
    ensures Shows(t, clock.h, clock.m) <==>
            (t + DUBAI_OFFSET) % DAY == clock.h * HOUR + clock.m * MINUTE
  {
    var local := t + DUBAI_OFFSET;
    var day, within := local / DAY, local % DAY;
    var hour, rest := within / HOUR, within % HOUR;
    var minute, sub := rest / MINUTE, rest % MINUTE;
    assert local == day * DAY + within && within == hour * HOUR + rest && rest == minute * MINUTE + sub;
    assert 0 <= hour < 24 && 0 <= minute < 60;
    DivModUnique(local, HOUR, day * 24 + hour, rest);
    DivModUnique(local, MINUTE, (day * 24 + hour) * 60 + minute, sub);
    DivModUnique(day * 24 + hour, 24, day, hour);
    DivModUnique((day * 24 + hour) * 60 + minute, 60, day * 24 + hour, minute);
    DivModUnique(clock.h * HOUR + clock.m * MINUTE, HOUR, clock.h, clock.m * MINUTE);
    DivModUnique(clock.m * MINUTE, MINUTE, clock.m, 0);
  }

  lemma DivModUnique(x: int, d: int, q: int, r: int)
    requires d > 0 && x == d * q + r && 0 <= r < d
    ensures x / d == q && x % d == r
  {
    var k := x / d - q;
    assert d * k == r - x % d;
    MultipleIsLarge(d, k);
  }

  lemma MultipleIsLarge(d: int, k: int)
    requires d > 0
    ensures k >= 1 ==> d * k >= d
    ensures k <= -1 ==> d * k <= -d
  {
  }

  /** Strictly within a day before a multiple plus offset, no other one lies. */
  lemma NotBetween(local: int, k: int, offset: int)
    requires 0 <= offset < DAY
    requires (k - 1) * DAY + offset < local < k * DAY + offset
    ensures local % DAY != offset
  {
    if local >= k * DAY {
      DivModUnique(local, DAY, k, local - k * DAY);
    } else {
      DivModUnique(local, DAY, k - 1, local - (k - 1) * DAY);
    }
  }

  /** The next occurrence is the least instant strictly after the anchor at which the
      Dubai clock shows that time, and it is never more than a day away. */
  lemma NextAtIsLeast(clock: HourMinute, anchor: int)
    requires clock.Valid()
    ensures var r := NextAt(clock, anchor);
            && anchor < r <= anchor + DAY
            && Shows(r, clock.h, clock.m)
            && forall t :: anchor < t < r ==> !Shows(t, clock.h, clock.m)
  {
    hide Shows;
    var r := NextAt(clock, anchor);
    var offset := clock.h * HOUR + clock.m * MINUTE;
    assert 0 <= offset < DAY;
    var day := (anchor + DUBAI_OFFSET) / DAY;
    assert SameDay(anchor, clock) + DUBAI_OFFSET == day * DAY + offset;
    var k := if SameDay(anchor, clock) <= anchor then day + 1 else day;
    assert r + DUBAI_OFFSET == k * DAY + offset;
    assert (r + DUBAI_OFFSET) % DAY == offset by {
      DivModUnique(r + DUBAI_OFFSET, DAY, k, offset);
    }
    ShowsByDay(r, clock);
    forall t | anchor < t < r ensures !Shows(t, clock.h, clock.m) {
      NotBetween(t + DUBAI_OFFSET, k, offset);
      ShowsByDay(t, clock);
    }
  }

  /** An unusable clock string has no next occurrence; a usable one always has. */
  lemma NextOccurrenceDefined(clock: string, anchor: int)
    ensures NextOccurrence(clock, anchor).Some? <==>
            ReadClock(clock).Some? && ReadClock(clock).value.Valid()
    ensures NextOccurrence(clock, anchor).Some? ==>
              var c := ReadClock(clock).value;
              var r := NextOccurrence(clock, anchor).value;
              forall t :: Shows(t, c.h, c.m) && t > anchor ==> r <= t
  {
    if NextOccurrence(clock, anchor).Some? {
      NextAtIsLeast(ReadClock(clock).value, anchor);
    }
  }

  // ------------------------------------------------------------------ //
  // Has a time come?
  // ------------------------------------------------------------------ //

  /** An answer, or an exception that escapes to the caller. */
  datatype Answer = Raised | Says(yes: bool)

  function StopTimePassed(stopAt: string, started: Stamp, now: int): Answer {
    var clock := ReadClock(stopAt);
    if clock.None? then Says(false)
    else if !clock.value.Valid() then Raised
    else
      var began := if started.At? then started.t else now;
      var today := SameDay(began, clock.value);
      var target := if today <= began then today + DAY else today;
      Says(now >= target)
  }

  function StartTimeReached(startAt: string, armed: Stamp, now: int): bool {
    var clock := Strip(startAt);
    if IsNow(startAt) then true
    else
      var begins := NextOccurrence(clock, if armed.At? then armed.t else now);
      begins.None? || now >= begins.value
  }

  /** When a gate armed at `armed` opens; None when there is nothing to wait for. */
  function StartsAt(startAt: string, armed: Stamp, now: int): Option<int> {
    var clock := Strip(startAt);
    if clock == "" then None
    else NextOccurrence(clock, if armed.At? then armed.t else now)
  }

  /** The two computations of the target agree: a stop time has passed exactly when its
      next occurrence after the start is not in the future. It raises exactly on a pair
      of integers that is no time of day, and without a usable start it never passes. */
  lemma StopAgreesWithNextOccurrence(stopAt: string, started: Stamp, now: int)
    ensures StopTimePassed(stopAt, started, now) == Raised <==>
            ReadClock(stopAt).Some? && !ReadClock(stopAt).value.Valid()
    ensures StopTimePassed(stopAt, started, now) == Says(true) <==>
            && started.At?
            && NextOccurrence(stopAt, started.t).Some?
            && now >= NextOccurrence(stopAt, started.t).value
  {
    if ReadClock(stopAt).Some? && ReadClock(stopAt).value.Valid() {
      NextAtIsLeast(ReadClock(stopAt).value, now);
    }
  }
}
