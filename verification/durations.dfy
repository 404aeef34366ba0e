/** Printing a run length for the owner and reading one back.

    A length is printed as whole days, whole hours or minutes. The phrases for "no limit"
    read as none; other text reads as the first amount found in it, or else as a bare
    number of minutes, if that is not too large.

    The duration pattern is a hand-written lexer: a number of at most four digits at a
    word boundary, optional spaces, and a whole word that is a unit. */
module Durations {
  import opened Options
  import opened Text

  const HOUR_UNITS: seq<string> := ["h", "hr", "hrs", "hour", "hours", "ghonta", "ghanta", "ghonda"]
  const MINUTE_UNITS: seq<string> := ["m", "min", "mins", "minute", "minutes", "minit"]
  const DAY_UNITS: seq<string> := ["d", "day", "days", "din"]

  const NEVER_PHRASES: seq<string> := [
    "kono stop nai", "kono stop time nai", "stop nai", "kono time nai",
    "no stop", "never stop", "no limit", "limit nai", "unlimited",
    "sara din", "sara rat", "sararat", "always", "24/7", "24x7",
    "kokhono na", "bondho korbe na", "cholte thakbe"]

  const NO_WORDS: seq<string> := ["0", "no", "na", "never", "kichu na"]

  const MAX_MINUTES := 100_000

  // ------------------------------------------------------------------ //
  // Printing
  // ------------------------------------------------------------------ //

  function FormatRunMinutes(minutes: int): string {
    if minutes <= 0 then "kono limit nai"
    else if minutes % 1440 == 0 then Decimal(minutes / 1440) + " din"
    else if minutes % 60 == 0 then Decimal(minutes / 60) + "h"
    else if minutes > 60 then Decimal(minutes / 60) + "h " + Decimal(minutes % 60) + "m"
    else Decimal(minutes) + " min"
  }

  // ------------------------------------------------------------------ //
  // Reading
  // ------------------------------------------------------------------ //

  predicate WordChar(c: char) {
    IsDigit(c) || 'a' <= c <= 'z' || 'A' <= c <= 'Z' || c == '_'
  }

  function DigitRun(s: string): (n: nat)
    ensures n <= |s|
    ensures forall i :: 0 <= i < n ==> IsDigit(s[i])
    ensures n < |s| ==> !IsDigit(s[n])
  {
    if s == "" || !IsDigit(s[0]) then 0 else 1 + DigitRun(s[1..])
  }

  function SpaceRun(s: string): (n: nat)
    ensures n <= |s|
    ensures forall i :: 0 <= i < n ==> IsSpace(s[i])
    ensures n < |s| ==> !IsSpace(s[n])
  {
    if s == "" || !IsSpace(s[0]) then 0 else 1 + SpaceRun(s[1..])
  }

  function WordRun(s: string): (n: nat)
    ensures n <= |s|
    ensures forall i :: 0 <= i < n ==> WordChar(s[i])
    ensures n < |s| ==> !WordChar(s[n])
  {
    if s == "" || !WordChar(s[0]) then 0 else 1 + WordRun(s[1..])
  }

  predicate OneOf(s: string, words: seq<string>) {
    words != [] && (s == words[0] || OneOf(s, words[1..]))
  }

  predicate MentionsOneOf(s: string, phrases: seq<string>) {
    phrases != [] && (Contains(s, phrases[0]) || MentionsOneOf(s, phrases[1..]))
  }

  function UnitMinutes(unit: string): Option<nat> {
    if OneOf(unit, HOUR_UNITS) then Some(60)
    else if OneOf(unit, DAY_UNITS) then Some(1440)
    else if OneOf(unit, MINUTE_UNITS) then Some(1)
    else None
  }

  /** A duration starting exactly here, in minutes. */
  function DurationHere(s: string): Option<nat> {
    var n := DigitRun(s);
    if n == 0 || n > 4 then None
    else
      var rest := s[n..][SpaceRun(s[n..])..];
      var unit := UnitMinutes(Lower(rest[..WordRun(rest)]));
      if unit.None? then None else Some(ParseNat(s[..n]) * unit.value)
  }

  /** The leftmost duration that starts at a word boundary. */
  function FindDuration(s: string, i: nat): Option<nat>
    requires i <= |s|
    decreases |s| - i
  {
    if i == |s| then None
    else if (i == 0 || !WordChar(s[i - 1])) && DurationHere(s[i..]).Some? then DurationHere(s[i..])
    else FindDuration(s, i + 1)
  }

  /** One of the ways of saying that a run has no limit. */
  predicate MeansNoLimit(lowered: string) {
    MentionsOneOf(lowered, NEVER_PHRASES) || OneOf(lowered, NO_WORDS)
  }

  /** The first duration in the text, or else a bare number of minutes. */
  function ReadAmount(raw: string): Result<nat> {
    var found := FindDuration(raw, 0);
    var digits := Strip(Without(raw, ','));
    if found.Some? && found.value > 0 then Ok(found.value)
    else if AllDigits(digits) then
      (if ParseNat(digits) > MAX_MINUTES then Err("too long") else Ok(ParseNat(digits)))
    else Err("not understood")
  }

  function ParseRunMinutes(text: string): Result<nat> {
    var raw := Strip(text);
    if raw == "" then Err("say how long")
    else if MeansNoLimit(Normalise(raw)) then Ok(0)
    else ReadAmount(raw)
  }

  // ------------------------------------------------------------------ //
  // Reading back what was printed
  // ------------------------------------------------------------------ //

  /** The characters a printed run length is made of. */
  predicate Printed(c: char) {
    IsDigit(c) || c == ' ' || c in "hmind"
  }

  lemma {:induction false} WordsHave(s: string)
    ensures forall w <- Words(s), c <- w :: c in s
    decreases |s|
  {
    if s != "" {
      if IsSpace(s[0]) {
        WordsHave(s[1..]);
      } else {
        var n := WordLength(s);
        WordsHave(s[n..]);
        assert forall c <- s[..n] :: c in s;
        assert forall c <- s[n..] :: c in s;
      }
    }
  }

  lemma {:induction false} JoinHas(words: seq<string>, glue: string)
    ensures forall c <- Join(words, glue) :: c in glue || exists w <- words :: c in w
  {
    if |words| == 1 {
      assert words[0] in words;
    } else if |words| > 1 {
      JoinHas(words[1..], glue);
      assert words[0] in words;
      assert forall w <- words[1..] :: w in words;
    }
  }

  lemma {:induction false} StripHas(s: string)
    ensures forall c <- Strip(s) :: c in s
  {
    StripLeftHas(s);
    StripRightTight(StripLeft(s));
  }

  lemma {:induction false} StripLeftHas(s: string)
    ensures forall c <- StripLeft(s) :: c in s
  {
    if s != "" { StripLeftHas(s[1..]); }
  }

  /** Normalising printed text leaves printed characters only. */
  lemma NormalisePrinted(s: string)
    requires forall c <- s :: Printed(c)
    ensures forall c <- Normalise(s) :: Printed(c)
  {
    var t := Strip(s);
    StripHas(s);
    var lower := Lower(t);
    forall c | c in lower ensures Printed(c) {
      var i :| 0 <= i < |lower| && lower[i] == c;
      assert t[i] in t && t[i] in s;
    }
    WordsHave(lower);
    JoinHas(Words(lower), " ");
  }

  lemma ContainsOnly(s: string, part: string)
    ensures Contains(s, part) ==> forall c <- part :: c in s
  {
    forall i, k | 0 <= i <= |s| && OccursAt(s, part, i) && 0 <= k < |part| ensures part[k] in s {
      assert s[i..i + |part|][k] == s[i + k];
    }
  }

  /** A phrase with a foreign character in it is nowhere in printed text. */
  lemma ForeignLetter(s: string, phrase: string, k: nat)
    requires forall c <- s :: Printed(c)
    requires k < |phrase| && !Printed(phrase[k])
    ensures !Contains(s, phrase) && s != phrase
  {
    ContainsOnly(s, phrase);
    assert phrase[k] in phrase;
  }

  lemma {:induction false} OneOfMeansIn(s: string, words: seq<string>)
    ensures OneOf(s, words) <==> s in words
  {
    if words != [] {
      OneOfMeansIn(s, words[1..]);
      assert words == [words[0]] + words[1..];
    }
  }

  lemma {:induction false} MentionsMeansSome(s: string, phrases: seq<string>)
    ensures MentionsOneOf(s, phrases) <==> exists i | 0 <= i < |phrases| :: Contains(s, phrases[i])
  {
    if phrases != [] {
      MentionsMeansSome(s, phrases[1..]);
      assert forall i :: 0 < i < |phrases| ==> phrases[i] == phrases[1..][i - 1];
      if MentionsOneOf(s, phrases[1..]) {
        var i :| 0 <= i < |phrases| - 1 && Contains(s, phrases[1..][i]);
        assert Contains(s, phrases[i + 1]);
      }
    }
  }

  lemma NoPhraseIsPrinted(s: string)
    requires forall c <- s :: Printed(c)
    ensures !MentionsOneOf(s, NEVER_PHRASES)
  {
    var first := [0, 0, 0, 0, 1, 1, 1, 0, 0, 0, 0, 0, 0, 2, 2, 0, 0, 0];
    forall j | 0 <= j < |NEVER_PHRASES| ensures !Contains(s, NEVER_PHRASES[j]) {
      assert first[j] < |NEVER_PHRASES[j]| && !Printed(NEVER_PHRASES[j][first[j]]);
      ForeignLetter(s, NEVER_PHRASES[j], first[j]);
    }
    MentionsMeansSome(s, NEVER_PHRASES);
  }

  lemma {:induction false} WordsCover(s: string, c: char)
    requires c in s && !IsSpace(c)
    ensures exists w <- Words(s) :: c in w
    decreases |s|
  {
    if IsSpace(s[0]) {
      assert s == [s[0]] + s[1..];
      WordsCover(s[1..], c);
    } else {
      var n := WordLength(s);
      assert s == s[..n] + s[n..];
      if c in s[..n] {
        assert s[..n] in Words(s);
      } else {
        WordsCover(s[n..], c);
        assert Words(s)[1..] == Words(s[n..]);
      }
    }
  }

  lemma {:induction false} JoinCovers(words: seq<string>, glue: string, w: string, c: char)
    requires w in words && c in w
    ensures c in Join(words, glue)
  {
    if |words| > 1 && w != words[0] { JoinCovers(words[1..], glue, w, c); }
  }

  /** A lower-case letter of tight text is still there after normalising. */
  lemma NormaliseKeepsLetter(s: string, k: nat)
    requires k < |s| && Strip(s) == s && 'a' <= s[k] <= 'z'
    ensures s[k] in Normalise(s)
  {
    var lower := Lower(s);
    assert lower[k] == s[k];
    WordsCover(lower, s[k]);
    var w :| w in Words(lower) && s[k] in w;
    JoinCovers(Words(lower), " ", w, s[k]);
  }

  lemma NoWordIsPrinted(s: string)
    requires forall c <- s :: Printed(c)
    requires s != "0"
    ensures !OneOf(s, NO_WORDS)
  {
    var first := [0, 1, 1, 1, 0];
    forall j | 1 <= j < |NO_WORDS| ensures s != NO_WORDS[j] {
      assert first[j] < |NO_WORDS[j]| && !Printed(NO_WORDS[j][first[j]]);
      ForeignLetter(s, NO_WORDS[j], first[j]);
    }
    OneOfMeansIn(s, NO_WORDS);
  }

  /** Printed text with a letter in it does not mean "no limit". */
  lemma PrintedHasALimit(s: string, k: nat)
    requires forall c <- s :: Printed(c)
    requires Strip(s) == s && k < |s| && 'a' <= s[k] <= 'z'
    ensures !MeansNoLimit(Normalise(s))
  {
    var lowered := Normalise(s);
    NormalisePrinted(s);
    NormaliseKeepsLetter(s, k);
    NoPhraseIsPrinted(lowered);
    assert lowered != "0" by { assert s[k] in lowered && s[k] != '0'; }
    NoWordIsPrinted(lowered);
  }

  lemma {:induction false} DigitRunIs(s: string, n: nat)
    requires n <= |s| && (forall i :: 0 <= i < n ==> IsDigit(s[i])) && (n < |s| ==> !IsDigit(s[n]))
    ensures DigitRun(s) == n
  {
    if n > 0 { DigitRunIs(s[1..], n - 1); }
  }

  lemma {:induction false} WordRunIs(s: string, n: nat)
    requires n <= |s| && (forall i :: 0 <= i < n ==> WordChar(s[i])) && (n < |s| ==> !WordChar(s[n]))
    ensures WordRun(s) == n
  {
    if n > 0 { WordRunIs(s[1..], n - 1); }
  }

  /** Text that is `n` digits, `k` spaces (at most one), a unit of `m` letters, and then
      nothing or a space and more printed text. */
  predicate AmountFirst(s: string, n: nat, k: nat, m: nat) {
    && 0 < n <= 4 && k <= 1 && 0 < m && n + k + m <= |s|
    && (forall i :: 0 <= i < n ==> IsDigit(s[i]))
    && (k == 1 ==> s[n] == ' ')
    && (forall i :: n + k <= i < n + k + m ==> 'a' <= s[i] <= 'z')
    && (n + k + m < |s| ==> s[n + k + m] == ' ')
  }

  lemma LexDigits(s: string, n: nat, k: nat, m: nat)
    requires AmountFirst(s, n, k, m)
    ensures DigitRun(s) == n
  {
    DigitRunIs(s, n);
  }

  lemma LexSpaces(s: string, n: nat, k: nat, m: nat)
    requires AmountFirst(s, n, k, m)
    ensures SpaceRun(s[n..]) == k
  {
    var rest := s[n..];
    assert k == 0 ==> !IsSpace(rest[0]);
    assert k == 1 ==> IsSpace(rest[0]) && rest[1..][0] == s[n + 1] && !IsSpace(rest[1..][0]);
  }

  lemma LowerIsItself(unit: string)
    requires forall i :: 0 <= i < |unit| ==> 'a' <= unit[i] <= 'z'
    ensures Lower(unit) == unit
  {
  }

  lemma CutTwice(s: string, n: nat, k: nat, m: nat)
    requires n + k + m <= |s|
    ensures s[n..][k..] == s[n + k..] && s[n + k..][..m] == s[n + k..n + k + m]
  {
  }

  lemma UnitRun(rest: string, m: nat)
    requires m <= |rest| && (forall i :: 0 <= i < m ==> 'a' <= rest[i] <= 'z') && (m < |rest| ==> rest[m] == ' ')
    ensures WordRun(rest) == m && Lower(rest[..m]) == rest[..m]
  {
    WordRunIs(rest, m);
    LowerIsItself(rest[..m]);
  }

  lemma LexUnit(s: string, n: nat, k: nat, m: nat)
    requires AmountFirst(s, n, k, m)
    ensures var rest := s[n..][k..];
            WordRun(rest) == m && Lower(rest[..m]) == s[n + k..n + k + m]
  {
    hide WordRun, Lower;
    CutTwice(s, n, k, m);
    var rest := s[n + k..];
    assert forall i :: 0 <= i < |rest| ==> rest[i] == s[n + k + i];
    UnitRun(rest, m);
  }

  lemma LexAmount(s: string, n: nat, k: nat, m: nat)
    requires AmountFirst(s, n, k, m)
    requires UnitMinutes(s[n + k..n + k + m]).Some?
    ensures forall c <- s[..n] :: IsDigit(c)
    ensures DurationHere(s) == Some(ParseNat(s[..n]) * UnitMinutes(s[n + k..n + k + m]).value)
  {
    LexDigits(s, n, k, m);
    LexSpaces(s, n, k, m);
    LexUnit(s, n, k, m);
  }

  lemma {:induction false} DecimalLength(n: nat, width: nat)
    requires width >= 1 && n < TenTo(width)
    ensures |Decimal(n)| <= width
  {
    DecimalRoundTrip(n);
    if n >= 10 { DecimalLength(n / 10, width - 1); }
  }

  function TenTo(width: nat): nat { if width == 0 then 1 else 10 * TenTo(width - 1) }

  lemma ShortDecimal(n: nat)
    requires n < 10_000
    ensures AllDigits(Decimal(n)) && |Decimal(n)| <= 4 && ParseNat(Decimal(n)) == n
  {
    DecimalRoundTrip(n);
    assert TenTo(4) == 10_000;
    DecimalLength(n, 4);
  }

  lemma {:induction false} DecimalAtLeast(n: nat, width: nat)
    requires n >= TenTo(width)
    ensures |Decimal(n)| > width
  {
    DecimalRoundTrip(n);
    if width > 0 { DecimalAtLeast(n / 10, width - 1); }
  }

  lemma LongDecimal(n: nat)
    requires n >= 10_000
    ensures AllDigits(Decimal(n)) && |Decimal(n)| > 4
  {
    DecimalRoundTrip(n);
    assert TenTo(4) == 10_000;
    DecimalAtLeast(n, 4);
  }

  lemma DinIsADay()
    ensures UnitMinutes("din") == Some(1440)
  {
    OneOfMeansIn("din", HOUR_UNITS);
    OneOfMeansIn("din", DAY_UNITS);
    assert DAY_UNITS[3] == "din";
  }

  lemma HIsAnHour()
    ensures UnitMinutes("h") == Some(60)
  {
    OneOfMeansIn("h", HOUR_UNITS);
    assert HOUR_UNITS[0] == "h";
  }

  lemma MinIsNoHour()
    ensures !OneOf("min", HOUR_UNITS)
  {
    hide OneOf;
    OneOfMeansIn("min", HOUR_UNITS);
    assert forall i :: 0 <= i < |HOUR_UNITS| ==> HOUR_UNITS[i][0] != 'm';
  }

  lemma MinIsNoDay()
    ensures !OneOf("min", DAY_UNITS)
  {
    hide OneOf;
    OneOfMeansIn("min", DAY_UNITS);
    assert forall i :: 0 <= i < |DAY_UNITS| ==> DAY_UNITS[i][0] != 'm';
  }

  lemma MinIsAMinute()
    ensures UnitMinutes("min") == Some(1)
  {
    hide OneOf;
    MinIsNoHour();
    MinIsNoDay();
    OneOfMeansIn("min", MINUTE_UNITS);
    assert MINUTE_UNITS[1] == "min";
  }

  lemma MIsAMinute()
    ensures UnitMinutes("m") == Some(1)
  {
    hide OneOf;
    OneOfMeansIn("m", HOUR_UNITS);
    assert forall i :: 0 <= i < |HOUR_UNITS| ==> HOUR_UNITS[i][0] != 'm';
    MIsNoDay();
    OneOfMeansIn("m", MINUTE_UNITS);
    assert MINUTE_UNITS[0] == "m";
  }

  lemma MIsNoDay()
    ensures !OneOf("m", DAY_UNITS)
  {
    hide OneOf;
    OneOfMeansIn("m", DAY_UNITS);
    assert forall i :: 0 <= i < |DAY_UNITS| ==> DAY_UNITS[i][0] != 'm';
  }

  /** Tight text that begins with a duration, and does not mean "no limit", reads as it. */
  lemma BeginsWithAmount(s: string, minutes: nat)
    requires s != "" && Strip(s) == s && !MeansNoLimit(Normalise(s))
    requires DurationHere(s) == Some(minutes) && minutes > 0
    ensures ParseRunMinutes(s) == Ok(minutes)
  {
    assert s[0..] == s;
  }

  /** Printed text that begins with an amount and its unit reads as that many minutes. */
  lemma AmountReadsBack(s: string, n: nat, k: nat, m: nat, minutes: nat)
    requires AmountFirst(s, n, k, m)
    requires (forall c <- s :: Printed(c)) && !IsSpace(s[|s| - 1])
    requires UnitMinutes(s[n + k..n + k + m]).Some? && (forall c <- s[..n] :: IsDigit(c))
    requires minutes == ParseNat(s[..n]) * UnitMinutes(s[n + k..n + k + m]).value > 0
    ensures ParseRunMinutes(s) == Ok(minutes)
  {
    LexAmount(s, n, k, m);
    StripKeepsTight(s);
    PrintedHasALimit(s, n + k);
    BeginsWithAmount(s, minutes);
  }

  /** The same, with the digits and the unit named. */
  lemma NamedAmountReadsBack(s: string, digits: string, k: nat, unit: string, size: nat)
    requires AmountFirst(s, |digits|, k, |unit|)
    requires (forall c <- s :: Printed(c)) && !IsSpace(s[|s| - 1])
    requires s[..|digits|] == digits && s[|digits| + k..|digits| + k + |unit|] == unit
    requires UnitMinutes(unit) == Some(size) && size > 0
    requires AllDigits(digits) && ParseNat(digits) > 0
    ensures ParseRunMinutes(s) == Ok(ParseNat(digits) * size)
  {
    hide ParseRunMinutes, UnitMinutes;
    assert ParseNat(digits) * size > 0;
    AmountReadsBack(s, |digits|, k, |unit|, ParseNat(digits) * size);
  }

  lemma JoinStep(words: seq<string>)
    requires |words| >= 2
    ensures Join(words, " ") == words[0] + " " + Join(words[1..], " ")
  {
  }

  lemma JoinOfNoLimit()
    ensures Join(["kono", "limit", "nai"], " ") == "kono limit nai"
  {
    var words := ["kono", "limit", "nai"];
    JoinStep(words);
    JoinStep(words[1..]);
    assert words[1..][1..] == ["nai"];
  }

  lemma NoLimitIsNormal()
    ensures Strip("kono limit nai") == "kono limit nai" == Normalise("kono limit nai")
  {
    StripKeepsTight("kono limit nai");
    LowerOfNoLimit();
    WordsOfNoLimit();
    JoinOfNoLimit();
  }

  lemma LowerOfNoLimit()
    ensures Lower("kono limit nai") == "kono limit nai"
  {
  }

  lemma WordsOfNoLimit()
    ensures Words("kono limit nai") == ["kono", "limit", "nai"]
  {
    NextOfNoLimit();
    LimitNai();
    var s := "kono limit nai";
    hide Words;
    assert s[..4] == "kono" && s[5..] == "limit nai";
    assert Words(s) == [s[..4]] + Words(s[5..]);
  }

  lemma NextOfNoLimit()
    ensures var s := "kono limit nai"; Words(s) == [s[..4]] + Words(s[5..])
  {
    hide Words;
    var s := "kono limit nai";
    assert s[..4] == "kono";
    NextWord(s, s[..4], s[5..]);
  }

  lemma LimitNai()
    ensures Words("limit nai") == ["limit", "nai"]
  {
    hide Words;
    var s := "limit nai";
    assert s[..5] == "limit" && s[6..] == "nai";
    NextWord(s, "limit", "nai");
    LastWord("nai");
  }

  lemma LastWord(s: string)
    requires s != "" && forall i :: 0 <= i < |s| ==> !IsSpace(s[i])
    ensures Words(s) == [s]
  {
    WordLengthIs(s, |s|);
    assert s[..|s|] == s && s[|s|..] == "";
  }

  lemma NextWord(s: string, word: string, rest: string)
    requires |s| == |word| + 1 + |rest| && word != ""
    requires s[..|word|] == word && s[|word|] == ' ' && s[|word| + 1..] == rest
    requires forall i :: 0 <= i < |word| ==> !IsSpace(word[i])
    ensures Words(s) == [word] + Words(rest)
  {
    assert forall i :: 0 <= i < |word| ==> s[i] == word[i];
    WordLengthIs(s, |word|);
    assert s[|word|..][0] == ' ' && s[|word|..][1..] == rest;
  }

  lemma NoLimitReadsBack()
    ensures ParseRunMinutes("kono limit nai") == Ok(0)
  {
    NoLimitIsNormal();
    SaysLimitNai("kono limit nai");
  }

  lemma SaysLimitNai(s: string)
    requires s == "kono limit nai"
    ensures MeansNoLimit(s)
  {
    assert OccursAt(s, "limit nai", 5);
    assert NEVER_PHRASES[7] == "limit nai";
    MentionsMeansSome(s, NEVER_PHRASES);
  }

  lemma {:induction false} WordLengthIs(s: string, n: nat)
    requires n <= |s| && (forall i :: 0 <= i < n ==> !IsSpace(s[i])) && (n < |s| ==> IsSpace(s[n]))
    ensures WordLength(s) == n
  {
    if n > 0 { WordLengthIs(s[1..], n - 1); }
  }

  lemma DaysShape(s: string, digits: string)
    requires AllDigits(digits) && |digits| <= 4 && s == digits + " din"
    ensures AmountFirst(s, |digits|, 1, 3) && (forall c <- s :: Printed(c)) && !IsSpace(s[|s| - 1])
    ensures s[..|digits|] == digits && s[|digits| + 1..|digits| + 4] == "din"
  {
    assert forall i :: 0 <= i < |s| ==> s[i] == if i < |digits| then digits[i] else " din"[i - |digits|];
  }

  lemma DaysReadBack(s: string, digits: string)
    requires AllDigits(digits) && |digits| <= 4 && s == digits + " din" && ParseNat(digits) > 0
    ensures ParseRunMinutes(s) == Ok(ParseNat(digits) * 1440)
  {
    hide ParseRunMinutes, UnitMinutes, ParseNat, AmountFirst;
    DaysShape(s, digits);
    DinIsADay();
    NamedAmountReadsBack(s, digits, 1, "din", 1440);
  }

  lemma MinutesShape(s: string, digits: string)
    requires AllDigits(digits) && |digits| <= 4 && s == digits + " min"
    ensures AmountFirst(s, |digits|, 1, 3) && (forall c <- s :: Printed(c)) && !IsSpace(s[|s| - 1])
    ensures s[..|digits|] == digits && s[|digits| + 1..|digits| + 4] == "min"
  {
    assert forall i :: 0 <= i < |s| ==> s[i] == if i < |digits| then digits[i] else " min"[i - |digits|];
  }

  lemma MinutesReadBack(s: string, digits: string)
    requires AllDigits(digits) && |digits| <= 4 && s == digits + " min" && ParseNat(digits) > 0
    ensures ParseRunMinutes(s) == Ok(ParseNat(digits))
  {
    hide ParseRunMinutes, UnitMinutes, ParseNat, AmountFirst;
    MinutesShape(s, digits);
    MinIsAMinute();
    NamedAmountReadsBack(s, digits, 1, "min", 1);
  }

  /** Hours alone, or hours and then minutes. */
  lemma HoursShape(s: string, digits: string, after: string)
    requires AllDigits(digits) && |digits| <= 4 && s == digits + ("h" + after)
    requires after == "" || (after[0] == ' ' && !IsSpace(after[|after| - 1]))
    requires forall c <- after :: Printed(c)
    ensures AmountFirst(s, |digits|, 0, 1) && (forall c <- s :: Printed(c)) && !IsSpace(s[|s| - 1])
    ensures s[..|digits|] == digits && s[|digits| + 0..|digits| + 1] == "h"
  {
    assert s[|digits|] == 'h';
    assert forall i :: 0 <= i < |after| ==> s[|digits| + 1 + i] == after[i];
  }

  lemma HoursReadBack(s: string, digits: string, after: string)
    requires AllDigits(digits) && |digits| <= 4 && s == digits + ("h" + after) && ParseNat(digits) > 0
    requires after == "" || (after[0] == ' ' && !IsSpace(after[|after| - 1]))
    requires forall c <- after :: Printed(c)
    ensures ParseRunMinutes(s) == Ok(ParseNat(digits) * 60)
  {
    hide ParseRunMinutes, UnitMinutes, ParseNat, AmountFirst;
    HoursShape(s, digits, after);
    HIsAnHour();
    NamedAmountReadsBack(s, digits, 0, "h", 60);
  }

  lemma FormattedHours(minutes: int) returns (after: string)
    requires minutes >= 60 && minutes % 1440 != 0
    ensures FormatRunMinutes(minutes) == Decimal(minutes / 60) + ("h" + after)
    ensures after == "" || (after[0] == ' ' && !IsSpace(after[|after| - 1]))
    ensures forall c <- after :: Printed(c)
  {
    var hours := Decimal(minutes / 60);
    if minutes % 60 == 0 {
      after := "";
    } else {
      var rest := Decimal(minutes % 60);
      ShortDecimal(minutes % 60);
      after := " " + rest + "m";
      assert hours + "h " + rest + "m" == hours + ("h" + after);
    }
  }

  // ------------------------------------------------------------------ //
  // Numbers too long to be read
  // ------------------------------------------------------------------ //

  predicate NoDurationAt(s: string, i: nat)
    requires i < |s|
  {
    (i > 0 && WordChar(s[i - 1])) || DurationHere(s[i..]).None?
  }

  lemma SearchStep(s: string, i: nat)
    requires i < |s| && NoDurationAt(s, i)
    ensures FindDuration(s, i) == FindDuration(s, i + 1)
  {
    hide DurationHere, WordChar;
  }

  lemma SearchGoesOn(s: string, i: nat, j: nat)
    requires i <= j <= |s| && forall k: nat :: i <= k < j ==> NoDurationAt(s, k)
    ensures FindDuration(s, i) == FindDuration(s, j)
  {
    hide FindDuration, NoDurationAt;
    var k := j;
    while k > i
      invariant i <= k <= j && FindDuration(s, k) == FindDuration(s, j)
    {
      k := k - 1;
      assert NoDurationAt(s, k);
      SearchStep(s, k);
    }
  }

  lemma NoDigitNoDuration(s: string)
    requires s == "" || !IsDigit(s[0])
    ensures DurationHere(s).None?
  {
  }

  lemma TooManyDigits(s: string, n: nat)
    requires 4 < n <= |s| && (forall i :: 0 <= i < n ==> IsDigit(s[i])) && (n < |s| ==> !IsDigit(s[n]))
    ensures DurationHere(s).None?
  {
    DigitRunIs(s, n);
  }

  /** A number of more than four digits is passed over, with whatever is stuck to it. */
  lemma LongNumberIsSkipped(s: string, n: nat)
    requires 4 < n < |s| && (forall i :: 0 <= i < n ==> IsDigit(s[i])) && !IsDigit(s[n])
    ensures FindDuration(s, 0) == FindDuration(s, n + 1)
  {
    hide DurationHere;
    TooManyDigits(s, n);
    assert s[0..] == s;
    forall k: nat | k < n + 1 ensures NoDurationAt(s, k) {
      assert k > 0 ==> WordChar(s[k - 1]);
    }
    SearchGoesOn(s, 0, n + 1);
  }

  /** Letters only: nothing to find any more. */
  lemma LettersHideNothing(s: string, i: nat)
    requires i <= |s| && forall k :: i <= k < |s| ==> 'a' <= s[k] <= 'z'
    ensures FindDuration(s, i) == None
  {
    hide DurationHere;
    forall k: nat | i <= k < |s| ensures NoDurationAt(s, k) {
      assert s[k..][0] == s[k];
      NoDigitNoDuration(s[k..]);
    }
    SearchGoesOn(s, i, |s|);
  }

  /** Tight text that does not mean "no limit" is read as an amount. */
  lemma ReadAsAmount(s: string, k: nat)
    requires (forall c <- s :: Printed(c)) && k < |s| && 'a' <= s[k] <= 'z'
    requires !IsSpace(s[0]) && !IsSpace(s[|s| - 1])
    ensures ParseRunMinutes(s) == ReadAmount(s)
  {
    hide MeansNoLimit, Normalise, ReadAmount;
    StripKeepsTight(s);
    PrintedHasALimit(s, k);
  }

  lemma NothingToRead(s: string, k: nat)
    requires FindDuration(s, 0) == None && ',' !in s && Strip(s) == s
    requires k < |s| && !IsDigit(s[k])
    ensures ReadAmount(s) == Err("not understood")
  {
    hide FindDuration, Strip;
    WithoutKeeps(s, ',');
    assert s[k] in s;
  }

  lemma NoComma(s: string)
    requires forall c <- s :: Printed(c)
    ensures ',' !in s
  {
    assert !Printed(',');
  }

  lemma NothingFoundIsRefused(s: string, k: nat)
    requires (forall c <- s :: Printed(c)) && k < |s| && 'a' <= s[k] <= 'z'
    requires !IsSpace(s[0]) && !IsSpace(s[|s| - 1]) && FindDuration(s, 0) == None
    ensures ParseRunMinutes(s) == Err("not understood")
  {
    hide FindDuration, ParseRunMinutes, ReadAmount, Strip, Printed, IsSpace;
    ReadAsAmount(s, k);
    StripKeepsTight(s);
    NoComma(s);
    NothingToRead(s, k);
  }

  lemma FoundLaterIsRead(s: string, k: nat, minutes: nat)
    requires (forall c <- s :: Printed(c)) && k < |s| && 'a' <= s[k] <= 'z'
    requires !IsSpace(s[0]) && !IsSpace(s[|s| - 1]) && FindDuration(s, 0) == Some(minutes) && minutes > 0
    ensures ParseRunMinutes(s) == Ok(minutes)
  {
    hide FindDuration, ParseRunMinutes, Strip;
    ReadAsAmount(s, k);
  }

  /** A unit after a number that is too long. */
  lemma LongAmountIsRefused(s: string, digits: string, tail: string)
    requires AllDigits(digits) && |digits| > 4 && s == digits + tail
    requires tail == "h" || tail == " din"
    ensures ParseRunMinutes(s) == Err("not understood")
  {
    hide FindDuration, DurationHere, ParseRunMinutes;
    var n := |digits|;
    assert forall i :: 0 <= i < n ==> s[i] == digits[i];
    assert forall i :: 0 <= i < |tail| ==> s[n + i] == tail[i];
    LongNumberIsSkipped(s, n);
    LettersHideNothing(s, n + 1);
    NothingFoundIsRefused(s, |s| - 1);
  }

  lemma ManyHoursShape(s: string, digits: string, rest: string)
    requires AllDigits(digits) && AllDigits(rest) && s == digits + ("h " + (rest + "m"))
    ensures var n := |digits|;
            && (forall i :: 0 <= i < n ==> IsDigit(s[i]))
            && s[n] == 'h' && s[n + 1] == ' ' && s[n + 2..] == rest + "m"
    ensures (forall c <- s :: Printed(c)) && !IsSpace(s[0]) && !IsSpace(s[|s| - 1])
  {
    var n := |digits|;
    assert forall i :: 0 <= i < n ==> s[i] == digits[i];
    assert forall i :: 0 <= i < |rest| ==> s[n + 2 + i] == rest[i];
    assert s[|s| - 1] == 'm' && s[n] == 'h' && s[n + 1] == ' ';
  }

  /** After hours that are too long to be read, the minutes are found instead. */
  lemma OnlyTheMinutesAreRead(s: string, digits: string, rest: string, minutes: nat)
    requires AllDigits(digits) && |digits| > 4 && s == digits + ("h " + (rest + "m"))
    requires AllDigits(rest) && |rest| <= 4 && minutes == ParseNat(rest) > 0
    ensures ParseRunMinutes(s) == Ok(minutes)
  {
    hide FindDuration, DurationHere, ParseRunMinutes, ParseNat, Printed, IsDigit, IsSpace;
    var n := |digits|;
    ManyHoursShape(s, digits, rest);
    LetterIsNoDigit();
    LongNumberIsSkipped(s, n);
    MinutesAlone(rest);
    FoundBeyond(s, n + 1);
    FoundLaterIsRead(s, n, minutes);
  }

  lemma LetterIsNoDigit()
    ensures !IsDigit('h') && WordChar('h') && !WordChar(' ')
  {
  }

  lemma FoundHere(s: string, i: nat)
    requires 0 < i < |s| && !WordChar(s[i - 1]) && DurationHere(s[i..]).Some?
    ensures FindDuration(s, i) == DurationHere(s[i..])
  {
    hide DurationHere;
  }

  /** Past a letter and a space, a duration is found. */
  lemma FoundBeyond(s: string, i: nat)
    requires 0 < i < |s| - 1 && WordChar(s[i - 1]) && !WordChar(s[i]) && DurationHere(s[i + 1..]).Some?
    ensures FindDuration(s, i) == DurationHere(s[i + 1..])
  {
    hide DurationHere;
    assert NoDurationAt(s, i);
    SearchGoesOn(s, i, i + 1);
    FoundHere(s, i + 1);
  }

  lemma MinutesAlone(rest: string)
    requires AllDigits(rest) && |rest| <= 4
    ensures DurationHere(rest + "m") == Some(ParseNat(rest))
  {
    hide DurationHere, UnitMinutes;
    var s := rest + "m";
    assert AmountFirst(s, |rest|, 0, 1);
    assert s[..|rest|] == rest && s[|rest| + 0..|rest| + 0 + 1] == "m";
    MIsAMinute();
    LexAmount(s, |rest|, 0, 1);
  }

  // ------------------------------------------------------------------ //
  // The whole of it
  // ------------------------------------------------------------------ //

  /** What a printed run length reads back as. Up to four digits of days or hours are read;
      of hours and minutes only the first amount that can be read counts. */
  function ReadBack(minutes: int): Result<nat> {
    if minutes <= 0 then Ok(0)
    else if minutes % 1440 == 0 then
      if minutes / 1440 < 10_000 then Ok(minutes) else Err("not understood")
    else if minutes >= 600_000 then
      if minutes % 60 == 0 then Err("not understood") else Ok(minutes % 60)
    else if minutes < 60 || minutes % 60 == 0 then Ok(minutes)
    else Ok(minutes - minutes % 60)
  }

  lemma DigitsHoldNoDuration(s: string)
    requires AllDigits(s)
    ensures FindDuration(s, 0) == None && !MentionsOneOf(s, NEVER_PHRASES)
  {
    hide DurationHere;
    forall k: nat | k < |s| ensures NoDurationAt(s, k) {
      if k == 0 {
        NoUnitNoDuration(s);
        assert s[0..] == s;
      }
    }
    SearchGoesOn(s, 0, |s|);
    assert forall c <- s :: Printed(c);
    NoPhraseIsPrinted(s);
  }

  lemma NoUnitNoDuration(s: string)
    requires AllDigits(s)
    ensures DurationHere(s).None?
  {
    DigitRunIs(s, |s|);
    assert s[|s|..] == "" && Lower("") == "";
    NothingIsNoUnit();
  }

  lemma {:induction false} NothingIsNoWord(words: seq<string>)
    requires forall w <- words :: |w| > 0
    ensures !OneOf("", words)
  {
    if words != [] { NothingIsNoWord(words[1..]); }
  }

  lemma NothingIsNoUnit()
    ensures UnitMinutes("").None?
  {
    hide OneOf;
    NothingIsNoWord(HOUR_UNITS);
    NothingIsNoWord(DAY_UNITS);
    NothingIsNoWord(MINUTE_UNITS);
  }

  lemma DigitsAreNormal(s: string)
    requires AllDigits(s)
    ensures Strip(s) == s == Normalise(s) && Without(s, ',') == s
  {
    assert forall i :: 0 <= i < |s| ==> s[i] in s && IsDigit(s[i]);
    StripKeepsTight(s);
    assert Lower(s) == s;
    LastWord(s);
    WithoutKeeps(s, ',');
  }

  lemma BareAmount(digits: string)
    requires AllDigits(digits) && Strip(digits) == digits == Without(digits, ',') && FindDuration(digits, 0) == None
    ensures ReadAmount(digits) == if ParseNat(digits) <= 100_000 then Ok(ParseNat(digits)) else Err("too long")
  {
    hide Strip, FindDuration, Without, ParseNat;
  }

  lemma BareNumberHasALimit(digits: string)
    requires AllDigits(digits) && digits != "0" && !MentionsOneOf(digits, NEVER_PHRASES)
    ensures !MeansNoLimit(digits)
  {
    assert forall c <- digits :: Printed(c);
    hide MentionsOneOf, OneOf;
    NoWordIsPrinted(digits);
  }

  /** A number alone is that many minutes, up to a hundred thousand. */
  lemma BareNumberReads(digits: string)
    requires AllDigits(digits)
    ensures ParseRunMinutes(digits)
            == if ParseNat(digits) <= 100_000 then Ok(ParseNat(digits)) else Err("too long")
  {
    DigitsAreNormal(digits);
    DigitsHoldNoDuration(digits);
    if digits == "0" {
      NothingIsZero();
    } else {
      BareNumberHasALimit(digits);
      BareAmount(digits);
      hide MeansNoLimit, ReadAmount, Normalise, Strip;
    }
  }

  lemma NothingIsZero()
    ensures ParseNat("0") == 0 && MeansNoLimit("0")
  {
    assert OneOf("0", NO_WORDS);
  }

  /** The ways to say that there is no limit: one of a few words alone, or a phrase
      anywhere in the text. */
  predicate SaysNoLimit(lowered: string) {
    lowered in {"0", "no", "na", "never", "kichu na"}
      || exists phrase <- [
           "kono stop nai", "kono stop time nai", "stop nai", "kono time nai", "no stop", "never stop",
           "no limit", "limit nai", "unlimited", "sara din", "sara rat", "sararat", "always", "24/7",
           "24x7", "kokhono na", "bondho korbe na", "cholte thakbe"] :: Contains(lowered, phrase)
  }

  lemma NoLimitIsSaid(lowered: string)
    ensures MeansNoLimit(lowered) <==> SaysNoLimit(lowered)
  {
    OneOfMeansIn(lowered, NO_WORDS);
    MentionsMeansSome(lowered, NEVER_PHRASES);
    assert SaysNoLimit(lowered) <==>
           lowered in NO_WORDS || exists phrase <- NEVER_PHRASES :: Contains(lowered, phrase);
    assert forall i :: 0 <= i < |NEVER_PHRASES| ==> NEVER_PHRASES[i] in NEVER_PHRASES;
  }

  /** Whatever else such text says, it reads as none. */
  lemma NoLimitReads(text: string)
    requires Strip(text) != "" && SaysNoLimit(Normalise(Strip(text)))
    ensures ParseRunMinutes(text) == Ok(0)
  {
    NoLimitIsSaid(Normalise(Strip(text)));
  }

  /** For every run length: it comes back as itself when it is under an hour or a whole
      number of hours below ten thousand, or of days below ten thousand; the minutes beside
      an hour count are dropped; a missing or negative limit comes back as none. An hour or
      day count of five digits is not read at all. */
  lemma PrintedLengthReadsBack(minutes: int)
    ensures ParseRunMinutes(FormatRunMinutes(minutes)) == ReadBack(minutes)
  {
    if minutes <= 0 {
      NoLimitReadsBack();
    } else if minutes % 1440 == 0 || minutes < 600_000 {
      PositiveReadsBack(FormatRunMinutes(minutes), minutes);
    } else {
      ManyHoursReadBack(FormatRunMinutes(minutes), minutes);
    }
  }

  lemma ManyHoursReadBack(text: string, minutes: int)
    requires minutes >= 600_000 && minutes % 1440 != 0 && text == FormatRunMinutes(minutes)
    ensures ParseRunMinutes(text) == ReadBack(minutes)
  {
    hide ParseRunMinutes, Decimal, ParseNat;
    var hours, rest := Decimal(minutes / 60), Decimal(minutes % 60);
    LongDecimal(minutes / 60);
    ShortDecimal(minutes % 60);
    if minutes % 60 == 0 {
      LongAmountIsRefused(text, hours, "h");
    } else {
      assert hours + "h " + rest + "m" == hours + ("h " + (rest + "m"));
      OnlyTheMinutesAreRead(text, hours, rest, minutes % 60);
    }
  }

  lemma PositiveReadsBack(text: string, minutes: int)
    requires 0 < minutes && text == FormatRunMinutes(minutes)
    requires minutes % 1440 == 0 || minutes < 600_000
    ensures ParseRunMinutes(text) == ReadBack(minutes)
  {
    hide ParseRunMinutes;
    if minutes % 1440 == 0 {
      if minutes / 1440 < 10_000 {
        ShortDecimal(minutes / 1440);
        DaysReadBack(text, Decimal(minutes / 1440));
      } else {
        LongDecimal(minutes / 1440);
        LongAmountIsRefused(text, Decimal(minutes / 1440), " din");
      }
    } else if minutes >= 60 {
      ShortDecimal(minutes / 60);
      var after := FormattedHours(minutes);
      HoursReadBack(text, Decimal(minutes / 60), after);
    } else {
      ShortDecimal(minutes);
      MinutesReadBack(text, Decimal(minutes));
    }
  }
}
