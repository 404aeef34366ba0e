/** Reading an amount and its unit back, for every unit there is and in any case.

    The hard part is not the amount but everything that is looked at before it: outer
    spaces, case and inner spacing are tidied, and then the text is searched for phrases
    and words that mean "no limit". None of them can be put together from digits, spaces
    and the letters of the units, or else it would have to be one of the units. What is
    left is one pass of the lexer: digits, spaces, and a whole word, to the end of the
    text. */
module Amounts {
  import opened Options
  import opened Text
  import opened Durations

  /** Every letter of every unit. */
  const UNIT_LETTERS := "hrsougntadmiey"

  predicate Listed(unit: string) {
    OneOf(unit, HOUR_UNITS) || OneOf(unit, DAY_UNITS) || OneOf(unit, MINUTE_UNITS)
  }

  predicate UnitLike(unit: string) {
    && unit != "" && (forall c <- unit :: 'a' <= c <= 'z' && c in UNIT_LETTERS)
    && !('r' in unit && 'a' in unit)
  }

  lemma HourUnitsAreUnitLike(i: nat)
    requires i < |HOUR_UNITS|
    ensures UnitLike(HOUR_UNITS[i])
  {
  }

  lemma DayUnitsAreUnitLike(i: nat)
    requires i < |DAY_UNITS|
    ensures UnitLike(DAY_UNITS[i])
  {
  }

  lemma MinuteUnitsAreUnitLike(i: nat)
    requires i < |MINUTE_UNITS|
    ensures UnitLike(MINUTE_UNITS[i])
  {
  }

  lemma ListedIsUnitLike(unit: string)
    requires Listed(unit)
    ensures UnitLike(unit)
  {
    hide UnitLike, OneOf;
    OneOfMeansIn(unit, HOUR_UNITS);
    OneOfMeansIn(unit, DAY_UNITS);
    OneOfMeansIn(unit, MINUTE_UNITS);
    if unit in HOUR_UNITS {
      var i :| 0 <= i < |HOUR_UNITS| && HOUR_UNITS[i] == unit;
      HourUnitsAreUnitLike(i);
    } else if unit in DAY_UNITS {
      var i :| 0 <= i < |DAY_UNITS| && DAY_UNITS[i] == unit;
      DayUnitsAreUnitLike(i);
    } else {
      var i :| 0 <= i < |MINUTE_UNITS| && MINUTE_UNITS[i] == unit;
      MinuteUnitsAreUnitLike(i);
    }
  }

  // ------------------------------------------------------------------ //
  // An amount does not mean "no limit"
  // ------------------------------------------------------------------ //

  /** The characters of an amount in this unit, in lower case. */
  predicate OfAmount(c: char, unit: string) { IsDigit(c) || IsSpace(c) || c in unit }

  predicate AllOfAmount(s: string, unit: string) { forall c <- s :: OfAmount(c, unit) }

  lemma NormaliseKeepsOfAmount(s: string, unit: string)
    requires AllOfAmount(Lower(s), unit) && Strip(s) == s
    ensures AllOfAmount(Normalise(s), unit)
  {
    hide OfAmount;
    var lower := Lower(s);
    WordsHave(lower);
    JoinHas(Words(lower), " ");
    assert OfAmount(' ', unit) by { SpaceIsOfAmount(unit); }
  }

  lemma SpaceIsOfAmount(unit: string)
    ensures OfAmount(' ', unit)
  {
  }

  /** Any character but a space is still there after normalising, in lower case. */
  lemma NormaliseKeeps(s: string, k: nat)
    requires k < |s| && Strip(s) == s && !IsSpace(LowerChar(s[k]))
    ensures LowerChar(s[k]) in Normalise(s)
  {
    var lower := Lower(s);
    assert lower[k] == LowerChar(s[k]);
    WordsCover(lower, lower[k]);
    var w :| w in Words(lower) && lower[k] in w;
    JoinCovers(Words(lower), " ", w, lower[k]);
  }

  lemma Foreign(s: string, unit: string, phrase: string, k: nat)
    requires AllOfAmount(s, unit) && k < |phrase| && !OfAmount(phrase[k], unit)
    ensures !Contains(s, phrase) && s != phrase
  {
    ContainsOnly(s, phrase);
    assert phrase[k] in phrase;
  }

  predicate NotInUnits(c: char) { !IsDigit(c) && !IsSpace(c) && c !in UNIT_LETTERS }

  /** Where each phrase has a letter that no unit has, or else an 'r' or an 'a'. */
  function TellTale(j: nat, unit: string): nat
    requires j < |NEVER_PHRASES|
  {
    if 9 <= j <= 11 then if 'r' in unit then 1 else 2
    else [0, 0, 3, 0, 6, 2, 3, 0, 2, 0, 0, 0, 1, 2, 2, 0, 0, 0][j]
  }

  lemma TellTaleTells(j: nat, unit: string)
    requires j < |NEVER_PHRASES| && UnitLike(unit)
    ensures TellTale(j, unit) < |NEVER_PHRASES[j]| && !OfAmount(NEVER_PHRASES[j][TellTale(j, unit)], unit)
  {
    var c := NEVER_PHRASES[j][TellTale(j, unit)];
    if 9 <= j <= 11 {
      assert c == if 'r' in unit then 'a' else 'r';
    } else {
      TellTaleIsNoUnitLetter(j);
    }
  }

  lemma TellTaleIsNoUnitLetter(j: nat)
    requires j < |NEVER_PHRASES| && !(9 <= j <= 11)
    ensures TellTale(j, "") < |NEVER_PHRASES[j]| && NotInUnits(NEVER_PHRASES[j][TellTale(j, "")])
  {
  }

  lemma NoPhraseIsAnAmount(s: string, unit: string)
    requires AllOfAmount(s, unit) && UnitLike(unit)
    ensures !MentionsOneOf(s, NEVER_PHRASES)
  {
    hide UnitLike, AllOfAmount, TellTale, OfAmount, Contains;
    forall j | 0 <= j < |NEVER_PHRASES| ensures !Contains(s, NEVER_PHRASES[j]) {
      TellTaleTells(j, unit);
      Foreign(s, unit, NEVER_PHRASES[j], TellTale(j, unit));
    }
    MentionsMeansSome(s, NEVER_PHRASES);
  }

  /** Text with a digit and a letter in it is none of the words for "no limit". */
  lemma NoWordIsAnAmount(s: string, digit: char, letter: char)
    requires digit in s && IsDigit(digit) && letter in s && 'a' <= letter <= 'z'
    ensures !OneOf(s, NO_WORDS)
  {
    OneOfMeansIn(s, NO_WORDS);
    assert forall c <- "0" :: !('a' <= c <= 'z');
    assert forall j, c | 1 <= j < |NO_WORDS| && c in NO_WORDS[j] :: !IsDigit(c);
  }

  // ------------------------------------------------------------------ //
  // An amount is read
  // ------------------------------------------------------------------ //

  lemma {:induction false} SpaceRunIs(s: string, n: nat)
    requires n <= |s| && (forall i :: 0 <= i < n ==> IsSpace(s[i])) && (n < |s| ==> !IsSpace(s[n]))
    ensures SpaceRun(s) == n
  {
    if n > 0 { SpaceRunIs(s[1..], n - 1); }
  }

  /** Letters in any case whose lower case is a unit. */
  predicate Spelled(word: string) {
    Listed(Lower(word)) && word != "" && forall i :: 0 <= i < |word| ==>
      'a' <= LowerChar(word[i]) <= 'z' && WordChar(word[i]) && !IsSpace(word[i]) && !IsDigit(word[i])
  }

  lemma ListedIsSpelled(word: string)
    requires Listed(Lower(word))
    ensures Spelled(word) && UnitLike(Lower(word))
  {
    ListedIsUnitLike(Lower(word));
    hide Listed;
    forall i | 0 <= i < |word|
      ensures 'a' <= LowerChar(word[i]) <= 'z' && WordChar(word[i]) && !IsSpace(word[i]) && !IsDigit(word[i])
    {
      assert Lower(word)[i] in Lower(word);
    }
  }

  /** What `DurationHere` says of text already cut into its three parts. */
  lemma DurationOfParts(s: string, digits: string, word: string, size: nat)
    requires DigitRun(s) == |digits| && 0 < |digits| <= 4 && s[..|digits|] == digits
    requires s[|digits|..][SpaceRun(s[|digits|..])..] == word && WordRun(word) == |word|
    requires UnitMinutes(Lower(word)) == Some(size) && (forall c <- digits :: IsDigit(c))
    ensures DurationHere(s) == Some(ParseNat(digits) * size)
  {
    hide UnitMinutes, ParseNat;
    assert word[..|word|] == word;
  }

  lemma DigitsCut(digits: string, rest: string)
    requires AllDigits(digits) && (rest == "" || !IsDigit(rest[0]))
    ensures var s := digits + rest;
            DigitRun(s) == |digits| && s[..|digits|] == digits && s[|digits|..] == rest
  {
    DigitRunIs(digits + rest, |digits|);
  }

  lemma SpacesCut(spaces: string, word: string)
    requires (forall c <- spaces :: IsSpace(c)) && word != "" && !IsSpace(word[0])
    ensures (spaces + word)[SpaceRun(spaces + word)..] == word
  {
    SpaceRunIs(spaces + word, |spaces|);
  }

  lemma LexAmountOf(digits: string, spaces: string, word: string, size: nat)
    requires AllDigits(digits) && |digits| <= 4 && (forall c <- spaces :: IsSpace(c)) && Spelled(word)
    requires UnitMinutes(Lower(word)) == Some(size)
    ensures DurationHere(digits + (spaces + word)) == Some(ParseNat(digits) * size)
  {
    hide UnitMinutes, ParseNat, Listed, DurationHere, SpaceRun, DigitRun;
    assert (spaces + word)[0] == if spaces == "" then word[0] else spaces[0];
    SpaceIsNoDigit(spaces + word);
    DigitsCut(digits, spaces + word);
    SpacesCut(spaces, word);
    WordRunIs(word, |word|);
    hide WordRun, IsSpace;
    DurationOfParts(digits + (spaces + word), digits, word, size);
  }

  lemma SpaceIsNoDigit(s: string)
    ensures s != "" && IsSpace(s[0]) ==> !IsDigit(s[0])
  {
  }

  lemma AmountHasALimit(digits: string, spaces: string, word: string)
    requires AllDigits(digits) && (forall c <- spaces :: IsSpace(c)) && Spelled(word) && UnitLike(Lower(word))
    ensures var s := digits + (spaces + word); Strip(s) == s && !MeansNoLimit(Normalise(s))
  {
    var s := digits + (spaces + word);
    assert s[0] == digits[0] && s[|s| - 1] == word[|word| - 1];
    DigitIsNoSpace(digits[0]);
    StripKeepsTight(s);
    AmountLetters(digits, spaces, word);
    hide Listed, UnitLike, Normalise, OneOf, MentionsOneOf, OfAmount, Strip;
    NormaliseKeepsOfAmount(s, Lower(word));
    NoPhraseIsAnAmount(Normalise(s), Lower(word));
    var k := |digits| + |spaces|;
    assert s[k] == word[0];
    NormaliseKeeps(s, 0);
    NormaliseKeeps(s, k);
    NoWordIsAnAmount(Normalise(s), digits[0], LowerChar(word[0]));
  }

  lemma DigitIsNoSpace(c: char)
    ensures IsDigit(c) ==> !IsSpace(c) && LowerChar(c) == c
    ensures 'a' <= c <= 'z' ==> !IsSpace(c)
    ensures IsSpace(c) ==> LowerChar(c) == c
  {
  }

  lemma AmountLetters(digits: string, spaces: string, word: string)
    requires AllDigits(digits) && forall c <- spaces :: IsSpace(c)
    ensures AllOfAmount(Lower(digits + (spaces + word)), Lower(word))
  {
    var s := digits + (spaces + word);
    forall i | 0 <= i < |s| ensures OfAmount(Lower(s)[i], Lower(word)) {
      DigitIsNoSpace(s[i]);
      if i < |digits| {
        assert s[i] == digits[i];
      } else if i < |digits| + |spaces| {
        assert s[i] == spaces[i - |digits|];
      } else {
        assert s[i] == word[i - |digits| - |spaces|];
        assert Lower(word)[i - |digits| - |spaces|] in Lower(word);
      }
    }
  }

  lemma NothingIsNoAmount(s: string, letter: char)
    requires s != "" && Strip(s) == s && !MeansNoLimit(Normalise(s))
    requires FindDuration(s, 0) == Some(0) && ',' !in s && letter in s && !IsDigit(letter)
    ensures ParseRunMinutes(s) == Err("not understood")
  {
    hide FindDuration, MeansNoLimit, Strip;
    WithoutKeeps(s, ',');
  }

  lemma AmountIsFound(s: string)
    requires s != "" && DurationHere(s).Some?
    ensures FindDuration(s, 0) == DurationHere(s)
  {
    hide DurationHere;
    assert s[0..] == s;
  }

  /** Which words are units, and of how many minutes. */
  lemma UnitsAre(unit: string)
    ensures UnitMinutes(unit) ==
            if unit in ["h", "hr", "hrs", "hour", "hours", "ghonta", "ghanta", "ghonda"] then Some(60)
            else if unit in ["d", "day", "days", "din"] then Some(1440)
            else if unit in ["m", "min", "mins", "minute", "minutes", "minit"] then Some(1)
            else None
  {
    hide OneOf;
    OneOfMeansIn(unit, HOUR_UNITS);
    OneOfMeansIn(unit, DAY_UNITS);
    OneOfMeansIn(unit, MINUTE_UNITS);
  }

  /** Up to four digits, any space or none, and a unit in any case read as that many
      minutes, for every unit there is; an amount of nothing is not understood. */
  lemma EveryUnitReads(digits: string, spaces: string, word: string, size: nat)
    requires AllDigits(digits) && |digits| <= 4 && forall c <- spaces :: IsSpace(c)
    requires UnitMinutes(Lower(word)) == Some(size)
    ensures ParseRunMinutes(digits + (spaces + word))
            == if ParseNat(digits) > 0 then Ok(ParseNat(digits) * size) else Err("not understood")
  {
    SizeIsPositive(Lower(word));
    ListedIsSpelled(word);
    LexAmountOf(digits, spaces, word, size);
    AmountHasALimit(digits, spaces, word);
    hide *;
    ReadOnItsOwn(digits + (spaces + word), digits, spaces, word, ParseNat(digits), size);
  }

  lemma SizeIsPositive(unit: string)
    ensures UnitMinutes(unit).Some? ==> UnitMinutes(unit).value > 0
  {
    hide OneOf;
  }

  lemma ReadOnItsOwn(s: string, digits: string, spaces: string, word: string, amount: nat, size: nat)
    requires s == digits + (spaces + word) && AllDigits(digits) && (forall c <- spaces :: IsSpace(c))
    requires Spelled(word) && Strip(s) == s && !MeansNoLimit(Normalise(s))
    requires DurationHere(s) == Some(amount * size) && size > 0
    ensures ParseRunMinutes(s) == if amount > 0 then Ok(amount * size) else Err("not understood")
  {
    hide Listed, MeansNoLimit, Normalise, Strip, FindDuration, DurationHere, ParseRunMinutes;
    if amount > 0 {
      assert amount * size > 0;
      BeginsWithAmount(s, amount * size);
    } else {
      AmountIsFound(s);
      assert s[|digits| + |spaces|] == word[0];
      NoCommaInAmount(digits, spaces, word);
      NothingIsNoAmount(s, word[0]);
    }
  }

  lemma NoCommaInAmount(digits: string, spaces: string, word: string)
    requires AllDigits(digits) && (forall c <- spaces :: IsSpace(c)) && Spelled(word)
    ensures ',' !in digits + (spaces + word)
  {
    hide Listed;
    assert !IsDigit(',') && !IsSpace(',') && !WordChar(',');
    assert ',' !in digits && ',' !in spaces && ',' !in word;
  }
}
