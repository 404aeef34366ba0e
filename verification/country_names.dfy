/** Deciding that two spellings name the same country.

    Names are compared by their words, with case, spacing and words that carry no identity
    left aside, and by a list of aliases. Countries whose names contain each other form
    families, and inside a family only the listed spellings count.

    Words are taken out of the text letter by letter, so most of the work below is to show
    that tidying the text first, as callers do, changes no word. */
module CountryNames {
  import opened FiniteSets
  import opened Options
  import opened Text

  /** Words that carry no identity. */
  const NOISE: set<string> := {
    "the", "of", "and", "republic", "rep", "democratic", "dem", "people",
    "peoples", "state", "states", "kingdom", "united", "federal",
    "federation", "islamic", "arab", "new", "isle", "island", "islands",
    "territory", "territories", "province", "saint", "st"}

  /** Two names of one place that share no significant word. */
  const ALIASES: seq<set<string>> := [
    {"cotedivoire", "ivorycoast"},
    {"myanmar", "burma"},
    {"netherlands", "holland"},
    {"czechia", "czech", "czechrepublic"},
    {"eswatini", "swaziland"},
    {"timorleste", "easttimor"},
    {"capeverde", "caboverde"},
    {"unitedarabemirates", "uae", "emirates"},
    {"unitedstates", "unitedstatesofamerica", "usa", "us", "america"},
    {"unitedkingdom", "uk", "britain", "greatbritain"}]

  /** Countries whose names contain each other: every known spelling and its country, and
      the word that puts any other spelling in the family. */
  datatype Family = Family(keyword: string, spellings: map<string, string>)

  const FAMILIES: seq<Family> := [
    Family("congo", map[
      "congodrc" := "cd", "drcongo" := "cd", "drccongo" := "cd", "drc" := "cd",
      "democraticrepublicofthecongo" := "cd", "democraticrepublicofcongo" := "cd",
      "congokinshasa" := "cd", "congodemrep" := "cd", "congodemocraticrepublic" := "cd",
      "zaire" := "cd",
      "congo" := "cg", "republicofthecongo" := "cg", "republicofcongo" := "cg",
      "congobrazzaville" := "cg", "congorep" := "cg"]),
    Family("guinea", map[
      "guinea" := "gn", "republicofguinea" := "gn", "guineabissau" := "gw",
      "equatorialguinea" := "gq", "papuanewguinea" := "pg"]),
    Family("sudan", map["sudan" := "sd", "southsudan" := "ss"]),
    Family("korea", map[
      "southkorea" := "kr", "republicofkorea" := "kr", "koreasouth" := "kr", "korea" := "kr",
      "northkorea" := "kp", "koreanorth" := "kp", "democraticpeoplesrepublicofkorea" := "kp"]),
    Family("niger", map["niger" := "ne", "nigeria" := "ng"]),
    Family("dominica", map["dominica" := "dm", "dominicanrepublic" := "do"]),
    Family("samoa", map["samoa" := "ws", "americansamoa" := "as"]),
    Family("virginislands", map[
      "virginislands" := "vi", "usvirginislands" := "vi", "unitedstatesvirginislands" := "vi",
      "britishvirginislands" := "vg"])]

  // ------------------------------------------------------------------ //
  // Letters and words
  // ------------------------------------------------------------------ //

  predicate Alnum(c: char) { 'a' <= c <= 'z' || '0' <= c <= '9' }

  function RunLength(s: string): (n: nat)
    ensures n <= |s|
    ensures forall i :: 0 <= i < n ==> Alnum(s[i])
    ensures n < |s| ==> !Alnum(s[n])
  {
    if s == "" || !Alnum(s[0]) then 0 else 1 + RunLength(s[1..])
  }

  /** The maximal runs of letters and digits. */
  function Tokens(s: string): seq<string>
    decreases |s|
  {
    if s == "" then []
    else if !Alnum(s[0]) then Tokens(s[1..])
    else [s[..RunLength(s)]] + Tokens(s[RunLength(s)..])
  }

  function Squash(value: string): string { Join(Tokens(Lower(value)), "") }

  /** The significant words; all of them when every word is noise. */
  function SignificantWords(value: string): set<string> {
    var found := set w | w in Tokens(Lower(value));
    var significant := set w | w in found && w !in NOISE;
    if significant != {} then significant else found
  }

  // ------------------------------------------------------------------ //
  // Families
  // ------------------------------------------------------------------ //

  /** Which family a spelling belongs to, and its country if the spelling is listed. */
  datatype Membership = Membership(family: nat, code: Option<string>)

  function ListedIn(flat: string, i: nat): Option<Membership>
    requires i <= |FAMILIES|
    decreases |FAMILIES| - i
  {
    if i == |FAMILIES| then None
    else if flat in FAMILIES[i].spellings then Some(Membership(i, Some(FAMILIES[i].spellings[flat])))
    else ListedIn(flat, i + 1)
  }

  function KeywordIn(flat: string, i: nat): Option<Membership>
    requires i <= |FAMILIES|
    decreases |FAMILIES| - i
  {
    if i == |FAMILIES| then None
    else if Contains(flat, FAMILIES[i].keyword) then Some(Membership(i, None))
    else KeywordIn(flat, i + 1)
  }

  function FamilyOf(flat: string): Option<Membership> {
    var listed := ListedIn(flat, 0);
    if listed.Some? then listed else KeywordIn(flat, 0)
  }

  predicate Aliases(left: string, right: string) {
    exists alias <- ALIASES :: left in alias && right in alias
  }

  predicate SameCountry(left: string, right: string) {
    var leftFlat, rightFlat := Squash(left), Squash(right);
    if left == "" || right == "" then false
    else if leftFlat == "" || rightFlat == "" then false
    else if leftFlat == rightFlat then true
    else
      var leftFamily, rightFamily := FamilyOf(leftFlat), FamilyOf(rightFlat);
      if leftFamily.Some? || rightFamily.Some? then
        && leftFamily.Some? && rightFamily.Some?
        && leftFamily.value.family == rightFamily.value.family
        && leftFamily.value.code.Some?
        && leftFamily.value.code == rightFamily.value.code
      else if Aliases(leftFlat, rightFlat) then true
      else
        var leftWords, rightWords := SignificantWords(left), SignificantWords(right);
        if leftWords * rightWords == {} then
          StartsWith(leftFlat, rightFlat) || StartsWith(rightFlat, leftFlat)
        else if |leftWords| <= |rightWords| then leftWords <= rightWords
        else rightWords <= leftWords
  }

  // ------------------------------------------------------------------ //
  // Equivalence
  // ------------------------------------------------------------------ //

  lemma EqualSizeSubset(a: set<string>, b: set<string>)
    requires a <= b && |a| == |b|
    ensures a == b
  {
    if x :| x in b && x !in a {
      SubsetIsSmaller(a, b - {x});
    }
  }

  /** The order of the two names does not matter. */
  lemma SameCountryIsSymmetric(left: string, right: string)
    ensures SameCountry(left, right) <==> SameCountry(right, left)
  {
    var l, r := SignificantWords(left), SignificantWords(right);
    assert l * r == r * l;
    if |l| == |r| {
      if l <= r { EqualSizeSubset(l, r); }
      if r <= l { EqualSizeSubset(r, l); }
    }
  }

  /** A name is its own country exactly when it has a letter or a digit. */
  lemma SameCountryIsReflexive(name: string)
    ensures SameCountry(name, name) <==> Squash(name) != ""
  {
    if name == "" { assert Lower(name) == ""; }
  }

  /** Once one of two differently spelled names belongs to a colliding family, they match
      exactly when both are listed in that one family under the same country. */
  lemma FamiliesMatchByCodeOnly(left: string, right: string)
    requires Squash(left) != Squash(right)
    requires FamilyOf(Squash(left)).Some? || FamilyOf(Squash(right)).Some?
    ensures SameCountry(left, right) <==>
              Squash(left) != "" && Squash(right) != "" &&
              exists i, code :: 0 <= i < |FAMILIES|
                && FamilyOf(Squash(left)) == FamilyOf(Squash(right)) == Some(Membership(i, Some(code)))
                && Squash(left) in FAMILIES[i].spellings && Squash(right) in FAMILIES[i].spellings
                && FAMILIES[i].spellings[Squash(left)] == FAMILIES[i].spellings[Squash(right)] == code
  {
    ListedFacts(Squash(left), 0);
    ListedFacts(Squash(right), 0);
    KeywordFacts(Squash(left), 0);
    KeywordFacts(Squash(right), 0);
    if left == "" { assert Lower(left) == ""; }
    if right == "" { assert Lower(right) == ""; }
  }

  lemma {:induction false} ListedFacts(flat: string, i: nat)
    requires i <= |FAMILIES|
    ensures var m := ListedIn(flat, i);
            && (m.None? <==> forall j :: i <= j < |FAMILIES| ==> flat !in FAMILIES[j].spellings)
            && (m.Some? ==>
                  && i <= m.value.family < |FAMILIES|
                  && flat in FAMILIES[m.value.family].spellings
                  && m.value.code == Some(FAMILIES[m.value.family].spellings[flat]))
    decreases |FAMILIES| - i
  {
    if i < |FAMILIES| { ListedFacts(flat, i + 1); }
  }

  lemma {:induction false} KeywordFacts(flat: string, i: nat)
    requires i <= |FAMILIES|
    ensures var m := KeywordIn(flat, i);
            && (m.Some? ==> i <= m.value.family < |FAMILIES| && m.value.code.None?
                            && Contains(flat, FAMILIES[m.value.family].keyword))
    decreases |FAMILIES| - i
  {
    if i < |FAMILIES| { KeywordFacts(flat, i + 1); }
  }

  /** Names from two different families are never the same country. */
  lemma DifferentFamiliesNeverMatch(left: string, right: string)
    ensures
      var l, r := FamilyOf(Squash(left)), FamilyOf(Squash(right));
      l.Some? && r.Some? && l.value.family != r.value.family ==> !SameCountry(left, right)
  {
  }

  // ------------------------------------------------------------------ //
  // Case and spacing do not matter
  // ------------------------------------------------------------------ //

  lemma {:induction false} TokensSplit(a: string, b: string)
    requires b == "" || !Alnum(b[0])
    ensures Tokens(a + b) == Tokens(a) + Tokens(b)
    decreases |a|
  {
    if a == "" {
      assert a + b == b;
    } else if !Alnum(a[0]) {
      assert (a + b)[1..] == a[1..] + b;
      TokensSplit(a[1..], b);
    } else {
      var n := RunLength(a);
      RunIs(a + b, n);
      assert (a + b)[..n] == a[..n] && (a + b)[n..] == a[n..] + b;
      TokensSplit(a[n..], b);
    }
  }

  lemma {:induction false} RunIs(s: string, n: nat)
    requires n <= |s| && (forall i :: 0 <= i < n ==> Alnum(s[i])) && (n < |s| ==> !Alnum(s[n]))
    ensures RunLength(s) == n
  {
    if n > 0 { RunIs(s[1..], n - 1); }
  }

  lemma {:induction false} StripLeftKeepsTokens(s: string)
    ensures Tokens(Lower(StripLeft(s))) == Tokens(Lower(s))
  {
    if s != "" && IsSpace(s[0]) {
      StripLeftKeepsTokens(s[1..]);
      assert Lower(s)[1..] == Lower(s[1..]);
    }
  }

  lemma {:induction false} StripRightKeepsTokens(s: string)
    ensures Tokens(Lower(StripRight(s))) == Tokens(Lower(s))
  {
    if s != "" && IsSpace(s[|s| - 1]) {
      var rest, last := s[..|s| - 1], Lower([s[|s| - 1]]);
      StripRightKeepsTokens(rest);
      assert Lower(s) == Lower(rest) + last;
      TokensSplit(Lower(rest), last);
      assert last[1..] == "";
    }
  }

  function AllTokens(words: seq<string>): seq<string> {
    if words == [] then [] else Tokens(words[0]) + AllTokens(words[1..])
  }

  lemma {:induction false} JoinKeepsTokens(words: seq<string>)
    ensures Tokens(Join(words, " ")) == AllTokens(words)
  {
    if |words| == 1 {
      assert words[1..] == [];
    } else if |words| > 1 {
      JoinKeepsTokens(words[1..]);
      var rest := Join(words[1..], " ");
      assert Join(words, " ") == words[0] + (" " + rest);
      TokensSplit(words[0], " " + rest);
      assert (" " + rest)[1..] == rest;
    }
  }

  lemma {:induction false} WordsKeepTokens(s: string)
    ensures AllTokens(Words(s)) == Tokens(s)
    decreases |s|
  {
    if s != "" {
      if IsSpace(s[0]) {
        WordsKeepTokens(s[1..]);
      } else {
        var n := WordLength(s);
        WordsKeepTokens(s[n..]);
        assert s == s[..n] + s[n..];
        TokensSplit(s[..n], s[n..]);
        assert Words(s)[1..] == Words(s[n..]);
      }
    }
  }

  lemma {:induction false} WordsStayLower(s: string)
    requires forall i :: 0 <= i < |s| ==> LowerChar(s[i]) == s[i]
    ensures forall w <- Words(s) :: Lower(w) == w
    decreases |s|
  {
    if s != "" {
      if IsSpace(s[0]) {
        WordsStayLower(s[1..]);
      } else {
        WordsStayLower(s[WordLength(s)..]);
        assert Lower(s[..WordLength(s)]) == s[..WordLength(s)];
      }
    }
  }

  lemma {:induction false} JoinStaysLower(words: seq<string>)
    requires forall w <- words :: Lower(w) == w
    ensures Lower(Join(words, " ")) == Join(words, " ")
  {
    if |words| > 1 {
      assert forall w <- words[1..] :: w in words;
      JoinStaysLower(words[1..]);
      LowerAppend(words[0], " " + Join(words[1..], " "));
      LowerAppend(" ", Join(words[1..], " "));
      assert Lower(words[0]) == words[0];
      assert Join(words, " ") == words[0] + (" " + Join(words[1..], " "));
    } else if |words| == 1 {
      assert words[0] in words;
    }
  }

  lemma LowerAppend(a: string, b: string)
    ensures Lower(a + b) == Lower(a) + Lower(b)
  {
  }

  /** Normalising a name changes none of its words. */
  lemma NormaliseKeepsTokens(s: string)
    ensures Tokens(Lower(Normalise(s))) == Tokens(Lower(s))
  {
    var t := Lower(Strip(s));
    StripLeftKeepsTokens(s);
    StripRightKeepsTokens(StripLeft(s));
    WordsKeepTokens(t);
    JoinKeepsTokens(Words(t));
    WordsStayLower(t);
    JoinStaysLower(Words(t));
  }

  lemma NormalisingMakesNoDifference(left: string, right: string)
    ensures SameCountry(Normalise(left), Normalise(right)) <==> SameCountry(left, right)
  {
    NormaliseKeepsTokens(left);
    NormaliseKeepsTokens(right);
    assert Squash(Normalise(left)) == Squash(left) && Squash(Normalise(right)) == Squash(right);
    if left == "" { assert Lower(left) == ""; }
    if right == "" { assert Lower(right) == ""; }
    if Normalise(left) == "" { assert Lower(Normalise(left)) == ""; }
    if Normalise(right) == "" { assert Lower(Normalise(right)) == ""; }
  }

  // ------------------------------------------------------------------ //
  // Looking a country up in a stock report
  // ------------------------------------------------------------------ //

  datatype Line = Line(name: string, stock: int)

  /** Position of a name in a list of lines, or the length. */
  function Position(lines: seq<Line>, name: string): (i: nat)
    ensures i <= |lines|
    ensures i < |lines| ==> lines[i].name == name
    ensures forall j :: 0 <= j < i ==> lines[j].name != name
  {
    if lines == [] || lines[0].name == name then 0 else 1 + Position(lines[1..], name)
  }

  function Put(lines: seq<Line>, line: Line): seq<Line> {
    var i := Position(lines, line.name);
    if i < |lines| then lines[i := line] else lines + [line]
  }

  predicate DistinctNames(lines: seq<Line>) {
    forall a, b :: 0 <= a < b < |lines| ==> lines[a].name != lines[b].name
  }

  function FigureOf(lines: seq<Line>, name: string): Option<int> {
    var i := Position(lines, name);
    if i < |lines| then Some(lines[i].stock) else None
  }

  lemma PutReplacesOrAdds(lines: seq<Line>, line: Line, name: string)
    requires DistinctNames(lines)
    ensures DistinctNames(Put(lines, line))
    ensures FigureOf(Put(lines, line), name) == if name == line.name then Some(line.stock)
                                                 else FigureOf(lines, name)
  {
    var put := Put(lines, line);
    var i, j := Position(lines, name), Position(put, name);
    if name == line.name {
      assert put[Position(lines, name)].name == name;
    } else if i < |lines| {
      assert put[i].name == name;
      assert j < |put| && put[j].name == lines[i].name;
    }
  }

  /** The report under normalised names: a name seen again keeps its place and takes the
      later figure. */
  function Lowered(report: seq<Line>): seq<Line> {
    if report == [] then []
    else
      var front, last := Lowered(report[..|report| - 1]), report[|report| - 1];
      Put(front, Line(Normalise(last.name), last.stock))
  }

  function FirstMatch(lines: seq<Line>, wanted: string): Option<int> {
    if lines == [] then None
    else if SameCountry(lines[0].name, wanted) then Some(lines[0].stock)
    else FirstMatch(lines[1..], wanted)
  }

  /** The stock figure for a country, however the report spells it. */
  function Find(report: seq<Line>, country: string): Option<int> {
    var wanted, lowered := Normalise(country), Lowered(report);
    var i := Position(lowered, wanted);
    if i < |lowered| then Some(lowered[i].stock) else FirstMatch(lowered, wanted)
  }

  predicate Matches(line: Line, country: string) {
    Normalise(line.name) == Normalise(country) || SameCountry(line.name, country)
  }

  /** The last report line under a normalised name. */
  function LastUnder(report: seq<Line>, name: string): Option<int> {
    if report == [] then None
    else if Normalise(report[|report| - 1].name) == name then Some(report[|report| - 1].stock)
    else LastUnder(report[..|report| - 1], name)
  }

  lemma {:induction false} LoweredIs(report: seq<Line>, name: string)
    ensures DistinctNames(Lowered(report))
    ensures FigureOf(Lowered(report), name) == LastUnder(report, name)
  {
    if report != [] {
      var n := |report| - 1;
      LoweredIs(report[..n], name);
      PutReplacesOrAdds(Lowered(report[..n]), Line(Normalise(report[n].name), report[n].stock), name);
    }
  }

  lemma {:induction false} LastUnderIs(report: seq<Line>, name: string)
    ensures LastUnder(report, name).Some? <==> exists line <- report :: Normalise(line.name) == name
    ensures LastUnder(report, name).Some? ==>
              exists line <- report :: Normalise(line.name) == name && LastUnder(report, name) == Some(line.stock)
  {
    if report != [] {
      var n := |report| - 1;
      assert report == report[..n] + [report[n]];
      LastUnderIs(report[..n], name);
      assert report[n] in report;
    }
  }

  lemma {:induction false} FirstMatchIs(lines: seq<Line>, wanted: string)
    ensures FirstMatch(lines, wanted).None? <==> forall line <- lines :: !SameCountry(line.name, wanted)
    ensures FirstMatch(lines, wanted).Some? ==>
              exists line <- lines :: SameCountry(line.name, wanted) && FirstMatch(lines, wanted) == Some(line.stock)
  {
    if lines != [] {
      assert lines == [lines[0]] + lines[1..];
      FirstMatchIs(lines[1..], wanted);
      assert lines[0] in lines;
    }
  }

  lemma LoweredLineIsReal(report: seq<Line>, line: Line)
    requires line in Lowered(report)
    ensures exists original <- report :: Normalise(original.name) == line.name && original.stock == line.stock
  {
    LoweredIs(report, line.name);
    LastUnderIs(report, line.name);
    var i :| 0 <= i < |Lowered(report)| && Lowered(report)[i] == line;
    assert Position(Lowered(report), line.name) == i;
  }

  /** An exact entry, up to case and spacing, is what is returned (the last one, should it
      be repeated). Otherwise any figure returned belongs to a line that names the same
      country, and nothing is returned only when no line matches. */
  lemma FindIsExact(report: seq<Line>, country: string)
    ensures LastUnder(report, Normalise(country)).Some? ==>
              Find(report, country) == LastUnder(report, Normalise(country))
    ensures Find(report, country).Some? ==>
              exists line <- report :: Matches(line, country) && Find(report, country) == Some(line.stock)
    ensures Find(report, country).None? <==> forall line <- report :: !Matches(line, country)
  {
    var wanted, lowered := Normalise(country), Lowered(report);
    LoweredIs(report, wanted);
    LastUnderIs(report, wanted);
    if LastUnder(report, wanted).None? {
      FirstMatchIs(lowered, wanted);
      if Find(report, country).Some? {
        var line :| line in lowered && SameCountry(line.name, wanted)
                    && FirstMatch(lowered, wanted) == Some(line.stock);
        LoweredLineIsReal(report, line);
        var original :| original in report && Normalise(original.name) == line.name && original.stock == line.stock;
        NormalisingMakesNoDifference(original.name, country);
        assert Matches(original, country);
      } else {
        forall line | line in report ensures !Matches(line, country) {
          NormalisingMakesNoDifference(line.name, country);
          LoweredIs(report, Normalise(line.name));
          LastUnderIs(report, Normalise(line.name));
          var i := Position(lowered, Normalise(line.name));
          assert lowered[i] in lowered;
        }
      }
    }
  }
}
