/** When two names are the same country, from the letters and words they are written with. */
module CountryWords {
  import opened CountryNames
  import opened Options
  import opened Text

  predicate LetterOrDigit(c: char) { 'a' <= c <= 'z' || '0' <= c <= '9' }

  /** The letters and digits of a text, in order. */
  function Letters(s: string): string {
    if s == "" then "" else (if LetterOrDigit(s[0]) then [s[0]] else "") + Letters(s[1..])
  }

  /** A word stands from `i` to `j`: letters and digits, and none on either side. */
  predicate WordAt(s: string, i: int, j: int) {
    && 0 <= i < j <= |s|
    && (forall k :: i <= k < j ==> LetterOrDigit(s[k]))
    && (i > 0 ==> !LetterOrDigit(s[i - 1]))
    && (j < |s| ==> !LetterOrDigit(s[j]))
  }

  ghost predicate IsWordOf(s: string, w: string) { exists i, j :: WordAt(s, i, j) && s[i..j] == w }

  /** A word that carries identity; every word does when all of them are noise. */
  ghost predicate Significant(name: string, w: string) {
    && IsWordOf(Lower(name), w)
    && (w in NOISE ==> forall u :: IsWordOf(Lower(name), u) ==> u in NOISE)
  }

  // ------------------------------------------------------------------ //
  // Tokens are words, and squashing leaves the letters
  // ------------------------------------------------------------------ //

  lemma {:induction false} SquashedIsLetters(s: string)
    ensures Join(Tokens(s), "") == Letters(s)
    decreases |s|
  {
    if s != "" {
      if !Alnum(s[0]) {
        SquashedIsLetters(s[1..]);
      } else {
        var n := RunLength(s);
        SquashedIsLetters(s[n..]);
        RunIsLetters(s, n);
        var rest := Tokens(s[n..]);
        assert Tokens(s)[1..] == rest;
        assert rest == [] ==> Letters(s[n..]) == "";
        assert s[..n] + "" == s[..n];
      }
    }
  }

  lemma {:induction false} RunIsLetters(s: string, n: nat)
    requires n <= |s| && forall i :: 0 <= i < n ==> Alnum(s[i])
    ensures Letters(s) == s[..n] + Letters(s[n..])
  {
    if n == 0 {
      assert s[0..] == s;
    } else {
      RunIsLetters(s[1..], n - 1);
      assert s[1..][n - 1..] == s[n..] && s[..n] == [s[0]] + s[1..][..n - 1];
    }
  }

  lemma WordsFurtherOn(s: string, from: nat, w: string)
    requires 0 < from <= |s|
    requires from < |s| ==> !LetterOrDigit(s[from]) || !LetterOrDigit(s[from - 1])
    ensures IsWordOf(s[from..], w) ==> IsWordOf(s, w)
    ensures (exists i, j :: i >= from && WordAt(s, i, j) && s[i..j] == w) ==> IsWordOf(s[from..], w)
  {
    var t := s[from..];
    assert forall k :: 0 <= k < |t| ==> t[k] == s[from + k];
    if i, j :| WordAt(t, i, j) && t[i..j] == w {
      assert t[i] == s[from + i];
      assert forall k :: from + i <= k < from + j ==> s[k] == t[k - from];
      assert WordAt(s, from + i, from + j) && s[from + i..from + j] == w;
    }
    if i, j :| i >= from && WordAt(s, i, j) && s[i..j] == w {
      assert forall k :: i - from <= k < j - from ==> t[k] == s[from + k];
      assert WordAt(t, i - from, j - from) && t[i - from..j - from] == w;
    }
  }

  lemma {:induction false} TokensAreWords(s: string, w: string)
    ensures w in Tokens(s) <==> IsWordOf(s, w)
    decreases |s|
  {
    if s != "" {
      var n := if Alnum(s[0]) then RunLength(s) else 1;
      TokensAreWords(s[n..], w);
      WordsFurtherOn(s, n, w);
      if Alnum(s[0]) {
        assert WordAt(s, 0, n);
        assert Tokens(s) == [s[..n]] + Tokens(s[n..]);
        if i, j :| WordAt(s, i, j) && s[i..j] == w {
          FirstWordOrLater(s, n, i, j);
        }
      } else if i, j :| WordAt(s, i, j) && s[i..j] == w {
        assert i != 0;
      }
    }
  }

  lemma FirstWordOrLater(s: string, n: nat, i: int, j: int)
    requires WordAt(s, 0, n) && WordAt(s, i, j)
    ensures (i == 0 && j == n) || i >= n
  {
    assert n < |s| ==> !LetterOrDigit(s[n]);
    assert j < |s| ==> !LetterOrDigit(s[j]);
    assert i > 0 ==> !LetterOrDigit(s[i - 1]);
  }

  lemma SignificantWordsAre(name: string, w: string)
    ensures w in SignificantWords(name) <==> Significant(name, w)
  {
    forall u: string ensures u in Tokens(Lower(name)) <==> IsWordOf(Lower(name), u) {
      TokensAreWords(Lower(name), u);
    }
    hide IsWordOf, Tokens;
    var found := set u | u in Tokens(Lower(name));
    var significant := set u | u in found && u !in NOISE;
    assert significant == {} <==> forall u :: IsWordOf(Lower(name), u) ==> u in NOISE by {
      if u :| IsWordOf(Lower(name), u) && u !in NOISE { assert u in significant; }
    }
  }

  // ------------------------------------------------------------------ //
  // Normalised names
  // ------------------------------------------------------------------ //

  predicate Tight(words: seq<string>) {
    forall w <- words :: w != "" && forall i :: 0 <= i < |w| ==> !IsSpace(w[i])
  }

  lemma {:induction false} WordsAreTight(s: string)
    ensures Tight(Words(s))
    decreases |s|
  {
    if s != "" {
      WordsAreTight(if IsSpace(s[0]) then s[1..] else s[WordLength(s)..]);
    }
  }

  lemma {:induction false} WordLengthIs(s: string, n: nat)
    requires n <= |s| && (forall i :: 0 <= i < n ==> !IsSpace(s[i])) && (n < |s| ==> IsSpace(s[n]))
    ensures WordLength(s) == n
  {
  }

  lemma WordsStart(w: string, rest: string)
    requires w != "" && forall i :: 0 <= i < |w| ==> !IsSpace(w[i])
    requires rest == "" || IsSpace(rest[0])
    ensures Words(w + rest) == [w] + Words(rest)
  {
    var whole := w + rest;
    WordLengthIs(whole, |w|);
    assert whole[..|w|] == w && whole[|w|..] == rest;
  }

  lemma WordsAfterSpace(rest: string)
    ensures Words(" " + rest) == Words(rest) && Words("") == []
  {
    assert (" " + rest)[1..] == rest;
  }

  lemma TightParts(words: seq<string>)
    requires Tight(words) && words != []
    ensures words[0] != "" && (forall i :: 0 <= i < |words[0]| ==> !IsSpace(words[0][i])) && Tight(words[1..])
  {
    assert words[0] in words && forall u <- words[1..] :: u in words;
  }

  lemma JoinParts(words: seq<string>)
    requires words != []
    ensures Join(words, " ") == words[0] + if |words| == 1 then "" else " " + Join(words[1..], " ")
    ensures |words| == 1 ==> Join(words[1..], " ") == ""
  {
  }

  lemma {:induction false} WordsOfJoin(words: seq<string>)
    requires Tight(words)
    ensures Words(Join(words, " ")) == words
  {
    if words != [] {
      TightParts(words);
      JoinParts(words);
      hide Tight, Words, Join;
      var w, rest := words[0], Join(words[1..], " ");
      WordsOfJoin(words[1..]);
      WordsAfterSpace(rest);
      WordsStart(w, if |words| == 1 then "" else " " + rest);
      assert words == [w] + words[1..];
    }
  }

  lemma {:induction false} WordsWithoutEdges(s: string)
    ensures Words(StripLeft(s)) == Words(s)
  {
    if s != "" && IsSpace(s[0]) { WordsWithoutEdges(s[1..]); }
  }

  lemma {:induction false} WordsBeforeSpace(s: string, c: char)
    requires IsSpace(c)
    ensures Words(s + [c]) == Words(s)
    decreases |s|
  {
    var t := s + [c];
    if s == "" {
      assert t[1..] == "";
    } else if IsSpace(s[0]) {
      assert t[1..] == s[1..] + [c];
      WordsBeforeSpace(s[1..], c);
    } else {
      var n := WordLength(s);
      WordLengthIs(t, n);
      assert t[..n] == s[..n] && t[n..] == s[n..] + [c];
      WordsBeforeSpace(s[n..], c);
    }
  }

  lemma {:induction false} WordsWithoutTail(s: string)
    ensures Words(StripRight(s)) == Words(s)
  {
    if s != "" && IsSpace(s[|s| - 1]) {
      var n := |s| - 1;
      WordsWithoutTail(s[..n]);
      WordsBeforeSpace(s[..n], s[n]);
      assert s[..n] + [s[n]] == s;
    }
  }

  lemma {:induction false} LowerStripLeft(s: string)
    ensures Lower(StripLeft(s)) == StripLeft(Lower(s))
  {
    if s != "" && IsSpace(s[0]) {
      assert Lower(s)[1..] == Lower(s[1..]);
      LowerStripLeft(s[1..]);
    }
  }

  lemma {:induction false} LowerStripRight(s: string)
    ensures Lower(StripRight(s)) == StripRight(Lower(s))
  {
    if s != "" && IsSpace(s[|s| - 1]) {
      assert Lower(s)[..|s| - 1] == Lower(s[..|s| - 1]);
      LowerStripRight(s[..|s| - 1]);
    }
  }

  /** Names share a key exactly when they have the same words, in any case and spacing. */
  lemma SameKeyIff(left: string, right: string)
    ensures Normalise(left) == Normalise(right) <==> Words(Lower(left)) == Words(Lower(right))
  {
    KeyHasTheWords(left);
    KeyHasTheWords(right);
  }

  lemma KeyHasTheWords(name: string)
    ensures Words(Normalise(name)) == Words(Lower(name)) && Normalise(name) == Join(Words(Lower(name)), " ")
  {
    LowerStripLeft(name);
    LowerStripRight(StripLeft(name));
    WordsWithoutEdges(Lower(name));
    WordsWithoutTail(StripLeft(Lower(name)));
    WordsAreTight(Lower(name));
    WordsOfJoin(Words(Lower(name)));
    hide Words, Join, StripLeft, StripRight, Lower;
  }

  // ------------------------------------------------------------------ //
  // Families and aliases
  // ------------------------------------------------------------------ //

  /** The letters are a listed spelling of a family, or contain its word. */
  predicate Touches(letters: string) {
    exists i | 0 <= i < |FAMILIES| :: letters in FAMILIES[i].spellings || Contains(letters, FAMILIES[i].keyword)
  }

  /** Both are listed in one family, the first that lists either, for the same country. */
  predicate ListedTogether(l: string, r: string) {
    exists i | 0 <= i < |FAMILIES| :: FirstListed(l, i) && FirstListed(r, i)
                                      && FAMILIES[i].spellings[l] == FAMILIES[i].spellings[r]
  }

  predicate FirstListed(letters: string, i: int)
    requires 0 <= i < |FAMILIES|
  {
    letters in FAMILIES[i].spellings && forall j | 0 <= j < i :: letters !in FAMILIES[j].spellings
  }

  lemma {:induction false} ListedInIsFirst(flat: string, i: nat)
    requires i <= |FAMILIES|
    ensures ListedIn(flat, i).Some? ==>
              var m := ListedIn(flat, i).value;
              && i <= m.family < |FAMILIES| && flat in FAMILIES[m.family].spellings
              && m.code == Some(FAMILIES[m.family].spellings[flat])
              && forall j :: i <= j < m.family ==> flat !in FAMILIES[j].spellings
    ensures ListedIn(flat, i).None? ==> forall j :: i <= j < |FAMILIES| ==> flat !in FAMILIES[j].spellings
    decreases |FAMILIES| - i
  {
    hide FAMILIES;
    if i < |FAMILIES| { ListedInIsFirst(flat, i + 1); }
  }

  lemma {:induction false} KeywordInIs(flat: string, i: nat)
    requires i <= |FAMILIES|
    ensures KeywordIn(flat, i).Some? <==>
              exists j :: i <= j < |FAMILIES| && Contains(flat, FAMILIES[j].keyword)
    ensures KeywordIn(flat, i).Some? ==> KeywordIn(flat, i).value.code.None?
    decreases |FAMILIES| - i
  {
    hide FAMILIES, Contains;
    if i < |FAMILIES| { KeywordInIs(flat, i + 1); }
  }

  lemma FamilyIs(flat: string)
    ensures FamilyOf(flat).Some? <==> Touches(flat)
    ensures FamilyOf(flat).Some? && FamilyOf(flat).value.code.Some? ==>
              var m := FamilyOf(flat).value;
              m.family < |FAMILIES| && FirstListed(flat, m.family)
              && m.code == Some(FAMILIES[m.family].spellings[flat])
    ensures forall i | 0 <= i < |FAMILIES| && FirstListed(flat, i) ::
              FamilyOf(flat) == Some(Membership(i, Some(FAMILIES[i].spellings[flat])))
  {
    ListedInIsFirst(flat, 0);
    KeywordInIs(flat, 0);
    hide FAMILIES, Contains, ListedIn, KeywordIn;
    forall i | 0 <= i < |FAMILIES| && FirstListed(flat, i)
      ensures FamilyOf(flat) == Some(Membership(i, Some(FAMILIES[i].spellings[flat])))
    {
      var m := ListedIn(flat, 0).value;
      assert m.family == i;
    }
  }

  predicate AliasTogether(l: string, r: string) {
    exists i | 0 <= i < |ALIASES| :: l in ALIASES[i] && r in ALIASES[i]
  }

  // ------------------------------------------------------------------ //
  // The whole relation
  // ------------------------------------------------------------------ //

  /** Every significant word of the one is one of the other. */
  ghost predicate Within(left: string, right: string) {
    forall w :: Significant(left, w) ==> Significant(right, w)
  }

  ghost predicate ShareAWord(left: string, right: string) {
    exists w :: Significant(left, w) && Significant(right, w)
  }

  /** When names that touch no family match: by an alias; with a significant word in common,
      when all those of one are among the other's; without, when the letters of one begin
      with the letters of the other. */
  ghost predicate Alike(left: string, right: string) {
    var l, r := Letters(Lower(left)), Letters(Lower(right));
    || AliasTogether(l, r)
    || if ShareAWord(left, right) then Within(left, right) || Within(right, left)
       else StartsWith(l, r) || StartsWith(r, l)
  }

  lemma BySize(a: set<string>, b: set<string>)
    ensures (if |a| <= |b| then a <= b else b <= a) <==> a <= b || b <= a
  {
    if a <= b && |a| > |b| { SubsetSize(a, b); }
    if b <= a && |b| >= |a| {
      SubsetSize(b, a);
      EqualSizeSubset(b, a);
    }
  }

  lemma {:induction false} SubsetSize(a: set<string>, b: set<string>)
    requires a <= b
    ensures |a| <= |b|
  {
    if x :| x in a {
      SubsetSize(a - {x}, b - {x});
    }
  }

  lemma WordsDecide(left: string, right: string)
    ensures
      var a, b := SignificantWords(left), SignificantWords(right);
      && (a * b != {} <==> ShareAWord(left, right))
      && (a <= b <==> Within(left, right)) && (b <= a <==> Within(right, left))
  {
    forall w ensures w in SignificantWords(left) <==> Significant(left, w) {
      SignificantWordsAre(left, w);
    }
    forall w ensures w in SignificantWords(right) <==> Significant(right, w) {
      SignificantWordsAre(right, w);
    }
    hide SignificantWords, Significant;
    var a, b := SignificantWords(left), SignificantWords(right);
    if w :| Significant(left, w) && Significant(right, w) { assert w in a * b; }
    if a * b != {} {
      var w :| w in a * b;
      assert Significant(left, w);
    }
  }

  /** Two names are the same country exactly when both have a letter or digit and: their
      letters are the same; or, if either touches a family of colliding names, both are
      listed there for one country; or else they are alike. */
  lemma SameCountryIff(left: string, right: string)
    ensures
      var l, r := Letters(Lower(left)), Letters(Lower(right));
      SameCountry(left, right) <==>
        && l != "" && r != ""
        && (|| l == r
            || (if Touches(l) || Touches(r) then ListedTogether(l, r) else Alike(left, right)))
  {
    SquashedIsLetters(Lower(left));
    SquashedIsLetters(Lower(right));
    var l, r := Letters(Lower(left)), Letters(Lower(right));
    FamilyIs(l);
    FamilyIs(r);
    WordsDecide(left, right);
    BySize(SignificantWords(left), SignificantWords(right));
    assert left == "" ==> Lower(left) == "";
    assert right == "" ==> Lower(right) == "";
    assert Aliases(l, r) <==> AliasTogether(l, r) by { SameAliases(l, r); }
    hide FAMILIES, ALIASES, FamilyOf, Touches, Letters, Tokens, Join, Lower, SignificantWords,
      ShareAWord, Within, StartsWith, Aliases, AliasTogether;
  }

  lemma SameAliases(l: string, r: string)
    ensures Aliases(l, r) <==> AliasTogether(l, r)
  {
    hide ALIASES;
  }
}
