/** The policy judges the text of a path, and the sandbox follows it to a file. */
module ProtectedFiles {
  import opened Autonomy
  import opened Options
  import opened Text

  function ToSlash(s: string): (n: nat)
    ensures n <= |s| && (forall i :: 0 <= i < n ==> s[i] != '/') && (n < |s| ==> s[n] == '/')
  {
    if s == "" || s[0] == '/' then 0 else 1 + ToSlash(s[1..])
  }

  /** The pieces between slashes, empty ones included. */
  function Segments(s: string): seq<string>
    decreases |s|
  {
    var n := ToSlash(s);
    if n == |s| then [s] else [s[..n]] + Segments(s[n + 1..])
  }

  predicate Dotted(segment: string) { segment == "" || segment == "." || segment == ".." }

  /** Walking down from the workspace; None on stepping out of it. */
  function Walk(at: seq<string>, segments: seq<string>): Option<seq<string>>
    decreases |segments|
  {
    if segments == [] then Some(at)
    else if segments[0] == "" || segments[0] == "." then Walk(at, segments[1..])
    else if segments[0] == ".." then
      if at == [] then None else Walk(at[..|at| - 1], segments[1..])
    else Walk(at + [segments[0]], segments[1..])
  }

  /** The file below the workspace that a relative path leads to, by its plain name. */
  function Located(path: string): Option<string> {
    var p := Strip(path);
    if p == "" || p[0] == '/' then None
    else
      var walked := Walk([], Segments(p));
      if walked.None? then None else Some(Join(walked.value, "/"))
  }

  function Weight(segments: seq<string>): nat {
    if segments == [] then 0 else |segments[0]| + 1 + Weight(segments[1..])
  }

  lemma {:induction false} WeightAppend(a: seq<string>, b: seq<string>)
    ensures Weight(a + b) == Weight(a) + Weight(b)
  {
    if a == [] {
      assert a + b == b;
    } else {
      assert (a + b)[0] == a[0] && (a + b)[1..] == a[1..] + b;
      WeightAppend(a[1..], b);
    }
  }

  lemma {:induction false} JoinWeighs(segments: seq<string>)
    ensures segments == [] ==> Join(segments, "/") == ""
    ensures segments != [] ==> |Join(segments, "/")| + 1 == Weight(segments)
  {
    if |segments| == 1 {
      assert segments[1..] == [];
    } else if |segments| > 1 {
      JoinWeighs(segments[1..]);
    }
  }

  lemma {:induction false} SegmentsJoin(s: string)
    ensures Segments(s) != [] && Join(Segments(s), "/") == s
    decreases |s|
  {
    var n := ToSlash(s);
    if n < |s| {
      SegmentsJoin(s[n + 1..]);
      var rest := Segments(s[n + 1..]);
      assert ([s[..n]] + rest)[1..] == rest;
      assert s == s[..n] + "/" + s[n + 1..];
    }
  }

  lemma {:induction false} PlainWalk(at: seq<string>, segments: seq<string>)
    requires forall x <- segments :: !Dotted(x)
    ensures Walk(at, segments) == Some(at + segments)
    decreases |segments|
  {
    if segments == [] {
      assert at + segments == at;
    } else {
      assert segments[0] in segments;
      PlainWalk(at + [segments[0]], segments[1..]);
      assert at + [segments[0]] + segments[1..] == at + segments;
    }
  }

  /** A walk never gains, and loses on every dot segment. */
  lemma {:induction false} WalkLoses(at: seq<string>, segments: seq<string>)
    requires Walk(at, segments).Some?
    ensures Weight(Walk(at, segments).value) <= Weight(at) + Weight(segments)
    ensures (exists x <- segments :: Dotted(x)) ==>
              Weight(Walk(at, segments).value) < Weight(at) + Weight(segments)
    decreases |segments|
  {
    if segments != [] {
      var head, rest := segments[0], segments[1..];
      assert forall x <- segments :: x == head || x in rest;
      if head == "" || head == "." {
        WalkLoses(at, rest);
      } else if head == ".." {
        assert at == at[..|at| - 1] + [at[|at| - 1]];
        WeightAppend(at[..|at| - 1], [at[|at| - 1]]);
        WalkLoses(at[..|at| - 1], rest);
      } else {
        WeightAppend(at, [head]);
        assert [head][1..] == [];
        WalkLoses(at + [head], rest);
      }
    }
  }

  lemma StripIsShorter(s: string)
    ensures |Strip(s)| <= |s| && (|Strip(s)| == |s| ==> Strip(s) == s)
  {
    LeftIsShorter(s);
    StripRightTight(StripLeft(s));
  }

  lemma {:induction false} LeftIsShorter(s: string)
    ensures |StripLeft(s)| <= |s| && (|StripLeft(s)| == |s| ==> StripLeft(s) == s)
  {
    if s != "" && IsSpace(s[0]) { LeftIsShorter(s[1..]); }
  }

  /** The file that a path leads to has the very text of the path as its name exactly when
      the text has no space around it and no segment that is empty, "." or "..". */
  lemma TextIsTheFileIff(path: string)
    ensures Located(path) == Some(path) <==>
              Strip(path) == path && forall x <- Segments(path) :: !Dotted(x)
  {
    var p := Strip(path);
    StripIsShorter(path);
    SegmentsJoin(p);
    JoinWeighs(Segments(p));
    assert Weight([]) == 0;
    if p == path && forall x <- Segments(path) :: !Dotted(x) {
      hide Strip, Segments, Join, Weight;
      PlainStart(path);
      PlainWalk([], Segments(path));
      assert [] + Segments(path) == Segments(path);
    } else if Located(path).Some? {
      hide Strip, Segments, Walk, Join, Weight, Dotted;
      WalkLoses([], Segments(p));
      JoinWeighs(Walk([], Segments(p)).value);
    }
  }

  lemma PlainStart(path: string)
    requires forall x <- Segments(path) :: !Dotted(x)
    ensures path != "" && path[0] != '/'
  {
    assert Segments(path)[0] in Segments(path);
  }

  // ------------------------------------------------------------------ //
  // What the policy drops from the text
  // ------------------------------------------------------------------ //

  /** What the policy drops in front, and turns elsewhere. */
  predicate Dropped(c: char) { c == '.' || c == '/' || c == '\\' }

  /** The dots and slashes in front, which the policy does not look at. */
  function Front(path: string): string { path[..|path| - |NormPath(path)|] }

  lemma {:induction false} DropsTheFront(s: string)
    ensures
      var k := |s| - |StripDots(s)|;
      && StripDots(s) == s[k..]
      && (forall i :: 0 <= i < k ==> s[i] == '.' || s[i] == '/')
      && (k < |s| ==> s[k] != '.' && s[k] != '/')
  {
    if s != "" && (s[0] == '.' || s[0] == '/') { DropsTheFront(s[1..]); }
  }

  lemma FrontIs(path: string)
    ensures
      var r, k := NormPath(path), |Front(path)|;
      && |path| == k + |r|
      && (forall i :: 0 <= i < k ==> Dropped(path[i]))
      && (forall i :: 0 <= i < |r| ==> r[i] == if path[k + i] == '\\' then '/' else path[k + i])
      && (r != "" ==> r[0] != '.' && r[0] != '/')
  {
    var turned := Replace(path, '\\', '/');
    DropsTheFront(turned);
    var k := |path| - |NormPath(path)|;
    assert |Front(path)| == k;
    forall i | 0 <= i < k ensures Dropped(path[i]) {
      assert turned[i] == '.' || turned[i] == '/';
    }
    forall i | 0 <= i < |path| - k
      ensures NormPath(path)[i] == if path[k + i] == '\\' then '/' else path[k + i]
    {
      assert NormPath(path)[i] == turned[k..][i] == turned[k + i];
    }
  }

  /** Letters: nothing that the policy drops or turns. */
  predicate Wordy(word: string) { word != "" && forall i :: 0 <= i < |word| ==> !Dropped(word[i]) }

  lemma WordsStayInPlace(path: string, word: string, j: nat)
    requires Wordy(word)
    ensures OccursAt(path, word, j) <==>
              j >= |Front(path)| && OccursAt(NormPath(path), word, j - |Front(path)|)
  {
    FrontIs(path);
    hide NormPath, Front;
    var r, k, n := NormPath(path), |Front(path)|, |word|;
    if OccursAt(path, word, j) {
      assert path[j..j + n][0] == path[j] == word[0];
      forall i | 0 <= i < n ensures r[j - k..j - k + n][i] == word[i] {
        assert path[j..j + n][i] == path[j + i] == word[i] && !Dropped(word[i]);
      }
      assert r[j - k..j - k + n] == word;
    }
    if j >= k && OccursAt(r, word, j - k) {
      forall i | 0 <= i < n ensures path[j..j + n][i] == word[i] {
        assert r[j - k..j - k + n][i] == r[j - k + i];
        assert !Dropped(word[i]);
      }
      assert path[j..j + n] == word;
    }
  }

  lemma NamedBelowAt(s: string, word: string)
    ensures NamedBelow(s, word) <==> exists i: nat, j: nat :: i < |s| && s[i] == '/' && i < j && OccursAt(s, word, j)
  {
    if NamedBelow(s, word) {
      var i :| 0 <= i < |s| && s[i] == '/' && Contains(s[i + 1..], word);
      var j :| 0 <= j <= |s[i + 1..]| && OccursAt(s[i + 1..], word, j);
      CutOccurs(s, word, i + 1, j);
      assert OccursAt(s, word, i + 1 + j);
    }
    if i: nat, j: nat :| i < |s| && s[i] == '/' && i < j && OccursAt(s, word, j) {
      CutOccurs(s, word, i + 1, j - i - 1);
      assert OccursAt(s[i + 1..], word, j - i - 1);
    }
  }

  lemma CutOccurs(s: string, word: string, from: nat, j: nat)
    requires from <= |s|
    ensures OccursAt(s[from..], word, j) <==> OccursAt(s, word, from + j)
  {
    if from + j + |word| <= |s| { assert s[from..][j..j + |word|] == s[from + j..from + j + |word|]; }
  }

  /** A word below a slash is still below one, unless that slash was dropped. */
  lemma BelowAfterDropping(path: string, word: string)
    requires Wordy(word) && !NamedBelow(NormPath(path), word)
    ensures NamedBelow(path, word) <==> '/' in Front(path) && Contains(NormPath(path), word)
  {
    hide NormPath, Front, NamedBelow, Wordy, Contains;
    OnlyTheFrontIsDropped(path, word);
    if '/' in Front(path) && Contains(NormPath(path), word) { TheFrontIsInFront(path, word); }
  }

  lemma OnlyTheFrontIsDropped(path: string, word: string)
    requires Wordy(word)
    ensures NamedBelow(path, word) ==>
              NamedBelow(NormPath(path), word) || ('/' in Front(path) && Contains(NormPath(path), word))
  {
    FrontIs(path);
    FrontStarts(path);
    NamedBelowAt(path, word);
    NamedBelowAt(NormPath(path), word);
    hide NormPath, Front, NamedBelow, Wordy, OccursAt;
    var r, k := NormPath(path), |Front(path)|;
    if i: nat, j: nat :| i < |path| && path[i] == '/' && i < j && OccursAt(path, word, j) {
      WordsStayInPlace(path, word, j);
      OccursWithin(r, word, j - k);
      if i >= k {
        assert r[i - k] == '/' && OccursAt(r, word, j - k);
      } else {
        assert Front(path)[i] == '/';
      }
    }
  }

  lemma TheFrontIsInFront(path: string, word: string)
    requires Wordy(word) && '/' in Front(path) && Contains(NormPath(path), word)
    ensures NamedBelow(path, word)
  {
    FrontIs(path);
    FrontStarts(path);
    NamedBelowAt(path, word);
    hide NormPath, Front, NamedBelow, Wordy, OccursAt;
    var r, k := NormPath(path), |Front(path)|;
    var i: nat :| i < k && Front(path)[i] == '/';
    var j: nat :| j <= |r| && OccursAt(r, word, j);
    WordsStayInPlace(path, word, j + k);
    assert path[i] == '/' && i < j + k;
  }

  lemma OccursWithin(s: string, word: string, j: int)
    requires OccursAt(s, word, j)
    ensures 0 <= j <= |s|
  {
  }

  lemma FrontStarts(path: string)
    ensures Front(path) == path[..|Front(path)|]
  {
  }

  lemma TailAfterDropping(path: string)
    ensures EndsWith(path, ".env") <==>
              EndsWith(NormPath(path), ".env") || (NormPath(path) == "env" && EndsWith(Front(path), "."))
  {
    FrontIs(path);
    FrontStarts(path);
    hide NormPath, Front;
    var r, k, n := NormPath(path), |Front(path)|, |path|;
    if EndsWith(path, ".env") {
      assert path[n - 4..][0] == '.' && path[n - 4..][1] == 'e' && path[n - 4..][2] == 'n' && path[n - 4..][3] == 'v';
      assert !Dropped(path[n - 3]);
      assert n - 3 >= k;
      if |r| >= 4 {
        assert r[|r| - 4..] == [r[|r| - 4], r[|r| - 3], r[|r| - 2], r[|r| - 1]];
      } else {
        assert r == [r[0], r[1], r[2]];
        assert Front(path)[k - 1..] == ".";
      }
    }
    if |r| >= 4 && r[|r| - 4..] == ".env" {
      assert r[|r| - 4..][0] == '.' && r[|r| - 4..][1] == 'e' && r[|r| - 4..][2] == 'n' && r[|r| - 4..][3] == 'v';
      assert path[n - 4..] == [path[n - 4], path[n - 3], path[n - 2], path[n - 1]];
    }
    if r == "env" && EndsWith(Front(path), ".") {
      assert path[k - 1] == Front(path)[k - 1..][0] == '.';
      assert r[0] == 'e' && r[1] == 'n' && r[2] == 'v';
      assert path[n - 4..] == [path[k - 1], path[k], path[k + 1], path[k + 2]];
    }
  }

  lemma HeadAfterDropping(path: string, dir: string)
    requires Wordy(dir) && StartsWith(path, dir + "/")
    ensures StartsWith(NormPath(path), dir + "/")
  {
    FrontIs(path);
    hide NormPath, Front;
    var head := dir + "/";
    assert path[0] == path[..|head|][0] == dir[0];
    forall i | 0 <= i < |head| ensures NormPath(path)[..|head|][i] == head[i] {
      assert path[i] == path[..|head|][i] == head[i];
      assert i < |dir| ==> !Dropped(dir[i]);
    }
  }

  /** What slips through: "env" after dots and slashes of which the last is a dot; and a
      telling word that only a dropped slash was in front of. */
  predicate SlipsThrough(path: string) {
    var r := NormPath(path);
    || (r == "env" && EndsWith(Front(path), "."))
    || ('/' in Front(path) && !Sensitive(r) && (Contains(r, "credential") || Contains(r, "secret")))
  }

  /** The text names something protected, and what the policy makes of it does not, exactly
      when it slips through. */
  lemma SlipsThroughIff(path: string)
    ensures Sensitive(path) && !Sensitive(NormPath(path)) <==> SlipsThrough(path)
  {
    if NormPath(path) == "env" {
      EnvIsNothing();
    }
    hide NormPath, Front, NamedBelow, EndsWith, StartsWith, Contains;
    if !Sensitive(NormPath(path)) {
      if StartsWith(path, "uploads" + "/") { HeadAfterDropping(path, "uploads"); }
      if StartsWith(path, "tasks" + "/") { HeadAfterDropping(path, "tasks"); }
      assert "uploads" + "/" == "uploads/" && "tasks" + "/" == "tasks/";
      TailAfterDropping(path);
      BelowAfterDropping(path, "credential");
      BelowAfterDropping(path, "secret");
      if Contains(NormPath(path), "credential") || Contains(NormPath(path), "secret") {
        assert NormPath(path) != "env" by { EnvIsNothing(); }
      }
    }
  }

  lemma EnvIsNothing()
    ensures !Sensitive("env") && !Contains("env", "credential") && !Contains("env", "secret")
  {
    NoSuchWord("env", "credential", 'c');
    NoSuchWord("env", "secret", 'c');
  }

  /** The leading dots of a name. */
  function Dots(s: string): (n: nat)
    ensures n <= |s| && (forall i :: 0 <= i < n ==> s[i] == '.') && (n < |s| ==> s[n] != '.')
  {
    if s == "" || s[0] != '.' then 0 else 1 + Dots(s[1..])
  }

  /** For a path that is the name of its file, without backslashes, only dots and then
      "env" slip through, unless its first segment is nothing but dots, three or more. */
  lemma NameSlipsThrough(path: string)
    requires Located(path) == Some(path) && '\\' !in path
    ensures
      var n := Dots(path);
      if 0 < n < |path| && path[n] == '/' then n >= 3
      else SlipsThrough(path) <==> n > 0 && path[n..] == "env"
  {
    hide Located, SlipsThrough;
    TextIsTheFileIff(path);
    PlainStart(path);
    hide *;
    if Dots(path) < |path| && path[Dots(path)] == '/' {
      FirstSegmentOfDots(path);
    } else {
      DotsAreTheFront(path);
    }
  }

  lemma FirstSegmentOfDots(path: string)
    requires forall x <- Segments(path) :: !Dotted(x)
    requires 0 < Dots(path) < |path| && path[Dots(path)] == '/'
    ensures Dots(path) >= 3
  {
    var n := Dots(path);
    assert ToSlash(path) == n;
    assert Segments(path)[0] == path[..n] && path[..n] in Segments(path);
    DottedAre(path[..n]);
  }

  /** When no slash follows the leading dots, they are what the policy drops. */
  lemma FrontIsDots(path: string)
    requires path != "" && path[0] != '/' && '\\' !in path
    requires Dots(path) < |path| ==> path[Dots(path)] != '/'
    ensures |Front(path)| == Dots(path) && NormPath(path) == path[Dots(path)..]
  {
    FrontIs(path);
    hide NormPath, Front;
    var n, r, k := Dots(path), NormPath(path), |Front(path)|;
    assert n < |path| ==> path[n] in path && !Dropped(path[n]);
    assert r != "" ==> r[0] == path[k + 0] && path[k] != '.';
    assert k == n;
    forall i | 0 <= i < |r| ensures r[i] == path[n + i] {
      assert path[n + i] in path;
    }
  }

  lemma DotsAreTheFront(path: string)
    requires path != "" && path[0] != '/' && '\\' !in path
    requires Dots(path) < |path| ==> path[Dots(path)] != '/'
    ensures SlipsThrough(path) <==> Dots(path) > 0 && path[Dots(path)..] == "env"
  {
    FrontIsDots(path);
    FrontStarts(path);
    var n, f := Dots(path), Front(path);
    hide NormPath, Front, Sensitive, Contains, Dots, EndsWith;
    forall i | 0 <= i < n ensures f[i] == '.' {
      assert f[i] == path[..n][i];
    }
    NothingButDots(f);
  }

  lemma NothingButDots(f: string)
    requires forall i :: 0 <= i < |f| ==> f[i] == '.'
    ensures '/' !in f && (EndsWith(f, ".") <==> f != "")
  {
    assert f != "" ==> f[|f| - 1..] == [f[|f| - 1]];
  }

  lemma DottedAre(segment: string)
    requires !Dotted(segment) && forall i :: 0 <= i < |segment| ==> segment[i] == '.'
    ensures |segment| >= 3
  {
    assert |segment| == 1 ==> segment == ".";
    assert |segment| == 2 ==> segment == "..";
  }

  // ------------------------------------------------------------------ //
  // Protected files
  // ------------------------------------------------------------------ //

  /** For a path that is the name of its file, and that file protected: with the gate on,
      the action is allowed at some level exactly when the path slips through. */
  lemma ProtectedFileIsAllowedIff(r: Request, history: seq<Event>)
    requires Located(TargetPath(r)) == Some(TargetPath(r)) && Sensitive(TargetPath(r))
    ensures (exists level :: Evaluate(true, level, r, RowsAfter(history)).allow) <==> SlipsThrough(TargetPath(r))
  {
    var path := TargetPath(r);
    assert path != "";
    SlipsThroughIff(path);
    ProtectedMeans(path);
    hide Located, Sensitive, SlipsThrough, Matches, NormPath;
    if SlipsThrough(path) {
      assert Evaluate(true, High, r, RowsAfter(history)).allow;
    }
  }

  /** So a protected file is never touched on the agent's own authority under a path that is
      its name and does not begin with a dot. */
  lemma ProtectedFileIsNeverAllowed(level: Level, r: Request, history: seq<Event>)
    requires Located(TargetPath(r)) == Some(TargetPath(r)) && Sensitive(TargetPath(r))
    requires TargetPath(r)[0] != '.' && TargetPath(r)[0] != '\\'
    ensures !Evaluate(true, level, r, RowsAfter(history)).allow
  {
    FrontIs(TargetPath(r));
    TextIsTheFileIff(TargetPath(r));
    PlainStart(TargetPath(r));
    hide NormPath, Front, Located, Sensitive, Evaluate;
    assert !Dropped(TargetPath(r)[0]);
    assert Front(TargetPath(r)) == "";
    ProtectedFileIsAllowedIff(r, history);
  }

  lemma HasLetters(s: string, word: string, c: char)
    requires c in word
    ensures Contains(s, word) ==> c in s
  {
    var k :| 0 <= k < |word| && word[k] == c;
    forall i | 0 <= i <= |s| && OccursAt(s, word, i) ensures c in s {
      assert s[i..i + |word|][k] == s[i + k];
    }
  }

  lemma NoSuchWord(s: string, word: string, c: char)
    requires c in word
    ensures NamedBelow(s, word) ==> c in s
  {
    hide Contains;
    if NamedBelow(s, word) {
      var i :| 0 <= i < |s| && s[i] == '/' && Contains(s[i + 1..], word);
      HasLetters(s[i + 1..], word, c);
      assert forall d <- s[i + 1..] :: d in s;
    }
  }

  lemma CutAt(s: string, first: string, rest: string)
    requires |s| == |first| + 1 + |rest| && s[..|first|] == first && s[|first|] == '/' && s[|first| + 1..] == rest
    requires forall i :: 0 <= i < |first| ==> first[i] != '/'
    ensures Segments(s) == [first] + Segments(rest)
  {
    assert forall i :: 0 <= i < |first| ==> s[i] == first[i];
  }

  lemma LastSegments()
    ensures Segments("uploads/x") == ["uploads", "x"]
  {
    CutAt("uploads/x", "uploads", "x");
    assert ToSlash("x") == 1;
  }

  lemma SegmentsOfDots()
    ensures Segments("temp/../uploads/x") == ["temp", "..", "uploads", "x"]
  {
    hide Segments;
    LastSegments();
    CutAt("../uploads/x", "..", "uploads/x");
    CutAt("temp/../uploads/x", "temp", "../uploads/x");
  }

  lemma WalkDown()
    ensures Walk([], ["temp", "..", "uploads", "x"]) == Some(["uploads", "x"])
  {
    var segments := ["temp", "..", "uploads", "x"];
    assert segments[1..] == ["..", "uploads", "x"] && segments[1..][1..] == ["uploads", "x"];
    PlainWalk([], ["uploads", "x"]);
    assert ["temp"][..0] == [];
    assert Walk(["temp"], segments[1..]) == Walk([], ["uploads", "x"]);
    assert [] + ["temp"] == ["temp"];
    assert [] + ["uploads", "x"] == ["uploads", "x"];
  }

  lemma JoinOfTwo()
    ensures Join(["uploads", "x"], "/") == "uploads/x"
  {
    assert ["uploads", "x"][1..] == ["x"];
  }

  lemma WalkOfDots()
    ensures Located("temp/../uploads/x") == Some("uploads/x")
  {
    var p := "temp/../uploads/x";
    StripKeepsTight(p);
    assert p[0] == 't';
    hide Strip, Segments, Walk, Join;
    SegmentsOfDots();
    WalkDown();
    JoinOfTwo();
  }

  lemma ScratchText(path: string)
    requires |path| > 5 && path[..5] == "temp/" && path[|path| - 1] == 'x'
    requires 'c' !in path && '\\' !in path
    ensures NormPath(path) == path
    ensures !Matches(path, PROTECTED_GLOBS) && Matches(path, SCRATCH_GLOBS)
  {
    hide Matches, Glob, NamedBelow;
    assert Replace(path, '\\', '/') == path;
    assert path[0] == path[..5][0] && path[1] == path[..5][1];
    assert NormPath(path) == path;
    ProtectedMeans(path);
    ScratchMeans(path);
    NoSuchWord(path, "credential", 'c');
    NoSuchWord(path, "secret", 'c');
    assert "uploads/"[0] == 'u' && "tasks/"[1] == 'a' && ".env"[3] == 'v';
  }

  lemma EnvIsItself()
    ensures Located(".env") == Some(".env") && Sensitive(".env")
    ensures NormPath(".env") == "env"
  {
    StripKeepsTight(".env");
    assert ToSlash("nv") == 2;
    assert ToSlash(".env") == 4;
    assert Segments(".env") == [".env"];
    TextIsTheFileIff(".env");
    var turned := Replace(".env", '\\', '/');
    assert turned == ".env" && turned[1..] == "env";
  }

  /** The plainest file that slips through, and under its own name. */
  lemma EnvSlipsThrough(rows: map<Signature, Counts>, sig: Signature)
    ensures Located(".env") == Some(".env") && Sensitive(".env")
    ensures Evaluate(true, High, Request(Some(".env"), None, false, sig), rows).allow
    ensures Evaluate(true, Balanced, Request(Some(".env"), None, true, sig), rows).allow
  {
    EnvIsItself();
    EnvIsNothing();
    ProtectedMeans(".env");
    hide Matches, Located, Sensitive, NormPath;
  }

  /** Where text and file part. A path with a dot segment is judged by where its text
      starts, not by where it leads; and beside a "path" argument a "file" argument is not
      judged at all. */
  lemma TextIsNotAlwaysTheFile(rows: map<Signature, Counts>, sig: Signature)
    ensures Evaluate(true, Balanced, Request(Some("temp/../uploads/x"), None, false, sig), rows).allow
    ensures Located("temp/../uploads/x") == Some("uploads/x") && Sensitive("uploads/x")
    ensures Evaluate(true, Balanced, Request(Some("temp/x"), Some("uploads/x"), false, sig), rows).allow
  {
    WalkOfDots();
    hide Matches, Located;
    ScratchText("temp/../uploads/x");
    ScratchText("temp/x");
    assert StartsWith("uploads/x", "uploads/");
  }
}
