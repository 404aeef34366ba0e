/** When the agent may act without asking, and how trust is learned and lost. */
module Autonomy {
  import opened Options
  import opened Text

  type Signature = string

  const AUTO_APPROVE_AFTER := 3

  datatype Counts = Counts(approved: nat, rejected: nat)

  const NO_COUNTS := Counts(0, 0)

  // ------------------------------------------------------------------ //
  // The stored counters
  // ------------------------------------------------------------------ //

  /** What happened to one shape of action. */
  datatype Event =
    | Decided(sig: Signature, approved: bool)
    | Forgotten(sig: Signature)

  function Stats(rows: map<Signature, Counts>, sig: Signature): Counts {
    if sig in rows then rows[sig] else NO_COUNTS
  }

  function Apply(rows: map<Signature, Counts>, e: Event): map<Signature, Counts> {
    match e
    case Decided(sig, true) => rows[sig := Counts(Stats(rows, sig).approved + 1, Stats(rows, sig).rejected)]
    case Decided(sig, false) => rows[sig := Counts(0, Stats(rows, sig).rejected + 1)]
    case Forgotten(sig) => rows - {sig}
  }

  class PatternStore {
    var rows: map<Signature, Counts>

    constructor ()
      ensures rows == map[]
    {
      rows := map[];
    }

    /** A refusal resets earned trust. */
    method RecordDecision(sig: Signature, approved: bool) returns (row: Counts)
      modifies this
      ensures rows == Apply(old(rows), Decided(sig, approved)) && row == rows[sig]
    {
      if sig !in rows {
        rows := rows[sig := NO_COUNTS];
      }
      row := rows[sig];
      if approved {
        row := row.(approved := row.approved + 1);
      } else {
        row := Counts(0, row.rejected + 1);
      }
      rows := rows[sig := row];
    }

    method Forget(sig: Signature) returns (known: bool)
      modifies this
      ensures rows == Apply(old(rows), Forgotten(sig)) && known == (sig in old(rows))
    {
      if sig !in rows {
        assert rows - {sig} == rows;
        return false;
      }
      rows := rows - {sig};
      return true;
    }
  }

  // ------------------------------------------------------------------ //
  // Learned trust as a property of the history
  // ------------------------------------------------------------------ //

  datatype Learned = Allow | Refuse | NoOpinion

  function LearnedVerdict(stats: Counts): Learned {
    if stats.rejected != 0 then Refuse
    else if stats.approved >= AUTO_APPROVE_AFTER then Allow
    else NoOpinion
  }

  function RowsAfter(history: seq<Event>): map<Signature, Counts> {
    if history == [] then map[]
    else Apply(RowsAfter(history[..|history| - 1]), history[|history| - 1])
  }

  /** The part of the history after the last time this shape was forgotten. */
  function SinceForgotten(history: seq<Event>, sig: Signature): seq<Event> {
    if history == [] || history[|history| - 1] == Forgotten(sig) then []
    else SinceForgotten(history[..|history| - 1], sig) + [history[|history| - 1]]
  }

  /** The part after the last refusal of this shape. */
  function SinceRefused(history: seq<Event>, sig: Signature): seq<Event> {
    if history == [] || history[|history| - 1] == Decided(sig, false) then []
    else SinceRefused(history[..|history| - 1], sig) + [history[|history| - 1]]
  }

  function Count(history: seq<Event>, e: Event): nat {
    if history == [] then 0
    else Count(history[..|history| - 1], e) + if history[|history| - 1] == e then 1 else 0
  }

  lemma CountSnoc(history: seq<Event>, last: Event, e: Event)
    ensures Count(history + [last], e) == Count(history, e) + if last == e then 1 else 0
  {
    assert (history + [last])[..|history|] == history;
  }

  /** The counters of one shape say how often it was refused in the given stretch, and how
      often it was approved since the last refusal. */
  predicate CountersTell(stats: Counts, recent: seq<Event>, sig: Signature) {
    && stats.rejected == Count(recent, Decided(sig, false))
    && stats.approved == Count(SinceRefused(recent, sig), Decided(sig, true))
  }

  lemma SinceRefusedSnoc(recent: seq<Event>, last: Event, sig: Signature)
    ensures SinceRefused(recent + [last], sig)
            == if last == Decided(sig, false) then [] else SinceRefused(recent, sig) + [last]
  {
    assert (recent + [last])[..|recent|] == recent;
  }

  lemma StatsAfter(rows: map<Signature, Counts>, last: Event, sig: Signature)
    requires last != Forgotten(sig)
    ensures Stats(Apply(rows, last), sig)
            == if last == Decided(sig, true) then Counts(Stats(rows, sig).approved + 1, Stats(rows, sig).rejected)
               else if last == Decided(sig, false) then Counts(0, Stats(rows, sig).rejected + 1)
               else Stats(rows, sig)
  {
  }

  lemma RefusalsOneMore(rows: map<Signature, Counts>, recent: seq<Event>, last: Event, sig: Signature)
    requires Stats(rows, sig).rejected == Count(recent, Decided(sig, false)) && last != Forgotten(sig)
    ensures Stats(Apply(rows, last), sig).rejected == Count(recent + [last], Decided(sig, false))
  {
    StatsAfter(rows, last, sig);
    CountSnoc(recent, last, Decided(sig, false));
    hide Count, Apply, Stats;
  }

  lemma ApprovalsOneMore(rows: map<Signature, Counts>, recent: seq<Event>, last: Event, sig: Signature)
    requires Stats(rows, sig).approved == Count(SinceRefused(recent, sig), Decided(sig, true))
    requires last != Forgotten(sig)
    ensures Stats(Apply(rows, last), sig).approved
            == Count(SinceRefused(recent + [last], sig), Decided(sig, true))
  {
    StatsAfter(rows, last, sig);
    SinceRefusedSnoc(recent, last, sig);
    CountSnoc(SinceRefused(recent, sig), last, Decided(sig, true));
    hide SinceRefused, Apply, Stats;
    if last == Decided(sig, false) {
      assert SinceRefused(recent + [last], sig) == [];
    }
  }

  lemma CountersTellOneMore(rows: map<Signature, Counts>, recent: seq<Event>, last: Event, sig: Signature)
    requires CountersTell(Stats(rows, sig), recent, sig) && last != Forgotten(sig)
    ensures CountersTell(Stats(Apply(rows, last), sig), recent + [last], sig)
  {
    hide Count, SinceRefused, Apply, Stats;
    RefusalsOneMore(rows, recent, last, sig);
    ApprovalsOneMore(rows, recent, last, sig);
  }

  lemma {:induction false} NeverRefused(history: seq<Event>, sig: Signature)
    requires Count(history, Decided(sig, false)) == 0
    ensures SinceRefused(history, sig) == history
  {
    if history != [] { NeverRefused(history[..|history| - 1], sig); }
  }

  lemma {:induction false} StatsCountTheHistory(history: seq<Event>, sig: Signature)
    ensures CountersTell(Stats(RowsAfter(history), sig), SinceForgotten(history, sig), sig)
  {
    if history != [] {
      var n := |history| - 1;
      StatsCountTheHistory(history[..n], sig);
      if history[n] != Forgotten(sig) {
        CountersTellOneMore(RowsAfter(history[..n]), SinceForgotten(history[..n], sig), history[n], sig);
      }
    }
  }

  /** After any history: a shape of action is trusted exactly when, since it was last
      forgotten, it was never refused and approved at least three times; it is refused
      exactly when it was refused since then. */
  lemma LearnedTrustIsAFold(history: seq<Event>, sig: Signature)
    ensures var recent := SinceForgotten(history, sig);
            var verdict := LearnedVerdict(Stats(RowsAfter(history), sig));
            && (verdict == Allow <==> Count(recent, Decided(sig, false)) == 0
                                      && Count(recent, Decided(sig, true)) >= 3)
            && (verdict == Refuse <==> Count(recent, Decided(sig, false)) > 0)
  {
    StatsCountTheHistory(history, sig);
    var recent := SinceForgotten(history, sig);
    if Count(recent, Decided(sig, false)) == 0 { NeverRefused(recent, sig); }
  }

  // ------------------------------------------------------------------ //
  // Paths
  // ------------------------------------------------------------------ //

  const SCRATCH_GLOBS := ["temp/*", "temp/**", "downloads/*", "downloads/**"]
  const PROTECTED_GLOBS :=
    ["uploads/**", "tasks/**", "*.env", "**/.env", "**/*credential*", "**/*secret*"]

  /** Shell-style matching for patterns whose only wildcard is a star; a star crosses
      directory separators. */
  predicate Glob(pattern: string, s: string)
    decreases |pattern| + |s|
  {
    if pattern == "" then s == ""
    else if pattern[0] == '*' then Glob(pattern[1..], s) || (s != "" && Glob(pattern, s[1..]))
    else s != "" && s[0] == pattern[0] && Glob(pattern[1..], s[1..])
  }

  function StripDots(s: string): (r: string)
    ensures |r| <= |s|
  {
    if s != "" && (s[0] == '.' || s[0] == '/') then StripDots(s[1..]) else s
  }

  function NormPath(path: string): (r: string)
    ensures |r| <= |path|
  {
    StripDots(Replace(path, '\\', '/'))
  }

  predicate Matches(path: string, globs: seq<string>) {
    exists g <- globs :: Glob(g, NormPath(path))
  }

  lemma {:induction false} StarMatchesAnySplit(p: string, s: string)
    ensures Glob("*" + p, s) <==> exists i: nat :: i <= |s| && Glob(p, s[i..])
    decreases |s|
  {
    assert ("*" + p)[1..] == p;
    if s == "" {
      assert s[0..] == s;
    } else {
      StarMatchesAnySplit(p, s[1..]);
      assert s[0..] == s;
      assert forall i: nat :: i < |s| ==> s[1..][i..] == s[i + 1..];
      if i: nat :| i <= |s| && Glob(p, s[i..]) {
        if i > 0 { assert s[1..][i - 1..] == s[i..]; }
      }
    }
  }

  lemma {:induction false} LiteralMatchesItself(l: string, p: string, s: string)
    requires '*' !in l
    ensures Glob(l + p, s) <==> StartsWith(s, l) && Glob(p, s[|l|..])
  {
    if l == "" {
      assert l + p == p && s[0..] == s;
    } else {
      assert (l + p)[1..] == l[1..] + p;
      if s != "" {
        LiteralMatchesItself(l[1..], p, s[1..]);
        if |l| <= |s| {
          assert s[..|l|] == [s[0]] + s[1..][..|l| - 1];
          assert s[1..][|l| - 1..] == s[|l|..];
        }
      }
    }
  }

  predicate EndsWith(s: string, tail: string) { |tail| <= |s| && s[|s| - |tail|..] == tail }

  /** A word somewhere after a directory separator. */
  predicate NamedBelow(s: string, word: string) {
    exists i | 0 <= i < |s| :: s[i] == '/' && Contains(s[i + 1..], word)
  }

  lemma StarMatchesAll(s: string)
    ensures Glob("*", s) && Glob("**", s)
  {
    StarMatchesAnySplit("", s);
    assert s[|s|..] == "";
    assert "*" + "" == "*";
    StarMatchesAnySplit("*", s);
    assert s[0..] == s && "*" + "*" == "**";
  }

  lemma DirectoryGlob(dir: string, s: string)
    requires '*' !in dir
    ensures Glob(dir + "**", s) <==> StartsWith(s, dir)
    ensures Glob(dir + "*", s) <==> StartsWith(s, dir)
  {
    LiteralMatchesItself(dir, "**", s);
    LiteralMatchesItself(dir, "*", s);
    if StartsWith(s, dir) { StarMatchesAll(s[|dir|..]); }
  }

  lemma SuffixGlob(tail: string, s: string)
    requires '*' !in tail
    ensures Glob("*" + tail, s) <==> EndsWith(s, tail)
  {
    StarMatchesAnySplit(tail, s);
    forall i: nat | i <= |s| ensures Glob(tail, s[i..]) <==> s[i..] == tail {
      LiteralMatchesItself(tail, "", s[i..]);
      assert tail + "" == tail;
    }
    if EndsWith(s, tail) { assert s[|s| - |tail|..] == tail; }
  }

  lemma WordGlob(word: string, s: string)
    requires '*' !in word
    ensures Glob("*" + (word + "*"), s) <==> Contains(s, word)
  {
    StarMatchesAnySplit(word + "*", s);
    forall i: nat | i <= |s| ensures Glob(word + "*", s[i..]) <==> OccursAt(s, word, i) {
      DirectoryGlob(word, s[i..]);
      if |word| <= |s| - i { assert s[i..][..|word|] == s[i..i + |word|]; }
    }
  }

  lemma DoubleStar(p: string, s: string)
    ensures Glob("**" + p, s) <==> Glob("*" + p, s)
  {
    StarMatchesAnySplit("*" + p, s);
    assert "*" + ("*" + p) == "**" + p;
    StarMatchesAnySplit(p, s);
    assert s[0..] == s;
    forall i: nat | i <= |s| && Glob("*" + p, s[i..]) ensures Glob("*" + p, s) {
      StarMatchesAnySplit(p, s[i..]);
      var j: nat :| j <= |s[i..]| && Glob(p, s[i..][j..]);
      assert s[i..][j..] == s[i + j..];
    }
  }

  lemma BelowAt(word: string, s: string, i: nat)
    requires '*' !in word && i <= |s|
    ensures Glob("/*" + (word + "*"), s[i..]) <==> i < |s| && s[i] == '/' && Contains(s[i + 1..], word)
  {
    var p := "*" + (word + "*");
    assert "/*" + (word + "*") == "/" + p;
    LiteralMatchesItself("/", p, s[i..]);
    if i < |s| {
      assert s[i..][..1] == [s[i]] && s[i..][1..] == s[i + 1..];
      WordGlob(word, s[i + 1..]);
    }
  }

  lemma BelowGlob(word: string, s: string)
    requires '*' !in word
    ensures Glob("**" + ("/*" + (word + "*")), s) <==> NamedBelow(s, word)
  {
    var p := "/*" + (word + "*");
    DoubleStar(p, s);
    StarMatchesAnySplit(p, s);
    forall i: nat | i <= |s|
      ensures Glob(p, s[i..]) <==> i < |s| && s[i] == '/' && Contains(s[i + 1..], word)
    {
      BelowAt(word, s, i);
    }
  }

  lemma ProtectedDirectories(s: string)
    ensures Glob("uploads/**", s) <==> StartsWith(s, "uploads/")
    ensures Glob("tasks/**", s) <==> StartsWith(s, "tasks/")
  {
    DirectoryGlob("uploads/", s);
    DirectoryGlob("tasks/", s);
    assert "uploads/" + "**" == "uploads/**" && "tasks/" + "**" == "tasks/**";
  }

  lemma ProtectedSuffixes(s: string)
    ensures Glob("*.env", s) || Glob("**/.env", s) <==> EndsWith(s, ".env")
  {
    SuffixGlob(".env", s);
    assert "*" + ".env" == "*.env";
    SuffixGlob("/.env", s);
    DoubleStar("/.env", s);
    assert "**" + "/.env" == "**/.env";
    if EndsWith(s, "/.env") { assert s[|s| - 5..][1..] == s[|s| - 4..]; }
  }

  lemma ProtectedWords(s: string)
    ensures Glob("**/*credential*", s) <==> NamedBelow(s, "credential")
    ensures Glob("**/*secret*", s) <==> NamedBelow(s, "secret")
  {
    BelowGlob("credential", s);
    BelowGlob("secret", s);
    assert "**" + ("/*" + ("credential" + "*")) == "**/*credential*";
    assert "**" + ("/*" + ("secret" + "*")) == "**/*secret*";
  }

  lemma GlobsAreThese(s: string)
    ensures (exists g <- PROTECTED_GLOBS :: Glob(g, s)) <==>
              || Glob("uploads/**", s) || Glob("tasks/**", s) || Glob("*.env", s) || Glob("**/.env", s)
              || Glob("**/*credential*", s) || Glob("**/*secret*", s)
  {
    assert PROTECTED_GLOBS[0] == "uploads/**" && PROTECTED_GLOBS[1] == "tasks/**"
        && PROTECTED_GLOBS[2] == "*.env" && PROTECTED_GLOBS[3] == "**/.env"
        && PROTECTED_GLOBS[4] == "**/*credential*" && PROTECTED_GLOBS[5] == "**/*secret*";
  }

  /** What "protected" comes to, on the path as the policy normalises it (backslashes
      turned, leading dots and slashes dropped). */
  predicate Sensitive(s: string) {
    || StartsWith(s, "uploads/") || StartsWith(s, "tasks/")
    || EndsWith(s, ".env")
    || NamedBelow(s, "credential") || NamedBelow(s, "secret")
  }

  lemma ProtectedMeans(path: string)
    ensures Matches(path, PROTECTED_GLOBS) <==> Sensitive(NormPath(path))
  {
    var s := NormPath(path);
    ProtectedDirectories(s);
    ProtectedSuffixes(s);
    ProtectedWords(s);
    GlobsAreThese(s);
  }

  // ------------------------------------------------------------------ //
  // The policy
  // ------------------------------------------------------------------ //

  datatype Level = Paranoid | Balanced | High

  /** The facts a verdict is made from. `asked` says the owner's own words asked for it. */
  datatype Request = Request(path: Option<string>, file: Option<string>, asked: bool, sig: Signature)

  function TargetPath(r: Request): string {
    if r.path.Some? && r.path.value != "" then r.path.value
    else if r.file.Some? then r.file.value
    else ""
  }

  datatype Verdict = Verdict(allow: bool, learned: bool)

  function Evaluate(gateOn: bool, level: Level, r: Request, rows: map<Signature, Counts>): Verdict {
    var path := TargetPath(r);
    if !gateOn then Verdict(true, false)
    else if level == Paranoid then Verdict(false, false)
    else if path != "" && Matches(path, PROTECTED_GLOBS) then Verdict(false, false)
    else if level == High then Verdict(true, false)
    else if r.asked then Verdict(true, false)
    else if path != "" && Matches(path, SCRATCH_GLOBS) then Verdict(true, false)
    else
      match LearnedVerdict(Stats(rows, r.sig))
      case Allow => Verdict(true, true)
      case Refuse => Verdict(false, false)
      case NoOpinion => Verdict(false, false)
  }

  /** With the gate on, at no level and after no history is an action allowed on the agent's
      own authority when the text of its target is a protected one: the text of the "path"
      argument, or of "file" when there is no path. What file the text leads to is not
      looked at; see `ProtectedFileIsAllowedIff`. */
  lemma ProtectedIsNeverAllowed(level: Level, r: Request, history: seq<Event>)
    requires TargetPath(r) != ""
    requires Sensitive(NormPath(TargetPath(r)))
    ensures !Evaluate(true, level, r, RowsAfter(history)).allow
  {
    ProtectedMeans(TargetPath(r));
  }

  /** Which argument is judged: with a path, the file argument makes no difference; without
      one, or with a blank one, the file argument stands in for it. */
  lemma FileStandsInForPath(gateOn: bool, level: Level, r: Request, file: Option<string>,
                            rows: map<Signature, Counts>)
    ensures r.path.Some? && r.path.value != "" ==>
              Evaluate(gateOn, level, r, rows) == Evaluate(gateOn, level, r.(file := file), rows)
    ensures r.path == None || r.path == Some("") ==>
              Evaluate(gateOn, level, r, rows) == Evaluate(gateOn, level, r.(path := r.file, file := None), rows)
  {
    hide Matches, LearnedVerdict;
  }

  lemma ScratchMeans(path: string)
    ensures Matches(path, SCRATCH_GLOBS) <==>
              StartsWith(NormPath(path), "temp/") || StartsWith(NormPath(path), "downloads/")
  {
    var s := NormPath(path);
    DirectoryGlob("temp/", s);
    DirectoryGlob("downloads/", s);
    assert "temp/" + "*" == "temp/*" && "temp/" + "**" == "temp/**";
    assert "downloads/" + "*" == "downloads/*" && "downloads/" + "**" == "downloads/**";
    ScratchGlobsAreThese(s);
  }

  lemma ScratchGlobsAreThese(s: string)
    ensures (exists g <- SCRATCH_GLOBS :: Glob(g, s)) <==>
              Glob("temp/*", s) || Glob("temp/**", s) || Glob("downloads/*", s) || Glob("downloads/**", s)
  {
    hide Glob;
    assert SCRATCH_GLOBS[0] == "temp/*" && SCRATCH_GLOBS[1] == "temp/**"
        && SCRATCH_GLOBS[2] == "downloads/*" && SCRATCH_GLOBS[3] == "downloads/**";
  }

  /** All there is to an allowance. With the gate on it takes a level above paranoid and a
      target that is not protected, and then one of: the highest level, the owner's own
      words, a scratch directory, or a record since the shape was last forgotten of three
      approvals and no refusal. */
  lemma AllowedExactly(gateOn: bool, level: Level, r: Request, history: seq<Event>)
    ensures
      var path, recent := NormPath(TargetPath(r)), SinceForgotten(history, r.sig);
      Evaluate(gateOn, level, r, RowsAfter(history)).allow <==>
        || !gateOn
        || (&& level != Paranoid
            && !(TargetPath(r) != "" && Sensitive(path))
            && (|| level == High
                || r.asked
                || (TargetPath(r) != "" && (StartsWith(path, "temp/") || StartsWith(path, "downloads/")))
                || (Count(recent, Decided(r.sig, false)) == 0
                    && Count(recent, Decided(r.sig, true)) >= 3)))
  {
    hide Glob, NormPath, Sensitive, StartsWith, Count, SinceForgotten, RowsAfter, Matches;
    ProtectedMeans(TargetPath(r));
    ScratchMeans(TargetPath(r));
    LearnedTrustIsAFold(history, r.sig);
  }

  /** What one refusal does: until the shape is forgotten, no number of later approvals
      makes the policy trust it again. */
  lemma OneRefusalOutweighsApprovals(history: seq<Event>, later: seq<Event>, r: Request)
    requires forall e <- later :: e != Forgotten(r.sig)
    ensures !Evaluate(true, Balanced, r, RowsAfter(history + [Decided(r.sig, false)] + later)).learned
  {
    var before := history + [Decided(r.sig, false)];
    RefusalIsRemembered(before, later, r.sig);
  }

  lemma {:induction false} RefusalIsRemembered(before: seq<Event>, later: seq<Event>, sig: Signature)
    requires before != [] && before[|before| - 1] == Decided(sig, false)
    requires forall e <- later :: e != Forgotten(sig)
    ensures Stats(RowsAfter(before + later), sig).rejected > 0
  {
    if later == [] {
      assert before + later == before;
    } else {
      var n := |later| - 1;
      assert (before + later)[..|before| + n] == before + later[..n];
      assert later[n] in later;
      assert forall e <- later[..n] :: e in later;
      RefusalIsRemembered(before, later[..n], sig);
    }
  }
}
