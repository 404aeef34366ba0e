/** Finding the first JSON object in free text by counting braces outside strings. */
module JsonScan {
  import opened Options

  // The decoder is a parameter: it refuses a text, reads something that is not an object,
  // or reads an object.

  datatype Decoded<+V> = Malformed | NotObject | Object(value: V)

  /** No JSON text that starts with a brace is anything but an object. */
  ghost predicate Lawful<V(!new)>(decode: string -> Decoded<V>) {
    forall t: string :: t != "" && t[0] == '{' ==> decode(t) != NotObject
  }

  datatype Span = Span(from: nat, to: nat)

  datatype Found<+V> = Found(value: Option<V>, tried: seq<Span>)

  /** The scanner's variables between two characters. */
  datatype Cursor = Cursor(depth: int, start: int, inString: bool, escape: bool)

  const AT_START := Cursor(0, -1, false, false)

  function Step(k: Cursor, c: char, index: nat): Cursor {
    if k.inString then
      if k.escape then k.(escape := false)
      else if c == '\\' then k.(escape := true)
      else if c == '"' then k.(inString := false)
      else k
    else if c == '"' then k.(inString := true)
    else if c == '{' then k.(depth := k.depth + 1, start := if k.depth == 0 then index else k.start)
    else if c == '}' then k.(depth := k.depth - 1)
    else k
  }

  /** The character just read closed the outermost open brace. */
  predicate Closes(before: Cursor, c: char, after: Cursor) {
    !before.inString && c == '}' && after.depth == 0 && after.start >= 0
  }

  function ScanFrom<V>(source: string, i: nat, k: Cursor, decode: string -> Decoded<V>): Found<V>
    requires i <= |source| && k.start <= i
    decreases |source| - i
  {
    if i == |source| then Found(None, [])
    else
      var next := Step(k, source[i], i);
      if Closes(k, source[i], next) then
        var verdict := decode(source[next.start..i + 1]);
        var span := Span(next.start, i + 1);
        if verdict.Object? then Found(Some(verdict.value), [span])
        else
          var after := if verdict.Malformed? then next.(start := -1) else next;
          var rest := ScanFrom(source, i + 1, after, decode);
          rest.(tried := [span] + rest.tried)
      else ScanFrom(source, i + 1, next, decode)
  }

  method Scan<V>(source: string, decode: string -> Decoded<V>)
      returns (result: Option<V>, ghost tried: seq<Span>)
    ensures result == ScanFrom(source, 0, AT_START, decode).value
    ensures tried == ScanFrom(source, 0, AT_START, decode).tried
  {
    var depth, start, inString, escape := 0, -1, false, false;
    tried := [];
    ghost var whole := ScanFrom(source, 0, AT_START, decode);
    assert [] + whole.tried == whole.tried;
    for index := 0 to |source|
      invariant start < index
      invariant var rest := ScanFrom(source, index, Cursor(depth, start, inString, escape), decode);
                whole == rest.(tried := tried + rest.tried)
    {
      var c := source[index];
      if inString {
        if escape {
          escape := false;
        } else if c == '\\' {
          escape := true;
        } else if c == '"' {
          inString := false;
        }
      } else if c == '"' {
        inString := true;
      } else if c == '{' {
        if depth == 0 {
          start := index;
        }
        depth := depth + 1;
      } else if c == '}' {
        depth := depth - 1;
        if depth == 0 && start >= 0 {
          ghost var earlier, rest := tried, ScanFrom(source, index + 1, Cursor(0, start, false, escape), decode);
          ghost var span := Span(start, index + 1);
          tried := tried + [span];
          var verdict := decode(source[start..index + 1]);
          if verdict.Object? {
            return Some(verdict.value), tried;
          }
          if verdict.Malformed? {
            start := -1;
          }
          rest := ScanFrom(source, index + 1, Cursor(0, start, false, escape), decode);
          assert earlier + ([span] + rest.tried) == tried + rest.tried;
        }
      }
    }
    assert tried + [] == tried;
    return None, tried;
  }

  // ------------------------------------------------------------------ //
  // Balance, defined without the scanner
  // ------------------------------------------------------------------ //

  /** What follows the closing quote, for text that begins inside a string. */
  function AfterString(s: string): (rest: Option<string>)
    ensures rest.Some? ==> |rest.value| < |s|
  {
    if s == "" then None
    else if s[0] == '"' then Some(s[1..])
    else if s[0] == '\\' then (if |s| == 1 then None else AfterString(s[2..]))
    else AfterString(s[1..])
  }

  /** The braces outside strings, in order; None when a string is left open. */
  function Braces(s: string): Option<string>
    decreases |s|
  {
    if s == "" then Some("")
    else if s[0] == '"' then
      var rest := AfterString(s[1..]);
      if rest.None? then None else Braces(rest.value)
    else
      var rest := Braces(s[1..]);
      if rest.Some? && (s[0] == '{' || s[0] == '}') then Some([s[0]] + rest.value) else rest
  }

  /** Opening braces minus closing ones. */
  function Depth(braces: string): int {
    if braces == "" then 0
    else Depth(braces[..|braces| - 1]) + if braces[|braces| - 1] == '{' then 1 else -1
  }

  /** Every non-empty beginning has more opening braces than closing ones. */
  predicate StaysOpen(braces: string) {
    braces != "" && Depth(braces) >= 1 && (|braces| == 1 || StaysOpen(braces[..|braces| - 1]))
  }

  /** Starts with a brace that is closed by the last character and not before, strings
      set aside and all complete. */
  ghost predicate BalancedObject(s: string) {
    && s != "" && s[0] == '{' && s[|s| - 1] == '}'
    && Braces(s).Some?
    && var braces := Braces(s).value;
       braces != "" && Depth(braces) == 0 && StaysOpen(braces[..|braces| - 1])
  }

  // ------------------------------------------------------------------ //
  // One character at a time and one string at a time agree
  // ------------------------------------------------------------------ //

  datatype Lex = Lex(braces: string, inString: bool, escape: bool)

  function Eat(l: Lex, c: char): Lex {
    if l.inString then
      if l.escape then l.(escape := false)
      else if c == '\\' then l.(escape := true)
      else if c == '"' then l.(inString := false)
      else l
    else if c == '"' then l.(inString := true)
    else if c == '{' || c == '}' then l.(braces := l.braces + [c])
    else l
  }

  function LexFrom(l: Lex, s: string): Lex
    decreases |s|
  {
    if s == "" then l else LexFrom(Eat(l, s[0]), s[1..])
  }

  const OUTSIDE := Lex("", false, false)

  lemma {:induction false} LexSnoc(l: Lex, s: string, c: char)
    ensures LexFrom(l, s + [c]) == Eat(LexFrom(l, s), c)
    decreases |s|
  {
    if s == "" {
      assert (s + [c])[1..] == "";
    } else {
      assert (s + [c])[1..] == s[1..] + [c];
      LexSnoc(Eat(l, s[0]), s[1..], c);
    }
  }

  lemma {:induction false} StringIsSkipped(braces: string, s: string)
    ensures var l := LexFrom(Lex(braces, true, false), s);
            if AfterString(s).None? then l.inString
            else l == LexFrom(Lex(braces, false, false), AfterString(s).value)
    decreases |s|
  {
    if s != "" {
      if s[0] == '\\' {
        if |s| > 1 {
          assert s[1..][1..] == s[2..];
          StringIsSkipped(braces, s[2..]);
        }
      } else if s[0] != '"' {
        StringIsSkipped(braces, s[1..]);
      }
    }
  }

  lemma {:induction false} LexerFindsBraces(braces: string, s: string)
    ensures var l := LexFrom(Lex(braces, false, false), s);
            && (l.inString <==> Braces(s).None?)
            && (Braces(s).Some? ==> l == Lex(braces + Braces(s).value, false, false))
    decreases |s|
  {
    if s != "" {
      if s[0] == '"' {
        StringIsSkipped(braces, s[1..]);
        var rest := AfterString(s[1..]);
        if rest.Some? { LexerFindsBraces(braces, rest.value); }
      } else if s[0] == '{' || s[0] == '}' {
        LexerFindsBraces(braces + [s[0]], s[1..]);
        if Braces(s[1..]).Some? {
          assert braces + [s[0]] + Braces(s[1..]).value == braces + ([s[0]] + Braces(s[1..]).value);
        }
      } else {
        LexerFindsBraces(braces, s[1..]);
      }
    }
  }

  // ------------------------------------------------------------------ //
  // Soundness
  // ------------------------------------------------------------------ //

  /** The text since the opening brace lexes to what the scanner's variables say, and has
      stayed open. */
  predicate Inside(text: string, k: Cursor) {
    && text != "" && text[0] == '{'
    && (k.escape ==> k.inString)
    && var l := LexFrom(OUTSIDE, text);
       l.inString == k.inString && l.escape == k.escape && Depth(l.braces) == k.depth && StaysOpen(l.braces)
  }

  /** Where the scanner stands: inside no object, or inside one. */
  predicate Standing(source: string, i: nat, k: Cursor)
    requires i <= |source|
  {
    if k.start < 0 then k.depth <= 0 && k.start == -1 && (k.escape ==> k.inString)
    else k.start < i && Inside(source[k.start..i], k)
  }

  lemma DepthSnoc(braces: string, c: char)
    ensures Depth(braces + [c]) == Depth(braces) + if c == '{' then 1 else -1
    ensures StaysOpen(braces) && Depth(braces + [c]) >= 1 ==> StaysOpen(braces + [c])
  {
    assert (braces + [c])[..|braces|] == braces;
  }

  lemma OpenMeansDeep(braces: string)
    ensures StaysOpen(braces) ==> Depth(braces) >= 1
  {
  }

  lemma InsideStep(text: string, k: Cursor, c: char, i: nat)
    requires Inside(text, k) && 0 <= k.start
    ensures var next := Step(k, c, i);
            && next.start == k.start
            && (if Closes(k, c, next) then BalancedObject(text + [c]) else Inside(text + [c], next))
  {
    hide Braces, Depth, StaysOpen, LexFrom;
    OpenMeansDeep(LexFrom(OUTSIDE, text).braces);
    LexSnoc(OUTSIDE, text, c);
    var l, next := LexFrom(OUTSIDE, text), Step(k, c, i);
    DepthSnoc(l.braces, c);
    assert (text + [c])[0] == '{';
    if Closes(k, c, next) {
      LexerFindsBraces("", text + [c]);
      var all := Braces(text + [c]).value;
      assert "" + all == all == l.braces + [c];
      assert all[..|all| - 1] == l.braces;
    }
  }

  lemma StandingStep(source: string, i: nat, k: Cursor)
    requires i < |source| && Standing(source, i, k)
    ensures var next := Step(k, source[i], i);
            if Closes(k, source[i], next)
            then 0 <= next.start == k.start < i && BalancedObject(source[next.start..i + 1])
            else Standing(source, i + 1, next)
  {
    var c := source[i];
    if k.start >= 0 {
      InsideStep(source[k.start..i], k, c, i);
      assert source[k.start..i + 1] == source[k.start..i] + [c];
    } else if !k.inString && c == '{' && k.depth == 0 {
      assert source[i..i + 1] == "{";
      LoneBrace();
    }
  }

  lemma LoneBrace()
    ensures LexFrom(OUTSIDE, "{") == Lex("{", false, false) && Depth("{") == 1 && StaysOpen("{")
  {
    assert "" + ['{'] == "{";
    assert "{"[1..] == "" && "{"[..0] == "";
    assert LexFrom(OUTSIDE, "{") == LexFrom(Eat(OUTSIDE, '{'), "");
  }

  /** One try: a balanced object at or after `lo`. */
  ghost predicate GoodTry(source: string, lo: int, t: Span) {
    lo <= t.from < t.to <= |source| && BalancedObject(source[t.from..t.to])
  }

  /** The tries are balanced objects, in order, without overlap; all were malformed but
      for the last one of a successful scan, whose decoding is the result. */
  ghost predicate Sound<V>(source: string, lo: int, f: Found<V>, decode: string -> Decoded<V>) {
    && (forall a :: 0 <= a < |f.tried| ==> GoodTry(source, lo, f.tried[a]))
    && (forall a, b :: 0 <= a < b < |f.tried| ==> f.tried[a].to <= f.tried[b].from)
    && (f.value.Some? ==> f.tried != [])
    && forall a :: 0 <= a < |f.tried| ==>
         decode(source[f.tried[a].from..f.tried[a].to])
           == if f.value.Some? && a == |f.tried| - 1 then Object(f.value.value) else Malformed
  }

  lemma SoundPrepend<V>(source: string, lo: int, span: Span, rest: Found<V>, decode: string -> Decoded<V>)
    requires GoodTry(source, lo, span) && decode(source[span.from..span.to]) == Malformed
    requires Sound(source, span.to, rest, decode)
    ensures Sound(source, lo, rest.(tried := [span] + rest.tried), decode)
  {
    var all := [span] + rest.tried;
    assert all[0] == span;
    assert forall a :: 1 <= a < |all| ==> all[a] == rest.tried[a - 1];
    assert forall a :: 1 <= a < |all| ==> GoodTry(source, span.to, all[a]);
  }

  lemma SoundWiden<V>(source: string, lo: int, lo': int, f: Found<V>, decode: string -> Decoded<V>)
    requires Sound(source, lo', f, decode) && lo <= lo'
    ensures Sound(source, lo, f, decode)
  {
    assert forall a :: 0 <= a < |f.tried| ==> GoodTry(source, lo', f.tried[a]);
  }

  function Lowest(i: nat, k: Cursor): int { if k.start >= 0 then k.start else i }

  /** A closing brace: the chunk is a good try, alone or in front of what comes later. */
  lemma SoundAtClose<V(!new)>(source: string, i: nat, k: Cursor, decode: string -> Decoded<V>)
    requires i < |source| && Standing(source, i, k) && Lawful(decode) && 0 <= k.start < i
    requires var next := Step(k, source[i], i);
             && next.start == k.start
             && Closes(k, source[i], next)
             && BalancedObject(source[k.start..i + 1])
             && Sound(source, i + 1, ScanFrom(source, i + 1, next.(start := -1), decode), decode)
    ensures Sound(source, k.start, ScanFrom(source, i, k, decode), decode)
  {
    var next := Step(k, source[i], i);
    var chunk, span := source[k.start..i + 1], Span(k.start, i + 1);
    assert chunk[0] == '{';
    assert GoodTry(source, k.start, span);
    if !decode(chunk).Object? {
      assert decode(chunk) == Malformed;
      SoundPrepend(source, k.start, span, ScanFrom(source, i + 1, next.(start := -1), decode), decode);
    }
  }

  lemma {:induction false} ScanFromIsSound<V(!new)>(source: string, i: nat, k: Cursor,
                                                    decode: string -> Decoded<V>)
    requires i <= |source| && k.start <= i && Standing(source, i, k) && Lawful(decode)
    ensures Sound(source, Lowest(i, k), ScanFrom(source, i, k, decode), decode)
    decreases |source| - i
  {
    if i < |source| {
      StandingStep(source, i, k);
      var next := Step(k, source[i], i);
      if Closes(k, source[i], next) {
        ScanFromIsSound(source, i + 1, next.(start := -1), decode);
        SoundAtClose(source, i, k, decode);
      } else {
        ScanFromIsSound(source, i + 1, next, decode);
        SoundWiden(source, Lowest(i, k), Lowest(i + 1, next), ScanFrom(source, i + 1, next, decode), decode);
      }
    }
  }

  /** Soundness of a whole scan: every piece of text handed to the decoder is a balanced
      object outside strings, and the result is the decoding of the last piece. */
  lemma ScanIsSound<V(!new)>(source: string, decode: string -> Decoded<V>)
    requires Lawful(decode)
    ensures Sound(source, 0, ScanFrom(source, 0, AT_START, decode), decode)
  {
    ScanFromIsSound(source, 0, AT_START, decode);
  }

  // ------------------------------------------------------------------ //
  // Completeness
  // ------------------------------------------------------------------ //

  predicate Plain(s: string) {
    forall i :: 0 <= i < |s| ==> s[i] != '{' && s[i] != '}' && s[i] != '"'
  }

  lemma {:induction false} PlainIsSkipped<V>(source: string, i: nat, n: nat, decode: string -> Decoded<V>)
    requires i <= n <= |source| && Plain(source[i..n])
    ensures ScanFrom(source, i, AT_START, decode) == ScanFrom(source, n, AT_START, decode)
    decreases n - i
  {
    if i < n {
      assert source[i] == source[i..n][0];
      assert source[i + 1..n] == source[i..n][1..];
      PlainIsSkipped(source, i + 1, n, decode);
    }
  }

  lemma {:induction false} LexOnlyAdds(l: Lex, s: string)
    ensures |l.braces| <= |LexFrom(l, s).braces| && LexFrom(l, s).braces[..|l.braces|] == l.braces
    decreases |s|
  {
    if s != "" { LexOnlyAdds(Eat(l, s[0]), s[1..]); }
  }

  lemma {:induction false} LexAppend(l: Lex, a: string, b: string)
    ensures LexFrom(l, a + b) == LexFrom(LexFrom(l, a), b)
    decreases |a|
  {
    if a == "" {
      assert a + b == b;
    } else {
      assert (a + b)[1..] == a[1..] + b;
      LexAppend(Eat(l, a[0]), a[1..], b);
    }
  }

  lemma OpensWithBrace(s: string)
    requires s != "" && s[0] == '{'
    ensures LexFrom(OUTSIDE, s).braces != ""
  {
    LexOnlyAdds(Eat(OUTSIDE, '{'), s[1..]);
  }

  /** The braces of a part of the text are a proper beginning of all its braces, when the
      text ends with one. */
  lemma PartHasFewerBraces(body: string, n: nat)
    requires n < |body| && Braces(body).Some? && body[|body| - 1] == '}'
    ensures var part := LexFrom(OUTSIDE, body[..n]).braces;
            |part| < |Braces(body).value| && part == Braces(body).value[..|part|]
  {
    hide Braces, LexFrom;
    LexerFindsBraces("", body);
    var all := Braces(body).value;
    assert "" + all == all;
    var most := body[..|body| - 1];
    assert most + ['}'] == body;
    LexSnoc(OUTSIDE, most, '}');
    assert most == body[..n] + most[n..];
    LexAppend(OUTSIDE, body[..n], most[n..]);
    LexOnlyAdds(LexFrom(OUTSIDE, body[..n]), most[n..]);
    var l := LexFrom(OUTSIDE, most);
    assert all == l.braces + ['}'];
  }

  lemma {:induction false} OpenThroughout(braces: string, n: nat)
    requires StaysOpen(braces) && 0 < n <= |braces|
    ensures Depth(braces[..n]) >= 1
  {
    if n == |braces| {
      assert braces[..n] == braces;
    } else {
      OpenThroughout(braces[..|braces| - 1], n);
      assert braces[..|braces| - 1][..n] == braces[..n];
    }
  }

  /** Part-way through a balanced object the outer brace is still open. */
  lemma StillOpen(body: string, n: nat)
    requires BalancedObject(body) && 0 < n < |body|
    ensures Depth(LexFrom(OUTSIDE, body[..n]).braces) >= 1
  {
    OpensWithBrace(body[..n]);
    PartHasFewerBraces(body, n);
    var all := Braces(body).value;
    var m := |LexFrom(OUTSIDE, body[..n]).braces|;
    OpenThroughout(all[..|all| - 1], m);
    assert all[..|all| - 1][..m] == all[..m];
  }

  /** Text that would still be open after the next character is not closed by it. */
  lemma NotYetClosed(text: string, k: Cursor, c: char, i: nat)
    requires Inside(text, k) && 0 <= k.start
    requires Depth(LexFrom(OUTSIDE, text + [c]).braces) >= 1
    ensures !Closes(k, c, Step(k, c, i)) && Step(k, c, i).start == k.start
  {
    hide StaysOpen, Depth, LexFrom;
    OpenMeansDeep(LexFrom(OUTSIDE, text).braces);
    LexSnoc(OUTSIDE, text, c);
    DepthSnoc(LexFrom(OUTSIDE, text).braces, c);
  }

  /** The last character of a balanced object closes it. */
  lemma ClosedAtTheEnd(text: string, k: Cursor, c: char, i: nat)
    requires Inside(text, k) && 0 <= k.start && BalancedObject(text + [c])
    ensures Closes(k, c, Step(k, c, i))
  {
    hide StaysOpen, Depth, LexFrom, Braces;
    LexSnoc(OUTSIDE, text, c);
    DepthSnoc(LexFrom(OUTSIDE, text).braces, c);
    LexerFindsBraces("", text + [c]);
    assert "" + Braces(text + [c]).value == Braces(text + [c]).value;
    assert (text + [c])[|text|] == c;
  }

  /** From inside the object the scanner runs to its last brace and decodes exactly it. */
  lemma {:induction false} ScanReachesTheEnd<V>(source: string, from: nat, body: string, i: nat, k: Cursor,
                                                decode: string -> Decoded<V>)
    requires from < i < from + |body| <= |source| && source[from..from + |body|] == body
    requires BalancedObject(body) && decode(body).Object?
    requires k.start == from && Standing(source, i, k)
    ensures ScanFrom(source, i, k, decode)
            == Found(Some(decode(body).value), [Span(from, from + |body|)])
    decreases |source| - i
  {
    hide BalancedObject, Inside, LexFrom, Depth;
    var next := Step(k, source[i], i);
    var text := source[from..i];
    StandingStep(source, i, k);
    assert text + [source[i]] == body[..i + 1 - from];
    if i + 1 < from + |body| {
      StillOpen(body, i + 1 - from);
      NotYetClosed(text, k, source[i], i);
      ScanReachesTheEnd(source, from, body, i + 1, next, decode);
    } else {
      assert text + [source[i]] == body;
      ClosedAtTheEnd(text, k, source[i], i);
      assert source[from..i + 1] == body;
    }
  }

  /** Prose without braces or quotes, then a decodable balanced object, then anything at
      all: the scan returns exactly that object, and tries nothing else. */
  lemma ScanIsComplete<V>(prefix: string, body: string, rest: string, decode: string -> Decoded<V>)
    requires Plain(prefix) && BalancedObject(body) && decode(body).Object?
    ensures ScanFrom(prefix + body + rest, 0, AT_START, decode)
            == Found(Some(decode(body).value), [Span(|prefix|, |prefix| + |body|)])
  {
    var source, from := prefix + body + rest, |prefix|;
    assert source[0..from] == prefix;
    PlainIsSkipped(source, 0, from, decode);
    assert source[from..from + |body|] == body;
    assert source[from] == body[0] == '{';
    StandingStep(source, from, AT_START);
    assert body != "{";
    ScanReachesTheEnd(source, from, body, from + 1, Step(AT_START, '{', from), decode);
  }

  // ------------------------------------------------------------------ //
  // Exactly what is tried
  // ------------------------------------------------------------------ //

  /** A balanced object whose first brace is outside strings, with as many braces opened as
      closed in front of it, counting from the beginning of the text. */
  ghost predicate Eligible(source: string, t: Span) {
    && t.from < t.to <= |source|
    && (var l := LexFrom(OUTSIDE, source[..t.from]); !l.inString && Depth(l.braces) == 0)
    && BalancedObject(source[t.from..t.to])
  }

  /** The scanner's variables are those of the text read so far, and the place it remembers
      is that of any eligible object it stands in. */
  ghost predicate Following(source: string, i: nat, k: Cursor)
    requires i <= |source|
  {
    && Standing(source, i, k)
    && (var l := LexFrom(OUTSIDE, source[..i]);
        l.inString == k.inString && l.escape == k.escape && Depth(l.braces) == k.depth)
    && (0 <= k.start < |source| ==>
          var l := LexFrom(OUTSIDE, source[..k.start]); !l.inString && Depth(l.braces) == 0)
    && forall t: Span :: Eligible(source, t) && t.from < i < t.to ==> k.start == t.from
  }

  lemma VariablesFollow(source: string, i: nat, k: Cursor)
    requires i < |source|
    requires var l := LexFrom(OUTSIDE, source[..i]);
             l.inString == k.inString && l.escape == k.escape && Depth(l.braces) == k.depth
    ensures var l, next := LexFrom(OUTSIDE, source[..i + 1]), Step(k, source[i], i);
            l.inString == next.inString && l.escape == next.escape && Depth(l.braces) == next.depth
  {
    assert source[..i + 1] == source[..i] + [source[i]];
    LexSnoc(OUTSIDE, source[..i], source[i]);
    DepthSnoc(LexFrom(OUTSIDE, source[..i]).braces, source[i]);
    hide Depth, LexFrom;
  }

  lemma ObjectsAreLong(body: string)
    requires BalancedObject(body)
    ensures |body| >= 2
  {
  }

  /** Two balanced objects that begin at one place are one. */
  lemma SameStartSameEnd(source: string, from: nat, a: nat, b: nat)
    requires from < a < b <= |source|
    requires BalancedObject(source[from..a])
    ensures !BalancedObject(source[from..b])
  {
    var body, short := source[from..b], source[from..a];
    assert body[..a - from] == short;
    hide BalancedObject, Depth, LexFrom;
    if BalancedObject(body) {
      StillOpen(body, a - from);
      BalancedIsFlat(short);
    }
  }

  lemma BalancedIsFlat(body: string)
    requires BalancedObject(body)
    ensures Depth(LexFrom(OUTSIDE, body).braces) == 0
  {
    LexerFindsBraces("", body);
    assert "" + Braces(body).value == Braces(body).value;
  }

  lemma RememberedPlace(source: string, i: nat, k: Cursor, t: Span)
    requires i < |source| && Following(source, i, k) && Eligible(source, t) && t.from < i < t.to
    ensures k.start == t.from
  {
    hide Eligible, Standing;
  }

  /** An eligible object that the scanner stands in: the next character closes it or leaves
      it open, as it should. */
  lemma InsideEligible(source: string, i: nat, k: Cursor, t: Span)
    requires i < |source| && Following(source, i, k) && Eligible(source, t) && t.from < i < t.to
    ensures k.start == t.from
    ensures var next := Step(k, source[i], i);
            if i + 1 == t.to then Closes(k, source[i], next)
            else !Closes(k, source[i], next) && next.start == k.start
  {
    RememberedPlace(source, i, k, t);
    hide BalancedObject, Inside, LexFrom, Depth;
    var text, body := source[t.from..i], source[t.from..t.to];
    if i + 1 == t.to {
      assert text + [source[i]] == body;
      ClosedAtTheEnd(text, k, source[i], i);
    } else {
      assert text + [source[i]] == body[..i + 1 - t.from];
      StillOpen(body, i + 1 - t.from);
      NotYetClosed(text, k, source[i], i);
    }
  }

  /** An eligible object that begins with the next character is remembered. */
  lemma EligibleBegins(source: string, i: nat, k: Cursor, t: Span)
    requires i < |source| && Following(source, i, k) && Eligible(source, t) && t.from == i
    ensures i + 1 < t.to && Step(k, source[i], i).start == i && !Closes(k, source[i], Step(k, source[i], i))
  {
    assert source[i] == source[t.from..t.to][0] == '{';
    ObjectsAreLong(source[t.from..t.to]);
    hide BalancedObject, LexFrom, Depth, Braces;
  }

  /** Where the variables stand after a character that closes nothing. */
  lemma FollowOn(source: string, i: nat, k: Cursor)
    requires i < |source| && Following(source, i, k) && !Closes(k, source[i], Step(k, source[i], i))
    ensures Following(source, i + 1, Step(k, source[i], i))
  {
    VariablesFollow(source, i, k);
    StandingStep(source, i, k);
    var next := Step(k, source[i], i);
    forall t: Span | Eligible(source, t) && t.from < i + 1 < t.to ensures next.start == t.from {
      if t.from < i { InsideEligible(source, i, k, t); } else { EligibleBegins(source, i, k, t); }
    }
    hide Standing, LexFrom, Depth, BalancedObject;
  }

  /** And after one that closes an object: what was closed was eligible, and nothing that
      is eligible is open. */
  lemma FollowClosed(source: string, i: nat, k: Cursor)
    requires i < |source| && Following(source, i, k) && Closes(k, source[i], Step(k, source[i], i))
    ensures 0 <= k.start < i && Step(k, source[i], i).start == k.start
    ensures Eligible(source, Span(k.start, i + 1))
    ensures Following(source, i + 1, Step(k, source[i], i).(start := -1))
  {
    VariablesFollow(source, i, k);
    StandingStep(source, i, k);
    var next := Step(k, source[i], i).(start := -1);
    forall t: Span | Eligible(source, t) && t.from < i + 1 < t.to ensures false {
      if t.from < i { InsideEligible(source, i, k, t); } else { EligibleBegins(source, i, k, t); }
    }
    hide LexFrom, Depth, BalancedObject;
  }

  /** Eligible, closed later than `i`, and not behind one that decodes. */
  ghost predicate Reached<V>(source: string, i: nat, t: Span, decode: string -> Decoded<V>) {
    && Eligible(source, t) && t.to > i
    && forall u: Span :: Eligible(source, u) && i < u.to <= t.from ==> !decode(source[u.from..u.to]).Object?
  }

  lemma {:induction false} TriedFrom<V(!new)>(source: string, i: nat, k: Cursor, decode: string -> Decoded<V>, t: Span)
    requires i <= |source| && k.start <= i && Following(source, i, k) && Lawful(decode)
    ensures t in ScanFrom(source, i, k, decode).tried <==> Reached(source, i, t, decode)
    decreases |source| - i
  {
    if i < |source| {
      var next := Step(k, source[i], i);
      if Closes(k, source[i], next) {
        FollowClosed(source, i, k);
        TriedFrom(source, i + 1, next.(start := -1), decode, t);
        ClosedHere(source, i, k, decode, t);
      } else {
        FollowOn(source, i, k);
        TriedFrom(source, i + 1, next, decode, t);
        NoneClosedHere(source, i, k, decode, t);
      }
    }
  }

  lemma NoneClosedHere<V>(source: string, i: nat, k: Cursor, decode: string -> Decoded<V>, t: Span)
    requires i < |source| && Following(source, i, k) && !Closes(k, source[i], Step(k, source[i], i))
    ensures Reached(source, i, t, decode) <==> Reached(source, i + 1, t, decode)
  {
    forall u: Span | Eligible(source, u) ensures u.to != i + 1 {
      if u.from < i < u.to { InsideEligible(source, i, k, u); }
      if u.from == i { EligibleBegins(source, i, k, u); }
    }
    hide Eligible, Following;
  }

  lemma ClosedHere<V(!new)>(source: string, i: nat, k: Cursor, decode: string -> Decoded<V>, t: Span)
    requires i < |source| && k.start <= i && Following(source, i, k) && Lawful(decode)
    requires Closes(k, source[i], Step(k, source[i], i))
    requires 0 <= k.start < i && Step(k, source[i], i).start == k.start && Eligible(source, Span(k.start, i + 1))
    requires t in ScanFrom(source, i + 1, Step(k, source[i], i).(start := -1), decode).tried
             <==> Reached(source, i + 1, t, decode)
    ensures t in ScanFrom(source, i, k, decode).tried <==> Reached(source, i, t, decode)
  {
    var span, chunk := Span(k.start, i + 1), source[k.start..i + 1];
    assert chunk[0] == '{';
    forall u: Span | Eligible(source, u) && u.to == i + 1 ensures u == span {
      if u.from < i { InsideEligible(source, i, k, u); } else { EligibleBegins(source, i, k, u); }
    }
    forall u: Span | Eligible(source, u) && u.to > i + 1 ensures u.from >= i + 1 {
      if u.from < i { InsideEligible(source, i, k, u); }
      if u.from == i { EligibleBegins(source, i, k, u); }
    }
    hide Eligible, Following, Lawful;
    assert decode(chunk) != NotObject;
    var rest := ScanFrom(source, i + 1, Step(k, source[i], i).(start := -1), decode);
    assert ScanFrom(source, i, k, decode).tried == if decode(chunk).Object? then [span] else [span] + rest.tried;
  }

  /** A piece of text is handed to the decoder exactly when it is a balanced object that
      begins outside strings, behind as many opened as closed braces, and no such object
      before it decodes. So a stray quote or closing brace in the prose hides an object. */
  lemma TriedIff<V(!new)>(source: string, decode: string -> Decoded<V>, t: Span)
    requires Lawful(decode)
    ensures t in ScanFrom(source, 0, AT_START, decode).tried <==>
              && Eligible(source, t)
              && forall u: Span :: Eligible(source, u) && u.to <= t.from ==> !decode(source[u.from..u.to]).Object?
  {
    assert source[..0] == "";
    TriedFrom(source, 0, AT_START, decode, t);
    assert forall u: Span :: Eligible(source, u) ==> u.to > 0;
    hide Eligible;
  }

  /** And the scan finds an object exactly when some eligible piece of text decodes. */
  lemma FindsIff<V(!new)>(source: string, decode: string -> Decoded<V>)
    requires Lawful(decode)
    ensures ScanFrom(source, 0, AT_START, decode).value.Some? <==>
              exists t: Span :: Eligible(source, t) && decode(source[t.from..t.to]).Object?
  {
    var f := ScanFrom(source, 0, AT_START, decode);
    ScanIsSound(source, decode);
    hide Eligible, ScanFrom, Lawful, GoodTry;
    if f.value.Some? {
      var last := f.tried[|f.tried| - 1];
      TriedIff(source, decode, last);
    }
    if t: Span :| Eligible(source, t) && decode(source[t.from..t.to]).Object? {
      var first := FirstToDecode(source, decode, t);
      TriedIff(source, decode, first);
      var a :| 0 <= a < |f.tried| && f.tried[a] == first;
    }
  }

  lemma {:induction false} FirstToDecode<V(!new)>(source: string, decode: string -> Decoded<V>, t: Span)
    returns (first: Span)
    requires Eligible(source, t) && decode(source[t.from..t.to]).Object?
    ensures Eligible(source, first) && decode(source[first.from..first.to]).Object?
    ensures forall u: Span :: Eligible(source, u) && u.to <= first.from ==> !decode(source[u.from..u.to]).Object?
    decreases t.from
  {
    if u: Span :| Eligible(source, u) && u.to <= t.from && decode(source[u.from..u.to]).Object? {
      first := FirstToDecode(source, decode, u);
    } else {
      first := t;
    }
  }
}
