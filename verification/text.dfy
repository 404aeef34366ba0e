/** The string operations the program leans on, over ASCII text. */
module Text {
  import opened Options

  predicate IsSpace(c: char) {
    c == ' ' || '\t' <= c <= '\r' || 28 as char <= c <= 31 as char
  }

  predicate IsDigit(c: char) { '0' <= c <= '9' }

  function LowerChar(c: char): char {
    if 'A' <= c <= 'Z' then (c as int + 32) as char else c
  }

  function Lower(s: string): (r: string)
    ensures |r| == |s|
  {
    seq(|s|, i requires 0 <= i < |s| => LowerChar(s[i]))
  }

  function StripLeft(s: string): string {
    if s != "" && IsSpace(s[0]) then StripLeft(s[1..]) else s
  }

  function StripRight(s: string): string {
    if s != "" && IsSpace(s[|s| - 1]) then StripRight(s[..|s| - 1]) else s
  }

  function Strip(s: string): string { StripRight(StripLeft(s)) }

  function Replace(s: string, from: char, to: char): (r: string)
    ensures |r| == |s|
  {
    seq(|s|, i requires 0 <= i < |s| => if s[i] == from then to else s[i])
  }

  function Without(s: string, c: char): string {
    if s == "" then "" else (if s[0] == c then "" else [s[0]]) + Without(s[1..], c)
  }

  predicate OccursAt(s: string, part: string, i: int) {
    0 <= i <= |s| - |part| && s[i..i + |part|] == part
  }

  predicate Contains(s: string, part: string) {
    exists i | 0 <= i <= |s| :: OccursAt(s, part, i)
  }

  predicate StartsWith(s: string, prefix: string) {
    |prefix| <= |s| && s[..|prefix|] == prefix
  }

  /** Length of the longest prefix whose characters are not spaces. */
  function WordLength(s: string): (n: nat)
    ensures n <= |s|
    ensures forall i :: 0 <= i < n ==> !IsSpace(s[i])
    ensures n < |s| ==> IsSpace(s[n])
  {
    if s == "" || IsSpace(s[0]) then 0 else 1 + WordLength(s[1..])
  }

  /** Words separated by any run of spaces; no word is empty. */
  function Words(s: string): seq<string>
    decreases |s|
  {
    if s == "" then []
    else if IsSpace(s[0]) then Words(s[1..])
    else [s[..WordLength(s)]] + Words(s[WordLength(s)..])
  }

  function Join(words: seq<string>, glue: string): string {
    if words == [] then ""
    else if |words| == 1 then words[0]
    else words[0] + glue + Join(words[1..], glue)
  }

  /** Case and spacing do not matter: how a country name becomes a key. */
  function Normalise(s: string): string { Join(Words(Lower(Strip(s))), " ") }

  // Decimal numbers

  predicate AllDigits(s: string) { s != "" && forall c <- s :: IsDigit(c) }

  function DigitValue(c: char): nat
    requires IsDigit(c)
  {
    c as int - '0' as int
  }

  function ParseNat(s: string): nat
    requires forall c <- s :: IsDigit(c)
  {
    if s == "" then 0 else 10 * ParseNat(s[..|s| - 1]) + DigitValue(s[|s| - 1])
  }

  function DigitChar(d: nat): (c: char)
    requires d < 10
    ensures IsDigit(c) && DigitValue(c) == d
  {
    (d + '0' as int) as char
  }

  function Decimal(n: nat): string {
    if n < 10 then [DigitChar(n)] else Decimal(n / 10) + [DigitChar(n % 10)]
  }

  /** Two digits, zero-padded. */
  function TwoDigits(n: nat): string
    requires n < 100
  {
    [DigitChar(n / 10), DigitChar(n % 10)]
  }

  lemma {:induction false} DecimalRoundTrip(n: nat)
    ensures AllDigits(Decimal(n)) && ParseNat(Decimal(n)) == n
    ensures n < 10 ==> |Decimal(n)| == 1
    ensures n >= 10 ==> |Decimal(n)| == 1 + |Decimal(n / 10)|
  {
    if n >= 10 {
      DecimalRoundTrip(n / 10);
      assert Decimal(n)[..|Decimal(n)| - 1] == Decimal(n / 10);
    }
  }

  /** Digits, with single underscores allowed between them. */
  predicate DigitGroups(s: string) {
    && s != ""
    && IsDigit(s[0])
    && IsDigit(s[|s| - 1])
    && (forall c <- s :: IsDigit(c) || c == '_')
    && forall i :: 0 <= i < |s| - 1 ==> !(s[i] == '_' && s[i + 1] == '_')
  }

  lemma {:induction false} WithoutKeeps(s: string, c: char)
    ensures forall d <- Without(s, c) :: d in s && d != c
    ensures c !in s ==> Without(s, c) == s
  {
    if s != "" { WithoutKeeps(s[1..], c); }
  }

  function UnsignedInt(s: string): Option<nat> {
    if DigitGroups(s) then
      WithoutKeeps(s, '_');
      Some(ParseNat(Without(s, '_')))
    else None
  }

  /** An integer literal as the language reads one: outer spaces, a sign, grouped digits. */
  function ReadInt(s: string): Option<int> {
    var t := Strip(s);
    if t == "" then None
    else if t[0] == '-' then
      var size := UnsignedInt(t[1..]);
      if size.Some? then Some(-(size.value as int)) else None
    else if t[0] == '+' then UnsignedInt(t[1..])
    else UnsignedInt(t)
  }

  lemma StripKeepsTight(s: string)
    requires s == "" || (!IsSpace(s[0]) && !IsSpace(s[|s| - 1]))
    ensures Strip(s) == s
  {
  }

  lemma {:induction false} StripLeftTight(s: string)
    ensures StripLeft(s) == "" || !IsSpace(StripLeft(s)[0])
  {
    if s != "" && IsSpace(s[0]) { StripLeftTight(s[1..]); }
  }

  lemma {:induction false} StripRightTight(s: string)
    ensures var r := StripRight(s);
            && StartsWith(s, r)
            && (r == "" || !IsSpace(r[|r| - 1]))
  {
    if s != "" && IsSpace(s[|s| - 1]) { StripRightTight(s[..|s| - 1]); }
  }

  /** Stripped text has nothing left to strip. */
  lemma StripTwice(s: string)
    ensures Strip(Strip(s)) == Strip(s)
  {
    StripLeftTight(s);
    StripRightTight(StripLeft(s));
    StripKeepsTight(Strip(s));
  }

  lemma TwoDigitsRead(n: nat)
    requires n < 100
    ensures ReadInt(TwoDigits(n)) == Some(n)
  {
    var s := TwoDigits(n);
    StripKeepsTight(s);
    assert forall c <- s :: IsDigit(c);
    WithoutKeeps(s, '_');
    assert s[..1] == [s[0]];
    assert ParseNat(s[..1]) == n / 10 by { assert s[..1][..0] == ""; }
  }

  /** White space: tab to carriage return, the four separators, and the space. */
  lemma SpacesAre(c: char)
    ensures IsSpace(c) <==> c as int in {9, 10, 11, 12, 13, 28, 29, 30, 31, 32}
  {
  }

  /** Lowering touches the capital letters only. */
  lemma LoweringIs(c: char)
    ensures var capital, small := "ABCDEFGHIJKLMNOPQRSTUVWXYZ", "abcdefghijklmnopqrstuvwxyz";
            if c in capital then exists i | 0 <= i < 26 :: capital[i] == c && small[i] == LowerChar(c)
            else LowerChar(c) == c
  {
    var capital, small := "ABCDEFGHIJKLMNOPQRSTUVWXYZ", "abcdefghijklmnopqrstuvwxyz";
    assert forall i :: 0 <= i < 26 ==> capital[i] as int == 65 + i && small[i] as int == 97 + i;
    if 'A' <= c <= 'Z' {
      assert capital[c as int - 65] == c;
    }
  }

  lemma DigitsAreGroups(s: string)
    requires AllDigits(s)
    ensures UnsignedInt(s) == Some(ParseNat(s)) && Strip(s) == s
    ensures forall i :: 0 <= i < |s| ==> IsDigit(s[i])
  {
    assert forall i :: 0 <= i < |s| ==> s[i] in s && IsDigit(s[i]);
    hide ParseNat;
    WithoutKeeps(s, '_');
    StripKeepsTight(s);
  }

  lemma SignedIsTight(sign: string, s: string)
    requires AllDigits(s) && |sign| == 1 && !IsSpace(sign[0])
    ensures Strip(sign + s) == sign + s && (sign + s)[1..] == s
  {
    assert (sign + s)[|s|] == s[|s| - 1] && s[|s| - 1] in s;
    StripKeepsTight(sign + s);
  }

  /** A number reads as itself, with a sign in front or not. */
  lemma NumberReads(s: string)
    requires AllDigits(s)
    ensures ReadInt(s) == ReadInt("+" + s) == Some(ParseNat(s) as int)
    ensures ReadInt("-" + s) == Some(-(ParseNat(s) as int))
  {
    DigitsAreGroups(s);
    SignedIsTight("+", s);
    SignedIsTight("-", s);
    hide UnsignedInt, ParseNat, Strip;
  }

  /** Space around a number makes no difference. */
  lemma SpacedNumberReads(s: string)
    ensures ReadInt(s) == ReadInt(Strip(s))
  {
    StripTwice(s);
    hide UnsignedInt, Strip;
  }
}
