/** Reading the country off a bare phone number by its calling code, and splitting a file
    of numbers by country.

    The calling-code table and the display names are parameters: everything here holds
    for any table whose codes are distinct. */
module PhoneCountries {
  import opened Options
  import opened Text

  datatype Entry = Entry(prefix: string, iso: string)

  const UNKNOWN := "Unknown"

  predicate DistinctPrefixes(table: seq<Entry>) {
    forall i, j :: 0 <= i < j < |table| ==> table[i].prefix != table[j].prefix
  }

  // ------------------------------------------------------------------ //
  // Longest prefix first
  // ------------------------------------------------------------------ //

  /** Stable insertion: before the first strictly shorter prefix. */
  function Insert(e: Entry, sorted: seq<Entry>): seq<Entry> {
    if sorted == [] || |e.prefix| > |sorted[0].prefix| then [e] + sorted
    else [sorted[0]] + Insert(e, sorted[1..])
  }

  function LongestFirst(table: seq<Entry>): seq<Entry> {
    if table == [] then [] else Insert(table[|table| - 1], LongestFirst(table[..|table| - 1]))
  }

  function FirstPrefix(lookup: seq<Entry>, digits: string): Option<string> {
    if lookup == [] then None
    else if StartsWith(digits, lookup[0].prefix) then Some(lookup[0].iso)
    else FirstPrefix(lookup[1..], digits)
  }

  /** The region of a digits-only number, from the table alone. */
  function IsoOf(table: seq<Entry>, digits: string): Option<string> {
    if digits == "" then None else FirstPrefix(LongestFirst(table), digits)
  }

  predicate Descending(es: seq<Entry>) {
    forall i, j :: 0 <= i < j < |es| ==> |es[i].prefix| >= |es[j].prefix|
  }

  lemma {:induction false} InsertHas(e: Entry, sorted: seq<Entry>)
    ensures forall x :: x in Insert(e, sorted) <==> x == e || x in sorted
  {
    if sorted != [] && |e.prefix| <= |sorted[0].prefix| {
      InsertHas(e, sorted[1..]);
      assert sorted == [sorted[0]] + sorted[1..];
    }
  }

  lemma {:induction false} InsertKeepsOrder(e: Entry, sorted: seq<Entry>)
    requires Descending(sorted)
    ensures Descending(Insert(e, sorted))
  {
    if sorted != [] && |e.prefix| <= |sorted[0].prefix| {
      InsertKeepsOrder(e, sorted[1..]);
      InsertHas(e, sorted[1..]);
      var rest := Insert(e, sorted[1..]);
      forall j | 0 <= j < |rest| ensures |sorted[0].prefix| >= |rest[j].prefix| {
        assert rest[j] in rest;
      }
    }
  }

  lemma {:induction false} LongestFirstSorts(table: seq<Entry>)
    ensures Descending(LongestFirst(table))
    ensures forall x :: x in LongestFirst(table) <==> x in table
  {
    if table != [] {
      var n := |table| - 1;
      LongestFirstSorts(table[..n]);
      InsertKeepsOrder(table[n], LongestFirst(table[..n]));
      InsertHas(table[n], LongestFirst(table[..n]));
      assert table == table[..n] + [table[n]];
    }
  }

  lemma {:induction false} FirstPrefixIsLongest(lookup: seq<Entry>, digits: string)
    requires Descending(lookup)
    ensures FirstPrefix(lookup, digits).None? <==> forall e <- lookup :: !StartsWith(digits, e.prefix)
    ensures FirstPrefix(lookup, digits).Some? ==>
              exists e <- lookup :: StartsWith(digits, e.prefix) && FirstPrefix(lookup, digits) == Some(e.iso)
                && forall f <- lookup :: StartsWith(digits, f.prefix) ==> |f.prefix| <= |e.prefix|
  {
    if lookup != [] {
      assert lookup == [lookup[0]] + lookup[1..];
      if StartsWith(digits, lookup[0].prefix) {
        assert lookup[0] in lookup;
      } else {
        FirstPrefixIsLongest(lookup[1..], digits);
      }
    }
  }

  lemma SameLengthPrefixes(digits: string, a: string, b: string)
    requires StartsWith(digits, a) && StartsWith(digits, b) && |a| == |b|
    ensures a == b
  {
    assert a == digits[..|a|] == b;
  }

  /** The region is that of the one longest calling code the number starts with, and is
      missing exactly when it starts with none. */
  lemma LongestPrefixWins(table: seq<Entry>, digits: string)
    requires DistinctPrefixes(table) && digits != ""
    ensures IsoOf(table, digits).None? <==> forall e <- table :: !StartsWith(digits, e.prefix)
    ensures IsoOf(table, digits).Some? ==>
              exists e <- table :: StartsWith(digits, e.prefix) && IsoOf(table, digits) == Some(e.iso)
                && forall f <- table :: StartsWith(digits, f.prefix) && f != e ==> |f.prefix| < |e.prefix|
  {
    var lookup := LongestFirst(table);
    LongestFirstSorts(table);
    FirstPrefixIsLongest(lookup, digits);
    if IsoOf(table, digits).Some? {
      var e :| e in lookup && StartsWith(digits, e.prefix) && FirstPrefix(lookup, digits) == Some(e.iso)
               && forall f <- lookup :: StartsWith(digits, f.prefix) ==> |f.prefix| <= |e.prefix|;
      forall f | f in table && StartsWith(digits, f.prefix) && f != e ensures |f.prefix| < |e.prefix| {
        if |f.prefix| == |e.prefix| { SameLengthPrefixes(digits, e.prefix, f.prefix); }
      }
      assert e in table;
    }
  }

  // ------------------------------------------------------------------ //
  // One number
  // ------------------------------------------------------------------ //

  function DigitsOf(raw: string): string {
    if raw == "" then "" else (if IsDigit(raw[0]) then [raw[0]] else "") + DigitsOf(raw[1..])
  }

  /** The tables a classification needs. */
  datatype Atlas = Atlas(codes: seq<Entry>, names: map<string, string>)

  function CountryOf(atlas: Atlas, raw: string): string {
    var digits := DigitsOf(raw);
    if digits == "" then UNKNOWN
    else
      var iso := IsoOf(atlas.codes, digits);
      if iso.Some? then (if iso.value in atlas.names then atlas.names[iso.value] else iso.value)
      else "+" + if |digits| <= 3 then digits else digits[..3]
  }

  /** Everything but digits is dropped, in place. */
  lemma {:induction false} OnlyDigitsStay(a: string, b: string, c: char)
    ensures DigitsOf(a + b) == DigitsOf(a) + DigitsOf(b)
    ensures DigitsOf([c]) == if '0' <= c <= '9' then [c] else ""
  {
    assert [c][1..] == "";
    assert DigitsOf("") == "";
    if a == "" {
      assert a + b == b;
    } else {
      assert (a + b)[0] == a[0] && (a + b)[1..] == a[1..] + b;
      OnlyDigitsStay(a[1..], b, c);
    }
  }

  /** What a number's country comes to: unknown without a digit; the name of the region of
      its longest calling code, or the region itself when it has no name; and for a number
      with no known code a plus sign and its first digits, three at most. */
  lemma CountryIs(atlas: Atlas, raw: string)
    requires DistinctPrefixes(atlas.codes)
    ensures
      var digits, country := DigitsOf(raw), CountryOf(atlas, raw);
      && (digits == "" ==> country == "Unknown")
      && (digits != "" && (forall e <- atlas.codes :: !StartsWith(digits, e.prefix)) ==>
            country == "+" + digits[..if |digits| < 3 then |digits| else 3])
      && forall e <- atlas.codes ::
           digits != "" && StartsWith(digits, e.prefix)
           && (forall f <- atlas.codes :: StartsWith(digits, f.prefix) ==> |f.prefix| <= |e.prefix|) ==>
             country == if e.iso in atlas.names then atlas.names[e.iso] else e.iso
  {
    var digits := DigitsOf(raw);
    hide StartsWith, LongestFirst, FirstPrefix, DigitsOf;
    if digits != "" {
      LongestPrefixWins(atlas.codes, digits);
      forall e | e in atlas.codes && StartsWith(digits, e.prefix)
                 && forall f <- atlas.codes :: StartsWith(digits, f.prefix) ==> |f.prefix| <= |e.prefix|
        ensures IsoOf(atlas.codes, digits) == Some(e.iso)
      {
        var best :| best in atlas.codes && StartsWith(digits, best.prefix)
                    && IsoOf(atlas.codes, digits) == Some(best.iso)
                    && forall f <- atlas.codes :: StartsWith(digits, f.prefix) && f != best
                         ==> |f.prefix| < |best.prefix|;
        assert e == best;
      }
      assert digits[..|digits|] == digits;
    }
  }

  // ------------------------------------------------------------------ //
  // Whole files
  // ------------------------------------------------------------------ //

  /** The non-blank lines, stripped, in order. */
  function Numbers(lines: seq<string>): seq<string> {
    if lines == [] then []
    else
      var last := Strip(lines[|lines| - 1]);
      Numbers(lines[..|lines| - 1]) + if last == "" then [] else [last]
  }

  lemma NumbersSnoc(lines: seq<string>, i: nat)
    requires i < |lines|
    ensures Numbers(lines[..i + 1])
            == Numbers(lines[..i]) + if Strip(lines[i]) == "" then [] else [Strip(lines[i])]
  {
    assert lines[..i + 1][..i] == lines[..i];
  }

  /** Those of one country, in order. */
  function Group(atlas: Atlas, numbers: seq<string>, country: string): seq<string> {
    if numbers == [] then []
    else
      var last := numbers[|numbers| - 1];
      Group(atlas, numbers[..|numbers| - 1], country)
        + if CountryOf(atlas, last) == country then [last] else []
  }

  lemma GroupSnoc(atlas: Atlas, numbers: seq<string>, x: string, country: string)
    ensures Group(atlas, numbers + [x], country)
            == Group(atlas, numbers, country) + if CountryOf(atlas, x) == country then [x] else []
  {
    assert (numbers + [x])[..|numbers|] == numbers;
  }

  /** Each country that occurs has exactly its own lines, in order. */
  ghost predicate Splits(grouped: map<string, seq<string>>, atlas: Atlas, numbers: seq<string>) {
    && (forall c :: c in grouped <==> Group(atlas, numbers, c) != [])
    && forall c <- grouped :: grouped[c] == Group(atlas, numbers, c)
  }

  /** Each country that occurs has the number of its lines. */
  ghost predicate Counts(counter: map<string, nat>, atlas: Atlas, numbers: seq<string>) {
    && (forall c :: c in counter <==> Group(atlas, numbers, c) != [])
    && forall c <- counter :: counter[c] == |Group(atlas, numbers, c)|
  }

  lemma SplitsOneMore(grouped: map<string, seq<string>>, atlas: Atlas, numbers: seq<string>, x: string)
    requires Splits(grouped, atlas, numbers)
    ensures var country := CountryOf(atlas, x);
            Splits(grouped[country := (if country in grouped then grouped[country] else []) + [x]],
                   atlas, numbers + [x])
  {
    hide CountryOf, Group;
    forall c ensures Group(atlas, numbers + [x], c)
                     == Group(atlas, numbers, c) + if CountryOf(atlas, x) == c then [x] else [] {
      GroupSnoc(atlas, numbers, x, c);
    }
  }

  lemma CountsOneMore(counter: map<string, nat>, atlas: Atlas, numbers: seq<string>, x: string)
    requires Counts(counter, atlas, numbers)
    ensures var country := CountryOf(atlas, x);
            Counts(counter[country := (if country in counter then counter[country] else 0) + 1],
                   atlas, numbers + [x])
  {
    hide CountryOf, Group;
    forall c ensures Group(atlas, numbers + [x], c)
                     == Group(atlas, numbers, c) + if CountryOf(atlas, x) == c then [x] else [] {
      GroupSnoc(atlas, numbers, x, c);
    }
  }

  method SplitByCountry(atlas: Atlas, lines: seq<string>) returns (grouped: map<string, seq<string>>)
    ensures Splits(grouped, atlas, Numbers(lines))
  {
    grouped := map[];
    ghost var seen: seq<string> := [];
    for i := 0 to |lines|
      invariant seen == Numbers(lines[..i])
      invariant Splits(grouped, atlas, seen)
    {
      NumbersSnoc(lines, i);
      var stripped := Strip(lines[i]);
      if stripped != "" {
        SplitsOneMore(grouped, atlas, seen, stripped);
        seen := seen + [stripped];
        var country := CountryOf(atlas, stripped);
        grouped := grouped[country := (if country in grouped then grouped[country] else []) + [stripped]];
      }
    }
    assert lines[..|lines|] == lines;
  }

  method CountByCountry(atlas: Atlas, lines: seq<string>) returns (counter: map<string, nat>)
    ensures Counts(counter, atlas, Numbers(lines))
  {
    counter := map[];
    ghost var seen: seq<string> := [];
    for i := 0 to |lines|
      invariant seen == Numbers(lines[..i])
      invariant Counts(counter, atlas, seen)
    {
      NumbersSnoc(lines, i);
      var stripped := Strip(lines[i]);
      if stripped != "" {
        CountsOneMore(counter, atlas, seen, stripped);
        seen := seen + [stripped];
        var country := CountryOf(atlas, stripped);
        counter := counter[country := (if country in counter then counter[country] else 0) + 1];
      }
    }
    assert lines[..|lines|] == lines;
  }

  // ------------------------------------------------------------------ //
  // The groups are a partition
  // ------------------------------------------------------------------ //

  ghost function TotalSize(atlas: Atlas, numbers: seq<string>, countries: set<string>): nat {
    if countries == {} then 0
    else
      var c :| c in countries;
      |Group(atlas, numbers, c)| + TotalSize(atlas, numbers, countries - {c})
  }

  lemma {:induction false} OneMoreNumber(atlas: Atlas, numbers: seq<string>, x: string, countries: set<string>)
    ensures TotalSize(atlas, numbers + [x], countries)
            == TotalSize(atlas, numbers, countries) + if CountryOf(atlas, x) in countries then 1 else 0
  {
    if countries != {} {
      var c :| c in countries
        && TotalSize(atlas, numbers, countries)
           == |Group(atlas, numbers, c)| + TotalSize(atlas, numbers, countries - {c})
        && TotalSize(atlas, numbers + [x], countries)
           == |Group(atlas, numbers + [x], c)| + TotalSize(atlas, numbers + [x], countries - {c});
      GroupSnoc(atlas, numbers, x, c);
      OneMoreNumber(atlas, numbers, x, countries - {c});
    }
  }

  lemma {:induction false} NothingToCount(atlas: Atlas, countries: set<string>)
    ensures TotalSize(atlas, [], countries) == 0
  {
    if countries != {} {
      var c :| c in countries
        && TotalSize(atlas, [], countries) == |Group(atlas, [], c)| + TotalSize(atlas, [], countries - {c});
      assert |Group(atlas, [], c)| == 0;
      NothingToCount(atlas, countries - {c});
    }
  }

  /** No line is lost and none is filed twice: over any set of countries that covers the
      file, the group sizes add up to the number of lines. */
  lemma {:induction false} GroupsPartitionTheFile(atlas: Atlas, numbers: seq<string>, countries: set<string>)
    requires forall x <- numbers :: CountryOf(atlas, x) in countries
    ensures TotalSize(atlas, numbers, countries) == |numbers|
  {
    if numbers == [] {
      NothingToCount(atlas, countries);
    } else {
      var n := |numbers| - 1;
      assert numbers == numbers[..n] + [numbers[n]];
      assert forall x <- numbers[..n] :: x in numbers;
      GroupsPartitionTheFile(atlas, numbers[..n], countries);
      OneMoreNumber(atlas, numbers[..n], numbers[n], countries);
    }
  }

  lemma {:induction false} GroupHolds(atlas: Atlas, numbers: seq<string>, country: string)
    ensures forall x :: multiset(Group(atlas, numbers, country))[x]
                        == if CountryOf(atlas, x) == country then multiset(numbers)[x] else 0
  {
    if numbers != [] {
      var n := |numbers| - 1;
      GroupHolds(atlas, numbers[..n], country);
      assert numbers == numbers[..n] + [numbers[n]];
    }
  }

  /** A group holds its country's lines, each from its own place in the file, in order, and
      leaves none out: `at` says where they stood. */
  predicate InFileOrder(atlas: Atlas, numbers: seq<string>, country: string, group: seq<string>, at: seq<nat>) {
    && |at| == |group|
    && (forall i :: 0 <= i < |at| ==> at[i] < |numbers| && numbers[at[i]] == group[i])
    && (forall i, j :: 0 <= i < j < |at| ==> at[i] < at[j])
    && forall k: nat :: k < |numbers| ==> (k in at <==> CountryOf(atlas, numbers[k]) == country)
  }

  lemma {:induction false} GroupsKeepFileOrder(atlas: Atlas, numbers: seq<string>, country: string)
      returns (at: seq<nat>)
    ensures InFileOrder(atlas, numbers, country, Group(atlas, numbers, country), at)
  {
    hide CountryOf;
    at := [];
    if numbers != [] {
      var n := |numbers| - 1;
      var front := GroupsKeepFileOrder(atlas, numbers[..n], country);
      at := front + if CountryOf(atlas, numbers[n]) == country then [n] else [];
      OrderOneMore(atlas, numbers, country, Group(atlas, numbers[..n], country), front);
    }
  }

  lemma OrderOneMore(atlas: Atlas, numbers: seq<string>, country: string, group: seq<string>, at: seq<nat>)
    requires numbers != [] && InFileOrder(atlas, numbers[..|numbers| - 1], country, group, at)
    ensures var n := |numbers| - 1;
            if CountryOf(atlas, numbers[n]) == country
            then InFileOrder(atlas, numbers, country, group + [numbers[n]], at + [n])
            else InFileOrder(atlas, numbers, country, group + [], at + [])
  {
    hide CountryOf;
    var n := |numbers| - 1;
    assert forall k: nat :: k < n ==> numbers[..n][k] == numbers[k];
    assert n !in at && group + [] == group && at + [] == at;
    assert forall k: nat :: k in at + [n] <==> k in at || k == n;
  }

  /** The two methods agree with each other and with the file: same countries, and sizes
      that sum to the count of non-blank lines. */
  lemma SplitAndCountAgree(atlas: Atlas, lines: seq<string>, grouped: map<string, seq<string>>,
                           counter: map<string, nat>)
    requires Splits(grouped, atlas, Numbers(lines)) && Counts(counter, atlas, Numbers(lines))
    ensures grouped.Keys == counter.Keys
    ensures forall c <- grouped :: c in counter && counter[c] == |grouped[c]| > 0
    ensures forall c <- grouped, x <- grouped[c] :: CountryOf(atlas, x) == c && x in Numbers(lines)
    ensures TotalSize(atlas, Numbers(lines), grouped.Keys) == |Numbers(lines)|
  {
    hide CountryOf, Group, Numbers;
    var numbers := Numbers(lines);
    forall c, x | c in grouped && x in grouped[c] ensures CountryOf(atlas, x) == c && x in numbers {
      GroupHolds(atlas, numbers, c);
      assert multiset(grouped[c])[x] > 0;
      assert x in multiset(numbers);
    }
    forall x | x in numbers ensures CountryOf(atlas, x) in grouped.Keys {
      GroupHolds(atlas, numbers, CountryOf(atlas, x));
      assert multiset(numbers)[x] > 0;
      assert x in multiset(Group(atlas, numbers, CountryOf(atlas, x)));
    }
    GroupsPartitionTheFile(atlas, numbers, grouped.Keys);
  }
}
