/**
 * The page-range parser of the split tool: text such as "1, 3-5, 8" becomes
 * the ascending, duplicate-free list of 0-based page indices it names,
 * clipped to the page count. Tokens that do not parse, and page numbers
 * outside 1..max, are dropped without an error.
 */
module RangeParser {
  import opened Wrappers
  import opened Strings

  predicate IsDigit(c: char) { '0' <= c <= '9' }

  predicate AllDigits(s: string) {
    forall i :: 0 <= i < |s| ==> IsDigit(s[i])
  }

  /** The decimal value of a string of digits. */
  function DigitsValue(s: string): nat
    requires AllDigits(s)
  {
    if s == [] then 0
    else DigitsValue(s[..|s| - 1]) * 10 + (s[|s| - 1] as int - '0' as int)
  }

  /** What `Number` gives: NaN, a finite value, or Infinity. */
  datatype Num = NaN | Finite(value: int) | Infinity

  /**
   * `Number(s)` on the token forms modelled here: surrounding white space is
   * ignored, the empty string is 0, digits may follow an optional `+`, and
   * `Infinity` or `+Infinity` is Infinity. Every other string is NaN here,
   * including the decimal, hex and exponent forms `Number` also reads.
   */
  function ParseNumber(s: string): (r: Num)
    ensures r.Finite? ==> r.value >= 0
    ensures AllDigits(s) && s != [] ==> r == Finite(DigitsValue(s))
    ensures r.Infinity? <==> Trim(s) == "Infinity" || Trim(s) == "+Infinity"
  {
    var t := Trim(s);
    assert AllDigits(s) && s != [] ==> t == s by {
      if AllDigits(s) && s != [] {
        TrimUnpadded(s);
      }
    }
    assert t == "Infinity" || t == "+Infinity" ==> !AllDigits(t) && !(|t| > 1 && AllDigits(t[1..])) by {
      if t == "Infinity" || t == "+Infinity" {
        assert !IsDigit(t[0]);
        assert t[1..][0] == t[1] && !IsDigit(t[1]);
      }
    }
    if t == [] then Finite(0)
    else if AllDigits(t) then Finite(DigitsValue(t))
    else if t[0] == '+' && |t| > 1 && AllDigits(t[1..]) then Finite(DigitsValue(t[1..]))
    else if t == "Infinity" || t == "+Infinity" then Infinity
    else NaN
  }

  /** The guard `i <= end` of the range loop, for a finite counter. */
  predicate AtMostEnd(i: int, end: Num) {
    end.Infinity? || (end.Finite? && i <= end.value)
  }

  /** Page number `k + 1` lies in `[start, end]`. */
  predicate Covers(start: int, end: int, k: int) {
    start <= k + 1 <= end
  }

  /** The 0-based indices `i - 1` for every `i` in `[start, end]` that is a page of `1..max`. */
  function RangeSet(start: int, end: int, max: nat): set<int> {
    set k | 0 <= k < max && Covers(start, end, k)
  }

  /** Extending a range by its next page number `end + 1`. */
  lemma RangeSetStep(start: int, end: int, max: nat)
    requires start <= end + 1
    ensures RangeSet(start, end + 1, max) ==
      RangeSet(start, end, max) + (if 1 <= end + 1 <= max then {end} else {})
  {
  }

  /** Once the loop counter has passed `end`, the pages covered so far are the whole range. */
  lemma RangeSetExit(start: int, end: int, i: int, max: nat)
    requires start <= i && end < i
    requires start <= end + 1 ==> i <= end + 1
    requires start > end ==> i == start
    ensures RangeSet(start, i - 1, max) == RangeSet(start, end, max)
  {
    if start > end {
      assert RangeSet(start, i - 1, max) == {};
      assert RangeSet(start, end, max) == {};
    }
  }

  /**
   * The last page number the range loop visits: the end itself, and for an
   * end of Infinity the last page, where the loop as written never stops
   * (see `EndlessRange`).
   */
  function EndBound(end: Num, max: nat): int
    requires !end.NaN?
  {
    if end.Finite? then end.value else max
  }

  /** What one comma-separated token adds to the result. */
  function Contribution(part: string, max: nat): (pages: set<int>)
    ensures forall k :: k in pages ==> 0 <= k < max
  {
    var t := Trim(part);
    if '-' in t then
      var ends := Split(t, '-');
      var start, end := ParseNumber(ends[0]), ParseNumber(ends[1]);
      if start.Finite? && !end.NaN? then RangeSet(start.value, EndBound(end, max), max) else {}
    else
      var n := ParseNumber(t);
      if n.Finite? && 1 <= n.value <= max then {n.value - 1} else {}
  }

  /** The union of the contributions of `parts`, accumulated left to right. */
  function PageSet(parts: seq<string>, max: nat): set<int> {
    if parts == [] then {}
    else PageSet(parts[..|parts| - 1], max) + Contribution(parts[|parts| - 1], max)
  }

  /** The members of `found` below `n`, in ascending order. */
  function Ascending(found: set<int>, n: nat): seq<int> {
    if n == 0 then []
    else Ascending(found, n - 1) + (if n - 1 in found then [n - 1] else [])
  }

  predicate StrictlyIncreasing(s: seq<int>) {
    forall i, j :: 0 <= i < j < |s| ==> s[i] < s[j]
  }

  /** The list `parseRange(rangeStr, max)` returns. */
  function ParseRangeSpec(rangeStr: string, max: nat): seq<int> {
    Ascending(PageSet(Split(rangeStr, ','), max), max)
  }

  /** `Ascending` lists exactly the members below `n`, strictly increasing. */
  lemma {:induction false} AscendingSound(found: set<int>, n: nat)
    ensures StrictlyIncreasing(Ascending(found, n))
    ensures forall k :: k in Ascending(found, n) <==> 0 <= k < n && k in found
  {
    if n > 0 {
      AscendingSound(found, n - 1);
      var prev := Ascending(found, n - 1);
      var s := Ascending(found, n);
      if n - 1 in found {
        assert s == prev + [n - 1];
        forall i, j | 0 <= i < j < |s| ensures s[i] < s[j] {
          if j == |s| - 1 {
            assert s[i] == prev[i] && prev[i] in prev;
          }
        }
      }
    }
  }

  /** One more token adds its contribution. */
  lemma PageSetSnoc(parts: seq<string>, j: nat, max: nat)
    requires j < |parts|
    ensures PageSet(parts[..j + 1], max) == PageSet(parts[..j], max) + Contribution(parts[j], max)
  {
    var p := parts[..j + 1];
    assert p[..|p| - 1] == parts[..j];
    assert p[|p| - 1] == parts[j];
  }

  /** Every index the parser yields is a page of the document. */
  lemma {:induction false} PageSetBounded(parts: seq<string>, max: nat)
    ensures forall k :: k in PageSet(parts, max) ==> 0 <= k < max
  {
    if parts != [] {
      PageSetBounded(parts[..|parts| - 1], max);
    }
  }

  /** An index is in the result iff some token contributes it. */
  lemma {:induction false} PageSetIsUnion(parts: seq<string>, max: nat)
    ensures forall k :: k in PageSet(parts, max) <==>
      exists j :: 0 <= j < |parts| && k in Contribution(parts[j], max)
  {
    if parts != [] {
      var init := parts[..|parts| - 1];
      PageSetIsUnion(init, max);
      forall k | k in PageSet(parts, max)
        ensures exists j :: 0 <= j < |parts| && k in Contribution(parts[j], max)
      {
        if k in PageSet(init, max) {
          var j :| 0 <= j < |init| && k in Contribution(init[j], max);
          assert parts[j] == init[j];
        }
      }
      forall k, j | 0 <= j < |parts| && k in Contribution(parts[j], max)
        ensures k in PageSet(parts, max)
      {
        if j < |parts| - 1 {
          assert init[j] == parts[j];
        }
      }
    }
  }

  /** The order of the tokens does not matter: any rearrangement yields the same pages. */
  lemma TokenOrderIrrelevant(parts: seq<string>, shuffled: seq<string>, max: nat)
    requires multiset(parts) == multiset(shuffled)
    ensures PageSet(parts, max) == PageSet(shuffled, max)
  {
    PageSetIsUnion(parts, max);
    PageSetIsUnion(shuffled, max);
    forall k | k in PageSet(parts, max) ensures k in PageSet(shuffled, max) {
      var j :| 0 <= j < |parts| && k in Contribution(parts[j], max);
      assert parts[j] in multiset(shuffled);
      var j' :| 0 <= j' < |shuffled| && shuffled[j'] == parts[j];
    }
    forall k | k in PageSet(shuffled, max) ensures k in PageSet(parts, max) {
      var j :| 0 <= j < |shuffled| && k in Contribution(shuffled[j], max);
      assert shuffled[j] in multiset(parts);
      var j' :| 0 <= j' < |parts| && parts[j'] == shuffled[j];
    }
  }

  /** A plain page number `n` contributes exactly `n - 1` when `1 <= n <= max`, else nothing. */
  lemma PlainToken(digits: string, max: nat)
    requires digits != [] && AllDigits(digits)
    ensures Contribution(digits, max) ==
      (if 1 <= DigitsValue(digits) <= max then {DigitsValue(digits) - 1} else {})
  {
    TrimUnpadded(digits);
  }

  /**
   * A range `a-b` contributes `i - 1` for every `i` in `[a, b]` that is a page;
   * in particular a reversed range contributes nothing.
   */
  lemma RangeToken(a: string, b: string, max: nat)
    requires a != [] && AllDigits(a) && b != [] && AllDigits(b)
    ensures Contribution(a + "-" + b, max) == RangeSet(DigitsValue(a), DigitsValue(b), max)
    ensures forall k :: k in Contribution(a + "-" + b, max) <==>
      0 <= k < max && DigitsValue(a) <= k + 1 <= DigitsValue(b)
    ensures DigitsValue(a) > DigitsValue(b) ==> Contribution(a + "-" + b, max) == {}
  {
    var t := a + "-" + b;
    assert t[0] == a[0] && t[|t| - 1] == b[|b| - 1];
    assert IsDigit(a[0]) && IsDigit(b[|b| - 1]);
    TrimUnpadded(t);
    assert Trim(t) == t;
    assert t[|a|] == '-';
    assert '-' in t;
    assert '-' !in a by {
      forall i | 0 <= i < |a| ensures a[i] != '-' { assert IsDigit(a[i]); }
    }
    assert '-' !in b by {
      forall i | 0 <= i < |b| ensures b[i] != '-' { assert IsDigit(b[i]); }
    }
    assert t == a + ['-'] + b;
    SplitAfterFree(a, '-', b);
    SplitFree(b, '-');
    var ends := Split(t, '-');
    assert ends == [a] + [b];
    assert ends[0] == a && ends[1] == b;
    assert ParseNumber(a) == Finite(DigitsValue(a));
    assert ParseNumber(b) == Finite(DigitsValue(b));
  }

  /** A token that is neither a number nor contains `-` contributes nothing. */
  lemma GarbageToken(part: string, max: nat)
    requires '-' !in Trim(part) && ParseNumber(Trim(part)).NaN?
    ensures Contribution(part, max) == {}
  {
  }

  /** The word `Infinity` reads as Infinity and holds no `-`. */
  lemma InfinityWord(w: string)
    requires w == "Infinity"
    ensures Trim(w) == w && '-' !in w && ParseNumber(w) == Infinity
  {
    assert !IsSpace(w[0]) && !IsSpace(w[|w| - 1]);
    TrimUnpadded(w);
  }

  /** How `a-Infinity` splits and reads, for a (possibly empty) string of digits `a`. */
  lemma InfinityRange(a: string, w: string)
    requires AllDigits(a) && w == "Infinity"
    ensures var t := a + ['-'] + w;
      Trim(t) == t && '-' in t && Split(t, '-') == [a, w] &&
      ParseNumber(a) == Finite(if a == [] then 0 else DigitsValue(a)) && ParseNumber(w) == Infinity
  {
    InfinityWord(w);
    var t := a + ['-'] + w;
    assert t[|t| - 1] == w[|w| - 1];
    if a != [] {
      assert t[0] == a[0] && IsDigit(a[0]);
      TrimUnpadded(a);
    } else {
      assert t[0] == '-';
      assert Trim(a) == [];
    }
    TrimUnpadded(t);
    assert t[|a|] == '-';
    assert '-' !in a by {
      forall i | 0 <= i < |a| ensures a[i] != '-' { assert IsDigit(a[i]); }
    }
    SplitAfterFree(a, '-', w);
    SplitFree(w, '-');
  }

  /**
   * As written, a range `a-Infinity` (and `-Infinity`, whose start reads as 0)
   * never leaves the loop `for (let i = start; i <= end; i++)`: both ends are
   * numbers, so the loop is entered, and its guard still holds after any
   * number of turns.
   */
  lemma EndlessRange(a: string, w: string, turns: nat)
    requires AllDigits(a) && w == "Infinity"
    ensures var ends := Split(Trim(a + ['-'] + w), '-');
      |ends| == 2 && ParseNumber(ends[0]).Finite? && ParseNumber(ends[1]).Infinity? &&
      AtMostEnd(ParseNumber(ends[0]).value + turns, ParseNumber(ends[1]))
  {
    InfinityRange(a, w);
  }

  /**
   * Corrected, a range running to Infinity stops at the last page: `a-Infinity`
   * contributes every page from `a` on, as any end past the last page does.
   */
  lemma InfiniteEndToLastPage(a: string, w: string, end: nat, max: nat)
    requires AllDigits(a) && w == "Infinity" && end >= max
    ensures var start := if a == [] then 0 else DigitsValue(a);
      var c := Contribution(a + ['-'] + w, max);
      c == RangeSet(start, end, max) && forall k :: k in c <==> 0 <= k < max && start <= k + 1
  {
    var t := a + ['-'] + w;
    var start := if a == [] then 0 else DigitsValue(a);
    RangeSetPastEnd(start, end, max);
    InfinityRange(a, w);
    RangeTokenReads(t, a, w, max);
  }

  /** What a range token contributes, in terms of the two ends it splits into. */
  lemma RangeTokenReads(t: string, a: string, b: string, max: nat)
    requires Trim(t) == t && '-' in t && Split(t, '-') == [a, b]
    ensures Contribution(t, max) ==
      if ParseNumber(a).Finite? && !ParseNumber(b).NaN?
      then RangeSet(ParseNumber(a).value, EndBound(ParseNumber(b), max), max) else {}
  {
  }

  /** Ends past the last page all cover the same pages. */
  lemma RangeSetPastEnd(start: int, end: int, max: nat)
    requires end >= max
    ensures RangeSet(start, end, max) == RangeSet(start, max, max)
  {
  }

  /** The inner loop of the parser: every page of `[start, end]` is added to `found`. */
  method AddRange(found: set<int>, start: int, end: int, max: nat) returns (r: set<int>)
    ensures r == found + RangeSet(start, end, max)
  {
    r := found;
    var i := start;
    while i <= end
      invariant start <= i
      invariant start <= end + 1 ==> i <= end + 1
      invariant start > end ==> i == start
      invariant r == found + RangeSet(start, i - 1, max)
    {
      RangeSetStep(start, i - 1, max);
      if i >= 1 && i <= max {
        r := r + {i - 1};
      }
      i := i + 1;
    }
    RangeSetExit(start, end, i, max);
  }

  /** The body of the parser's loop over tokens: one token's pages are added to `found`. */
  method AddToken(found: set<int>, part: string, max: nat) returns (r: set<int>)
    ensures r == found + Contribution(part, max)
  {
    var trimPart := Trim(part);
    if '-' in trimPart {
      var ends := Split(trimPart, '-');
      var start, end := ParseNumber(ends[0]), ParseNumber(ends[1]);
      if start.Finite? && !end.NaN? {
        r := AddRange(found, start.value, EndBound(end, max), max);
      } else {
        r := found;
      }
    } else {
      var page := ParseNumber(trimPart);
      r := found;
      if page.Finite? && page.value >= 1 && page.value <= max {
        r := r + {page.value - 1};
      }
    }
  }

  /**
   * The imperative parser: a set filled token by token, then listed in
   * ascending order. Its result is the specification's list.
   */
  method ParseRange(rangeStr: string, max: nat) returns (pages: seq<int>)
    ensures pages == ParseRangeSpec(rangeStr, max)
    ensures StrictlyIncreasing(pages)
    ensures forall k :: k in pages <==> k in PageSet(Split(rangeStr, ','), max)
    ensures forall k :: k in pages ==> 0 <= k < max
  {
    var found: set<int> := {};
    var parts := Split(rangeStr, ',');
    for j := 0 to |parts|
      invariant found == PageSet(parts[..j], max)
    {
      PageSetSnoc(parts, j, max);
      found := AddToken(found, parts[j], max);
    }
    assert parts[..|parts|] == parts;
    pages := [];
    for k := 0 to max
      invariant pages == Ascending(found, k)
    {
      if k in found {
        pages := pages + [k];
      }
    }
    AscendingSound(found, max);
    PageSetBounded(parts, max);
  }

  datatype ExtractError = InvalidPageRange

  /**
   * `handleExtract`: the parsed indices go to extraction only when there is
   * at least one; an empty list is reported as an invalid range.
   */
  method HandleExtract(rangeStr: string, pageCount: nat) returns (r: Result<seq<int>, ExtractError>)
    ensures r.Err? <==> ParseRangeSpec(rangeStr, pageCount) == []
    ensures r.Ok? ==> r.value == ParseRangeSpec(rangeStr, pageCount) && |r.value| > 0
  {
    var indices := ParseRange(rangeStr, pageCount);
    if |indices| == 0 {
      return Err(InvalidPageRange);
    }
    return Ok(indices);
  }

  /** Two strictly increasing lists with the same members are the same list. */
  lemma {:induction false} IncreasingUnique(s: seq<int>, t: seq<int>)
    requires StrictlyIncreasing(s) && StrictlyIncreasing(t)
    requires forall k :: k in s <==> k in t
    ensures s == t
  {
    assert t != [] ==> t[0] in t;
    if s != [] {
      assert s[0] in s;
      assert t != [];
      assert t[0] in t;
      assert s[0] == t[0];
      forall k ensures k in s[1..] <==> k in t[1..] {
        if k in s[1..] {
          var i :| 1 <= i < |s| && s[i] == k;
          assert k in t;
          assert k != t[0];
        }
        if k in t[1..] {
          var i :| 1 <= i < |t| && t[i] == k;
          assert k in s;
          assert k != s[0];
        }
      }
      IncreasingUnique(s[1..], t[1..]);
      assert s == [s[0]] + s[1..];
      assert t == [t[0]] + t[1..];
    }
  }

  /** The ascending listing is the one strictly increasing list of the pages found. */
  lemma AscendingIs(found: set<int>, n: nat, expected: seq<int>)
    requires StrictlyIncreasing(expected)
    requires forall k :: k in expected <==> 0 <= k < n && k in found
    ensures Ascending(found, n) == expected
  {
    AscendingSound(found, n);
    IncreasingUnique(Ascending(found, n), expected);
  }

  /** One more token at the end adds its contribution. */
  lemma PageSetAppend(parts: seq<string>, part: string, max: nat)
    ensures PageSet(parts + [part], max) == PageSet(parts, max) + Contribution(part, max)
  {
    assert (parts + [part])[..|parts|] == parts;
  }

  /** The pages of a three-token list. */
  lemma PageSetOfThree(a: string, b: string, c: string, max: nat)
    ensures PageSet([a, b, c], max) == Contribution(a, max) + Contribution(b, max) + Contribution(c, max)
  {
    var one, two := Contribution(a, max), Contribution(b, max);
    assert [] + [a] == [a] && [a] + [b] == [a, b] && [a, b] + [c] == [a, b, c];
    PageSetAppend([], a, max);
    assert PageSet([a], max) == one;
    PageSetAppend([a], b, max);
    assert PageSet([a, b], max) == one + two;
    PageSetAppend([a, b], c, max);
  }

  /** Tokens that trim to the same text contribute the same pages. */
  lemma SameTrim(a: string, b: string, max: nat)
    requires Trim(a) == Trim(b)
    ensures Contribution(a, max) == Contribution(b, max)
  {
  }

  /** A one-digit string has that digit's value. */
  lemma OneDigit(c: char)
    requires IsDigit(c)
    ensures AllDigits([c]) && DigitsValue([c]) == c as int - '0' as int
  {
    assert [c][..0] == [];
  }

  /** A three-page range. */
  lemma RangeOfThree(a: int, max: nat)
    requires 1 <= a && a + 2 <= max
    ensures RangeSet(a, a + 2, max) == {a - 1, a, a + 1}
  {
    var r := RangeSet(a, a + 2, max);
    assert forall k :: k in r <==> k == a - 1 || k == a || k == a + 1;
  }

  lemma PlaceholderTail()
    ensures Split(" 3-5, 8", ',') == [" 3-5", " 8"]
  {
    assert " 3-5, 8" == " 3-5" + [','] + " 8";
    SplitAfterFree(" 3-5", ',', " 8");
    SplitFree(" 8", ',');
  }

  lemma PlaceholderTokens()
    ensures Split("1, 3-5, 8", ',') == ["1", " 3-5", " 8"]
  {
    assert "1, 3-5, 8" == "1" + [','] + " 3-5, 8";
    SplitAfterFree("1", ',', " 3-5, 8");
    PlaceholderTail();
  }

  lemma ThreeToFive()
    ensures Contribution("3-5", 10) == {2, 3, 4}
  {
    OneDigit('3');
    OneDigit('5');
    RangeToken("3", "5", 10);
    assert "3" + "-" + "5" == "3-5";
    RangeOfThree(3, 10);
  }

  lemma PaddedRange()
    ensures Contribution(" 3-5", 10) == {2, 3, 4}
  {
    TrimLeadingSpace(" 3-5");
    assert " 3-5"[1..] == "3-5";
    SameTrim(" 3-5", "3-5", 10);
    ThreeToFive();
  }

  lemma PaddedEight()
    ensures Contribution(" 8", 10) == {7}
  {
    TrimLeadingSpace(" 8");
    assert " 8"[1..] == "8";
    SameTrim(" 8", "8", 10);
    OneDigit('8');
    PlainToken("8", 10);
  }

  lemma PlaceholderPages()
    ensures PageSet(["1", " 3-5", " 8"], 10) == {0, 2, 3, 4, 7}
  {
    PageSetOfThree("1", " 3-5", " 8", 10);
    OneDigit('1');
    PlainToken("1", 10);
    PaddedRange();
    PaddedEight();
  }

  lemma PlaceholderListing()
    ensures Ascending({0, 2, 3, 4, 7}, 10) == [0, 2, 3, 4, 7]
  {
    AscendingIs({0, 2, 3, 4, 7}, 10, [0, 2, 3, 4, 7]);
  }

  /** The placeholder example: "1, 3-5, 8" over ten pages. */
  lemma PlaceholderExample()
    ensures ParseRangeSpec("1, 3-5, 8", 10) == [0, 2, 3, 4, 7]
  {
    PlaceholderTokens();
    PlaceholderPages();
    PlaceholderListing();
  }

  lemma RepeatedTokens()
    ensures Split("1,1,1", ',') == ["1", "1", "1"]
  {
    assert "1,1" == "1" + [','] + "1";
    SplitAfterFree("1", ',', "1");
    SplitFree("1", ',');
    assert "1,1,1" == "1" + [','] + "1,1";
    SplitAfterFree("1", ',', "1,1");
  }

  lemma RepeatedPages()
    ensures PageSet(["1", "1", "1"], 5) == {0}
  {
    PageSetOfThree("1", "1", "1", 5);
    OneDigit('1');
    PlainToken("1", 5);
  }

  /** A page named three times appears once. */
  lemma RepeatedPageExample()
    ensures ParseRangeSpec("1,1,1", 5) == [0]
  {
    RepeatedTokens();
    RepeatedPages();
    AscendingIs({0}, 5, [0]);
  }

  lemma OutOfRangeTokens()
    ensures Split("0, 99", ',') == ["0", " 99"]
  {
    assert "0, 99" == "0" + [','] + " 99";
    SplitAfterFree("0", ',', " 99");
    SplitFree(" 99", ',');
  }

  lemma PaddedNinetyNine()
    ensures Contribution(" 99", 10) == {}
  {
    TrimLeadingSpace(" 99");
    assert " 99"[1..] == "99";
    SameTrim(" 99", "99", 10);
    PlainToken("99", 10);
  }

  lemma OutOfRangePages()
    ensures PageSet(["0", " 99"], 10) == {}
  {
    assert ["0", " 99"][..1] == ["0"];
    assert ["0"][..0] == [];
    PlainToken("0", 10);
    PaddedNinetyNine();
  }

  lemma GarbagePages()
    ensures Split("abc", ',') == ["abc"]
    ensures PageSet(["abc"], 10) == {}
  {
    SplitFree("abc", ',');
    TrimUnpadded("abc");
    assert !IsDigit("abc"[0]);
    assert ParseNumber("abc") == NaN;
    assert ["abc"][..0] == [];
  }

  lemma EmptyPages()
    ensures Split("", ',') == [""]
    ensures PageSet([""], 10) == {}
  {
    assert [""][..0] == [];
  }

  /** Out-of-range pages and garbage yield nothing, as does the empty string. */
  lemma DroppedTokensExample()
    ensures ParseRangeSpec("0, 99", 10) == []
    ensures ParseRangeSpec("abc", 10) == []
    ensures ParseRangeSpec("", 10) == []
  {
    OutOfRangeTokens();
    OutOfRangePages();
    GarbagePages();
    EmptyPages();
    AscendingIs({}, 10, []);
  }
}
