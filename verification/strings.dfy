/**
 * The string primitives of JavaScript that the toolkit's own logic relies on:
 * `trim`, `split` on one character, `join`, ASCII `toLowerCase`, `endsWith`.
 * Strings are sequences of characters; whitespace is the set below.
 */
module Strings {

  /** The white-space characters recognised by `trim` and by the `\s` class. */
  predicate IsSpace(c: char) {
    c == ' ' || c == '\t' || c == '\n' || c == '\r' ||
    c == '\U{000B}' || c == '\U{000C}' || c == '\U{00A0}'
  }

  /** True when the string holds nothing but white space. */
  predicate Blank(s: string) {
    forall i :: 0 <= i < |s| ==> IsSpace(s[i])
  }

  /** The number of white-space characters `s` starts with. */
  function LeadingSpaces(s: string): (n: nat)
    ensures n <= |s|
    ensures forall i :: 0 <= i < n ==> IsSpace(s[i])
    ensures n < |s| ==> !IsSpace(s[n])
  {
    if |s| > 0 && IsSpace(s[0]) then
      var n := 1 + LeadingSpaces(s[1..]);
      assert forall i :: 1 <= i < n ==> s[i] == s[1..][i - 1];
      n
    else 0
  }

  /** The number of white-space characters `s` ends with. */
  function TrailingSpaces(s: string): (n: nat)
    ensures n <= |s|
    ensures forall i :: |s| - n <= i < |s| ==> IsSpace(s[i])
    ensures n < |s| ==> !IsSpace(s[|s| - n - 1])
  {
    if |s| > 0 && IsSpace(s[|s| - 1]) then
      var n := 1 + TrailingSpaces(s[..|s| - 1]);
      assert forall i :: |s| - n <= i < |s| - 1 ==> s[i] == s[..|s| - 1][i];
      n
    else 0
  }

  /** JavaScript's `String.prototype.trim`. */
  function Trim(s: string): (r: string)
    ensures r == [] || (!IsSpace(r[0]) && !IsSpace(r[|r| - 1]))
    ensures Blank(s) <==> r == []
    ensures var k := LeadingSpaces(s);
      k + |r| <= |s| && Blank(s[..k]) && r == s[k..k + |r|] && Blank(s[k + |r|..])
  {
    var k := LeadingSpaces(s);
    var t := s[k..];
    var r := t[..|t| - TrailingSpaces(t)];
    assert s[k..k + |r|] == r;
    assert s[k + |r|..] == t[|r|..];
    assert Blank(s[..k]) by {
      forall i | 0 <= i < k ensures IsSpace(s[..k][i]) {
        assert s[..k][i] == s[i];
      }
    }
    assert Blank(t[|r|..]) by {
      forall i | 0 <= i < |t| - |r| ensures IsSpace(t[|r|..][i]) {
        assert t[|r|..][i] == t[|r| + i];
      }
    }
    assert r == [] ==> Blank(s) by {
      if r == [] {
        assert LeadingSpaces(s) == |s|;
      }
    }
    assert r != [] ==> !IsSpace(r[0]) && !IsSpace(r[|r| - 1]) by {
      if r != [] {
        assert r[0] == s[LeadingSpaces(s)];
        assert r[|r| - 1] == t[|t| - TrailingSpaces(t) - 1];
      }
    }
    r
  }

  /** JavaScript's `s.split(sep)` for a one-character separator: every occurrence cuts. */
  function Split(s: string, sep: char): (parts: seq<string>)
    ensures |parts| >= 1
    ensures forall k :: 0 <= k < |parts| ==> sep !in parts[k]
    ensures sep !in s <==> |parts| == 1
  {
    if s == [] then [""]
    else
      var rest := Split(s[1..], sep);
      if s[0] == sep then [""] + rest
      else [[s[0]] + rest[0]] + rest[1..]
  }

  /** JavaScript's `parts.join(sep)`. */
  function Join(parts: seq<string>, sep: string): string {
    if |parts| == 0 then ""
    else if |parts| == 1 then parts[0]
    else parts[0] + sep + Join(parts[1..], sep)
  }

  /** Splitting and joining again on the same character gives the string back. */
  lemma {:induction false} SplitJoin(s: string, sep: char)
    ensures Join(Split(s, sep), [sep]) == s
  {
    if s != [] {
      SplitJoin(s[1..], sep);
      var rest := Split(s[1..], sep);
      if s[0] == sep {
        assert Split(s, sep) == [""] + rest;
        assert s == [sep] + s[1..];
      } else {
        var parts := Split(s, sep);
        assert parts == [[s[0]] + rest[0]] + rest[1..];
        if |rest| == 1 {
          assert s == [s[0]] + rest[0];
        } else {
          assert rest == [rest[0]] + rest[1..];
          assert Join(rest, [sep]) == rest[0] + [sep] + Join(rest[1..], [sep]);
          assert parts[1..] == rest[1..];
        }
      }
    }
  }

  /** A string without `sep` splits into itself alone. */
  lemma {:induction false} SplitFree(s: string, sep: char)
    requires sep !in s
    ensures Split(s, sep) == [s]
  {
    if s != [] {
      SplitFree(s[1..], sep);
      assert s[0] != sep;
      assert s == [s[0]] + s[1..];
    }
  }

  /** A piece free of `sep`, then `sep`, then anything: the piece is the first part. */
  lemma {:induction false} SplitAfterFree(a: string, sep: char, b: string)
    requires sep !in a
    ensures Split(a + [sep] + b, sep) == [a] + Split(b, sep)
  {
    if a == [] {
      assert a + [sep] + b == [sep] + b;
      assert ([sep] + b)[1..] == b;
    } else {
      SplitAfterFree(a[1..], sep, b);
      assert (a + [sep] + b)[1..] == a[1..] + [sep] + b;
      assert a == [a[0]] + a[1..];
    }
  }

  /** Trimming leaves alone a string that neither starts nor ends with white space. */
  lemma TrimUnpadded(s: string)
    requires s != [] && !IsSpace(s[0]) && !IsSpace(s[|s| - 1])
    ensures Trim(s) == s
  {
    assert LeadingSpaces(s) == 0;
    assert s[0..] == s;
    assert TrailingSpaces(s) == 0;
  }

  /** Leading white space does not survive trimming. */
  lemma TrimLeadingSpace(s: string)
    requires s != [] && IsSpace(s[0])
    ensures Trim(s) == Trim(s[1..])
  {
    assert LeadingSpaces(s) == 1 + LeadingSpaces(s[1..]);
    assert s[LeadingSpaces(s)..] == s[1..][LeadingSpaces(s[1..])..];
  }

  /** ASCII upper-case letters become lower-case; every other character stays. */
  function LowerChar(c: char): (r: char)
    ensures 'A' <= c <= 'Z' ==> r as int == c as int + 32
    ensures !('A' <= c <= 'Z') ==> r == c
  {
    if 'A' <= c <= 'Z' then (c as int + 32) as char else c
  }

  /** `toLowerCase` restricted to ASCII letters. */
  function ToLower(s: string): (r: string)
    ensures |r| == |s|
    ensures forall i :: 0 <= i < |s| ==> r[i] == LowerChar(s[i])
  {
    seq(|s|, i requires 0 <= i < |s| => LowerChar(s[i]))
  }

  /** Lower-casing twice is lower-casing once. */
  lemma ToLowerIdempotent(s: string)
    ensures ToLower(ToLower(s)) == ToLower(s)
  {
  }

  /** The concatenation of `line(x)` for every `x` of `xs`, in order: `xs.forEach(x => out += line(x))`. */
  function ConcatMap<T>(line: T -> string, xs: seq<T>): string {
    if xs == [] then ""
    else ConcatMap(line, xs[..|xs| - 1]) + line(xs[|xs| - 1])
  }

  /** Mapping over two lists in a row concatenates their outputs. */
  lemma {:induction false} ConcatMapAppend<T>(line: T -> string, a: seq<T>, b: seq<T>)
    ensures ConcatMap(line, a + b) == ConcatMap(line, a) + ConcatMap(line, b)
  {
    if b == [] {
      assert a + b == a;
    } else {
      var ab := a + b;
      assert ab[..|ab| - 1] == a + b[..|b| - 1];
      assert ab[|ab| - 1] == b[|b| - 1];
      ConcatMapAppend(line, a, b[..|b| - 1]);
      Assoc(ConcatMap(line, a), ConcatMap(line, b[..|b| - 1]), line(b[|b| - 1]));
    }
  }

  /** A one-item list gives that item's line. */
  lemma ConcatMapSingle<T>(line: T -> string, x: T)
    ensures ConcatMap(line, [x]) == line(x)
  {
    assert [x][..0] == [];
    assert ConcatMap(line, [x]) == "" + line(x);
  }

  /** Item `k` of the list contributes its line between those of the items around it. */
  lemma ConcatMapAt<T>(line: T -> string, xs: seq<T>, k: nat)
    requires k < |xs|
    ensures ConcatMap(line, xs) == ConcatMap(line, xs[..k]) + line(xs[k]) + ConcatMap(line, xs[k + 1..])
  {
    var before, after := xs[..k], xs[k + 1..];
    assert xs == (before + [xs[k]]) + after;
    ConcatMapAppend(line, before + [xs[k]], after);
    ConcatMapAppend(line, before, [xs[k]]);
    ConcatMapSingle(line, xs[k]);
  }

  /** Lines that agree on every item give the same output. */
  lemma {:induction false} ConcatMapPointwise<T>(f: T -> string, g: T -> string, xs: seq<T>)
    requires forall x :: x in xs ==> f(x) == g(x)
    ensures ConcatMap(f, xs) == ConcatMap(g, xs)
  {
    if xs != [] {
      assert forall x :: x in xs[..|xs| - 1] ==> x in xs;
      ConcatMapPointwise(f, g, xs[..|xs| - 1]);
      assert xs[|xs| - 1] in xs;
    }
  }

  /** Concatenation is associative; stated once so that proofs can cite it for long strings. */
  lemma Assoc<T>(a: seq<T>, b: seq<T>, c: seq<T>)
    ensures (a + b) + c == a + (b + c)
  {
  }

  /** The middle piece of a concatenation is the slice between the lengths of the outer ones. */
  lemma SliceMiddle<T>(a: seq<T>, b: seq<T>, c: seq<T>)
    ensures (a + b + c)[|a|..|a| + |b|] == b
  {
  }

  /** `s.endsWith(suffix)`. */
  predicate EndsWith(s: string, suffix: string) {
    |suffix| <= |s| && s[|s| - |suffix|..] == suffix
  }
}
