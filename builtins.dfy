/**
 * The few Python built-ins the modelled code relies on, written out with
 * their Python meaning: str.split() and str.strip() (whitespace as in
 * str.isspace()), str.startswith, the substring test `in`, str.replace,
 * int() on a float (truncation toward zero), int() on a decimal string, and
 * list indexing with negative indices.
 */
module Builtins {
  import opened Wrappers

  /** Characters for which Python's str.isspace() holds. */
  predicate IsSpace(ch: char) {
    InSpaceTable(ch, 1)
  }

  /**
   * The Unicode whitespace table, behind one step of recursion so that the
   * verifier opens it only for the characters a proof asks about.
   */
  predicate InSpaceTable(ch: char, depth: nat) {
    if depth > 0 then InSpaceTable(ch, depth - 1) else
    ('\t' <= ch <= '\r') || ('\U{1c}' <= ch <= ' ') || ch == '\U{85}' || ch == '\U{a0}'
    || ch == '\U{1680}' || ('\U{2000}' <= ch <= '\U{200a}') || ch == '\U{2028}' || ch == '\U{2029}'
    || ch == '\U{202f}' || ch == '\U{205f}' || ch == '\U{3000}'
  }

  ghost predicate AllSpace(s: string) {
    forall i :: 0 <= i < |s| ==> IsSpace(s[i])
  }

  ghost predicate NoSpace(s: string) {
    forall i :: 0 <= i < |s| ==> !IsSpace(s[i])
  }

  /** Whitespace occurs in s only as one run at its end. */
  ghost predicate TrailingSpaceOnly(s: string) {
    forall k, m :: 0 <= k <= m < |s| && IsSpace(s[k]) ==> IsSpace(s[m])
  }

  /** s without its leading whitespace. */
  function DropSpaces(s: string): (r: string)
    ensures |r| <= |s| && r == s[|s| - |r|..]
    ensures AllSpace(s[..|s| - |r|])
    ensures r != [] ==> !IsSpace(r[0])
  {
    s[LeadingSpaces(s)..]
  }

  /** The length of the leading whitespace run of s. */
  function LeadingSpaces(s: string): (n: nat)
    ensures n <= |s| && AllSpace(s[..n])
    ensures n < |s| ==> !IsSpace(s[n])
  {
    if |s| > 0 && IsSpace(s[0]) then
      var m := LeadingSpaces(s[1..]);
      SpaceCons(s, m + 1);
      m + 1
    else 0
  }

  /** A whitespace character followed by a run of whitespace is a run of whitespace. */
  lemma SpaceCons(s: string, n: nat)
    requires 0 < n <= |s| && IsSpace(s[0]) && AllSpace(s[1..][..n - 1])
    ensures AllSpace(s[..n])
  {
    forall i | 0 < i < n ensures IsSpace(s[i]) {
      assert s[i] == s[1..][..n - 1][i - 1];
    }
  }

  /** The longest prefix of s that holds no whitespace. */
  function WordPrefix(s: string): (w: string)
    ensures |w| <= |s| && w == s[..|w|]
    ensures NoSpace(w)
    ensures |w| < |s| ==> IsSpace(s[|w|])
  {
    if |s| == 0 || IsSpace(s[0]) then [] else [s[0]] + WordPrefix(s[1..])
  }

  /** Python's s.split() with no argument: the maximal runs of non-whitespace. */
  function Words(s: string): seq<string>
    decreases |s|
  {
    var t := DropSpaces(s);
    if |t| == 0 then [] else
      var w := WordPrefix(t);
      [w] + Words(t[|w|..])
  }

  /** s.split() is empty exactly when s is all whitespace. */
  lemma {:induction false} WordsEmpty(s: string)
    ensures Words(s) == [] <==> AllSpace(s)
  {
    var t := DropSpaces(s);
    if |t| == 0 {
      assert s[..|s|] == s;
    } else {
      assert t[0] == s[|s| - |t|];
    }
  }

  /**
   * For a string that does not start with whitespace, s.split() has exactly
   * one element exactly when the only whitespace in s is a trailing run.
   */
  lemma SingleWord(s: string)
    requires |s| > 0 && !IsSpace(s[0])
    ensures |Words(s)| == 1 <==> TrailingSpaceOnly(s)
  {
    assert DropSpaces(s) == s;
    var w := WordPrefix(s);
    var rest := s[|w|..];
    assert Words(s) == [w] + Words(rest);
    WordsEmpty(rest);
    SpaceAfterWord(s, |w|);
  }

  /** After a first word s[..n] that ends at whitespace, the rest is blank exactly when only trailing whitespace occurs. */
  lemma SpaceAfterWord(s: string, n: nat)
    requires n <= |s| && NoSpace(s[..n]) && (n < |s| ==> IsSpace(s[n]))
    ensures AllSpace(s[n..]) <==> TrailingSpaceOnly(s)
  {
    var rest := s[n..];
    if AllSpace(rest) {
      forall k, m | 0 <= k <= m < |s| && IsSpace(s[k]) ensures IsSpace(s[m]) {
        assert k >= n;
        assert rest[m - n] == s[m];
      }
    }
    if TrailingSpaceOnly(s) {
      forall i | 0 <= i < |rest| ensures IsSpace(rest[i]) {
        assert rest[i] == s[n + i];
      }
    }
  }


  /** r is s with some whitespace taken off each end: s == lead + r + trail. */
  ghost predicate Trimmed(s: string, r: string) {
    exists a, b :: 0 <= a <= b <= |s| && r == s[a..b] && AllSpace(s[..a]) && AllSpace(s[b..])
  }

  /** r has no whitespace at either end. */
  predicate EdgesClean(r: string) {
    r != [] ==> !IsSpace(r[0]) && !IsSpace(r[|r| - 1])
  }

  /** Python's str.strip() with no argument. */
  function Strip(s: string): (r: string)
    ensures |r| <= |s|
    ensures Trimmed(s, r) && EdgesClean(r)
    ensures r == [] <==> AllSpace(s)
  {
    TwoPassesTrim(s);
    TwoPassesEmpty(s);
    DropTrailingSpaces(DropSpaces(s))
  }

  lemma TwoPassesTrim(s: string)
    ensures Trimmed(s, DropTrailingSpaces(DropSpaces(s)))
  {
    var t := DropSpaces(s);
    var r := DropTrailingSpaces(t);
    var a := |s| - |t|;
    var b := a + |r|;
    assert s[a..b] == r;
    assert s[b..] == t[|r|..];
  }

  lemma TwoPassesEmpty(s: string)
    ensures DropTrailingSpaces(DropSpaces(s)) == [] <==> AllSpace(s)
  {
    var t := DropSpaces(s);
    assert t != [] ==> t[0] == s[|s| - |t|];
    assert s[..|s|] == s;
  }

  /** strip() is the only trimming of s with clean edges. */
  lemma StripUnique(s: string, r: string)
    requires Trimmed(s, r) && EdgesClean(r)
    ensures r == Strip(s)
  {
    var a, b :| 0 <= a <= b <= |s| && r == s[a..b] && AllSpace(s[..a]) && AllSpace(s[b..]);
    StripUniqueAt(s, r, a, b);
  }

  lemma StripUniqueAt(s: string, r: string, a: nat, b: nat)
    requires a <= b <= |s| && r == s[a..b] && AllSpace(s[..a]) && AllSpace(s[b..]) && EdgesClean(r)
    ensures r == Strip(s)
  {
    if r == [] {
      AllSpaceJoin(s, a);
    } else {
      assert s[a] == r[0] && s[b - 1] == r[|r| - 1];
      DropSpacesStops(s, a);
      assert DropSpaces(s) == s[a..];
      TrailingCutAt(s, a, b);
    }
  }

  /** Cutting the trailing whitespace off s[a..] at a non-whitespace character s[b - 1] leaves s[a..b]. */
  lemma TrailingCutAt(s: string, a: nat, b: nat)
    requires a < b <= |s| && AllSpace(s[b..]) && !IsSpace(s[b - 1])
    ensures DropTrailingSpaces(s[a..]) == s[a..b]
  {
    var t := s[a..];
    AllSpaceShift(s, a, b);
    assert t[b - a - 1] == s[b - 1];
    DropTrailingStops(t, b - a);
    SliceOfSuffix(s, a, b);
  }

  lemma AllSpaceShift(s: string, a: nat, b: nat)
    requires a <= b <= |s| && AllSpace(s[b..])
    ensures AllSpace(s[a..][b - a..])
  {
    assert s[a..][b - a..] == s[b..];
  }

  lemma SliceOfSuffix<T>(s: seq<T>, a: nat, b: nat)
    requires a <= b <= |s|
    ensures s[a..][..b - a] == s[a..b]
  {
  }

  lemma AllSpaceJoin(s: string, a: nat)
    requires a <= |s| && AllSpace(s[..a]) && AllSpace(s[a..])
    ensures AllSpace(s)
  {
    forall i | 0 <= i < |s| ensures IsSpace(s[i]) {
      if i < a { assert s[i] == s[..a][i]; } else { assert s[i] == s[a..][i - a]; }
    }
  }

  /** Leading whitespace ends at the first non-whitespace character. */
  lemma DropSpacesStops(s: string, a: nat)
    requires a < |s| && AllSpace(s[..a]) && !IsSpace(s[a])
    ensures |DropSpaces(s)| == |s| - a
  {
    var t := DropSpaces(s);
    var a' := |s| - |t|;
    SpaceInPrefix(s, a', a);
    if a' < |s| {
      assert t[0] == s[a'];
      SpaceInPrefix(s, a, a');
    }
  }

  /** Trailing whitespace starts after the last non-whitespace character. */
  lemma DropTrailingStops(t: string, b: nat)
    requires 0 < b <= |t| && AllSpace(t[b..]) && !IsSpace(t[b - 1])
    ensures DropTrailingSpaces(t) == t[..b]
  {
    var u := DropTrailingSpaces(t);
    var b' := |u|;
    SpaceInSuffix(t, b', b - 1);
    assert u[b' - 1] == t[b' - 1];
    SpaceInSuffix(t, b, b' - 1);
  }

  lemma SpaceInPrefix(s: string, a: nat, i: nat)
    requires a <= |s| && AllSpace(s[..a]) && i < |s|
    ensures i < a ==> IsSpace(s[i])
  {
    if i < a { assert s[..a][i] == s[i]; }
  }

  lemma SpaceInSuffix(s: string, b: nat, i: nat)
    requires b <= |s| && AllSpace(s[b..]) && i < |s|
    ensures b <= i ==> IsSpace(s[i])
  {
    if b <= i { assert s[b..][i - b] == s[i]; }
  }

  /** t without its trailing whitespace. */
  function DropTrailingSpaces(t: string): (r: string)
    ensures |r| <= |t| && r == t[..|r|]
    ensures AllSpace(t[|r|..])
    ensures r != [] ==> !IsSpace(r[|r| - 1])
    ensures t != [] && !IsSpace(t[0]) ==> r != [] && r[0] == t[0]
  {
    if |t| > 0 && IsSpace(t[|t| - 1]) then
      var init := t[..|t| - 1];
      var r := DropTrailingSpaces(init);
      assert init[..|r|] == t[..|r|];
      assert t[|r|..] == init[|r|..] + [t[|t| - 1]];
      r
    else t
  }

  /** Python's s.startswith(p). */
  predicate StartsWith(s: string, p: string) {
    |p| <= |s| && s[..|p|] == p
  }

  /** Python's `sub in s` for strings. */
  predicate Contains(s: string, sub: string)
    decreases |s|
  {
    StartsWith(s, sub) || (|s| > 0 && Contains(s[1..], sub))
  }

  /** Python's s.replace(old, new): every non-overlapping occurrence, scanning left to right. */
  function ReplaceAll(s: string, pattern: string, replacement: string): string
    requires |pattern| > 0
    decreases |s|
  {
    if |s| == 0 then []
    else if StartsWith(s, pattern) then replacement + ReplaceAll(s[|pattern|..], pattern, replacement)
    else [s[0]] + ReplaceAll(s[1..], pattern, replacement)
  }

  /** Replacing p by a string that starts with p keeps the first min(|p|, |s|) characters and never shortens. */
  lemma {:induction false} ReplaceAllKeepsPrefix(s: string, p: string, q: string, k: nat)
    requires |p| > 0 && k <= |p| && k <= |s|
    ensures |ReplaceAll(s, p, p + q)| >= |s|
    ensures ReplaceAll(s, p, p + q)[..k] == s[..k]
  {
    if |s| > 0 {
      var out := ReplaceAll(s, p, p + q);
      if StartsWith(s, p) {
        var rest := ReplaceAll(s[|p|..], p, p + q);
        ReplaceAllKeepsPrefix(s[|p|..], p, q, 0);
        assert out == (p + q) + rest;
        assert out[..k] == p[..k] == s[..k];
      } else if k > 0 {
        var rest := ReplaceAll(s[1..], p, p + q);
        ReplaceAllKeepsPrefix(s[1..], p, q, k - 1);
        assert out == [s[0]] + rest;
        assert out[..k] == [s[0]] + rest[..k - 1];
        assert s[..k] == [s[0]] + s[1..][..k - 1];
      } else {
        ReplaceAllKeepsPrefix(s[1..], p, q, 0);
      }
    }
  }

  /** An occurrence of p at position k means `p in s`. */
  lemma {:induction false} ContainsAt(s: string, p: string, k: nat)
    requires k + |p| <= |s| && s[k..k + |p|] == p
    ensures Contains(s, p)
  {
    if k > 0 {
      assert s[1..][k - 1..k - 1 + |p|] == s[k..k + |p|];
      ContainsAt(s[1..], p, k - 1);
    }
  }

  /** When p occurs in s, replacing p by p + q adds at least |q| characters. */
  lemma {:induction false} ReplaceAllGrows(s: string, p: string, q: string)
    requires |p| > 0
    ensures Contains(s, p) ==> |ReplaceAll(s, p, p + q)| >= |s| + |q|
  {
    if StartsWith(s, p) {
      ReplaceAllKeepsPrefix(s[|p|..], p, q, 0);
    } else if |s| > 0 {
      ReplaceAllGrows(s[1..], p, q);
    }
  }

  /** A string lacking some character of the pattern holds no occurrence, and is left alone. */
  lemma {:induction false} ReplaceAllMissing(s: string, p: string, r: string, c: char)
    requires |p| > 0 && c in p && c !in s
    ensures ReplaceAll(s, p, r) == s
  {
    if |s| > 0 {
      PrefixChar(s, p, c);
      ReplaceAllMissing(s[1..], p, r, c);
      assert [s[0]] + s[1..] == s;
    }
  }

  /** A string that starts with p holds every character of p. */
  lemma PrefixChar(s: string, p: string, c: char)
    requires c in p
    ensures StartsWith(s, p) ==> c in s
  {
    if StartsWith(s, p) {
      assert s[..|p|] == p;
    }
  }

  /**
   * Replacing works piece by piece across a join that no occurrence can
   * straddle: the last character before it or the first after it is not
   * in the pattern.
   */
  lemma {:induction false} ReplaceAllJoin(a: string, b: string, p: string, r: string)
    requires |p| > 0
    requires a == [] || b == [] || a[|a| - 1] !in p || b[0] !in p
    ensures ReplaceAll(a + b, p, r) == ReplaceAll(a, p, r) + ReplaceAll(b, p, r)
    decreases |a|
  {
    if a == [] {
      assert a + b == b;
    } else if b == [] {
      assert a + b == a;
    } else if StartsWith(a + b, p) {
      JoinMatchStep(a, b, p, r);
      ReplaceAllJoin(a[|p|..], b, p, r);
      AppendAssoc(r, ReplaceAll(a[|p|..], p, r), ReplaceAll(b, p, r));
    } else {
      JoinCopyStep(a, b, p, r);
      ReplaceAllJoin(a[1..], b, p, r);
      AppendAssoc([a[0]], ReplaceAll(a[1..], p, r), ReplaceAll(b, p, r));
    }
  }

  lemma AppendAssoc<T>(x: seq<T>, y: seq<T>, z: seq<T>)
    ensures x + (y + z) == (x + y) + z
  {
  }

  /** An occurrence at the start of a + b lies inside a, and both sides replace it. */
  lemma JoinMatchStep(a: string, b: string, p: string, r: string)
    requires |p| > 0 && a != [] && b != [] && (a[|a| - 1] !in p || b[0] !in p)
    requires StartsWith(a + b, p)
    ensures |p| <= |a| && (a[|p|..] == [] || a[|p|..][|a| - |p| - 1] == a[|a| - 1])
    ensures ReplaceAll(a + b, p, r) == r + ReplaceAll(a[|p|..] + b, p, r)
    ensures ReplaceAll(a, p, r) == r + ReplaceAll(a[|p|..], p, r)
  {
    StraddleChars(a, b, p);
    JoinSplit(a, b, |p|);
  }

  /** Without an occurrence at the start of a + b, both sides copy a's first character. */
  lemma JoinCopyStep(a: string, b: string, p: string, r: string)
    requires |p| > 0 && a != [] && !StartsWith(a + b, p)
    ensures a[1..] == [] || a[1..][|a| - 2] == a[|a| - 1]
    ensures ReplaceAll(a + b, p, r) == [a[0]] + ReplaceAll(a[1..] + b, p, r)
    ensures ReplaceAll(a, p, r) == [a[0]] + ReplaceAll(a[1..], p, r)
  {
    if |p| <= |a| {
      JoinSplit(a, b, |p|);
    }
    JoinSplit(a, b, 1);
  }

  /** An occurrence of p at the start of a + b that runs past a uses a's last and b's first character. */
  lemma StraddleChars(a: string, b: string, p: string)
    requires a != [] && b != []
    ensures StartsWith(a + b, p) && |p| > |a| ==> a[|a| - 1] in p && b[0] in p
  {
    if StartsWith(a + b, p) && |p| > |a| {
      assert p[|a| - 1] == a[|a| - 1] && p[|a|] == b[0];
    }
  }

  /** Cutting a + b inside a. */
  lemma JoinSplit(a: string, b: string, n: nat)
    requires n <= |a|
    ensures (a + b)[..n] == a[..n] && (a + b)[n..] == a[n..] + b
  {
  }

  /** A string shorter than the pattern is left alone. */
  lemma {:induction false} ReplaceAllShort(s: string, p: string, r: string)
    requires 0 < |p| && |s| < |p|
    ensures ReplaceAll(s, p, r) == s
  {
    if |s| > 0 {
      ReplaceAllShort(s[1..], p, r);
    }
  }

  /** A string that does not start with p is not turned into one that starts with p + q. */
  lemma NoNewMatch(s: string, p: string, q: string)
    requires |p| > 0 && !StartsWith(s, p)
    ensures !StartsWith(ReplaceAll(s, p, p + q), p + q)
  {
    var out := ReplaceAll(s, p, p + q);
    if |s| >= |p| {
      ReplaceAllKeepsPrefix(s, p, q, |p|);
    } else {
      ReplaceAllShort(s, p, p + q);
    }
  }

  /** s.replace(p, p + q).replace(p + q, p) == s */
  lemma {:induction false} ReplaceAllUndone(s: string, p: string, q: string)
    requires |p| > 0
    ensures ReplaceAll(ReplaceAll(s, p, p + q), p + q, p) == s
  {
    var r := p + q;
    if |s| > 0 {
      if StartsWith(s, p) {
        var rest := ReplaceAll(s[|p|..], p, r);
        ReplaceAllUndone(s[|p|..], p, q);
        assert (r + rest)[..|r|] == r;
        assert (r + rest)[|r|..] == rest;
        assert s == p + s[|p|..];
      } else {
        var out := ReplaceAll(s, p, r);
        var rest := ReplaceAll(s[1..], p, r);
        assert out == [s[0]] + rest;
        ReplaceAllUndone(s[1..], p, q);
        NoNewMatch(s, p, q);
        assert out[1..] == rest;
        assert s == [s[0]] + s[1..];
      }
    }
  }

  /** Python's int(x) for a float x: truncation toward zero. */
  function Trunc(x: real): (n: int)
    ensures 0.0 <= x ==> n as real <= x < n as real + 1.0
    ensures x < 0.0 ==> n as real - 1.0 < x <= n as real
  {
    if x >= 0.0 then x.Floor else -((-x).Floor)
  }

  /** int(x - 1) == int(x) - 1 exactly when x is not strictly between 0 and 1. */
  lemma TruncShift(x: real)
    ensures Trunc(x - 1.0) == Trunc(x) - 1 <==> !(0.0 < x < 1.0)
  {
  }

  /** xs[i] on a Python list: negative indices count from the end; None stands for IndexError. */
  function PyIndex<T>(xs: seq<T>, i: int): (r: Option<T>)
    ensures r.Some? <==> -|xs| <= i < |xs|
    ensures r.Some? ==> r.value == xs[i % |xs|]
  {
    if 0 <= i < |xs| then Some(xs[i])
    else if -|xs| <= i < 0 then Some(xs[|xs| + i])
    else None
  }

  predicate IsDigit(ch: char) {
    '0' as int <= ch as int <= '9' as int
  }

  function DigitsValue(s: string): nat
    requires forall i :: 0 <= i < |s| ==> IsDigit(s[i])
    decreases |s|
  {
    if |s| == 0 then 0
    else
      assert IsDigit(s[|s| - 1]);
      DigitsValue(s[..|s| - 1]) * 10 + ((s[|s| - 1] as int) - ('0' as int))
  }

  /**
   * Python's int(s) for a string s without surrounding whitespace: an
   * optional sign followed by ASCII digits; None stands for ValueError.
   */
  function ParseInt(s: string): Option<int> {
    if |s| > 0 && (s[0] == '+' || s[0] == '-') then
      var d := s[1..];
      if |d| > 0 && forall i :: 0 <= i < |d| ==> IsDigit(d[i]) then
        var v: int := DigitsValue(d);
        Some(if s[0] == '-' then -v else v)
      else None
    else if |s| > 0 && forall i :: 0 <= i < |s| ==> IsDigit(s[i]) then Some(DigitsValue(s))
    else None
  }

  /** str(n) for a natural number n: its decimal digits, most significant first. */
  function Decimal(n: nat): (s: string)
    ensures |s| > 0 && forall i :: 0 <= i < |s| ==> IsDigit(s[i])
  {
    if n < 10 then [('0' as int + n) as char]
    else Decimal(n / 10) + [('0' as int + n % 10) as char]
  }

  lemma {:induction false} DigitsOfDecimal(n: nat)
    ensures DigitsValue(Decimal(n)) == n
  {
    if n >= 10 {
      var d := Decimal(n / 10);
      var s := Decimal(n);
      DigitsOfDecimal(n / 10);
      assert s[..|s| - 1] == d;
    }
  }

  /** int(str(n)) == n, int('-' + str(n)) == -n and int('+' + str(n)) == n. */
  lemma ParseIntDecimal(n: nat)
    ensures ParseInt(Decimal(n)) == Some(n)
    ensures ParseInt("-" + Decimal(n)) == Some(-(n as int))
    ensures ParseInt("+" + Decimal(n)) == Some(n)
  {
    DigitsOfDecimal(n);
    var d := Decimal(n);
    assert ("-" + d)[1..] == d;
    assert ("+" + d)[1..] == d;
  }
}
