/**
 * The two pieces of the JavaScript string library the contact form relies on:
 * the white-space class shared by `\s` in regular expressions and by
 * `String.prototype.trim`, and `trim` itself.
 */
module Strings {

  /** A JavaScript WhiteSpace or LineTerminator code point: the class matched
      by `\s` and stripped by `trim`. */
  predicate IsWs(c: char) {
    c == ' ' || c == '\t' || c == '\n' || c == '\r' ||
    c == '\U{000B}' || c == '\U{000C}' || c == '\U{00A0}' || c == '\U{1680}' ||
    ('\U{2000}' <= c <= '\U{200A}') ||
    c == '\U{2028}' || c == '\U{2029}' || c == '\U{202F}' || c == '\U{205F}' ||
    c == '\U{3000}' || c == '\U{FEFF}'
  }

  /** Every character of `s` is white space (vacuously so for the empty string). */
  predicate AllWs(s: string) {
    forall k :: 0 <= k < |s| ==> IsWs(s[k])
  }

  /** Characters `i` up to (not including) `j` of `s` are all white space. */
  predicate WsBetween(s: string, i: int, j: int)
    requires 0 <= i <= j <= |s|
  {
    forall k :: i <= k < j ==> IsWs(s[k])
  }

  /** The forward scan of `trim`: from index `i`, the first index holding a
      character other than white space, or `|s|` if there is none. */
  function SkipLeading(s: string, i: nat): (n: nat)
    requires i <= |s|
    ensures i <= n <= |s| && WsBetween(s, i, n)
    ensures n == |s| || !IsWs(s[n])
    decreases |s| - i
  {
    if i < |s| && IsWs(s[i]) then SkipLeading(s, i + 1) else i
  }

  /** The backward scan of `trim`: from index `j` down to `lo`, the end of the
      last character other than white space, or `lo` if there is none. */
  function SkipTrailing(s: string, lo: nat, j: nat): (m: nat)
    requires lo <= j <= |s|
    ensures lo <= m <= j && WsBetween(s, m, j)
    ensures m == lo || !IsWs(s[m - 1])
  {
    if lo < j && IsWs(s[j - 1]) then SkipTrailing(s, lo, j - 1) else j
  }

  /** The forward scan stops at the only index it can stop at. */
  lemma {:induction false} SkipLeadingAt(s: string, i: nat, n: nat)
    requires i <= n <= |s| && WsBetween(s, i, n)
    requires n == |s| || !IsWs(s[n])
    ensures SkipLeading(s, i) == n
    decreases n - i
  {
    if i < n {
      SkipLeadingAt(s, i + 1, n);
    }
  }

  /** The backward scan stops at the only index it can stop at. */
  lemma {:induction false} SkipTrailingAt(s: string, lo: nat, j: nat, m: nat)
    requires lo <= m <= j <= |s| && WsBetween(s, m, j)
    requires m == lo || !IsWs(s[m - 1])
    ensures SkipTrailing(s, lo, j) == m
  {
    if m < j {
      SkipTrailingAt(s, lo, j - 1, m);
    }
  }

  /** White space before and after a string stays white space when joined. */
  lemma AllWsConcat(a: string, b: string)
    requires AllWs(a) && AllWs(b)
    ensures AllWs(a + b)
  {
    forall k | 0 <= k < |a + b| ensures IsWs((a + b)[k]) {
      if k < |a| { assert (a + b)[k] == a[k]; } else { assert (a + b)[k] == b[k - |a|]; }
    }
  }

  /** Cutting a string at two points and joining the three parts gives it back. */
  lemma SplitThree(s: string, i: int, j: int)
    requires 0 <= i <= j <= |s|
    ensures s == s[..i] + s[i..j] + s[j..]
  {
    assert s[..i] + s[i..j] == s[..j];
  }

  /** `String.prototype.trim`: the slice between the two scans. The result
      neither starts nor ends with white space, and it is empty exactly when
      the input is all white space. */
  function Trim(s: string): (r: string)
    ensures r == [] || (!IsWs(r[0]) && !IsWs(r[|r| - 1]))
    ensures r == [] <==> AllWs(s)
  {
    var a := SkipLeading(s, 0);
    var b := SkipTrailing(s, a, |s|);
    assert a < |s| ==> a < b;
    s[a..b]
  }

  /** The input of `Trim` is white space, then the result, then white space. */
  lemma TrimSplits(s: string) returns (p: string, q: string)
    ensures AllWs(p) && AllWs(q) && s == p + Trim(s) + q
  {
    var a := SkipLeading(s, 0);
    var b := SkipTrailing(s, a, |s|);
    p, q := s[..a], s[b..];
    SplitThree(s, a, b);
    assert AllWs(p) by {
      forall k | 0 <= k < |p| ensures IsWs(p[k]) { assert p[k] == s[k]; }
    }
    assert AllWs(q) by {
      forall k | 0 <= k < |q| ensures IsWs(q[k]) { assert q[k] == s[b + k]; }
    }
  }

  /** Trimming has a single possible result: a string made of white space, then
      `t`, then white space, where `t` neither starts nor ends with white space,
      trims to `t`. */
  lemma TrimOfPadded(p: string, t: string, q: string)
    requires AllWs(p) && AllWs(q)
    requires t == [] || (!IsWs(t[0]) && !IsWs(t[|t| - 1]))
    ensures Trim(p + t + q) == t
  {
    var s := p + t + q;
    var i, j := |p|, |p| + |t|;
    assert WsBetween(s, 0, i) by {
      forall k | 0 <= k < i ensures IsWs(s[k]) { assert s[k] == p[k]; }
    }
    assert WsBetween(s, j, |s|) by {
      forall k | j <= k < |s| ensures IsWs(s[k]) { assert s[k] == q[k - j]; }
    }
    if t == [] {
      assert AllWs(s) by {
        forall k | 0 <= k < |s| ensures IsWs(s[k]) {
          if k < i { assert s[k] == p[k]; } else { assert s[k] == q[k - j]; }
        }
      }
    } else {
      assert s[i] == t[0] && s[j - 1] == t[|t| - 1];
      SkipLeadingAt(s, 0, i);
      SkipTrailingAt(s, i, |s|, j);
      assert s[i..j] == t;
    }
  }

  lemma Regroup(a: string, b: string, c: string, d: string, e: string)
    ensures a + (b + c + d) + e == (a + b) + c + (d + e)
  {
  }

  /** Extra white space around a string does not change what it trims to. */
  lemma TrimIgnoresSurroundingWs(pre: string, s: string, post: string)
    requires AllWs(pre) && AllWs(post)
    ensures Trim(pre + s + post) == Trim(s)
  {
    var a, b := TrimSplits(s);
    var t := Trim(s);
    AllWsConcat(pre, a);
    AllWsConcat(b, post);
    Regroup(pre, a, t, b, post);
    TrimOfPadded(pre + a, t, b + post);
  }

  /** Trimming twice is trimming once. */
  lemma TrimIdempotent(s: string)
    ensures Trim(Trim(s)) == Trim(s)
  {
    var t := Trim(s);
    assert [] + t + [] == t;
    TrimOfPadded([], t, []);
  }
}
