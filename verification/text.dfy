/** Character and string primitives with the meaning Python gives them:
    `str.isspace`, `str.lower`, `str.endswith`, `str.strip`, string `<`
    and `posixpath.join`. */
module Text {

  /** Python's `str.isspace()` on a single character. */
  predicate IsSpace(c: char) {
    || c == ' '
    || ('\t' <= c <= '\r')
    || ('\U{1C}' <= c <= '\U{1F}')
    || c == '\U{85}'
    || c == '\U{A0}'
    || c == '\U{1680}'
    || ('\U{2000}' <= c <= '\U{200A}')
    || c == '\U{2028}'
    || c == '\U{2029}'
    || c == '\U{202F}'
    || c == '\U{205F}'
    || c == '\U{3000}'
  }

  /** Lower-casing of one character, restricted to the ASCII letters. */
  function LowerChar(c: char): char {
    if 'A' <= c <= 'Z' then (c as int + 32) as char else c
  }

  function ToLower(s: string): (r: string)
    ensures |r| == |s|
  {
    seq(|s|, i requires 0 <= i < |s| => LowerChar(s[i]))
  }

  predicate EndsWith(s: string, suffix: string) {
    |suffix| <= |s| && s[|s| - |suffix|..] == suffix
  }

  /** `posixpath.join(a, b)`: an absolute `b` replaces `a`; otherwise a
      separator is inserted unless `a` is empty or already ends in one. */
  function Join(a: string, b: string): (r: string)
    ensures |r| >= |b|
  {
    if |b| > 0 && b[0] == '/' then b
    else if |a| == 0 || a[|a| - 1] == '/' then a + b
    else a + "/" + b
  }

  /** Python's `<` on `str`: lexicographic order by code point, a proper
      prefix sorting first. */
  predicate LexLess(a: string, b: string)
    decreases |a|
  {
    if |a| == 0 then |b| > 0
    else |b| > 0 && (a[0] < b[0] || (a[0] == b[0] && LexLess(a[1..], b[1..])))
  }

  lemma {:induction false} LexLessIrreflexive(a: string)
    ensures !LexLess(a, a)
    decreases |a|
  {
    if |a| > 0 {
      LexLessIrreflexive(a[1..]);
    }
  }

  /** A shared prefix does not affect the order. */
  lemma {:induction false} LexLessCommonPrefix(p: string, a: string, b: string)
    ensures LexLess(p + a, p + b) <==> LexLess(a, b)
    decreases |p|
  {
    if |p| > 0 {
      assert (p + a)[1..] == p[1..] + a;
      assert (p + b)[1..] == p[1..] + b;
      LexLessCommonPrefix(p[1..], a, b);
    } else {
      assert p + a == a && p + b == b;
    }
  }

  /** When two strings of the same length differ, whatever follows them
      does not affect the order. */
  lemma {:induction false} LexLessSameLengthHead(x: string, y: string, s: string, t: string)
    requires |x| == |y| && x != y
    ensures LexLess(x + s, y + t) <==> LexLess(x, y)
    decreases |x|
  {
    assert |x| > 0;
    assert (x + s)[0] == x[0] && (y + t)[0] == y[0];
    if x[0] == y[0] {
      assert x == [x[0]] + x[1..] && y == [y[0]] + y[1..];
      assert (x + s)[1..] == x[1..] + s;
      assert (y + t)[1..] == y[1..] + t;
      LexLessSameLengthHead(x[1..], y[1..], s, t);
    }
  }

  /** Length of the whitespace run at the front of `s`. */
  function LeadingSpace(s: string): (k: nat)
    ensures k <= |s|
    ensures forall i :: 0 <= i < k ==> IsSpace(s[i])
    ensures k < |s| ==> !IsSpace(s[k])
    decreases |s|
  {
    if |s| == 0 || !IsSpace(s[0]) then 0 else 1 + LeadingSpace(s[1..])
  }

  /** Length of the whitespace run at the end of `s`. */
  function TrailingSpace(s: string): (k: nat)
    ensures k <= |s|
    ensures forall i :: |s| - k <= i < |s| ==> IsSpace(s[i])
    ensures k < |s| ==> !IsSpace(s[|s| - k - 1])
    decreases |s|
  {
    if |s| == 0 || !IsSpace(s[|s| - 1]) then 0 else 1 + TrailingSpace(s[..|s| - 1])
  }

  /** Where `str.strip()` cuts `s`: everything before the first bound and
      from the second bound on is whitespace, and the part kept starts and
      ends with a non-whitespace character. */
  function StripBounds(s: string): (b: (nat, nat))
    ensures b.0 <= b.1 <= |s|
    ensures forall k :: 0 <= k < b.0 ==> IsSpace(s[k])
    ensures forall k :: b.1 <= k < |s| ==> IsSpace(s[k])
    ensures b.0 < b.1 ==> !IsSpace(s[b.0]) && !IsSpace(s[b.1 - 1])
  {
    var i := LeadingSpace(s);
    var rest := s[i..];
    var n := TrailingSpace(rest);
    assert forall k :: i + |rest| - n <= k < |s| ==> s[k] == rest[k - i];
    (i, i + |rest| - n)
  }

  /** Python's `str.strip()` with no argument: the result is part of `s`
      and neither starts nor ends with whitespace. */
  function Strip(s: string): (r: string)
    ensures |r| <= |s|
    ensures r == [] || (!IsSpace(r[0]) && !IsSpace(r[|r| - 1]))
  {
    s[StripBounds(s).0..StripBounds(s).1]
  }

  /** Stripping removes exactly surrounding whitespace: whatever the
      whitespace around a string without surrounding whitespace, stripping
      gives that string back. */
  lemma StripPadded(pre: string, core: string, post: string)
    requires forall k :: 0 <= k < |pre| ==> IsSpace(pre[k])
    requires forall k :: 0 <= k < |post| ==> IsSpace(post[k])
    requires core == [] || (!IsSpace(core[0]) && !IsSpace(core[|core| - 1]))
    ensures Strip(pre + core + post) == core
  {
    var s := pre + core + post;
    var b := StripBounds(s);
    var e := |pre| + |core|;
    assert forall k :: 0 <= k < |pre| ==> s[k] == pre[k];
    assert forall k :: e <= k < |s| ==> s[k] == post[k - e];
    if core == [] {
      assert b.0 == b.1;
    } else {
      assert s[|pre|] == core[0] && s[e - 1] == core[|core| - 1];
      assert b.0 == |pre| && b.1 == e;
      assert s[|pre|..e] == core;
    }
  }

}
