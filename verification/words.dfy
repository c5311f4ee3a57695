/** Python's `str.split()` with no argument: the maximal runs of
    non-whitespace characters, in order. */
module Words {
  import opened Text

  /** Index of the first whitespace character at or after `i`, or `|s|`. */
  function WordEnd(s: string, i: nat): (k: nat)
    requires i <= |s|
    ensures i <= k <= |s|
    ensures forall j :: i <= j < k ==> !IsSpace(s[j])
    ensures k < |s| ==> IsSpace(s[k])
    decreases |s| - i
  {
    if i == |s| || IsSpace(s[i]) then i else WordEnd(s, i + 1)
  }

  /** Every token is a nonempty, whitespace-free piece of `s`. */
  function Split(s: string): (r: seq<string>)
    ensures forall t :: t in r ==> IsWord(t) && |t| <= |s|
    decreases |s|
  {
    if |s| == 0 then []
    else if IsSpace(s[0]) then Split(s[1..])
    else
      var k := WordEnd(s, 1);
      assert forall j :: 0 <= j < k ==> s[..k][j] == s[j];
      [s[..k]] + Split(s[k..])
  }

  /** A string without whitespace is its own single token. */
  lemma SplitOfWord(s: string)
    requires IsWord(s)
    ensures Split(s) == [s]
  {
    var k := WordEnd(s, 1);
    assert k == |s|;
    assert s[..k] == s && s[k..] == [];
  }

  /** `w` occurs in `s` at index `i` delimited by whitespace or the ends of
      `s` on both sides: the reference meaning of "w is a token of s". */
  predicate WordAt(s: string, w: string, i: int) {
    && 0 <= i
    && i + |w| <= |s|
    && s[i..i + |w|] == w
    && (i == 0 || IsSpace(s[i - 1]))
    && (i + |w| == |s| || IsSpace(s[i + |w|]))
  }

  predicate IsWord(w: string) {
    |w| > 0 && forall j :: 0 <= j < |w| ==> !IsSpace(w[j])
  }

  /** Dropping `d` characters shifts every occurrence that does not start
      at the new front. */
  lemma WordAtShift(s: string, w: string, d: nat, i: nat)
    requires d <= |s|
    requires i > 0
    ensures WordAt(s[d..], w, i) <==> WordAt(s, w, i + d)
  {
    if i + |w| <= |s| - d {
      assert s[d..][i..i + |w|] == s[i + d..i + d + |w|];
    }
  }

  /** Occurrences in a string that starts with whitespace are the
      occurrences in the rest of it. */
  lemma SkipLeadingSpace(s: string, w: string)
    requires |s| > 0 && IsSpace(s[0]) && IsWord(w)
    ensures (exists i :: WordAt(s, w, i)) <==> (exists i :: WordAt(s[1..], w, i))
  {
    var t := s[1..];
    assert !WordAt(s, w, 0) by {
      if |w| <= |s| {
        assert s[0..|w|][0] == s[0];
      }
    }
    forall i | WordAt(s, w, i) ensures WordAt(t, w, i - 1) {
      if i == 1 {
        assert t[0..|w|] == s[1..1 + |w|];
      } else {
        WordAtShift(s, w, 1, i - 1);
      }
    }
    forall i | WordAt(t, w, i) ensures WordAt(s, w, i + 1) {
      if i == 0 {
        assert t[0..|w|] == s[1..1 + |w|];
      } else {
        WordAtShift(s, w, 1, i);
      }
    }
  }

  /** The first token is exactly the occurrence at index 0. */
  lemma FirstTokenAtZero(s: string, w: string, k: nat)
    requires |s| > 0 && !IsSpace(s[0]) && IsWord(w)
    requires k == WordEnd(s, 1)
    ensures w == s[..k] <==> WordAt(s, w, 0)
  {
    if w == s[..k] {
      assert s[0..|w|] == w;
    }
    if WordAt(s, w, 0) {
      assert s[..k] == s[0..|w|];
    }
  }

  /** No occurrence starts inside the first token or right after it. */
  lemma NoWordInsideFirstToken(s: string, w: string, k: nat, i: int)
    requires |s| > 0 && !IsSpace(s[0])
    requires k == WordEnd(s, 1)
    ensures 0 < i <= k ==> !WordAt(s, w, i)
  {
    if 0 < i <= k && (i < k || k < |s|) {
      assert !IsSpace(s[i - 1]);
    }
  }

  /** Nothing starts at the whitespace that ends the first token. */
  lemma NoWordAtTokenEnd(s: string, w: string, k: nat)
    requires |s| > 0 && IsWord(w)
    requires k == WordEnd(s, 1)
    ensures !WordAt(s[k..], w, 0)
  {
    if k + |w| <= |s| {
      assert s[k..][0..|w|][0] == s[k];
    }
  }

  /** An occurrence in a string that starts with a token is that token
      itself or an occurrence after it. */
  lemma OccurrenceIsFirstOrLater(s: string, w: string, k: nat, i: int)
    requires |s| > 0 && !IsSpace(s[0]) && IsWord(w)
    requires k == WordEnd(s, 1)
    requires WordAt(s, w, i)
    ensures w == s[..k] || WordAt(s[k..], w, i - k)
  {
    if i == 0 {
      FirstTokenAtZero(s, w, k);
    } else {
      OccurrenceAfterFirstToken(s, w, k, i);
    }
  }

  /** An occurrence other than at the front lies after the first token. */
  lemma OccurrenceAfterFirstToken(s: string, w: string, k: nat, i: int)
    requires |s| > 0 && !IsSpace(s[0])
    requires k == WordEnd(s, 1)
    requires WordAt(s, w, i) && i > 0
    ensures i > k && WordAt(s[k..], w, i - k)
  {
    assert i > k by {
      NoWordInsideFirstToken(s, w, k, i);
    }
    var j: nat := i - k;
    assert WordAt(s, w, j + k);
    WordAtShift(s, w, k, j);
  }

  /** An occurrence after the first token is an occurrence in the whole. */
  lemma LaterOccurrence(s: string, w: string, k: nat, i: int)
    requires |s| > 0 && IsWord(w)
    requires k == WordEnd(s, 1)
    requires WordAt(s[k..], w, i)
    ensures WordAt(s, w, i + k)
  {
    NoWordAtTokenEnd(s, w, k);
    WordAtShift(s, w, k, i);
  }

  /** Occurrences in a string that starts with a token are that token
      itself or occurrences after it. */
  lemma SkipFirstToken(s: string, w: string, k: nat)
    requires |s| > 0 && !IsSpace(s[0]) && IsWord(w)
    requires k == WordEnd(s, 1)
    ensures (exists i :: WordAt(s, w, i)) <==> (w == s[..k] || exists i :: WordAt(s[k..], w, i))
  {
    FirstTokenAtZero(s, w, k);
    forall i | WordAt(s, w, i) ensures w == s[..k] || WordAt(s[k..], w, i - k) {
      OccurrenceIsFirstOrLater(s, w, k, i);
    }
    forall i | WordAt(s[k..], w, i) ensures WordAt(s, w, i + k) {
      LaterOccurrence(s, w, k, i);
    }
  }

  /** A whitespace-free word is among the tokens of `s` exactly when it
      occurs in `s` delimited by whitespace or the ends of `s`. */
  lemma {:induction false} SplitMembership(s: string, w: string)
    requires IsWord(w)
    ensures w in Split(s) <==> exists i :: WordAt(s, w, i)
    decreases |s|
  {
    if |s| == 0 {
      assert forall i :: !WordAt(s, w, i);
    } else if IsSpace(s[0]) {
      SplitMembership(s[1..], w);
      SkipLeadingSpace(s, w);
    } else {
      var k := WordEnd(s, 1);
      SplitMembership(s[k..], w);
      SkipFirstToken(s, w, k);
    }
  }

}
