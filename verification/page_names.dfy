/** The `page_{n:05}.png` naming of rendered pages and why a lexical
    listing of those names is document order, up to 99999. */
module PageNames {
  import opened Text

  predicate IsDigit(c: char) {
    '0' <= c <= '9'
  }

  predicate IsDigits(s: string) {
    forall i :: 0 <= i < |s| ==> IsDigit(s[i])
  }

  function DigitChar(d: nat): char
    requires d < 10
  {
    ('0' as int + d) as char
  }

  function DigitValue(c: char): nat {
    if IsDigit(c) then c as int - '0' as int else 0
  }

  /** `str(n)` for a non-negative `n`: decimal digits, no leading zero. */
  function Decimal(n: nat): (r: string)
    ensures |r| > 0 && IsDigits(r)
    decreases n
  {
    if n < 10 then [DigitChar(n)] else Decimal(n / 10) + [DigitChar(n % 10)]
  }

  function Zeros(k: nat): string {
    seq(k, _ => '0')
  }

  /** Python's format spec `05` on a non-negative int: zeros on the left up
      to width 5; a number of six or more digits keeps all of them. */
  function Format05(n: nat): (r: string)
    ensures |r| >= 5 && IsDigits(r)
    ensures n < 100000 ==> |r| == 5
  {
    var d := Decimal(n);
    DecimalLength(n, 5);
    if |d| >= 5 then d else Zeros(5 - |d|) + d
  }

  /** Name of the file that page `n` (counted from 0) is saved under. */
  function PageName(n: nat): (r: string)
    ensures |r| >= 14 && r[..5] == "page_" && r[|r| - 4..] == ".png"
    ensures n < 100000 ==> |r| == 14
  {
    "page_" + Format05(n) + ".png"
  }

  /** Numeric value of a digit string, most significant digit first. */
  function ValueOf(s: string): nat
    decreases |s|
  {
    if |s| == 0 then 0 else 10 * ValueOf(s[..|s| - 1]) + DigitValue(s[|s| - 1])
  }

  /** The page number a page file name encodes. */
  function PageIndex(name: string): nat {
    if |name| < 9 then 0 else ValueOf(name[5..|name| - 4])
  }

  function PageSeq(count: nat): seq<string> {
    seq(count, i requires 0 <= i < count => PageName(i))
  }

  function PageSet(count: nat): set<string> {
    set i | 0 <= i < count :: PageName(i)
  }

  predicate StrictlySorted(s: seq<string>) {
    forall i, j :: 0 <= i < j < |s| ==> LexLess(s[i], s[j])
  }

  lemma {:induction false} ValueOfDecimal(n: nat)
    ensures ValueOf(Decimal(n)) == n
    decreases n
  {
    if n >= 10 {
      var d := Decimal(n);
      assert d[..|d| - 1] == Decimal(n / 10);
      ValueOfDecimal(n / 10);
    }
  }

  lemma {:induction false} ValueOfZeros(k: nat, s: string)
    ensures ValueOf(Zeros(k) + s) == ValueOf(s)
    decreases |s|, k
  {
    if |s| > 0 {
      assert (Zeros(k) + s)[..|Zeros(k) + s| - 1] == Zeros(k) + s[..|s| - 1];
      ValueOfZeros(k, s[..|s| - 1]);
    } else if k > 0 {
      assert Zeros(k) + s == Zeros(k - 1) + ['0'];
      assert (Zeros(k - 1) + ['0'])[..k - 1] == Zeros(k - 1) + [];
      ValueOfZeros(k - 1, s);
    }
  }

  lemma ValueOfFormat05(n: nat)
    ensures ValueOf(Format05(n)) == n
  {
    ValueOfDecimal(n);
    var d := Decimal(n);
    if |d| < 5 {
      ValueOfZeros(5 - |d|, d);
    }
  }

  /** Decoding a page file name gives back the page number, for every
      page number; so no two pages share a file name. */
  lemma PageNameRoundTrip(n: nat)
    ensures PageIndex(PageName(n)) == n
  {
    var f := Format05(n);
    var name := PageName(n);
    assert name[5..|name| - 4] == f;
    ValueOfFormat05(n);
  }

  lemma PageNameInjective(n: nat, m: nat)
    ensures PageName(n) == PageName(m) <==> n == m
  {
    PageNameRoundTrip(n);
    PageNameRoundTrip(m);
  }

  function Pow10(k: nat): nat {
    if k == 0 then 1 else 10 * Pow10(k - 1)
  }

  lemma {:induction false} DecimalLength(n: nat, k: nat)
    requires 1 <= k
    ensures n < Pow10(k) ==> |Decimal(n)| <= k
    decreases k
  {
    if n < Pow10(k) && n >= 10 {
      assert k > 1;
      DecimalLength(n / 10, k - 1);
    }
  }

  /** For digit strings of one length, lexical order is numeric order. */
  lemma {:induction false} DigitStringOrder(x: string, y: string)
    requires |x| == |y| && IsDigits(x) && IsDigits(y)
    ensures LexLess(x, y) <==> ValueOf(x) < ValueOf(y)
    ensures x == y <==> ValueOf(x) == ValueOf(y)
    decreases |x|
  {
    if |x| > 0 {
      var n := |x| - 1;
      var x', y' := x[..n], y[..n];
      var a, b := x[n], y[n];
      assert x == x' + [a] && y == y' + [b];
      DigitStringOrder(x', y');
      var vx, vy := ValueOf(x'), ValueOf(y');
      assert ValueOf(x) == 10 * vx + DigitValue(a);
      assert ValueOf(y) == 10 * vy + DigitValue(b);
      assert DigitValue(a) < 10 && DigitValue(b) < 10;
      if x' != y' {
        LexLessSameLengthHead(x', y', [a], [b]);
        if vx < vy {
          assert 10 * vx + 10 <= 10 * vy;
        } else {
          assert vy < vx;
          assert 10 * vy + 10 <= 10 * vx;
        }
      } else {
        LexLessCommonPrefix(x', [a], [b]);
        assert LexLess([a], [b]) <==> a < b by {
          assert [a][1..] == [] && [b][1..] == [];
        }
      }
    }
  }

  /** Below 100000 pages, sorting page file names as strings puts them in
      page order. */
  lemma PageNameOrder(n: nat, m: nat)
    requires n < 100000 && m < 100000
    ensures n < m <==> LexLess(PageName(n), PageName(m))
  {
    var fn, fm := Format05(n), Format05(m);
    ValueOfFormat05(n);
    ValueOfFormat05(m);
    DigitStringOrder(fn, fm);
    if fn == fm {
      LexLessIrreflexive(PageName(n));
    } else {
      assert PageName(n) == "page_" + (fn + ".png");
      assert PageName(m) == "page_" + (fm + ".png");
      LexLessCommonPrefix("page_", fn + ".png", fm + ".png");
      LexLessSameLengthHead(fn, fm, ".png", ".png");
    }
  }

  /** The ordering stops at six digits: page 100000 sorts before page 99999. */
  lemma SixDigitPageSortsFirst()
    ensures LexLess(PageName(100000), PageName(99999))
  {
    LeadingDigits();
    LeadingDigitDecides(100000, 99999);
  }

  /** Page names whose numbers start with different digits sort by that
      digit alone. */
  lemma LeadingDigitDecides(n: nat, m: nat)
    requires Format05(n)[0] < Format05(m)[0]
    ensures LexLess(PageName(n), PageName(m))
  {
    var a, b := Format05(n) + ".png", Format05(m) + ".png";
    assert PageName(n) == "page_" + a && PageName(m) == "page_" + b;
    LexLessCommonPrefix("page_", a, b);
  }

  /** The leading digits of the two page numbers either side of 100000. */
  lemma LeadingDigits()
    ensures Format05(100000)[0] == '1' && Format05(99999)[0] == '9'
  {
    assert Decimal(10) == "10";
    assert Decimal(100000) == "100000";
    assert Decimal(99999) == "99999";
  }

  /** A strictly increasing sequence of numbers below `count` that takes
      every value below `count` is 0, 1, ..., count-1. */
  lemma IncreasingCover(idx: seq<nat>, count: nat)
    requires forall p, q :: 0 <= p < q < |idx| ==> idx[p] < idx[q]
    requires forall p :: 0 <= p < |idx| ==> idx[p] < count
    requires forall i :: 0 <= i < count ==> i in idx
    ensures |idx| == count
    ensures forall p :: 0 <= p < |idx| ==> idx[p] == p
  {
    IncreasingAtLeastIndex(idx, |idx|);
    IncreasingPrefix(idx, count, |idx|);
    if |idx| > 0 {
      assert idx[|idx| - 1] == |idx| - 1;
    }
    // Each entry equals its position, so the value |idx| is never taken.
    assert |idx| !in idx;
  }

  lemma {:induction false} IncreasingAtLeastIndex(idx: seq<nat>, k: nat)
    requires forall p, q :: 0 <= p < q < |idx| ==> idx[p] < idx[q]
    requires k <= |idx|
    ensures forall p :: 0 <= p < k ==> idx[p] >= p
    decreases k
  {
    if k > 1 {
      IncreasingAtLeastIndex(idx, k - 1);
      assert idx[k - 2] < idx[k - 1];
    }
  }

  lemma {:induction false} IncreasingPrefix(idx: seq<nat>, count: nat, k: nat)
    requires forall p, q :: 0 <= p < q < |idx| ==> idx[p] < idx[q]
    requires forall p :: 0 <= p < |idx| ==> idx[p] < count
    requires forall i :: 0 <= i < count ==> i in idx
    requires k <= |idx|
    ensures forall p :: 0 <= p < k ==> idx[p] == p
    decreases k
  {
    if k > 0 {
      IncreasingPrefix(idx, count, k - 1);
      IncreasingAtLeastIndex(idx, |idx|);
      var j := k - 1;
      // Value j occurs somewhere; not before position j, not after it.
      assert idx[j] >= j;
      assert j < count;
      assert j in idx;
      var q :| 0 <= q < |idx| && idx[q] == j;
      if q > j {
        assert idx[j] < idx[q];
      }
    }
  }

  /** Any strictly sorted listing of a directory that holds exactly the
      names of pages 0 .. count-1 lists them in page order. */
  lemma SortedListingIsPageOrder(count: nat, listing: seq<string>)
    requires count <= 100000
    requires StrictlySorted(listing)
    requires forall x :: x in listing <==> x in PageSet(count)
    ensures listing == PageSeq(count)
  {
    var idx := seq(|listing|, p requires 0 <= p < |listing| => PageIndex(listing[p]));
    forall p | 0 <= p < |listing|
      ensures listing[p] == PageName(idx[p]) && idx[p] < count
    {
      assert listing[p] in PageSet(count);
      var i :| 0 <= i < count && PageName(i) == listing[p];
      PageNameRoundTrip(i);
    }
    forall p, q | 0 <= p < q < |idx| ensures idx[p] < idx[q] {
      PageNameOrder(idx[p], idx[q]);
    }
    forall i | 0 <= i < count ensures i in idx {
      assert PageName(i) in PageSet(count);
      var q :| 0 <= q < |listing| && listing[q] == PageName(i);
      PageNameRoundTrip(i);
      assert idx[q] == i;
    }
    IncreasingCover(idx, count);
  }

}
