/**
 * The keyword pre-filter `PostClusterer._quick_keyword_overlap`: the
 * Jaccard index of the sets of whitespace-separated words of two texts,
 * and the test that discards a candidate whose index is below 0.3.
 *
 * The index is kept as an exact fraction (numerator over denominator)
 * rather than as a floating-point quotient.
 */
module Overlap {
  import opened Normalize
  import opened WordSplit

  /** `set(s.split())`: every member is a word, and the set is empty exactly for an all-whitespace text. */
  function TokenSet(s: string): (r: set<string>)
    ensures forall w :: w in r ==> IsWord(w)
    ensures r == {} <==> forall i :: 0 <= i < |s| ==> IsSpace(s[i])
  {
    WordsEmpty(s);
    var ws := Words(s);
    var r := set w | w in ws;
    assert ws != [] ==> ws[0] in r;
    r
  }

  /** A Jaccard index as an exact fraction. */
  datatype Ratio = Ratio(num: nat, den: nat)

  /**
   * `_quick_keyword_overlap(text1, text2)`: 0 when either text has no
   * word, otherwise |shared words| / |all words|. The fraction is well
   * formed and at most 1, and it is non-zero exactly when the texts share
   * a word.
   */
  function KeywordOverlap(text1: string, text2: string): (r: Ratio)
    ensures r.den > 0 && r.num <= r.den
    ensures r.num > 0 <==> TokenSet(text1) * TokenSet(text2) != {}
  {
    var words1 := TokenSet(text1);
    var words2 := TokenSet(text2);
    if words1 == {} || words2 == {} then Ratio(0, 1)
    else
      SubsetCard(words1 * words2, words1 + words2);
      Ratio(|words1 * words2|, |words1 + words2|)
  }

  /** The comparison `overlap < 0.3` that sends the loop on to the next cluster. */
  predicate BelowPrefilter(r: Ratio) {
    r.num * 10 < r.den * 3
  }

  // ---------------------------------------------------------------------
  // Properties

  /** The integer comparison is the comparison of the fraction with 0.3. */
  lemma BelowPrefilterIsRealComparison(r: Ratio)
    requires r.den > 0
    ensures BelowPrefilter(r) <==> (r.num as real) / (r.den as real) < 0.3
  {
    var n, d := r.num as real, r.den as real;
    var q := n / d;
    assert q * d == n;
    ScaleLess(q, 0.3, d);
    assert 0.3 * d * 10.0 == d * 3.0;
    assert BelowPrefilter(r) <==> n * 10.0 < d * 3.0;
  }

  /** Multiplying by a positive number keeps a strict comparison. */
  lemma ScaleLess(x: real, y: real, d: real)
    requires d > 0.0
    ensures x < y <==> x * d < y * d
  {
    assert x * d - y * d == (x - y) * d;
  }

  /** A subset as large as its superset is the superset. */
  lemma SubsetCard(a: set<string>, b: set<string>)
    requires a <= b
    ensures |a| <= |b|
    ensures |a| == |b| ==> a == b
  {
    var d := b - a;
    assert b == a + d;
    assert a * d == {};
    assert |b| == |a| + |d|;
    if |a| == |b| {
      assert d == {};
    }
  }

  /** The overlap does not depend on the order of its arguments. */
  lemma KeywordOverlapSymmetric(text1: string, text2: string)
    ensures KeywordOverlap(text1, text2) == KeywordOverlap(text2, text1)
  {
    var a, b := TokenSet(text1), TokenSet(text2);
    assert a * b == b * a;
    assert a + b == b + a;
  }

  /**
   * The overlap is exactly 1 when, and only when, both texts have the same
   * non-empty set of words.
   */
  lemma KeywordOverlapFull(text1: string, text2: string)
    ensures var r := KeywordOverlap(text1, text2);
      r.num == r.den <==> TokenSet(text1) == TokenSet(text2) != {}
  {
    var a, b := TokenSet(text1), TokenSet(text2);
    if a != {} && b != {} {
      SubsetCard(a * b, a + b);
      if |a * b| == |a + b| {
        assert a * b == a + b;
        assert a <= a + b && a + b <= a * b;
        assert a == b;
      }
      if a == b {
        assert a * b == a && a + b == a;
      }
    }
  }

  /** A text without words has overlap 0 with every text, so it never passes the pre-filter. */
  lemma BlankTextBelowPrefilter(text1: string, text2: string)
    requires forall i :: 0 <= i < |text1| ==> IsSpace(text1[i])
    ensures KeywordOverlap(text1, text2).num == 0
    ensures BelowPrefilter(KeywordOverlap(text1, text2))
  {
    WordsEmpty(text1);
  }

  /** Texts with the same non-empty set of words always pass the pre-filter. */
  lemma SameWordsPassPrefilter(text1: string, text2: string)
    requires TokenSet(text1) == TokenSet(text2) != {}
    ensures !BelowPrefilter(KeywordOverlap(text1, text2))
  {
    KeywordOverlapFull(text1, text2);
  }
}
