/**
 The similarity score the program uses everywhere (calculate_similarity):
 both strings are lower-cased and scored by SequenceMatcher's ratio
 2*M/T, where T is their combined length and M the number of characters in
 the matching blocks SequenceMatcher finds. The block-finding algorithm is
 not part of this model: M is supplied as a `MatchCount`, about which two
 facts are known. It matches no more characters than either string has. And
 a string is matched with itself completely: with no junk predicate, the
 longest matching block of a string with itself lies on the diagonal and
 is extended over every character, frequent ones included, to the whole
 string.
 */
module Similarity {
  import opened Text

  /**
   A matched-character count: never more than the length of either string,
   and the full length when a string is matched with itself.
   */
  type MatchCount = f: (string, string) -> nat
    | && (forall a, b :: f(a, b) <= |a| && f(a, b) <= |b|)
      && (forall a :: f(a, a) == |a|)
    witness (a: string, b: string) => if a == b then |a| else 0

  /**
   SequenceMatcher.ratio() given the matched count: 2*M/T, and 1.0 when both
   strings are empty.
   */
  function Ratio(matched: MatchCount, a: string, b: string): (r: real)
    ensures 0.0 <= r <= 1.0
    ensures |a| + |b| == 0 ==> r == 1.0
    ensures r == 1.0 <==> 2 * matched(a, b) == |a| + |b|
    ensures r == 0.0 <==> (|a| + |b| > 0 && matched(a, b) == 0)
  {
    RatioOf(matched(a, b), |a| + |b|)
  }

  /** 2*m/total over plain numbers, 1.0 when total is 0. */
  function RatioOf(m: nat, total: nat): (r: real)
    requires 2 * m <= total
    ensures 0.0 <= r <= 1.0
    ensures total == 0 ==> r == 1.0
    ensures r == 1.0 <==> 2 * m == total
    ensures r == 0.0 <==> (total > 0 && m == 0)
  {
    if total == 0 then 1.0
    else
      var r := (2 * m) as real / total as real;
      assert r * total as real == (2 * m) as real;
      r
  }

  /** calculate_similarity: the ratio of the lower-cased strings, a value in [0, 1]. */
  function CalculateSimilarity(matched: MatchCount, s1: string, s2: string): (r: real)
    ensures 0.0 <= r <= 1.0
  {
    Ratio(matched, ToLower(s1), ToLower(s2))
  }

  /**
   The score depends on its inputs only through their lower-cased forms:
   lower-casing them first changes nothing, and two pairs that agree after
   lower-casing score the same.
   */
  lemma SimilarityIgnoresCase(matched: MatchCount, s1: string, s2: string, t1: string, t2: string)
    requires ToLower(s1) == ToLower(t1) && ToLower(s2) == ToLower(t2)
    ensures CalculateSimilarity(matched, s1, s2) == CalculateSimilarity(matched, t1, t2)
    ensures CalculateSimilarity(matched, s1, s2)
         == CalculateSimilarity(matched, ToLower(s1), ToLower(s2))
  {
    ToLowerIdempotent(s1);
    ToLowerIdempotent(s2);
  }

  /**
   Reflexivity: every string is fully similar to itself.
   */
  lemma SimilarityReflexive(matched: MatchCount, s: string)
    ensures CalculateSimilarity(matched, s, s) == 1.0
  {
    var t := ToLower(s);
    assert matched(t, t) == |t|;
  }
}
