/**
 * The character-level "symmetrical" metrics of the evaluation script: each
 * lowercases both sentences of a pair, scores one direction and the other,
 * and returns the sum of the two directions.
 */
module Metrics {

  import opened Numbers
  import opened Text
  import opened EditDistance
  import opened Substring

  /** An ordered pair of sentences, the `text_pair` tuple every metric takes. */
  datatype TextPair = TextPair(t1: string, t2: string) {
    function Swap(): TextPair {
      TextPair(t2, t1)
    }
  }

  /**
   * `symmetrical_ed`: the edit distance from the first lowercased sentence
   * to the second plus the one back, which is twice the distance. The
   * library call never divides, so no direction ever falls back to 0.0.
   */
  function SymmetricalEd(p: TextPair): (r: nat)
    ensures r == 2 * Dist(Lower(p.t1), Lower(p.t2))
  {
    var l1, l2 := Lower(p.t1), Lower(p.t2);
    DistSymmetric(l2, l1);
    Dist(l1, l2) + Dist(l2, l1)
  }

  /** Swapping the sentences leaves the edit-distance score unchanged. */
  lemma SymmetricalEdSwap(p: TextPair)
    ensures SymmetricalEd(p.Swap()) == SymmetricalEd(p)
  {
  }

  /** The score is 0 exactly when the sentences agree up to case; so a sentence scores 0 against itself. */
  lemma SymmetricalEdZeroIff(p: TextPair)
    ensures SymmetricalEd(p) == 0 <==> Lower(p.t1) == Lower(p.t2)
    ensures SymmetricalEd(TextPair(p.t1, p.t1)) == 0
  {
    DistZeroIff(Lower(p.t1), Lower(p.t2));
    DistZeroIff(Lower(p.t1), Lower(p.t1));
  }

  /** The score lies between twice the length difference and twice the longer length. */
  lemma SymmetricalEdBounds(p: TextPair)
    ensures 2 * (|p.t1| - |p.t2|) <= SymmetricalEd(p)
    ensures 2 * (|p.t2| - |p.t1|) <= SymmetricalEd(p)
    ensures SymmetricalEd(p) <= 2 * Max(|p.t1|, |p.t2|)
  {
    DistBounds(Lower(p.t1), Lower(p.t2));
  }

  /** Against an empty sentence the score is twice the other sentence's length. */
  lemma SymmetricalEdEmpty(s: string)
    ensures SymmetricalEd(TextPair(s, "")) == 2 * |s|
    ensures SymmetricalEd(TextPair("", s)) == 2 * |s|
  {
  }

  /**
   * Python's `/` where a zero denominator raises ZeroDivisionError and the
   * caller's handler supplies 0.0 instead.
   */
  function GuardedDiv(num: nat, den: nat): (r: real)
    ensures den == 0 ==> r == 0.0
    ensures den > 0 ==> r * den as real == num as real
    ensures r >= 0.0
    ensures r == 0.0 <==> num == 0 || den == 0
  {
    if den == 0 then 0.0 else num as real / den as real
  }

  /**
   * First direction of `symmetrical_wer`: the character edit distance from
   * the first lowercased sentence to the second over the larger token count.
   * `n1` and `n2` are the numbers of word tokens of the two lowercased sentences.
   */
  function WerMaxTerm(p: TextPair, n1: nat, n2: nat): (r: real)
    ensures r >= 0.0
    ensures Max(n2, n1) == 0 ==> r == 0.0
    ensures Max(n2, n1) > 0 ==> r == Dist(Lower(p.t1), Lower(p.t2)) as real / Max(n2, n1) as real
  {
    GuardedDiv(Dist(Lower(p.t1), Lower(p.t2)), Max(n2, n1))
  }

  /** Second direction of `symmetrical_wer`: the distance back over the smaller token count. */
  function WerMinTerm(p: TextPair, n1: nat, n2: nat): (r: real)
    ensures r >= 0.0
    ensures Min(n2, n1) == 0 ==> r == 0.0
    ensures Min(n2, n1) > 0 ==> r == Dist(Lower(p.t2), Lower(p.t1)) as real / Min(n2, n1) as real
  {
    GuardedDiv(Dist(Lower(p.t2), Lower(p.t1)), Min(n2, n1))
  }

  /** `symmetrical_wer`: the sum of the two directions, never negative. */
  function SymmetricalWer(p: TextPair, n1: nat, n2: nat): (r: real)
    ensures r >= 0.0
  {
    WerMaxTerm(p, n1, n2) + WerMinTerm(p, n1, n2)
  }

  /**
   * The zero-denominator cases: with a sentence without tokens the second
   * direction is 0.0 and only the first remains; with neither sentence
   * having tokens the score is 0.
   */
  lemma WerDegenerate(p: TextPair, n1: nat, n2: nat)
    ensures n1 == 0 || n2 == 0 ==> WerMinTerm(p, n1, n2) == 0.0
    ensures n1 == 0 || n2 == 0 ==>
      SymmetricalWer(p, n1, n2) == GuardedDiv(Dist(Lower(p.t1), Lower(p.t2)), Max(n1, n2))
    ensures n1 == 0 && n2 == 0 ==> SymmetricalWer(p, n1, n2) == 0.0
  {
  }

  /** A nonnegative numerator over a larger denominator gives a smaller quotient. */
  lemma DivAntitone(num: nat, small: nat, large: nat)
    requires 0 < small <= large
    ensures num as real / large as real <= num as real / small as real
  {
  }

  /**
   * With tokens on both sides, the score is the distance over the larger
   * count plus the distance over the smaller one, and the first term is at
   * most the second.
   */
  lemma WerPositive(p: TextPair, n1: nat, n2: nat)
    requires n1 > 0 && n2 > 0
    ensures var ed := Dist(Lower(p.t1), Lower(p.t2)) as real;
      SymmetricalWer(p, n1, n2) == ed / Max(n1, n2) as real + ed / Min(n1, n2) as real
    ensures WerMaxTerm(p, n1, n2) <= WerMinTerm(p, n1, n2)
  {
    DistSymmetric(Lower(p.t1), Lower(p.t2));
    DivAntitone(Dist(Lower(p.t1), Lower(p.t2)), Min(n1, n2), Max(n1, n2));
  }

  /** Swapping the sentences, with their token counts, leaves the score unchanged. */
  lemma WerSwap(p: TextPair, n1: nat, n2: nat)
    ensures SymmetricalWer(p.Swap(), n2, n1) == SymmetricalWer(p, n1, n2)
  {
    DistSymmetric(Lower(p.t1), Lower(p.t2));
  }

  /** The score is 0 exactly when the sentences agree up to case or neither has a token. */
  lemma WerZeroIff(p: TextPair, n1: nat, n2: nat)
    ensures SymmetricalWer(p, n1, n2) == 0.0 <==> Lower(p.t1) == Lower(p.t2) || (n1 == 0 && n2 == 0)
  {
    var l1, l2 := Lower(p.t1), Lower(p.t2);
    DistSymmetric(l1, l2);
    DistZeroIff(l1, l2);
  }

  /**
   * `symmetrical_lcs`: the longest common substring of the lowercased
   * sentences, searched one way and the other, which is twice its length.
   */
  function SymmetricalLcs(p: TextPair): (r: nat)
    ensures r == 2 * Lcs(Lower(p.t1), Lower(p.t2))
  {
    var l1, l2 := Lower(p.t1), Lower(p.t2);
    LcsSymmetric(l2, l1);
    Lcs(l1, l2) + Lcs(l2, l1)
  }

  /** Swapping the sentences leaves the substring score unchanged. */
  lemma SymmetricalLcsSwap(p: TextPair)
    ensures SymmetricalLcs(p.Swap()) == SymmetricalLcs(p)
  {
  }

  /** A sentence against itself scores twice its length. */
  lemma SymmetricalLcsSelf(s: string)
    ensures SymmetricalLcs(TextPair(s, s)) == 2 * |s|
  {
    LcsSelf(Lower(s));
  }

  /** The score is at most twice the shorter length, so 0 when a sentence is empty. */
  lemma SymmetricalLcsBounds(p: TextPair)
    ensures SymmetricalLcs(p) <= 2 * Min(|p.t1|, |p.t2|)
    ensures |p.t1| == 0 || |p.t2| == 0 ==> SymmetricalLcs(p) == 0
  {
  }

  /**
   * The score is twice the longest common substring of the lowercased
   * sentences: some common substring is half the score long, and none is longer.
   */
  lemma SymmetricalLcsIsLongest(p: TextPair, i: nat, j: nat, k: nat) returns (i0: nat, j0: nat)
    ensures CommonAt(Lower(p.t1), Lower(p.t2), i0, j0, SymmetricalLcs(p) / 2)
    ensures CommonAt(Lower(p.t1), Lower(p.t2), i, j, k) ==> 2 * k <= SymmetricalLcs(p)
  {
    i0, j0 := LcsWitness(Lower(p.t1), Lower(p.t2));
    if CommonAt(Lower(p.t1), Lower(p.t2), i, j, k) {
      LcsMaximal(Lower(p.t1), Lower(p.t2), i, j, k);
    }
  }
}
