/**
 * Length of the longest common contiguous substring of two strings, the
 * `size` of the match that difflib's `SequenceMatcher.find_longest_match`
 * reports over the whole of both strings.
 */
module Substring {

  import opened Numbers

  /** `a` from position `i` and `b` from position `j` agree on `k` characters. */
  ghost predicate CommonAt(a: string, b: string, i: nat, j: nat, k: nat) {
    i + k <= |a| && j + k <= |b| && forall p :: i <= p < i + k ==> a[p] == b[j - i + p]
  }

  /**
   * Length of the longest common suffix of `a[..i]` and `b[..j]`: how far
   * back from positions `i` and `j` the two strings agree.
   */
  function MatchLen(a: string, b: string, i: nat, j: nat): (r: nat)
    requires i <= |a| && j <= |b|
    ensures r <= i && r <= j
    ensures forall p :: i - r <= p < i ==> a[p] == b[j - i + p]
  {
    if i == 0 || j == 0 || a[i - 1] != b[j - 1] then 0
    else 1 + MatchLen(a, b, i - 1, j - 1)
  }

  /** Longest common substring that ends at position `i` of `a` and at or before position `j` of `b`. */
  function BestEndingAt(a: string, b: string, i: nat, j: nat): (r: nat)
    requires i <= |a| && j <= |b|
    ensures r <= i && r <= j
  {
    if j == 0 then 0
    else Max(MatchLen(a, b, i, j), BestEndingAt(a, b, i, j - 1))
  }

  /** Longest common substring of `a[..i]` and `b`: the best over every place it can end in `a`. */
  function LcsUpTo(a: string, b: string, i: nat): (r: nat)
    requires i <= |a|
    ensures r <= i && r <= |b|
  {
    if i == 0 then 0
    else Max(LcsUpTo(a, b, i - 1), BestEndingAt(a, b, i, |b|))
  }

  /** Length of the longest common substring of `a` and `b`. */
  function Lcs(a: string, b: string): (r: nat)
    ensures r <= |a| && r <= |b|
  {
    LcsUpTo(a, b, |a|)
  }

  /** Agreement on `k` characters back from `i` and `j` makes `MatchLen` at least `k`. */
  lemma {:induction false} MatchLenAtLeast(a: string, b: string, i: nat, j: nat, k: nat)
    requires k <= i <= |a| && k <= j <= |b|
    requires forall p :: i - k <= p < i ==> a[p] == b[j - i + p]
    ensures k <= MatchLen(a, b, i, j)
  {
    if k > 0 {
      assert a[i - 1] == b[j - 1];
      MatchLenAtLeast(a, b, i - 1, j - 1, k - 1);
    }
  }

  /** `BestEndingAt` is at least the match ending at every earlier position of `b`. */
  lemma {:induction false} BestEndingAtLeast(a: string, b: string, i: nat, j: nat, m: nat)
    requires i <= |a| && m <= j <= |b|
    ensures MatchLen(a, b, i, m) <= BestEndingAt(a, b, i, j)
  {
    if m < j {
      BestEndingAtLeast(a, b, i, j - 1, m);
    }
  }

  /** `LcsUpTo` is at least the best match ending at every earlier position of `a`. */
  lemma {:induction false} LcsUpToAtLeast(a: string, b: string, i: nat, p: nat)
    requires p <= i <= |a|
    ensures BestEndingAt(a, b, p, |b|) <= LcsUpTo(a, b, i)
  {
    if p < i {
      LcsUpToAtLeast(a, b, i - 1, p);
    }
  }

  /** No common substring is longer than `Lcs`. */
  lemma LcsMaximal(a: string, b: string, i: nat, j: nat, k: nat)
    requires CommonAt(a, b, i, j, k)
    ensures k <= Lcs(a, b)
  {
    MatchLenAtLeast(a, b, i + k, j + k, k);
    BestEndingAtLeast(a, b, i + k, |b|, j + k);
    LcsUpToAtLeast(a, b, |a|, i + k);
  }

  /** The position of `b` whose match gives `BestEndingAt`. */
  lemma {:induction false} BestEndingAtWitness(a: string, b: string, i: nat, j: nat) returns (m: nat)
    requires i <= |a| && j <= |b|
    ensures m <= j && BestEndingAt(a, b, i, j) == MatchLen(a, b, i, m)
  {
    if j == 0 {
      m := 0;
    } else if BestEndingAt(a, b, i, j) == MatchLen(a, b, i, j) {
      m := j;
    } else {
      m := BestEndingAtWitness(a, b, i, j - 1);
    }
  }

  /** The positions of `a` and `b` whose match gives `LcsUpTo`. */
  lemma {:induction false} LcsUpToWitness(a: string, b: string, i: nat) returns (p: nat, m: nat)
    requires i <= |a|
    ensures p <= i && m <= |b| && LcsUpTo(a, b, i) == MatchLen(a, b, p, m)
  {
    if i == 0 {
      p, m := 0, 0;
    } else if LcsUpTo(a, b, i) == LcsUpTo(a, b, i - 1) {
      p, m := LcsUpToWitness(a, b, i - 1);
    } else {
      p := i;
      m := BestEndingAtWitness(a, b, i, |b|);
    }
  }

  /** Some common substring is exactly `Lcs` long: `Lcs` is attained. */
  lemma LcsWitness(a: string, b: string) returns (i: nat, j: nat)
    ensures CommonAt(a, b, i, j, Lcs(a, b))
  {
    var p, m := LcsUpToWitness(a, b, |a|);
    var r := MatchLen(a, b, p, m);
    i, j := p - r, m - r;
  }

  /** The longest common substring does not depend on the order of the strings. */
  lemma LcsSymmetric(a: string, b: string)
    ensures Lcs(a, b) == Lcs(b, a)
  {
    var i, j := LcsWitness(a, b);
    LcsMaximal(b, a, j, i, Lcs(a, b));
    var i', j' := LcsWitness(b, a);
    LcsMaximal(a, b, j', i', Lcs(b, a));
  }

  /** A string's longest common substring with itself is the whole string. */
  lemma LcsSelf(s: string)
    ensures Lcs(s, s) == |s|
  {
    LcsMaximal(s, s, 0, 0, |s|);
  }
}
