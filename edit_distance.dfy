/**
 * Levenshtein edit distance: the fewest single-character insertions,
 * deletions and substitutions, each of cost 1, that turn one string into
 * another. This is what both `Levenshtein.distance` and nltk's
 * `edit_distance` (with its default settings) compute.
 */
module EditDistance {

  import opened Numbers

  /** Cost of lining up the last characters of two nonempty strings. */
  function SubstCost(a: string, b: string): nat
    requires |a| > 0 && |b| > 0
  {
    if a[|a| - 1] == b[|b| - 1] then 0 else 1
  }

  /**
   * The recursive specification: drop the last character of `a` (delete),
   * of `b` (insert), or of both (substitute, free when they agree).
   */
  function Dist(a: string, b: string): (r: nat)
    ensures r <= Max(|a|, |b|)
    decreases |a| + |b|
  {
    if |a| == 0 then |b|
    else if |b| == 0 then |a|
    else Min3(Dist(a[..|a| - 1], b) + 1,
              Dist(a, b[..|b| - 1]) + 1,
              Dist(a[..|a| - 1], b[..|b| - 1]) + SubstCost(a, b))
  }

  /** The distance to or from the empty string is the other string's length. */
  lemma DistEmpty(a: string)
    ensures Dist(a, "") == |a| && Dist("", a) == |a|
  {
  }

  /** A string is at distance 0 from itself. */
  lemma {:induction false} DistSelf(s: string)
    ensures Dist(s, s) == 0
  {
    if |s| > 0 {
      DistSelf(s[..|s| - 1]);
    }
  }

  /** Distance 0 means the strings are equal, and conversely. */
  lemma {:induction false} DistZeroIff(a: string, b: string)
    ensures Dist(a, b) == 0 <==> a == b
    decreases |a| + |b|
  {
    if Dist(a, b) == 0 && |a| > 0 && |b| > 0 {
      var a', b' := a[..|a| - 1], b[..|b| - 1];
      assert Dist(a', b') == 0 && a[|a| - 1] == b[|b| - 1];
      DistZeroIff(a', b');
      assert a == a' + [a[|a| - 1]];
      assert b == b' + [b[|b| - 1]];
    }
    if a == b {
      DistSelf(a);
    }
  }

  /** Editing one way costs as much as editing back. */
  lemma {:induction false} DistSymmetric(a: string, b: string)
    ensures Dist(a, b) == Dist(b, a)
    decreases |a| + |b|
  {
    if |a| > 0 && |b| > 0 {
      var a', b' := a[..|a| - 1], b[..|b| - 1];
      DistSymmetric(a', b);
      DistSymmetric(a, b');
      DistSymmetric(a', b');
    }
  }

  /** The distance lies between the difference and the maximum of the lengths. */
  lemma {:induction false} DistBounds(a: string, b: string)
    ensures |a| - |b| <= Dist(a, b) && |b| - |a| <= Dist(a, b)
    ensures Dist(a, b) <= Max(|a|, |b|)
    decreases |a| + |b|
  {
    if |a| > 0 && |b| > 0 {
      var a', b' := a[..|a| - 1], b[..|b| - 1];
      DistBounds(a', b);
      DistBounds(a, b');
      DistBounds(a', b');
    }
  }

  /** Entry `(i, j)` of the distance table: the distance from `a[..i]` to `b[..j]`. */
  ghost function Cell(a: string, b: string, i: nat, j: nat): nat
    requires i <= |a| && j <= |b|
  {
    Dist(a[..i], b[..j])
  }

  /** The table entries of the first row and the first column. */
  lemma CellEdge(a: string, b: string, i: nat, j: nat)
    requires i <= |a| && j <= |b|
    ensures Cell(a, b, 0, j) == j && Cell(a, b, i, 0) == i
  {
  }

  /** One step of the recurrence: a table entry from its three neighbours. */
  lemma CellStep(a: string, b: string, i: nat, j: nat)
    requires i < |a| && 0 < j <= |b|
    ensures Cell(a, b, i + 1, j)
         == Min3(Cell(a, b, i, j) + 1,
                 Cell(a, b, i + 1, j - 1) + 1,
                 Cell(a, b, i, j - 1) + (if a[i] == b[j - 1] then 0 else 1))
  {
    var x, y := a[..i + 1], b[..j];
    assert x[..|x| - 1] == a[..i];
    assert y[..|y| - 1] == b[..j - 1];
  }

  /**
   * Turns row `i` of the distance table (distances from `a[..i]` to each
   * prefix of `b`) into row `i + 1`, in place, left to right; `diag` keeps
   * the entry of row `i` that the update has just overwritten.
   */
  method NextRow(a: string, b: string, i: nat, row: array<nat>)
    requires i < |a| && row.Length == |b| + 1
    requires forall k {:trigger row[k]} :: 0 <= k <= |b| ==> row[k] == Cell(a, b, i, k)
    modifies row
    ensures forall k {:trigger row[k]} :: 0 <= k <= |b| ==> row[k] == Cell(a, b, i + 1, k)
  {
    ghost var prev := row[..];
    var diag := row[0];
    CellEdge(a, b, i + 1, 0);
    row[0] := i + 1;
    var j := 1;
    while j <= |b|
      invariant 1 <= j <= |b| + 1
      invariant diag == prev[j - 1]
      invariant forall k {:trigger row[k]} :: 0 <= k < j ==> row[k] == Cell(a, b, i + 1, k)
      invariant forall k {:trigger row[k]} :: j <= k <= |b| ==> row[k] == prev[k]
    {
      var cost := if a[i] == b[j - 1] then 0 else 1;
      var next := Min3(row[j] + 1, row[j - 1] + 1, diag + cost);
      CellStep(a, b, i, j);
      diag := row[j];
      row[j] := next;
      j := j + 1;
    }
  }

  /**
   * The dynamic-programming algorithm behind the library calls: one row of
   * the distance table, updated in place, row `i` holding the distances from
   * `a[..i]` to every prefix of `b`.
   */
  method ComputeDist(a: string, b: string) returns (d: nat)
    ensures d == Dist(a, b)
  {
    var n := |b|;
    var row := new nat[n + 1];
    var j := 0;
    while j <= n
      invariant 0 <= j <= n + 1
      invariant forall k {:trigger row[k]} :: 0 <= k < j ==> row[k] == Cell(a, b, 0, k)
    {
      CellEdge(a, b, 0, j);
      row[j] := j;
      j := j + 1;
    }
    var i := 0;
    while i < |a|
      invariant 0 <= i <= |a|
      invariant forall k {:trigger row[k]} :: 0 <= k <= n ==> row[k] == Cell(a, b, i, k)
    {
      NextRow(a, b, i, row);
      i := i + 1;
    }
    d := row[n];
    assert a[..|a|] == a;
    assert b[..n] == b;
  }
}
