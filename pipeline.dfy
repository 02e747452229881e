/**
 * The score-collection loops of `main`: each walks `zip(labels, texts)` and
 * appends one score per sentence pair, in dataset order.
 */
module Pipeline {

  import opened Numbers
  import opened Text
  import opened Metrics

  /**
   * One of the `for label, text_pair in zip(...)` loops. `zip` stops at the
   * shorter of its two lists, so there is one score per pair that has a label.
   */
  method CollectScores<S>(labels: seq<real>, texts: seq<TextPair>, metric: TextPair -> S)
    returns (scores: seq<S>)
    ensures |scores| == Min(|labels|, |texts|)
    ensures forall i :: 0 <= i < |scores| ==> scores[i] == metric(texts[i])
  {
    scores := [];
    var n := Min(|labels|, |texts|);
    var i := 0;
    while i < n
      invariant 0 <= i <= n
      invariant |scores| == i
      invariant forall k :: 0 <= k < i ==> scores[k] == metric(texts[k])
    {
      var score := metric(texts[i]);
      scores := scores + [score];
      i := i + 1;
    }
  }

  /**
   * The Word Error Rate of one pair, with `countTokens` standing for
   * `len(word_tokenize(...))` applied to each lowercased sentence.
   */
  function WerScore(p: TextPair, countTokens: string -> nat): (r: real)
    ensures r >= 0.0
    ensures r == 0.0 <==>
      Lower(p.t1) == Lower(p.t2) || (countTokens(Lower(p.t1)) == 0 && countTokens(Lower(p.t2)) == 0)
  {
    WerZeroIff(p, countTokens(Lower(p.t1)), countTokens(Lower(p.t2)));
    SymmetricalWer(p, countTokens(Lower(p.t1)), countTokens(Lower(p.t2)))
  }

  /**
   * The edit-distance, Word Error Rate and longest-common-substring series
   * of `main`, each with one entry per dataset pair (every pair, when the
   * loader hands over as many labels as pairs), entry `i` scoring `texts[i]`.
   */
  method ScoreDataset(labels: seq<real>, texts: seq<TextPair>, countTokens: string -> nat)
    returns (edScores: seq<nat>, werScores: seq<real>, lcsScores: seq<nat>)
    ensures |edScores| == |werScores| == |lcsScores| == Min(|labels|, |texts|)
    ensures |labels| == |texts| ==> |edScores| == |texts|
    ensures forall i :: 0 <= i < |edScores| ==> edScores[i] == SymmetricalEd(texts[i])
    ensures forall i :: 0 <= i < |werScores| ==> werScores[i] == WerScore(texts[i], countTokens)
    ensures forall i :: 0 <= i < |lcsScores| ==> lcsScores[i] == SymmetricalLcs(texts[i])
  {
    edScores := CollectScores(labels, texts, p => SymmetricalEd(p));
    werScores := CollectScores(labels, texts, p => WerScore(p, countTokens));
    lcsScores := CollectScores(labels, texts, p => SymmetricalLcs(p));
  }
}
