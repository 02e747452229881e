# Character-level sentence-similarity metrics, modelled in Dafny

This project models the part of the `sts_pearson.py` evaluation script that has
algorithmic content: the three character-level "symmetrical" metrics it applies
to each pair of sentences of a semantic-textual-similarity dataset, and the
loops in `main` that collect one score per pair.

- `symmetrical_ed` lowercases both sentences and adds the Levenshtein distance
  from the first to the second to the distance back.
- `symmetrical_wer` divides the character edit distance by the larger of the two
  word-token counts for one direction and by the smaller for the other. A zero
  denominator gives 0.0 for that direction, and the result is the sum.
- `symmetrical_lcs` adds the length of the longest common contiguous substring
  of the lowercased sentences, searched in each direction.
- `main` runs each metric over `zip(labels, texts)` and appends one score per
  pair, in dataset order.

Modules, one per concern:

- `Numbers` (numbers.dfy): `Min`, `Max`, `Min3`.
- `Text` (text.dfy): ASCII lowercasing, standing in for `str.lower`.
- `EditDistance` (edit_distance.dfy): `Dist` is the recursive specification of
  Levenshtein distance (insert, delete, substitute, each at cost 1).
  `ComputeDist` is the dynamic-programming algorithm, proved equal to `Dist`.
  It updates one row of the distance table in place; `Cell` names the table
  entries.
- `Substring` (substring.dfy): `Lcs` is the longest common substring length.
  It is computed from `MatchLen`, the longest common suffix of two prefixes.
  `LcsWitness` and `LcsMaximal` prove that it is exactly the length of the
  longest stretch on which the two strings agree (`CommonAt`).
- `Metrics` (metrics.dfy): the datatype `TextPair`, which models the `text_pair`
  tuple `(t1, t2)` that every metric takes, and the three metrics with their lemmas.
- `Pipeline` (pipeline.dfy): the score-collection loops.

Inputs the model takes as parameters: the word-token counts of the two
sentences (`len(word_tokenize(...))`, a foreign tokenizer) are `nat` arguments
of the WER functions. In `Pipeline` they come from a `countTokens: string -> nat`
function argument, which is applied to each lowercased sentence.

The `try ... except ZeroDivisionError` blocks become explicit guards:
`GuardedDiv` returns 0.0 for a zero denominator. In `symmetrical_ed` and
`symmetrical_lcs` nothing on those paths can divide by zero, so their handlers
can never be reached.
The model computes those metrics as total functions over `nat`.

Although one direction of WER divides by `max` and the other by `min` of the
token counts, the score does not change when the sentences are swapped
together with their counts: `max`, `min` and the edit distance are all
symmetric. `WerSwap` proves this.

## Model

| member | source | states |
|---|---|---|
| `Numbers.Min` | sts_pearson.py:65 | `min` of two token counts: no larger than either, and equal to one of them |
| `Numbers.Max` | sts_pearson.py:61 | `max` of two token counts: no smaller than either, and equal to one of them |
| `Text.Lower` | sts_pearson.py:42-43 | lowercasing keeps the length, leaves no ASCII capital, keeps every non-capital character and maps each capital to its small letter |
| `EditDistance.Dist` | sts_pearson.py:45-49 | Levenshtein distance, as computed by `Levenshtein.distance` at lines 45 and 49 and by nltk `edit_distance` at 61 and 65; it is never more than the longer length, and its meaning is carried by `DistSymmetric`, `DistZeroIff`, `DistBounds` and `ComputeDist` |
| `EditDistance.DistEmpty` | sts_pearson.py:44-51 | the distance between a string and the empty string, either way round, is the string's length, so the metric is always defined |
| `EditDistance.DistSelf` | sts_pearson.py:45 | every string is at distance 0 from itself |
| `EditDistance.DistZeroIff` | sts_pearson.py:45 | distance 0 holds exactly when the two strings are equal |
| `EditDistance.DistSymmetric` | sts_pearson.py:45-49 | the distance from a to b equals the distance from b to a, so the two directions agree |
| `EditDistance.DistBounds` | sts_pearson.py:45 | the distance is at least the difference of the lengths and at most the larger length |
| `EditDistance.CellEdge` | sts_pearson.py:45 | the first row and the first column of the distance table hold 0, 1, 2, ... |
| `EditDistance.CellStep` | sts_pearson.py:45 | each inner table entry is the minimum of deletion, insertion and substitution from its three neighbours |
| `EditDistance.NextRow` | sts_pearson.py:45 | updating one table row in place turns the distances from a[..i] into those from a[..i+1], for every prefix of b |
| `EditDistance.ComputeDist` | sts_pearson.py:45 | the dynamic-programming computation returns exactly the Levenshtein distance `Dist(a, b)` |
| `Substring.MatchLen` | sts_pearson.py:76-77 | the result is no longer than either prefix, and the two strings agree on that many characters ending at the given positions |
| `Substring.BestEndingAt` | sts_pearson.py:76-77 | the best match ending at a given position is no longer than either prefix |
| `Substring.LcsUpTo` | sts_pearson.py:76-77 | the best match within a prefix of a is no longer than that prefix or b |
| `Substring.Lcs` | sts_pearson.py:75-77 | the longest common substring length is at most the length of each string |
| `Substring.MatchLenAtLeast` | sts_pearson.py:76-77 | agreement on k characters ending at the given positions makes `MatchLen` at least k |
| `Substring.BestEndingAtLeast` | sts_pearson.py:76-77 | the best match ending at a position of a is at least the match with each earlier position of b |
| `Substring.LcsUpToAtLeast` | sts_pearson.py:76-77 | the best match within a prefix of a is at least the best match ending at each earlier position |
| `Substring.LcsMaximal` | sts_pearson.py:76-77 | no common substring of a and b is longer than `Lcs(a, b)` |
| `Substring.BestEndingAtWitness` | sts_pearson.py:76-77 | some position of b attains the best match ending at a given position of a |
| `Substring.LcsUpToWitness` | sts_pearson.py:76-77 | some pair of positions attains the best match within a prefix of a |
| `Substring.LcsWitness` | sts_pearson.py:76-77 | some common substring of a and b is exactly `Lcs(a, b)` long, so the found match's size is attained |
| `Substring.LcsSymmetric` | sts_pearson.py:75-83 | searching b within a and a within b give the same longest match size |
| `Substring.LcsSelf` | sts_pearson.py:75-77 | a string's longest common substring with itself is the whole string |
| `Metrics.SymmetricalEd` | sts_pearson.py:40-52 | the metric is twice the edit distance of the lowercased sentences |
| `Metrics.SymmetricalEdSwap` | sts_pearson.py:40-52 | swapping the two sentences does not change the score |
| `Metrics.SymmetricalEdZeroIff` | sts_pearson.py:40-52 | the score is 0 exactly when the sentences agree up to case; a sentence scores 0 against itself |
| `Metrics.SymmetricalEdBounds` | sts_pearson.py:40-52 | the score lies between twice the length difference and twice the larger length |
| `Metrics.SymmetricalEdEmpty` | sts_pearson.py:44-52 | against an empty sentence, the score is twice the other sentence's length, with no error path taken |
| `Metrics.GuardedDiv` | sts_pearson.py:60-67 | a zero denominator gives 0.0; otherwise the quotient times the denominator is the numerator; never negative; 0.0 exactly when numerator or denominator is 0 |
| `Metrics.SymmetricalWer` | sts_pearson.py:54-68 | the WER score is never negative |
| `Metrics.WerMaxTerm` | sts_pearson.py:60-63 | `wer_1`: 0.0 when the larger token count is 0; otherwise the character edit distance from the first lowercased sentence to the second divided by that count; never negative |
| `Metrics.WerMinTerm` | sts_pearson.py:64-67 | `wer_2`: 0.0 when the smaller token count is 0; otherwise the edit distance from the second lowercased sentence back to the first divided by that count; never negative |
| `Metrics.WerDegenerate` | sts_pearson.py:60-67 | with a zero token count the second direction is 0.0 and only distance over max remains; with both counts zero the score is 0 |
| `Metrics.DivAntitone` | sts_pearson.py:61-65 | a nonnegative numerator over a larger positive denominator gives a quotient no larger |
| `Metrics.WerPositive` | sts_pearson.py:54-68 | with both token counts positive, the score is ed/max + ed/min, and the first term is at most the second |
| `Metrics.WerSwap` | sts_pearson.py:54-68 | swapping the sentences together with their token counts does not change the score |
| `Metrics.WerZeroIff` | sts_pearson.py:54-68 | the score is 0 exactly when the sentences agree up to case or neither has a token |
| `Metrics.SymmetricalLcs` | sts_pearson.py:70-86 | the metric is twice the longest common substring length of the lowercased sentences |
| `Metrics.SymmetricalLcsSwap` | sts_pearson.py:70-86 | swapping the two sentences does not change the score |
| `Metrics.SymmetricalLcsSelf` | sts_pearson.py:70-86 | a sentence against itself scores twice its length |
| `Metrics.SymmetricalLcsBounds` | sts_pearson.py:74-86 | the score is at most twice the shorter length, and 0 when either sentence is empty |
| `Metrics.SymmetricalLcsIsLongest` | sts_pearson.py:74-86 | half the score is the length of a common substring of the lowercased sentences, and no common substring is longer |
| `Pipeline.WerScore` | sts_pearson.py:56-68 | the WER score of a pair with token counts taken from each lowercased sentence (as called at line 139): never negative, and 0 exactly when the sentences agree up to case or neither has a token |
| `Pipeline.CollectScores` | sts_pearson.py:132-135 | the series has one entry per pair of `zip(labels, texts)`, and entry i is the metric of `texts[i]` |
| `Pipeline.ScoreDataset` | sts_pearson.py:132-145 | the edit-distance, WER and substring series each have `min(len(labels), len(texts))` entries (`len(texts)` when the lengths agree), entry i scoring `texts[i]`, in input order |

## Left out

- `symmetrical_nist` and `symmetrical_bleu` (sts_pearson.py:12-38), and their score loops (122-130): their content is nltk's NIST and BLEU scoring, which is floating-point n-gram statistics inside foreign calls. Around those calls there is only a wrapper that substitutes 0.0 on a zero division and then sums.
- `pearsonr` and the printed output (sts_pearson.py:96, 147-161): the pair count printed at line 96, and floating-point statistics from scipy followed by console output.
- `parse_sts`, `argparse` and the `__main__` block (sts_pearson.py:94, 165-171): file and command-line I/O. `util.py` is not part of this model. The dataset enters as the `labels` and `texts` arguments of `ScoreDataset`.
- `word_tokenize`: a foreign tokenizer. Only the token counts enter the model, as arguments.
- `Text.Lower`: uses ASCII A-Z case mapping, not Python's full Unicode `str.lower`. The ASCII mapping preserves length; Unicode lowering can change it.
- `Substring.Lcs`: is the true longest common substring. difflib's `autojunk` heuristic can make `find_longest_match` report a shorter match. It ignores popular characters of the second string when that string is 200 or more characters long. For such long inputs, `symmetrical_lcs` as run can fall below `SymmetricalLcs`, and its two directions can differ.
- `Metrics.GuardedDiv`: divides over `real`, which is exact. Python's float division rounds.
