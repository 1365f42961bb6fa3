# IBM Model 1 trainer

This project models the IBM Model 1 word-alignment trainer of
`alignment_models/model1.cpp` in Dafny and proves properties of the model.
The trainer is an Expectation-Maximization loop over a parallel corpus of
document pairs. It keeps two sparse tables keyed by (source word id, target
word id):

- the translation table `t_table_` (`tTable`), which holds log translation
  probabilities;
- the expected-count table `expected_counts_` (`expectedCounts`), which holds
  log-domain soft counts. Slot (s, 0) is source word s's denominator.

Word id 0 is the null source word. The class `Alignment.Model1` keeps the
source's form: both tables are `map` fields that its methods update in place,
with the same loops.

- `InitDataStructures` gathers, for every source word s, the set R(s) of
  target words it shares a document pair with. It then writes
  log(1 / (V - 1)) for the null word and every real target word, and
  log(1 / |R(s)|) at (s, t) for every real source word s and every t in R(s).
- `ScorePair` sums, over the target positions, t_prob plus the alignment
  term log(1 / |target|). Here t_prob is T[0, t] log-added with T[s, t] for
  every source position.
- `ClearExpectedCounts` writes -DBL_MAX into every denominator slot of the
  vocabulary and into the count of every translation key.
- `EStep` returns what `ScorePair` returns. It also log-adds `weight` into
  (0, 0) and into (source[s], 0), and T[x, t] - t_prob + weight into every
  (x, t).
- `MStep` sets every translation entry to c(s, t) - c(s).

Each method is proved to compute a function of module `Model1Spec`. Sparse
accumulation is modelled in module `SparseTable`. There, the E-step's effect
is a list of (key, value) updates applied in order (`Apply`), which makes
"which keys change" and "how many times each key is written" statable.
`log`, `LogAdd` and the value `lookup` yields for a missing key are
parameters of the model, held in a `Numerics` value (module `LogDomain`).
Every result therefore holds whatever those functions are. The -DBL_MAX
sentinel is the exact value (2^53 - 1) * 2^971.

## Model

| member | source | states |
|---|---|---|
| Alignment.CollectWords | alignment_models/model1.cpp:21-31 | the words gathered from a list of sentences are `Words(sentences)`, the set of words at any position of any sentence |
| Model1Spec.WordsMembership | alignment_models/model1.cpp:21-31 | a word is gathered iff it occurs at some position of some sentence (both directions) |
| Model1Spec.ReachMembership | alignment_models/model1.cpp:32-37 | t is in R(s) iff some document pair holds s on its source side and t on its target side (both directions) |
| Alignment.Model1.AddCoOccurrences | alignment_models/model1.cpp:32-37 | after one document pair, the set of every source word of the pair gains all of the pair's target words; every other set is unchanged |
| Alignment.Model1.GatherTargets | alignment_models/model1.cpp:15-38 | the per-source array is fresh, has one entry per source word id, and entry s is R(s) over all document pairs |
| Alignment.Model1.InitNullWord | alignment_models/model1.cpp:41-43 | the table becomes the old table overwritten at (0, t) with log(1 / (V - 1)) for every 1 <= t < V |
| Alignment.Model1.InitSourceWord | alignment_models/model1.cpp:45-50 | one real source word s adds log(1 / \|R(s)\|) at (s, t) for every t in R(s), and nothing else |
| Alignment.Model1.InitSourceWords | alignment_models/model1.cpp:44-51 | the table becomes the old table overwritten with log(1 / \|R(s)\|) at every co-occurring (s, t) with 1 <= s < source vocabulary size |
| Alignment.Model1.InitDataStructures | alignment_models/model1.cpp:10-52 | the vocabulary sizes are set; the translation table becomes the old table overwritten with `InitTable` (null entries and word entries); the counts are unchanged |
| Model1Spec.InitNullEntries | alignment_models/model1.cpp:41-43 | after initialisation, (0, t) is a key for every real target word t and holds log(1 / (V - 1)) |
| Model1Spec.InitTableKeys | alignment_models/model1.cpp:15-51 | (s, t) is an initial key iff s is the null word and 1 <= t < V, or s is a real source word sharing a document pair with t; such an (s, t) holds log(1 / \|R(s)\|) |
| Model1Spec.InitSkipsIsolatedWords | alignment_models/model1.cpp:44-51 | a real source word that shares no document pair with any target word gets no entry |
| Alignment.Model1.TargetWordProb | alignment_models/model1.cpp:61-65 | t_prob is `WordProb`: T[0, t] log-added with T[s, t] for each source position in order, missing entries reading as the miss value |
| Alignment.Model1.ScorePair | alignment_models/model1.cpp:54-71 | the result is `Score`: the sum over target positions of t_prob plus log(1 / \|target\|); the method has no `modifies`, so neither table changes |
| Model1Spec.ScoreSumAppend | alignment_models/model1.cpp:58-69 | the score is additive over the target words |
| Model1Spec.AlignmentFactorsOut | alignment_models/model1.cpp:66-68 | the alignment term factors out: the score is the alignment-free sum plus \|target\| times the alignment term |
| Model1Spec.ScoreFrame | alignment_models/model1.cpp:54-71 | two tables that agree on the keys (null or source word, target word) of a pair give that pair the same score |
| Alignment.Model1.ClearExpectedCounts | alignment_models/model1.cpp:73-83 | the counts become the old counts overwritten with -DBL_MAX at every (s, 0) with s below the source vocabulary size and at every translation key; afterwards every translation key and denominator slot has a count; the translation table is not in the frame |
| Alignment.Model1.AddDenominatorCounts | alignment_models/model1.cpp:88-93 | the counts become the old counts with `weight` log-added into (0, 0), then into (source[s], 0) for each position in order |
| Alignment.Model1.AddTargetWordCounts | alignment_models/model1.cpp:109-117 | the counts become the old counts with T[0, t] - t_prob + weight log-added into (0, t), then T[s, t] - t_prob + weight into (s, t) for each source position |
| Alignment.Model1.EStep | alignment_models/model1.cpp:85-120 | the result equals what ScorePair returns on the same table; the counts are the old counts after exactly `EStepUpdates` in order; the translation table is not in the frame; if every key and slot had a count before, it still does |
| Model1Spec.EStepFrame | alignment_models/model1.cpp:88-117 | after the E-step the count keys are the old keys plus exactly (x, y) with x null or a source word and y the slot 0 or a target word; every other count is unchanged |
| Model1Spec.EStepDenominators | alignment_models/model1.cpp:88-93 | when no target word is 0, the count (x, 0) receives `weight` log-added once per occurrence of x in the source, plus once more for the null word |
| Model1Spec.EStepPairWrites | alignment_models/model1.cpp:110-117 | the E-step writes (x, t), t not 0, once per pairing of an occurrence of generator x with an occurrence of t, that is (occurrences of x in the source, plus one when x is the null word) times (occurrences of t in the target) times |
| Model1Spec.EStepPairShares | alignment_models/model1.cpp:110-117 | every E-step write to (x, t), t not 0, adds the same share T[x, t] - t_prob(t) + weight |
| Model1Spec.EStepPairCounts | alignment_models/model1.cpp:110-117 | the count (x, t), t not 0, ends as its old value with that share log-added (occurrences of x, plus one for the null word) times (occurrences of t) times |
| Alignment.Model1.MStep | alignment_models/model1.cpp:122-129 | the translation keys are unchanged; a missing count of a translation key is inserted as 0.0 and no other count changes; each entry becomes its count minus its source word's denominator, read from the counts before the call; when every key and slot had a count, the counts are unchanged and the table is exactly `Reestimate` of the old table |
| Model1Spec.InsertStep | alignment_models/model1.cpp:126 | reading `expected_counts_[k]` inserts 0.0 at a missing k and extends the set of inserted keys by k |
| Model1Spec.EntryStep | alignment_models/model1.cpp:124-128 | one iteration keeps the keys and gives k its log ratio under the counts before the call, with the one order-dependent case stated as two alternatives |
| Model1Spec.ReestimatedAll | alignment_models/model1.cpp:122-129 | when every translation key has a count, the M-step inserts nothing and yields `Reestimate`: every entry is c(s, t) - c(s) of the old counts |
| Model1Spec.SingleWordCorpus | alignment_models/model1.cpp:10-52 | a one-pair corpus with source word 1 and target word 1 starts with T[0, 1] = T[1, 1] = log(1) |
| Model1Spec.SingleWordScore | alignment_models/model1.cpp:54-71 | under that table the pair [1] / [1] scores LogAdd(log 1, log 1) + log(1 / 1) |

## Left out

- Floating point is not modelled. `log`, `MathUtil::LogAdd` and the miss value of `lookup` are parameters. Sums are exact real sums, so rounding, infinities and NaN are not captured.
- `util/math_util.h` and `alignment_models/model1.h` are not part of this model. This has four consequences:
  - Reads through `lookup` are modelled as reads that insert nothing: the entry, or the miss value when it is absent. Writes through `lookup` become map updates.
  - `TTable` is modelled as a map from (source id, target id) to a real.
  - The constructor is assumed to start with empty tables and zero vocabulary sizes.
  - The outer training loop that calls these methods is not in model1.cpp and is not modelled.
- `ParallelCorpus` is its two vocabulary sizes and a sequence of document pairs, each a pair of sequences of sentences. Its vocabulary containers are not modelled.
- `unordered_set` and `TTable` iteration orders are not modelled. The loops pick an arbitrary next element, so every result holds for every order.
- Alignment.Model1.MStep: states the new value of an entry whose source word's (s, 0) slot is itself a translation key missing from the counts only as one of two alternatives. The two are "minus the miss value" and "minus 0.0", because which one applies depends on whether (s, 0) was visited first.
- Alignment.Model1.InitDataStructures: requires only the source word ids to be below the source vocabulary size. These ids index `targets_per_source`; target ids are never used as an index.
- Alignment.Model1.InitSourceWord: does not compute `log(1.0 / size)` for a source word whose set is empty. model1.cpp computes it before the inner loop, but nothing uses it there.
- Model1Spec.AlignmentLogProb: for an empty target model1.cpp computes log(1 / 0) and never uses it. The model puts 0.0 there, so an empty target scores 0.0 in both.
