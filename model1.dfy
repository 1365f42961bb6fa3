/**
 * The IBM Model 1 trainer (alignment_models/model1.cpp): a translation table
 * and an expected-count table, both updated in place by
 * InitDataStructures, ClearExpectedCounts, EStep and MStep; ScorePair only
 * reads. Each method is proved to compute what Model1Spec defines.
 */
module Alignment {
  import opened LogDomain
  import opened SparseTable
  import opened Model1Spec

  /** The distinct words of a list of sentences, gathered position by
      position into a set. */
  method CollectWords(sentences: seq<Sentence>) returns (words: set<WordId>)
    ensures words == Words(sentences)
  {
    words := {};
    for j := 0 to |sentences|
      invariant words == Words(sentences[..j])
    {
      var sentence := sentences[j];
      for p := 0 to |sentence|
        invariant words == Words(sentences[..j]) + SentenceWords(sentence[..p])
      {
        assert sentence[..p + 1] == sentence[..p] + [sentence[p]];
        words := words + {sentence[p]};
      }
      assert sentence[..|sentence|] == sentence;
      assert sentences[..j + 1][..j] == sentences[..j];
    }
    assert sentences[..|sentences|] == sentences;
  }

  class Model1 {
    /** The log-domain primitives (log, LogAdd, the lookup-miss value). */
    const num: Numerics

    var sourceVocabSize: nat
    var targetVocabSize: nat

    /** t_table_: log translation probabilities, keyed (source id, target id). */
    var tTable: Table

    /** expected_counts_: log-domain soft counts; (s, 0) is source word s's
        denominator. */
    var expectedCounts: Table

    constructor (num: Numerics)
      ensures this.num == num
      ensures sourceVocabSize == 0 && targetVocabSize == 0
      ensures tTable == map[] && expectedCounts == map[]
    {
      this.num := num;
      sourceVocabSize, targetVocabSize := 0, 0;
      tTable, expectedCounts := map[], map[];
    }

    /** Every translation key, and every denominator slot (s, 0) of the
        source vocabulary, has an expected-count entry. */
    ghost predicate CountsCover()
      reads this
    {
      && tTable.Keys <= expectedCounts.Keys
      && forall s :: 0 <= s < sourceVocabSize ==> (s, 0) in expectedCounts
    }

    /** Builds the uniform starting translation table from co-occurrence in
        the document pairs. Entries already in the table are kept unless
        overwritten. */
    method InitDataStructures(pc: ParallelCorpus)
      requires SourceIdsInVocab(pc)
      modifies this
      ensures sourceVocabSize == pc.sourceVocabSize && targetVocabSize == pc.targetVocabSize
      ensures tTable == old(tTable) + InitTable(num, pc)
      ensures expectedCounts == old(expectedCounts)
    {
      sourceVocabSize := pc.sourceVocabSize;
      targetVocabSize := pc.targetVocabSize;
      // For each source word, the target words it can generate.
      var targetsPerSource := GatherTargets(pc);
      // The null word can generate every real target word.
      InitNullWord();
      // Each real source word: uniform over the targets it reaches.
      InitSourceWords(pc, targetsPerSource);
      UnionAssoc(old(tTable), NullEntries(num, pc.targetVocabSize), WordEntries(num, pc));
    }

    /** For each source word id below the vocabulary size, the set of target
        words that occur in a document pair together with it. */
    static method GatherTargets(pc: ParallelCorpus) returns (targetsPerSource: array<set<WordId>>)
      requires SourceIdsInVocab(pc)
      ensures fresh(targetsPerSource)
      ensures targetsPerSource.Length == pc.sourceVocabSize
      ensures forall s :: 0 <= s < targetsPerSource.Length ==> targetsPerSource[s] == Reach(pc.docs, s)
    {
      targetsPerSource := new set<WordId>[pc.sourceVocabSize](_ => {});
      for i := 0 to |pc.docs|
        modifies targetsPerSource
        invariant forall s :: 0 <= s < targetsPerSource.Length ==> targetsPerSource[s] == Reach(pc.docs[..i], s)
      {
        var doc := pc.docs[i];
        // All of the source and target words of the document pair.
        var sourceWords := CollectWords(doc.0);
        var targetWords := CollectWords(doc.1);
        forall w | w in sourceWords ensures 0 <= w < targetsPerSource.Length {
          WordsMembership(doc.0, w);
        }
        ghost var before := targetsPerSource[..];
        AddCoOccurrences(targetsPerSource, sourceWords, targetWords);
        forall s | 0 <= s < targetsPerSource.Length
          ensures targetsPerSource[s] == Reach(pc.docs[..i + 1], s)
        {
          assert pc.docs[..i + 1][..i] == pc.docs[..i];
          assert before[s] == Reach(pc.docs[..i], s);
        }
      }
      assert pc.docs[..|pc.docs|] == pc.docs;
    }

    /** Every target word of a document pair becomes reachable from every
        source word of it. */
    static method AddCoOccurrences(targetsPerSource: array<set<WordId>>, sourceWords: set<WordId>, targetWords: set<WordId>)
      requires forall w :: w in sourceWords ==> 0 <= w < targetsPerSource.Length
      modifies targetsPerSource
      ensures forall s :: 0 <= s < targetsPerSource.Length ==>
        targetsPerSource[s] == old(targetsPerSource[s]) + (if s in sourceWords then targetWords else {})
    {
      var restS := sourceWords;
      while restS != {}
        invariant restS <= sourceWords
        invariant forall s :: 0 <= s < targetsPerSource.Length ==>
          targetsPerSource[s] == old(targetsPerSource[s]) + (if s in sourceWords - restS then targetWords else {})
        decreases restS
      {
        SomeWord(restS);
        var s :| s in restS;
        var restT := targetWords;
        while restT != {}
          invariant restT <= targetWords
          invariant forall s' :: 0 <= s' < targetsPerSource.Length && s' != s ==>
            targetsPerSource[s'] == old(targetsPerSource[s']) + (if s' in sourceWords - restS then targetWords else {})
          invariant targetsPerSource[s] == old(targetsPerSource[s]) + (targetWords - restT)
          decreases restT
        {
          SomeWord(restT);
          var t :| t in restT;
          targetsPerSource[s] := targetsPerSource[s] + {t};
          restT := restT - {t};
        }
        restS := restS - {s};
      }
    }

    /** The null word's entries: log(1 / (V - 1)) for every target id 1..V-1. */
    method InitNullWord()
      modifies this`tTable
      ensures tTable == old(tTable) + NullEntries(num, targetVocabSize)
    {
      ghost var t0 := tTable;
      var t := 1;
      while t < targetVocabSize
        invariant 1 <= t
        invariant tTable == t0 + NullEntriesBelow(num, targetVocabSize, t)
      {
        NullEntriesStep(num, targetVocabSize, t0, tTable, t);
        tTable := tTable[(0, t) := num.log(1.0 / (targetVocabSize - 1) as real)];
        t := t + 1;
      }
      NullEntriesDone(num, targetVocabSize, t);
    }

    /** Each real source word s gets log(1 / n) for each of the n target words
        it co-occurs with. */
    method InitSourceWords(pc: ParallelCorpus, targetsPerSource: array<set<WordId>>)
      requires sourceVocabSize == pc.sourceVocabSize && targetsPerSource.Length == sourceVocabSize
      requires forall s :: 0 <= s < targetsPerSource.Length ==> targetsPerSource[s] == Reach(pc.docs, s)
      modifies this`tTable
      ensures tTable == old(tTable) + WordEntries(num, pc)
    {
      ghost var t1 := tTable;
      var s := 1;
      assert CoOccurrencesBelow(pc, 1, {}) == {};
      while s < sourceVocabSize
        invariant 1 <= s
        invariant tTable == t1 + WordEntriesOn(num, pc, CoOccurrencesBelow(pc, s, {}))
      {
        InitSourceWord(pc, s, targetsPerSource[s], t1);
        s := s + 1;
      }
      WordEntriesAll(num, pc, s);
    }

    /** The entries of one real source word `s`: log(1 / n) at (s, t) for each
        of the n targets it co-occurs with. */
    method InitSourceWord(pc: ParallelCorpus, s: WordId, targets: set<WordId>, ghost T0: Table)
      requires 1 <= s < pc.sourceVocabSize && targets == Reach(pc.docs, s)
      requires tTable == T0 + WordEntriesOn(num, pc, CoOccurrencesBelow(pc, s, {}))
      modifies this`tTable
      ensures tTable == T0 + WordEntriesOn(num, pc, CoOccurrencesBelow(pc, s + 1, {}))
    {
      // model1.cpp computes log(1 / size) here even for an empty set, where
      // the loop below never uses it.
      var rest := targets;
      while rest != {}
        invariant rest <= targets
        invariant tTable == T0 + WordEntriesOn(num, pc, CoOccurrencesBelow(pc, s, targets - rest))
        decreases rest
      {
        SomeWord(rest);
        var t :| t in rest;
        WordEntriesLoopStep(num, pc, T0, tTable, s, targets - rest, t);
        assert (targets - rest) + {t} == targets - (rest - {t});
        tTable := tTable[(s, t) := num.log(1.0 / |targets| as real)];
        rest := rest - {t};
      }
      assert targets - rest == targets;
      WordEntriesNext(num, pc, s);
    }

    /** t_prob for one target word: the null word's entry log-added with the
        entry of every source position, in order. ScorePair and EStep share
        this loop. */
    method TargetWordProb(source: Sentence, tw: WordId) returns (tProb: real)
      ensures tProb == WordProb(num, tTable, source, tw)
    {
      tProb := Lookup(tTable, (0, tw), num.miss);
      for s := 0 to |source|
        invariant tProb == WordProb(num, tTable, source[..s], tw)
      {
        WordProbStep(num, tTable, source, s, tw);
        tProb := num.logAdd(tProb, Lookup(tTable, (source[s], tw), num.miss));
      }
      assert source[..|source|] == source;
    }

    /** The log-likelihood of `target` given `source` under the current
        translation table. */
    method ScorePair(source: Sentence, target: Sentence) returns (result: real)
      ensures result == Score(num, tTable, source, target)
    {
      result := 0.0;
      // Every alignment of a target position is equally likely: log(1 / |target|).
      var alignmentProb := AlignmentLogProb(num, target);
      for t := 0 to |target|
        invariant result == ScoreSum(num, tTable, source, target[..t], alignmentProb)
      {
        var tProb := TargetWordProb(source, target[t]);
        ScoreSumStep(num, tTable, source, target, t, alignmentProb);
        result := result + (tProb + alignmentProb);
      }
      assert target[..|target|] == target;
    }

    /** Resets to -DBL_MAX the denominator slot of every source word of the
        vocabulary and the count of every translation key; other counts and
        the translation table are untouched. */
    method ClearExpectedCounts()
      modifies this`expectedCounts
      ensures expectedCounts == old(expectedCounts) + Fill(DenominatorSlots(sourceVocabSize) + tTable.Keys, NegDblMax)
      ensures CountsCover()
    {
      ghost var c0 := expectedCounts;
      for s := 0 to sourceVocabSize
        invariant expectedCounts == c0 + Fill(DenominatorSlots(s), NegDblMax)
      {
        FillAdd(c0, DenominatorSlots(s), (s, 0), NegDblMax);
        assert DenominatorSlots(s + 1) == DenominatorSlots(s) + {(s, 0)};
        expectedCounts := expectedCounts[(s, 0) := NegDblMax];
      }
      var rest := tTable.Keys;
      while rest != {}
        invariant rest <= tTable.Keys
        invariant expectedCounts == c0 + Fill(DenominatorSlots(sourceVocabSize) + (tTable.Keys - rest), NegDblMax)
        decreases rest
      {
        var k :| k in rest;
        ghost var done := DenominatorSlots(sourceVocabSize) + (tTable.Keys - rest);
        FillAdd(c0, done, k, NegDblMax);
        assert done + {k} == DenominatorSlots(sourceVocabSize) + (tTable.Keys - (rest - {k}));
        expectedCounts := expectedCounts[k := NegDblMax];
        rest := rest - {k};
      }
      assert tTable.Keys - rest == tTable.Keys;
      FillKeys(c0, DenominatorSlots(sourceVocabSize) + tTable.Keys, NegDblMax);
      assert forall s :: 0 <= s < sourceVocabSize ==> (s, 0) in DenominatorSlots(sourceVocabSize);
    }

    /** Step one of EStep: `weight` into the null word's denominator (0, 0),
        then into (source[s], 0) for each source position. */
    method AddDenominatorCounts(source: Sentence, weight: real)
      modifies this`expectedCounts
      ensures expectedCounts == Apply(num, old(expectedCounts), DenominatorUpdates(source, weight))
    {
      ghost var c0 := expectedCounts;
      expectedCounts := expectedCounts[(0, 0) := num.logAdd(Lookup(expectedCounts, (0, 0), num.miss), weight)];
      assert source[..0] == [];
      assert expectedCounts == Apply(num, c0, DenominatorUpdates(source[..0], weight));
      for s := 0 to |source|
        invariant expectedCounts == Apply(num, c0, DenominatorUpdates(source[..s], weight))
      {
        DenominatorStep(num, c0, expectedCounts, source, s, weight);
        expectedCounts := expectedCounts[(source[s], 0) := num.logAdd(Lookup(expectedCounts, (source[s], 0), num.miss), weight)];
      }
      assert source[..|source|] == source;
    }

    /** The counts for one target word `tw` with t_prob `tProb` as the
        denominator: T[0, tw] - tProb + weight into (0, tw), then
        T[s, tw] - tProb + weight into (s, tw) for each source position. */
    method AddTargetWordCounts(source: Sentence, tw: WordId, tProb: real, weight: real)
      modifies this`expectedCounts
      ensures expectedCounts == Apply(num, old(expectedCounts), GeneratorUpdates(num, tTable, source, tw, tProb, weight))
    {
      ghost var c0 := expectedCounts;
      // The null word's share of target word tw.
      expectedCounts := expectedCounts[(0, tw) :=
        num.logAdd(Lookup(expectedCounts, (0, tw), num.miss), Lookup(tTable, (0, tw), num.miss) - tProb + weight)];
      GeneratorStart(num, tTable, c0, source, tw, tProb, weight);
      for s := 0 to |source|
        invariant expectedCounts == Apply(num, c0, GeneratorUpdates(num, tTable, source[..s], tw, tProb, weight))
      {
        GeneratorStep(num, tTable, c0, expectedCounts, source, s, tw, tProb, weight);
        expectedCounts := expectedCounts[(source[s], tw) :=
          num.logAdd(Lookup(expectedCounts, (source[s], tw), num.miss), Lookup(tTable, (source[s], tw), num.miss) - tProb + weight)];
      }
      assert source[..|source|] == source;
    }

    /** Scores a sentence pair, returning what ScorePair returns, and adds its
        soft counts, weighted by `weight`, into the expected counts. */
    method EStep(source: Sentence, target: Sentence, weight: real) returns (result: real)
      modifies this`expectedCounts
      ensures result == Score(num, tTable, source, target)
      ensures expectedCounts == Apply(num, old(expectedCounts), EStepUpdates(num, tTable, source, target, weight))
      ensures old(CountsCover()) ==> CountsCover()
    {
      ghost var c0 := expectedCounts;
      // Denominators first: (0, 0) and each source position's (s, 0).
      AddDenominatorCounts(source, weight);
      ghost var c1 := expectedCounts;
      result := 0.0;
      // Every alignment of a target position is equally likely: log(1 / |target|).
      var alignmentProb := AlignmentLogProb(num, target);
      for t := 0 to |target|
        invariant result == ScoreSum(num, tTable, source, target[..t], alignmentProb)
        invariant expectedCounts == Apply(num, c1, PairUpdates(num, tTable, source, target[..t], weight))
      {
        var tProb := TargetWordProb(source, target[t]);
        ScoreSumStep(num, tTable, source, target, t, alignmentProb);
        result := result + (tProb + alignmentProb);
        AddTargetWordCounts(source, target[t], tProb, weight);
        PairStep(num, tTable, source, target, t, weight);
        ApplyAppend(num, c1, PairUpdates(num, tTable, source, target[..t], weight),
                    GeneratorUpdates(num, tTable, source, target[t], tProb, weight));
      }
      assert target[..|target|] == target;
      ApplyAppend(num, c0, DenominatorUpdates(source, weight), PairUpdates(num, tTable, source, target, weight));
      ApplyFrame(num, c0, EStepUpdates(num, tTable, source, target, weight));
    }

    /** Re-estimates every translation entry as its count over its source
        word's denominator, in the log domain; the keys stay the same. Reading
        a count with `expected_counts_[k]` inserts 0.0 for a missing key. */
    method MStep()
      modifies this`tTable, this`expectedCounts
      ensures CountsSoFar(old(expectedCounts), old(tTable).Keys, expectedCounts)
      ensures EntriesSoFar(num, old(tTable), old(expectedCounts), old(tTable).Keys, tTable)
      ensures old(CountsCover()) ==> expectedCounts == old(expectedCounts)
      ensures old(CountsCover()) ==> tTable == Reestimate(num, old(tTable), old(expectedCounts))
    {
      ghost var t0, c0 := tTable, expectedCounts;
      ghost var done: set<Key> := {};
      var rest := tTable.Keys;
      assert Fill({}, 0.0) == map[];
      assert c0 + map[] == c0;
      while rest != {}
        invariant rest == t0.Keys - done
        invariant CountsSoFar(c0, done, expectedCounts)
        invariant EntriesSoFar(num, t0, c0, done, tTable)
        decreases rest
      {
        var k :| k in rest;
        InsertStep(c0, done, expectedCounts, k);
        if k !in expectedCounts {
          expectedCounts := expectedCounts[k := 0.0];
        }
        EntryStep(num, t0, c0, done, tTable, expectedCounts, k);
        // The joint count minus the denominator: a quotient of counts, as logs.
        var ratio := expectedCounts[k] - Lookup(expectedCounts, (k.0, 0), num.miss);
        assert ratio == LogRatio(num, expectedCounts, k);
        tTable := tTable[k := ratio];
        rest := rest - {k};
        done := done + {k};
      }
      assert done == t0.Keys;
      if old(CountsCover()) {
        ReestimatedAll(num, t0, c0, tTable, expectedCounts);
      }
    }
  }
}
