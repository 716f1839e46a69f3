/**
 * The corpus-scoring loop of tongrams' `score` tool: it drives a language model
 * over every line (sentence) of a corpus, word by word, and accumulates the
 * log10-probability mass, the mass of the out-of-vocabulary (OOV) words, the
 * OOV count and the sentence count. It then decides whether the
 * "perplexity excluding OOVs" figure is reported.
 *
 * The language model is an oracle. Single-precision float accumulation is
 * modelled with `real`; the 64-bit unsigned counters wrap explicitly.
 */
module Score {

  const U64: int := 0x1_0000_0000_0000_0000

  /** The source's `uint64_t`. */
  newtype u64 = x: int | 0 <= x < 0x1_0000_0000_0000_0000

  /** A word of a corpus line (the stream's byte range). */
  type Word = seq<char>

  /** What one call of the model's `score` yields: the word's log10 probability
      given its context, and whether the model marks the word out-of-vocabulary. */
  datatype WordScore = WordScore(log10Prob: real, oov: bool)

  /** One call of the model's `score`: the words scored since the state's last
      `init()`, and the word scored now. */
  datatype Call = Call(context: seq<Word>, word: Word)

  /** The statistics `score_corpus` accumulates. */
  datatype Stats = Stats(
    totOOVs: u64,
    corpusSentences: u64,
    totLog10Prob: real,
    totLog10ProbOnlyOOVs: real)

  /** The scoring state the model hands out. Its context window is modelled as
      every word scored since the last `Init`, in order; its OOV counter is
      whatever the model reports for that context. */
  class ScoringState {
    const lm: LanguageModel
    var context: seq<Word>

    constructor (lm: LanguageModel)
      ensures this.lm == lm && context == []
    {
      this.lm := lm;
      context := [];
    }

    /** `state.init()`: a fresh sentence starts with an empty context. */
    method Init()
      modifies this
      ensures context == []
    {
      context := [];
    }

    /** `state.OOVs` */
    function OOVs(): u64
      reads this
    {
      lm.oovs(context)
    }
  }

  /** The language model as an oracle. `score(context, w)` is what the model
      answers for word `w` after the words `context` since `init()`;
      `oovs(context)` is the state's OOV counter after those words. */
  datatype LanguageModel = LanguageModel(
    score: (seq<Word>, Word) -> WordScore,
    oovs: seq<Word> -> u64)
  {
    /** `model.state()` */
    method State() returns (state: ScoringState)
      ensures fresh(state) && state.lm == this && state.context == []
    {
      state := new ScoringState(this);
    }

    /** `model.score(state, word, is_OOV)`: answers for `word` in the state's
        context, appends `word` to that context, and sets the caller's flag when
        the word is OOV. The oracle is modelled to only ever set the flag, never
        to clear it. */
    method Score(state: ScoringState, word: Word, isOOV: bool) returns (log10Prob: real, isOOV': bool)
      requires state.lm == this
      modifies state
      ensures state.context == old(state.context) + [word]
      ensures log10Prob == score(old(state.context), word).log10Prob
      ensures isOOV' == (isOOV || score(old(state.context), word).oov)
    {
      var r := score(state.context, word);
      state.context := state.context + [word];
      log10Prob := r.log10Prob;
      isOOV' := isOOV || r.oov;
    }
  }

  // Specification of the accumulators, each a left fold in the order the
  // source evaluates its additions.

  /** `sentence_log10_prob` after the first `n` words of `line`. */
  function SentenceLog10Prob(lm: LanguageModel, line: seq<Word>, n: nat): real
    requires n <= |line|
  {
    if n == 0 then 0.0
    else SentenceLog10Prob(lm, line, n - 1) + lm.score(line[..n - 1], line[n - 1]).log10Prob
  }

  /** The run-wide OOV-only accumulator, starting at `acc`, after the first `n`
      words of `line`: only the words the model marks OOV are added. */
  function OnlyOOVsFold(lm: LanguageModel, acc: real, line: seq<Word>, n: nat): real
    requires n <= |line|
  {
    if n == 0 then acc
    else
      var a := OnlyOOVsFold(lm, acc, line, n - 1);
      var w := lm.score(line[..n - 1], line[n - 1]);
      if w.oov then a + w.log10Prob else a
  }

  /** `tot_log10_prob` after the first `k` lines: the sentence sums, added one
      sentence at a time. */
  function TotLog10Prob(lm: LanguageModel, corpus: seq<seq<Word>>, k: nat): real
    requires k <= |corpus|
  {
    if k == 0 then 0.0
    else TotLog10Prob(lm, corpus, k - 1) + SentenceLog10Prob(lm, corpus[k - 1], |corpus[k - 1]|)
  }

  /** `tot_log10_prob_only_OOVs` after the first `k` lines. */
  function TotLog10ProbOnlyOOVs(lm: LanguageModel, corpus: seq<seq<Word>>, k: nat): real
    requires k <= |corpus|
  {
    if k == 0 then 0.0
    else OnlyOOVsFold(lm, TotLog10ProbOnlyOOVs(lm, corpus, k - 1), corpus[k - 1], |corpus[k - 1]|)
  }

  /** The sum, without wrap-around, of the OOV counter read after each of the
      first `k` lines. */
  function SumOOVs(lm: LanguageModel, corpus: seq<seq<Word>>, k: nat): nat
    requires k <= |corpus|
  {
    if k == 0 then 0 else SumOOVs(lm, corpus, k - 1) + lm.oovs(corpus[k - 1]) as int
  }

  /** The number of words in the first `k` lines. */
  function TotalWords(corpus: seq<seq<Word>>, k: nat): nat
    requires k <= |corpus|
  {
    if k == 0 then 0 else TotalWords(corpus, k - 1) + |corpus[k - 1]|
  }

  /** The calls of `score` for the first `n` words of a line: each word once,
      in order, with the words before it as context. */
  function LineCalls(line: seq<Word>, n: nat): seq<Call>
    requires n <= |line|
  {
    if n == 0 then [] else LineCalls(line, n - 1) + [Call(line[..n - 1], line[n - 1])]
  }

  /** The calls of `score` for the first `k` lines, in order. */
  function Calls(corpus: seq<seq<Word>>, k: nat): seq<Call>
    requires k <= |corpus|
  {
    if k == 0 then [] else Calls(corpus, k - 1) + LineCalls(corpus[k - 1], |corpus[k - 1]|)
  }

  /** `corpus.num_words()`, a 64-bit count of the words read. */
  function CorpusTokens(corpus: seq<seq<Word>>): u64
  {
    (TotalWords(corpus, |corpus|) % U64) as u64
  }

  /** Adding to a counter already reduced modulo 2^64 is adding and reducing. */
  lemma ModAdd(a: int, b: int)
    ensures (a % U64 + b) % U64 == (a + b) % U64
  {
  }

  /** `score_corpus`, lines 22-61: the nested scoring loop. The ghost `calls`
      records every call of the model's `score`, in order. */
  method ScoreCorpus(lm: LanguageModel, corpus: seq<seq<Word>>) returns (stats: Stats, ghost calls: seq<Call>)
    ensures stats.totLog10Prob == TotLog10Prob(lm, corpus, |corpus|)
    ensures stats.totLog10ProbOnlyOOVs == TotLog10ProbOnlyOOVs(lm, corpus, |corpus|)
    ensures stats.totOOVs as int == SumOOVs(lm, corpus, |corpus|) % U64
    ensures stats.corpusSentences as int == |corpus| % U64
    ensures corpus == [] ==> stats == Stats(0, 0, 0.0, 0.0)
    ensures calls == Calls(corpus, |corpus|)
  {
    var totOOVs: u64 := 0;
    var corpusSentences: u64 := 0;
    var totLog10Prob: real := 0.0;
    var totLog10ProbOnlyOOVs: real := 0.0;
    var state := lm.State();
    calls := [];

    var k := 0;
    while k < |corpus|
      invariant k <= |corpus|
      invariant state.lm == lm
      invariant totOOVs as int == SumOOVs(lm, corpus, k) % U64
      invariant corpusSentences as int == k % U64
      invariant totLog10Prob == TotLog10Prob(lm, corpus, k)
      invariant totLog10ProbOnlyOOVs == TotLog10ProbOnlyOOVs(lm, corpus, k)
      invariant calls == Calls(corpus, k)
    {
      state.Init();
      var sentenceLog10Prob: real := 0.0;
      var isOOV := false;

      var line := corpus[k];
      var i := 0;
      while i < |line|
        invariant i <= |line|
        invariant state.lm == lm && state.context == line[..i]
        invariant !isOOV
        invariant sentenceLog10Prob == SentenceLog10Prob(lm, line, i)
        invariant totLog10ProbOnlyOOVs == OnlyOOVsFold(lm, TotLog10ProbOnlyOOVs(lm, corpus, k), line, i)
        invariant calls == Calls(corpus, k) + LineCalls(line, i)
      {
        var word := line[i];
        calls := calls + [Call(state.context, word)];
        var log10Prob;
        log10Prob, isOOV := lm.Score(state, word, isOOV);

        sentenceLog10Prob := sentenceLog10Prob + log10Prob;
        if isOOV {
          totLog10ProbOnlyOOVs := totLog10ProbOnlyOOVs + log10Prob;
          isOOV := false;
        }
        i := i + 1;
      }
      assert line[..i] == line;

      ModAdd(SumOOVs(lm, corpus, k), state.OOVs() as int);
      totOOVs := ((totOOVs as int + state.OOVs() as int) % U64) as u64;
      totLog10Prob := totLog10Prob + sentenceLog10Prob;
      ModAdd(k, 1);
      corpusSentences := ((corpusSentences as int + 1) % U64) as u64;
      k := k + 1;
    }
    stats := Stats(totOOVs, corpusSentences, totLog10Prob, totLog10ProbOnlyOOVs);
  }

  /** Line 72, `if (corpus_tokens - tot_OOVs)`: the unsigned 64-bit difference
      is non-zero, so the "perplexity excluding OOVs" line is reported, exactly
      when the two counts differ. */
  function EmitsPerplexityExcludingOOVs(corpusTokens: u64, totOOVs: u64): (emit: bool)
    ensures emit <==> corpusTokens != totOOVs
  {
    (corpusTokens as int - totOOVs as int) % U64 != 0
  }
}
