/**
 * Reference definitions for what `score_corpus` computes, stated over the
 * flat list of model answers in the order the model was asked, and the lemmas
 * that connect them to the accumulators of the loop. With exact `real`
 * arithmetic the two-level sums of the loop equal the flat sums; with the
 * source's `float` accumulators they would differ in rounding only.
 */
module ScoreProperties {
  import opened Score

  /** The model's answers to `calls`, in order. */
  function Responses(lm: LanguageModel, calls: seq<Call>): (ws: seq<WordScore>)
    ensures |ws| == |calls|
  {
    seq(|calls|, j requires 0 <= j < |calls| => lm.score(calls[j].context, calls[j].word))
  }

  /** The words passed to the model by `calls`, in order. */
  function Words(calls: seq<Call>): seq<Word>
  {
    seq(|calls|, j requires 0 <= j < |calls| => calls[j].word)
  }

  /** All words of the first `k` lines, one line after another. */
  function Flatten(corpus: seq<seq<Word>>, k: nat): seq<Word>
    requires k <= |corpus|
  {
    if k == 0 then [] else Flatten(corpus, k - 1) + corpus[k - 1]
  }

  function Log10Prob(w: WordScore): real { w.log10Prob }
  function OOVLog10Prob(w: WordScore): real { if w.oov then w.log10Prob else 0.0 }
  function InVocabLog10Prob(w: WordScore): real { if w.oov then 0.0 else w.log10Prob }
  predicate IsOOV(w: WordScore) { w.oov }
  predicate InVocab(w: WordScore) { !w.oov }

  /** The sum of `f` over `ws`. */
  function Sum(ws: seq<WordScore>, f: WordScore -> real): real
  {
    if ws == [] then 0.0 else Sum(ws[..|ws| - 1], f) + f(ws[|ws| - 1])
  }

  /** The number of elements of `ws` that satisfy `p`. */
  function Count(ws: seq<WordScore>, p: WordScore -> bool): nat
  {
    if ws == [] then 0 else Count(ws[..|ws| - 1], p) + (if p(ws[|ws| - 1]) then 1 else 0)
  }

  /** The contract the model's state is assumed to meet on the lines of
      `corpus`: after `init()` and the words of a line, its 64-bit OOV counter
      is the number of those words the model marked OOV, modulo 2^64 (a
      `uint64_t` incremented once per OOV word). */
  ghost predicate CountsFlaggedWords(lm: LanguageModel, corpus: seq<seq<Word>>)
  {
    forall k :: 0 <= k < |corpus| ==> lm.oovs(corpus[k]) as int == FlaggedIn(lm, corpus[k]) % U64
  }

  /** How many of the words `context`, scored one after another after
      `init()`, the model marks OOV. */
  function FlaggedIn(lm: LanguageModel, context: seq<Word>): nat
  {
    Count(Responses(lm, LineCalls(context, |context|)), IsOOV)
  }

  // Sums and counts over concatenations.

  lemma {:induction false} SumAppend(a: seq<WordScore>, b: seq<WordScore>, f: WordScore -> real)
    ensures Sum(a + b, f) == Sum(a, f) + Sum(b, f)
    decreases |b|
  {
    if b == [] {
      assert a + b == a;
    } else {
      assert (a + b)[..|a + b| - 1] == a + b[..|b| - 1];
      SumAppend(a, b[..|b| - 1], f);
    }
  }

  lemma {:induction false} CountAppend(a: seq<WordScore>, b: seq<WordScore>, p: WordScore -> bool)
    ensures Count(a + b, p) == Count(a, p) + Count(b, p)
    decreases |b|
  {
    if b == [] {
      assert a + b == a;
    } else {
      assert (a + b)[..|a + b| - 1] == a + b[..|b| - 1];
      CountAppend(a, b[..|b| - 1], p);
    }
  }

  lemma ResponsesAppend(lm: LanguageModel, a: seq<Call>, b: seq<Call>)
    ensures Responses(lm, a + b) == Responses(lm, a) + Responses(lm, b)
  {
  }

  /** The total mass splits into the OOV part and the in-vocabulary part. */
  lemma {:induction false} SumSplit(ws: seq<WordScore>)
    ensures Sum(ws, Log10Prob) == Sum(ws, OOVLog10Prob) + Sum(ws, InVocabLog10Prob)
  {
    if ws != [] {
      SumSplit(ws[..|ws| - 1]);
    }
  }

  /** Every answer is either OOV or in-vocabulary. */
  lemma {:induction false} CountSplit(ws: seq<WordScore>)
    ensures Count(ws, IsOOV) + Count(ws, InVocab) == |ws|
  {
    if ws != [] {
      CountSplit(ws[..|ws| - 1]);
    }
  }

  /** No element satisfies `p` exactly when the count is zero. */
  lemma {:induction false} CountZero(ws: seq<WordScore>, p: WordScore -> bool)
    ensures Count(ws, p) == 0 <==> forall j :: 0 <= j < |ws| ==> !p(ws[j])
  {
    if ws != [] {
      var init := ws[..|ws| - 1];
      CountZero(init, p);
      assert forall j :: 0 <= j < |init| ==> init[j] == ws[j];
    }
  }

  /** Without OOV answers there is no OOV mass. */
  lemma {:induction false} NoOOVsNoOOVMass(ws: seq<WordScore>)
    requires Count(ws, IsOOV) == 0
    ensures Sum(ws, OOVLog10Prob) == 0.0
  {
    if ws != [] {
      NoOOVsNoOOVMass(ws[..|ws| - 1]);
    }
  }

  // What the loop asks the model.

  /** The `i`-th call for a line scores its `i`-th word with exactly the words
      before it in the same line as context. */
  lemma {:induction false} LineCallsAt(line: seq<Word>, n: nat, i: nat)
    requires n <= |line| && i < n
    ensures |LineCalls(line, n)| == n
    ensures LineCalls(line, n)[i] == Call(line[..i], line[i])
  {
    if i < n - 1 {
      LineCallsAt(line, n - 1, i);
    } else {
      LineCallsLength(line, n - 1);
    }
  }

  lemma {:induction false} LineCallsLength(line: seq<Word>, n: nat)
    requires n <= |line|
    ensures |LineCalls(line, n)| == n
  {
    if n > 0 {
      LineCallsLength(line, n - 1);
    }
  }

  /** The words of a line are fed to the model in order, each exactly once. */
  lemma {:induction false} LineCallsWords(line: seq<Word>, n: nat)
    requires n <= |line|
    ensures Words(LineCalls(line, n)) == line[..n]
  {
    if n > 0 {
      LineCallsWords(line, n - 1);
      LineCallsLength(line, n - 1);
      assert line[..n] == line[..n - 1] + [line[n - 1]];
    }
  }

  /** Over the whole run, the words fed to the model are the corpus's words,
      line after line, each exactly once and in order. */
  lemma {:induction false} CallsFeedCorpusInOrder(corpus: seq<seq<Word>>, k: nat)
    requires k <= |corpus|
    ensures Words(Calls(corpus, k)) == Flatten(corpus, k)
    ensures |Calls(corpus, k)| == TotalWords(corpus, k)
  {
    if k > 0 {
      var line := corpus[k - 1];
      var before, now := Calls(corpus, k - 1), LineCalls(line, |line|);
      CallsFeedCorpusInOrder(corpus, k - 1);
      LineCallsWords(line, |line|);
      LineCallsLength(line, |line|);
      assert line[..|line|] == line;
      assert Calls(corpus, k) == before + now;
      WordsAppend(before, now);
    }
  }

  lemma WordsAppend(a: seq<Call>, b: seq<Call>)
    ensures Words(a + b) == Words(a) + Words(b)
  {
  }

  // The accumulators against the flat reference.

  lemma {:induction false} SentenceLog10ProbIsSum(lm: LanguageModel, line: seq<Word>, n: nat)
    requires n <= |line|
    ensures SentenceLog10Prob(lm, line, n) == Sum(Responses(lm, LineCalls(line, n)), Log10Prob)
  {
    if n > 0 {
      var c := Call(line[..n - 1], line[n - 1]);
      SentenceLog10ProbIsSum(lm, line, n - 1);
      ResponsesAppend(lm, LineCalls(line, n - 1), [c]);
      SumAppend(Responses(lm, LineCalls(line, n - 1)), Responses(lm, [c]), Log10Prob);
    }
  }

  lemma {:induction false} OnlyOOVsFoldIsSum(lm: LanguageModel, acc: real, line: seq<Word>, n: nat)
    requires n <= |line|
    ensures OnlyOOVsFold(lm, acc, line, n) == acc + Sum(Responses(lm, LineCalls(line, n)), OOVLog10Prob)
  {
    if n > 0 {
      var c := Call(line[..n - 1], line[n - 1]);
      OnlyOOVsFoldIsSum(lm, acc, line, n - 1);
      ResponsesAppend(lm, LineCalls(line, n - 1), [c]);
      SumAppend(Responses(lm, LineCalls(line, n - 1)), Responses(lm, [c]), OOVLog10Prob);
    }
  }

  /** `tot_log10_prob` is the sum of every log10 probability the model returned
      over the run. */
  lemma {:induction false} TotLog10ProbIsSumOfAnswers(lm: LanguageModel, corpus: seq<seq<Word>>, k: nat)
    requires k <= |corpus|
    ensures TotLog10Prob(lm, corpus, k) == Sum(Responses(lm, Calls(corpus, k)), Log10Prob)
  {
    if k > 0 {
      var line := corpus[k - 1];
      TotLog10ProbIsSumOfAnswers(lm, corpus, k - 1);
      SentenceLog10ProbIsSum(lm, line, |line|);
      ResponsesAppend(lm, Calls(corpus, k - 1), LineCalls(line, |line|));
      SumAppend(Responses(lm, Calls(corpus, k - 1)), Responses(lm, LineCalls(line, |line|)), Log10Prob);
    }
  }

  /** `tot_log10_prob_only_OOVs` is the sum of the log10 probabilities of
      exactly the answers the model marked OOV; the others add nothing. */
  lemma {:induction false} OnlyOOVsIsSumOfOOVAnswers(lm: LanguageModel, corpus: seq<seq<Word>>, k: nat)
    requires k <= |corpus|
    ensures TotLog10ProbOnlyOOVs(lm, corpus, k) == Sum(Responses(lm, Calls(corpus, k)), OOVLog10Prob)
  {
    if k > 0 {
      var line := corpus[k - 1];
      OnlyOOVsIsSumOfOOVAnswers(lm, corpus, k - 1);
      OnlyOOVsFoldIsSum(lm, TotLog10ProbOnlyOOVs(lm, corpus, k - 1), line, |line|);
      ResponsesAppend(lm, Calls(corpus, k - 1), LineCalls(line, |line|));
      SumAppend(Responses(lm, Calls(corpus, k - 1)), Responses(lm, LineCalls(line, |line|)), OOVLog10Prob);
    }
  }

  /** The numerator of the "excluding OOVs" perplexity is the mass of the
      in-vocabulary answers. */
  lemma ExcludingOOVsNumerator(lm: LanguageModel, corpus: seq<seq<Word>>)
    ensures TotLog10Prob(lm, corpus, |corpus|) - TotLog10ProbOnlyOOVs(lm, corpus, |corpus|)
         == Sum(Responses(lm, Calls(corpus, |corpus|)), InVocabLog10Prob)
  {
    TotLog10ProbIsSumOfAnswers(lm, corpus, |corpus|);
    OnlyOOVsIsSumOfOOVAnswers(lm, corpus, |corpus|);
    SumSplit(Responses(lm, Calls(corpus, |corpus|)));
  }

  /** Under the state's contract, `tot_OOVs`, the per-sentence counters
      summed in 64-bit arithmetic, is the number of answers marked OOV modulo
      2^64: nothing is lost or counted twice at a sentence boundary. */
  lemma {:induction false} SumOOVsCountsOOVAnswers(lm: LanguageModel, corpus: seq<seq<Word>>, k: nat)
    requires CountsFlaggedWords(lm, corpus)
    requires k <= |corpus|
    ensures SumOOVs(lm, corpus, k) % U64 == Count(Responses(lm, Calls(corpus, k)), IsOOV) % U64
  {
    if k > 0 {
      var line := corpus[k - 1];
      var s := SumOOVs(lm, corpus, k - 1);
      var c := Count(Responses(lm, Calls(corpus, k - 1)), IsOOV);
      var f := FlaggedIn(lm, line);
      SumOOVsCountsOOVAnswers(lm, corpus, k - 1);
      assert lm.oovs(line) as int == f % U64;
      ResponsesAppend(lm, Calls(corpus, k - 1), LineCalls(line, |line|));
      CountAppend(Responses(lm, Calls(corpus, k - 1)), Responses(lm, LineCalls(line, |line|)), IsOOV);
      assert SumOOVs(lm, corpus, k) == s + f % U64;
      assert Count(Responses(lm, Calls(corpus, k)), IsOOV) == c + f;
      WrappedAddStep(s, c, f);
    }
  }

  /** Adding `f` reduced modulo 2^64 to one of two numbers that agree modulo
      2^64, and `f` itself to the other, keeps them in agreement. */
  lemma WrappedAddStep(s: int, c: int, f: int)
    requires s % U64 == c % U64
    ensures (s + f % U64) % U64 == (c + f) % U64
  {
    ModAdd(f, s);
    ModAdd(s, f);
    ModAdd(c, f);
  }

  /** Under the state's contract and without 64-bit overflow of the token
      count, `tot_OOVs` is exactly the number of answers marked OOV. */
  lemma TotOOVsIsOOVCount(lm: LanguageModel, corpus: seq<seq<Word>>)
    requires CountsFlaggedWords(lm, corpus)
    requires TotalWords(corpus, |corpus|) < U64
    ensures SumOOVs(lm, corpus, |corpus|) % U64 == Count(Responses(lm, Calls(corpus, |corpus|)), IsOOV)
  {
    var ws := Responses(lm, Calls(corpus, |corpus|));
    SumOOVsCountsOOVAnswers(lm, corpus, |corpus|);
    CallsFeedCorpusInOrder(corpus, |corpus|);
    CountSplit(ws);
    assert 0 <= Count(ws, IsOOV) < U64;
  }

  /** With `tot_OOVs` zero (and no 64-bit overflow of the token count) the
      OOV-only mass is zero, so both perplexities have the same numerator and
      the same denominator. */
  lemma NoOOVsNoOOVOnlyMass(lm: LanguageModel, corpus: seq<seq<Word>>)
    requires CountsFlaggedWords(lm, corpus)
    requires TotalWords(corpus, |corpus|) < U64
    requires SumOOVs(lm, corpus, |corpus|) % U64 == 0
    ensures TotLog10ProbOnlyOOVs(lm, corpus, |corpus|) == 0.0
  {
    TotOOVsIsOOVCount(lm, corpus);
    NoOOVsNoOOVMass(Responses(lm, Calls(corpus, |corpus|)));
    OnlyOOVsIsSumOfOOVAnswers(lm, corpus, |corpus|);
  }

  /** Under the state's contract and without 64-bit overflow, the denominator
      `corpus_tokens - tot_OOVs` of the "excluding OOVs" perplexity is the
      number of in-vocabulary words. */
  lemma ExcludingOOVsDenominator(lm: LanguageModel, corpus: seq<seq<Word>>)
    requires CountsFlaggedWords(lm, corpus)
    requires TotalWords(corpus, |corpus|) < U64
    ensures (CorpusTokens(corpus) as int - (SumOOVs(lm, corpus, |corpus|) % U64) as u64 as int) % U64
         == Count(Responses(lm, Calls(corpus, |corpus|)), InVocab)
  {
    var ws := Responses(lm, Calls(corpus, |corpus|));
    var tokens := TotalWords(corpus, |corpus|);
    var oovs := Count(ws, IsOOV);
    TokensAndOOVs(lm, corpus);
    assert CorpusTokens(corpus) as int == tokens;
    assert (SumOOVs(lm, corpus, |corpus|) % U64) as u64 as int == oovs;
    WrappedDifference(tokens, oovs);
  }

  /** Under the state's contract and without 64-bit overflow, every word is
      either counted in `tot_OOVs` or in-vocabulary. */
  lemma TokensAndOOVs(lm: LanguageModel, corpus: seq<seq<Word>>)
    requires CountsFlaggedWords(lm, corpus)
    requires TotalWords(corpus, |corpus|) < U64
    ensures var ws := Responses(lm, Calls(corpus, |corpus|));
            && SumOOVs(lm, corpus, |corpus|) % U64 == Count(ws, IsOOV)
            && Count(ws, IsOOV) + Count(ws, InVocab) == TotalWords(corpus, |corpus|)
  {
    TotOOVsIsOOVCount(lm, corpus);
    CallsFeedCorpusInOrder(corpus, |corpus|);
    CountSplit(Responses(lm, Calls(corpus, |corpus|)));
  }

  lemma WrappedDifference(a: int, b: int)
    requires 0 <= b <= a < U64
    ensures (a - b) % U64 == a - b
  {
  }

  /** Under the state's contract and without 64-bit overflow, the "perplexity
      excluding OOVs" line is omitted exactly when every word of the corpus was
      marked OOV. */
  lemma ExcludingOOVsOmittedIffAllOOV(lm: LanguageModel, corpus: seq<seq<Word>>)
    requires CountsFlaggedWords(lm, corpus)
    requires TotalWords(corpus, |corpus|) < U64
    ensures var ws := Responses(lm, Calls(corpus, |corpus|));
            !EmitsPerplexityExcludingOOVs(CorpusTokens(corpus), (SumOOVs(lm, corpus, |corpus|) % U64) as u64)
            <==> forall j :: 0 <= j < |ws| ==> ws[j].oov
  {
    var ws := Responses(lm, Calls(corpus, |corpus|));
    ExcludingOOVsDenominator(lm, corpus);
    CountZero(ws, InVocab);
  }

  /** An oracle for a two-word vocabulary: "a" and "b" are known, "c" is OOV,
      and the state counts the OOV words it has seen. */
  function ExampleModel(): LanguageModel
  {
    LanguageModel(
      (context: seq<Word>, w: Word) =>
        if w == "c" then WordScore(-2.0, true)
        else if w == "a" then WordScore(-0.2, false)
        else WordScore(-0.1, false),
      (context: seq<Word>) => (multiset(context)["c"] % U64) as u64)
  }

  /** The example oracle meets the state's contract on the corpus "a b" / "c",
      where every word but the last is known. */
  lemma ExampleModelCountsOOVs()
    ensures CountsFlaggedWords(ExampleModel(), [["a", "b"], ["c"]])
    ensures Count(Responses(ExampleModel(), Calls([["a", "b"], ["c"]], 2)), InVocab) == 2
  {
    var lm, corpus := ExampleModel(), [["a", "b"], ["c"]];
    assert "a"[0] != "c"[0] && "b"[0] != "c"[0];
    assert corpus[0][..0] == [] && corpus[0][..1] == ["a"] && corpus[1][..0] == [];
    var first := Responses(lm, LineCalls(corpus[0], 2));
    var second := Responses(lm, LineCalls(corpus[1], 1));
    assert first == [WordScore(-0.2, false), WordScore(-0.1, false)];
    assert second == [WordScore(-2.0, true)];
    assert first[..1][..0] == [] && second[..0] == [];
    assert Count(first[..1], IsOOV) == 0;
    assert Count(first, IsOOV) == 0;
    assert Count(second, IsOOV) == Count([], IsOOV) + 1;
    assert multiset(corpus[0])["c"] == 0 && multiset(corpus[1])["c"] == 1;
    ResponsesAppend(lm, LineCalls(corpus[0], 2), LineCalls(corpus[1], 1));
    assert Calls(corpus, 2) == LineCalls(corpus[0], 2) + LineCalls(corpus[1], 1);
    CountAppend(first, second, InVocab);
    assert Count(first, InVocab) == 2 && Count(second, InVocab) == 0;
  }

  /** A two-line corpus whose second line is a single OOV word: what a caller
      of `ScoreCorpus` can conclude from its contract alone. */
  method TwoLineExample()
  {
    var lm := ExampleModel();
    var corpus := [["a", "b"], ["c"]];
    var stats, calls := ScoreCorpus(lm, corpus);
    assert corpus[0][..0] == [] && corpus[0][..1] == ["a"] && corpus[1][..0] == [];
    assert "a"[0] != "c"[0] && "b"[0] != "c"[0] && "b"[0] != "a"[0];
    assert SentenceLog10Prob(lm, corpus[0], 2) == -0.3;
    assert SentenceLog10Prob(lm, corpus[1], 1) == -2.0;
    assert OnlyOOVsFold(lm, 0.0, corpus[0], 2) == 0.0;
    assert stats.totLog10Prob == -2.3;
    assert stats.totLog10ProbOnlyOOVs == -2.0;
    assert multiset(corpus[1])["c"] == 1;
    assert stats.totOOVs == 1 && stats.corpusSentences == 2;
    assert CorpusTokens(corpus) == 3;
    assert EmitsPerplexityExcludingOOVs(CorpusTokens(corpus), stats.totOOVs);

    // The oracle counts its OOV answers, so the lemmas about the OOV count
    // apply: the "excluding OOVs" denominator is the two known words.
    ExampleModelCountsOOVs();
    ExcludingOOVsDenominator(lm, corpus);
    assert (CorpusTokens(corpus) as int - stats.totOOVs as int) % U64 == 2;
  }
}
