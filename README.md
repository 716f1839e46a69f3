# tongrams `score`: the corpus-scoring loop

tongrams' `score` tool measures how well a trained n-gram language model
predicts a text corpus. It works through the corpus one line (sentence) at a
time. For each line it resets the model's scoring state and scores the words
in order. It adds every word's log10 probability to a sentence sum. It also
adds the log10 probability of each word the model marks out-of-vocabulary
(OOV) to a separate OOV-only total. At the end of the line it folds the
sentence sum, the state's OOV counter and a sentence tally into run-wide
totals. Finally it reports the totals and two perplexities. The
"perplexity excluding OOVs" line is reported only when the token count
differs from the OOV count.

This project models that loop (`score_corpus`, `src/score.cpp`) and the
reporting guard, and proves what the totals mean.

- `score.dfy`, module `Score`: the loop as the method `ScoreCorpus`. It has
  nested `while` loops over the lines and their words. The scoring state is a
  class (`ScoringState`) that `Init` resets. The language model is an oracle
  (`LanguageModel`) that answers each `Score` call. The method is proved
  against left-fold specification functions that add in the same order as
  the source. One fold sums each sentence and then adds the sentence sums
  (`SentenceLog10Prob`, `TotLog10Prob`). Another adds flagged words straight
  into the run-wide OOV-only total (`OnlyOOVsFold`, `TotLog10ProbOnlyOOVs`).
  The 64-bit counters wrap explicitly modulo 2^64.
- `score_properties.dfy`, module `ScoreProperties`: independent reference
  definitions. These are the list of calls made to the model and the flat
  list of its answers, with sums and counts over that list. The lemmas
  connect the loop's accumulators to these definitions.

The language model is an oracle with two parts:

- `score(context, w)` gives the log10 probability of word `w` and its OOV
  mark, given the words `context` scored since the last `init()`.
- `oovs(context)` is the state's OOV counter after those words.

The state's opaque context window is modelled as the full list of words
scored since `init()`. A lemma proves that the loop feeds the model every
word of the corpus exactly once, in order, with the preceding words of the
same line as context. Every other claim is stated for any oracle.

The lemmas about the OOV count also assume a contract for the model's state
on the lines it is given (`CountsFlaggedWords`). After `init()` and the words
of a line, the state's 64-bit counter holds the number of those words the
model marked OOV, modulo 2^64, as a `uint64_t` incremented once per OOV word
would. Where a lemma needs exact counts rather than counts modulo 2^64, it
also requires that the corpus has fewer than 2^64 words.

The oracle's `Score` is modelled to only ever set the caller's `is_OOV` flag,
never to clear it. In the loop the flag is a local variable, set to false at
the start of every sentence (line 35) and cleared right after an OOV word is
counted (line 51); `init()` does not touch it. The inner loop's invariant
`!isOOV` records that the flag is false before every call. So each word
counts toward the OOV-only total only when the model flags it on that word's
own call. With this invariant, a model that also clears the flag would give
the same totals.

## Model

| member | source | states |
|---|---|---|
| `Score.ScoreCorpus` | src/score.cpp:22-61 | after the run, `tot_log10_prob` is the sum of the sentence sums and `tot_log10_prob_only_OOVs` is the run-wide sum of the flagged words' scores, each added in source order; `tot_OOVs` is the sum of the OOV counters read after each line, modulo 2^64; `corpus_sentences` is the number of lines (empty lines included), modulo 2^64; an empty corpus leaves every total at zero; the model is called exactly once per word with the line's earlier words as context (ghost `calls`) |
| `Score.EmitsPerplexityExcludingOOVs` | src/score.cpp:72 | the unsigned 64-bit test `corpus_tokens - tot_OOVs` is non-zero exactly when the two counts differ |
| `Score.LanguageModel.Score` | src/score.cpp:42 | the answer is the model's score for the word in the state's current context; the word is appended to that context; the flag becomes set when the word is OOV; as modelled, the oracle never clears it |
| `Score.LanguageModel.State` | src/score.cpp:27 | the model hands out a fresh scoring state with an empty context |
| `Score.ScoringState.Init` | src/score.cpp:33 | `init()` empties the state's context, so each sentence is scored from scratch |
| `ScoreProperties.SentenceLog10ProbIsSum` | src/score.cpp:34-48 | `sentence_log10_prob` starts at 0 and ends as the sum of the model's answers for that line's words |
| `ScoreProperties.OnlyOOVsFoldIsSum` | src/score.cpp:49-52 | within a line, the OOV-only total grows by exactly the scores of the words the model marked OOV |
| `ScoreProperties.TotLog10ProbIsSumOfAnswers` | src/score.cpp:32-61 | `tot_log10_prob` equals the sum of every log10 probability the model returned over the run |
| `ScoreProperties.OnlyOOVsIsSumOfOOVAnswers` | src/score.cpp:42-52 | `tot_log10_prob_only_OOVs` equals the sum of the scores of exactly the answers marked OOV; unmarked words add nothing |
| `ScoreProperties.ExcludingOOVsNumerator` | src/score.cpp:75 | `tot_log10_prob - tot_log10_prob_only_OOVs` is the mass of the in-vocabulary answers |
| `ScoreProperties.SumOOVsCountsOOVAnswers` | src/score.cpp:33-58 | if the state counts each line's OOV words modulo 2^64, then `tot_OOVs`, the per-sentence counters summed in 64-bit arithmetic, equals the number of OOV answers of the run modulo 2^64, with none lost or counted twice at sentence boundaries |
| `ScoreProperties.TotOOVsIsOOVCount` | src/score.cpp:58 | under the same contract, with fewer than 2^64 words, `tot_OOVs` is exactly the number of OOV answers |
| `ScoreProperties.TokensAndOOVs` | src/score.cpp:58-63 | under the same contract, with fewer than 2^64 words, every token is counted either in `tot_OOVs` or as in-vocabulary |
| `ScoreProperties.NoOOVsNoOOVOnlyMass` | src/score.cpp:49-50 | under the same contract, with fewer than 2^64 words, `tot_OOVs == 0` implies the OOV-only mass is zero, so both perplexities get the same numerator and denominator |
| `ScoreProperties.ExcludingOOVsDenominator` | src/score.cpp:63-76 | under the same contract, with fewer than 2^64 words, `corpus_tokens - tot_OOVs` is the number of in-vocabulary words |
| `ScoreProperties.ExcludingOOVsOmittedIffAllOOV` | src/score.cpp:72 | under the same contract, with fewer than 2^64 words, the "excluding OOVs" line is omitted exactly when every word was OOV |
| `ScoreProperties.LineCallsAt` | src/score.cpp:33-42 | the i-th call for a line scores the line's i-th word with exactly the words before it in that line as context |
| `ScoreProperties.LineCallsWords` | src/score.cpp:39-42 | the words of a line are fed to the model in order, each exactly once |
| `ScoreProperties.CallsFeedCorpusInOrder` | src/score.cpp:32-42 | over the run, the words fed to the model are the corpus's words, line after line, and there are as many calls as words |

## Left out

- Single-precision `float` accumulation (lines 24-25, 34, 48, 50, 59): the accumulators are exact `real`s. The specification folds still add in the source's order and grouping. The flat-sum lemmas (`TotLog10ProbIsSumOfAnswers`, `OnlyOOVsIsSumOfOOVAnswers`, `ExcludingOOVsNumerator`) hold for reals only, because float addition is not associative.
- The perplexity values (lines 68-77: `pow(10.0, ...)`, widening to `double`, the division by a zero token count): these are floating-point numerics. Only the guard that decides whether the second perplexity is reported is modelled.
- The language model's internals (how `score` computes a probability and decides OOV, and how `state.OOVs` is maintained) are an oracle. The state's context window is modelled as the full list of words scored since `init()`.
- The corpus reader `text_lines` (end-of-file, line and word splitting): the corpus is given as a list of lines, each a list of words. `corpus.num_words()` is modelled by `CorpusTokens` as the total word count modulo 2^64.
- TotOOVsIsOOVCount, TokensAndOOVs, NoOOVsNoOOVOnlyMass, ExcludingOOVsDenominator, ExcludingOOVsOmittedIffAllOOV: they require fewer than 2^64 words in the corpus. With more words the 64-bit counters can wrap, so the exact counts they state need not hold; `SumOOVsCountsOOVAnswers` states the count modulo 2^64 without that bound.
- Loading the index (`util::load`), the logger, the timer and the elapsed-time line (lines 17-19, 28-31, 62, 82): I/O and wall-clock time.
- Output formatting and precision (lines 64-83).
- `main` (lines 86-110): argument parsing and the macro-generated dispatch on the index's type tag. It returns 1 on a parse failure and 0 otherwise, even for an unsupported type.
