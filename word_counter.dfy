/**
 * `WordCounterImpl`: counts valid words under the canonical form its
 * translator gives them, together with the number of words counted.
 *
 * The counter's behaviour is given twice: as functions on a value
 * (`CounterState`), which the lemmas reason about, and as a class whose
 * methods update its fields and the translator's cache and are proved to
 * follow those functions.
 *
 * Some proofs and method bodies start with `hide *` (or hide a few named
 * functions) to keep the verifier from unfolding every definition in scope.
 * They then unfold only what they need by calling the lemmas named `...Means`
 * (and, here, `AddWordsEmpty` and `AddWordsUnfold`), each of which states one
 * definition as an equation and proves nothing more.
 */
module Counting {
  import opened Wrappers
  import opened JavaStrings
  import opened Exceptions
  import opened Validation
  import opened Translation

  const NullListMessage: string := "Word list cannot be null"
  const NullArrayMessage: string := "Word array cannot be null"

  /** `wordCounts.get(k)`, with an absent key read as 0. */
  function Count(m: map<string, nat>, k: string): nat {
    if k in m then m[k] else 0
  }

  /**
   * `computeIfAbsent(k, ...).incrementAndGet()`: the count of `k` rises by
   * one, starting from 0 when absent, and every other count stays as it was.
   */
  function Increment(m: map<string, nat>, k: string): (r: map<string, nat>)
    ensures r.Keys == m.Keys + {k}
    ensures forall j :: Count(r, j) == Count(m, j) + (if j == k then 1 else 0)
  {
    m[k := Count(m, k) + 1]
  }

  /** The sum of all counts in `m`. */
  ghost function SumCounts(m: map<string, nat>): nat
    decreases |m|
  {
    if m == map[] then 0
    else
      var k :| k in m;
      m[k] + SumCounts(m - {k})
  }

  /** The sum can be split at any key, whichever key the definition picked. */
  lemma {:induction false} SumRemove(m: map<string, nat>, k: string)
    requires k in m
    ensures SumCounts(m) == m[k] + SumCounts(m - {k})
    decreases |m|
  {
    var p :| p in m && SumCounts(m) == m[p] + SumCounts(m - {p});
    if p != k {
      SumRemove(m - {p}, k);
      SumRemove(m - {k}, p);
      assert m - {p} - {k} == m - {k} - {p};
    }
  }

  /** Incrementing one count raises the sum by exactly one. */
  lemma SumIncrement(m: map<string, nat>, k: string)
    ensures SumCounts(Increment(m, k)) == SumCounts(m) + 1
  {
    var m' := Increment(m, k);
    SumRemove(m', k);
    if k in m {
      SumRemove(m, k);
      assert m' - {k} == m - {k};
    } else {
      assert m' - {k} == m;
    }
  }

  /** Counting one more word keeps the total equal to the sum of the counts, all of them positive. */
  lemma IncrementKeepsCountsValid(m: map<string, nat>, total: nat, k: string)
    requires CountsValid(m, total)
    ensures CountsValid(Increment(m, k), total + 1)
  {
    SumIncrement(m, k);
    var r := Increment(m, k);
    forall j | j in r
      ensures r[j] >= 1
    {
      assert Count(r, j) == Count(m, j) + (if j == k then 1 else 0);
    }
  }

  /** When every count is at least one, there are no more keys than counted words. */
  lemma {:induction false} SizeAtMostSum(m: map<string, nat>)
    requires forall k :: k in m ==> m[k] >= 1
    ensures |m| <= SumCounts(m)
    ensures SumCounts(m) == 0 <==> m == map[]
    decreases |m|
  {
    if m != map[] {
      var k :| k in m;
      SumRemove(m, k);
      SizeAtMostSum(m - {k});
    }
  }

  /**
   * The invariant of the counter: the total is the sum of the counts, and a
   * key is present only once it has been counted.
   */
  ghost predicate CountsValid(wordCounts: map<string, nat>, totalWords: nat) {
    && totalWords == SumCounts(wordCounts)
    && forall k :: k in wordCounts ==> wordCounts[k] >= 1
  }

  /** The counter's fields together with its translator's cache. */
  datatype CounterState = CounterState(wordCounts: map<string, nat>, totalWords: nat, cache: map<string, string>)

  /** What a call that may throw `InvalidWordException` returns and the state it leaves. */
  datatype Step = Step(outcome: Outcome<InvalidWordException>, state: CounterState)

  /** The translator's answer for a word that is about to be counted or looked up. */
  function Canonical(cache: map<string, string>, dict: map<string, string>, remote: RemoteTier,
                     word: Option<string>): Translated
  {
    TranslateSpec(cache, dict, remote, NormalizeWord(word))
  }

  /**
   * `addWord`: the outcome is the validator's verdict. A rejected word
   * changes nothing. An accepted word adds one to the count of its
   * canonical form and to the total, and no other count changes.
   */
  function AddWordSpec(s: CounterState, dict: map<string, string>, remote: RemoteTier, word: Option<string>): (st: Step)
    ensures st.outcome == ValidateWord(word)
    ensures st.outcome.Fail? ==> st.state == s
    ensures st.outcome.Pass? ==>
      var t := Canonical(s.cache, dict, remote, word);
      && t.result.Some?
      && st.state.cache == t.cache
      && st.state.totalWords == s.totalWords + 1
      && st.state.wordCounts == Increment(s.wordCounts, t.result.value)
  {
    match ValidateWord(word)
    case Fail(e) => Step(Fail(e), s)
    case Pass =>
      var t := Canonical(s.cache, dict, remote, word);
      var w := t.result.value;
      Step(Pass, CounterState(Increment(s.wordCounts, w), s.totalWords + 1, t.cache))
  }

  /** The definition of `Canonical`, for proofs that hide function bodies. */
  lemma CanonicalMeans(cache: map<string, string>, dict: map<string, string>, remote: RemoteTier, word: Option<string>)
    ensures Canonical(cache, dict, remote, word) == TranslateSpec(cache, dict, remote, NormalizeWord(word))
  {
  }

  /** The accepted case of `AddWordSpec` as one state. */
  lemma AddWordAccepted(s: CounterState, dict: map<string, string>, remote: RemoteTier, word: Option<string>)
    requires ValidateWord(word).Pass?
    ensures var t := Canonical(s.cache, dict, remote, word);
            && t.result.Some?
            && AddWordSpec(s, dict, remote, word) ==
               Step(Pass, CounterState(Increment(s.wordCounts, t.result.value), s.totalWords + 1, t.cache))
  {
  }

  /** `addWord` keeps the counter's invariant: the total is still the sum of the counts. */
  lemma AddWordKeepsCountsValid(s: CounterState, dict: map<string, string>, remote: RemoteTier, word: Option<string>)
    requires CountsValid(s.wordCounts, s.totalWords)
    ensures var st := AddWordSpec(s, dict, remote, word).state;
            CountsValid(st.wordCounts, st.totalWords)
  {
    hide *;
    var st := AddWordSpec(s, dict, remote, word);
    if st.outcome.Pass? {
      IncrementKeepsCountsValid(s.wordCounts, s.totalWords, Canonical(s.cache, dict, remote, word).result.value);
    }
  }

  /** `addWord` keeps the translator's invariant, for a well-formed remote tier. */
  lemma AddWordKeepsTablesValid(s: CounterState, dict: map<string, string>, remote: RemoteTier, word: Option<string>)
    requires TablesValid(s.cache, dict) && WellFormedTier(remote)
    ensures TablesValid(AddWordSpec(s, dict, remote, word).state.cache, dict)
  {
    WriteBackKeepsTablesValid(s.cache, dict, remote, NormalizeWord(word));
  }

  /** `addWords`: the words are added in order, and the first rejected word stops the batch. */
  function AddWordsSpec(s: CounterState, dict: map<string, string>, remote: RemoteTier,
                        words: seq<Option<string>>): (st: Step)
    ensures st.outcome.Pass? ==> st.state.totalWords == s.totalWords + |words|
    ensures st.state.totalWords <= s.totalWords + |words|
    decreases |words|
  {
    if words == [] then Step(Pass, s)
    else
      var first := AddWordSpec(s, dict, remote, words[0]);
      if first.outcome.Fail? then first
      else AddWordsSpec(first.state, dict, remote, words[1..])
  }

  /** Whether a word is rejected by the validator. */
  function Rejected(): Option<string> -> bool {
    word => ValidateWord(word).Fail?
  }

  /** The definition of `Rejected`, for proofs that hide function bodies. */
  lemma RejectedMeans(word: Option<string>)
    ensures Rejected()(word) <==> ValidateWord(word).Fail?
  {
  }

  /** An empty batch succeeds and changes nothing. */
  lemma AddWordsEmpty(s: CounterState, dict: map<string, string>, remote: RemoteTier)
    ensures AddWordsSpec(s, dict, remote, []) == Step(Pass, s)
  {
  }

  /** One step of a non-empty batch: its first word, then the rest only if that word was accepted. */
  lemma AddWordsUnfold(s: CounterState, dict: map<string, string>, remote: RemoteTier, words: seq<Option<string>>)
    requires words != []
    ensures var first := AddWordSpec(s, dict, remote, words[0]);
            AddWordsSpec(s, dict, remote, words) ==
            if first.outcome.Fail? then first else AddWordsSpec(first.state, dict, remote, words[1..])
  {
  }

  /**
   * A batch is the words before its first rejected word, added one after the
   * other: those are all counted, the outcome is the rejection of that word
   * (or success when there is none), and no later word is looked at.
   */
  lemma {:induction false} AddWordsStopsAtFirstRejection(s: CounterState, dict: map<string, string>,
                                                         remote: RemoteTier, words: seq<Option<string>>)
    ensures var n := FirstIndex(words, Rejected());
            var st := AddWordsSpec(s, dict, remote, words);
            && st.state == AddWordsSpec(s, dict, remote, words[..n]).state
            && AddWordsSpec(s, dict, remote, words[..n]).outcome.Pass?
            && st.state.totalWords == s.totalWords + n
            && (n == |words| ==> st.outcome.Pass?)
            && (n < |words| ==> st.outcome == ValidateWord(words[n]))
    decreases |words|
  {
    hide *;
    var n := FirstIndex(words, Rejected());
    if words == [] {
      AddWordsEmpty(s, dict, remote);
      assert words[..n] == [];
    } else {
      AddWordsUnfold(s, dict, remote, words);
      var first := AddWordSpec(s, dict, remote, words[0]);
      RejectedMeans(words[0]);
      if first.outcome.Fail? {
        FirstIndexStep(words, Rejected(), 0);
        AddWordsEmpty(s, dict, remote);
        assert words[..n] == [];
      } else {
        var rest := words[1..];
        var n' := FirstIndex(rest, Rejected());
        FirstIndexTail(words, Rejected());
        AddWordsStopsAtFirstRejection(first.state, dict, remote, rest);
        AddWordsUnfold(s, dict, remote, words[..n]);
        assert words[..n][0] == words[0];
        assert words[..n][1..] == rest[..n'];
        if n' < |rest| {
          assert words[n] == rest[n'];
        }
      }
    }
  }

  /** A batch keeps both invariants, however far it gets. */
  lemma {:induction false} AddWordsKeepsValid(s: CounterState, dict: map<string, string>, remote: RemoteTier,
                                              words: seq<Option<string>>)
    requires CountsValid(s.wordCounts, s.totalWords) && TablesValid(s.cache, dict) && WellFormedTier(remote)
    ensures var st := AddWordsSpec(s, dict, remote, words).state;
            CountsValid(st.wordCounts, st.totalWords) && TablesValid(st.cache, dict)
    decreases |words|
  {
    if words != [] {
      AddWordKeepsCountsValid(s, dict, remote, words[0]);
      AddWordKeepsTablesValid(s, dict, remote, words[0]);
      var first := AddWordSpec(s, dict, remote, words[0]);
      if first.outcome.Pass? {
        AddWordsKeepsValid(first.state, dict, remote, words[1..]);
      }
    }
  }

  /** What `getCount` returns and the translator cache it leaves behind. */
  datatype Lookup = Lookup(count: nat, cache: map<string, string>)

  /**
   * `getCount`: 0 for null; otherwise the count stored under the
   * translator's answer for the normalized word. Only the translator's cache
   * may change, never the counts.
   */
  function GetCountSpec(s: CounterState, dict: map<string, string>, remote: RemoteTier, word: Option<string>): (q: Lookup)
    ensures word.None? ==> q == Lookup(0, s.cache)
    ensures word.Some? ==>
      var t := Canonical(s.cache, dict, remote, word);
      q.cache == t.cache && q.count == Count(s.wordCounts, t.result.value)
  {
    if word.None? then Lookup(0, s.cache)
    else
      var t := Canonical(s.cache, dict, remote, word);
      Lookup(Count(s.wordCounts, t.result.value), t.cache)
  }

  /**
   * Right after a word is counted, asking for its count finds it, whatever
   * the remote tier answers by then: the count is one more than the count
   * its canonical form had before, and the lookup leaves the cache alone.
   */
  lemma CountAfterAdd(s: CounterState, dict: map<string, string>, remote: RemoteTier, later: RemoteTier,
                      word: Option<string>)
    requires ValidateWord(word).Pass?
    ensures var t := Canonical(s.cache, dict, remote, word);
            var st := AddWordSpec(s, dict, remote, word).state;
            GetCountSpec(st, dict, later, word) == Lookup(Count(s.wordCounts, t.result.value) + 1, st.cache)
  {
    hide *;
    ValidWordNormalizesToLowerLetters(word);
    var n := NormalizeWord(word).value;
    ResolveStableOnceCached(s.cache, dict, remote, later, n);
    AddWordAccepted(s, dict, remote, word);
    var st := AddWordSpec(s, dict, remote, word).state;
    CanonicalMeans(s.cache, dict, remote, word);
    CanonicalMeans(st.cache, dict, later, word);
  }

  /**
   * Words that share a canonical form share a count: when two accepted
   * words are added one after the other and the second resolves to the
   * first one's canonical form, that count rises by two, as does the total.
   */
  lemma SameCanonicalSharesCount(s: CounterState, dict: map<string, string>, remote: RemoteTier,
                                 first: Option<string>, second: Option<string>)
    requires ValidateWord(first).Pass? && ValidateWord(second).Pass?
    requires var s1 := AddWordSpec(s, dict, remote, first).state;
             Canonical(s1.cache, dict, remote, second).result == Canonical(s.cache, dict, remote, first).result
    ensures var w := Canonical(s.cache, dict, remote, first).result.value;
            var s1 := AddWordSpec(s, dict, remote, first).state;
            var s2 := AddWordSpec(s1, dict, remote, second).state;
            Count(s2.wordCounts, w) == Count(s.wordCounts, w) + 2 && s2.totalWords == s.totalWords + 2
  {
    hide *;
    var s1 := AddWordSpec(s, dict, remote, first).state;
    var s2 := AddWordSpec(s1, dict, remote, second).state;
  }

  /**
   * "valid" added on its own, then the batch "valid", "invalid123",
   * "anothervali": the batch counts "valid" again before it stops at
   * "invalid123", so the count of the canonical form of "valid" rises by two
   * in all, as does the total, and the batch fails with "invalid123".
   */
  lemma MixedBatchCountsRepeatedWord(s: CounterState, dict: map<string, string>, remote: RemoteTier)
    ensures var first := AddWordSpec(s, dict, remote, Some("valid")).state;
            var batch := AddWordsSpec(first, dict, remote, [Some("valid"), Some("invalid123"), Some("anothervali")]);
            var w := Canonical(s.cache, dict, remote, Some("valid")).result.value;
            && batch.outcome == Fail(InvalidWordException(NonAlphabeticPrefix + "invalid123", Some("invalid123")))
            && Count(batch.state.wordCounts, w) == Count(s.wordCounts, w) + 2
            && batch.state.totalWords == s.totalWords + 2
  {
    hide *;
    ValidIsAccepted();
    DigitsAreRejected();
    var word := Some("valid");
    var s1 := AddWordSpec(s, dict, remote, word).state;
    ValidWordNormalizesToLowerLetters(word);
    ResolveStableOnceCached(s.cache, dict, remote, remote, NormalizeWord(word).value);
    AddWordAccepted(s, dict, remote, word);
    CanonicalMeans(s.cache, dict, remote, word);
    CanonicalMeans(s1.cache, dict, remote, word);
    SameCanonicalSharesCount(s, dict, remote, word, word);
    var s2 := AddWordSpec(s1, dict, remote, word).state;
    var batch := [word, Some("invalid123"), Some("anothervali")];
    var rest := [Some("invalid123"), Some("anothervali")];
    AddWordsUnfold(s1, dict, remote, batch);
    assert batch[0] == word && batch[1..] == rest;
    AddWordsUnfold(s2, dict, remote, rest);
    assert rest[0] == Some("invalid123");
  }

  class WordCounterImpl {
    var wordCounts: map<string, nat>
    var totalWords: nat
    const translator: DefaultTranslator

    ghost predicate Valid()
      reads this, translator
    {
      translator.Valid() && CountsValid(wordCounts, totalWords)
    }

    /** The counter's state as a value, for the specifications. */
    function State(): CounterState
      reads this, translator
    {
      CounterState(wordCounts, totalWords, translator.translationCache)
    }

    /** The definition of `Valid`, for proofs that hide function bodies. */
    lemma ValidMeans()
      ensures Valid() <==> translator.Valid() && CountsValid(wordCounts, totalWords)
    {
    }

    /** The definition of `State`, for proofs that hide function bodies. */
    lemma StateMeans()
      ensures State() == CounterState(wordCounts, totalWords, translator.translationCache)
    {
    }

    /** `Builder.build`: no word counted yet. */
    constructor (translator: DefaultTranslator)
      requires translator.Valid()
      ensures Valid()
      ensures this.translator == translator
      ensures wordCounts == map[] && totalWords == 0
    {
      wordCounts := map[];
      totalWords := 0;
      this.translator := translator;
    }

    /** `addWord`: follows `AddWordSpec` under the remote tier of `service`. */
    method AddWord(word: Option<string>, service: TranslationService) returns (outcome: Outcome<InvalidWordException>)
      requires Valid()
      modifies this`wordCounts, this`totalWords, translator`translationCache
      ensures Step(outcome, State()) ==
              AddWordSpec(old(State()), translator.staticTranslations,
                          RemoteTierOf(service, translator.supportedLanguages), word)
      ensures Valid()
    {
      hide *;
      ValidMeans();
      StateMeans();
      ghost var before := State();
      ghost var dict := translator.staticTranslations;
      ghost var remote := RemoteTierOf(service, translator.supportedLanguages);
      var validation := ValidateWord(word);
      if validation.Fail? {
        return validation;
      }
      AddWordAccepted(before, dict, remote, word);
      var normalizedWord := NormalizeWord(word);
      var translatedWord := translator.Translate(normalizedWord, service);
      assert Canonical(before.cache, dict, remote, word) == Translated(translatedWord, translator.translationCache) by {
        CanonicalMeans(before.cache, dict, remote, word);
      }
      Tally(translatedWord.value);
      ValidMeans();
      StateMeans();
      return Pass;
    }

    /** The two increments of `addWord`: the word's count and the total each rise by one. */
    method Tally(w: string)
      requires CountsValid(wordCounts, totalWords)
      modifies this`wordCounts, this`totalWords
      ensures wordCounts == Increment(old(wordCounts), w) && totalWords == old(totalWords) + 1
      ensures CountsValid(wordCounts, totalWords)
    {
      IncrementKeepsCountsValid(wordCounts, totalWords, w);
      wordCounts := Increment(wordCounts, w);
      totalWords := totalWords + 1;
    }

    /** `addWords(List)`: a null list is rejected; otherwise follows `AddWordsSpec`. */
    method AddWords(words: Option<seq<Option<string>>>, service: TranslationService)
      returns (outcome: Outcome<InvalidWordException>)
      requires Valid()
      modifies this`wordCounts, this`totalWords, translator`translationCache
      ensures Valid()
      ensures words.None? ==>
        outcome == Fail(InvalidWordException(NullListMessage, None)) && State() == old(State())
      ensures words.Some? ==>
        Step(outcome, State()) ==
        AddWordsSpec(old(State()), translator.staticTranslations,
                     RemoteTierOf(service, translator.supportedLanguages), words.value)
    {
      if words.None? {
        return Fail(InvalidWordException(NullListMessage, None));
      }
      var ws := words.value;
      ghost var dict := translator.staticTranslations;
      ghost var remote := RemoteTierOf(service, translator.supportedLanguages);
      ghost var goal := AddWordsSpec(State(), dict, remote, ws);
      for i := 0 to |ws|
        invariant Valid()
        invariant dict == translator.staticTranslations
        invariant remote == RemoteTierOf(service, translator.supportedLanguages)
        invariant AddWordsSpec(State(), dict, remote, ws[i..]) == goal
      {
        ghost var here := State();
        var o := AddWord(ws[i], service);
        if o.Fail? {
          return o;
        }
        assert ws[i..][1..] == ws[i + 1..];
      }
      return Pass;
    }

    /** `addWords(String...)`: a null array is rejected; otherwise its elements are added as a list. */
    method AddWordsArray(words: array?<Option<string>>, service: TranslationService)
      returns (outcome: Outcome<InvalidWordException>)
      requires Valid()
      modifies this`wordCounts, this`totalWords, translator`translationCache
      ensures Valid()
      ensures words == null ==>
        outcome == Fail(InvalidWordException(NullArrayMessage, None)) && State() == old(State())
      ensures words != null ==>
        Step(outcome, State()) ==
        AddWordsSpec(old(State()), translator.staticTranslations,
                     RemoteTierOf(service, translator.supportedLanguages), words[..])
    {
      if words == null {
        return Fail(InvalidWordException(NullArrayMessage, None));
      }
      outcome := AddWords(Some(words[..]), service);
    }

    /** `getCount`: follows `GetCountSpec`; the counts are not touched. */
    method GetCount(word: Option<string>, service: TranslationService) returns (n: nat)
      requires Valid()
      modifies translator`translationCache
      ensures Valid()
      ensures Lookup(n, translator.translationCache) ==
              GetCountSpec(old(State()), translator.staticTranslations,
                           RemoteTierOf(service, translator.supportedLanguages), word)
    {
      if word.None? {
        return 0;
      }
      var normalizedWord := NormalizeWord(word);
      var translatedWord := translator.Translate(normalizedWord, service);
      n := Count(wordCounts, translatedWord.value);
    }

    /** `reset`: every count and the total go back to 0; the translator keeps its cache. */
    method Reset()
      requires Valid()
      modifies this`wordCounts, this`totalWords
      ensures Valid()
      ensures wordCounts == map[] && totalWords == 0
    {
      wordCounts := map[];
      totalWords := 0;
    }

    /** `getTotalWords`: the sum of all counts. */
    function GetTotalWords(): (n: nat)
      reads this
      requires CountsValid(wordCounts, totalWords)
      ensures n == SumCounts(wordCounts)
    {
      totalWords
    }

    /** `getUniqueWordCount`: the number of distinct canonical forms, never more than the total. */
    function GetUniqueWordCount(): (n: nat)
      reads this
      requires CountsValid(wordCounts, totalWords)
      ensures n == |wordCounts.Keys|
      ensures n <= GetTotalWords()
      ensures n == 0 <==> GetTotalWords() == 0
    {
      SizeAtMostSum(wordCounts);
      |wordCounts|
    }

    /** `isEmpty`: no word has been counted, so no count is stored. */
    function IsEmpty(): (b: bool)
      reads this
      requires CountsValid(wordCounts, totalWords)
      ensures b <==> wordCounts == map[]
    {
      SizeAtMostSum(wordCounts);
      totalWords == 0
    }
  }
}
