# WordCounter in Dafny

A model of the core of the WordCounter library. The library counts words and
treats a word and its translations as the same word, so "flower", "flor" and
"blume" all add to one count. The model covers three classes and the one
error they raise:

- `WordValidator` (`word_validator.dfy`, module `Validation`). It accepts a
  word when its trimmed form is a non-empty run of ASCII letters. It
  normalizes a word to that trimmed form in lower case.
- `DefaultTranslator` (`default_translator.dfy`, module `Translation`). It
  resolves a word to a canonical English form. The tiers are tried in order:
  the cache, a remote translation service, a static dictionary, and finally
  the word itself. The dictionary is seeded by 40 `put` calls, but "casa",
  "libro" and "auto" are each put twice, so it starts with 37 entries. Every resolution is written back into
  the cache.
- `WordCounterImpl` (`word_counter.dfy`, module `Counting`). It validates a
  word, normalizes it, translates it, and counts it under the translation.
  It also keeps the total of words counted.
- `InvalidWordException` (`invalid_word_exception.dfy`, module `Exceptions`).
  It holds a message and the offending word, or none where Java passes null.

`java_strings.dfy` (module `JavaStrings`) models `String.trim()` and the
ASCII part of `String.toLowerCase()`. `wrappers.dfy` gives `Option` for Java's
nullable references and `Outcome` for a void method that may throw.

Each class is modelled twice. Functions on values (`TranslateSpec`,
`AddWordSpec`, `AddWordsSpec`, `GetCountSpec`) say what one call does. The
lemmas reason about these functions. Classes with the source's fields
(`DefaultTranslator`, `WordCounterImpl`) have methods that change those
fields in place. The postconditions of `Translate`, `TranslateUncached`,
`TranslateWithService`, `AddWord`, `AddWords`, `AddWordsArray` and
`GetCount` tie their result and new state to the matching function.
`AddCustomTranslation`, `ClearCache`, `Reset` and `Tally` have no matching
function; their postconditions state the new fields directly. Two
invariants are proved to hold across every method:

- For the counter, the total equals the sum of the counts, and no count is 0.
- For the translator, the cache is keyed by normalized words. Every cached
  value is justified: it is the key itself, the key's static entry, or an
  answer the remote tier can give. `RemoteAnswerReachable` shows the last
  case is no wider than it must be: some service yields each such answer.
  `CachedWordHitsCache` uses the invariant: a cached key is its own key, so
  translating it is a cache hit.

The remote service is a parameter. A `TranslationService` maps (text, source
language, target language) to the service's reply, or to `None` when the
call yields nothing. `RemoteTierOf` turns it into the remote tier of
`translate`.

Two tests in the repository expect something the code does not do. The model
follows the code in both cases:

- `WordValidatorTest.java:56-65` expects `" hello"`, `"hello "` and
  `" hello "` to be rejected. The code trims before matching and accepts all
  three; see `Validation.LeadingSpaceAccepted` and
  `Validation.TrailingSpaceAccepted`.
- `WordCounterTest.java:272-287` expects a count of 1 for "valid". The test
  adds "valid", then adds a batch whose first word is "valid" again. The code
  counts both, so the count is 2; see `Counting.MixedBatchCountsRepeatedWord`.

## Model

| member | source | states |
|---|---|---|
| JavaStrings.TrimStart | src/main/java/com/wordcounter/WordValidator.java:16 | the leading part of `trim`: the result is a suffix of the input, starts with a kept char, and every dropped char is at most U+0020 |
| JavaStrings.TrimEnd | src/main/java/com/wordcounter/WordValidator.java:16 | the trailing part of `trim`: the result is a prefix of the input, ends with a kept char, and every dropped char is at most U+0020 |
| JavaStrings.Trim | src/main/java/com/wordcounter/WordValidator.java:12-16 | `trim()` leaves no char at most U+0020 at either end, is empty exactly when the input is blank, is never longer than the input, and is a slice of the input whose dropped chars at both ends are all at most U+0020 |
| JavaStrings.TrimKeepsNoUpperCase | src/main/java/com/wordcounter/DefaultTranslator.java:91 | trimming a string without upper-case letters yields one without upper-case letters |
| JavaStrings.LowerChar | src/main/java/com/wordcounter/WordValidator.java:30 | the ASCII `Character.toLowerCase`: `A`-`Z` move 32 code points down to `a`-`z` and every other char is kept; never upper case; a letter exactly when the result is a lower-case letter; keeps a char in or out of the trimmable range |
| JavaStrings.ToLowerCase | src/main/java/com/wordcounter/WordValidator.java:30 | `toLowerCase()` keeps the length and lowers each char in place |
| JavaStrings.LowerCaseHasNoUpperCase | src/main/java/com/wordcounter/WordValidator.java:30 | a lowered string has no upper-case letter |
| JavaStrings.LowerCaseKeepsTrimmedEnds | src/main/java/com/wordcounter/WordValidator.java:30 | lowering a trimmed string leaves it trimmed |
| JavaStrings.LowerCaseKeepsBlank | src/main/java/com/wordcounter/DefaultTranslator.java:87-91 | a string is blank exactly when its lowered form is |
| JavaStrings.LowerCaseOfLower | src/main/java/com/wordcounter/DefaultTranslator.java:127 | lowering a string with no upper-case letter changes nothing |
| JavaStrings.TrimOfTrimmed | src/main/java/com/wordcounter/DefaultTranslator.java:91 | trimming a string with nothing to trim changes nothing |
| JavaStrings.TrimIdempotent | src/main/java/com/wordcounter/WordValidator.java:16 | trimming twice is trimming once |
| JavaStrings.TrimStartLowerCase | src/main/java/com/wordcounter/DefaultTranslator.java:91 | dropping leading blanks commutes with lowering |
| JavaStrings.TrimEndLowerCase | src/main/java/com/wordcounter/DefaultTranslator.java:91 | dropping trailing blanks commutes with lowering |
| JavaStrings.LowerCaseTrimCommute | src/main/java/com/wordcounter/DefaultTranslator.java:91 | `toLowerCase().trim()`, the translator's order, equals `trim().toLowerCase()`, the validator's order |
| Validation.ValidateWord | src/main/java/com/wordcounter/WordValidator.java:8-23 | a word passes exactly when it is non-null, not blank, and its trimmed form is all ASCII letters; null and blank words fail with "Word cannot be null or empty" and the word as given; other failures carry the trimmed word, the message with that word appended, and a non-letter position |
| Validation.NormalizeWord | src/main/java/com/wordcounter/WordValidator.java:26-31 | null stays null; otherwise the result has no upper-case letter and nothing to trim, is empty exactly for a blank word, and is never longer than the word |
| Validation.NormalizeIdempotent | src/main/java/com/wordcounter/WordValidator.java:26-31 | normalizing twice is normalizing once |
| Validation.ValidWordNormalizesToLowerLetters | src/main/java/com/wordcounter/WordValidator.java:11-31 | a word that passes validation normalizes to a non-empty, non-blank run of `a`-`z` |
| Validation.TranslatorKeyOfNormalized | src/main/java/com/wordcounter/WordCounterImpl.java:45-46 | the translator's key of a normalized word is the word itself, so the counter and the translator agree on keys |
| Validation.LeadingSpaceAccepted | src/main/java/com/wordcounter/WordValidator.java:12-17 | `" hello"` passes validation, because trimming comes before the pattern match |
| Validation.TrailingSpaceAccepted | src/main/java/com/wordcounter/WordValidator.java:12-17 | `"hello "` and `" hello "` pass validation too |
| Validation.ValidIsAccepted | src/main/java/com/wordcounter/WordValidator.java:11-23 | "valid" passes validation |
| Validation.DigitsAreRejected | src/main/java/com/wordcounter/WordValidator.java:16-22 | "invalid123" is rejected with the message "Word contains non-alphabetic characters: invalid123" and the word "invalid123" |
| Translation.Key | src/main/java/com/wordcounter/DefaultTranslator.java:91 | the table key has no upper-case letter and nothing to trim, and is empty exactly for a blank word |
| Translation.KeyOfKey | src/main/java/com/wordcounter/DefaultTranslator.java:91 | a key is its own key |
| Translation.CallTranslationApi | src/main/java/com/wordcounter/DefaultTranslator.java:134-176 | an answer exactly when there is a reply with confidence above 0.7 whose text differs from the query ignoring case; the answer is then that text trimmed and lowered, which is its own key |
| Translation.NoDiacriticInAsciiLower | src/main/java/com/wordcounter/DefaultTranslator.java:187-194 | a run of `a`-`z` contains none of the diacritic chars |
| Translation.NotContainedChar | src/main/java/com/wordcounter/DefaultTranslator.java:190-192 | `contains` is false for a char found at no position |
| Translation.IsValidEnglishWord | src/main/java/com/wordcounter/DefaultTranslator.java:179-198 | true exactly for 2 to 20 chars, all ASCII letters; the diacritic check never rejects anything more |
| Translation.AcceptedTranslation | src/main/java/com/wordcounter/DefaultTranslator.java:125-127 | an accepted answer is 2 to 20 letters `a`-`z` and differs from the word |
| Translation.AcceptedTranslationFromReply | src/main/java/com/wordcounter/DefaultTranslator.java:125-127 | a language's answer is accepted and equals `a` exactly when the service replies with confidence above 0.7, a text that differs from the word ignoring case and whose trimmed, lowered form is `a`, and `a` differs from the word and is 2 to 20 letters `a`-`z` |
| Translation.FirstIndex | src/main/java/com/wordcounter/DefaultTranslator.java:124-130 | the position of the first element passing the test, or the length when none passes; every earlier element fails |
| Translation.FirstIndexStep | src/main/java/com/wordcounter/DefaultTranslator.java:124-128 | one loop step: at a passing element the search ends there, past a failing one it continues |
| Translation.FirstIndexTail | src/main/java/com/wordcounter/DefaultTranslator.java:124-128 | past a failing first element, the search goes on in the tail |
| Translation.FirstAccepted | src/main/java/com/wordcounter/DefaultTranslator.java:122-131 | the remote tier's answer is 2 to 20 letters `a`-`z` and differs from the word |
| Translation.FirstAcceptedIsFirst | src/main/java/com/wordcounter/DefaultTranslator.java:122-131 | no answer exactly when every language's answer is refused; otherwise the answer of a language whose predecessors were all refused |
| Translation.RemoteTierWellFormed | src/main/java/com/wordcounter/DefaultTranslator.java:122-131 | every answer of the remote tier is a lower-case word of 2 to 20 letters |
| Translation.Resolve | src/main/java/com/wordcounter/DefaultTranslator.java:93-118 | a cached key resolves to its cached value; otherwise to the key itself, its static entry, or the remote answer; the order of these tiers is stated by `Translation.TierOrder` |
| Translation.TranslateSpec | src/main/java/com/wordcounter/DefaultTranslator.java:86-119 | a result exactly for a non-null word; null and blank words come back unchanged with the cache untouched; otherwise the result is stored under the word's key, and `Translation.TierOrder` states which tier gives it |
| Translation.TierOrder | src/main/java/com/wordcounter/DefaultTranslator.java:98-118 | after a cache miss on a non-blank word, `translate` returns the remote tier's answer when there is one, else the static entry, else the key: the remote tier wins over the dictionary |
| Translation.OfflineResolve | src/main/java/com/wordcounter/DefaultTranslator.java:98-118 | with the service down and nothing cached, a word resolves to its static entry, else to itself |
| Translation.ResolveStableOnceCached | src/main/java/com/wordcounter/DefaultTranslator.java:93-96 | translating a word again returns the same result and leaves the cache as it was, whatever the remote tier does by then |
| Translation.PutKeepsTablesValid | src/main/java/com/wordcounter/DefaultTranslator.java:102-117 | storing a justified value under a key keeps the tables' invariant |
| Translation.WriteBackKeepsTablesValid | src/main/java/com/wordcounter/DefaultTranslator.java:86-119 | one `translate` keeps the tables' invariant, for a well-formed remote tier |
| Translation.TranslateCached | src/main/java/com/wordcounter/DefaultTranslator.java:93-96 | a cache hit returns the cached value and leaves the cache unchanged |
| Translation.CachedWordHitsCache | src/main/java/com/wordcounter/DefaultTranslator.java:91-96 | under the tables' invariant, translating a cached key returns its cached value and leaves the cache unchanged |
| Translation.RemoteAnswerReachable | src/main/java/com/wordcounter/DefaultTranslator.java:122-176 | every value the invariant admits as a remote answer is one some service makes the remote tier give |
| Translation.CustomPairKeepsTablesValid | src/main/java/com/wordcounter/DefaultTranslator.java:248-254 | storing one pair in both tables keeps the tables' invariant |
| Translation.DefaultTranslator.constructor | src/main/java/com/wordcounter/DefaultTranslator.java:25-83 | an empty cache, the ten languages in order, the seeded dictionary with its 37 entries, and the invariant holds |
| Translation.SeedKeys | src/main/java/com/wordcounter/DefaultTranslator.java:34-83 | the seeded words are exactly the four groups of words listed in the seed |
| Translation.SeedGroupsDisjoint | src/main/java/com/wordcounter/DefaultTranslator.java:34-83 | no seeded word occurs in two groups |
| Translation.SeedSize | src/main/java/com/wordcounter/DefaultTranslator.java:34-83 | the 40 puts leave 37 entries, because "casa", "libro" and "auto" are each put twice |
| Translation.DefaultTranslator.Translate | src/main/java/com/wordcounter/DefaultTranslator.java:86-119 | the result and the new cache are those of `TranslateSpec` under the service's remote tier; the dictionary is untouched and the invariant is kept |
| Translation.DefaultTranslator.TranslateUncached | src/main/java/com/wordcounter/DefaultTranslator.java:98-118 | after a cache miss, returns `Resolve` of the key and stores it under the key |
| Translation.DefaultTranslator.TranslateWithService | src/main/java/com/wordcounter/DefaultTranslator.java:122-131 | the loop returns the first accepted answer over the languages in order, or none |
| Translation.DefaultTranslator.IsTranslationAvailable | src/main/java/com/wordcounter/DefaultTranslator.java:200-218 | false for null; a cached word is available exactly when its cached value differs from its key; an uncached one exactly when the dictionary has it |
| Translation.DefaultTranslator.AddCustomTranslation | src/main/java/com/wordcounter/DefaultTranslator.java:248-254 | with both words present, both tables map the foreign key to the English key; otherwise nothing changes; the invariant is kept |
| Translation.DefaultTranslator.ClearCache | src/main/java/com/wordcounter/DefaultTranslator.java:238-240 | the cache becomes empty and its size is 0 |
| Translation.DefaultTranslator.GetCacheSize | src/main/java/com/wordcounter/DefaultTranslator.java:243-245 | agrees with the cache size in `getStats`, and is 0 exactly for an empty cache |
| Translation.DefaultTranslator.GetStats | src/main/java/com/wordcounter/DefaultTranslator.java:257-283 | both table sizes, and a count of successful translations that never exceeds the cache size and is 0 when every entry maps a word to itself |
| Counting.Increment | src/main/java/com/wordcounter/WordCounterImpl.java:49-50 | the key is added if absent; its count rises by one from 0 or its old value; every other count is unchanged |
| Counting.SumIncrement | src/main/java/com/wordcounter/WordCounterImpl.java:49-51 | incrementing one count raises the sum of the counts by exactly one |
| Counting.IncrementKeepsCountsValid | src/main/java/com/wordcounter/WordCounterImpl.java:49-51 | incrementing a count and the total together keeps the total equal to the sum, all counts positive |
| Counting.SizeAtMostSum | src/main/java/com/wordcounter/WordCounterImpl.java:99-106 | with positive counts, there are no more distinct words than counted words, and the sum is 0 exactly for no words |
| Counting.AddWordSpec | src/main/java/com/wordcounter/WordCounterImpl.java:42-52 | the outcome is the validator's verdict; a rejected word changes nothing; an accepted one adds one to its translation's count and to the total, with the translator's new cache |
| Counting.AddWordKeepsCountsValid | src/main/java/com/wordcounter/WordCounterImpl.java:42-52 | `addWord` keeps the total equal to the sum of the counts |
| Counting.AddWordKeepsTablesValid | src/main/java/com/wordcounter/WordCounterImpl.java:45-46 | `addWord` keeps the translator's invariant |
| Counting.AddWordsSpec | src/main/java/com/wordcounter/WordCounterImpl.java:55-63 | a successful batch adds its length to the total; no batch adds more than that |
| Counting.AddWordsStopsAtFirstRejection | src/main/java/com/wordcounter/WordCounterImpl.java:55-63 | a batch leaves the state its words before the first rejected word leave, all of them counted; its outcome is that word's rejection, or success when there is none |
| Counting.AddWordsKeepsValid | src/main/java/com/wordcounter/WordCounterImpl.java:55-63 | a batch keeps both invariants, however far it gets |
| Counting.GetCountSpec | src/main/java/com/wordcounter/WordCounterImpl.java:75-85 | 0 for null; otherwise the count stored under the translation of the normalized word, 0 when absent; only the translator's cache changes |
| Counting.CountAfterAdd | src/main/java/com/wordcounter/WordCounterImpl.java:42-85 | right after a word is counted, its count is one more than before, whatever the remote tier answers by then, and the lookup leaves the cache unchanged |
| Counting.SameCanonicalSharesCount | src/main/java/com/wordcounter/WordCounterImpl.java:45-51 | two accepted words with the same translation add two to one count and two to the total |
| Counting.MixedBatchCountsRepeatedWord | src/main/java/com/wordcounter/WordCounterImpl.java:42-63 | adding "valid", then the batch "valid", "invalid123", "anothervali", fails with "invalid123" and adds two to the count of "valid"'s translation and two to the total, whatever the tables and the remote tier |
| Counting.WordCounterImpl.constructor | src/main/java/com/wordcounter/WordCounterImpl.java:30-34 | no counts, a total of 0, the given translator, and the invariant holds |
| Counting.WordCounterImpl.AddWord | src/main/java/com/wordcounter/WordCounterImpl.java:42-52 | the outcome and the new state are those of `AddWordSpec`, and the invariant is kept |
| Counting.WordCounterImpl.Tally | src/main/java/com/wordcounter/WordCounterImpl.java:49-51 | the word's count and the total each rise by one, and the counts' invariant is kept |
| Counting.WordCounterImpl.AddWords | src/main/java/com/wordcounter/WordCounterImpl.java:55-63 | a null list fails with "Word list cannot be null" and changes nothing; otherwise the outcome and state are those of `AddWordsSpec` |
| Counting.WordCounterImpl.AddWordsArray | src/main/java/com/wordcounter/WordCounterImpl.java:66-72 | a null array fails with "Word array cannot be null" and changes nothing; otherwise the elements are added as a list |
| Counting.WordCounterImpl.GetCount | src/main/java/com/wordcounter/WordCounterImpl.java:75-85 | the count and the new cache are those of `GetCountSpec`; the counts are not touched |
| Counting.WordCounterImpl.Reset | src/main/java/com/wordcounter/WordCounterImpl.java:88-91 | no counts and a total of 0; the translator keeps its cache |
| Counting.WordCounterImpl.GetTotalWords | src/main/java/com/wordcounter/WordCounterImpl.java:94-96 | the total is the sum of all counts |
| Counting.WordCounterImpl.GetUniqueWordCount | src/main/java/com/wordcounter/WordCounterImpl.java:99-101 | the number of distinct translations counted, never more than the total, and 0 exactly when the total is 0 |
| Counting.WordCounterImpl.IsEmpty | src/main/java/com/wordcounter/WordCounterImpl.java:104-106 | true exactly when no word is counted |

## Left out

- The HTTP call in `callTranslationAPI` is not modelled: URL encoding, the GET request, the 5-second timeouts, reading the body and parsing the JSON. The service's reply is an input, and every failure, including an exception, is `None`.
- The reply's `match` field is a `double` in Java and a `real` here. Rounding is not modelled.
- The `catch` in `translate` cannot be reached: `callTranslationAPI` catches every exception itself, so `translateWithService` never throws. The message printed there is not modelled.
- `translateAsync` and `translateBatch` are not modelled. Both exist only to run `translate` on other threads.
- Concurrency is not modelled. Every operation is one sequential step, and the thread safety of `ConcurrentHashMap` and `AtomicInteger` is out of scope.
- `WordCounterImpl.Builder`, `builder()` and the `Translator` interface are not modelled. The counter always holds a `DefaultTranslator`, so the tests' mock translators cannot be expressed.
- The remote tier is fixed for the length of one call. A service that answers differently on two calls within one `translate` is not modelled. Across calls it may change freely.
- Counts and the total are unbounded. The wrap-around of a Java `int` after 2^31 - 1 words is not modelled.
- `toLowerCase` is modelled on ASCII letters only, and the default locale is assumed to lower `A`-`Z` to `a`-`z` (not a Turkish or Azerbaijani locale, where `I` lowers to a dotless i). Other chars are kept unchanged, so the lower-casing of non-ASCII letters is not modelled. The validator accepts only ASCII letters, so this affects only the words passed to `getCount`, `translate`, `addCustomTranslation` and `isTranslationAvailable`, and the text from the service. For example, in Java `isTranslationAvailable("ÉCOLE")` is true after `addCustomTranslation("école", "school")`; in the model the key of "ÉCOLE" keeps its `É`, so the answer is false.
- Translation.DefaultTranslator.GetStats: states bounds on the number of successful translations, and its value when every entry maps a word to itself, but not the exact count of entries whose value is not a cached key.
- `WordCounter.java`, the microservice controller and the application class are not part of this model.
