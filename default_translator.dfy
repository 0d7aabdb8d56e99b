/**
 * `DefaultTranslator`: resolves a word to its canonical English form through
 * four tiers tried in order (cache, remote service, static dictionary,
 * identity) and writes every resolution back into its cache.
 *
 * The remote service is an input: a function from (text, source language,
 * target language) to the service's reply, or `None` when the call fails.
 *
 * Some proofs and method bodies start with `hide *` (or hide a few named
 * functions) to keep the verifier from unfolding every definition in scope.
 * They then unfold only what they need by calling the lemmas named `...Means`,
 * each of which states one definition as an equation and proves nothing more.
 */
module Translation {
  import opened Wrappers
  import opened JavaStrings

  /** The `translatedText` and `match` fields of a successful service reply. */
  datatype ServiceReply = ServiceReply(translatedText: string, confidence: real)

  /**
   * The remote translation call. `None` stands for every way the call yields
   * nothing: a non-200 status, a reply without `responseData`, an exception or
   * a timeout.
   */
  type TranslationService = (string, string, string) -> Option<ServiceReply>

  /** The source languages tried, in this order. */
  const SupportedLanguages: seq<string> := ["es", "de", "fr", "it", "pt", "nl", "ru", "zh", "ja", "ko"]
  const TargetLanguage: string := "en"
  const ConfidenceThreshold: real := 0.7

  /** The chars `isValidEnglishWord` rejects: n-tilde, c-cedilla, u/a/o-umlaut, e-acute, e/a/i-grave. */
  const Diacritics: seq<char> := ['\U{F1}', '\U{E7}', '\U{FC}', '\U{E4}', '\U{F6}', '\U{E9}', '\U{E8}', '\U{E0}', '\U{EC}']

  /** The table key `translate` looks a word up under: `word.toLowerCase().trim()`. */
  function Key(word: string): (k: string)
    ensures HasNoUpperCase(k) && HasNoTrimmableEnds(k)
    ensures k == [] <==> IsBlank(word)
  {
    var l := ToLowerCase(word);
    LowerCaseKeepsBlank(word);
    LowerCaseHasNoUpperCase(word);
    TrimKeepsNoUpperCase(l);
    Trim(l)
  }

  /** The definition of `Key`, for proofs that hide function bodies. */
  lemma KeyMeans(word: string)
    ensures Key(word) == Trim(ToLowerCase(word))
  {
  }

  /** A string that is its own key: lower case with nothing to trim. */
  predicate IsKey(k: string) {
    HasNoUpperCase(k) && HasNoTrimmableEnds(k)
  }

  /** A key is its own key. */
  lemma KeyOfKey(k: string)
    requires IsKey(k)
    ensures Key(k) == k
  {
    LowerCaseOfLower(k);
    TrimOfTrimmed(k);
  }

  /**
   * The acceptance filter of `callTranslationAPI`: a reply counts only when its
   * confidence exceeds 0.7 and it differs from the query ignoring case; the
   * text is then trimmed and lowered.
   */
  function CallTranslationApi(service: TranslationService, text: string, fromLang: string, toLang: string): (r: Option<string>)
    ensures var reply := service(text, fromLang, toLang);
      r == if reply.Some? && reply.value.confidence > ConfidenceThreshold
              && ToLowerCase(reply.value.translatedText) != ToLowerCase(text)
           then Some(ToLowerCase(Trim(reply.value.translatedText)))
           else None
    ensures r.Some? ==> IsKey(r.value)
  {
    match service(text, fromLang, toLang)
    case None => None
    case Some(reply) =>
      if reply.confidence > ConfidenceThreshold && ToLowerCase(reply.translatedText) != ToLowerCase(text) then
        LowerCaseTrimCommute(reply.translatedText);
        Some(Key(reply.translatedText))
      else
        None
  }

  /** `s.contains(c)` for a one-char needle, by recursion so that it unfolds only on demand. */
  function ContainsChar(s: string, c: char): bool
    decreases |s|
  {
    s != [] && (s[0] == c || ContainsChar(s[1..], c))
  }

  /** Some char of `chars` occurs in `s`. */
  function ContainsAnyOf(s: string, chars: seq<char>): bool
    decreases |chars|
  {
    chars != [] && (ContainsChar(s, chars[0]) || ContainsAnyOf(s, chars[1..]))
  }

  /** A string of ASCII lower-case letters holds none of the diacritic chars. */
  lemma {:induction false} NoDiacriticInAsciiLower(s: string, chars: seq<char>)
    requires forall i :: 0 <= i < |s| ==> IsAsciiLower(s[i])
    requires forall j :: 0 <= j < |chars| ==> !IsAsciiLower(chars[j])
    ensures !ContainsAnyOf(s, chars)
    decreases |chars|
  {
    if chars != [] {
      NotContainedChar(s, chars[0]);
      NoDiacriticInAsciiLower(s, chars[1..]);
    }
  }

  /** A char that occurs at no position is not contained. */
  lemma {:induction false} NotContainedChar(s: string, c: char)
    requires forall i :: 0 <= i < |s| ==> s[i] != c
    ensures !ContainsChar(s, c)
    decreases |s|
  {
    if s != [] {
      NotContainedChar(s[1..], c);
    }
  }

  /**
   * `isValidEnglishWord`: 2 to 20 chars, all ASCII letters. The diacritic
   * check in the body never rejects a word the letter check let through.
   */
  function IsValidEnglishWord(word: string): (r: bool)
    ensures r <==> 2 <= |word| <= 20 && forall i :: 0 <= i < |word| ==> IsAsciiLetter(word[i])
  {
    var w := ToLowerCase(word);
    if |w| < 2 || |w| > 20 then false
    else if !(forall i :: 0 <= i < |w| ==> IsAsciiLower(w[i])) then false
    else if ContainsAnyOf(w, Diacritics) then
      NoDiacriticInAsciiLower(w, Diacritics);
      false
    else true
  }

  /** A canonical form the remote tier can produce: 2 to 20 letters `a`-`z`. */
  predicate IsRemoteAnswer(t: string) {
    2 <= |t| <= 20 && forall i :: 0 <= i < |t| ==> IsAsciiLower(t[i])
  }

  /**
   * One round of the loop in `translateWithService`: the answer for
   * `langCode` if it survives every filter, lowered.
   */
  function AcceptedTranslation(service: TranslationService, word: string, langCode: string): (r: Option<string>)
    ensures r.Some? ==> IsRemoteAnswer(r.value) && r.value != word
  {
    var translation := CallTranslationApi(service, word, langCode, TargetLanguage);
    if translation.Some? && translation.value != word && IsValidEnglishWord(translation.value) then
      LowerCaseOfLower(translation.value);
      Some(ToLowerCase(translation.value))
    else
      None
  }

  /**
   * What the service must reply for a language's answer to be accepted, and
   * what the answer then is: a confident reply that differs from the word
   * ignoring case, trimmed and lowered, different from the word and made of
   * 2 to 20 letters `a`-`z`.
   */
  lemma AcceptedTranslationFromReply(service: TranslationService, word: string, langCode: string, a: string)
    ensures AcceptedTranslation(service, word, langCode) == Some(a) <==>
      var reply := service(word, langCode, TargetLanguage);
      && reply.Some? && reply.value.confidence > ConfidenceThreshold
      && ToLowerCase(reply.value.translatedText) != ToLowerCase(word)
      && a == ToLowerCase(Trim(reply.value.translatedText))
      && a != word && IsRemoteAnswer(a)
  {
    hide CallTranslationApi, Trim, ToLowerCase, Key, IsValidEnglishWord;
    var translation := CallTranslationApi(service, word, langCode, TargetLanguage);
    if translation.Some? {
      LowerCaseOfLower(translation.value);
    }
  }

  /** The position of the first element of `s` that satisfies `p`, or `|s|` when none does. */
  function FirstIndex<T>(s: seq<T>, p: T -> bool): (i: nat)
    ensures i <= |s|
    ensures forall j :: 0 <= j < i ==> !p(s[j])
    ensures i < |s| ==> p(s[i])
    decreases |s|
  {
    if s == [] || p(s[0]) then 0
    else
      var i := FirstIndex(s[1..], p);
      assert forall j :: 1 <= j < i + 1 ==> s[j] == s[1..][j - 1];
      i + 1
  }

  /** One step of a left-to-right search for the first element satisfying `p`. */
  lemma FirstIndexStep<T>(s: seq<T>, p: T -> bool, i: nat)
    requires i < |s| && i <= FirstIndex(s, p)
    ensures p(s[i]) ==> FirstIndex(s, p) == i
    ensures !p(s[i]) ==> i + 1 <= FirstIndex(s, p)
  {
  }

  /** Past an element that fails the test, the search goes on in the tail. */
  lemma FirstIndexTail<T>(s: seq<T>, p: T -> bool)
    requires s != [] && !p(s[0])
    ensures FirstIndex(s, p) == FirstIndex(s[1..], p) + 1
  {
  }

  /** Whether the answer for a source language survives every filter. */
  function Accepts(service: TranslationService, word: string): string -> bool {
    langCode => AcceptedTranslation(service, word, langCode).Some?
  }

  /** The remote tier: the answer at the first language whose answer is accepted, if any. */
  function FirstAccepted(service: TranslationService, word: string, langs: seq<string>): (r: Option<string>)
    ensures r.Some? ==> IsRemoteAnswer(r.value) && r.value != word
  {
    var i := FirstIndex(langs, Accepts(service, word));
    if i < |langs| then AcceptedTranslation(service, word, langs[i]) else None
  }

  /**
   * The remote tier yields nothing exactly when every language's answer is
   * refused; otherwise it yields the answer of a language all of whose
   * predecessors were refused.
   */
  lemma FirstAcceptedIsFirst(service: TranslationService, word: string, langs: seq<string>)
    ensures FirstAccepted(service, word, langs).None? <==>
      forall j :: 0 <= j < |langs| ==> AcceptedTranslation(service, word, langs[j]).None?
    ensures FirstAccepted(service, word, langs).Some? ==>
      exists i :: 0 <= i < |langs| && FirstAccepted(service, word, langs) == AcceptedTranslation(service, word, langs[i]) &&
        forall j :: 0 <= j < i ==> AcceptedTranslation(service, word, langs[j]).None?
  {
    hide CallTranslationApi, AcceptedTranslation;
    var p := Accepts(service, word);
    var i := FirstIndex(langs, p);
    assert forall j :: 0 <= j < |langs| ==> (p(langs[j]) <==> AcceptedTranslation(service, word, langs[j]).Some?);
    if i < |langs| {
      assert AcceptedTranslation(service, word, langs[i]).Some?;
    }
  }

  /**
   * The remote tier of `translate` as seen from the cache logic: the answer
   * `translateWithService` gives for a key, or `None`.
   */
  type RemoteTier = string -> Option<string>

  /** The remote tier under a given service: the first accepted answer over `langs`. */
  function RemoteTierOf(service: TranslationService, langs: seq<string>): RemoteTier {
    key => FirstAccepted(service, key, langs)
  }

  /** Every answer of the tier is a canonical form the remote tier can produce. */
  ghost predicate WellFormedTier(remote: RemoteTier) {
    forall key :: remote(key).Some? ==> IsRemoteAnswer(remote(key).value)
  }

  /** Every remote tier built from a service is well formed. */
  lemma RemoteTierWellFormed(service: TranslationService, langs: seq<string>)
    ensures WellFormedTier(RemoteTierOf(service, langs))
  {
    var remote := RemoteTierOf(service, langs);
    forall key | remote(key).Some?
      ensures IsRemoteAnswer(remote(key).value)
    {
      assert remote(key) == FirstAccepted(service, key, langs);
    }
  }

  /**
   * The tiers of `translate` for a non-blank key: the cached value if any;
   * else the remote answer when it differs from the key; else the static
   * entry; else the key itself.
   */
  function Resolve(cache: map<string, string>, dict: map<string, string>, remote: RemoteTier, key: string): (r: string)
    ensures key in cache ==> r == cache[key]
    ensures key !in cache ==> r == key || (key in dict && r == dict[key]) || remote(key) == Some(r)
  {
    if key in cache then cache[key]
    else
      var translation := remote(key);
      if translation.Some? && translation.value != key then translation.value
      else if key in dict then dict[key]
      else key
  }

  /** What one call of `translate` returns and the cache it leaves behind. */
  datatype Translated = Translated(result: Option<string>, cache: map<string, string>)

  /**
   * `translate` as a function of the cache it starts from: a null or blank
   * word comes back unchanged and leaves the cache alone; any other word is
   * resolved under its key, and the key then maps to the result in the cache,
   * with no other entry touched.
   */
  function TranslateSpec(cache: map<string, string>, dict: map<string, string>, remote: RemoteTier,
                         word: Option<string>): (t: Translated)
    ensures t.result.Some? <==> word.Some?
    ensures word.None? || IsBlank(word.value) ==> t == Translated(word, cache)
    ensures word.Some? && !IsBlank(word.value) ==>
      var key := Key(word.value);
      t.cache == cache[key := t.result.value]
  {
    if word.None? || IsBlank(word.value) then Translated(word, cache)
    else
      var key := Key(word.value);
      var canonical := Resolve(cache, dict, remote, key);
      Translated(Some(canonical), cache[key := canonical])
  }

  /** The definition of `TranslateSpec`, for proofs that hide function bodies. */
  lemma TranslateSpecMeans(cache: map<string, string>, dict: map<string, string>, remote: RemoteTier,
                           word: Option<string>)
    ensures TranslateSpec(cache, dict, remote, word) ==
            if word.None? || IsBlank(word.value) then Translated(word, cache)
            else
              var key := Key(word.value);
              var canonical := Resolve(cache, dict, remote, key);
              Translated(Some(canonical), cache[key := canonical])
  {
  }

  /**
   * The order of the tiers after a cache miss: the remote tier's answer when
   * it has one, else the static entry, else the key itself. The remote answer
   * wins over a static entry for the same key.
   */
  lemma TierOrder(cache: map<string, string>, dict: map<string, string>, service: TranslationService, word: string)
    requires !IsBlank(word) && Key(word) !in cache
    ensures var key := Key(word);
            var answer := FirstAccepted(service, key, SupportedLanguages);
            TranslateSpec(cache, dict, RemoteTierOf(service, SupportedLanguages), Some(word)).result ==
              Some(if answer.Some? then answer.value else if key in dict then dict[key] else key)
  {
    hide CallTranslationApi, AcceptedTranslation, FirstAccepted, Key, Trim, ToLowerCase, IsBlank;
  }

  /** A service that never answers, as when the network is down. */
  function Offline(): TranslationService {
    (text: string, fromLang: string, toLang: string) => None
  }

  /** With the service down and nothing cached, resolution is the static lookup, else identity. */
  lemma OfflineResolve(dict: map<string, string>, langs: seq<string>, key: string)
    ensures Resolve(map[], dict, RemoteTierOf(Offline(), langs), key) == if key in dict then dict[key] else key
  {
    assert FirstAccepted(Offline(), key, langs).None?;
  }

  /** Once a word has been translated, translating it again returns the same result and changes nothing, whatever the remote tier does. */
  lemma ResolveStableOnceCached(cache: map<string, string>, dict: map<string, string>,
                                remote: RemoteTier, later: RemoteTier, word: string)
    requires !IsBlank(word)
    ensures var t := TranslateSpec(cache, dict, remote, Some(word));
            TranslateSpec(t.cache, dict, later, Some(word)) == t
  {
    var t := TranslateSpec(cache, dict, remote, Some(word));
    TranslateCached(t.cache, dict, later, Some(word));
  }

  /** The seed of `initializeStaticTranslations`, every `put` in source order: later puts of the same key win. */
  function SeedTranslations(): map<string, string> {
    map[
      "flor" := "flower", "blume" := "flower", "fiore" := "flower", "fleur" := "flower", "bloem" := "flower",
      "casa" := "house", "haus" := "house", "maison" := "house", "casa" := "house", "huis" := "house",
      "agua" := "water", "wasser" := "water", "eau" := "water", "acqua" := "water", "water" := "water",
      "perro" := "dog", "hund" := "dog", "chien" := "dog", "cane" := "dog", "hond" := "dog",
      "gato" := "cat", "katze" := "cat", "chat" := "cat", "gatto" := "cat", "kat" := "cat",
      "libro" := "book", "buch" := "book", "livre" := "book", "libro" := "book", "boek" := "book",
      "coche" := "car", "auto" := "car", "voiture" := "car", "macchina" := "car", "auto" := "car",
      "mesa" := "table", "tisch" := "table", "table" := "table", "tavolo" := "table", "tafel" := "table"
    ]
  }

  /**
   * The keys of the seed, in four groups; each group holds the 9 or 10
   * foreign words seeded for two English words.
   */
  function SeedKeysFlowerHouse(): set<string> {
    {"flor", "blume", "fiore", "fleur", "bloem", "casa", "haus", "maison", "huis"}
  }

  function SeedKeysWaterDog(): set<string> {
    {"agua", "wasser", "eau", "acqua", "water", "perro", "hund", "chien", "cane", "hond"}
  }

  function SeedKeysCatBook(): set<string> {
    {"gato", "katze", "chat", "gatto", "kat", "libro", "buch", "livre", "boek"}
  }

  function SeedKeysCarTable(): set<string> {
    {"coche", "auto", "voiture", "macchina", "mesa", "tisch", "table", "tavolo", "tafel"}
  }

  lemma SeedKeysFlowerHouseSize()
    ensures |SeedKeysFlowerHouse()| == 9
  {
  }

  lemma SeedKeysWaterDogSize()
    ensures |SeedKeysWaterDog()| == 10
  {
  }

  lemma SeedKeysCatBookSize()
    ensures |SeedKeysCatBook()| == 9
  {
  }

  lemma SeedKeysCarTableSize()
    ensures |SeedKeysCarTable()| == 9
  {
  }

  /** No word is seeded in two groups. */
  lemma SeedGroupsDisjoint()
    ensures SeedKeysFlowerHouse() !! SeedKeysWaterDog()
    ensures SeedKeysFlowerHouse() + SeedKeysWaterDog() !! SeedKeysCatBook()
    ensures SeedKeysFlowerHouse() + SeedKeysWaterDog() + SeedKeysCatBook() !! SeedKeysCarTable()
  {
    CatBookApart();
    CarTableApart();
  }

  /** The cat and book words are seeded in no earlier group. */
  lemma CatBookApart()
    ensures SeedKeysFlowerHouse() !! SeedKeysCatBook() && SeedKeysWaterDog() !! SeedKeysCatBook()
  {
  }

  /** The car and table words are seeded in no earlier group. */
  lemma CarTableApart()
    ensures SeedKeysFlowerHouse() !! SeedKeysCarTable()
    ensures SeedKeysWaterDog() !! SeedKeysCarTable()
    ensures SeedKeysCatBook() !! SeedKeysCarTable()
  {
  }

  /** The seeded words are the four groups together. */
  lemma SeedKeys()
    ensures SeedTranslations().Keys == SeedKeysFlowerHouse() + SeedKeysWaterDog() + SeedKeysCatBook() + SeedKeysCarTable()
  {
  }

  /**
   * The 40 `put` calls of the seed leave 37 entries: "casa", "libro" and
   * "auto" are each put twice.
   */
  lemma SeedSize()
    ensures |SeedTranslations()| == 37
  {
    SeedKeys();
    SeedKeysFlowerHouseSize();
    SeedKeysWaterDogSize();
    SeedKeysCatBookSize();
    SeedKeysCarTableSize();
    SeedGroupsDisjoint();
  }

  /** Statistics reported by `getStats`. */
  datatype TranslationStats = TranslationStats(cacheSize: nat, staticTranslations: nat, successfulTranslations: nat)

  /** A cached value is justified by the tier that produced it: identity, the static entry, or the remote tier. */
  predicate IsJustified(key: string, value: string, dict: map<string, string>) {
    value == key || (key in dict && dict[key] == value) || IsRemoteAnswer(value)
  }

  /**
   * The invariant of the translator's tables: the cache is keyed by
   * normalized words, and every cached value is justified.
   */
  predicate TablesValid(cache: map<string, string>, dict: map<string, string>) {
    forall k :: k in cache ==> IsKey(k) && IsJustified(k, cache[k], dict)
  }

  /** Storing a justified value under a key keeps the tables valid. */
  lemma PutKeepsTablesValid(cache: map<string, string>, dict: map<string, string>, k: string, v: string)
    requires TablesValid(cache, dict) && IsKey(k) && IsJustified(k, v, dict)
    ensures TablesValid(cache[k := v], dict)
  {
    forall j | j in cache && j != k
      ensures IsJustified(j, cache[k := v][j], dict)
    {
      assert IsJustified(j, cache[j], dict);
    }
  }

  /** Writing a resolution back into the cache keeps the tables valid. */
  lemma WriteBackKeepsTablesValid(cache: map<string, string>, dict: map<string, string>,
                                  remote: RemoteTier, word: Option<string>)
    requires TablesValid(cache, dict) && WellFormedTier(remote)
    ensures TablesValid(TranslateSpec(cache, dict, remote, word).cache, dict)
  {
    hide CallTranslationApi, AcceptedTranslation, FirstAccepted, Trim, ToLowerCase, IsBlank, IsRemoteAnswer;
    if word.Some? && !IsBlank(word.value) {
      var key := Key(word.value);
      var v := Resolve(cache, dict, remote, key);
      if key in cache {
        assert IsJustified(key, cache[key], dict);
      }
      PutKeepsTablesValid(cache, dict, key, v);
    }
  }

  /** A cache hit: the cached value comes back and the cache is unchanged. */
  lemma TranslateCached(cache: map<string, string>, dict: map<string, string>,
                        remote: RemoteTier, word: Option<string>)
    requires word.Some? && !IsBlank(word.value) && Key(word.value) in cache
    ensures TranslateSpec(cache, dict, remote, word) == Translated(Some(cache[Key(word.value)]), cache)
  {
    RestoreEntry(cache, Key(word.value));
  }

  /** Putting back the value a key already has leaves a map as it was. */
  lemma RestoreEntry<K, V>(m: map<K, V>, k: K)
    requires k in m
    ensures m[k := m[k]] == m
  {
  }

  /**
   * Under the invariant, translating a cached word is a cache hit: a cached
   * key is its own key, so the word finds its entry and gets the cached value
   * back, with the cache unchanged.
   */
  lemma CachedWordHitsCache(cache: map<string, string>, dict: map<string, string>, remote: RemoteTier, k: string)
    requires TablesValid(cache, dict) && k in cache && !IsBlank(k)
    ensures TranslateSpec(cache, dict, remote, Some(k)) == Translated(Some(cache[k]), cache)
  {
    KeyOfKey(k);
    TranslateCached(cache, dict, remote, Some(k));
  }

  /**
   * Every value the invariant allows as a remote answer can be produced: for
   * a key and a different 2-to-20-letter word, some service makes the remote
   * tier answer with that word.
   */
  lemma RemoteAnswerReachable(key: string, v: string)
    requires IsKey(key) && IsRemoteAnswer(v) && v != key
    ensures exists service :: RemoteTierOf(service, SupportedLanguages)(key) == Some(v)
  {
    hide CallTranslationApi, AcceptedTranslation, FirstIndex, Trim, ToLowerCase;
    var service: TranslationService := (text: string, fromLang: string, toLang: string) => Some(ServiceReply(v, 1.0));
    assert HasNoUpperCase(v) && HasNoTrimmableEnds(v);
    LowerCaseOfLower(v);
    LowerCaseOfLower(key);
    TrimOfTrimmed(v);
    AcceptedTranslationFromReply(service, key, SupportedLanguages[0], v);
    assert Accepts(service, key)(SupportedLanguages[0]);
    FirstIndexStep(SupportedLanguages, Accepts(service, key), 0);
    assert FirstAccepted(service, key, SupportedLanguages) == Some(v);
    assert RemoteTierOf(service, SupportedLanguages)(key) == Some(v);
  }

  /** Storing a custom pair in both tables keeps them valid. */
  lemma CustomPairKeepsTablesValid(cache: map<string, string>, dict: map<string, string>, k: string, v: string)
    requires TablesValid(cache, dict) && IsKey(k)
    ensures TablesValid(cache[k := v], dict[k := v])
  {
    forall j | j in cache && j != k
      ensures IsJustified(j, cache[k := v][j], dict[k := v])
    {
      assert IsJustified(j, cache[j], dict);
    }
  }

  class DefaultTranslator {
    var translationCache: map<string, string>
    var staticTranslations: map<string, string>
    const supportedLanguages: seq<string>

    ghost predicate Valid()
      reads this
    {
      TablesValid(translationCache, staticTranslations)
    }

    /** The definition of `Valid`, for proofs that hide function bodies. */
    lemma ValidMeans()
      ensures Valid() <==> TablesValid(translationCache, staticTranslations)
    {
    }

    constructor ()
      ensures Valid()
      ensures translationCache == map[]
      ensures staticTranslations == SeedTranslations() && |staticTranslations| == 37
      ensures supportedLanguages == SupportedLanguages
    {
      SeedSize();
      translationCache := map[];
      supportedLanguages := SupportedLanguages;
      staticTranslations := SeedTranslations();
    }

    /**
     * `translate`: the result and the new cache are those of `TranslateSpec`;
     * the static dictionary is not touched.
     */
    method Translate(word: Option<string>, service: TranslationService) returns (r: Option<string>)
      requires Valid()
      modifies this`translationCache
      ensures Translated(r, translationCache) ==
              TranslateSpec(old(translationCache), staticTranslations, RemoteTierOf(service, supportedLanguages), word)
      ensures Valid()
    {
      hide *;
      ghost var remote := RemoteTierOf(service, supportedLanguages);
      ValidMeans();
      RemoteTierWellFormed(service, supportedLanguages);
      WriteBackKeepsTablesValid(translationCache, staticTranslations, remote, word);
      TranslateSpecMeans(translationCache, staticTranslations, remote, word);
      if word.None? || Trim(word.value) == [] {
        ValidMeans();
        return word;
      }
      var normalizedWord := Trim(ToLowerCase(word.value));
      KeyMeans(word.value);
      if normalizedWord in translationCache {
        TranslateCached(translationCache, staticTranslations, remote, word);
        ValidMeans();
        return Some(translationCache[normalizedWord]);
      }
      var canonical := TranslateUncached(normalizedWord, service);
      ValidMeans();
      return Some(canonical);
    }

    /**
     * The tiers of `translate` after a cache miss: the remote answer when it
     * differs from the key, else the static entry, else the key itself; the
     * result is written back under the key.
     */
    method TranslateUncached(normalizedWord: string, service: TranslationService) returns (canonical: string)
      requires normalizedWord !in translationCache
      modifies this`translationCache
      ensures canonical == Resolve(old(translationCache), staticTranslations, RemoteTierOf(service, supportedLanguages), normalizedWord)
      ensures translationCache == old(translationCache)[normalizedWord := canonical]
    {
      var translation := TranslateWithService(normalizedWord, service);
      assert RemoteTierOf(service, supportedLanguages)(normalizedWord) == translation;
      if translation.Some? && translation.value != normalizedWord {
        translationCache := translationCache[normalizedWord := translation.value];
        return translation.value;
      }
      if normalizedWord in staticTranslations {
        var staticTranslation := staticTranslations[normalizedWord];
        translationCache := translationCache[normalizedWord := staticTranslation];
        return staticTranslation;
      }
      translationCache := translationCache[normalizedWord := normalizedWord];
      return normalizedWord;
    }

    /** `translateWithService`: the languages are tried in order and the first accepted answer wins. */
    method TranslateWithService(word: string, service: TranslationService) returns (r: Option<string>)
      ensures r == FirstAccepted(service, word, supportedLanguages)
    {
      ghost var accepts := Accepts(service, word);
      for i := 0 to |supportedLanguages|
        invariant i <= FirstIndex(supportedLanguages, accepts)
      {
        var langCode := supportedLanguages[i];
        var translation := CallTranslationApi(service, word, langCode, TargetLanguage);
        var accepted := translation.Some? && translation.value != word && IsValidEnglishWord(translation.value);
        assert accepts(langCode) == accepted;
        FirstIndexStep(supportedLanguages, accepts, i);
        if accepted {
          return Some(ToLowerCase(translation.value));
        }
      }
      return None;
    }

    /**
     * `isTranslationAvailable`: answered from the tables alone. A cached word
     * is available exactly when its cached form differs from it; an uncached
     * one exactly when the static dictionary has it, identity entries included.
     */
    function IsTranslationAvailable(word: Option<string>): (r: bool)
      reads this
      ensures word.None? ==> !r
      ensures word.Some? && Key(word.value) !in translationCache ==> (r <==> Key(word.value) in staticTranslations)
      ensures word.Some? && Key(word.value) in translationCache ==>
        (r <==> translationCache[Key(word.value)] != Key(word.value))
    {
      if word.None? then false
      else
        var normalizedWord := Key(word.value);
        if normalizedWord in translationCache then
          translationCache[normalizedWord] != normalizedWord
        else normalizedWord in staticTranslations
    }

    /**
     * `addCustomTranslation`: with both words present, the normalized foreign
     * word maps to the normalized English word in both tables; otherwise
     * nothing changes.
     */
    method AddCustomTranslation(foreignWord: Option<string>, englishWord: Option<string>)
      requires Valid()
      modifies this`translationCache, this`staticTranslations
      ensures Valid()
      ensures foreignWord.None? || englishWord.None? ==>
        translationCache == old(translationCache) && staticTranslations == old(staticTranslations)
      ensures foreignWord.Some? && englishWord.Some? ==>
        && staticTranslations == old(staticTranslations)[Key(foreignWord.value) := Key(englishWord.value)]
        && translationCache == old(translationCache)[Key(foreignWord.value) := Key(englishWord.value)]
    {
      if foreignWord.Some? && englishWord.Some? {
        CustomPairKeepsTablesValid(translationCache, staticTranslations, Key(foreignWord.value), Key(englishWord.value));
        staticTranslations := staticTranslations[Trim(ToLowerCase(foreignWord.value)) := Trim(ToLowerCase(englishWord.value))];
        translationCache := translationCache[Trim(ToLowerCase(foreignWord.value)) := Trim(ToLowerCase(englishWord.value))];
      }
    }

    /** `clearCache`: the cache is emptied and the static dictionary kept. */
    method ClearCache()
      requires Valid()
      modifies this`translationCache
      ensures Valid()
      ensures translationCache == map[]
      ensures GetCacheSize() == 0
    {
      translationCache := map[];
    }

    /** `getCacheSize`: agrees with the cache size `getStats` reports, and is 0 only for an empty cache. */
    function GetCacheSize(): (n: nat)
      reads this
      ensures n == GetStats().cacheSize
      ensures n == 0 <==> translationCache == map[]
    {
      |translationCache|
    }

    /**
     * `getStats`: sizes of both tables, and the number of cache entries whose
     * value is not itself a cached key. That number never exceeds the cache
     * size, and is 0 when every entry maps a word to itself.
     */
    function GetStats(): (s: TranslationStats)
      reads this
      ensures s.cacheSize == |translationCache| && s.staticTranslations == |staticTranslations|
      ensures s.successfulTranslations <= s.cacheSize
      ensures (forall k :: k in translationCache ==> translationCache[k] == k) ==> s.successfulTranslations == 0
    {
      var successful := set k | k in translationCache && translationCache[k] !in translationCache;
      assert successful <= translationCache.Keys;
      SubsetCardinality(successful, translationCache.Keys);
      TranslationStats(|translationCache|, |staticTranslations|, |successful|)
    }
  }

  /** A subset is no larger than its superset. */
  lemma SubsetCardinality<T>(a: set<T>, b: set<T>)
    requires a <= b
    ensures |a| <= |b|
  {
    assert b == a + (b - a);
  }
}
