/** The extension's event listeners (main.py): the two preference listeners,
    which reload the word list, and the keyword-query listener, which serves
    a query from the result cache or computes, caches and renders it. The
    listeners mutate the extension object; here each takes the extension's
    state and returns the next one. */
module Extension {
  import opened Results
  import opened Seqs
  import opened Text
  import opened Words
  import opened Filters
  import opened Fuzzy
  import opened FifoCache

  /** `extension.preferences`. */
  type Prefs = map<string, string>

  /** `(query, preferences["matching"], preferences["vocabulary"])`. */
  type Key = (string, string, string)

  /** The extension's mutable attributes: its preferences, `word_list` and
      `search_cache`. */
  datatype State = State(prefs: Prefs, wordList: seq<Word>, cache: Cache<Key, seq<Word>>)

  /** The result item a listener renders: its name, its description and the
      text copied to the clipboard on enter, if any. The icon is always
      `images/icon.png` and is not modelled. */
  datatype Item = Item(name: string, description: string, copy: Option<string>)

  /** The item shown for an empty query. */
  const Placeholder: Item := Item("Type in the word...", "", None)

  /** `result_list[:9]`: at most this many results are rendered. */
  const Shown: int := 9

  /** What the query listener depends on but cannot see:
      - `regex(q, name)`: whether `re.search("^" + q, name)` matches, used
        only for queries with regular-expression metacharacters;
      - `extract`: RapidFuzz's `process.extract`, `None` when RapidFuzz is
        not installed;
      - `rank(q, words)`: the contents of a `CustomSortedList(q, 65)`
        extended with `words`, the fallback without RapidFuzz. */
  datatype Env = Env(regex: (string, string) -> bool, extract: Option<Extract>, rank: (string, seq<Word>) -> seq<Word>)

  /** The state of a new `OneDictExtension`: no words, an empty cache. */
  function Start(prefs: Prefs): (s: State)
    ensures s.prefs == prefs && s.wordList == []
    ensures Valid(s.cache) && forall key :: Lookup(s.cache, key) == None
  {
    State(prefs, [], Empty())
  }

  /** The reply of a preference listener: the next state, and the name of
      the exception it raised, if any. */
  datatype Outcome = Outcome(state: State, error: Option<string>)

  /** `PreferencesEventListener.on_event`: merge the event's preferences,
      then load the lower-cased vocabularies. The cache is not cleared. A
      missing `vocabulary` preference raises `KeyError`, a missing file
      `FileNotFoundError`, and either leaves the old word list. */
  function OnPreferences(s: State, prefs: Prefs, files: map<string, seq<string>>): (r: Outcome)
    ensures r.state.prefs.Keys == s.prefs.Keys + prefs.Keys
    ensures forall k :: k in prefs ==> r.state.prefs[k] == prefs[k]
    ensures forall k :: k in s.prefs && k !in prefs ==> r.state.prefs[k] == s.prefs[k]
    ensures r.state.cache == s.cache
    ensures r.error.Some? ==> r.state.wordList == s.wordList
    ensures r.error.None? ==>
              "vocabulary" in r.state.prefs &&
              var loaded := LoadWords(files, InitialVocabularyNames(r.state.prefs["vocabulary"]));
              loaded.Success? && r.state.wordList == loaded.value
  {
    var merged := s.prefs + prefs;
    if "vocabulary" !in merged then Outcome(s.(prefs := merged), Some("KeyError"))
    else
      match LoadWords(files, InitialVocabularyNames(merged["vocabulary"]))
      case Failure(e) => Outcome(s.(prefs := merged), Some(e))
      case Success(ws) => Outcome(s.(prefs := merged, wordList := ws), None)
  }

  /** The initial load succeeds exactly when the `vocabulary` preference is
      set and every name in it has a file; every word it loads then belongs
      to a lower-case vocabulary name. */
  lemma InitialLoad(s: State, prefs: Prefs, files: map<string, seq<string>>)
    ensures var r := OnPreferences(s, prefs, files);
      r.error.None? <==> ("vocabulary" in r.state.prefs &&
        var names := InitialVocabularyNames(r.state.prefs["vocabulary"]);
        forall i :: 0 <= i < |names| ==> names[i] in files)
    ensures var r := OnPreferences(s, prefs, files);
      r.error.None? ==> forall w :: w in r.state.wordList ==> IsLower(w.vocabulary)
  {
    var merged := s.prefs + prefs;
    if "vocabulary" in merged {
      var names := InitialVocabularyNames(merged["vocabulary"]);
      var loaded := LoadWords(files, names);
      if loaded.Success? {
        assert forall w :: w in loaded.value ==> w.vocabulary in names;
      }
    }
  }

  /** `PreferencesUpdateEventListener.on_event`: set one preference, load
      the vocabularies as written (not lower-cased), then clear the cache.
      A failed load raises before the cache is cleared. */
  function OnPreferencesUpdate(s: State, id: string, value: string, files: map<string, seq<string>>): (r: Outcome)
    ensures r.state.prefs == s.prefs[id := value]
    ensures r.error.Some? ==> r.state.wordList == s.wordList && r.state.cache == s.cache
    ensures r.error.None? ==> Valid(r.state.cache) && forall key :: Lookup(r.state.cache, key) == None
    ensures r.error.None? ==>
              "vocabulary" in r.state.prefs &&
              var loaded := LoadWords(files, VocabularyNames(r.state.prefs["vocabulary"]));
              loaded.Success? && r.state.wordList == loaded.value
  {
    var prefs := s.prefs[id := value];
    if "vocabulary" !in prefs then Outcome(s.(prefs := prefs), Some("KeyError"))
    else
      match LoadWords(files, VocabularyNames(prefs["vocabulary"]))
      case Failure(e) => Outcome(s.(prefs := prefs), Some(e))
      case Success(ws) => Outcome(State(prefs, ws, Empty()), None)
  }

  /** The reload after an update succeeds exactly when every name in the
      `vocabulary` preference has a file; no loaded word then belongs to a
      vocabulary name holding a comma. */
  lemma UpdateLoad(s: State, id: string, value: string, files: map<string, seq<string>>)
    ensures var r := OnPreferencesUpdate(s, id, value, files);
      r.error.None? <==> ("vocabulary" in r.state.prefs &&
        var names := VocabularyNames(r.state.prefs["vocabulary"]);
        forall i :: 0 <= i < |names| ==> names[i] in files)
    ensures var r := OnPreferencesUpdate(s, id, value, files);
      r.error.None? ==> forall w :: w in r.state.wordList ==> ',' !in w.vocabulary
  {
    var prefs := s.prefs[id := value];
    if "vocabulary" in prefs {
      var names := VocabularyNames(prefs["vocabulary"]);
      var loaded := LoadWords(files, names);
      if loaded.Success? {
        assert forall w :: w in loaded.value ==> w.vocabulary in names;
      }
    }
  }

  /** The test `re.search("^" + query, name)`: a literal prefix test for a
      query without metacharacters, `env.regex` otherwise. */
  function RegexTest(query: string, env: Env): (test: Word -> bool)
    ensures IsLiteral(query) ==> forall w :: test(w) <==> StartsWith(w.name, query)
    ensures !IsLiteral(query) ==> forall w :: test(w) == env.regex(query, w.name)
  {
    if IsLiteral(query) then PrefixTest(query) else (w: Word) => env.regex(query, w.name)
  }

  /** Lines 179-197 of main.py: the result list computed on a cache miss.
      The "regex" method keeps the first-character candidates the pattern
      matches; any other method ranks the length and first-character
      candidates with RapidFuzz, or with the sorted-list fallback. */
  function Compute(words: seq<Word>, query: string, matching: string, env: Env): (r: seq<Word>)
    ensures matching == "regex" ==> IsSubseq(r, words)
    ensures matching == "regex" && query != [] ==> forall w :: w in r ==> w in words && SameInitial(w, query)
    ensures matching == "regex" && IsLiteral(query) ==>
      forall w :: w in r <==> w in words && StartsWith(w.name, query)
    ensures matching != "regex" && env.extract.Some? && query != [] ==> forall w :: w in r ==>
      w in words && InLengthWindow(w, query, LengthTolerance) && SameInitial(w, query)
    ensures matching == "regex" && IsLiteral(query) ==> r == RegexMatches(words, query)
    ensures matching != "regex" && env.extract.Some? ==>
      r == RapidfuzzSearch(FuzzyCandidates(words, query), query, env.extract, ResultLimit, ScoreCutoff)
    ensures matching != "regex" && env.extract.None? ==> r == env.rank(query, FuzzyCandidates(words, query))
  {
    if matching == "regex" then
      var candidates := FirstCharFilter(words, query);
      var r := Keep(candidates, RegexTest(query, env));
      SubseqTransitive(r, candidates, words);
      assert IsLiteral(query) ==> r == RegexMatches(words, query);
      r
    else
      var candidates := FuzzyCandidates(words, query);
      if env.extract.Some? then RapidfuzzSearch(candidates, query, env.extract, ResultLimit, ScoreCutoff)
      else env.rank(query, candidates)
  }

  /** A result that renders: neither its name nor its vocabulary holds a
      slash. */
  predicate Renders(w: Word) {
    '/' !in w.name && '/' !in w.vocabulary
  }

  /** The item a result renders as: its name, copied on enter, and its
      vocabulary as the language. */
  function ItemOf(w: Word): Item {
    Item(w.name, "Language: " + w.vocabulary, Some(w.name))
  }

  /** One iteration of lines 206-216 of main.py: the result's
      representation is split on `/` into the item's name and language, and
      an unpacking of any other number of parts raises `ValueError`. */
  function RenderOne(w: Word): (r: Result<Item>)
    ensures r.Success? <==> Renders(w)
    ensures r.Failure? ==> r.error == "ValueError"
    ensures r.Success? ==> r.value == ItemOf(w)
  {
    DecodeReprRoundTrip(w);
    match DecodeRepr(Repr(w))
    case Failure(e) => Failure(e)
    case Success(parts) => Success(Item(parts.0, "Language: " + parts.1, Some(parts.0)))
  }

  /** The items of the results, in order, each rendered by `one`; the first
      result that cannot be rendered aborts the listener. */
  function RenderEach(results: seq<Word>, one: Word -> Result<Item>): (r: Result<seq<Item>>)
    ensures r.Success? ==> |r.value| == |results|
    ensures r.Failure? ==> exists i :: 0 <= i < |results| && one(results[i]) == Failure(r.error)
  {
    if results == [] then Success([])
    else
      match one(results[0])
      case Failure(e) => Failure(e)
      case Success(item) =>
        match RenderEach(results[1..], one)
        case Failure(e) =>
          assert forall i :: 0 <= i < |results| - 1 ==> results[1..][i] == results[i + 1];
          Failure(e)
        case Success(rest) => Success([item] + rest)
  }

  /** When `one` renders exactly the results without a slash, the whole
      list renders exactly when every result does, as their items in
      result order. */
  lemma {:induction false} RenderEachItems(results: seq<Word>, one: Word -> Result<Item>)
    requires forall w :: one(w).Success? <==> Renders(w)
    requires forall w :: one(w).Success? ==> one(w).value == ItemOf(w)
    ensures RenderEach(results, one).Success? <==> forall i :: 0 <= i < |results| ==> Renders(results[i])
    ensures RenderEach(results, one).Success? ==>
      forall i :: 0 <= i < |results| ==> RenderEach(results, one).value[i] == ItemOf(results[i])
  {
    if results != [] {
      var tail := results[1..];
      RenderEachItems(tail, one);
      assert forall i :: 1 <= i < |results| ==> results[i] == tail[i - 1];
    }
  }

  /** The rendering loop of the query listener. */
  function Render(results: seq<Word>): (r: Result<seq<Item>>)
    ensures r.Failure? ==> r.error == "ValueError"
    ensures r.Success? ==> |r.value| == |results|
  {
    RenderEach(results, RenderOne)
  }

  /** Rendering succeeds exactly when no result holds a slash in its name
      or vocabulary, and then the items are the results' items in result
      order. */
  lemma RenderItems(results: seq<Word>)
    ensures Render(results).Success? <==> forall i :: 0 <= i < |results| ==> Renders(results[i])
    ensures Render(results).Success? ==> forall i :: 0 <= i < |results| ==> Render(results).value[i] == ItemOf(results[i])
  {
    RenderEachItems(results, RenderOne);
  }

  /** The reply of the query listener: the next state, and the items or the
      name of the exception raised. */
  datatype Reply = Reply(state: State, items: Result<seq<Item>>)

  /** The cache key of a query, or `KeyError` when a preference is missing. */
  function CacheKey(prefs: Prefs, query: string): (r: Result<Key>)
    ensures r.Success? <==> "matching" in prefs && "vocabulary" in prefs
    ensures r.Success? ==> r.value.0 == query
    ensures r.Success? ==> r.value.1 == prefs["matching"] && r.value.2 == prefs["vocabulary"]
  {
    if "matching" in prefs && "vocabulary" in prefs then Success((query, prefs["matching"], prefs["vocabulary"]))
    else Failure("KeyError")
  }

  /** How the listener computes the result list of a query and matching
      method on a cache miss. */
  type Computer = (string, string) -> seq<Word>

  /** `KeywordQueryEventListener.on_event` with the miss computation
      `compute`. An empty query (or none) shows the placeholder and touches
      nothing. Otherwise a cached result list is reused as it is, and a
      missing one is computed and stored; then at most nine results are
      rendered. The store happens before rendering, so a rendering failure
      still leaves the new entry cached. */
  function HandleQuery(s: State, query: string, compute: Computer): (r: Reply)
    requires Valid(s.cache)
    ensures Valid(r.state.cache)
    ensures r.state.prefs == s.prefs && r.state.wordList == s.wordList
    ensures query == [] ==> r == Reply(s, Success([Placeholder]))
    ensures r.items.Success? ==> |r.items.value| <= Shown
    ensures query != [] && CacheKey(s.prefs, query).Failure? ==> r == Reply(s, Failure("KeyError"))
    ensures query != [] && CacheKey(s.prefs, query).Success? ==>
      Lookup(r.state.cache, CacheKey(s.prefs, query).value).Some?
    ensures query != [] && CacheKey(s.prefs, query).Success? && Lookup(s.cache, CacheKey(s.prefs, query).value).Some? ==>
      r.state == s
  {
    if query == [] then Reply(s, Success([Placeholder]))
    else
      match CacheKey(s.prefs, query)
      case Failure(e) => Reply(s, Failure(e))
      case Success(key) =>
        match Lookup(s.cache, key)
        case Some(hit) => Reply(s, Render(Take(hit, Shown)))
        case None =>
          var computed := compute(query, key.1);
          Reply(s.(cache := Insert(s.cache, key, computed)), Render(Take(computed, Shown)))
  }

  /** The miss computation of lines 179-197 of main.py over `words`. */
  function Searcher(words: seq<Word>, env: Env): Computer {
    (query: string, matching: string) => Compute(words, query, matching, env)
  }

  /** `KeywordQueryEventListener.on_event(event, extension)`. */
  function OnKeywordQuery(s: State, query: string, env: Env): (r: Reply)
    requires Valid(s.cache)
    ensures Valid(r.state.cache)
    ensures r.state.prefs == s.prefs && r.state.wordList == s.wordList
  {
    HandleQuery(s, query, Searcher(s.wordList, env))
  }

  /** The items a query shows are the rendering of the first nine entries
      of the result list cached under its key once the listener returns. */
  lemma QueryShowsCachedList(s: State, query: string, compute: Computer)
    requires Valid(s.cache) && query != [] && CacheKey(s.prefs, query).Success?
    ensures var r := HandleQuery(s, query, compute);
      r.items == Render(Take(Lookup(r.state.cache, CacheKey(s.prefs, query).value).value, Shown))
  {
  }

  /** A miss stores the computed list under the query's key; every other
      key keeps its list, except the oldest key when the cache was full. */
  lemma MissStoresComputed(s: State, query: string, compute: Computer, other: Key)
    requires Valid(s.cache) && query != [] && CacheKey(s.prefs, query).Success?
    requires Lookup(s.cache, CacheKey(s.prefs, query).value).None?
    requires other != CacheKey(s.prefs, query).value
    ensures var key := CacheKey(s.prefs, query).value;
      var cache := HandleQuery(s, query, compute).state.cache;
      && Lookup(cache, key) == Some(compute(query, key.1))
      && Lookup(cache, other) == if |s.cache.items| >= Capacity && other == s.cache.items[0].0 then None else Lookup(s.cache, other)
  {
    var key := CacheKey(s.prefs, query).value;
    InsertKeepsOthers(s.cache, key, compute(query, key.1), other);
  }

  /** Asking the same query again is a cache hit: the same items, and the
      state left as the first query left it. */
  lemma RepeatQueryHits(s: State, query: string, env: Env)
    requires Valid(s.cache)
    ensures var first := OnKeywordQuery(s, query, env);
      OnKeywordQuery(first.state, query, env) == first
  {
  }

  /** After an update whose vocabularies all have files, every query
      misses the cache. */
  lemma UpdateInvalidates(s: State, id: string, value: string, files: map<string, seq<string>>, query: string)
    requires "vocabulary" in s.prefs[id := value]
    requires var names := VocabularyNames(s.prefs[id := value]["vocabulary"]);
      forall i :: 0 <= i < |names| ==> names[i] in files
    ensures var t := OnPreferencesUpdate(s, id, value, files).state;
      CacheKey(t.prefs, query).Success? ==> Lookup(t.cache, CacheKey(t.prefs, query).value).None?
  {
    UpdateLoad(s, id, value, files);
  }
}
