# ulauncher-spell search pipeline in Dafny

A Dafny model of the search pipeline of the ulauncher-spell extension. It
covers the following, with each stated as pure functions over immutable data
and proved against the properties the code promises:

- the `Word` record and its `"word/vocabulary"` representation;
- `load_words` over the lines of the vocabulary files;
- the two candidate pre-filters;
- the "regex" prefix branch;
- the mapping of RapidFuzz matches back to words;
- the bounded first-in-first-out result cache;
- the three event listeners of `main.py`;
- the `SymSpellOptimizer` bookkeeping of `symspell_benchmark.py`: its
  name-to-words dictionary, and the conversion of SymSpell suggestions into
  words.

The foreign libraries are inputs of the model, not part of it:

- RapidFuzz `process.extract`;
- symspellpy `lookup` and `word_segmentation`;
- ulauncher's sorted list;
- Python's `re` for queries with metacharacters.

Each is a function parameter whose output is arbitrary. File contents are a
map from vocabulary name to lines.

Modules, one per file:

| file | module | what it holds |
|---|---|---|
| `results.dfy` | `Results` | `Option`, and `Result` for a Python exception by name |
| `seqs.dfy` | `Seqs` | order-preserving filter `Keep`, `Dedup`, `Take` (`s[:n]`), the subsequence relation |
| `text.dfy` | `Text` | `strip`/`lstrip`/`rstrip`, `split`, `lower`, and the anchored prefix test |
| `words.dfy` | `Words` | `Word`, `__repr__` and its split, `load_words`, parsing of the `vocabulary` preference |
| `filters.dfy` | `Filters` | `filter_words_by_length`, `filter_words_by_first_char`, the regex branch |
| `fuzzy.dfy` | `Fuzzy` | `rapidfuzz_search` |
| `cache.dfy` | `FifoCache` | `search_cache`, a dict modelled as its items in insertion order |
| `extension.dfy` | `Extension` | the preference listeners and the keyword-query listener |
| `symspell.dfy` | `SymSpell` | `build_dictionary`, `search`, `search_compound` |

The code is followed wherever the documented behaviour of the extension
says something different:

- Blank lines are said to be skipped. `load_words` keeps them as words with
  an empty name (`Words.ReadVocabulary`).
- The prefix search is said to treat the query literally. The code puts the
  query into the pattern unescaped. The model computes the prefix test for
  queries without metacharacters and leaves other queries to the `re`
  parameter (`Extension.Compute`).
- A whitespace-only query is said to count as empty. The code only tests
  truthiness, so such a query is searched (`Extension.HandleQuery`).
- Errors are said never to escape the listener. The code raises, and the
  model returns the exception's name:
  - `KeyError` for a missing preference;
  - `FileNotFoundError` for a missing vocabulary file;
  - `ValueError` for a result with a slash in its name or vocabulary.
- The cache is said to be cleared whenever the vocabularies change. In the
  code:
  - the update listener clears it after any preference update whose reload
    succeeds;
  - the initial preferences listener never clears it.
- The initial listener lower-cases the vocabulary names. The update listener
  does not lower-case them.

## Model

| member | source | states |
|---|---|---|
| Words.Names | main.py:103 | `[w.get_search_name() for w in words]`: one name per word, in word order |
| Words.Repr | main.py:53-54 | `"{}/{}".format(word, vocabulary)`: the name, one slash, then the vocabulary, so it holds one slash more than its two fields |
| Words.DecodeRepr | main.py:207 | unpacking `text.split("/")` into two names succeeds exactly when the text has one slash; the text is then the two parts joined by `/`, neither holding a slash; otherwise `ValueError` |
| Words.DecodeReprRoundTrip | main.py:53-54 | splitting `repr(Word(w, v))` on `/` gives back `(w, v)`, and succeeds exactly when neither holds a slash |
| Words.ReadVocabulary | main.py:66 | one word per line, named by the stripped line and tagged with the vocabulary; the name is empty exactly when the line is all whitespace |
| Words.LoadWords | main.py:60-67 | loading succeeds exactly when every vocabulary has a file, else `FileNotFoundError`; one word per line of the files; every word's vocabulary is one requested |
| Words.LoadWordsAppend | main.py:63-66 | loading `a + b` succeeds exactly when both loads do, and gives the words of `a` followed by those of `b` |
| Words.LoadWordsSingle | main.py:63-66 | one vocabulary loads exactly when it has a file, as its lines' words in file order |
| Words.VocabularyNames | main.py:154-157 | one name per comma-separated field, i.e. one more than the number of commas, each the stripped field, none holding a comma |
| Words.VocabularyNameChars | main.py:154-157 | every character of a parsed name occurs in the preference |
| Words.InitialVocabularyNames | main.py:143-146 | as many names as the update listener reads, each lower-case and equal to the update listener's name up to case |
| Words.LowerAll | main.py:144 | `name.lower()` of each name: same count, each result lower-case and equal to its name up to case |
| Words.InitialNamesWhenLowerCase | main.py:143-146 | for an all-lower-case preference both listeners read the same names |
| Words.TrimField | main.py:144-145 | `field.rstrip().lstrip()` is `field.strip()`, made of characters of the field |
| Text.TrimLeft | main.py:144 | `lstrip` removes a whitespace prefix and leaves no leading whitespace |
| Text.TrimRight | main.py:144 | `rstrip` removes a whitespace suffix and leaves no trailing whitespace |
| Text.StripEitherOrder | main.py:66 | `rstrip().lstrip()` equals `strip()` |
| Text.Strip | main.py:66 | `strip` never lengthens the string and leaves neither leading nor trailing whitespace |
| Text.StripSlice | main.py:66 | `strip` returns a slice of the string with only whitespace before and after it |
| Text.StripProperties | main.py:66 | `strip` is idempotent, leaves no surrounding whitespace, and is empty exactly for an all-whitespace string |
| Text.Split | main.py:145 | `split(sep)` gives at least one part, no part holds the separator, and joining the parts gives the string back |
| Text.SplitCount | main.py:145 | the number of parts is the number of separators plus one |
| Text.SplitJoin | main.py:207 | splitting a join of separator-free parts gives the parts back |
| Text.LowerChar | main.py:87-88 | `str.lower` on a character maps each ASCII or Latin-1 capital to its own small letter (code point plus 32, so `'A'` and `'a'` fold together) and changes nothing else |
| Text.Lower | main.py:144 | `s.lower()` lower-cases every character and keeps the length |
| Text.SearchAnchored | main.py:185 | for a literal query, `re.search("^" + q, s)` matches exactly when `s` begins with `q` |
| Filters.LengthFilter | main.py:70-79 | an empty query keeps the list; otherwise it is exactly the words with a non-empty name whose length lies in `[max(1, len(q)-2), len(q)+2]`, with their multiplicities, in order |
| Filters.LengthFilterIdempotent | main.py:70-79 | filtering by length twice is filtering once |
| Filters.FirstCharFilter | main.py:82-88 | an empty query keeps the list; otherwise it is exactly the words with a non-empty name whose lower-cased first character is the query's, with their multiplicities, in order |
| Filters.FirstCharFilterIdempotent | main.py:82-88 | filtering by first character twice is filtering once |
| Filters.FiltersCommute | main.py:189-190 | the two pre-filters give the same list in either order |
| Filters.PrefixMatchesBypassFilter | main.py:181-186 | the first-character filter removes no word whose name starts with the query |
| Filters.RegexMatches | main.py:179-186 | for a literal query, the regex branch keeps exactly the words whose name starts with the query, with multiplicities, in order |
| Filters.FuzzyCandidates | main.py:188-190 | the fuzzy candidates are exactly the words in the length window sharing the query's first character, with their multiplicities, in order |
| Fuzzy.LastIndexOf | main.py:114 | the index of the last word with a given name, or -1 when there is none |
| Fuzzy.NameIndex | main.py:114 | `{w.get_search_name(): w for w in words}` holds every name, mapped to the last word with that name |
| Fuzzy.Resolve | main.py:117-119 | the dict's word for each match that is a key of the dict, in match order; matches that are not keys are skipped |
| Fuzzy.RapidfuzzSearch | main.py:97-121 | no words or no RapidFuzz gives `[]`; otherwise each result is in `words` and is the last word of its name; when every match is a name, one result per match, named as the match |
| FifoCache.Empty | main.py:131 | the empty dict is valid and every lookup misses |
| FifoCache.IndexOf | main.py:173 | the position of a key among the items, or -1 exactly when it is absent |
| FifoCache.Lookup | main.py:173-174 | a lookup misses exactly when the key is absent; a hit returns the value stored with it |
| FifoCache.LookupItem | main.py:173-174 | with keys occurring once, a stored item is found by its key |
| FifoCache.EvictOldest | main.py:202-203 | deleting `next(iter(d))` drops the first key in insertion order and keeps the others in order |
| FifoCache.Store | main.py:204 | `d[key] = value` keeps an existing key's place and appends a new key last |
| FifoCache.Insert | main.py:199-204 | the store keeps keys unique and the size at most 200, and the key then maps to its value; a new key goes last, and at capacity the first key is dropped |
| FifoCache.InsertKeepsOthers | main.py:199-204 | every other key keeps its value, except the oldest key when the cache was full |
| FifoCache.InsertBounded | main.py:200-204 | never more than 200 entries; a new key adds one entry below capacity and none at capacity |
| FifoCache.KeepsNewestKeys | main.py:199-204 | after storing distinct new keys in turn, the cache holds exactly the 200 most recently stored keys, oldest first |
| FifoCache.EvictsOldestFirst | main.py:199-204 | after 201 distinct stores into an empty cache, the first key misses and the last hits with its value |
| Extension.Start | main.py:130-131 | a new extension has no words and an empty, valid cache |
| Extension.OnPreferences | main.py:139-147 | the event's preferences are merged over the old ones, the cache is untouched, a failed load keeps the old word list, and a successful one installs `load_words` of the lower-cased vocabulary names |
| Extension.InitialLoad | main.py:143-147 | the initial load succeeds exactly when `vocabulary` is set and every lower-cased name has a file; every loaded word then has a lower-case vocabulary |
| Extension.OnPreferencesUpdate | main.py:150-161 | the one preference is set; a failed load changes neither words nor cache; a successful one installs `load_words` of the vocabulary names as written and leaves an empty cache |
| Extension.UpdateLoad | main.py:154-158 | the reload succeeds exactly when every unlowered name has a file; no loaded word's vocabulary holds a comma |
| Extension.UpdateInvalidates | main.py:158-161 | after an update whose vocabulary names all have files, every query misses the cache |
| Extension.Compute | main.py:179-197 | the regex branch keeps a subsequence of the words sharing the query's first character, and for a literal query it is `RegexMatches` (the words starting with the query, with multiplicities, in order); the fuzzy branch is `rapidfuzz_search` of the length and first-character candidates with limit 9 and cutoff 65, or the sorted-list fallback over those candidates |
| Extension.RegexTest | main.py:185 | for a literal query the test holds exactly for names starting with the query; otherwise it is the `re` search |
| Extension.RenderOne | main.py:207-215 | a result renders exactly when neither its name nor its vocabulary holds a slash, as the item named by the word, described as `Language: <vocabulary>`, copying the word; otherwise `ValueError` |
| Extension.RenderEach | main.py:206-216 | the rendering loop gives one item per result, or fails with the error of some result |
| Extension.RenderEachItems | main.py:206-216 | with a renderer that accepts exactly the slash-free results, the loop succeeds exactly when all results are slash-free, giving their items in order |
| Extension.Render | main.py:206-216 | one item per result, or `ValueError` |
| Extension.RenderItems | main.py:206-216 | rendering succeeds exactly when no result holds a slash in its name or vocabulary, and then gives their items in order |
| Extension.CacheKey | main.py:170 | the key exists exactly when both `matching` and `vocabulary` are set, else `KeyError`; it is the query, the matching method and the vocabulary preference |
| Extension.HandleQuery | main.py:164-227 | an empty query gives exactly the placeholder and the same state; at most nine items; a missing preference gives `KeyError` and the same state; afterwards the key is cached; a hit leaves the state unchanged; the cache stays valid and the preferences and words are untouched |
| Extension.OnKeywordQuery | main.py:164-227 | the query listener with the search of lines 179-197 keeps the cache valid and the preferences and words untouched |
| Extension.QueryShowsCachedList | main.py:173-174 | the shown items render the first nine entries of the list cached under the key |
| Extension.MissStoresComputed | main.py:176-204 | a miss caches the computed list under the key; every other key keeps its list, except the oldest key at capacity |
| Extension.RepeatQueryHits | main.py:170-174 | repeating a query returns the same reply and leaves the state as it was |
| SymSpell.NewOptimizer | symspell_benchmark.py:12-15 | a new optimizer has no words and an empty dictionary |
| SymSpell.AddWord | symspell_benchmark.py:29-38 | one iteration appends a word to the list of its non-empty name and changes no other list |
| SymSpell.AddWords | symspell_benchmark.py:29-38 | every list of the dictionary stays non-empty and holds only words of its name |
| SymSpell.AddWordsListed | symspell_benchmark.py:29-38 | after the loop a non-empty name lists its old words followed by the loaded words of that name, in load order; the empty name is never added |
| SymSpell.AddWordsKeys | symspell_benchmark.py:29-38 | the keys after the loop are the old keys and the non-empty loaded names |
| SymSpell.BuildDictionary | symspell_benchmark.py:17-38 | succeeds exactly when every vocabulary has a file, else `FileNotFoundError`; remembers the loaded words; each name's list grows by the loaded words of that name, without clearing |
| SymSpell.BuildFresh | symspell_benchmark.py:29-38 | built from scratch, the keys are exactly the non-empty loaded names, each listing its words in load order |
| SymSpell.FirstWords | symspell_benchmark.py:65 | `word_dict[t][0]` for each term is a word named `t` |
| SymSpell.Hits | symspell_benchmark.py:62-64 | the terms that pass the test are all in the dictionary |
| SymSpell.HitsProperties | symspell_benchmark.py:62-67 | the hits are exactly the suggested dictionary terms, each once, in suggestion order |
| SymSpell.ConvertedProperties | symspell_benchmark.py:59-72 | at most `max(limit, 1)` words, each the first listed under its name, no name twice, in suggestion order; below the bound, every suggested dictionary term |
| SymSpell.NonPositiveLimitGivesOne | symspell_benchmark.py:69-70 | with `limit <= 0`, any hit gives exactly one word |
| SymSpell.ConvertSuggestions | symspell_benchmark.py:59-72 | the conversion loop returns the first word of each distinct hit, cut after `max(limit, 1)` words |
| SymSpell.ScannedHits | symspell_benchmark.py:62-67 | after `i` suggestions the loop holds the first word of each hit so far, and its `seen` set is those hits |
| SymSpell.Search | symspell_benchmark.py:46-72 | an empty query gives `[]`; otherwise the conversion `Converted` of the query's suggestions: at most `max(limit, 1)` words, each the first of its name, no name twice, names in suggestion order, and every suggested dictionary term present when the bound is not reached |
| SymSpell.LookupPhrase | symspell_benchmark.py:80-95 | the looked-up string differs from the query exactly when a segmentation exists and differs from it, and is then that segmentation |
| SymSpell.SearchCompound | symspell_benchmark.py:74-110 | an empty query gives `[]`; otherwise the conversion `Converted` of the suggestions for the phrase `LookupPhrase` picks: at most `max(limit, 1)` words, each the first of its name, no name twice, names in suggestion order, and every suggested dictionary term present when the bound is not reached |
| SymSpell.CompoundIsSearchOfPhrase | symspell_benchmark.py:98-110 | the compound search equals `search` of the chosen phrase, and equals `search` of the query when segmentation offers nothing new |

## Left out

- File I/O: `open`, the vocabulary directory and ISO 8859-1 decoding. Files are given as lines.
- The SymSpell index: `create_dictionary_entry`, `lookup` and `word_segmentation` are inputs. So are timing, printing and the returned build time (floating point).
- The scoring inside RapidFuzz `process.extract`. Its output is an arbitrary list of strings.
- The ordering of `CustomSortedList` (main.py:244-249). Its contents after `extend` are an input, `Env.rank`.
- Python `re` semantics for queries with metacharacters (`Env.regex`), including `re.error` for an invalid pattern.
- Text.LowerChar: Unicode case mapping outside ASCII and Latin-1 is not modelled. Characters whose `lower()` is longer than one character are not modelled either.
- `ItemEnterEventListener`, the icon, and the host actions (clipboard, hide window, rendering). These are host plumbing.
- `get_dictionaries`, because its result is unused.
- The `cached_search_results` stub, which always returns `None`.
- `benchmark.py` and `test_symspell_integration.py`. These are a timing harness and tests with no assertions.
- Event subscription and `run`.
- `event.get_argument()` returning `None`: it is modelled as the empty query, which the code treats the same way.
- The cache-validity precondition of the query listener. Keys occurring once and at most 200 entries hold in every reachable state: `Start` and a successful update give an empty cache, and the query listener preserves validity.
- Extension.OnKeywordQuery: its contract states only what holds for any search. The search itself is stated by `Extension.Compute`, and the listener's behaviour by `Extension.HandleQuery`, which it instantiates.
