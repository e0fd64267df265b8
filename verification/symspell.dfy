/** `SymSpellOptimizer` (symspell_benchmark.py): the dictionary of words by
    name that `build_dictionary` fills, and the conversion of SymSpell's
    suggestion terms back to words that `search` and `search_compound`
    share. SymSpell's own edit-distance lookup and word segmentation are
    parameters; only what this code does with their answers is modelled. */
module SymSpell {
  import opened Results
  import opened Seqs
  import opened Words

  /** `symspell.lookup(phrase, Verbosity.CLOSEST, max_edit_distance)`, reduced
      to the suggested terms in the order SymSpell returns them. */
  type Lookup = (string, int) -> seq<string>

  /** `symspell.word_segmentation(query, max_edit_distance)`, reduced to its
      `corrected_string`; `None` stands for a falsy answer. */
  type Segment = (string, int) -> Option<string>

  /** `word_dict`: each name maps to the words with that name. */
  type WordDict = map<string, seq<Word>>

  /** Every listed name has at least one word, and only words of that name. */
  predicate WellFormed(d: WordDict) {
    forall t :: t in d ==> d[t] != [] && forall w :: w in d[t] ==> w.name == t
  }

  /** The optimizer's state: `self.words` (None before the first build) and
      `self.word_dict`. The SymSpell index itself is not modelled. */
  datatype Optimizer = Optimizer(words: Option<seq<Word>>, wordDict: WordDict)

  /** `SymSpellOptimizer()`. */
  function NewOptimizer(): (opt: Optimizer)
    ensures opt.words.None? && WellFormed(opt.wordDict)
    ensures forall t :: t !in opt.wordDict
  {
    Optimizer(None, map[])
  }

  /** The words listed under `t`, none when `t` is not a key. */
  function Listed(d: WordDict, t: string): seq<Word> {
    if t in d then d[t] else []
  }

  function HasName(t: string): Word -> bool {
    (w: Word) => w.name == t
  }

  /** One iteration of the build loop: an empty name is skipped, any other
      word is appended to the list of its name. */
  function AddWord(d: WordDict, w: Word): (r: WordDict)
    requires WellFormed(d)
    ensures WellFormed(r)
    ensures forall t :: Listed(r, t) == Listed(d, t) + (if t != [] && w.name == t then [w] else [])
  {
    if w.name == [] then d else d[w.name := Listed(d, w.name) + [w]]
  }

  /** The build loop over `words`. */
  function AddWords(d: WordDict, words: seq<Word>): (r: WordDict)
    requires WellFormed(d)
    ensures WellFormed(r)
    decreases |words|
  {
    if words == [] then d else AddWords(AddWord(d, words[0]), words[1..])
  }

  /** After the build loop a non-empty name lists the words it listed before
      followed by the words of `words` with that name, in load order; the
      empty name is never added. */
  lemma {:induction false} AddWordsListed(d: WordDict, words: seq<Word>, t: string)
    requires WellFormed(d)
    ensures Listed(AddWords(d, words), t) == Listed(d, t) + (if t == [] then [] else Keep(words, HasName(t)))
    decreases |words|
  {
    if words != [] {
      var w := words[0];
      AddWordsListed(AddWord(d, w), words[1..], t);
      assert words == [w] + words[1..];
    }
  }

  /** The names the build loop adds are the non-empty names of `words`. */
  lemma AddWordsKeys(d: WordDict, words: seq<Word>, t: string)
    requires WellFormed(d)
    ensures t in AddWords(d, words) <==> t in d || (t != [] && t in Names(words))
  {
    AddWordsListed(d, words, t);
    if t != [] && t in Names(words) {
      var i :| 0 <= i < |words| && Names(words)[i] == t;
      assert words[i] in Keep(words, HasName(t));
    }
    if t != [] && Keep(words, HasName(t)) != [] {
      var x := Keep(words, HasName(t))[0];
      assert x in words;
      var i :| 0 <= i < |words| && words[i] == x;
      assert Names(words)[i] == t;
    }
  }

  /** `build_dictionary(vocabularies)`: load the words, remember them, and add
      them to the dictionary, which is not cleared first. A missing vocabulary
      file fails before anything changes. */
  function BuildDictionary(opt: Optimizer, files: map<string, seq<string>>, vocabularies: seq<string>): (r: Result<Optimizer>)
    requires WellFormed(opt.wordDict)
    ensures r.Success? <==> forall i :: 0 <= i < |vocabularies| ==> vocabularies[i] in files
    ensures r.Failure? ==> r.error == "FileNotFoundError"
    ensures r.Success? ==> WellFormed(r.value.wordDict) && r.value.words == Some(LoadWords(files, vocabularies).value)
    ensures r.Success? ==> forall t :: t != [] ==>
      Listed(r.value.wordDict, t) == Listed(opt.wordDict, t) + Keep(r.value.words.value, HasName(t))
  {
    match LoadWords(files, vocabularies)
    case Failure(e) => Failure(e)
    case Success(ws) =>
      assert forall t :: t != [] ==> Listed(AddWords(opt.wordDict, ws), t) == Listed(opt.wordDict, t) + Keep(ws, HasName(t)) by {
        forall t | t != [] {
          AddWordsListed(opt.wordDict, ws, t);
        }
      }
      Success(Optimizer(Some(ws), AddWords(opt.wordDict, ws)))
  }

  /** Built once from scratch, the dictionary lists exactly the non-empty
      names loaded, each with its words in load order; the first word listed
      is the earliest loaded word with that name. */
  lemma BuildFresh(files: map<string, seq<string>>, vocabularies: seq<string>)
    requires BuildDictionary(NewOptimizer(), files, vocabularies).Success?
    ensures var opt := BuildDictionary(NewOptimizer(), files, vocabularies).value;
      && (forall t :: t in opt.wordDict <==> t != [] && t in Names(opt.words.value))
      && (forall t :: t in opt.wordDict ==> opt.wordDict[t] == Keep(opt.words.value, HasName(t)))
  {
    var opt := BuildDictionary(NewOptimizer(), files, vocabularies).value;
    var ws := opt.words.value;
    assert opt.wordDict == AddWords(map[], ws);
    forall t
      ensures t in opt.wordDict <==> t != [] && t in Names(ws)
      ensures t in opt.wordDict ==> opt.wordDict[t] == Keep(ws, HasName(t))
    {
      AddWordsKeys(map[], ws, t);
      AddWordsListed(map[], ws, t);
    }
  }

  /** The test `word_str in self.word_dict`. */
  function InDict(d: WordDict): string -> bool {
    t => t in d
  }

  /** `self.word_dict[t][0]` for each term. */
  function FirstWords(terms: seq<string>, d: WordDict): (r: seq<Word>)
    requires WellFormed(d)
    requires forall i :: 0 <= i < |terms| ==> terms[i] in d
    ensures |r| == |terms|
    ensures forall i :: 0 <= i < |r| ==> r[i] == d[terms[i]][0] && r[i].name == terms[i]
  {
    seq(|terms|, i requires 0 <= i < |terms| => d[terms[i]][0])
  }

  lemma FirstWordsSnoc(terms: seq<string>, t: string, d: WordDict)
    requires WellFormed(d)
    requires forall i :: 0 <= i < |terms| ==> terms[i] in d
    requires t in d
    ensures FirstWords(terms + [t], d) == FirstWords(terms, d) + [d[t][0]]
  {
  }

  /** The most words the conversion loop appends: it checks the limit only
      after an append, so a limit below one still lets one word through. */
  function Bound(limit: int): nat {
    if limit < 1 then 1 else limit
  }

  /** The distinct suggested terms that are in the dictionary, in
      suggestion order. */
  function Hits(terms: seq<string>, d: WordDict): (hits: seq<string>)
    ensures forall i :: 0 <= i < |hits| ==> hits[i] in d
  {
    var found := Keep(terms, InDict(d));
    assert forall i :: 0 <= i < |Dedup(found)| ==> Dedup(found)[i] in found;
    Dedup(found)
  }

  /** The hits are exactly the dictionary terms among the suggestions, each
      once, in the order of their first suggestion. */
  lemma HitsProperties(terms: seq<string>, d: WordDict)
    ensures forall t :: t in Hits(terms, d) <==> t in terms && t in d
    ensures forall i, j :: 0 <= i < j < |Hits(terms, d)| ==> Hits(terms, d)[i] != Hits(terms, d)[j]
    ensures IsSubseq(Hits(terms, d), terms)
  {
    var found := Keep(terms, InDict(d));
    SubseqTransitive(Dedup(found), found, terms);
  }

  /** What the conversion loop returns, stated without the loop: the first
      word of each distinct hit, stopping after `Bound(limit)` of them. */
  function Converted(terms: seq<string>, d: WordDict, limit: int): seq<Word>
    requires WellFormed(d)
  {
    FirstWords(Take(Hits(terms, d), Bound(limit)), d)
  }

  /** The converted words: at most `Bound(limit)` of them, each the first
      word listed under its name, no name twice, names in suggestion order,
      and, when the bound is not reached, every dictionary term suggested. */
  lemma ConvertedProperties(terms: seq<string>, d: WordDict, limit: int)
    requires WellFormed(d)
    ensures var r := Converted(terms, d, limit);
      && |r| <= Bound(limit)
      && (forall i :: 0 <= i < |r| ==> r[i].name in d && r[i] == d[r[i].name][0])
      && (forall i, j :: 0 <= i < j < |r| ==> r[i].name != r[j].name)
      && IsSubseq(Names(r), terms)
      && (|r| < Bound(limit) ==> forall t :: t in terms && t in d ==> t in Names(r))
  {
    var hits := Hits(terms, d);
    HitsProperties(terms, d);
    var taken := Take(hits, Bound(limit));
    var r := FirstWords(taken, d);
    assert Names(r) == taken;
    assert IsSubseq(taken, hits) by {
      PrefixIsSubseq(hits, |taken|);
      assert hits[..|taken|] == taken;
    }
    SubseqTransitive(taken, hits, terms);
    assert |r| < Bound(limit) ==> taken == hits;
  }

  /** With a limit below one, any hit at all gives exactly one word. */
  lemma NonPositiveLimitGivesOne(terms: seq<string>, d: WordDict, limit: int)
    requires WellFormed(d) && limit <= 0
    requires exists t :: t in terms && t in d
    ensures |Converted(terms, d, limit)| == 1
  {
    ConvertedProperties(terms, d, limit);
  }

  /** The conversion loop of `search` and `search_compound` (lines 59-72 and
      98-110): walk the suggestions, append the first word of every term in
      the dictionary not seen before, and stop once `limit` words are in. */
  method ConvertSuggestions(terms: seq<string>, d: WordDict, limit: int) returns (r: seq<Word>)
    requires WellFormed(d)
    ensures r == Converted(terms, d, limit)
  {
    r := [];
    var seen: set<string> := {};
    var i := 0;
    while i < |terms|
      invariant i <= |terms|
      invariant (r, seen) == Scanned(terms, d, i)
      invariant |r| < Bound(limit)
    {
      var t := terms[i];
      if t in d && t !in seen {
        r := r + [d[t][0]];
        seen := seen + {t};
        if |r| >= limit {
          StopsAtBound(terms, d, limit, i + 1);
          return;
        }
      }
      i := i + 1;
    }
    ScannedAll(terms, d, limit);
  }

  /** The loop state after the first `i` suggestions: the words appended
      and the terms seen, ignoring the limit. */
  function Scanned(terms: seq<string>, d: WordDict, i: int): (seq<Word>, set<string>)
    requires WellFormed(d) && 0 <= i <= |terms|
  {
    if i == 0 then ([], {})
    else
      var (r, seen) := Scanned(terms, d, i - 1);
      var t := terms[i - 1];
      if t in d && t !in seen then (r + [d[t][0]], seen + {t}) else (r, seen)
  }

  /** After `i` suggestions the loop holds the first word of each hit among
      them, and has seen exactly those hits. */
  lemma {:induction false} ScannedHits(terms: seq<string>, d: WordDict, i: int)
    requires WellFormed(d) && 0 <= i <= |terms|
    ensures Scanned(terms, d, i) == (FirstWords(Hits(terms[..i], d), d), Elems(Hits(terms[..i], d)))
  {
    if i == 0 {
      assert terms[..0] == [];
      assert Elems<string>([]) == {};
    } else {
      var j := i - 1;
      ScannedHits(terms, d, j);
      var hits := Hits(terms[..j], d);
      assert Elems(hits) == Scanned(terms, d, j).1;
      HitsSnoc(terms, j, d);
      if terms[j] in d && terms[j] !in hits {
        FirstWordsSnoc(hits, terms[j], d);
        ElemsSnoc(hits, terms[j]);
      }
    }
  }

  /** Having seen every suggestion without reaching the bound, the loop has
      every word `Converted` keeps. */
  lemma ScannedAll(terms: seq<string>, d: WordDict, limit: int)
    requires WellFormed(d) && |Scanned(terms, d, |terms|).0| < Bound(limit)
    ensures Scanned(terms, d, |terms|).0 == Converted(terms, d, limit)
  {
    ScannedHits(terms, d, |terms|);
    assert terms[..|terms|] == terms;
  }

  /** The set of elements of `s`. */
  function Elems<T>(s: seq<T>): set<T> {
    set x | x in s
  }

  lemma ElemsSnoc<T>(s: seq<T>, x: T)
    ensures Elems(s + [x]) == Elems(s) + {x}
  {
  }

  /** One more suggestion adds its term to the hits when it is a dictionary
      term not yet among them. */
  lemma HitsSnoc(terms: seq<string>, i: nat, d: WordDict)
    requires i < |terms|
    ensures Hits(terms[..i + 1], d) ==
      if terms[i] in d && terms[i] !in Hits(terms[..i], d) then Hits(terms[..i], d) + [terms[i]] else Hits(terms[..i], d)
  {
    var t := terms[i];
    assert terms[..i + 1] == terms[..i] + [t];
    KeepAppend(terms[..i], [t], InDict(d));
    var found := Keep(terms[..i + 1], InDict(d));
    if t in d {
      assert Keep([t], InDict(d)) == [t];
      assert found[..|found| - 1] == Keep(terms[..i], InDict(d));
    } else {
      assert Keep([t], InDict(d)) == [];
      assert found == Keep(terms[..i], InDict(d));
    }
  }

  /** The hits of a prefix of the suggestions are a prefix of all the hits. */
  lemma HitsPrefix(terms: seq<string>, d: WordDict, n: nat)
    requires n <= |terms|
    ensures |Hits(terms[..n], d)| <= |Hits(terms, d)|
    ensures Hits(terms[..n], d) == Hits(terms, d)[..|Hits(terms[..n], d)|]
  {
    var found := Keep(terms, InDict(d));
    var early := Keep(terms[..n], InDict(d));
    KeepAppend(terms[..n], terms[n..], InDict(d));
    assert terms[..n] + terms[n..] == terms;
    assert found[..|early|] == early;
    DedupPrefix(found, |early|);
  }

  /** Once the loop has appended `Bound(limit)` words it has every word
      `Converted` keeps. */
  lemma StopsAtBound(terms: seq<string>, d: WordDict, limit: int, n: int)
    requires WellFormed(d) && 0 <= n <= |terms|
    requires |Scanned(terms, d, n).0| == Bound(limit)
    ensures Scanned(terms, d, n).0 == Converted(terms, d, limit)
  {
    ScannedHits(terms, d, n);
    HitsPrefix(terms, d, n);
  }

  /** `search(query, max_edit_distance, limit)`: nothing for an empty query,
      otherwise the converted suggestions for the query: at most
      `Bound(limit)` words, each the first listed under its name, no name
      twice, in the order their names were suggested. */
  function Search(opt: Optimizer, lookup: Lookup, query: string, maxEditDistance: int, limit: int): (r: seq<Word>)
    requires WellFormed(opt.wordDict)
    ensures query == [] ==> r == []
    ensures |r| <= Bound(limit)
    ensures forall i :: 0 <= i < |r| ==> r[i].name in opt.wordDict && r[i] == opt.wordDict[r[i].name][0]
    ensures forall i, j :: 0 <= i < j < |r| ==> r[i].name != r[j].name
    ensures query != [] ==> IsSubseq(Names(r), lookup(query, maxEditDistance))
    ensures query != [] ==> r == Converted(lookup(query, maxEditDistance), opt.wordDict, limit)
    ensures query != [] && |r| < Bound(limit) ==> forall t :: t in lookup(query, maxEditDistance) && t in opt.wordDict ==> t in Names(r)
  {
    if query == [] then []
    else
      ConvertedProperties(lookup(query, maxEditDistance), opt.wordDict, limit);
      Converted(lookup(query, maxEditDistance), opt.wordDict, limit)
  }

  /** The string `search_compound` looks up: the segmentation's corrected
      string when there is one and it differs from the query, else the query. */
  function LookupPhrase(query: string, segmentation: Option<string>): (phrase: string)
    ensures phrase != query <==> segmentation.Some? && segmentation.value != query
    ensures phrase == query || phrase == segmentation.value
  {
    if segmentation.Some? && segmentation.value != query then segmentation.value else query
  }

  /** `search_compound(query, max_edit_distance, limit)`: the conversion
      of the suggestions for the phrase `LookupPhrase` picks. */
  function SearchCompound(opt: Optimizer, lookup: Lookup, segment: Segment, query: string, maxEditDistance: int, limit: int): (r: seq<Word>)
    requires WellFormed(opt.wordDict)
    ensures query == [] ==> r == []
    ensures |r| <= Bound(limit)
    ensures forall i :: 0 <= i < |r| ==> r[i].name in opt.wordDict && r[i] == opt.wordDict[r[i].name][0]
    ensures forall i, j :: 0 <= i < j < |r| ==> r[i].name != r[j].name
    ensures query != [] ==> var phrase := LookupPhrase(query, segment(query, maxEditDistance));
      && IsSubseq(Names(r), lookup(phrase, maxEditDistance))
      && r == Converted(lookup(phrase, maxEditDistance), opt.wordDict, limit)
      && (|r| < Bound(limit) ==> forall t :: t in lookup(phrase, maxEditDistance) && t in opt.wordDict ==> t in Names(r))
  {
    if query == [] then []
    else
      var phrase := LookupPhrase(query, segment(query, maxEditDistance));
      ConvertedProperties(lookup(phrase, maxEditDistance), opt.wordDict, limit);
      Converted(lookup(phrase, maxEditDistance), opt.wordDict, limit)
  }

  /** A non-empty query is searched compound exactly as `search` searches
      the phrase the segmentation chose, and as `search` searches the query
      itself when the segmentation offers nothing new. */
  lemma CompoundIsSearchOfPhrase(opt: Optimizer, lookup: Lookup, segment: Segment, query: string, maxEditDistance: int, limit: int)
    requires WellFormed(opt.wordDict) && query != []
    ensures var phrase := LookupPhrase(query, segment(query, maxEditDistance));
      phrase != [] ==> SearchCompound(opt, lookup, segment, query, maxEditDistance, limit) == Search(opt, lookup, phrase, maxEditDistance, limit)
    ensures var s := segment(query, maxEditDistance);
      s.None? || s.value == query ==> SearchCompound(opt, lookup, segment, query, maxEditDistance, limit) == Search(opt, lookup, query, maxEditDistance, limit)
  {
  }
}
