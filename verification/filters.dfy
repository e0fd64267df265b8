/** The candidate pre-filters of main.py and the "regex" matching branch:
    `filter_words_by_length`, `filter_words_by_first_char`, and the
    `re.search("^" + query, name)` comprehension over the first-character
    candidates. Each is an order-preserving filter of the word list. */
module Filters {
  import opened Text
  import opened Seqs
  import opened Words

  /** The default `length_tolerance`, the one the query listener uses. */
  const LengthTolerance: int := 2

  function Max(a: int, b: int): int {
    if a < b then b else a
  }

  /** The test of `filter_words_by_length`: a non-empty name whose length is
      within `tolerance` of the query's, and at least one. */
  predicate InLengthWindow(w: Word, query: string, tolerance: int) {
    w.name != [] && Max(1, |query| - tolerance) <= |w.name| <= |query| + tolerance
  }

  function LengthTest(query: string, tolerance: int): Word -> bool {
    w => InLengthWindow(w, query, tolerance)
  }

  /** `filter_words_by_length(words, query, tolerance)`. */
  function LengthFilter(words: seq<Word>, query: string, tolerance: int): (r: seq<Word>)
    ensures query == [] ==> r == words
    ensures IsSubseq(r, words)
    ensures query != [] ==> forall w :: w in r <==>
      w in words && w.name != [] && Max(1, |query| - tolerance) <= |w.name| <= |query| + tolerance
    ensures query != [] ==>
              forall w :: multiset(r)[w] == if InLengthWindow(w, query, tolerance) then multiset(words)[w] else 0
  {
    if query == [] then
      SubseqReflexive(words);
      words
    else
      KeepMultiset(words, LengthTest(query, tolerance));
      Keep(words, LengthTest(query, tolerance))
  }

  /** The test of `filter_words_by_first_char`: a non-empty name whose
      lower-cased first character is the query's. */
  predicate SameInitial(w: Word, query: string)
    requires query != []
  {
    w.name != [] && LowerChar(w.name[0]) == LowerChar(query[0])
  }

  function InitialTest(query: string): Word -> bool
    requires query != []
  {
    w => SameInitial(w, query)
  }

  /** `filter_words_by_first_char(words, query)`. */
  function FirstCharFilter(words: seq<Word>, query: string): (r: seq<Word>)
    ensures query == [] ==> r == words
    ensures IsSubseq(r, words)
    ensures query != [] ==> forall w :: w in r <==>
      w in words && w.name != [] && LowerChar(w.name[0]) == LowerChar(query[0])
    ensures query != [] ==>
              forall w :: multiset(r)[w] == if SameInitial(w, query) then multiset(words)[w] else 0
  {
    if query == [] then
      SubseqReflexive(words);
      words
    else
      KeepMultiset(words, InitialTest(query));
      Keep(words, InitialTest(query))
  }

  lemma LengthFilterIdempotent(words: seq<Word>, query: string, tolerance: int)
    ensures LengthFilter(LengthFilter(words, query, tolerance), query, tolerance) == LengthFilter(words, query, tolerance)
  {
    if query != [] {
      KeepIdempotent(words, LengthTest(query, tolerance));
    }
  }

  lemma FirstCharFilterIdempotent(words: seq<Word>, query: string)
    ensures FirstCharFilter(FirstCharFilter(words, query), query) == FirstCharFilter(words, query)
  {
    if query != [] {
      KeepIdempotent(words, InitialTest(query));
    }
  }

  /** The two pre-filters give the same candidates in either order. */
  lemma FiltersCommute(words: seq<Word>, query: string, tolerance: int)
    ensures FirstCharFilter(LengthFilter(words, query, tolerance), query)
         == LengthFilter(FirstCharFilter(words, query), query, tolerance)
  {
    if query != [] {
      KeepCommute(words, LengthTest(query, tolerance), InitialTest(query));
    }
  }

  function PrefixTest(query: string): Word -> bool
    requires IsLiteral(query)
  {
    (w: Word) => SearchAnchored(query, w.name)
  }

  /** A name that starts with the query passes the first-character filter,
      so that filter never removes a prefix match. */
  lemma PrefixMatchesBypassFilter(words: seq<Word>, query: string)
    requires IsLiteral(query)
    ensures Keep(FirstCharFilter(words, query), PrefixTest(query)) == Keep(words, PrefixTest(query))
  {
    if query != [] {
      forall w | w in words && PrefixTest(query)(w)
        ensures InitialTest(query)(w)
      {
        assert w.name[0] == query[0];
      }
      KeepAbsorb(words, InitialTest(query), PrefixTest(query));
    }
  }

  /** The result list of the "regex" matching method for a query with no
      regular-expression metacharacters: the words starting with the query,
      in word-list order. */
  function RegexMatches(words: seq<Word>, query: string): (r: seq<Word>)
    requires IsLiteral(query)
    ensures IsSubseq(r, words)
    ensures forall w :: w in r <==> w in words && StartsWith(w.name, query)
    ensures forall w :: multiset(r)[w] == if StartsWith(w.name, query) then multiset(words)[w] else 0
  {
    PrefixMatchesBypassFilter(words, query);
    KeepMultiset(words, PrefixTest(query));
    Keep(FirstCharFilter(words, query), PrefixTest(query))
  }

  /** The candidates of the fuzzy matching method: the length window, then
      the first character. */
  function FuzzyCandidates(words: seq<Word>, query: string): (r: seq<Word>)
    ensures query == [] ==> r == words
    ensures query != [] ==> forall w :: w in r <==>
      w in words && InLengthWindow(w, query, LengthTolerance) && SameInitial(w, query)
    ensures IsSubseq(r, words)
    ensures query != [] ==>
              forall w :: multiset(r)[w] == if InLengthWindow(w, query, LengthTolerance) && SameInitial(w, query) then multiset(words)[w] else 0
  {
    var byLength := LengthFilter(words, query, LengthTolerance);
    var r := FirstCharFilter(byLength, query);
    SubseqTransitive(r, byLength, words);
    r
  }
}
