/** `rapidfuzz_search` (main.py): the candidate names go to RapidFuzz's
    `process.extract`, whose scoring is not modelled, and the matched strings
    are mapped back to words through a name-to-word dictionary in which the
    last word with a given name wins. */
module Fuzzy {
  import opened Results
  import opened Words

  /** `process.extract(query, choices, limit=..., score_cutoff=...)`, reduced
      to the matched strings in the order it returns them. */
  type Extract = (string, seq<string>, int, int) -> seq<string>

  /** The `limit` and `score_cutoff` the query listener passes. */
  const ResultLimit: int := 9
  const ScoreCutoff: int := 65

  /** Position of the last word named `name`, or -1 when there is none. */
  function LastIndexOf(words: seq<Word>, name: string): (k: int)
    ensures -1 <= k < |words|
    ensures k >= 0 ==> words[k].name == name
    ensures forall j :: k < j < |words| ==> words[j].name != name
  {
    if words == [] then -1
    else if words[|words| - 1].name == name then |words| - 1
    else LastIndexOf(words[..|words| - 1], name)
  }

  /** `{w.get_search_name(): w for w in words}`: a later word with the same
      name overwrites an earlier one. */
  function NameIndex(words: seq<Word>): (index: map<string, Word>)
    ensures forall i :: 0 <= i < |words| ==> words[i].name in index
    ensures forall n :: n in index ==> LastIndexOf(words, n) >= 0 && index[n] == words[LastIndexOf(words, n)]
  {
    if words == [] then map[]
    else
      var init := words[..|words| - 1];
      var last := words[|words| - 1];
      var index := NameIndex(init)[last.name := last];
      assert forall i :: 0 <= i < |init| ==> words[i] == init[i];
      index
  }

  /** The matched strings that are keys of the index, in match order. */
  function Found(matches: seq<string>, index: map<string, Word>): seq<string> {
    if matches == [] then []
    else if matches[0] in index then [matches[0]] + Found(matches[1..], index)
    else Found(matches[1..], index)
  }

  /** The loop over the matches: each matched string found in the index
      contributes its word, in match order, and the others are skipped. */
  function Resolve(matches: seq<string>, index: map<string, Word>): (r: seq<Word>)
    ensures |r| <= |matches|
    ensures forall i :: 0 <= i < |r| ==> r[i] in index.Values
    ensures |r| == |Found(matches, index)|
    ensures forall i :: 0 <= i < |r| ==> Found(matches, index)[i] in index && r[i] == index[Found(matches, index)[i]]
    ensures (forall m :: m in matches ==> m in index) ==>
      |r| == |matches| && forall i :: 0 <= i < |r| ==> r[i] == index[matches[i]]
  {
    if matches == [] then []
    else
      var rest := Resolve(matches[1..], index);
      if matches[0] in index then [index[matches[0]]] + rest else rest
  }

  /** `rapidfuzz_search(words, query, limit, score_cutoff)`; `extract` is
      `None` when RapidFuzz is not installed. */
  function RapidfuzzSearch(words: seq<Word>, query: string, extract: Option<Extract>, limit: int, cutoff: int): (r: seq<Word>)
    ensures extract.None? || words == [] ==> r == []
    ensures forall i :: 0 <= i < |r| ==> r[i] in words && r[i] == words[LastIndexOf(words, r[i].name)]
    ensures extract.Some? && words != [] ==> |r| <= |extract.value(query, Names(words), limit, cutoff)|
    ensures extract.Some? && words != [] ==>
      var matches := extract.value(query, Names(words), limit, cutoff);
      (forall i :: 0 <= i < |matches| ==> matches[i] in Names(words)) ==>
        |r| == |matches| && forall i :: 0 <= i < |r| ==> r[i].name == matches[i]
  {
    if extract.None? || words == [] then []
    else
      var matches := extract.value(query, Names(words), limit, cutoff);
      var index := NameIndex(words);
      assert forall n :: n in index ==> index[n].name == n;
      Resolve(matches, index)
  }
}
