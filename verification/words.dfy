/** Dictionary entries and their vocabularies (main.py): the `Word` record and
    its `"word/vocabulary"` representation, `load_words` over the lines of
    each vocabulary file, and the parsing of the comma-separated `vocabulary`
    preference. */
module Words {
  import opened Results
  import opened Text

  /** A dictionary entry: the word and the vocabulary list it was read from. */
  datatype Word = Word(name: string, vocabulary: string)

  /** `[w.get_search_name() for w in words]`. */
  function Names(words: seq<Word>): (names: seq<string>)
    ensures |names| == |words|
    ensures forall i :: 0 <= i < |words| ==> names[i] == words[i].name
  {
    seq(|words|, i requires 0 <= i < |words| => words[i].name)
  }

  /** `Word.__repr__`. */
  function Repr(w: Word): (r: string)
    ensures |r| == |w.name| + 1 + |w.vocabulary| && r[|w.name|] == '/'
    ensures r[..|w.name|] == w.name && r[|w.name| + 1..] == w.vocabulary
    ensures multiset(r)['/'] == multiset(w.name)['/'] + multiset(w.vocabulary)['/'] + 1
  {
    var r := w.name + "/" + w.vocabulary;
    assert r == w.name + ("/" + w.vocabulary);
    r
  }

  /** `word, language = text.split("/")`: the unpacking raises `ValueError`
      unless the split gives exactly two parts. */
  function DecodeRepr(text: string): (r: Result<(string, string)>)
    ensures r.Success? <==> multiset(text)['/'] == 1
    ensures r.Success? ==> text == r.value.0 + "/" + r.value.1
    ensures r.Success? ==> '/' !in r.value.0 && '/' !in r.value.1
  {
    var parts := Split(text, '/');
    SplitCount(text, '/');
    if |parts| == 2 then
      assert Join(parts, '/') == parts[0] + ['/'] + Join(parts[1..], '/');
      assert parts[1..] == [parts[1]];
      assert 0 < 1 < |parts|;
      Success((parts[0], parts[1]))
    else
      Failure("ValueError")
  }

  /** Decoding the representation of a word gives back its name and
      vocabulary, and it succeeds exactly when neither contains a slash. */
  lemma DecodeReprRoundTrip(w: Word)
    ensures DecodeRepr(Repr(w)).Success? <==> '/' !in w.name && '/' !in w.vocabulary
    ensures '/' !in w.name && '/' !in w.vocabulary ==> DecodeRepr(Repr(w)) == Success((w.name, w.vocabulary))
  {
    var text := Repr(w);
    assert multiset(text)['/'] == multiset(w.name)['/'] + 1 + multiset(w.vocabulary)['/'];
    if '/' !in w.name && '/' !in w.vocabulary {
      var parts := [w.name, w.vocabulary];
      assert Join(parts, '/') == text by {
        assert parts[1..] == [w.vocabulary];
      }
      SplitJoin(parts, '/');
    }
  }

  /** The words of one vocabulary file, one per line with the line stripped;
      a blank line gives a word with an empty name rather than no word. */
  function ReadVocabulary(lines: seq<string>, vocabulary: string): (ws: seq<Word>)
    ensures |ws| == |lines|
    ensures forall i :: 0 <= i < |ws| ==> ws[i].vocabulary == vocabulary && ws[i].name == Strip(lines[i])
    ensures forall i :: 0 <= i < |ws| ==> (ws[i].name == [] <==> forall k :: 0 <= k < |lines[i]| ==> IsSpace(lines[i][k]))
  {
    seq(|lines|, i requires 0 <= i < |lines| => StripProperties(lines[i]); Word(Strip(lines[i]), vocabulary))
  }

  /** Total number of lines of the named vocabulary files that exist. */
  function LineCount(files: map<string, seq<string>>, vocabularies: seq<string>): nat
  {
    if vocabularies == [] then 0
    else (if vocabularies[0] in files then |files[vocabularies[0]]| else 0) + LineCount(files, vocabularies[1..])
  }

  /** `load_words(vocabularies)`, with `files` mapping each vocabulary name
      that has a file to the lines of that file. Opening a missing file raises
      `FileNotFoundError`. */
  function LoadWords(files: map<string, seq<string>>, vocabularies: seq<string>): (r: Result<seq<Word>>)
    ensures r.Success? <==> forall i :: 0 <= i < |vocabularies| ==> vocabularies[i] in files
    ensures r.Failure? ==> r.error == "FileNotFoundError"
    ensures r.Success? ==> |r.value| == LineCount(files, vocabularies)
    ensures r.Success? ==> forall w :: w in r.value ==> w.vocabulary in vocabularies
  {
    if vocabularies == [] then Success([])
    else if vocabularies[0] !in files then Failure("FileNotFoundError")
    else
      var first := ReadVocabulary(files[vocabularies[0]], vocabularies[0]);
      match LoadWords(files, vocabularies[1..])
      case Failure(e) => Failure(e)
      case Success(rest) => Success(first + rest)
  }

  /** Loading a list of vocabularies concatenates the loads of its parts, in
      the order requested. */
  lemma {:induction false} LoadWordsAppend(files: map<string, seq<string>>, a: seq<string>, b: seq<string>)
    ensures LoadWords(files, a + b).Success? <==> LoadWords(files, a).Success? && LoadWords(files, b).Success?
    ensures LoadWords(files, a + b).Success? ==>
      LoadWords(files, a + b).value == LoadWords(files, a).value + LoadWords(files, b).value
  {
    if a == [] {
      assert a + b == b;
    } else {
      assert (a + b)[0] == a[0] && (a + b)[1..] == a[1..] + b;
      LoadWordsAppend(files, a[1..], b);
    }
  }

  /** One vocabulary loads as the words of its file, in file order. */
  lemma LoadWordsSingle(files: map<string, seq<string>>, v: string)
    ensures LoadWords(files, [v]).Success? <==> v in files
    ensures v in files ==> LoadWords(files, [v]).value == ReadVocabulary(files[v], v)
  {
    assert [v][1..] == [];
  }

  lemma {:induction false} JoinContains(parts: seq<string>, sep: char, i: nat, c: char)
    requires i < |parts| && c in parts[i]
    ensures c in Join(parts, sep)
    decreases |parts|
  {
    if i > 0 {
      JoinContains(parts[1..], sep, i - 1, c);
    }
  }

  /** Every character of a trimmed string occurs in the string. */
  lemma TrimmedContains(s: string, c: char)
    requires c in TrimLeft(TrimRight(s))
    ensures c in s
  {
    var r := TrimRight(s);
    var t := TrimLeft(r);
    assert r == s[..|r|];
    assert t == r[|r| - |t|..];
    assert c in r;
  }

  /** `field.rstrip().lstrip()`: the field stripped, made of its own characters. */
  function TrimField(field: string): (name: string)
    ensures name == Strip(field)
    ensures forall c :: c in name ==> c in field
  {
    StripEitherOrder(field);
    var name := TrimLeft(TrimRight(field));
    assert forall c :: c in name ==> c in field by {
      forall c | c in name
        ensures c in field
      {
        TrimmedContains(field, c);
      }
    }
    name
  }

  /** `[voc.rstrip().lstrip() for voc in fields]`. */
  function TrimFields(fields: seq<string>): (names: seq<string>)
    ensures |names| == |fields|
    ensures forall i :: 0 <= i < |names| ==> names[i] == Strip(fields[i])
    ensures forall i, c :: 0 <= i < |names| && c in names[i] ==> c in fields[i]
  {
    seq(|fields|, i requires 0 <= i < |fields| => TrimField(fields[i]))
  }

  /** The names in the `vocabulary` preference as the update listener reads
      them: the comma-separated fields, each trimmed of whitespace. */
  function VocabularyNames(preference: string): (names: seq<string>)
    ensures |names| == |Split(preference, ',')| == multiset(preference)[','] + 1
    ensures forall i :: 0 <= i < |names| ==> names[i] == Strip(Split(preference, ',')[i])
    ensures forall i :: 0 <= i < |names| ==> ',' !in names[i]
  {
    SplitCount(preference, ',');
    TrimFields(Split(preference, ','))
  }

  /** Every character of a vocabulary name comes from the preference. */
  lemma VocabularyNameChars(preference: string, i: nat, c: char)
    requires i < |VocabularyNames(preference)| && c in VocabularyNames(preference)[i]
    ensures c in preference
  {
    var parts := Split(preference, ',');
    assert VocabularyNames(preference) == TrimFields(parts);
    JoinContains(parts, ',', i, c);
  }

  /** The names as the initial preferences listener reads them: the same
      fields, lower-cased. */
  function InitialVocabularyNames(preference: string): (names: seq<string>)
    ensures |names| == |VocabularyNames(preference)|
    ensures forall i :: 0 <= i < |names| ==> IsLower(names[i])
    ensures forall i :: 0 <= i < |names| ==> Lower(VocabularyNames(preference)[i]) == Lower(names[i])
  {
    LowerAll(VocabularyNames(preference))
  }

  /** `[name.lower() for name in names]`: each result is lower-case and
      agrees with its name up to case. */
  function LowerAll(names: seq<string>): (r: seq<string>)
    ensures |r| == |names|
    ensures forall i :: 0 <= i < |r| ==> IsLower(r[i])
    ensures forall i :: 0 <= i < |r| ==> Lower(names[i]) == Lower(r[i])
  {
    if names == [] then []
    else
      var first := Lower(names[0]);
      LowerIsLower(names[0]);
      LowerFixed(first);
      [first] + LowerAll(names[1..])
  }

  /** The two listeners read the same names from a preference that is
      already lower-case. */
  lemma InitialNamesWhenLowerCase(preference: string)
    requires IsLower(preference)
    ensures InitialVocabularyNames(preference) == VocabularyNames(preference)
  {
    var names := VocabularyNames(preference);
    var lowered := InitialVocabularyNames(preference);
    forall i | 0 <= i < |names|
      ensures lowered[i] == names[i]
    {
      forall k | 0 <= k < |names[i]|
        ensures LowerChar(names[i][k]) == names[i][k]
      {
        VocabularyNameChars(preference, i, names[i][k]);
      }
      LowerFixed(names[i]);
      LowerFixed(lowered[i]);
    }
  }
}
