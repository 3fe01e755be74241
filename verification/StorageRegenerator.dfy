/** Regenerating a modality from the document of an octad, and measuring its drift afterwards.

The octad store is a map, and an update overwrites exactly the modalities it is given. Square
roots are passed in: `norm` for the counts of a text, `na` and `nb` for the two sides of a
cosine similarity. */
module StorageRegenerator {
  import opened Wrappers
  import opened VectorMath
  import TextEmbedding
  import QueryText
  import opened Keywords

  datatype Document = Document(title: string, body: string)

  datatype Octad = Octad(
    id: string,
    document: Option<Document>,
    embedding: Option<Vector>,
    semantic: Option<seq<string>>,
    relationships: Option<seq<(string, string)>>)

  datatype OctadInput = OctadInput(
    vector: Option<Vector>,
    semantic: Option<seq<string>>,
    relationships: Option<seq<(string, string)>>)

  datatype Error = MissingModality | StorageError

  datatype Outcome = Regenerated | Failed(error: Error)

  const DIMENSION: nat := 384

  /** Encoding a character takes at least one byte. */
  ghost predicate EncodesCharacters(rules: TextRules) {
    forall s: string :: s != "" ==> rules.utf8(s) != []
  }

  function DocumentText(doc: Document): string {
    doc.title + " " + doc.body
  }

  function Overwrite(octad: Octad, input: OctadInput): Octad {
    octad.(embedding := if input.vector.Some? then input.vector else octad.embedding,
           semantic := if input.semantic.Some? then input.semantic else octad.semantic,
           relationships := if input.relationships.Some? then input.relationships else octad.relationships)
  }

  function Max0(x: real): real {
    if x > 0.0 then x else 0.0
  }

  /** The embedding the document of an octad should have in `dim` dimensions. */
  function Expected(rules: TextRules, doc: Document, dim: nat, norm: real): Vector
    requires dim > 0
  {
    TextEmbedding.Embedding(rules.utf8(DocumentText(doc)), dim, norm)
  }

  ghost predicate NormOfCounts(rules: TextRules, doc: Document, dim: nat, norm: real)
    requires dim > 0
  {
    IsNorm(norm, TextEmbedding.AllCounts(rules.utf8(DocumentText(doc)), dim))
  }

  // ----- Measuring

  /** One minus the similarity of the stored embedding to the expected one; 0.5 if either the
      document or the embedding is missing. No answer when the program stops: it takes hashes modulo
      the length of the stored embedding. */
  function VectorDrift(rules: TextRules, octad: Octad, norm: real, na: real, nb: real): Option<real> {
    if octad.document.None? || octad.embedding.None? then Some(0.5)
    else
      var stored := octad.embedding.value;
      if |stored| == 0 && rules.utf8(DocumentText(octad.document.value)) != [] then None
      else if |stored| == 0 then Some(Max0(1.0 - Cosine([], stored, na, nb)))
      else Some(Max0(1.0 - Cosine(Expected(rules, octad.document.value, |stored|, norm), stored, na, nb)))
  }

  /** Measuring stops the program exactly when there is a document to compare with an embedding of
      length zero, the text of a document never being empty. */
  lemma MeasuringStopsIff(rules: TextRules, octad: Octad, norm: real, na: real, nb: real)
    requires EncodesCharacters(rules)
    ensures VectorDrift(rules, octad, norm, na, nb) == None <==> octad.document.Some? && octad.embedding == Some([])
  {
    if octad.document.Some? {
      assert |DocumentText(octad.document.value)| >= 1;
    }
  }

  /** Compare the stored types with a new extraction from the document. */
  method MeasureSemanticDrift(rules: TextRules, octad: Octad) returns (drift: real)
    ensures octad.document.None? || octad.semantic.None? ==> drift == 0.5
    ensures octad.document.Some? && octad.semantic.Some? ==>
      exists again :: IsTop(Words(rules, DocumentText(octad.document.value)), 10, again)
        && drift == SemanticDrift(AsSet(TypesOf(again)), AsSet(octad.semantic.value))
  {
    if octad.document.None? || octad.semantic.None? {
      return 0.5;
    }
    var again := ExtractKeywords(rules, DocumentText(octad.document.value), 10);
    drift := SemanticDrift(AsSet(TypesOf(again)), AsSet(octad.semantic.value));
  }

  // ----- What the measures tell

  /** The fingerprint the stored vector of a document is compared with. */
  function Fingerprint(rules: TextRules, doc: Document, dim: nat, norm: real): Vector
    requires dim > 0
  {
    TextEmbedding.Embedding(rules.utf8(doc.title + " " + doc.body), dim, norm)
  }

  /** With a side missing the drift is taken to be one half. */
  lemma MissingIsHalf(rules: TextRules, octad: Octad, norm: real, na: real, nb: real)
    requires octad.document.None? || octad.embedding.None?
    ensures VectorDrift(rules, octad, norm, na, nb) == Some(0.5)
  {
  }

  /** The drift of a stored vector is 0 if and only if it is a positive multiple of the fingerprint of
      the document; in general one minus the drift is the dot product over the norms. */
  lemma DriftTellsIff(rules: TextRules, octad: Octad, norm: real, na: real, nb: real)
    requires octad.document.Some? && octad.embedding.Some? && |octad.embedding.value| > 0
    requires
      var stored := octad.embedding.value;
      var expected := Fingerprint(rules, octad.document.value, |stored|, norm);
      IsNorm(na, expected) && IsNorm(nb, stored)
    ensures
      var stored, drift := octad.embedding.value, VectorDrift(rules, octad, norm, na, nb);
      var expected := Fingerprint(rules, octad.document.value, |stored|, norm);
      && drift.Some? && 0.0 <= drift.value <= 2.0
      && (drift.value == 0.0 <==> PositiveMultiple(stored, expected))
      && (na > 0.0 && nb > 0.0 ==> (1.0 - drift.value) * (na * nb) == Dot(expected, stored))
      && (na == 0.0 || nb == 0.0 ==> drift.value == 1.0)
  {
    var stored := octad.embedding.value;
    var expected := Fingerprint(rules, octad.document.value, |stored|, norm);
    assert expected == Expected(rules, octad.document.value, |stored|, norm);
    hide TextEmbedding.Embedding, Cosine, IsNorm, Dot, PositiveMultiple, Fingerprint, Expected;
    CosineInRange(expected, stored, na, nb);
    CosineIsOneIff(expected, stored, na, nb);
    CosineValue(expected, stored, na, nb);
  }

  // ----- Regenerating

  class Regenerator {
    const rules: TextRules
    const dimension: nat
    var store: map<string, Octad>

    /** `dimension` is the length the store is configured to accept for embeddings. */
    constructor (rules: TextRules, dimension: nat, store: map<string, Octad>)
      ensures this.rules == rules && this.dimension == dimension && this.store == store
    {
      this.rules, this.dimension, this.store := rules, dimension, store;
    }

    predicate Accepts(input: OctadInput) {
      input.vector.Some? ==> |input.vector.value| == dimension
    }

    method WriteBack(octad: Octad, input: OctadInput) returns (r: Outcome)
      modifies this
      ensures octad.id !in old(store) || !Accepts(input) ==> r == Failed(StorageError) && store == old(store)
      ensures octad.id in old(store) && Accepts(input) ==>
        r == Regenerated && store == old(store)[octad.id := Overwrite(old(store)[octad.id], input)]
    {
      if octad.id !in store {
        return Failed(StorageError);
      }
      if input.vector.Some? && |input.vector.value| != dimension {
        return Failed(StorageError);
      }
      store := store[octad.id := Overwrite(store[octad.id], input)];
      r := Regenerated;
    }

    /** Document to Vector. For an octad as it is stored, the drift measured afterwards is 0,
        whatever the document, and nothing but the embedding has changed. */
    method RegenerateVector(octad: Octad, norm: real) returns (r: Outcome)
      requires EncodesCharacters(rules)
      requires octad.document.Some? ==> NormOfCounts(rules, octad.document.value, DIMENSION, norm)
      modifies this
      ensures octad.document.None? ==> r == Failed(MissingModality) && store == old(store)
      ensures octad.document.Some? && (octad.id !in old(store) || dimension != DIMENSION) ==>
        r == Failed(StorageError) && store == old(store)
      ensures octad.document.Some? && octad.id in old(store) && dimension == DIMENSION ==>
        && r == Regenerated
        && var expected := Expected(rules, octad.document.value, DIMENSION, norm);
           store == old(store)[octad.id := old(store)[octad.id].(embedding := Some(expected))]
      ensures r == Regenerated && old(store)[octad.id] == octad ==>
        forall na, nb :: IsNorm(na, store[octad.id].embedding.value) && IsNorm(nb, store[octad.id].embedding.value) ==>
          VectorDrift(rules, store[octad.id], norm, na, nb) == Some(0.0)
    {
      if octad.document.None? {
        return Failed(MissingModality);
      }
      var doc := octad.document.value;
      var embedding := TextEmbedding.TextToEmbedding(rules.utf8(DocumentText(doc)), DIMENSION, norm);
      r := WriteBack(octad, OctadInput(Some(embedding[..]), None, None));
      if r == Regenerated && old(store)[octad.id] == octad {
        forall na, nb | IsNorm(na, store[octad.id].embedding.value) && IsNorm(nb, store[octad.id].embedding.value)
          ensures VectorDrift(rules, store[octad.id], norm, na, nb) == Some(0.0)
        {
          RegeneratedVectorHasNoDrift(rules, store[octad.id], norm, na, nb);
        }
      }
    }

    /** Document to Semantic: the types are the prefixed ten most frequent words. */
    method RegenerateSemantic(octad: Octad) returns (r: Outcome, ghost keywords: seq<string>)
      modifies this
      ensures octad.document.None? ==> r == Failed(MissingModality) && store == old(store)
      ensures octad.document.Some? && octad.id !in old(store) ==> r == Failed(StorageError) && store == old(store)
      ensures octad.document.Some? && octad.id in old(store) ==>
        && r == Regenerated && IsTop(Words(rules, DocumentText(octad.document.value)), 10, keywords)
        && store == old(store)[octad.id := old(store)[octad.id].(semantic := Some(TypesOf(keywords)))]
    {
      keywords := [];
      if octad.document.None? {
        return Failed(MissingModality), [];
      }
      var found := ExtractKeywords(rules, DocumentText(octad.document.value), 10);
      keywords := found;
      r := WriteBack(octad, OctadInput(None, Some(TypesOf(found)), None));
    }

    /** Document to Graph: one "mentions" edge for each of the five most frequent words. */
    method RegenerateGraph(octad: Octad) returns (r: Outcome, ghost keywords: seq<string>)
      modifies this
      ensures octad.document.None? ==> r == Failed(MissingModality) && store == old(store)
      ensures octad.document.Some? && octad.id !in old(store) ==> r == Failed(StorageError) && store == old(store)
      ensures octad.document.Some? && octad.id in old(store) ==>
        && r == Regenerated && IsTop(Words(rules, DocumentText(octad.document.value)), 5, keywords)
        && store == old(store)[octad.id := old(store)[octad.id].(relationships := Some(Mentions(keywords)))]
    {
      keywords := [];
      if octad.document.None? {
        return Failed(MissingModality), [];
      }
      var found := ExtractKeywords(rules, DocumentText(octad.document.value), 5);
      keywords := found;
      r := WriteBack(octad, OctadInput(None, None, Some(Mentions(found))));
    }
  }

  function Mentions(keywords: seq<string>): seq<(string, string)> {
    seq(|keywords|, i requires 0 <= i < |keywords| => ("mentions", PREFIX + keywords[i]))
  }

  // ----- Regenerate, then measure

  /** An octad that stores the embedding computed from its own document has no vector drift. The
      text is never empty, as title and body are joined by a space. */
  lemma RegeneratedVectorHasNoDrift(rules: TextRules, octad: Octad, norm: real, na: real, nb: real)
    requires EncodesCharacters(rules) && octad.document.Some?
    requires NormOfCounts(rules, octad.document.value, DIMENSION, norm)
    requires octad.embedding == Some(Expected(rules, octad.document.value, DIMENSION, norm))
    requires IsNorm(na, octad.embedding.value) && IsNorm(nb, octad.embedding.value)
    ensures VectorDrift(rules, octad, norm, na, nb) == Some(0.0)
  {
    var text := DocumentText(octad.document.value);
    assert text != "" by {
      assert |text| >= 1;
    }
    hide TextEmbedding.Embedding, Cosine, IsNorm;
    TextEmbedding.EmbeddingIsUnit(rules.utf8(text), DIMENSION, norm);
    TextEmbedding.EmbeddingMatchesItself(rules.utf8(text), DIMENSION, norm, na, nb);
  }

  /** The semantic drift measured after regeneration is 0 for every order in which the hash map
      may yield its words exactly when the cut at ten does not split a tie. */
  lemma RegeneratedSemanticHasNoDriftIff(rules: TextRules, doc: Document, keywords: seq<string>)
    requires IsTop(Words(rules, DocumentText(doc)), 10, keywords)
    ensures
      (forall again :: IsTop(Words(rules, DocumentText(doc)), 10, again) ==>
        SemanticDrift(AsSet(TypesOf(again)), AsSet(TypesOf(keywords))) == 0.0)
      <==> !TieAtCut(Words(rules, DocumentText(doc)), 10)
  {
    var words := Words(rules, DocumentText(doc));
    RepeatableIff(words, 10, keywords);
    hide IsTop, TieAtCut, SameWords, SemanticDrift, Words;
    forall again
      ensures SemanticDrift(AsSet(TypesOf(again)), AsSet(TypesOf(keywords))) == 0.0 <==> SameWords(keywords, again)
    {
      NoSemanticDriftIff(AsSet(TypesOf(again)), AsSet(TypesOf(keywords)));
      SameTypesIff(keywords, again);
    }
  }

  // ----- A text whose tenth and eleventh words tie

  /** The rules classify, lower-case and encode ASCII text as usual. */
  ghost predicate AgreesOnAscii(rules: TextRules) {
    && (forall ch: char :: ch < '\U{0080}' ==> (rules.isSpace(ch) <==> ch == ' ' || '\t' <= ch <= '\r'))
    && (forall ch: char :: ch < '\U{0080}' ==>
          (rules.isAlphanumeric(ch) <==> 'a' <= ch <= 'z' || 'A' <= ch <= 'Z' || '0' <= ch <= '9'))
    && (forall s :: QueryText.IsAscii(s) ==> rules.lower(s) == QueryText.LowerAscii(s))
    && (forall s :: QueryText.IsAscii(s) ==> |rules.utf8(s)| == |s|)
  }

  predicate IsSmall(w: string) {
    forall i :: 0 <= i < |w| ==> 'a' <= w[i] <= 'z'
  }

  lemma {:induction false} SmallIsKept(rules: TextRules, w: string)
    requires AgreesOnAscii(rules) && IsSmall(w)
    ensures Kept(rules.isAlphanumeric, w) == w
  {
    if w != "" {
      assert w == [w[0]] + w[1..];
      SmallIsKept(rules, w[1..]);
    }
  }

  lemma {:induction false} SmallIsLower(w: string)
    requires IsSmall(w)
    ensures QueryText.IsAscii(w) && QueryText.LowerAscii(w) == w
  {
    forall ch | ch in w ensures ch < '\U{0080}' {
      var i :| 0 <= i < |w| && w[i] == ch;
    }
    assert QueryText.LowerAscii(w) == w by {
      var l := QueryText.LowerAscii(w);
      assert forall i :: 0 <= i < |w| ==> l[i] == w[i];
    }
  }

  lemma SmallIsClean(rules: TextRules, w: string)
    requires AgreesOnAscii(rules) && IsSmall(w)
    ensures Clean(rules, w) == w && |rules.utf8(w)| == |w|
  {
    SmallIsKept(rules, w);
    SmallIsLower(w);
  }

  lemma {:induction false} SplitWord(rules: TextRules, current: string, w: string)
    requires AgreesOnAscii(rules) && IsSmall(w) && current + w != ""
    ensures SplitFrom(rules, current, w) == [current + w]
    decreases w
  {
    if w == "" {
      assert current + w == current;
    } else {
      assert current + [w[0]] + w[1..] == current + w;
      SplitWord(rules, current + [w[0]], w[1..]);
    }
  }

  lemma {:induction false} SplitAppends(rules: TextRules, current: string, s: string, w: string)
    requires AgreesOnAscii(rules) && IsSmall(w) && w != ""
    ensures SplitFrom(rules, current, s + " " + w) == SplitFrom(rules, current, s) + [w]
    decreases s
  {
    hide SplitFrom, AgreesOnAscii, IsSmall;
    if s == "" {
      SplitAtBlank(rules, current, w);
      assert s + " " + w == " " + w;
    } else {
      assert (s + " " + w)[0] == s[0] && (s + " " + w)[1..] == s[1..] + " " + w;
      SplitStep(rules, current, s);
      SplitStep(rules, current, s + " " + w);
      if rules.isSpace(s[0]) {
        SplitAppends(rules, "", s[1..], w);
      } else {
        SplitAppends(rules, current + [s[0]], s[1..], w);
      }
    }
  }

  lemma SplitStep(rules: TextRules, current: string, s: string)
    requires s != ""
    ensures SplitFrom(rules, current, s) ==
      if rules.isSpace(s[0]) then (if current == "" then [] else [current]) + SplitFrom(rules, "", s[1..])
      else SplitFrom(rules, current + [s[0]], s[1..])
  {
  }

  lemma SplitAtBlank(rules: TextRules, current: string, w: string)
    requires AgreesOnAscii(rules) && IsSmall(w) && w != ""
    ensures SplitFrom(rules, current, " " + w) == SplitFrom(rules, current, "") + [w]
  {
    SplitWord(rules, "", w);
    assert "" + w == w && (" " + w)[1..] == w;
    assert rules.isSpace(' ');
  }

  /** aaaa, bbbb and so on. */
  function LetterWord(i: nat): (w: string)
    requires i < 26
    ensures |w| == 4 && IsSmall(w) && w[0] == ('a' as int + i) as char
  {
    var ch := ('a' as int + i) as char;
    [ch, ch, ch, ch]
  }

  function LetterWords(n: nat): (r: seq<string>)
    requires n <= 26
    ensures |r| == n && forall i :: 0 <= i < n ==> r[i] == LetterWord(i)
  {
    if n == 0 then [] else LetterWords(n - 1) + [LetterWord(n - 1)]
  }

  /** The first `n` of them, with a space between any two. */
  function LetterText(n: nat): string
    requires 1 <= n <= 26
  {
    if n == 1 then LetterWord(0) else LetterText(n - 1) + " " + LetterWord(n - 1)
  }

  lemma {:induction false} SplitLetters(rules: TextRules, n: nat)
    requires AgreesOnAscii(rules) && 1 <= n <= 26
    ensures SplitFrom(rules, "", LetterText(n)) == LetterWords(n)
  {
    hide AgreesOnAscii, LetterWord;
    if n == 1 {
      SplitWord(rules, "", LetterWord(0));
      assert "" + LetterWord(0) == LetterWord(0);
      assert LetterWords(0) == [] && LetterWords(1) == [] + [LetterWord(0)];
    } else {
      SplitLetters(rules, n - 1);
      SplitAppends(rules, "", LetterText(n - 1), LetterWord(n - 1));
    }
  }

  lemma {:induction false} LettersAreEligible(rules: TextRules, n: nat)
    requires AgreesOnAscii(rules) && n <= 26
    ensures Eligible(rules, LetterWords(n)) == LetterWords(n)
  {
    hide AgreesOnAscii, LetterWord, Clean;
    if n > 0 {
      LettersAreEligible(rules, n - 1);
      assert LetterWords(n)[..n - 1] == LetterWords(n - 1);
      SmallIsClean(rules, LetterWord(n - 1));
    }
  }

  lemma LetterIsNew(n: nat, i: nat)
    requires n <= i < 26
    ensures LetterWord(i) !in LetterWords(n)
  {
    hide LetterWord, LetterWords;
    var words := LetterWords(n);
    forall w | w in words ensures w != LetterWord(i) {
      var j :| 0 <= j < n && words[j] == w;
      assert w[0] != LetterWord(i)[0];
    }
  }

  lemma {:induction false} LettersOccurOnce(n: nat, i: nat)
    requires i < n <= 26
    ensures Occurrences(LetterWord(i), LetterWords(n)) == 1
  {
    hide LetterWord;
    assert LetterWords(n)[..n - 1] == LetterWords(n - 1);
    if i == n - 1 {
      LetterIsNew(n - 1, i);
      AbsentWordsDoNotOccur(LetterWord(i), LetterWords(n - 1));
    } else {
      assert LetterWord(n - 1)[0] != LetterWord(i)[0];
      LettersOccurOnce(n - 1, i);
    }
  }

  /** Under any rules that treat ASCII as usual, a document of the eleven words aaaa to kkkk need not
      have drift 0 after regeneration. */
  lemma RegeneratedSemanticMayDrift(rules: TextRules)
    requires AgreesOnAscii(rules)
    ensures
      var words := Words(rules, DocumentText(Document(LetterText(10), LetterWord(10))));
      exists keywords, again :: IsTop(words, 10, keywords) && IsTop(words, 10, again)
        && SemanticDrift(AsSet(TypesOf(again)), AsSet(TypesOf(keywords))) != 0.0
  {
    hide AgreesOnAscii, LetterWord;
    var doc := Document(LetterText(10), LetterWord(10));
    var words := LetterWords(11);
    SplitLetters(rules, 11);
    LettersAreEligible(rules, 11);
    assert Words(rules, DocumentText(doc)) == words;
    TieAmongLetters();
    CutSplitsTieIff(words, 10, words[..10]);
    hide TieAtCut, Words, SplitFrom, Eligible, IsTop, CutSplitsTie, LetterWords, DocumentText, SemanticDrift;
    RegeneratedSemanticHasNoDriftIff(rules, doc, words[..10]);
  }

  lemma TieAmongLetters()
    ensures IsTop(LetterWords(11), 10, LetterWords(11)[..10]) && CutSplitsTie(LetterWords(11), LetterWords(11)[..10])
  {
    hide Occurrences, LetterWords, LetterWord;
    var words := LetterWords(11);
    var keywords := words[..10];
    forall i | 0 <= i < 11 ensures Occurrences(words[i], words) == 1 {
      LettersOccurOnce(11, i);
    }
    forall i, j | 0 <= i < j < 11 ensures words[i] != words[j] {
      assert words[i][0] != words[j][0];
    }
    assert keywords[0] == words[0] && words[0] in keywords;
    assert words[10] in words && words[10] !in keywords;
    forall w | w in words ensures Occurrences(w, words) == 1 {
      var i :| 0 <= i < 11 && words[i] == w;
    }
  }

  // ----- Capitals and punctuation

  /** A word with a capital first letter and a punctuation mark after it counts as the bare word. */
  lemma PunctuatedCapitalIsBareWord(rules: TextRules, w: string, mark: char)
    requires AgreesOnAscii(rules) && IsSmall(w) && w != ""
    requires mark in {'.', ',', ';', ':', '!', '?', ')', '"', '\''}
    ensures Clean(rules, [QueryText.UpperChar(w[0])] + w[1..] + [mark]) == w
  {
    var capital, rest := QueryText.UpperChar(w[0]), w[1..];
    var kept := [capital] + rest;
    KeptAppends(rules.isAlphanumeric, kept, [mark]);
    KeptAppends(rules.isAlphanumeric, [capital], rest);
    SmallIsKept(rules, rest);
    assert [mark][1..] == "" && [capital][1..] == "";
    assert Kept(rules.isAlphanumeric, [mark]) == "" && Kept(rules.isAlphanumeric, [capital]) == [capital];
    assert kept + "" == kept;
    CapitalIsLowered(w);
  }

  lemma {:induction false} KeptAppends(keep: char -> bool, s: string, t: string)
    ensures Kept(keep, s + t) == Kept(keep, s) + Kept(keep, t)
  {
    if s == "" {
      assert s + t == t;
    } else {
      var head := if keep(s[0]) then [s[0]] else "";
      var first, second := Kept(keep, s[1..]), Kept(keep, t);
      assert (s + t)[0] == s[0] && (s + t)[1..] == s[1..] + t;
      KeptAppends(keep, s[1..], t);
      assert Kept(keep, s + t) == head + Kept(keep, s[1..] + t);
      assert head + (first + second) == (head + first) + second;
    }
  }

  lemma CapitalIsLowered(w: string)
    requires IsSmall(w) && w != ""
    ensures
      var kept := [QueryText.UpperChar(w[0])] + w[1..];
      QueryText.IsAscii(kept) && QueryText.LowerAscii(kept) == w
  {
    var kept := [QueryText.UpperChar(w[0])] + w[1..];
    forall ch | ch in kept ensures ch < '\U{0080}' {
      var i :| 0 <= i < |kept| && kept[i] == ch;
      assert i > 0 ==> ch == w[i];
    }
    var l := QueryText.LowerAscii(kept);
    assert forall i :: 0 <= i < |w| ==> l[i] == w[i];
  }

  /** Relationships mention keywords, in their order. */
  lemma MentionsAreKeywords(keywords: seq<string>)
    ensures |Mentions(keywords)| == |keywords|
    ensures forall i :: 0 <= i < |keywords| ==> Mentions(keywords)[i] == ("mentions", "keyword:" + keywords[i])
  {
  }
}
