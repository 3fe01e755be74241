/** Keyword extraction by word frequency, and the Jaccard distance between type sets.

How characters are classified, lower-cased and encoded is a parameter (`TextRules`), so every
statement holds for any such rules. Hash-map order is arbitrary: extraction may return any list
that satisfies `IsTop`. */
module Keywords {
  import FiniteSets
  import ByteStrings

  datatype TextRules = TextRules(
    isSpace: char -> bool,
    isAlphanumeric: char -> bool,
    lower: string -> string,
    utf8: string -> ByteStrings.Bytes)

  // ----- Words

  function Kept(keep: char -> bool, s: string): string {
    if s == "" then "" else (if keep(s[0]) then [s[0]] else "") + Kept(keep, s[1..])
  }

  /** The maximal runs of non-space characters. `current` is the run being read. */
  function SplitFrom(rules: TextRules, current: string, s: string): seq<string>
    decreases s
  {
    if s == "" then if current == "" then [] else [current]
    else if rules.isSpace(s[0]) then (if current == "" then [] else [current]) + SplitFrom(rules, "", s[1..])
    else SplitFrom(rules, current + [s[0]], s[1..])
  }

  function Clean(rules: TextRules, word: string): string {
    rules.lower(Kept(rules.isAlphanumeric, word))
  }

  /** The cleaned words longer than three bytes, in text order. */
  function Eligible(rules: TextRules, raw: seq<string>): seq<string> {
    if raw == [] then []
    else
      var init, clean := Eligible(rules, raw[..|raw| - 1]), Clean(rules, raw[|raw| - 1]);
      if |rules.utf8(clean)| > 3 then init + [clean] else init
  }

  function Words(rules: TextRules, text: string): seq<string> {
    Eligible(rules, SplitFrom(rules, "", text))
  }

  lemma {:induction false} EligibleWordsAreLong(rules: TextRules, raw: seq<string>, w: string)
    requires w in Eligible(rules, raw)
    ensures |rules.utf8(w)| > 3
  {
    if raw != [] && w in Eligible(rules, raw[..|raw| - 1]) {
      EligibleWordsAreLong(rules, raw[..|raw| - 1], w);
    }
  }

  function Occurrences(w: string, words: seq<string>): nat {
    if words == [] then 0
    else Occurrences(w, words[..|words| - 1]) + if words[|words| - 1] == w then 1 else 0
  }

  // ----- The most frequent words

  ghost predicate Distinct(ws: seq<string>) {
    forall i, j :: 0 <= i < j < |ws| ==> ws[i] != ws[j]
  }

  /** `top` holds `n` of the words, or all of them if there are fewer: each once, most frequent
      first, and no omitted word is more frequent than a returned one. */
  ghost predicate IsTop(words: seq<string>, n: nat, top: seq<string>) {
    && Distinct(top) && |top| <= n
    && (forall w :: w in top ==> w in words)
    && (|top| < n ==> forall w :: w in words ==> w in top)
    && (forall i, j :: 0 <= i < j < |top| ==> Occurrences(top[i], words) >= Occurrences(top[j], words))
    && (forall v, w :: v in words && v !in top && w in top ==> Occurrences(v, words) <= Occurrences(w, words))
  }

  ghost predicate CountsOf(words: seq<string>, freq: map<string, nat>) {
    && (forall w :: w in freq <==> w in words)
    && (forall w :: w in freq ==> freq[w] == Occurrences(w, words))
  }

  lemma {:induction false} MostFrequentExists(freq: map<string, nat>)
    requires freq != map[]
    ensures exists w :: w in freq && forall v :: v in freq ==> freq[v] <= freq[w]
    decreases |freq|
  {
    var x :| x in freq;
    var rest := freq - {x};
    if rest == map[] {
      assert freq.Keys == rest.Keys + {x};
    } else {
      MostFrequentExists(rest);
      var y :| y in rest && forall v :: v in rest ==> rest[v] <= rest[y];
      var w := if freq[x] >= freq[y] then x else y;
      assert forall v :: v in freq ==> v == x || v in rest;
      assert w in freq && forall v :: v in freq ==> freq[v] <= freq[w];
    }
  }

  lemma AbsentWordsDoNotOccur(w: string, words: seq<string>)
    requires w !in words
    ensures Occurrences(w, words) == 0
  {
    if words != [] {
      assert words == words[..|words| - 1] + [words[|words| - 1]];
      AbsentWordsDoNotOccur(w, words[..|words| - 1]);
    }
  }

  lemma CountNone()
    ensures CountsOf([], map[])
  {
  }

  lemma CountOne(words: seq<string>, w: string, freq: map<string, nat>)
    requires CountsOf(words, freq)
    ensures CountsOf(words + [w], freq[w := (if w in freq then freq[w] else 0) + 1])
  {
    assert (words + [w])[..|words|] == words;
    if w !in freq {
      AbsentWordsDoNotOccur(w, words);
    }
  }

  method CountWords(rules: TextRules, text: string) returns (freq: map<string, nat>)
    ensures CountsOf(Words(rules, text), freq)
  {
    hide CountsOf, Clean;
    CountNone();
    freq := map[];
    var raw := SplitFrom(rules, "", text);
    for i := 0 to |raw|
      invariant CountsOf(Eligible(rules, raw[..i]), freq)
    {
      assert raw[..i + 1][..i] == raw[..i];
      ghost var before := Eligible(rules, raw[..i]);
      var clean := Clean(rules, raw[i]);
      if |rules.utf8(clean)| > 3 {
        CountOne(before, clean, freq);
        freq := freq[clean := (if clean in freq then freq[clean] else 0) + 1];
      }
    }
    assert raw[..|raw|] == raw;
  }

  /** The words have been split into `top`, taken in order of frequency, and `rest`. */
  ghost predicate Selecting(words: seq<string>, top: seq<string>, rest: set<string>) {
    && Distinct(top)
    && (forall w :: w in words <==> w in rest || w in top)
    && (forall w :: w in rest ==> w !in top)
    && (forall i, j :: 0 <= i < j < |top| ==> Occurrences(top[i], words) >= Occurrences(top[j], words))
    && (forall v, w :: v in rest && w in top ==> Occurrences(v, words) <= Occurrences(w, words))
  }

  lemma SelectOne(words: seq<string>, top: seq<string>, rest: set<string>, w: string)
    requires Selecting(words, top, rest)
    requires w in rest && forall v :: v in rest ==> Occurrences(v, words) <= Occurrences(w, words)
    ensures Selecting(words, top + [w], rest - {w})
  {
    hide Occurrences;
    assert forall i :: 0 <= i < |top| ==> top[i] in top;
  }

  /** Take the most frequent remaining word until `max` are taken; ties fall in any order. */
  method ExtractKeywords(rules: TextRules, text: string, max: nat) returns (top: seq<string>)
    ensures IsTop(Words(rules, text), max, top)
    ensures forall w :: w in top ==> |rules.utf8(w)| > 3
  {
    hide Words, Occurrences;
    ghost var words := Words(rules, text);
    var freq := CountWords(rules, text);
    var rest := freq;
    top := [];
    while |top| < max && rest != map[]
      invariant |top| <= max && Selecting(words, top, rest.Keys)
      invariant forall w :: w in rest ==> rest[w] == Occurrences(w, words)
      decreases |rest|
    {
      MostFrequentExists(rest);
      var w :| w in rest && forall v :: v in rest ==> rest[v] <= rest[w];
      SelectOne(words, top, rest.Keys, w);
      top := top + [w];
      rest := rest - {w};
    }
    TopWordsAreLong(rules, text, top);
  }

  lemma TopWordsAreLong(rules: TextRules, text: string, top: seq<string>)
    requires forall w :: w in top ==> w in Words(rules, text)
    ensures forall w :: w in top ==> |rules.utf8(w)| > 3
  {
    forall w | w in top ensures |rules.utf8(w)| > 3 {
      EligibleWordsAreLong(rules, SplitFrom(rules, "", text), w);
    }
  }

  // ----- When extraction is repeatable

  ghost predicate SameWords(a: seq<string>, b: seq<string>) {
    forall w :: w in a <==> w in b
  }

  /** The cut after the last returned word separates two equally frequent words. */
  ghost predicate CutSplitsTie(words: seq<string>, top: seq<string>) {
    exists v, w :: v in words && v !in top && w in top && Occurrences(v, words) == Occurrences(w, words)
  }

  function AsSet(ws: seq<string>): set<string> {
    set w | w in ws
  }

  lemma {:induction false} DistinctSize(ws: seq<string>)
    requires Distinct(ws)
    ensures |AsSet(ws)| == |ws|
  {
    if ws != [] {
      var n := |ws| - 1;
      DistinctSize(ws[..n]);
      assert AsSet(ws) == AsSet(ws[..n]) + {ws[n]};
    }
  }

  /** Every extraction from the same text finds the same words as this one, whatever order the
      hash map yields, exactly when the cut does not split a tie. */
  lemma RepeatableIff(words: seq<string>, n: nat, top: seq<string>)
    requires IsTop(words, n, top)
    ensures (forall other :: IsTop(words, n, other) ==> SameWords(top, other)) <==> !TieAtCut(words, n)
    ensures CutSplitsTie(words, top) <==> TieAtCut(words, n)
  {
    CutSplitsTieIff(words, n, top);
    if CutSplitsTie(words, top) {
      var other := TieGivesAnother(words, n, top);
    } else {
      forall other | IsTop(words, n, other) ensures SameWords(top, other) {
        NoTieGivesSame(words, n, top, other);
      }
    }
  }

  // ----- The same condition on the words alone

  ghost function Above(words: seq<string>, w: string): set<string> {
    set v | v in words && Occurrences(v, words) > Occurrences(w, words)
  }

  ghost function AtOrAbove(words: seq<string>, w: string): set<string> {
    set v | v in words && Occurrences(v, words) >= Occurrences(w, words)
  }

  /** Some word has fewer than `n` words above its frequency, and more than `n` at or above it. */
  ghost predicate TieAtCut(words: seq<string>, n: nat) {
    exists w :: w in words && |Above(words, w)| < n < |AtOrAbove(words, w)|
  }

  lemma SplitTieIsAtCut(words: seq<string>, n: nat, top: seq<string>)
    requires IsTop(words, n, top) && CutSplitsTie(words, top)
    ensures TieAtCut(words, n)
  {
    hide Occurrences;
    var v, w :| v in words && v !in top && w in top && Occurrences(v, words) == Occurrences(w, words);
    DistinctSize(top);
    var all := AsSet(top);
    assert Above(words, w) <= all - {w};
    FiniteSets.SubsetSize(Above(words, w), all - {w});
    assert all + {v} <= AtOrAbove(words, w);
    FiniteSets.SubsetSize(all + {v}, AtOrAbove(words, w));
  }

  lemma CutTieIsSplit(words: seq<string>, n: nat, top: seq<string>)
    requires IsTop(words, n, top) && TieAtCut(words, n)
    ensures CutSplitsTie(words, top)
  {
    hide Occurrences;
    var w :| w in words && |Above(words, w)| < n < |AtOrAbove(words, w)|;
    DistinctSize(top);
    var all := AsSet(top);
    if AtOrAbove(words, w) <= all {
      FiniteSets.SubsetSize(AtOrAbove(words, w), all);
    }
    var v :| v in AtOrAbove(words, w) && v !in all;
    if all <= Above(words, w) {
      FiniteSets.SubsetSize(all, Above(words, w));
    }
    var t :| t in all && t !in Above(words, w);
    assert Occurrences(t, words) == Occurrences(v, words);
  }

  /** A cut splits a tie, whichever words were taken, if and only if there is a tie at the cut. */
  lemma CutSplitsTieIff(words: seq<string>, n: nat, top: seq<string>)
    requires IsTop(words, n, top)
    ensures CutSplitsTie(words, top) <==> TieAtCut(words, n)
  {
    if CutSplitsTie(words, top) {
      SplitTieIsAtCut(words, n, top);
    }
    if TieAtCut(words, n) {
      CutTieIsSplit(words, n, top);
    }
  }

  lemma ReplaceOne(top: seq<string>, i: nat, v: string)
    requires i < |top| && Distinct(top) && v !in top
    ensures Distinct(top[i := v]) && forall x :: x in top[i := v] <==> x == v || (x in top && x != top[i])
  {
    var other := top[i := v];
    assert other[i] == v;
    forall x | x in top && x != top[i] ensures x in other {
      var j :| 0 <= j < |top| && top[j] == x;
      assert other[j] == x;
    }
  }

  lemma TieGivesAnother(words: seq<string>, n: nat, top: seq<string>) returns (other: seq<string>)
    requires IsTop(words, n, top) && CutSplitsTie(words, top)
    ensures IsTop(words, n, other) && !SameWords(top, other)
  {
    hide Occurrences;
    var v, w :| v in words && v !in top && w in top && Occurrences(v, words) == Occurrences(w, words);
    var i :| 0 <= i < |top| && top[i] == w;
    other := top[i := v];
    ReplaceOne(top, i, v);
    assert forall j :: 0 <= j < |top| ==> Occurrences(other[j], words) == Occurrences(top[j], words);
  }

  lemma NoTieGivesSame(words: seq<string>, n: nat, top: seq<string>, other: seq<string>)
    requires IsTop(words, n, top) && IsTop(words, n, other) && !CutSplitsTie(words, top)
    ensures SameWords(top, other)
  {
    hide Occurrences;
    DistinctSize(top);
    DistinctSize(other);
    var a, b := AsSet(top), AsSet(other);
    assert b <= a by {
      forall y | y in b ensures y in a {
        if y !in a && a <= b {
          FiniteSets.SubsetOfSameSize(a, b);
        }
      }
    }
    if |other| >= |top| {
      FiniteSets.SubsetOfSameSize(b, a);
    }
    assert forall w :: w in top <==> w in a;
    assert forall w :: w in other <==> w in b;
  }

  // ----- Jaccard distance

  const PREFIX := "keyword:"

  function TypesOf(keywords: seq<string>): (r: seq<string>)
    ensures |r| == |keywords| && forall i :: 0 <= i < |keywords| ==> r[i] == PREFIX + keywords[i]
  {
    seq(|keywords|, i requires 0 <= i < |keywords| => PREFIX + keywords[i])
  }

  /** One minus the share of common types; no drift when both sets are empty. */
  function SemanticDrift(expected: set<string>, stored: set<string>): real {
    if expected == {} && stored == {} then 0.0
    else
      var union := |expected + stored|;
      var jaccard := if union > 0 then |expected * stored| as real / union as real else 0.0;
      if 1.0 - jaccard > 0.0 then 1.0 - jaccard else 0.0
  }

  lemma NoSemanticDriftIff(expected: set<string>, stored: set<string>)
    ensures SemanticDrift(expected, stored) == 0.0 <==> expected == stored
  {
    if expected != {} || stored != {} {
      var both, either := expected * stored, expected + stored;
      var x :| x in either;
      assert |either| > 0;
      assert both <= either && |both| <= |either| by {
        FiniteSets.SubsetSize(both, either);
      }
      if both == either {
        assert expected == stored;
        assert |both| as real / |either| as real == 1.0;
      } else {
        if |both| >= |either| {
          FiniteSets.SubsetOfSameSize(both, either);
        }
        SmallerQuotient(|both|, |either|);
      }
    }
  }

  lemma SmallerQuotient(p: nat, q: nat)
    requires p < q
    ensures p as real / q as real < 1.0
  {
    var r := p as real / q as real;
    assert r * q as real == p as real;
  }

  /** The drift is the share of types that only one side has, out of all types. */
  lemma SemanticDriftValue(expected: set<string>, stored: set<string>)
    requires expected + stored != {}
    ensures SemanticDrift(expected, stored) * |expected + stored| as real
      == (|expected + stored| - |expected * stored|) as real
  {
    var both, either := expected * stored, expected + stored;
    var x :| x in either;
    FiniteSets.SubsetSize(both, either);
    assert both <= either;
    ShareOf(|both|, |either|);
  }

  lemma ShareOf(p: nat, q: nat)
    requires p <= q && q > 0
    ensures 1.0 - p as real / q as real >= 0.0
    ensures (1.0 - p as real / q as real) * q as real == (q - p) as real
  {
    var r := p as real / q as real;
    assert r * q as real == p as real;
  }

  lemma SameTypesIff(a: seq<string>, b: seq<string>)
    ensures AsSet(TypesOf(a)) == AsSet(TypesOf(b)) <==> SameWords(a, b)
  {
    TypesInclude(a, b);
    TypesInclude(b, a);
  }

  lemma TypesInclude(a: seq<string>, b: seq<string>)
    ensures AsSet(TypesOf(a)) <= AsSet(TypesOf(b)) <==> forall w :: w in a ==> w in b
  {
    if AsSet(TypesOf(a)) <= AsSet(TypesOf(b)) {
      forall w | w in a ensures w in b {
        var i :| 0 <= i < |a| && a[i] == w;
        assert TypesOf(a)[i] in AsSet(TypesOf(b));
        var j :| 0 <= j < |b| && TypesOf(b)[j] == PREFIX + w;
        assert (PREFIX + b[j])[|PREFIX|..] == b[j] && (PREFIX + w)[|PREFIX|..] == w;
      }
    }
    if forall w :: w in a ==> w in b {
      forall t | t in TypesOf(a) ensures t in TypesOf(b) {
        var i :| 0 <= i < |a| && TypesOf(a)[i] == t;
        assert a[i] in b;
        var j :| 0 <= j < |b| && b[j] == a[i];
        assert TypesOf(b)[j] == t;
      }
    }
  }

  /** Occurrences are counted. */
  lemma {:induction false} OccurrencesAreCounted(w: string, words: seq<string>)
    ensures Occurrences(w, words) == multiset(words)[w]
  {
    if words != [] {
      assert words == words[..|words| - 1] + [words[|words| - 1]];
      OccurrencesAreCounted(w, words[..|words| - 1]);
    }
  }

  /** Types are keywords after the text keyword: */
  lemma TypesAreKeywords(keywords: seq<string>, t: string)
    ensures t in TypesOf(keywords) <==> exists k :: k in keywords && t == "keyword:" + k
  {
    if t in TypesOf(keywords) {
      var i :| 0 <= i < |keywords| && TypesOf(keywords)[i] == t;
      assert keywords[i] in keywords;
    }
    if k :| k in keywords && t == "keyword:" + k {
      var i :| 0 <= i < |keywords| && keywords[i] == k;
      assert TypesOf(keywords)[i] == t;
    }
  }
}
