/** The persistent graph store: three ordered tables of byte keys.

A table is a finite map with its keys in byte order, and one write transaction is one step. */
module RedbGraphStore {
  import opened ByteStrings
  import opened GraphModel
  import opened ByteOrder
  import opened Neighborhoods

  const SEP: Byte := 0

  predicate NulFree(s: Bytes) {
    SEP !in s
  }

  /** The IRIs an edge contributes to composite keys. A literal's text may hold any byte. */
  predicate ValidIris(edge: GraphEdge) {
    && NulFree(edge.subject.iri)
    && NulFree(edge.pred.iri)
    && (edge.obj.Node? ==> NulFree(edge.obj.node.iri))
  }

  function Encode(k: TripleKey): Bytes {
    k.subject + [SEP] + k.pred + [SEP] + k.obj
  }

  function IndexKey(iri: Bytes, tripleKey: Bytes): Bytes {
    iri + [SEP] + tripleKey
  }

  function IriPrefix(iri: Bytes): Bytes {
    iri + [SEP]
  }

  // ----- The composite keys

  lemma SplitAtSeparator(a: Bytes, x: Bytes, b: Bytes, y: Bytes)
    requires NulFree(a) && NulFree(b)
    requires a + [SEP] + x == b + [SEP] + y
    ensures a == b && x == y
  {
    var s, t := a + [SEP] + x, b + [SEP] + y;
    assert s[|a|] == SEP && t[|b|] == SEP;
    assert forall i :: 0 <= i < |a| ==> s[i] == a[i];
    assert forall i :: 0 <= i < |b| ==> t[i] == b[i];
    assert |a| == |b|;
    assert s[..|a|] == a && t[..|a|] == b;
    assert s[|a| + 1..] == x && t[|a| + 1..] == y;
  }

  lemma EncodeInjective(k: TripleKey, l: TripleKey)
    requires NulFree(k.subject) && NulFree(k.pred) && NulFree(l.subject) && NulFree(l.pred)
    ensures Encode(k) == Encode(l) <==> k == l
  {
    if Encode(k) == Encode(l) {
      var x, y := k.pred + [SEP] + k.obj, l.pred + [SEP] + l.obj;
      assert Encode(k) == k.subject + [SEP] + x && Encode(l) == l.subject + [SEP] + y;
      SplitAtSeparator(k.subject, x, l.subject, y);
      SplitAtSeparator(k.pred, k.obj, l.pred, l.obj);
    }
  }

  // ----- The order of composite keys

  /** As NUL is the least byte, keys joined by it are ordered by their first parts and then by the
      rest. */
  lemma {:induction false} SeparatedOrder(a: Bytes, x: Bytes, b: Bytes, y: Bytes)
    requires NulFree(a) && NulFree(b)
    ensures LexLeq(a + [SEP] + x, b + [SEP] + y) <==> if a == b then LexLeq(x, y) else LexLeq(a, b)
  {
    var s, t := a + [SEP] + x, b + [SEP] + y;
    if a == [] || b == [] {
      assert s[1..] == (if a == [] then x else a[1..] + [SEP] + x);
      assert t[1..] == (if b == [] then y else b[1..] + [SEP] + y);
    } else {
      assert s[1..] == a[1..] + [SEP] + x && t[1..] == b[1..] + [SEP] + y;
      assert a == [a[0]] + a[1..] && b == [b[0]] + b[1..];
      SeparatedOrder(a[1..], x, b[1..], y);
    }
  }

  /** Triples by subject, then predicate, then object. */
  predicate TripleLeq(k: TripleKey, l: TripleKey) {
    if k.subject != l.subject then LexLeq(k.subject, l.subject)
    else if k.pred != l.pred then LexLeq(k.pred, l.pred)
    else LexLeq(k.obj, l.obj)
  }

  lemma EncodeKeepsOrder(k: TripleKey, l: TripleKey)
    requires ValidKey(k) && ValidKey(l)
    ensures LexLeq(Encode(k), Encode(l)) <==> TripleLeq(k, l)
  {
    var x, y := k.pred + [SEP] + k.obj, l.pred + [SEP] + l.obj;
    assert Encode(k) == k.subject + [SEP] + x && Encode(l) == l.subject + [SEP] + y;
    SeparatedOrder(k.subject, x, l.subject, y);
    SeparatedOrder(k.pred, k.obj, l.pred, l.obj);
  }

  /** Edges by subject, then predicate, then object, no triple twice. */
  ghost predicate InTripleOrder(edges: seq<GraphEdge>) {
    forall i, j :: 0 <= i < j < |edges| ==>
      KeyOf(edges[i]) != KeyOf(edges[j]) && TripleLeq(KeyOf(edges[i]), KeyOf(edges[j]))
  }

  // ----- Exactly when keys collide

  function Nuls(s: Bytes): nat {
    if s == [] then 0 else (if s[0] == SEP then 1 else 0) + Nuls(s[1..])
  }

  lemma {:induction false} NulsAdd(s: Bytes, t: Bytes)
    ensures Nuls(s + t) == Nuls(s) + Nuls(t)
  {
    if s == [] {
      assert s + t == t;
    } else {
      assert (s + t)[1..] == s[1..] + t;
      NulsAdd(s[1..], t);
    }
  }

  lemma {:induction false} NulFreeIff(s: Bytes)
    ensures NulFree(s) <==> Nuls(s) == 0
  {
    if s != [] {
      assert s == [s[0]] + s[1..];
      NulFreeIff(s[1..]);
    }
  }

  lemma NulsOfEncoded(k: TripleKey)
    ensures Nuls(Encode(k)) == Nuls(k.subject) + Nuls(k.pred) + Nuls(k.obj) + 2
  {
    assert Nuls([SEP]) == 1;
    NulsAdd(k.subject + [SEP] + k.pred + [SEP], k.obj);
    NulsAdd(k.subject + [SEP] + k.pred, [SEP]);
    NulsAdd(k.subject + [SEP], k.pred);
    NulsAdd(k.subject, [SEP]);
  }

  /** A text of four parts with three separators can be read as a triple in three ways. */
  lemma ThreeReadings(a: Bytes, b: Bytes, c: Bytes, d: Bytes)
    ensures Encode(TripleKey(a + [SEP] + b, c, d)) == Encode(TripleKey(a, b, c + [SEP] + d))
    ensures Encode(TripleKey(a, b + [SEP] + c, d)) == Encode(TripleKey(a, b, c + [SEP] + d))
  {
  }

  lemma NulSplits(s: Bytes) returns (before: Bytes, after: Bytes)
    requires !NulFree(s)
    ensures s == before + [SEP] + after && |before| < |s| && |after| < |s|
  {
    var i :| 0 <= i < |s| && s[i] == SEP;
    before, after := s[..i], s[i + 1..];
  }

  /** Moving a NUL of one part into the role of a separator gives another triple with the same key. */
  lemma NulGivesAnother(k: TripleKey) returns (other: TripleKey)
    requires !(NulFree(k.subject) && NulFree(k.pred) && NulFree(k.obj))
    ensures other != k && Encode(other) == Encode(k)
  {
    hide Encode, NulFree;
    if !NulFree(k.subject) {
      var before, after := NulSplits(k.subject);
      ThreeReadings(before, after, k.pred, k.obj);
      other := TripleKey(before, after, k.pred + [SEP] + k.obj);
    } else if !NulFree(k.pred) {
      var before, after := NulSplits(k.pred);
      ThreeReadings(k.subject, before, after, k.obj);
      other := TripleKey(k.subject, before, after + [SEP] + k.obj);
    } else {
      var before, after := NulSplits(k.obj);
      ThreeReadings(k.subject, k.pred, before, after);
      other := TripleKey(k.subject, k.pred + [SEP] + before, after);
    }
  }

  /** A triple shares its byte key with another one if and only if it has a NUL somewhere: a literal
      with a NUL does too, with a triple whose predicate has one. */
  lemma KeyCollidesIff(k: TripleKey)
    ensures (exists l :: l != k && Encode(l) == Encode(k))
      <==> !(NulFree(k.subject) && NulFree(k.pred) && NulFree(k.obj))
  {
    if NulFree(k.subject) && NulFree(k.pred) && NulFree(k.obj) {
      forall l | Encode(l) == Encode(k) ensures l == k {
        NulsOfEncoded(k);
        NulsOfEncoded(l);
        NulFreeIff(k.subject);
        NulFreeIff(k.pred);
        NulFreeIff(k.obj);
        NulFreeIff(l.subject);
        NulFreeIff(l.pred);
        EncodeInjective(k, l);
      }
    } else {
      var other := NulGivesAnother(k);
    }
  }

  /** The prefix of one IRI matches the index keys of that IRI and of no other. */
  lemma PrefixSelectsIri(iri: Bytes, owner: Bytes, tripleKey: Bytes)
    requires NulFree(iri) && NulFree(owner)
    ensures IriPrefix(iri) <= IndexKey(owner, tripleKey) <==> iri == owner
    ensures iri == owner ==> IndexKey(owner, tripleKey)[|IriPrefix(iri)|..] == tripleKey
  {
    var key := IndexKey(owner, tripleKey);
    if IriPrefix(iri) <= key {
      var rest := key[|iri| + 1..];
      assert key == IriPrefix(iri) + rest;
      SplitAtSeparator(iri, rest, owner, tripleKey);
    }
    if iri == owner {
      assert IriPrefix(iri) <= key;
    }
  }

  // ----- The range scan

  /** The triple keys that `index` files under `iri` and that `triples` holds. */
  ghost function Filed(index: set<Bytes>, triples: map<Bytes, GraphEdge>, iri: Bytes): set<Bytes> {
    set k | k in triples && IndexKey(iri, k) in index
  }

  ghost predicate Ascending(keys: seq<Bytes>) {
    forall i, j :: 0 <= i < j < |keys| ==> LexLeq(keys[i], keys[j]) && keys[i] != keys[j]
  }

  ghost predicate Reads(triples: map<Bytes, GraphEdge>, keys: seq<Bytes>, edges: seq<GraphEdge>) {
    |keys| == |edges| && forall i :: 0 <= i < |keys| ==> keys[i] in triples && edges[i] == triples[keys[i]]
  }

  /** The filed triples, each once, in the order of their keys. */
  ghost predicate IsScan(index: set<Bytes>, triples: map<Bytes, GraphEdge>, iri: Bytes, edges: seq<GraphEdge>) {
    exists keys :: Reads(triples, keys, edges) && Ascending(keys)
      && forall k :: k in keys <==> k in Filed(index, triples, iri)
  }

  lemma {:induction false} StripKeepsOrder(p: Bytes, x: Bytes, y: Bytes)
    ensures LexLeq(p + x, p + y) <==> LexLeq(x, y)
  {
    if p == [] {
      assert p + x == x && p + y == y;
    } else {
      assert (p + x)[1..] == p[1..] + x && (p + y)[1..] == p[1..] + y;
      StripKeepsOrder(p[1..], x, y);
    }
  }

  /** The scan over an index table. `rest` is what the range iterator has still to yield, and the
      iterator yields its least key; the loop ends early at the first key without the prefix.
      The result is exactly the filed edges, each once, in key order, whatever the tables hold. */
  method ScanIndexForEdges(index: set<Bytes>, triples: map<Bytes, GraphEdge>, iri: Bytes)
    returns (edges: seq<GraphEdge>)
    ensures IsScan(index, triples, iri, edges)
  {
    hide IsScan, IriPrefix, LexLeq;
    ghost var keys: seq<Bytes>;
    var prefix := IriPrefix(iri);
    edges, keys := [], [];
    var rest := set k | k in index && LexLeq(prefix, k);
    forall k | k in triples && prefix + k in index ensures prefix + k in rest {
      PrefixIsLeq(prefix, prefix + k);
    }
    while rest != {}
      invariant rest <= index && forall k :: k in rest ==> LexLeq(prefix, k)
      invariant Reads(triples, keys, edges) && Ascending(keys)
      invariant forall k, j :: k in keys && j in rest ==> LexLeq(prefix + k, j) && prefix + k != j
      invariant forall k :: k in keys ==> k in triples && prefix + k in index
      invariant forall k :: k in triples && prefix + k in index ==> k in keys || prefix + k in rest
      decreases rest
    {
      FirstExists(rest);
      var idxKey :| idxKey in rest && forall j :: j in rest ==> LexLeq(idxKey, j);
      rest := rest - {idxKey};
      if !(prefix <= idxKey) {
        forall k | k in triples && prefix + k in index ensures k in keys {
          if k !in keys {
            PrefixedKeysAreContiguous(prefix, idxKey, prefix + k);
          }
        }
        break;
      }
      var tripleKey := idxKey[|prefix|..];
      assert idxKey == prefix + tripleKey;
      forall k | k in keys ensures LexLeq(k, tripleKey) && k != tripleKey {
        StripKeepsOrder(prefix, k, tripleKey);
      }
      if tripleKey in triples {
        edges := edges + [triples[tripleKey]];
        keys := keys + [tripleKey];
      }
      forall k | k in triples && prefix + k in index ensures k in keys || prefix + k in rest {
        assert prefix + k == idxKey ==> k == tripleKey by {
          assert (prefix + k)[|prefix|..] == k;
        }
      }
    }
    CompleteScan(index, triples, iri, keys, edges);
  }

  lemma CompleteScan(index: set<Bytes>, triples: map<Bytes, GraphEdge>, iri: Bytes, keys: seq<Bytes>,
      edges: seq<GraphEdge>)
    requires Reads(triples, keys, edges) && Ascending(keys)
    requires forall k :: k in keys <==> k in triples && IriPrefix(iri) + k in index
    ensures IsScan(index, triples, iri, edges)
  {
    assert forall k :: IndexKey(iri, k) == IriPrefix(iri) + k;
  }

  // ----- The store

  predicate ValidKey(k: TripleKey) {
    NulFree(k.subject) && NulFree(k.pred)
  }

  ghost function SubjectEntries(st: GraphState): set<Bytes> {
    set k | k in st.edges :: IndexKey(k.subject, Encode(k))
  }

  ghost function ObjectEntries(st: GraphState): set<Bytes> {
    set k | k in st.nodeKeys :: IndexKey(k.obj, Encode(k))
  }

  /** The three tables hold exactly the encodings of an abstract state. */
  ghost predicate Represents(triples: map<Bytes, GraphEdge>, subjectIdx: set<Bytes>, objectIdx: set<Bytes>,
    st: GraphState)
  {
    && Sound(st)
    && (forall k :: k in st.edges || k in st.nodeKeys ==> ValidKey(k))
    && (forall k :: k in st.nodeKeys ==> NulFree(k.obj))
    && (forall k :: k in st.edges ==> Encode(k) in triples && triples[Encode(k)] == st.edges[k])
    && (forall b :: b in triples ==> KeyOf(triples[b]) in st.edges && Encode(KeyOf(triples[b])) == b)
    && subjectIdx == SubjectEntries(st)
    && objectIdx == ObjectEntries(st)
  }

  lemma SubjectIndexFiles(triples: map<Bytes, GraphEdge>, subjectIdx: set<Bytes>, objectIdx: set<Bytes>,
      st: GraphState, iri: Bytes)
    requires Represents(triples, subjectIdx, objectIdx, st) && NulFree(iri)
    ensures Filed(subjectIdx, triples, iri) == set k | k in OutgoingKeys(st, iri) :: Encode(k)
  {
    forall b | b in Filed(subjectIdx, triples, iri) ensures b in set k | k in OutgoingKeys(st, iri) :: Encode(k) {
      var k :| k in st.edges && IndexKey(iri, b) == IndexKey(k.subject, Encode(k));
      PrefixSelectsIri(iri, k.subject, Encode(k));
      assert IndexKey(iri, b)[|IriPrefix(iri)|..] == b;
    }
  }

  lemma ObjectIndexFiles(triples: map<Bytes, GraphEdge>, subjectIdx: set<Bytes>, objectIdx: set<Bytes>,
      st: GraphState, iri: Bytes)
    requires Represents(triples, subjectIdx, objectIdx, st) && NulFree(iri)
    ensures Filed(objectIdx, triples, iri) == set k | k in IncomingKeys(st, iri) :: Encode(k)
  {
    forall b | b in Filed(objectIdx, triples, iri) ensures b in set k | k in IncomingKeys(st, iri) :: Encode(k) {
      var k :| k in st.nodeKeys && IndexKey(iri, b) == IndexKey(k.obj, Encode(k));
      PrefixSelectsIri(iri, k.obj, Encode(k));
      assert IndexKey(iri, b)[|IriPrefix(iri)|..] == b;
      EncodeInjective(k, KeyOf(triples[b]));
    }
  }

  /** A scan result is a listing of the abstract edges once its keys are decoded. */
  lemma ScanLists(triples: map<Bytes, GraphEdge>, st: GraphState, index: set<Bytes>, iri: Bytes,
      edges: seq<GraphEdge>, wanted: set<TripleKey>)
    requires Sound(st) && IsScan(index, triples, iri, edges)
    requires forall k :: k in st.edges ==> ValidKey(k) && Encode(k) in triples && triples[Encode(k)] == st.edges[k]
    requires wanted <= st.edges.Keys
    requires Filed(index, triples, iri) == set k | k in wanted :: Encode(k)
    ensures Lists(st, edges, wanted) && InTripleOrder(edges)
  {
    var keys :| Reads(triples, keys, edges) && Ascending(keys)
      && forall k :: k in keys <==> k in Filed(index, triples, iri);
    forall i | 0 <= i < |edges|
      ensures KeyOf(edges[i]) in wanted && st.edges[KeyOf(edges[i])] == edges[i] && Encode(KeyOf(edges[i])) == keys[i]
    {
      assert keys[i] in keys;
      var k :| k in wanted && Encode(k) == keys[i];
    }
    forall k | k in wanted ensures st.edges[k] in edges {
      assert Encode(k) in keys;
      var i :| 0 <= i < |keys| && keys[i] == Encode(k);
      assert edges[i] == st.edges[k];
    }
    forall i, j | 0 <= i < j < |edges|
      ensures KeyOf(edges[i]) != KeyOf(edges[j]) && TripleLeq(KeyOf(edges[i]), KeyOf(edges[j]))
    {
      assert keys[i] != keys[j] && LexLeq(keys[i], keys[j]);
      EncodeKeepsOrder(KeyOf(edges[i]), KeyOf(edges[j]));
    }
  }

  lemma InsertKeepsTriples(triples: map<Bytes, GraphEdge>, st: GraphState, edge: GraphEdge)
    requires Sound(st) && ValidKey(KeyOf(edge))
    requires forall k :: k in st.edges ==> ValidKey(k) && Encode(k) in triples && triples[Encode(k)] == st.edges[k]
    requires forall b :: b in triples ==> KeyOf(triples[b]) in st.edges && Encode(KeyOf(triples[b])) == b
    ensures
      var st', triples' := Insert(st, edge), triples[Encode(KeyOf(edge)) := edge];
      && (forall k :: k in st'.edges ==> Encode(k) in triples' && triples'[Encode(k)] == st'.edges[k])
      && (forall b :: b in triples' ==> KeyOf(triples'[b]) in st'.edges && Encode(KeyOf(triples'[b])) == b)
  {
    forall k | k in st.edges ensures Encode(k) == Encode(KeyOf(edge)) ==> k == KeyOf(edge) {
      EncodeInjective(k, KeyOf(edge));
    }
  }

  lemma InsertEntries(st: GraphState, edge: GraphEdge)
    ensures
      var k := KeyOf(edge);
      && SubjectEntries(Insert(st, edge)) == SubjectEntries(st) + {IndexKey(k.subject, Encode(k))}
      && ObjectEntries(Insert(st, edge)) ==
         if edge.obj.Node? then ObjectEntries(st) + {IndexKey(k.obj, Encode(k))} else ObjectEntries(st)
  {
  }

  lemma InsertRepresents(triples: map<Bytes, GraphEdge>, subjectIdx: set<Bytes>, objectIdx: set<Bytes>,
      st: GraphState, edge: GraphEdge)
    requires Represents(triples, subjectIdx, objectIdx, st) && ValidIris(edge)
    ensures
      var key := Encode(KeyOf(edge));
      Represents(triples[key := edge],
                 subjectIdx + {IndexKey(edge.subject.iri, key)},
                 if edge.obj.Node? then objectIdx + {IndexKey(edge.obj.node.iri, key)} else objectIdx,
                 Insert(st, edge))
  {
    InsertKeepsTriples(triples, st, edge);
    InsertKeepsSound(st, edge);
    InsertEntries(st, edge);
  }

  lemma DeleteKeepsTriples(triples: map<Bytes, GraphEdge>, st: GraphState, edge: GraphEdge)
    requires Sound(st) && ValidKey(KeyOf(edge))
    requires forall k :: k in st.edges ==> ValidKey(k) && Encode(k) in triples && triples[Encode(k)] == st.edges[k]
    requires forall b :: b in triples ==> KeyOf(triples[b]) in st.edges && Encode(KeyOf(triples[b])) == b
    ensures
      var st', triples' := Delete(st, edge), triples - {Encode(KeyOf(edge))};
      && (forall k :: k in st'.edges ==> Encode(k) in triples' && triples'[Encode(k)] == st'.edges[k])
      && (forall b :: b in triples' ==> KeyOf(triples'[b]) in st'.edges && Encode(KeyOf(triples'[b])) == b)
  {
    forall k | k in st.edges ensures Encode(k) == Encode(KeyOf(edge)) ==> k == KeyOf(edge) {
      EncodeInjective(k, KeyOf(edge));
    }
  }

  lemma DeleteEntries(st: GraphState, edge: GraphEdge)
    requires ValidIris(edge)
    requires forall k :: k in st.edges || k in st.nodeKeys ==> ValidKey(k)
    requires forall k :: k in st.nodeKeys ==> NulFree(k.obj)
    ensures
      var gone := KeyOf(edge);
      && SubjectEntries(Delete(st, edge)) == SubjectEntries(st) - {IndexKey(gone.subject, Encode(gone))}
      && ObjectEntries(Delete(st, edge)) ==
        if edge.obj.Node? then ObjectEntries(st) - {IndexKey(gone.obj, Encode(gone))} else ObjectEntries(st)
  {
    var gone := KeyOf(edge);
    forall k | k in st.edges
      ensures IndexKey(k.subject, Encode(k)) == IndexKey(gone.subject, Encode(gone)) ==> k == gone {
      if IndexKey(k.subject, Encode(k)) == IndexKey(gone.subject, Encode(gone)) {
        SplitAtSeparator(k.subject, Encode(k), gone.subject, Encode(gone));
        EncodeInjective(k, gone);
      }
    }
    if edge.obj.Node? {
      forall k | k in st.nodeKeys ensures IndexKey(k.obj, Encode(k)) == IndexKey(gone.obj, Encode(gone)) ==> k == gone {
        if IndexKey(k.obj, Encode(k)) == IndexKey(gone.obj, Encode(gone)) {
          SplitAtSeparator(k.obj, Encode(k), gone.obj, Encode(gone));
          EncodeInjective(k, gone);
        }
      }
    }
  }

  lemma DeleteRepresents(triples: map<Bytes, GraphEdge>, subjectIdx: set<Bytes>, objectIdx: set<Bytes>,
      st: GraphState, edge: GraphEdge)
    requires Represents(triples, subjectIdx, objectIdx, st) && ValidIris(edge)
    ensures
      var key := Encode(KeyOf(edge));
      Represents(triples - {key},
                 subjectIdx - {IndexKey(edge.subject.iri, key)},
                 if edge.obj.Node? then objectIdx - {IndexKey(edge.obj.node.iri, key)} else objectIdx,
                 Delete(st, edge))
  {
    DeleteKeepsTriples(triples, st, edge);
    DeleteEntries(st, edge);
  }

  class Store {
    var triples: map<Bytes, GraphEdge>
    var subjectIdx: set<Bytes>
    var objectIdx: set<Bytes>
    ghost var st: GraphState

    ghost predicate Valid()
      reads this
    {
      Represents(triples, subjectIdx, objectIdx, st)
    }

    constructor ()
      ensures Valid() && st == EMPTY
    {
      triples, subjectIdx, objectIdx := map[], {}, {};
      st := EMPTY;
    }

    method Insert(edge: GraphEdge)
      requires Valid() && ValidIris(edge)
      modifies this
      ensures Valid() && st == GraphModel.Insert(old(st), edge)
    {
      InsertRepresents(triples, subjectIdx, objectIdx, st, edge);
      var key := Encode(KeyOf(edge));
      triples := triples[key := edge];
      subjectIdx := subjectIdx + {IndexKey(edge.subject.iri, key)};
      if edge.obj.Node? {
        objectIdx := objectIdx + {IndexKey(edge.obj.node.iri, key)};
      }
      st := GraphModel.Insert(st, edge);
    }

    method Delete(edge: GraphEdge)
      requires Valid() && ValidIris(edge)
      modifies this
      ensures Valid() && st == GraphModel.Delete(old(st), edge)
    {
      DeleteRepresents(triples, subjectIdx, objectIdx, st, edge);
      var key := Encode(KeyOf(edge));
      triples := triples - {key};
      subjectIdx := subjectIdx - {IndexKey(edge.subject.iri, key)};
      if edge.obj.Node? {
        objectIdx := objectIdx - {IndexKey(edge.obj.node.iri, key)};
      }
      st := GraphModel.Delete(st, edge);
    }

    method Exists(edge: GraphEdge) returns (found: bool)
      requires Valid() && ValidIris(edge)
      ensures found <==> KeyOf(edge) in st.edges
    {
      found := Encode(KeyOf(edge)) in triples;
      if found {
        EncodeInjective(KeyOf(edge), KeyOf(triples[Encode(KeyOf(edge))]));
      }
    }

    method Outgoing(iri: Bytes) returns (edges: seq<GraphEdge>)
      requires Valid() && NulFree(iri)
      ensures Lists(st, edges, OutgoingKeys(st, iri))
      ensures InTripleOrder(edges)
    {
      edges := ScanIndexForEdges(subjectIdx, triples, iri);
      SubjectIndexFiles(triples, subjectIdx, objectIdx, st, iri);
      ScanLists(triples, st, subjectIdx, iri, edges, OutgoingKeys(st, iri));
    }

    method Incoming(iri: Bytes) returns (edges: seq<GraphEdge>)
      requires Valid() && NulFree(iri)
      ensures Lists(st, edges, IncomingKeys(st, iri))
      ensures InTripleOrder(edges)
    {
      edges := ScanIndexForEdges(objectIdx, triples, iri);
      ObjectIndexFiles(triples, subjectIdx, objectIdx, st, iri);
      ScanLists(triples, st, objectIdx, iri, edges, IncomingKeys(st, iri));
    }

    /** Breadth-first search: after round `i` the frontier is exactly the IRIs at distance `i`. */
    method Neighborhood(iri: Bytes, hops: nat) returns (visited: set<Bytes>)
      requires Valid() && NulFree(iri)
      ensures visited == Ball(st, iri, hops)
    {
      hide Ball, Sphere, Reached, Neighbours;
      SphereOfBall(st, iri, 0);
      ReachedNothing(st);
      visited := {iri};
      var frontier := [iri];
      for i := 0 to hops
        invariant visited == Ball(st, iri, i)
        invariant Distinct(frontier) && forall y :: y in frontier <==> y in Sphere(st, iri, i)
      {
        SphereOfBall(st, iri, i);
        var next := [];
        assert frontier[..0] == [];
        for j := 0 to |frontier|
          invariant visited == Ball(st, iri, i) + Reached(st, frontier[..j])
          invariant Distinct(next) && forall y :: y in next <==> y in visited && y !in Ball(st, iri, i)
        {
          assert frontier[j] in frontier;
          BallIsNulFree(iri, i, frontier[j]);
          var outgoing := Outgoing(frontier[j]);
          var incoming := Incoming(frontier[j]);
          LookupsFindNeighbours(st, frontier[j], outgoing, incoming);
          ReachedExtends(st, frontier, j);
          visited, next := Expand(outgoing, incoming, visited, next);
        }
        assert frontier[..|frontier|] == frontier;
        RoundGrowsBall(st, iri, i, frontier);
        frontier := next;
      }
    }

    lemma {:induction false} BallIsNulFree(iri: Bytes, h: nat, y: Bytes)
      requires Valid() && NulFree(iri) && y in Ball(st, iri, h)
      ensures NulFree(y)
    {
      if h > 0 {
        if y in Ball(st, iri, h - 1) {
          BallIsNulFree(iri, h - 1, y);
        } else {
          var k :| k in st.edges && (st.edges[k].subject.iri == y || PointsAt(st.edges[k], y));
          assert KeyOf(st.edges[k]) == k;
        }
      }
    }
  }
}
