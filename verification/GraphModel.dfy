/** The triples of the graph modality and the abstract state both graph stores implement.

A `GraphState` is what a store holds once its encodings are forgotten: the edge filed under
each triple key, and the keys listed in the object index. The object index is part of the
abstract state because a literal and a node can share a key, and the index then keeps a key
whose edge is no longer a node edge. */
module GraphModel {
  import opened Wrappers
  import opened ByteStrings

  datatype GraphNode = GraphNode(iri: Bytes, localName: Bytes)

  datatype GraphObject =
    | Node(node: GraphNode)
    | Literal(value: Bytes, datatypeIri: Option<Bytes>)

  datatype GraphEdge = GraphEdge(subject: GraphNode, pred: GraphNode, obj: GraphObject)

  datatype TripleKey = TripleKey(subject: Bytes, pred: Bytes, obj: Bytes)

  // The bytes of "literal::".
  const LITERAL_PREFIX: Bytes := [108, 105, 116, 101, 114, 97, 108, 58, 58]

  function ObjectKey(obj: GraphObject): Bytes {
    match obj
    case Node(n) => n.iri
    case Literal(value, _) => LITERAL_PREFIX + value
  }

  function KeyOf(edge: GraphEdge): TripleKey {
    TripleKey(edge.subject.iri, edge.pred.iri, ObjectKey(edge.obj))
  }

  // ----- Which edges share a key

  /** Two objects are stored as one: nodes with the same IRI, literals with the same value, or a
      literal and the node whose IRI is that value after literal:: */
  predicate SameObject(a: GraphObject, b: GraphObject) {
    match a
    case Node(m) => (
      match b
      case Node(n) => m.iri == n.iri
      case Literal(v, _) => IsLiteralIri(m.iri, v))
    case Literal(u, _) => (
      match b
      case Node(n) => IsLiteralIri(n.iri, u)
      case Literal(v, _) => u == v)
  }

  const LITERAL := "literal::"

  /** `iri` consists of the bytes of literal:: and then those of `value`. */
  predicate IsLiteralIri(iri: Bytes, value: Bytes) {
    && |iri| == |LITERAL| + |value|
    && (forall i :: 0 <= i < |LITERAL| ==> iri[i] as int == LITERAL[i] as int)
    && iri[|LITERAL|..] == value
  }

  /** The same subject, the same predicate and the same object. */
  predicate SameTriple(e: GraphEdge, f: GraphEdge) {
    e.subject.iri == f.subject.iri && e.pred.iri == f.pred.iri && SameObject(e.obj, f.obj)
  }

  lemma LiteralPrefix(i: int)
    requires 0 <= i < 9
    ensures |LITERAL| == |LITERAL_PREFIX| == 9 && LITERAL_PREFIX[i] as int == LITERAL[i] as int
  {
  }

  lemma LiteralIri(iri: Bytes, value: Bytes)
    ensures iri == LITERAL_PREFIX + value <==> IsLiteralIri(iri, value)
  {
    LiteralPrefix(0);
    if iri == LITERAL_PREFIX + value {
      forall i | 0 <= i < |LITERAL| ensures iri[i] as int == LITERAL[i] as int {
        LiteralPrefix(i);
      }
    }
    if IsLiteralIri(iri, value) {
      forall i | 0 <= i < |iri| ensures iri[i] == (LITERAL_PREFIX + value)[i] {
        if i < 9 {
          LiteralPrefix(i);
          SameNumberSameByte(iri[i], LITERAL_PREFIX[i]);
        } else {
          assert iri[i] == iri[|LITERAL|..][i - 9];
        }
      }
    }
  }

  lemma SameNumberSameByte(a: Byte, b: Byte)
    requires a as int == b as int
    ensures a == b
  {
  }

  /** Two edges are filed under one key if and only if they have the same subject, predicate and
      object. */
  lemma SameKeyIff(e: GraphEdge, f: GraphEdge)
    ensures KeyOf(e) == KeyOf(f) <==> SameTriple(e, f)
  {
    hide IsLiteralIri;
    if e.obj.Node? && f.obj.Literal? {
      LiteralIri(e.obj.node.iri, f.obj.value);
    } else if e.obj.Literal? && f.obj.Node? {
      LiteralIri(f.obj.node.iri, e.obj.value);
    } else if e.obj.Literal? && f.obj.Literal? {
      assert (LITERAL_PREFIX + e.obj.value)[|LITERAL_PREFIX|..] == e.obj.value;
      assert (LITERAL_PREFIX + f.obj.value)[|LITERAL_PREFIX|..] == f.obj.value;
    }
  }

  datatype GraphState = GraphState(edges: map<TripleKey, GraphEdge>, nodeKeys: set<TripleKey>)

  const EMPTY := GraphState(map[], {})

  function Insert(st: GraphState, edge: GraphEdge): GraphState {
    GraphState(st.edges[KeyOf(edge) := edge],
               if edge.obj.Node? then st.nodeKeys + {KeyOf(edge)} else st.nodeKeys)
  }

  function Delete(st: GraphState, edge: GraphEdge): GraphState {
    GraphState(st.edges - {KeyOf(edge)},
               if edge.obj.Node? then st.nodeKeys - {KeyOf(edge)} else st.nodeKeys)
  }

  /** Every edge sits under its own key, and every node edge is listed in the object index. */
  ghost predicate Sound(st: GraphState) {
    forall k :: k in st.edges ==> KeyOf(st.edges[k]) == k && (st.edges[k].obj.Node? ==> k in st.nodeKeys)
  }

  lemma InsertKeepsSound(st: GraphState, edge: GraphEdge)
    requires Sound(st)
    ensures Sound(Insert(st, edge))
  {
  }

  /** The keys the two index lookups find. */
  ghost function OutgoingKeys(st: GraphState, iri: Bytes): set<TripleKey> {
    set k | k in st.edges && k.subject == iri
  }

  ghost function IncomingKeys(st: GraphState, iri: Bytes): set<TripleKey> {
    set k | k in st.edges && k in st.nodeKeys && k.obj == iri
  }

  /** `edges` lists the edges stored under `keys`, each of them exactly once. */
  ghost predicate Lists(st: GraphState, edges: seq<GraphEdge>, keys: set<TripleKey>) {
    && (forall i :: 0 <= i < |edges| ==>
          KeyOf(edges[i]) in keys && KeyOf(edges[i]) in st.edges && st.edges[KeyOf(edges[i])] == edges[i])
    && (forall k :: k in keys ==> k in st.edges && st.edges[k] in edges)
    && (forall i, j :: 0 <= i < j < |edges| ==> KeyOf(edges[i]) != KeyOf(edges[j]))
  }

  lemma {:induction false} ListingLength(st: GraphState, edges: seq<GraphEdge>, keys: set<TripleKey>)
    requires Sound(st) && Lists(st, edges, keys)
    ensures |edges| == |keys|
    decreases |edges|
  {
    if edges == [] {
      forall k | k in st.edges ensures k !in keys {
        assert st.edges[k] !in edges;
      }
      assert keys == {};
    } else {
      var n := |edges| - 1;
      var k := KeyOf(edges[n]);
      forall j | j in keys - {k} ensures st.edges[j] in edges[..n] {
        var i :| 0 <= i < |edges| && edges[i] == st.edges[j];
        assert KeyOf(edges[i]) == j;
        assert edges[..n][i] == edges[i];
      }
      ListingLength(st, edges[..n], keys - {k});
    }
  }

  /** Two listings of the same keys are the same answer, up to order. */
  lemma ListingsAgree(st: GraphState, first: seq<GraphEdge>, second: seq<GraphEdge>, keys: set<TripleKey>)
    requires Sound(st) && Lists(st, first, keys) && Lists(st, second, keys)
    ensures |first| == |second| && forall e :: e in first <==> e in second
  {
    ListingLength(st, first, keys);
    ListingLength(st, second, keys);
  }

  // ----- Runs of inserts and deletes

  datatype Op = Ins(edge: GraphEdge) | Del(edge: GraphEdge)

  function Apply(st: GraphState, op: Op): GraphState {
    match op
    case Ins(e) => Insert(st, e)
    case Del(e) => Delete(st, e)
  }

  function Run(ops: seq<Op>): GraphState {
    if ops == [] then EMPTY else Apply(Run(ops[..|ops| - 1]), ops[|ops| - 1])
  }

  /** What the last operation on key `k` left there: a definition that mentions no state. */
  function LastWrite(ops: seq<Op>, k: TripleKey): Option<GraphEdge> {
    if ops == [] then None
    else
      var op := ops[|ops| - 1];
      if KeyOf(op.edge) != k then LastWrite(ops[..|ops| - 1], k)
      else if op.Ins? then Some(op.edge) else None
  }

  lemma {:induction false} RunHoldsLastWrites(ops: seq<Op>, k: TripleKey)
    ensures k in Run(ops).edges <==> LastWrite(ops, k).Some?
    ensures k in Run(ops).edges ==> Run(ops).edges[k] == LastWrite(ops, k).value
  {
    if ops != [] {
      RunHoldsLastWrites(ops[..|ops| - 1], k);
    }
  }

  lemma {:induction false} RunIsSound(ops: seq<Op>)
    ensures Sound(Run(ops))
  {
    if ops != [] {
      RunIsSound(ops[..|ops| - 1]);
    }
  }

  // ----- When the object index answers exactly the node edges

  predicate PointsAt(edge: GraphEdge, iri: Bytes) {
    edge.obj.Node? && edge.obj.node.iri == iri
  }

  /** The index lookup for `iri` finds exactly the stored edges whose object is the node `iri`. */
  ghost predicate IncomingExact(st: GraphState, iri: Bytes) {
    forall k :: k in IncomingKeys(st, iri) <==> k in st.edges && PointsAt(st.edges[k], iri)
  }

  /** The object index lists exactly the keys of the stored node edges. */
  ghost predicate IndexExact(st: GraphState) {
    forall k :: k in st.nodeKeys <==> k in st.edges && st.edges[k].obj.Node?
  }

  /** A literal is being written or removed where a node edge is stored: the two share a key. */
  predicate LiteralOverNode(st: GraphState, edge: GraphEdge) {
    edge.obj.Literal? && KeyOf(edge) in st.edges && st.edges[KeyOf(edge)].obj.Node?
  }

  lemma IndexExactGivesIncomingExact(st: GraphState, iri: Bytes)
    requires Sound(st) && IndexExact(st)
    ensures IncomingExact(st, iri)
  {
    forall k ensures k in IncomingKeys(st, iri) <==> k in st.edges && PointsAt(st.edges[k], iri) {
      if k in st.edges && st.edges[k].obj.Node? {
        assert KeyOf(st.edges[k]) == k;
      }
    }
  }

  /** An operation keeps the object index exact if and only if it is not a literal over a node. */
  lemma StepKeepsIndexExactIff(st: GraphState, op: Op)
    requires Sound(st) && IndexExact(st)
    ensures IndexExact(Apply(st, op)) <==> !LiteralOverNode(st, op.edge)
  {
    var k := KeyOf(op.edge);
    var st' := Apply(st, op);
    if LiteralOverNode(st, op.edge) {
      assert k in st'.nodeKeys;
    } else {
      forall j ensures j in st'.nodeKeys <==> j in st'.edges && st'.edges[j].obj.Node? {
        assert j != k ==> (j in st'.edges <==> j in st.edges);
      }
    }
  }

  predicate StartsLikeLiteral(iri: Bytes) {
    LITERAL_PREFIX <= iri
  }

  predicate NodeIrisAreNotLiterals(ops: seq<Op>) {
    forall i :: 0 <= i < |ops| && ops[i].edge.obj.Node? ==> !StartsLikeLiteral(ops[i].edge.obj.node.iri)
  }

  /** With no node object IRI starting with "literal::", the index stays exact over every run. */
  lemma {:induction false} RunIsIndexExact(ops: seq<Op>)
    requires NodeIrisAreNotLiterals(ops)
    ensures Sound(Run(ops)) && IndexExact(Run(ops))
    ensures forall k :: k in Run(ops).nodeKeys ==> !StartsLikeLiteral(k.obj)
  {
    if ops != [] {
      var init, op := ops[..|ops| - 1], ops[|ops| - 1];
      RunIsIndexExact(init);
      RunIsSound(ops);
      StepKeepsIndexExactIff(Run(init), op);
    }
  }

  // ----- Exactly when `incoming` is right after a run

  /** The last operation on `k` with a node object is an insert. */
  predicate NodeListed(ops: seq<Op>, k: TripleKey) {
    if ops == [] then false
    else
      var op := ops[|ops| - 1];
      if KeyOf(op.edge) == k && op.edge.obj.Node? then op.Ins? else NodeListed(ops[..|ops| - 1], k)
  }

  /** A literal was the last thing stored under `k`, over a node that was never deleted as a node. */
  predicate LiteralCovers(ops: seq<Op>, k: TripleKey) {
    NodeListed(ops, k) && LastWrite(ops, k).Some? && LastWrite(ops, k).value.obj.Literal?
  }

  lemma {:induction false} RunListsLastNodes(ops: seq<Op>, k: TripleKey)
    ensures k in Run(ops).nodeKeys <==> NodeListed(ops, k)
  {
    if ops != [] {
      RunListsLastNodes(ops[..|ops| - 1], k);
    }
  }

  /** Both lookups after any run, read off the operations: `outgoing` finds what was last stored,
      and `incoming` finds that and also each literal that covers a node. */
  lemma RunAnswers(ops: seq<Op>, iri: Bytes, k: TripleKey)
    ensures k in OutgoingKeys(Run(ops), iri) <==> LastWrite(ops, k).Some? && LastWrite(ops, k).value.subject.iri == iri
    ensures k in IncomingKeys(Run(ops), iri) <==>
      (LastWrite(ops, k).Some? && PointsAt(LastWrite(ops, k).value, iri)) || (LiteralCovers(ops, k) && k.obj == iri)
  {
    RunHoldsLastWrites(ops, k);
    RunListsLastNodes(ops, k);
    RunIsSound(ops);
    if k in Run(ops).edges {
      assert KeyOf(Run(ops).edges[k]) == k;
    }
  }

  /** After a run `incoming` answers exactly the node edges that point at `iri` if and only if no
      literal covers a node of that IRI. */
  lemma RunIncomingExactIff(ops: seq<Op>, iri: Bytes)
    ensures IncomingExact(Run(ops), iri) <==> forall k: TripleKey :: k.obj == iri ==> !LiteralCovers(ops, k)
  {
    forall k
      ensures (k in IncomingKeys(Run(ops), iri) <==> k in Run(ops).edges && PointsAt(Run(ops).edges[k], iri))
        <==> (k.obj == iri ==> !LiteralCovers(ops, k))
    {
      RunAnswers(ops, iri, k);
      RunHoldsLastWrites(ops, k);
    }
  }

  /** No literal covers a node when no node object IRI starts with "literal::". */
  lemma NodeIrisAreNotCovered(ops: seq<Op>, k: TripleKey)
    requires NodeIrisAreNotLiterals(ops)
    ensures !LiteralCovers(ops, k)
  {
    RunIsIndexExact(ops);
    RunListsLastNodes(ops, k);
    RunHoldsLastWrites(ops, k);
  }

  /** Without that condition `incoming` can report a literal edge: store the node
      "literal::x" and then the literal "x" under the same subject and predicate. */
  lemma IncomingReportsALiteral()
    ensures exists ops: seq<Op>, iri: Bytes, k ::
      k in IncomingKeys(Run(ops), iri) && Run(ops).edges[k].obj.Literal?
  {
    var s := GraphNode([97], [97]);
    var node := GraphEdge(s, s, Node(GraphNode(LITERAL_PREFIX + [120], [])));
    var lit := GraphEdge(s, s, Literal([120], None));
    var ops := [Ins(node), Ins(lit)];
    assert ops[..1] == [Ins(node)] && ops[..1][..0] == [];
    assert Run(ops[..1]) == Insert(EMPTY, node);
    assert Run(ops) == Insert(Insert(EMPTY, node), lit);
    assert KeyOf(lit) in IncomingKeys(Run(ops), LITERAL_PREFIX + [120]);
  }

  // ----- Runs read off the triples

  /** The last operation on the triple of `e`, if it was an insert. */
  function LastOn(ops: seq<Op>, e: GraphEdge): Option<GraphEdge> {
    if ops == [] then None
    else
      var op := ops[|ops| - 1];
      if !SameTriple(op.edge, e) then LastOn(ops[..|ops| - 1], e)
      else if op.Ins? then Some(op.edge) else None
  }

  /** The last operation with a node object on the triple of `e` is an insert. */
  predicate NodeInserted(ops: seq<Op>, e: GraphEdge) {
    if ops == [] then false
    else
      var op := ops[|ops| - 1];
      if SameTriple(op.edge, e) && op.edge.obj.Node? then op.Ins? else NodeInserted(ops[..|ops| - 1], e)
  }

  /** `e` is a literal that was stored over the node `iri`, which was never deleted as a node. */
  predicate CoversNode(ops: seq<Op>, e: GraphEdge, iri: Bytes) {
    e.obj.Literal? && IsLiteralIri(iri, e.obj.value) && NodeInserted(ops, e)
  }

  lemma {:induction false} LastOnIsLastWrite(ops: seq<Op>, e: GraphEdge)
    ensures LastOn(ops, e) == LastWrite(ops, KeyOf(e))
    ensures NodeInserted(ops, e) <==> NodeListed(ops, KeyOf(e))
  {
    if ops != [] {
      LastOnIsLastWrite(ops[..|ops| - 1], e);
      SameKeyIff(ops[|ops| - 1].edge, e);
    }
  }

  lemma CoversIff(ops: seq<Op>, e: GraphEdge, iri: Bytes)
    requires LastOn(ops, e) == Some(e)
    ensures CoversNode(ops, e, iri) <==> LiteralCovers(ops, KeyOf(e)) && KeyOf(e).obj == iri
  {
    LastOnIsLastWrite(ops, e);
    if e.obj.Literal? {
      LiteralIri(iri, e.obj.value);
    }
  }
}
