/** The two graph stores side by side: whatever operations both go through, they give the same
answers, and these answers can be read off the list of operations. */
module StoreAgreement {
  import opened Wrappers
  import opened ByteStrings
  import opened GraphModel
  import opened Neighborhoods
  import RedbGraphStore
  import SimpleGraphStore

  predicate AllValid(ops: seq<Op>) {
    forall i :: 0 <= i < |ops| ==> RedbGraphStore.ValidIris(ops[i].edge)
  }

  /** `edge` is what the last operation on its triple stored. */
  predicate Stored(ops: seq<Op>, edge: GraphEdge) {
    LastOn(ops, edge) == Some(edge)
  }

  /** A listing of the edges with subject `iri` holds exactly those the operations left stored. */
  lemma OutgoingListsStored(ops: seq<Op>, iri: Bytes, edges: seq<GraphEdge>)
    requires Lists(Run(ops), edges, OutgoingKeys(Run(ops), iri))
    ensures forall e :: e in edges <==> Stored(ops, e) && e.subject.iri == iri
  {
    RunIsSound(ops);
    forall e ensures e in edges <==> Stored(ops, e) && e.subject.iri == iri {
      RunHoldsLastWrites(ops, KeyOf(e));
      LastOnIsLastWrite(ops, e);
    }
  }

  /** A listing by object holds exactly the stored edges that point at `iri`, and the literals that
      cover a node of that IRI. */
  lemma IncomingListsStored(ops: seq<Op>, iri: Bytes, edges: seq<GraphEdge>)
    requires Lists(Run(ops), edges, IncomingKeys(Run(ops), iri))
    ensures forall e :: e in edges <==> Stored(ops, e) && (PointsAt(e, iri) || CoversNode(ops, e, iri))
  {
    forall e ensures e in edges <==> Stored(ops, e) && (PointsAt(e, iri) || CoversNode(ops, e, iri)) {
      RunHoldsLastWrites(ops, KeyOf(e));
      RunAnswers(ops, iri, KeyOf(e));
      LastOnIsLastWrite(ops, e);
      if Stored(ops, e) {
        CoversIff(ops, e, iri);
      }
    }
  }

  /** What either store answers about `iri` and `probe`. */
  datatype Answers = Answers(
    found: bool, outgoing: seq<GraphEdge>, incoming: seq<GraphEdge>, neighborhood: set<Bytes>)

  method AskRedb(ops: seq<Op>, probe: GraphEdge, iri: Bytes, hops: nat) returns (a: Answers)
    requires AllValid(ops) && RedbGraphStore.ValidIris(probe) && RedbGraphStore.NulFree(iri)
    ensures a.found <==> KeyOf(probe) in Run(ops).edges
    ensures Lists(Run(ops), a.outgoing, OutgoingKeys(Run(ops), iri))
    ensures Lists(Run(ops), a.incoming, IncomingKeys(Run(ops), iri))
    ensures a.neighborhood == Ball(Run(ops), iri, hops)
  {
    var store := new RedbGraphStore.Store();
    for i := 0 to |ops|
      invariant fresh(store) && store.Valid() && store.st == Run(ops[..i])
    {
      assert ops[..i + 1][..i] == ops[..i];
      match ops[i] {
        case Ins(e) => store.Insert(e);
        case Del(e) => store.Delete(e);
      }
    }
    assert ops[..|ops|] == ops;
    var has := store.Exists(probe);
    var outgoing := store.Outgoing(iri);
    var incoming := store.Incoming(iri);
    var near := store.Neighborhood(iri, hops);
    a := Answers(has, outgoing, incoming, near);
  }

  method AskSimple(ops: seq<Op>, probe: GraphEdge, iri: Bytes, hops: nat) returns (a: Answers)
    ensures a.found <==> KeyOf(probe) in Run(ops).edges
    ensures Lists(Run(ops), a.outgoing, OutgoingKeys(Run(ops), iri))
    ensures Lists(Run(ops), a.incoming, IncomingKeys(Run(ops), iri))
    ensures a.neighborhood == Ball(Run(ops), iri, hops)
  {
    var store := new SimpleGraphStore.Store();
    for i := 0 to |ops|
      invariant fresh(store) && store.Valid() && store.st == Run(ops[..i])
    {
      assert ops[..i + 1][..i] == ops[..i];
      match ops[i] {
        case Ins(e) => store.Insert(e);
        case Del(e) => store.Delete(e);
      }
    }
    assert ops[..|ops|] == ops;
    var has := store.Exists(probe);
    var outgoing := store.Outgoing(iri);
    var incoming := store.Incoming(iri);
    var near := store.Neighborhood(iri, hops);
    a := Answers(has, outgoing, incoming, near);
  }

  /** The same edges, the same number of times, and the same neighbourhood. */
  ghost predicate SameAnswers(a: Answers, b: Answers) {
    && a.found == b.found && a.neighborhood == b.neighborhood
    && |a.outgoing| == |b.outgoing| && (forall e :: e in a.outgoing <==> e in b.outgoing)
    && |a.incoming| == |b.incoming| && (forall e :: e in a.incoming <==> e in b.incoming)
  }

  /** Both stores answer alike after any operations on NUL-free IRIs. `exists` and `outgoing` are
      what the last operation on each key says. So is `incoming` exactly if no literal covers a
      node of that IRI, and the neighbourhood is the set of IRIs within so many undirected hops
      if phantoms are harmless, as they are when no literal covers a node. */
  method StoresAgree(ops: seq<Op>, probe: GraphEdge, iri: Bytes, hops: nat) returns (redb: Answers, simple: Answers)
    requires AllValid(ops) && RedbGraphStore.ValidIris(probe) && RedbGraphStore.NulFree(iri)
    ensures SameAnswers(redb, simple)
    ensures redb.found <==> LastOn(ops, probe).Some?
    ensures forall e :: e in redb.outgoing <==> Stored(ops, e) && e.subject.iri == iri
    ensures (forall e :: e in redb.incoming <==> Stored(ops, e) && PointsAt(e, iri))
      <==> forall e :: Stored(ops, e) ==> !CoversNode(ops, e, iri)
    ensures PhantomsAreHarmless(Run(ops)) ==> forall y :: y in redb.neighborhood <==> WithinHops(Run(ops), iri, y, hops)
    ensures (forall e, x :: Stored(ops, e) ==> !CoversNode(ops, e, x)) ==> PhantomsAreHarmless(Run(ops))
  {
    redb := AskRedb(ops, probe, iri, hops);
    simple := AskSimple(ops, probe, iri, hops);
    RunIsSound(ops);
    RunHoldsLastWrites(ops, KeyOf(probe));
    LastOnIsLastWrite(ops, probe);
    ListingsAgree(Run(ops), redb.outgoing, simple.outgoing, OutgoingKeys(Run(ops), iri));
    ListingsAgree(Run(ops), redb.incoming, simple.incoming, IncomingKeys(Run(ops), iri));
    OutgoingListsStored(ops, iri, redb.outgoing);
    IncomingIsStoredIff(ops, iri, redb.incoming);
    if PhantomsAreHarmless(Run(ops)) {
      forall y ensures y in redb.neighborhood <==> WithinHops(Run(ops), iri, y, hops) {
        BallIsWithinHops(Run(ops), iri, y, hops);
      }
    }
    UncoveredHasNoPhantoms(ops);
  }

  lemma IncomingIsStoredIff(ops: seq<Op>, iri: Bytes, edges: seq<GraphEdge>)
    requires Lists(Run(ops), edges, IncomingKeys(Run(ops), iri))
    ensures (forall e :: e in edges <==> Stored(ops, e) && PointsAt(e, iri))
      <==> forall e :: Stored(ops, e) ==> !CoversNode(ops, e, iri)
  {
    IncomingListsStored(ops, iri, edges);
  }

  lemma UncoveredHasNoPhantoms(ops: seq<Op>)
    ensures (forall e, x :: Stored(ops, e) ==> !CoversNode(ops, e, x)) ==> PhantomsAreHarmless(Run(ops))
  {
    RunIsSound(ops);
    forall k | Phantom(Run(ops), k)
      ensures var e := Run(ops).edges[k]; Stored(ops, e) && CoversNode(ops, e, k.obj)
    {
      var e := Run(ops).edges[k];
      RunListsLastNodes(ops, k);
      RunHoldsLastWrites(ops, k);
      LastOnIsLastWrite(ops, e);
      CoversIff(ops, e, k.obj);
    }
  }
}
