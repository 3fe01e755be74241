/** The in-memory graph store: an edge map and two hash indexes from an IRI to triple keys. */
module SimpleGraphStore {
  import opened ByteStrings
  import opened GraphModel
  import opened Neighborhoods

  type Index = map<Bytes, set<TripleKey>>

  function Lookup(index: Index, iri: Bytes): set<TripleKey> {
    if iri in index then index[iri] else {}
  }

  function File(index: Index, iri: Bytes, k: TripleKey): (r: Index)
    ensures forall j :: Lookup(r, j) == if j == iri then Lookup(index, iri) + {k} else Lookup(index, j)
  {
    index[iri := Lookup(index, iri) + {k}]
  }

  /** Take `k` out, and drop the IRI once nothing is filed under it. */
  function Unfile(index: Index, iri: Bytes, k: TripleKey): (r: Index)
    ensures forall j :: Lookup(r, j) == if j == iri then Lookup(index, iri) - {k} else Lookup(index, j)
    ensures NoEmptyEntry(index) ==> NoEmptyEntry(r)
  {
    if iri !in index then index
    else if index[iri] - {k} == {} then index - {iri}
    else index[iri := index[iri] - {k}]
  }

  predicate NoEmptyEntry(index: Index) {
    forall iri :: iri in index ==> index[iri] != {}
  }

  /** The keys the object index lists under `iri`, whether or not their edge is still stored. */
  ghost function Listed(st: GraphState, iri: Bytes): set<TripleKey> {
    set k | k in st.nodeKeys && k.obj == iri
  }

  lemma InsertLists(st: GraphState, edge: GraphEdge)
    ensures
      var st', key := GraphModel.Insert(st, edge), KeyOf(edge);
      && (forall iri :: OutgoingKeys(st', iri) ==
            if iri == edge.subject.iri then OutgoingKeys(st, iri) + {key} else OutgoingKeys(st, iri))
      && (forall iri :: Listed(st', iri) ==
            if edge.obj.Node? && iri == edge.obj.node.iri then Listed(st, iri) + {key} else Listed(st, iri))
  {
  }

  lemma FilingLeavesNoneEmpty(index: Index, iri: Bytes, k: TripleKey)
    requires NoEmptyEntry(index)
    ensures NoEmptyEntry(File(index, iri, k))
  {
  }

  class Store {
    var edges: map<TripleKey, GraphEdge>
    var subjectIdx: Index
    var objectIdx: Index
    ghost var st: GraphState

    /** The fields hold an abstract state: `st.edges` in full, its keys under their subject, and
        the keys of the object index under their object. No index entry is left empty. */
    ghost predicate Valid()
      reads this
    {
      && Sound(st) && edges == st.edges
      && NoEmptyEntry(subjectIdx) && NoEmptyEntry(objectIdx)
      && (forall iri :: Lookup(subjectIdx, iri) == OutgoingKeys(st, iri))
      && (forall iri :: Lookup(objectIdx, iri) == Listed(st, iri))
    }

    constructor ()
      ensures Valid() && st == EMPTY
    {
      edges, subjectIdx, objectIdx := map[], map[], map[];
      st := EMPTY;
    }

    method Insert(edge: GraphEdge)
      requires Valid()
      modifies this
      ensures Valid() && st == GraphModel.Insert(old(st), edge)
    {
      hide Sound, OutgoingKeys, Listed, Lookup, File;
      InsertKeepsSound(st, edge);
      InsertLists(st, edge);
      FilingLeavesNoneEmpty(subjectIdx, edge.subject.iri, KeyOf(edge));
      FilingLeavesNoneEmpty(objectIdx, ObjectKey(edge.obj), KeyOf(edge));
      var key := KeyOf(edge);
      subjectIdx := File(subjectIdx, edge.subject.iri, key);
      if edge.obj.Node? {
        objectIdx := File(objectIdx, edge.obj.node.iri, key);
      }
      edges := edges[key := edge];
      st := GraphModel.Insert(st, edge);
    }

    method Delete(edge: GraphEdge)
      requires Valid()
      modifies this
      ensures Valid() && st == GraphModel.Delete(old(st), edge)
    {
      var key := KeyOf(edge);
      subjectIdx := Unfile(subjectIdx, edge.subject.iri, key);
      if edge.obj.Node? {
        objectIdx := Unfile(objectIdx, edge.obj.node.iri, key);
      }
      edges := edges - {key};
      st := GraphModel.Delete(st, edge);
    }

    method Exists(edge: GraphEdge) returns (found: bool)
      requires Valid()
      ensures found <==> KeyOf(edge) in st.edges
    {
      found := KeyOf(edge) in edges;
    }

    /** Collect the stored edges of some keys, in whatever order the hash set yields them. */
    method Collect(keys: set<TripleKey>) returns (result: seq<GraphEdge>)
      requires Valid()
      ensures Lists(st, result, set k | k in keys && k in st.edges)
    {
      result := [];
      var rest := keys;
      while rest != {}
        invariant rest <= keys
        invariant Lists(st, result, set k | k in keys - rest && k in st.edges)
        decreases rest
      {
        var k :| k in rest;
        rest := rest - {k};
        if k in edges {
          result := result + [edges[k]];
        }
        assert (set j | j in keys - rest && j in st.edges)
            <= (set j | j in keys - (rest + {k}) && j in st.edges) + {k};
      }
      assert keys - rest == keys;
    }

    method Outgoing(iri: Bytes) returns (result: seq<GraphEdge>)
      requires Valid()
      ensures Lists(st, result, OutgoingKeys(st, iri))
    {
      result := Collect(Lookup(subjectIdx, iri));
      assert OutgoingKeys(st, iri) == set k | k in Lookup(subjectIdx, iri) && k in st.edges;
    }

    method Incoming(iri: Bytes) returns (result: seq<GraphEdge>)
      requires Valid()
      ensures Lists(st, result, IncomingKeys(st, iri))
    {
      result := Collect(Lookup(objectIdx, iri));
      assert IncomingKeys(st, iri) == set k | k in Lookup(objectIdx, iri) && k in st.edges;
    }

    /** Breadth-first search: after round `i` the frontier is exactly the IRIs at distance `i`. */
    method Neighborhood(iri: Bytes, hops: nat) returns (visited: set<Bytes>)
      requires Valid()
      ensures visited == Ball(st, iri, hops)
    {
      hide Ball, Sphere, Reached, Neighbours;
      SphereOfBall(st, iri, 0);
      ReachedNothing(st);
      visited := {iri};
      var frontier := [iri];
      for i := 0 to hops
        invariant visited == Ball(st, iri, i)
        invariant Distinct(frontier) && forall y :: y in frontier <==> y in Sphere(st, iri, i)
      {
        SphereOfBall(st, iri, i);
        var next := [];
        assert frontier[..0] == [];
        for j := 0 to |frontier|
          invariant visited == Ball(st, iri, i) + Reached(st, frontier[..j])
          invariant Distinct(next) && forall y :: y in next <==> y in visited && y !in Ball(st, iri, i)
        {
          var outgoing := Outgoing(frontier[j]);
          var incoming := Incoming(frontier[j]);
          LookupsFindNeighbours(st, frontier[j], outgoing, incoming);
          ReachedExtends(st, frontier, j);
          visited, next := Expand(outgoing, incoming, visited, next);
        }
        assert frontier[..|frontier|] == frontier;
        RoundGrowsBall(st, iri, i, frontier);
        frontier := next;
      }
    }
  }
}
