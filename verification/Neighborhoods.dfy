/** Breadth-first neighbourhoods of the graph modality.

Both stores run the same search over their own `outgoing` and `incoming`; this module holds
what the search computes (`Ball`), why that is graph distance, and the two inner loops. */
module Neighborhoods {
  import opened Wrappers
  import opened ByteStrings
  import opened GraphModel

  /** The IRIs one hop away, as the two index lookups report them. */
  ghost predicate Adjacent(st: GraphState, x: Bytes, y: Bytes) {
    || (exists k :: k in OutgoingKeys(st, x) && PointsAt(st.edges[k], y))
    || (exists k :: k in IncomingKeys(st, x) && st.edges[k].subject.iri == y)
  }

  /** One stored node edge joins `x` and `y`, in either direction. */
  ghost predicate Linked(st: GraphState, x: Bytes, y: Bytes) {
    exists k :: k in st.edges && st.edges[k].obj.Node?
      && ((st.edges[k].subject.iri == x && st.edges[k].obj.node.iri == y)
          || (st.edges[k].subject.iri == y && st.edges[k].obj.node.iri == x))
  }

  /** The object index lists `k`, but a literal is stored there. */
  ghost predicate Phantom(st: GraphState, k: TripleKey) {
    k in st.edges && k in st.nodeKeys && st.edges[k].obj.Literal?
  }

  /** Following a phantom leads nowhere that a node edge would not lead, in at most one hop. */
  ghost predicate PhantomsAreHarmless(st: GraphState) {
    forall k :: Phantom(st, k) ==> k.obj == k.subject || Linked(st, k.obj, k.subject)
  }

  lemma LinkedIsAdjacent(st: GraphState, x: Bytes, y: Bytes)
    requires Sound(st) && Linked(st, x, y)
    ensures Adjacent(st, x, y)
  {
    var k :| k in st.edges && st.edges[k].obj.Node?
      && ((st.edges[k].subject.iri == x && st.edges[k].obj.node.iri == y)
          || (st.edges[k].subject.iri == y && st.edges[k].obj.node.iri == x));
    assert KeyOf(st.edges[k]) == k;
    assert k in OutgoingKeys(st, x) || k in IncomingKeys(st, x);
  }

  /** What the lookups of `x` lead to are its linked nodes and the subjects of its phantoms. */
  lemma AdjacentIsLinkedOrPhantom(st: GraphState, x: Bytes, y: Bytes)
    requires Sound(st)
    ensures Adjacent(st, x, y) <==> Linked(st, x, y) || exists k :: Phantom(st, k) && k.obj == x && k.subject == y
  {
    if Linked(st, x, y) {
      LinkedIsAdjacent(st, x, y);
    }
    if k :| k in OutgoingKeys(st, x) && PointsAt(st.edges[k], y) {
      assert Linked(st, x, y);
    }
    if k :| k in IncomingKeys(st, x) && st.edges[k].subject.iri == y {
      assert KeyOf(st.edges[k]) == k;
      assert Phantom(st, k) || Linked(st, x, y);
    }
    if k :| Phantom(st, k) && k.obj == x && k.subject == y {
      assert KeyOf(st.edges[k]) == k && k in IncomingKeys(st, x);
    }
  }

  lemma AdjacentIsLinked(st: GraphState, x: Bytes, y: Bytes)
    requires Sound(st) && IndexExact(st)
    ensures Adjacent(st, x, y) <==> Linked(st, x, y)
  {
    AdjacentIsLinkedOrPhantom(st, x, y);
  }

  // ----- Distance by paths

  ghost predicate IsWalk(st: GraphState, walk: seq<Bytes>) {
    forall i :: 0 <= i < |walk| - 1 ==> Linked(st, walk[i], walk[i + 1])
  }

  /** Some walk of at most `h` undirected node edges leads from `x` to `y`. */
  ghost predicate WithinHops(st: GraphState, x: Bytes, y: Bytes, h: nat) {
    exists walk: seq<Bytes> ::
      1 <= |walk| <= h + 1 && walk[0] == x && walk[|walk| - 1] == y && IsWalk(st, walk)
  }

  lemma WalkExtends(st: GraphState, x: Bytes, w: Bytes, y: Bytes, h: nat)
    requires WithinHops(st, x, w, h) && Linked(st, w, y)
    ensures WithinHops(st, x, y, h + 1)
  {
    var walk :| 1 <= |walk| <= h + 1 && walk[0] == x && walk[|walk| - 1] == w && IsWalk(st, walk);
    var longer := walk + [y];
    forall i | 0 <= i < |longer| - 1 ensures Linked(st, longer[i], longer[i + 1]) {
      if i < |walk| - 1 {
        assert Linked(st, walk[i], walk[i + 1]);
      }
    }
    assert longer[0] == x && longer[|longer| - 1] == y && IsWalk(st, longer);
  }

  // ----- What the rounds of the search hold

  /** All IRIs a state can mention as a neighbour. */
  ghost function Mentioned(st: GraphState): set<Bytes> {
    (set k | k in st.edges :: st.edges[k].subject.iri)
    + (set k | k in st.edges && st.edges[k].obj.Node? :: st.edges[k].obj.node.iri)
  }

  ghost function Neighbours(st: GraphState, x: Bytes): set<Bytes> {
    set y | y in Mentioned(st) && Adjacent(st, x, y)
  }

  lemma NeighboursAreAdjacent(st: GraphState, x: Bytes, y: Bytes)
    ensures y in Neighbours(st, x) <==> Adjacent(st, x, y)
  {
  }

  /** The visited set after `h` rounds. */
  ghost function Ball(st: GraphState, x: Bytes, h: nat): set<Bytes> {
    if h == 0 then {x}
    else Ball(st, x, h - 1) + set w, y | w in Ball(st, x, h - 1) && y in Neighbours(st, w) :: y
  }

  /** The IRIs first reached in round `h`. */
  ghost function Sphere(st: GraphState, x: Bytes, h: nat): set<Bytes> {
    if h == 0 then {x} else Ball(st, x, h) - Ball(st, x, h - 1)
  }

  lemma SphereOfBall(st: GraphState, x: Bytes, h: nat)
    ensures Ball(st, x, 0) == {x} == Sphere(st, x, 0)
    ensures Sphere(st, x, h) <= Ball(st, x, h)
    ensures Sphere(st, x, h + 1) == Ball(st, x, h + 1) - Ball(st, x, h)
  {
  }

  /** Only the frontier can discover anything: the rest of the ball was expanded before. */
  lemma BallGrowsFromSphere(st: GraphState, x: Bytes, h: nat)
    ensures Ball(st, x, h + 1) == Ball(st, x, h) + set w, y | w in Sphere(st, x, h) && y in Neighbours(st, w) :: y
  {
    var grown := Ball(st, x, h) + set w, y | w in Sphere(st, x, h) && y in Neighbours(st, w) :: y;
    forall y | y in Ball(st, x, h + 1) ensures y in grown {
      if y !in Ball(st, x, h) {
        var w :| w in Ball(st, x, h) && y in Neighbours(st, w);
        assert w in Sphere(st, x, h);
      }
    }
  }

  /** The ball is graph distance: exactly the IRIs some walk of at most `h` edges reaches. */
  lemma BallIsWithinHops(st: GraphState, x: Bytes, y: Bytes, h: nat)
    requires Sound(st) && PhantomsAreHarmless(st)
    ensures y in Ball(st, x, h) <==> WithinHops(st, x, y, h)
  {
    if y in Ball(st, x, h) {
      BallIsReached(st, x, y, h);
    }
    if WithinHops(st, x, y, h) {
      var walk :| 1 <= |walk| <= h + 1 && walk[0] == x && walk[|walk| - 1] == y && IsWalk(st, walk);
      WalkStaysInBall(st, x, walk, h);
    }
  }

  /** Every ball is graph distance if and only if phantoms are harmless. */
  lemma BallsAreDistanceIff(st: GraphState)
    requires Sound(st)
    ensures (forall x, y, h: nat :: y in Ball(st, x, h) <==> WithinHops(st, x, y, h)) <==> PhantomsAreHarmless(st)
  {
    if PhantomsAreHarmless(st) {
      forall x, y, h: nat ensures y in Ball(st, x, h) <==> WithinHops(st, x, y, h) {
        BallIsWithinHops(st, x, y, h);
      }
    }
    if forall x, y, h: nat :: y in Ball(st, x, h) <==> WithinHops(st, x, y, h) {
      forall k | Phantom(st, k) ensures k.obj == k.subject || Linked(st, k.obj, k.subject) {
        AdjacentIsLinkedOrPhantom(st, k.obj, k.subject);
        NeighboursAreAdjacent(st, k.obj, k.subject);
        assert k.subject in Ball(st, k.obj, 1) by {
          assert k.obj in Ball(st, k.obj, 0);
        }
        OneHopIsLinked(st, k.obj, k.subject);
      }
    }
  }

  lemma OneHopIsLinked(st: GraphState, x: Bytes, y: Bytes)
    requires WithinHops(st, x, y, 1)
    ensures x == y || Linked(st, x, y)
  {
    var walk :| 1 <= |walk| <= 2 && walk[0] == x && walk[|walk| - 1] == y && IsWalk(st, walk);
    assert |walk| == 2 ==> Linked(st, walk[0], walk[0 + 1]);
  }

  /** After the run of a node literal::x and a literal x under one key, the ball of radius one around
      that node is not graph distance. */
  lemma PhantomBreaksDistance()
    ensures exists ops: seq<Op>, x, y :: y in Ball(Run(ops), x, 1) && !WithinHops(Run(ops), x, y, 1)
  {
    var s := GraphNode([97], [97]);
    var node := GraphEdge(s, s, Node(GraphNode(LITERAL_PREFIX + [120], [])));
    var lit := GraphEdge(s, s, Literal([120], None));
    var ops := [Ins(node), Ins(lit)];
    assert ops[..1] == [Ins(node)] && ops[..1][..0] == [];
    assert Run(ops[..1]) == Insert(EMPTY, node);
    var st, k := Run(ops), KeyOf(lit);
    assert st == Insert(Insert(EMPTY, node), lit) && KeyOf(node) == k;
    assert Phantom(st, k);
    PhantomIsFollowed(st, k);
    assert forall a, b :: !Linked(st, a, b);
    assert k.obj[0] != k.subject[0];
    if WithinHops(st, k.obj, k.subject, 1) {
      OneHopIsLinked(st, k.obj, k.subject);
    }
  }

  lemma PhantomIsFollowed(st: GraphState, k: TripleKey)
    requires Phantom(st, k) && KeyOf(st.edges[k]) == k
    ensures k.subject in Ball(st, k.obj, 1)
  {
    assert k in IncomingKeys(st, k.obj);
    NeighboursAreAdjacent(st, k.obj, k.subject);
    assert k.obj in Ball(st, k.obj, 0);
  }

  lemma ExactIndexHasNoPhantoms(st: GraphState)
    requires IndexExact(st)
    ensures PhantomsAreHarmless(st)
  {
  }

  /** A frontier holds exactly the IRIs at distance `h`: within `h` hops and no fewer. */
  lemma SphereIsExactDistance(st: GraphState, x: Bytes, y: Bytes, h: nat)
    requires Sound(st) && PhantomsAreHarmless(st)
    ensures y in Sphere(st, x, h) <==> WithinHops(st, x, y, h) && (h > 0 ==> !WithinHops(st, x, y, h - 1))
  {
    BallIsWithinHops(st, x, y, h);
    if h == 0 {
      assert Sphere(st, x, h) == Ball(st, x, h);
    } else {
      BallIsWithinHops(st, x, y, h - 1);
      assert Sphere(st, x, h) == Ball(st, x, h) - Ball(st, x, h - 1);
    }
  }

  lemma NeighbourIsLinked(st: GraphState, x: Bytes, y: Bytes)
    requires Sound(st) && PhantomsAreHarmless(st) && y in Neighbours(st, x)
    ensures Linked(st, x, y) || x == y
  {
    NeighboursAreAdjacent(st, x, y);
    AdjacentIsLinkedOrPhantom(st, x, y);
  }

  lemma {:induction false} BallIsReached(st: GraphState, x: Bytes, y: Bytes, h: nat)
    requires Sound(st) && PhantomsAreHarmless(st)
    requires y in Ball(st, x, h)
    ensures WithinHops(st, x, y, h)
    decreases h
  {
    hide Neighbours, Linked, PhantomsAreHarmless, Sound;
    if h == 0 {
      assert IsWalk(st, [x]);
    } else if y in Ball(st, x, h - 1) {
      BallIsReached(st, x, y, h - 1);
    } else {
      var w :| w in Ball(st, x, h - 1) && y in Neighbours(st, w);
      BallIsReached(st, x, w, h - 1);
      NeighbourIsLinked(st, w, y);
      if Linked(st, w, y) {
        WalkExtends(st, x, w, y, h - 1);
      }
    }
  }

  lemma {:induction false} WalkStaysInBall(st: GraphState, x: Bytes, walk: seq<Bytes>, h: nat)
    requires Sound(st)
    requires 1 <= |walk| <= h + 1 && walk[0] == x && IsWalk(st, walk)
    ensures walk[|walk| - 1] in Ball(st, x, h)
  {
    if |walk| == 1 {
      StartInBall(st, x, h);
    } else {
      var init, y := walk[..|walk| - 1], walk[|walk| - 1];
      WalkStaysInBall(st, x, init, h - 1);
      assert Linked(st, walk[|walk| - 2], walk[|walk| - 2 + 1]);
      LinkedIsAdjacent(st, init[|init| - 1], y);
      NeighboursAreAdjacent(st, init[|init| - 1], y);
    }
  }

  lemma {:induction false} StartInBall(st: GraphState, x: Bytes, h: nat)
    ensures x in Ball(st, x, h)
  {
    if h > 0 {
      StartInBall(st, x, h - 1);
    }
  }

  // ----- The inner loops of the search

  ghost predicate Distinct(s: seq<Bytes>) {
    forall i, j :: 0 <= i < j < |s| ==> s[i] != s[j]
  }

  /** The node objects an edge list leads to. */
  ghost function Targets(edges: seq<GraphEdge>): set<Bytes> {
    set i | 0 <= i < |edges| && edges[i].obj.Node? :: edges[i].obj.node.iri
  }

  ghost function Sources(edges: seq<GraphEdge>): set<Bytes> {
    set i | 0 <= i < |edges| :: edges[i].subject.iri
  }

  /** Mark the ends of one node's edges as visited and queue the new ones. */
  method Expand(outgoing: seq<GraphEdge>, incoming: seq<GraphEdge>, visited0: set<Bytes>, next0: seq<Bytes>)
    returns (visited: set<Bytes>, next: seq<Bytes>)
    requires Distinct(next0) && forall y :: y in next0 ==> y in visited0
    ensures visited == visited0 + Targets(outgoing) + Sources(incoming)
    ensures Distinct(next) && next0 <= next
    ensures forall y :: y in next <==> y in next0 || (y in visited && y !in visited0)
  {
    visited, next := visited0, next0;
    for i := 0 to |outgoing|
      invariant visited == visited0 + Targets(outgoing[..i])
      invariant Distinct(next) && next0 <= next
      invariant forall y :: y in next <==> y in next0 || (y in visited && y !in visited0)
    {
      assert outgoing[..i + 1] == outgoing[..i] + [outgoing[i]];
      match outgoing[i].obj {
        case Node(n) =>
          assert Targets(outgoing[..i + 1]) == Targets(outgoing[..i]) + {n.iri} by {
            assert outgoing[..i + 1][i].obj.node.iri == n.iri;
            forall y | y in Targets(outgoing[..i]) ensures y in Targets(outgoing[..i + 1]) {
              var j :| 0 <= j < i && outgoing[..i][j].obj.Node? && outgoing[..i][j].obj.node.iri == y;
              assert outgoing[..i + 1][j].obj.node.iri == y;
            }
          }
          if n.iri !in visited {
            visited, next := visited + {n.iri}, next + [n.iri];
          }
        case Literal(_, _) =>
          assert Targets(outgoing[..i + 1]) == Targets(outgoing[..i]) by {
            forall y | y in Targets(outgoing[..i]) ensures y in Targets(outgoing[..i + 1]) {
              var j :| 0 <= j < i && outgoing[..i][j].obj.Node? && outgoing[..i][j].obj.node.iri == y;
              assert outgoing[..i + 1][j].obj.node.iri == y;
            }
          }
      }
    }
    assert outgoing[..|outgoing|] == outgoing;
    for i := 0 to |incoming|
      invariant visited == visited0 + Targets(outgoing) + Sources(incoming[..i])
      invariant Distinct(next) && next0 <= next
      invariant forall y :: y in next <==> y in next0 || (y in visited && y !in visited0)
    {
      var s := incoming[i].subject.iri;
      assert Sources(incoming[..i + 1]) == Sources(incoming[..i]) + {s} by {
        assert incoming[..i + 1][i].subject.iri == s;
        forall y | y in Sources(incoming[..i]) ensures y in Sources(incoming[..i + 1]) {
          var j :| 0 <= j < i && incoming[..i][j].subject.iri == y;
          assert incoming[..i + 1][j].subject.iri == y;
        }
      }
      if s !in visited {
        visited, next := visited + {s}, next + [s];
      }
    }
    assert incoming[..|incoming|] == incoming;
  }

  /** What expanding the nodes of `xs` reaches. */
  ghost function Reached(st: GraphState, xs: seq<Bytes>): set<Bytes> {
    set w, y | w in xs && y in Neighbours(st, w) :: y
  }

  lemma ReachedNothing(st: GraphState)
    ensures Reached(st, []) == {}
  {
  }

  lemma ReachedExtends(st: GraphState, xs: seq<Bytes>, j: nat)
    requires j < |xs|
    ensures Reached(st, xs[..j + 1]) == Reached(st, xs[..j]) + Neighbours(st, xs[j])
  {
    assert xs[..j + 1] == xs[..j] + [xs[j]];
  }

  lemma RoundGrowsBall(st: GraphState, x: Bytes, h: nat, frontier: seq<Bytes>)
    requires forall y :: y in frontier <==> y in Sphere(st, x, h)
    ensures Ball(st, x, h) + Reached(st, frontier) == Ball(st, x, h + 1)
  {
    BallGrowsFromSphere(st, x, h);
    assert Reached(st, frontier) == set w, y | w in Sphere(st, x, h) && y in Neighbours(st, w) :: y;
  }

  /** The two lookups of `x` lead to exactly its neighbours. */
  lemma LookupsFindNeighbours(st: GraphState, x: Bytes, outgoing: seq<GraphEdge>, incoming: seq<GraphEdge>)
    requires Lists(st, outgoing, OutgoingKeys(st, x)) && Lists(st, incoming, IncomingKeys(st, x))
    ensures Targets(outgoing) + Sources(incoming) == Neighbours(st, x)
  {
    forall y | y in Neighbours(st, x) ensures y in Targets(outgoing) + Sources(incoming) {
      if exists k :: k in OutgoingKeys(st, x) && PointsAt(st.edges[k], y) {
        var k :| k in OutgoingKeys(st, x) && PointsAt(st.edges[k], y);
        var i :| 0 <= i < |outgoing| && outgoing[i] == st.edges[k];
      } else {
        var k :| k in IncomingKeys(st, x) && st.edges[k].subject.iri == y;
        var i :| 0 <= i < |incoming| && incoming[i] == st.edges[k];
      }
    }
    forall y | y in Targets(outgoing) + Sources(incoming) ensures y in Neighbours(st, x) {
      if y in Targets(outgoing) {
        var i :| 0 <= i < |outgoing| && outgoing[i].obj.Node? && outgoing[i].obj.node.iri == y;
        assert PointsAt(st.edges[KeyOf(outgoing[i])], y);
      } else {
        var i :| 0 <= i < |incoming| && incoming[i].subject.iri == y;
        assert st.edges[KeyOf(incoming[i])].subject.iri == y;
      }
      NeighboursAreAdjacent(st, x, y);
    }
  }
}
