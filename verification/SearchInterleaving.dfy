/** The neighbourhood search of the in-memory store while other calls insert edges.

A search calls `outgoing` and `incoming` for each node it reaches, once, and every such call is a
query of its own in the interleaving. `Replies` collects what the calls for each node answered. */
module SearchInterleaving {
  import opened ByteStrings
  import opened GraphModel
  import opened Neighborhoods
  import Locks = SimpleStoreInterleaving

  type Actions = seq<Locks.Action>

  type Answer = map<TripleKey, GraphEdge>

  datatype Read = Read(outgoing: Answer, incoming: Answer)

  type Replies = map<Bytes, Read>

  /** The graph stored after the first `n` actions. */
  ghost function GraphAt(actions: Actions, n: nat): GraphState
    requires n <= |actions|
  {
    var edges := Locks.Run(actions[..n]).edges;
    GraphState(edges, set k | k in edges && edges[k].obj.Node?)
  }

  /** Action `n - 1` answers the query `call` with `answer`. */
  ghost predicate AnsweredAt(actions: Actions, n: nat, call: Locks.Call, answer: Answer)
    requires n <= |actions|
  {
    exists tid ::
      && Locks.AnswersNow(actions[..n], tid)
      && Locks.Run(actions[..n]).threads[tid] == Locks.Thread(call, Locks.Done(answer))
  }

  /** Both calls for `w` are answered after the first `lo` actions and within the first `hi`. */
  ghost predicate ReadDuring(actions: Actions, lo: nat, hi: nat, w: Bytes, r: Read) {
    && hi <= |actions|
    && (exists n: nat :: lo <= n <= hi && AnsweredAt(actions, n, Locks.Outgoing(w), r.outgoing))
    && (exists n: nat :: lo <= n <= hi && AnsweredAt(actions, n, Locks.Incoming(w), r.incoming))
  }

  /** The nodes that the answers for one node lead to. */
  ghost function Ends(r: Read): set<Bytes> {
    (set k | k in r.outgoing && r.outgoing[k].obj.Node? :: r.outgoing[k].obj.node.iri)
    + (set k | k in r.incoming :: r.incoming[k].subject.iri)
  }

  ghost function Found(replies: Replies, frontier: set<Bytes>): set<Bytes> {
    set w, y | w in frontier && w in replies && y in Ends(replies[w]) :: y
  }

  datatype Progress = Progress(visited: set<Bytes>, frontier: set<Bytes>)

  /** The search after `h` rounds. */
  ghost function Search(replies: Replies, x: Bytes, h: nat): Progress {
    if h == 0 then Progress({x}, {x})
    else
      var p := Search(replies, x, h - 1);
      var found := Found(replies, p.frontier);
      Progress(p.visited + found, found - p.visited)
  }

  /** In each of its rounds the search reads its whole frontier between `lo` and `hi`. */
  ghost predicate RunsDuring(actions: Actions, lo: nat, hi: nat, replies: Replies, x: Bytes, h: nat) {
    forall i: nat, w :: i < h && w in Search(replies, x, i).frontier ==>
      w in replies && ReadDuring(actions, lo, hi, w, replies[w])
  }

  // ----- Links only grow

  lemma PrefixInsertsOnly(actions: Actions, n: nat)
    requires Locks.InsertOnly(actions) && Locks.NodeIrisAreNotLiterals(actions) && n <= |actions|
    ensures Locks.InsertOnly(actions[..n]) && Locks.NodeIrisAreNotLiterals(actions[..n])
  {
  }

  /** Each stored edge is a node edge or a literal according to its key. */
  lemma KeysTell(actions: Actions)
    requires Locks.InsertOnly(actions) && Locks.NodeIrisAreNotLiterals(actions)
    ensures forall k :: k in Locks.Run(actions).edges ==>
      var e := Locks.Run(actions).edges[k];
      KeyOf(e) == k && (e.obj.Node? <==> !StartsLikeLiteral(k.obj))
  {
    Locks.InsertRunsAreIndexed(actions);
    Locks.RunsAreIndexed(actions);
    Locks.IndexedKeysAreNotLiterals(actions);
    var s := Locks.Run(actions);
    forall k | k in s.edges
      ensures KeyOf(s.edges[k]) == k && (s.edges[k].obj.Node? <==> !StartsLikeLiteral(k.obj))
    {
      assert !Locks.HiddenFromObject(s, k);
    }
  }

  lemma StepKeepsKeys(s: Locks.State, a: Locks.Action)
    requires Locks.NoDeletes(s)
    ensures s.edges.Keys <= Locks.Do(s, a).edges.Keys
  {
    hide KeyOf;
  }

  lemma {:induction false} KeysGrow(actions: Actions, m: nat, n: nat)
    requires Locks.InsertOnly(actions) && Locks.NodeIrisAreNotLiterals(actions) && m <= n <= |actions|
    ensures Locks.Run(actions[..m]).edges.Keys <= Locks.Run(actions[..n]).edges.Keys
    decreases n
  {
    if m < n {
      KeysGrow(actions, m, n - 1);
      PrefixInsertsOnly(actions, n - 1);
      Locks.InsertRunsAreIndexed(actions[..n - 1]);
      StepKeepsKeys(Locks.Run(actions[..n - 1]), actions[n - 1]);
      assert actions[..n] == actions[..n - 1] + [actions[n - 1]];
      Locks.RunStep(actions[..n - 1], actions[n - 1]);
    }
  }

  /** A link is a stored key that is not a literal's, in either direction. */
  ghost predicate LinkedByKey(actions: Actions, n: nat, x: Bytes, y: Bytes, k: TripleKey)
    requires n <= |actions|
  {
    && k in Locks.Run(actions[..n]).edges && !StartsLikeLiteral(k.obj)
    && ((k.subject == x && k.obj == y) || (k.subject == y && k.obj == x))
  }

  lemma LinkedIffKey(actions: Actions, n: nat, x: Bytes, y: Bytes)
    requires Locks.InsertOnly(actions) && Locks.NodeIrisAreNotLiterals(actions) && n <= |actions|
    ensures Linked(GraphAt(actions, n), x, y) <==> exists k :: LinkedByKey(actions, n, x, y, k)
  {
    PrefixInsertsOnly(actions, n);
    KeysTell(actions[..n]);
    var edges := Locks.Run(actions[..n]).edges;
    if Linked(GraphAt(actions, n), x, y) {
      var k :| k in edges && edges[k].obj.Node?
        && ((edges[k].subject.iri == x && edges[k].obj.node.iri == y)
            || (edges[k].subject.iri == y && edges[k].obj.node.iri == x));
      assert LinkedByKey(actions, n, x, y, k);
    }
    if k :| LinkedByKey(actions, n, x, y, k) {
      assert KeyOf(edges[k]) == k && edges[k].obj.Node?;
    }
  }

  lemma LinksGrow(actions: Actions, m: nat, n: nat, x: Bytes, y: Bytes)
    requires Locks.InsertOnly(actions) && Locks.NodeIrisAreNotLiterals(actions) && m <= n <= |actions|
    requires Linked(GraphAt(actions, m), x, y)
    ensures Linked(GraphAt(actions, n), x, y)
  {
    LinkedIffKey(actions, m, x, y);
    LinkedIffKey(actions, n, x, y);
    KeysGrow(actions, m, n);
    var k :| LinkedByKey(actions, m, x, y, k);
    assert LinkedByKey(actions, n, x, y, k);
  }

  // ----- What one node's answers lead to

  lemma OutgoingAnswer(actions: Actions, n: nat, w: Bytes, answer: Answer)
    requires Locks.InsertOnly(actions) && Locks.NodeIrisAreNotLiterals(actions) && n <= |actions|
    requires AnsweredAt(actions, n, Locks.Outgoing(w), answer)
    ensures answer == Locks.Matching(Locks.Run(actions[..n]), w)
  {
    PrefixInsertsOnly(actions, n);
    Locks.InsertRunsAreIndexed(actions[..n]);
    var tid :| Locks.AnswersNow(actions[..n], tid)
      && Locks.Run(actions[..n]).threads[tid] == Locks.Thread(Locks.Outgoing(w), Locks.Done(answer));
    Locks.OutgoingIsExact(actions[..n], tid, w);
  }

  lemma IncomingAnswer(actions: Actions, n: nat, w: Bytes, answer: Answer)
    requires Locks.InsertOnly(actions) && Locks.NodeIrisAreNotLiterals(actions) && n <= |actions|
    requires AnsweredAt(actions, n, Locks.Incoming(w), answer)
    ensures answer == Locks.PointingAt(Locks.Run(actions[..n]), w)
  {
    PrefixInsertsOnly(actions, n);
    Locks.InsertRunsAreIndexed(actions[..n]);
    var tid :| Locks.AnswersNow(actions[..n], tid)
      && Locks.Run(actions[..n]).threads[tid] == Locks.Thread(Locks.Incoming(w), Locks.Done(answer));
    Locks.IncomingIsExact(actions[..n], tid, w);
  }

  /** The answers lead to nothing that is not linked at the end. */
  lemma EndsAreLinked(actions: Actions, lo: nat, hi: nat, w: Bytes, r: Read, y: Bytes)
    requires Locks.InsertOnly(actions) && Locks.NodeIrisAreNotLiterals(actions)
    requires ReadDuring(actions, lo, hi, w, r) && y in Ends(r)
    ensures Linked(GraphAt(actions, hi), w, y)
  {
    var n: nat :| lo <= n <= hi && AnsweredAt(actions, n, Locks.Outgoing(w), r.outgoing);
    var m: nat :| lo <= m <= hi && AnsweredAt(actions, m, Locks.Incoming(w), r.incoming);
    OutgoingAnswer(actions, n, w, r.outgoing);
    IncomingAnswer(actions, m, w, r.incoming);
    if k :| k in r.outgoing && r.outgoing[k].obj.Node? && r.outgoing[k].obj.node.iri == y {
      PrefixInsertsOnly(actions, n);
      KeysTell(actions[..n]);
      assert Linked(GraphAt(actions, n), w, y);
      LinksGrow(actions, n, hi, w, y);
    } else {
      var k :| k in r.incoming && r.incoming[k].subject.iri == y;
      assert Linked(GraphAt(actions, m), w, y);
      LinksGrow(actions, m, hi, w, y);
    }
  }

  /** They lead to everything that is linked at the start. */
  lemma LinkedAreEnds(actions: Actions, lo: nat, hi: nat, w: Bytes, r: Read, y: Bytes)
    requires Locks.InsertOnly(actions) && Locks.NodeIrisAreNotLiterals(actions)
    requires ReadDuring(actions, lo, hi, w, r) && lo <= hi && Linked(GraphAt(actions, lo), w, y)
    ensures y in Ends(r)
  {
    var n: nat :| lo <= n <= hi && AnsweredAt(actions, n, Locks.Outgoing(w), r.outgoing);
    var m: nat :| lo <= m <= hi && AnsweredAt(actions, m, Locks.Incoming(w), r.incoming);
    OutgoingAnswer(actions, n, w, r.outgoing);
    IncomingAnswer(actions, m, w, r.incoming);
    LinkedIffKey(actions, lo, w, y);
    var k :| LinkedByKey(actions, lo, w, y, k);
    KeysGrow(actions, lo, n);
    KeysGrow(actions, lo, m);
    PrefixInsertsOnly(actions, n);
    PrefixInsertsOnly(actions, m);
    KeysTell(actions[..n]);
    KeysTell(actions[..m]);
    assert k.subject == w && k.obj == y ==> k in r.outgoing && r.outgoing[k].obj.node.iri == y;
    assert k.subject == y && k.obj == w ==> k in r.incoming && r.incoming[k].subject.iri == y;
  }

  // ----- The bounds

  lemma LongerWalk(st: GraphState, x: Bytes, y: Bytes, h: nat)
    requires WithinHops(st, x, y, h)
    ensures WithinHops(st, x, y, h + 1)
  {
    var walk :| 1 <= |walk| <= h + 1 && walk[0] == x && walk[|walk| - 1] == y && IsWalk(st, walk);
  }

  /** Whatever the search has visited is within so many hops at the end. */
  lemma {:induction false} VisitedIsWithin(
    actions: Actions, lo: nat, hi: nat, replies: Replies, x: Bytes, h: nat, y: Bytes)
    requires Locks.InsertOnly(actions) && Locks.NodeIrisAreNotLiterals(actions) && hi <= |actions|
    requires RunsDuring(actions, lo, hi, replies, x, h) && y in Search(replies, x, h).visited
    ensures WithinHops(GraphAt(actions, hi), x, y, h)
    decreases h
  {
    hide GraphAt, ReadDuring, Ends, Linked;
    if h == 0 {
      assert IsWalk(GraphAt(actions, hi), [x]);
    } else if y in Search(replies, x, h - 1).visited {
      VisitedIsWithin(actions, lo, hi, replies, x, h - 1, y);
      LongerWalk(GraphAt(actions, hi), x, y, h - 1);
    } else {
      var w :| w in Search(replies, x, h - 1).frontier && w in replies && y in Ends(replies[w]);
      FrontierIsVisited(replies, x, h - 1);
      VisitedIsWithin(actions, lo, hi, replies, x, h - 1, w);
      EndsAreLinked(actions, lo, hi, w, replies[w], y);
      WalkExtends(GraphAt(actions, hi), x, w, y, h - 1);
    }
  }

  lemma {:induction false} FrontierIsVisited(replies: Replies, x: Bytes, h: nat)
    ensures Search(replies, x, h).frontier <= Search(replies, x, h).visited
  {
  }

  /** What is visited and not in the frontier has been read, and its ends are visited. */
  lemma {:induction false} ReadBefore(actions: Actions, lo: nat, hi: nat, replies: Replies, x: Bytes, h: nat, w: Bytes)
    requires RunsDuring(actions, lo, hi, replies, x, h)
    requires w in Search(replies, x, h).visited && w !in Search(replies, x, h).frontier
    ensures w in replies && ReadDuring(actions, lo, hi, w, replies[w])
      && Ends(replies[w]) <= Search(replies, x, h).visited
    decreases h
  {
    hide ReadDuring, Ends;
    if h > 0 {
      var before := Search(replies, x, h - 1);
      if w in before.frontier {
        forall y | y in Ends(replies[w]) ensures y in Found(replies, before.frontier) {}
      } else {
        ReadBefore(actions, lo, hi, replies, x, h - 1, w);
      }
    }
  }

  lemma {:induction false} WalkIsVisited(
    actions: Actions, lo: nat, hi: nat, replies: Replies, x: Bytes, walk: seq<Bytes>, h: nat)
    requires Locks.InsertOnly(actions) && Locks.NodeIrisAreNotLiterals(actions) && lo <= hi <= |actions|
    requires RunsDuring(actions, lo, hi, replies, x, h)
    requires 1 <= |walk| <= h + 1 && walk[0] == x && IsWalk(GraphAt(actions, lo), walk)
    ensures walk[|walk| - 1] in Search(replies, x, h).visited
    decreases h
  {
    hide GraphAt, ReadDuring, Ends, Linked;
    if |walk| == 1 {
      StartIsVisited(replies, x, h);
    } else {
      var init, w, y := walk[..|walk| - 1], walk[|walk| - 2], walk[|walk| - 1];
      WalkIsVisited(actions, lo, hi, replies, x, init, h - 1);
      assert init[|init| - 1] == w && Linked(GraphAt(actions, lo), walk[|walk| - 2], walk[|walk| - 2 + 1]);
      var before := Search(replies, x, h - 1);
      if w !in before.frontier {
        ReadBefore(actions, lo, hi, replies, x, h - 1, w);
      }
      LinkedAreEnds(actions, lo, hi, w, replies[w], y);
      assert w in before.frontier ==> y in Found(replies, before.frontier);
    }
  }

  lemma {:induction false} StartIsVisited(replies: Replies, x: Bytes, h: nat)
    ensures x in Search(replies, x, h).visited
  {
    if h > 0 {
      StartIsVisited(replies, x, h - 1);
    }
  }

  /** While other calls only insert, a search that runs between two moments visits all nodes within
      its hops at the first of them, and none beyond its hops at the second. */
  lemma SearchIsBetween(actions: Actions, lo: nat, hi: nat, replies: Replies, x: Bytes, h: nat, y: Bytes)
    requires Locks.InsertOnly(actions) && Locks.NodeIrisAreNotLiterals(actions) && lo <= hi <= |actions|
    requires RunsDuring(actions, lo, hi, replies, x, h)
    ensures WithinHops(GraphAt(actions, lo), x, y, h) ==> y in Search(replies, x, h).visited
    ensures y in Search(replies, x, h).visited ==> WithinHops(GraphAt(actions, hi), x, y, h)
  {
    if y in Search(replies, x, h).visited {
      VisitedIsWithin(actions, lo, hi, replies, x, h, y);
    }
    if WithinHops(GraphAt(actions, lo), x, y, h) {
      var st := GraphAt(actions, lo);
      var walk :| 1 <= |walk| <= h + 1 && walk[0] == x && walk[|walk| - 1] == y && IsWalk(st, walk);
      WalkIsVisited(actions, lo, hi, replies, x, walk, h);
    }
  }

  /** So a search during which no edge is added gives graph distance; the ball of the stored graph. */
  lemma QuietSearchIsBall(actions: Actions, lo: nat, hi: nat, replies: Replies, x: Bytes, h: nat)
    requires Locks.InsertOnly(actions) && Locks.NodeIrisAreNotLiterals(actions) && lo <= hi <= |actions|
    requires RunsDuring(actions, lo, hi, replies, x, h) && GraphAt(actions, lo) == GraphAt(actions, hi)
    ensures Search(replies, x, h).visited == Ball(GraphAt(actions, lo), x, h)
  {
    var st := GraphAt(actions, lo);
    PrefixInsertsOnly(actions, lo);
    KeysTell(actions[..lo]);
    assert Sound(st) && IndexExact(st);
    ExactIndexHasNoPhantoms(st);
    forall y ensures y in Search(replies, x, h).visited <==> y in Ball(st, x, h) {
      SearchIsBetween(actions, lo, hi, replies, x, h, y);
      BallIsWithinHops(st, x, y, h);
    }
  }
}
