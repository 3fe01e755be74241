/** Lock-level interleavings of the in-memory graph store.

`insert` and `delete` take the write locks of the subject index, the object index and the edge
map one after another, so other calls may run in between. `outgoing` and `incoming` hold the
read lock of their index while they take the read lock of the edge map. An `Action` either
starts a call or lets one call take its next lock; a call whose lock is taken does not move.
Every list of actions is a run, so a statement about all lists covers every interleaving. */
module SimpleStoreInterleaving {
  import opened Wrappers
  import opened ByteStrings
  import opened GraphModel

  type Tid = nat

  datatype Call = Insert(edge: GraphEdge) | Delete(edge: GraphEdge) | Outgoing(iri: Bytes) | Incoming(iri: Bytes)

  datatype Pc = AtIndex | AtObject | AtEdges | Done(answer: map<TripleKey, GraphEdge>)

  datatype Thread = Thread(call: Call, pc: Pc)

  datatype State = State(
    edges: map<TripleKey, GraphEdge>,
    subjectIdx: set<TripleKey>,
    objectIdx: set<TripleKey>,
    threads: map<Tid, Thread>)

  datatype Action = Start(tid: Tid, call: Call) | Step(tid: Tid)

  const INIT := State(map[], {}, {}, map[])

  // ----- Locks

  /** A call that holds the read lock of the subject index. */
  predicate SubjectRead(s: State) {
    exists tid :: tid in s.threads && s.threads[tid].call.Outgoing? && s.threads[tid].pc == AtEdges
  }

  predicate ObjectRead(s: State) {
    exists tid :: tid in s.threads && s.threads[tid].call.Incoming? && s.threads[tid].pc == AtEdges
  }

  // ----- Steps

  function Goto(s: State, tid: Tid, pc: Pc): State
    requires tid in s.threads
  {
    s.(threads := s.threads[tid := s.threads[tid].(pc := pc)])
  }

  function StepInsert(s: State, tid: Tid, e: GraphEdge): State
    requires tid in s.threads
  {
    match s.threads[tid].pc
    case AtIndex =>
      if SubjectRead(s) then s
      else Goto(s.(subjectIdx := s.subjectIdx + {KeyOf(e)}), tid, if e.obj.Node? then AtObject else AtEdges)
    case AtObject =>
      if ObjectRead(s) then s
      else Goto(s.(objectIdx := s.objectIdx + {KeyOf(e)}), tid, AtEdges)
    case AtEdges => Goto(s.(edges := s.edges[KeyOf(e) := e]), tid, Done(map[]))
    case Done(_) => s
  }

  function StepDelete(s: State, tid: Tid, e: GraphEdge): State
    requires tid in s.threads
  {
    match s.threads[tid].pc
    case AtIndex =>
      if SubjectRead(s) then s
      else Goto(s.(subjectIdx := s.subjectIdx - {KeyOf(e)}), tid, if e.obj.Node? then AtObject else AtEdges)
    case AtObject =>
      if ObjectRead(s) then s
      else Goto(s.(objectIdx := s.objectIdx - {KeyOf(e)}), tid, AtEdges)
    case AtEdges => Goto(s.(edges := s.edges - {KeyOf(e)}), tid, Done(map[]))
    case Done(_) => s
  }

  /** A query takes its index read lock, then with that lock still held reads the edges. */
  function StepQuery(s: State, tid: Tid, filed: set<TripleKey>): State
    requires tid in s.threads
  {
    match s.threads[tid].pc
    case AtIndex => Goto(s, tid, AtEdges)
    case AtEdges => Goto(s, tid, Done(map k | k in filed && k in s.edges :: s.edges[k]))
    case _ => s
  }

  function Do(s: State, a: Action): State {
    match a
    case Start(tid, call) => if tid in s.threads then s else s.(threads := s.threads[tid := Thread(call, AtIndex)])
    case Step(tid) =>
      if tid !in s.threads then s
      else match s.threads[tid].call
        case Insert(e) => StepInsert(s, tid, e)
        case Delete(e) => StepDelete(s, tid, e)
        case Outgoing(iri) => StepQuery(s, tid, set k | k in s.subjectIdx && k.subject == iri)
        case Incoming(iri) => StepQuery(s, tid, set k | k in s.objectIdx && k.obj == iri)
  }

  function Run(actions: seq<Action>): State {
    if actions == [] then INIT else Do(Run(actions[..|actions| - 1]), actions[|actions| - 1])
  }

  lemma RunStep(actions: seq<Action>, a: Action)
    ensures Run(actions + [a]) == Do(Run(actions), a)
  {
    assert (actions + [a])[..|actions|] == actions;
  }

  // ----- The last write under each lock

  /** Action `a` is a step of a call that inserts or deletes an edge with key `k`. */
  predicate MovesWriter(s: State, a: Action, k: TripleKey) {
    && a.Step? && a.tid in s.threads
    && var call := s.threads[a.tid].call;
       (call.Insert? || call.Delete?) && KeyOf(call.edge) == k
  }

  predicate WritesSubject(s: State, a: Action, k: TripleKey) {
    MovesWriter(s, a, k) && s.threads[a.tid].pc == AtIndex && !SubjectRead(s)
  }

  predicate WritesObject(s: State, a: Action, k: TripleKey) {
    MovesWriter(s, a, k) && s.threads[a.tid].pc == AtObject && !ObjectRead(s)
  }

  predicate WritesEdge(s: State, a: Action, k: TripleKey) {
    MovesWriter(s, a, k) && s.threads[a.tid].pc == AtEdges
  }

  /** The call that last wrote `k` under the lock of the subject index. */
  function LastSubject(actions: seq<Action>, k: TripleKey): Option<Call> {
    if actions == [] then None
    else
      var init, a := actions[..|actions| - 1], actions[|actions| - 1];
      if WritesSubject(Run(init), a, k) then Some(Run(init).threads[a.tid].call) else LastSubject(init, k)
  }

  function LastObject(actions: seq<Action>, k: TripleKey): Option<Call> {
    if actions == [] then None
    else
      var init, a := actions[..|actions| - 1], actions[|actions| - 1];
      if WritesObject(Run(init), a, k) then Some(Run(init).threads[a.tid].call) else LastObject(init, k)
  }

  function LastEdge(actions: seq<Action>, k: TripleKey): Option<Call> {
    if actions == [] then None
    else
      var init, a := actions[..|actions| - 1], actions[|actions| - 1];
      if WritesEdge(Run(init), a, k) then Some(Run(init).threads[a.tid].call) else LastEdge(init, k)
  }

  predicate IsInsert(c: Option<Call>) {
    c.Some? && c.value.Insert?
  }

  /** In every interleaving each table holds what the last writer under its lock left there. */
  lemma {:induction false} TablesHoldLastWrites(actions: seq<Action>, k: TripleKey)
    ensures k in Run(actions).subjectIdx <==> IsInsert(LastSubject(actions, k))
    ensures k in Run(actions).objectIdx <==> IsInsert(LastObject(actions, k))
    ensures k in Run(actions).edges <==> IsInsert(LastEdge(actions, k))
    ensures k in Run(actions).edges ==> Run(actions).edges[k] == LastEdge(actions, k).value.edge
    ensures IsInsert(LastEdge(actions, k)) ==> KeyOf(LastEdge(actions, k).value.edge) == k
  {
    hide KeyOf;
    if actions != [] {
      TablesHoldLastWrites(actions[..|actions| - 1], k);
    }
  }

  // ----- Exactly when an index misses a stored edge, or lists a literal

  predicate HiddenFromSubject(s: State, k: TripleKey) {
    k in s.edges && k !in s.subjectIdx
  }

  predicate HiddenFromObject(s: State, k: TripleKey) {
    k in s.edges && s.edges[k].obj.Node? && k !in s.objectIdx
  }

  predicate Phantom(s: State, k: TripleKey) {
    k in s.edges && s.edges[k].obj.Literal? && k in s.objectIdx
  }

  /** An edge is stored and missing from the subject index if and only if the last writer of its key
      in the edge map was an insert and the last one in that index was not. The same for a node
      edge and the object index, which lists a literal exactly in the opposite case. */
  lemma HiddenIff(actions: seq<Action>, k: TripleKey)
    ensures HiddenFromSubject(Run(actions), k) <==>
      IsInsert(LastEdge(actions, k)) && !IsInsert(LastSubject(actions, k))
    ensures HiddenFromObject(Run(actions), k) <==>
      IsInsert(LastEdge(actions, k)) && LastEdge(actions, k).value.edge.obj.Node? && !IsInsert(LastObject(actions, k))
    ensures Phantom(Run(actions), k) <==>
      IsInsert(LastEdge(actions, k)) && LastEdge(actions, k).value.edge.obj.Literal? && IsInsert(LastObject(actions, k))
  {
    TablesHoldLastWrites(actions, k);
  }

  // ----- What a query answers, in every interleaving

  /** The query `tid` reads the edge map in the last action of the run. */
  ghost predicate AnswersNow(actions: seq<Action>, tid: Tid) {
    && actions != [] && actions[|actions| - 1] == Step(tid)
    && var before := Run(actions[..|actions| - 1]);
       tid in before.threads && before.threads[tid].pc == AtEdges
  }

  function Matching(s: State, iri: Bytes): map<TripleKey, GraphEdge> {
    map k | k in s.edges && k.subject == iri :: s.edges[k]
  }

  function PointingAt(s: State, iri: Bytes): map<TripleKey, GraphEdge> {
    map k | k in s.edges && PointsAt(s.edges[k], iri) :: s.edges[k]
  }

  lemma QueryChangesNothing(actions: seq<Action>, tid: Tid)
    requires AnswersNow(actions, tid)
      && (Run(actions).threads[tid].call.Outgoing? || Run(actions).threads[tid].call.Incoming?)
    ensures
      var before, s := Run(actions[..|actions| - 1]), Run(actions);
      && s.edges == before.edges && s.subjectIdx == before.subjectIdx && s.objectIdx == before.objectIdx
      && s.threads[tid].call == before.threads[tid].call && s.threads[tid].pc.Done?
  {
  }

  /** `outgoing` answers exactly the matching edges present when it locks the edge map if and only if
      each of those, by the order of the locks, is in the subject index. */
  lemma OutgoingIsExactIff(actions: seq<Action>, tid: Tid, iri: Bytes)
    requires AnswersNow(actions, tid) && Run(actions).threads[tid].call == Outgoing(iri)
    ensures Run(actions).threads[tid].pc == Done(Matching(Run(actions), iri)) <==>
      forall k: TripleKey :: k.subject == iri && IsInsert(LastEdge(actions, k)) ==> IsInsert(LastSubject(actions, k))
  {
    QueryChangesNothing(actions, tid);
    var s := Run(actions);
    var answer := s.threads[tid].pc.answer;
    assert answer == map k | k in (set k | k in s.subjectIdx && k.subject == iri) && k in s.edges :: s.edges[k];
    forall k: TripleKey ensures k.subject == iri ==>
      ((k in answer <==> k in Matching(s, iri)) <==>
        (IsInsert(LastEdge(actions, k)) ==> IsInsert(LastSubject(actions, k))))
    {
      TablesHoldLastWrites(actions, k);
    }
    assert answer.Keys <= Matching(s, iri).Keys;
    if forall k: TripleKey :: k.subject == iri && IsInsert(LastEdge(actions, k)) ==> IsInsert(LastSubject(actions, k)) {
      assert answer == Matching(s, iri);
    }
  }

  /** `incoming` answers exactly the node edges that point at the IRI if and only if no such edge is
      hidden from the object index and no literal is listed there for it. */
  lemma IncomingIsExactIff(actions: seq<Action>, tid: Tid, iri: Bytes)
    requires AnswersNow(actions, tid) && Run(actions).threads[tid].call == Incoming(iri)
    ensures Run(actions).threads[tid].pc == Done(PointingAt(Run(actions), iri)) <==>
      forall k: TripleKey :: k.obj == iri && IsInsert(LastEdge(actions, k)) ==>
        (IsInsert(LastObject(actions, k)) <==> LastEdge(actions, k).value.edge.obj.Node?)
  {
    QueryChangesNothing(actions, tid);
    var s := Run(actions);
    var answer := s.threads[tid].pc.answer;
    assert answer == map k | k in (set k | k in s.objectIdx && k.obj == iri) && k in s.edges :: s.edges[k];
    forall k: TripleKey
      ensures k in answer <==> k.obj == iri && IsInsert(LastEdge(actions, k)) && IsInsert(LastObject(actions, k))
      ensures k in PointingAt(s, iri) <==>
        k.obj == iri && IsInsert(LastEdge(actions, k)) && LastEdge(actions, k).value.edge.obj.Node?
    {
      TablesHoldLastWrites(actions, k);
    }
    if forall k: TripleKey :: k.obj == iri && IsInsert(LastEdge(actions, k)) ==>
        (IsInsert(LastObject(actions, k)) <==> LastEdge(actions, k).value.edge.obj.Node?)
    {
      assert answer == PointingAt(s, iri);
    }
  }

  // ----- Runs in which no delete overtakes an insert

  /** An insert of `k` has put it in the subject index and has yet to store the edge. */
  predicate Inserting(s: State, k: TripleKey) {
    exists tid :: tid in s.threads && IsInserting(s.threads[tid], k)
  }

  predicate IsInserting(t: Thread, k: TripleKey) {
    t.call.Insert? && KeyOf(t.call.edge) == k && (t.pc == AtObject || t.pc == AtEdges)
  }

  /** An insert of a node edge has put `k` in the object index and has yet to store the edge. */
  predicate InsertingNode(s: State, k: TripleKey) {
    exists tid :: tid in s.threads && IsInsertingNode(s.threads[tid], k)
  }

  predicate IsInsertingNode(t: Thread, k: TripleKey) {
    t.call.Insert? && KeyOf(t.call.edge) == k && t.call.edge.obj.Node? && t.pc == AtEdges
  }

  /** A delete of `k` has taken it out of the subject index and has yet to remove the edge. */
  predicate Deleting(s: State, k: TripleKey) {
    exists tid :: tid in s.threads && IsDeleting(s.threads[tid], k)
  }

  predicate IsDeleting(t: Thread, k: TripleKey) {
    t.call.Delete? && KeyOf(t.call.edge) == k && (t.pc == AtObject || t.pc == AtEdges)
  }

  predicate DeletingNode(s: State, k: TripleKey) {
    exists tid :: tid in s.threads && IsDeletingNode(s.threads[tid], k)
  }

  predicate IsDeletingNode(t: Thread, k: TripleKey) {
    t.call.Delete? && KeyOf(t.call.edge) == k && t.call.edge.obj.Node? && t.pc == AtEdges
  }

  /** A delete writes an index between the writes of an insert of the same key to that index and to
      the edge map. */
  predicate Overtakes(s: State, a: Action) {
    && a.Step? && a.tid in s.threads && s.threads[a.tid].call.Delete?
    && var k := KeyOf(s.threads[a.tid].call.edge);
       (WritesSubject(s, a, k) && Inserting(s, k)) || (WritesObject(s, a, k) && InsertingNode(s, k))
  }

  predicate NoOvertaking(actions: seq<Action>) {
    actions == [] ||
    (NoOvertaking(actions[..|actions| - 1]) && !Overtakes(Run(actions[..|actions| - 1]), actions[|actions| - 1]))
  }

  /** Each stored key is in its indexes, except while a delete of it is under way. */
  ghost predicate Indexed(s: State) {
    && (forall k :: k in s.edges ==> KeyOf(s.edges[k]) == k && (k in s.subjectIdx || Deleting(s, k)))
    && (forall k :: k in s.edges && s.edges[k].obj.Node? ==> k in s.objectIdx || DeletingNode(s, k))
    && (forall tid :: tid in s.threads ==> IndexedThread(s, s.threads[tid]))
  }

  ghost predicate IndexedThread(s: State, t: Thread) {
    && (t.pc == AtObject ==> (t.call.Insert? || t.call.Delete?) && t.call.edge.obj.Node?)
    && (t.call.Insert? ==>
          && (IsInserting(t, KeyOf(t.call.edge)) ==> KeyOf(t.call.edge) in s.subjectIdx)
          && (IsInsertingNode(t, KeyOf(t.call.edge)) ==> KeyOf(t.call.edge) in s.objectIdx))
  }

  lemma StepKeepsThread(s: State, a: Action, tid: Tid)
    requires Indexed(s) && !Overtakes(s, a) && tid in Do(s, a).threads
    ensures IndexedThread(Do(s, a), Do(s, a).threads[tid])
  {
    hide KeyOf, Deleting, DeletingNode;
    if tid in s.threads {
      assert IndexedThread(s, s.threads[tid]);
    }
    if a.Step? && a.tid in s.threads {
      assert IndexedThread(s, s.threads[a.tid]);
    }
  }

  lemma StepKeepsSubject(s: State, a: Action, k: TripleKey)
    requires Indexed(s) && !Overtakes(s, a) && k in Do(s, a).edges
    ensures KeyOf(Do(s, a).edges[k]) == k && (k in Do(s, a).subjectIdx || Deleting(Do(s, a), k))
  {
    hide KeyOf;
    var s' := Do(s, a);
    if a.Step? && a.tid in s.threads {
      assert IndexedThread(s, s.threads[a.tid]);
      assert IsDeleting(s'.threads[a.tid], k) ==> Deleting(s', k);
    }
    if k in s.edges && k !in s.subjectIdx {
      var tid :| tid in s.threads && IsDeleting(s.threads[tid], k);
      assert IsDeleting(s'.threads[tid], k) ==> Deleting(s', k);
    }
  }

  lemma StepKeepsObject(s: State, a: Action, k: TripleKey)
    requires Indexed(s) && !Overtakes(s, a) && k in Do(s, a).edges && Do(s, a).edges[k].obj.Node?
    ensures k in Do(s, a).objectIdx || DeletingNode(Do(s, a), k)
  {
    hide KeyOf;
    var s' := Do(s, a);
    if a.Step? && a.tid in s.threads {
      assert IndexedThread(s, s.threads[a.tid]);
      assert IsDeletingNode(s'.threads[a.tid], k) ==> DeletingNode(s', k);
    }
    if k in s.edges && s.edges[k].obj.Node? && k !in s.objectIdx {
      var tid :| tid in s.threads && IsDeletingNode(s.threads[tid], k);
      assert IsDeletingNode(s'.threads[tid], k) ==> DeletingNode(s', k);
    }
  }

  lemma StepKeepsIndexed(s: State, a: Action)
    requires Indexed(s) && !Overtakes(s, a)
    ensures Indexed(Do(s, a))
  {
    forall tid | tid in Do(s, a).threads ensures IndexedThread(Do(s, a), Do(s, a).threads[tid]) {
      StepKeepsThread(s, a, tid);
    }
    forall k | k in Do(s, a).edges
      ensures KeyOf(Do(s, a).edges[k]) == k && (k in Do(s, a).subjectIdx || Deleting(Do(s, a), k))
    {
      StepKeepsSubject(s, a, k);
    }
    forall k | k in Do(s, a).edges && Do(s, a).edges[k].obj.Node?
      ensures k in Do(s, a).objectIdx || DeletingNode(Do(s, a), k)
    {
      StepKeepsObject(s, a, k);
    }
  }

  /** Without overtaking, every interleaving keeps each stored key in its indexes except while a
      delete of it is under way. */
  lemma {:induction false} RunsAreIndexed(actions: seq<Action>)
    requires NoOvertaking(actions)
    ensures Indexed(Run(actions))
  {
    if actions != [] {
      RunsAreIndexed(actions[..|actions| - 1]);
      StepKeepsIndexed(Run(actions[..|actions| - 1]), actions[|actions| - 1]);
    }
  }

  predicate HasReturned(s: State, tid: Tid) {
    tid in s.threads && s.threads[tid].pc.Done?
  }

  /** An edge still hidden when every call has returned was overtaken. */
  lemma HiddenForGoodWasOvertaken(actions: seq<Action>, k: TripleKey)
    requires forall tid :: tid in Run(actions).threads ==> HasReturned(Run(actions), tid)
    requires HiddenFromSubject(Run(actions), k) || HiddenFromObject(Run(actions), k)
    ensures !NoOvertaking(actions)
  {
    if NoOvertaking(actions) {
      RunsAreIndexed(actions);
    }
  }

  predicate NodeIrisAreNotLiterals(actions: seq<Action>) {
    forall i :: 0 <= i < |actions| && actions[i].Start? && actions[i].call.Insert? && actions[i].call.edge.obj.Node? ==>
      !StartsLikeLiteral(actions[i].call.edge.obj.node.iri)
  }

  /** Only keys of node edges are ever put in the object index. */
  lemma {:induction false} IndexedKeysAreNotLiterals(actions: seq<Action>)
    requires NodeIrisAreNotLiterals(actions)
    ensures forall k :: k in Run(actions).objectIdx ==> !StartsLikeLiteral(k.obj)
    ensures forall tid :: tid in Run(actions).threads ==>
      var t := Run(actions).threads[tid];
      t.call.Insert? && t.call.edge.obj.Node? ==> !StartsLikeLiteral(t.call.edge.obj.node.iri)
    ensures forall tid :: tid in Run(actions).threads && Run(actions).threads[tid].pc == AtObject ==>
              (Run(actions).threads[tid].call.Insert? || Run(actions).threads[tid].call.Delete?)
              && Run(actions).threads[tid].call.edge.obj.Node?
  {
    if actions != [] {
      IndexedKeysAreNotLiterals(actions[..|actions| - 1]);
    }
  }

  /** Without overtaking `outgoing` is exact whenever no delete of a matching key is under way. */
  lemma OutgoingIsExact(actions: seq<Action>, tid: Tid, iri: Bytes)
    requires NoOvertaking(actions) && AnswersNow(actions, tid) && Run(actions).threads[tid].call == Outgoing(iri)
    requires forall k :: Deleting(Run(actions), k) ==> k.subject != iri
    ensures Run(actions).threads[tid].pc == Done(Matching(Run(actions), iri))
  {
    RunsAreIndexed(actions);
    OutgoingIsExactIff(actions, tid, iri);
    forall k: TripleKey | k.subject == iri && IsInsert(LastEdge(actions, k)) ensures IsInsert(LastSubject(actions, k)) {
      TablesHoldLastWrites(actions, k);
    }
  }

  lemma IncomingIsExact(actions: seq<Action>, tid: Tid, iri: Bytes)
    requires NoOvertaking(actions) && AnswersNow(actions, tid) && Run(actions).threads[tid].call == Incoming(iri)
    requires forall k :: DeletingNode(Run(actions), k) ==> k.obj != iri
    requires NodeIrisAreNotLiterals(actions)
    ensures Run(actions).threads[tid].pc == Done(PointingAt(Run(actions), iri))
  {
    RunsAreIndexed(actions);
    IndexedKeysAreNotLiterals(actions);
    IncomingIsExactIff(actions, tid, iri);
    forall k: TripleKey | k.obj == iri && IsInsert(LastEdge(actions, k))
      ensures IsInsert(LastObject(actions, k)) <==> LastEdge(actions, k).value.edge.obj.Node?
    {
      TablesHoldLastWrites(actions, k);
    }
  }

  // ----- Runs without deletes

  predicate InsertOnly(actions: seq<Action>) {
    forall i :: 0 <= i < |actions| && actions[i].Start? ==> !actions[i].call.Delete?
  }

  predicate NoDeletes(s: State) {
    forall tid :: tid in s.threads ==> !s.threads[tid].call.Delete?
  }

  lemma StepKeepsNoDeletes(s: State, a: Action)
    requires NoDeletes(s) && (a.Start? ==> !a.call.Delete?)
    ensures NoDeletes(Do(s, a)) && !Overtakes(s, a)
  {
    hide KeyOf;
  }

  lemma NoDeletesHideNothing(s: State, k: TripleKey)
    requires Indexed(s) && NoDeletes(s)
    ensures !HiddenFromSubject(s, k) && !HiddenFromObject(s, k)
  {
  }

  /** Without deletes nothing is overtaken, and each stored key is always in its indexes. */
  lemma {:induction false} InsertRunsAreIndexed(actions: seq<Action>)
    requires InsertOnly(actions)
    ensures NoOvertaking(actions) && NoDeletes(Run(actions))
    ensures forall k :: !HiddenFromSubject(Run(actions), k) && !HiddenFromObject(Run(actions), k)
  {
    hide Do, NoDeletes, Overtakes;
    if actions == [] {
      NothingDeletes();
    } else {
      InsertRunsAreIndexed(actions[..|actions| - 1]);
      StepKeepsNoDeletes(Run(actions[..|actions| - 1]), actions[|actions| - 1]);
    }
    RunsAreIndexed(actions);
    forall k ensures !HiddenFromSubject(Run(actions), k) && !HiddenFromObject(Run(actions), k) {
      NoDeletesHideNothing(Run(actions), k);
    }
  }

  lemma NothingDeletes()
    ensures NoDeletes(INIT)
  {
  }

  predicate NeverDeleted(actions: seq<Action>, k: TripleKey) {
    forall i :: 0 <= i < |actions| && actions[i].Start? && actions[i].call.Delete? ==> KeyOf(actions[i].call.edge) != k
  }

  lemma {:induction false} ReturnedInsertIsStored(actions: seq<Action>, k: TripleKey)
    requires NeverDeleted(actions, k)
    ensures forall tid :: tid in Run(actions).threads ==>
      var t := Run(actions).threads[tid];
      && (t.call.Delete? ==> KeyOf(t.call.edge) != k)
      && (t.call.Insert? && KeyOf(t.call.edge) == k && t.pc != AtIndex ==> k in Run(actions).subjectIdx)
      && (t.call.Insert? && KeyOf(t.call.edge) == k && t.pc.Done? ==> k in Run(actions).edges)
  {
    hide KeyOf;
    if actions != [] {
      ReturnedInsertIsStored(actions[..|actions| - 1], k);
    }
  }

  /** An insert that has returned is seen by every query that answers later, in every interleaving
      with other calls that do not delete the same key. */
  lemma ReturnedInsertIsSeen(actions: seq<Action>, insert: Tid, query: Tid)
    requires AnswersNow(actions, query)
    requires insert in Run(actions).threads && Run(actions).threads[insert].call.Insert?
      && Run(actions).threads[insert].pc.Done?
    requires NeverDeleted(actions, KeyOf(Run(actions).threads[insert].call.edge))
    requires Run(actions).threads[query].call == Outgoing(Run(actions).threads[insert].call.edge.subject.iri)
    ensures KeyOf(Run(actions).threads[insert].call.edge) in Run(actions).threads[query].pc.answer
  {
    ReturnedInsertIsStored(actions, KeyOf(Run(actions).threads[insert].call.edge));
    QueryChangesNothing(actions, query);
  }

  // ----- Overtaking hides an edge

  function Readers(s: State): set<Tid> {
    set tid | tid in s.threads && (s.threads[tid].call.Outgoing? || s.threads[tid].call.Incoming?)
      && s.threads[tid].pc == AtEdges
  }

  /** `t` differs from `s` only in queries that have finished. */
  ghost predicate OnlyReadersMoved(s: State, t: State) {
    && t.edges == s.edges && t.subjectIdx == s.subjectIdx && t.objectIdx == s.objectIdx
    && t.threads.Keys == s.threads.Keys
    && forall tid :: tid in s.threads && (s.threads[tid].call.Insert? || s.threads[tid].call.Delete?) ==>
         t.threads[tid] == s.threads[tid]
  }

  /** Every run can be continued until no query holds a lock. */
  lemma {:induction false} Drain(actions: seq<Action>, readers: set<Tid>) returns (longer: seq<Action>)
    requires Readers(Run(actions)) == readers
    ensures actions <= longer && OnlyReadersMoved(Run(actions), Run(longer)) && Readers(Run(longer)) == {}
    decreases readers
  {
    if readers == {} {
      longer := actions;
    } else {
      var tid :| tid in readers;
      RunStep(actions, Step(tid));
      assert Readers(Run(actions + [Step(tid)])) == readers - {tid};
      longer := Drain(actions + [Step(tid)], readers - {tid});
    }
  }

  lemma NoReadersNoLocks(s: State)
    requires Readers(s) == {}
    ensures !SubjectRead(s) && !ObjectRead(s)
  {
    forall tid | tid in s.threads && (s.threads[tid].call.Outgoing? || s.threads[tid].call.Incoming?)
      ensures s.threads[tid].pc != AtEdges
    {
      assert tid !in Readers(s);
    }
  }

  /** A writer's step with no query holding a lock leaves it so. */
  lemma WriterMoves(s: State, tid: Tid)
    requires Readers(s) == {} && tid in s.threads && (s.threads[tid].call.Insert? || s.threads[tid].call.Delete?)
    ensures Readers(Do(s, Step(tid))) == {}
  {
    var s' := Do(s, Step(tid));
    forall t | t in s'.threads ensures t !in Readers(s') {
      assert t !in Readers(s);
    }
  }

  /** How many locks a delete has yet to take. */
  function LocksLeft(pc: Pc): nat {
    match pc
    case AtIndex => 3
    case AtObject => 2
    case AtEdges => 1
    case Done(_) => 0
  }

  /** How far a delete that started at `from` has come, and what it has taken out of the indexes. */
  ghost predicate DeleteIsAt(start: State, s: State, tid: Tid, e: GraphEdge, from: Pc, pc: Pc) {
    && s.threads == start.threads[tid := Thread(Delete(e), pc)]
    && (pc.Done? ==> pc == Done(map[]))
    && (from == AtIndex && pc != AtIndex ==> KeyOf(e) !in s.subjectIdx)
    && (pc == AtObject ==> e.obj.Node?)
    && (e.obj.Node? && pc != AtIndex && pc != AtObject ==> KeyOf(e) !in s.objectIdx)
  }

  lemma DeleteFinishes(actions: seq<Action>, tid: Tid, e: GraphEdge) returns (longer: seq<Action>)
    requires Readers(Run(actions)) == {} && tid in Run(actions).threads
    requires
      || Run(actions).threads[tid] == Thread(Delete(e), AtIndex)
      || (Run(actions).threads[tid] == Thread(Delete(e), AtObject) && e.obj.Node?)
    ensures actions <= longer && Readers(Run(longer)) == {}
    ensures Run(longer).threads == Run(actions).threads[tid := Thread(Delete(e), Done(map[]))]
    ensures Run(actions).threads[tid].pc == AtIndex ==> KeyOf(e) !in Run(longer).subjectIdx
    ensures e.obj.Node? ==> KeyOf(e) !in Run(longer).objectIdx
  {
    hide KeyOf;
    longer := actions;
    ghost var start, from, pc := Run(actions), Run(actions).threads[tid].pc, Run(actions).threads[tid].pc;
    for i := 0 to 3
      invariant actions <= longer && Readers(Run(longer)) == {}
      invariant DeleteIsAt(start, Run(longer), tid, e, from, pc) && LocksLeft(pc) <= 3 - i
    {
      NoReadersNoLocks(Run(longer));
      WriterMoves(Run(longer), tid);
      RunStep(longer, Step(tid));
      longer := longer + [Step(tid)];
      pc := Run(longer).threads[tid].pc;
    }
  }

  lemma InsertFinishes(actions: seq<Action>, tid: Tid, e: GraphEdge) returns (longer: seq<Action>)
    requires Readers(Run(actions)) == {} && tid in Run(actions).threads
    requires
      || Run(actions).threads[tid] == Thread(Insert(e), AtObject)
      || Run(actions).threads[tid] == Thread(Insert(e), AtEdges)
    ensures actions <= longer && Run(longer).threads == Run(actions).threads[tid := Thread(Insert(e), Done(map[]))]
    ensures Run(longer).subjectIdx == Run(actions).subjectIdx
    ensures Run(actions).threads[tid].pc == AtEdges ==> Run(longer).objectIdx == Run(actions).objectIdx
    ensures KeyOf(e) in Run(longer).edges && Run(longer).edges[KeyOf(e)] == e
  {
    hide KeyOf;
    longer := actions;
    for i := 0 to 2
      invariant actions <= longer && Readers(Run(longer)) == {} && Run(longer).subjectIdx == Run(actions).subjectIdx
      invariant exists pc ::
        && Run(longer).threads == Run(actions).threads[tid := Thread(Insert(e), pc)]
        && (i == 0 ==> pc == AtObject || pc == AtEdges)
        && (i == 1 ==> pc == AtEdges || pc == Done(map[])) && (i == 2 ==> pc == Done(map[]))
        && (Run(actions).threads[tid].pc == AtEdges ==> pc != AtObject && (i == 1 ==> pc == Done(map[])))
        && (pc == Done(map[]) ==> KeyOf(e) in Run(longer).edges && Run(longer).edges[KeyOf(e)] == e)
      invariant Run(actions).threads[tid].pc == AtEdges ==> Run(longer).objectIdx == Run(actions).objectIdx
    {
      NoReadersNoLocks(Run(longer));
      WriterMoves(Run(longer), tid);
      RunStep(longer, Step(tid));
      longer := longer + [Step(tid)];
    }
  }

  /** Whenever an insert has indexed a key and a delete of that key has yet to start its writes, the
      run can go on so that both return and the edge is stored and not in the subject index. */
  lemma OvertakingHides(actions: seq<Action>, insert: Tid, delete: Tid, k: TripleKey) returns (longer: seq<Action>)
    requires insert in Run(actions).threads && IsInserting(Run(actions).threads[insert], k)
    requires delete in Run(actions).threads && Run(actions).threads[delete].call.Delete?
    requires KeyOf(Run(actions).threads[delete].call.edge) == k && Run(actions).threads[delete].pc == AtIndex
    ensures actions <= longer && HiddenFromSubject(Run(longer), k)
    ensures HasReturned(Run(longer), insert) && HasReturned(Run(longer), delete)
  {
    var e, d := Run(actions).threads[insert].call.edge, Run(actions).threads[delete].call.edge;
    longer := Drain(actions, Readers(Run(actions)));
    longer := DeleteFinishes(longer, delete, d);
    longer := InsertFinishes(longer, insert, e);
  }

  /** The same for the object index: an insert that has listed a node edge there, and a delete of
      that node edge that has yet to take the lock of the object index. */
  lemma OvertakingHidesNode(actions: seq<Action>, insert: Tid, delete: Tid, k: TripleKey) returns (longer: seq<Action>)
    requires insert in Run(actions).threads && IsInsertingNode(Run(actions).threads[insert], k)
    requires delete in Run(actions).threads && Run(actions).threads[delete].call.Delete?
    requires KeyOf(Run(actions).threads[delete].call.edge) == k && Run(actions).threads[delete].call.edge.obj.Node?
    requires Run(actions).threads[delete].pc == AtIndex || Run(actions).threads[delete].pc == AtObject
    ensures actions <= longer && HiddenFromObject(Run(longer), k)
    ensures HasReturned(Run(longer), insert) && HasReturned(Run(longer), delete)
  {
    var e, d := Run(actions).threads[insert].call.edge, Run(actions).threads[delete].call.edge;
    longer := Drain(actions, Readers(Run(actions)));
    longer := DeleteFinishes(longer, delete, d);
    longer := InsertFinishes(longer, insert, e);
  }

  /** Such a state is reached: an edge that `exists` finds can stay out of every index. */
  lemma RacingDeleteHidesAnEdge()
    ensures exists actions, k ::
      HiddenFromSubject(Run(actions), k) && forall tid :: tid in Run(actions).threads ==> HasReturned(Run(actions), tid)
  {
    var n := GraphNode([97], [97]);
    var e := GraphEdge(n, n, Literal([120], None));
    var a0: seq<Action> := [] + [Start(0, Insert(e))];
    var a1 := a0 + [Start(1, Delete(e))];
    var a2 := a1 + [Step(0)];
    RunStep([], Start(0, Insert(e)));
    RunStep(a0, Start(1, Delete(e)));
    RunStep(a1, Step(0));
    assert Run(a2).threads == map[0 := Thread(Insert(e), AtEdges), 1 := Thread(Delete(e), AtIndex)];
    assert Readers(Run(a2)) == {};
    var a3 := DeleteFinishes(a2, 1, e);
    var a4 := InsertFinishes(a3, 0, e);
    assert HiddenFromSubject(Run(a4), KeyOf(e));
  }
}
