/** Concurrent `resolve`, `resolve_manual` and `dismiss` calls.

A successful call is three lock regions: close the conflict in the active list, remove it from
the active list, append it to the history. Other calls run between them. `log`, `detected` and
`accepted` are history variables: every conflict ever pushed to the history, every id ever
detected, and the id of every call that got past its first region and so will return Ok. */
module ConflictInterleaving {
  import opened Wrappers
  import FiniteSets
  import opened ConflictResolver

  type Tid = nat

  datatype Phase = Marked | Removed

  datatype Mover = Mover(c: Conflict, phase: Phase)

  datatype State = State(
    active: seq<Conflict>,
    history: seq<Conflict>,
    movers: map<Tid, Mover>,
    log: seq<Conflict>,
    detected: set<nat>,
    accepted: seq<nat>)

  /** A call with its arguments. */
  datatype Call =
    | Resolve(requested: Option<Policy>, now: int)
    | ResolveManual(winner: Modality, resolver: string, notes: Option<string>, now: int)
    | Dismiss(reason: string, now: int)

  datatype Action =
    | Detect(c: Conflict)
    | Begin(tid: Tid, id: nat, call: Call, out: Region)
    | Remove(tid: Tid)
    | Push(tid: Tid)

  const INIT := State([], [], map[], [], {}, [])

  /** The call on conflict `id` can leave `out` behind under the active lock. */
  ghost predicate IsRegion(cfg: Config, active: seq<Conflict>, id: nat, call: Call, out: Region) {
    match call
    case Resolve(requested, now) => ResolveRegion(cfg, active, id, requested, now, out)
    case ResolveManual(winner, resolver, notes, now) =>
      out == ManualRegion(active, id, winner, resolver, notes, now)
    case Dismiss(reason, now) => out == DismissRegion(active, id, reason, now)
  }

  ghost predicate Step(cfg: Config, s: State, a: Action, s': State) {
    match a
    case Detect(c) =>
      && c.id !in s.detected && c.status == Open && c.resolution == None
      && s' == s.(active := s.active + [c], detected := s.detected + {c.id})
    case Begin(tid, id, call, out) =>
      && tid !in s.movers && IsRegion(cfg, s.active, id, call, out)
      && s' == if out.outcome.Err? then s.(active := out.active)
               else s.(active := out.active,
                       movers := s.movers[tid := Mover(out.outcome.value, Marked)],
                       accepted := s.accepted + [id])
    case Remove(tid) =>
      && tid in s.movers && s.movers[tid].phase == Marked
      && s' == s.(active := Without(s.active, s.movers[tid].c.id),
                  movers := s.movers[tid := Mover(s.movers[tid].c, Removed)])
    case Push(tid) =>
      && tid in s.movers && s.movers[tid].phase == Removed
      && s' == s.(history := LastN(cfg.maxHistory, s.history + [s.movers[tid].c]),
                  log := s.log + [s.movers[tid].c],
                  movers := s.movers - {tid})
  }

  ghost predicate IsRun(cfg: Config, states: seq<State>, actions: seq<Action>) {
    && |states| == |actions| + 1 && states[0] == INIT
    && forall i :: 0 <= i < |actions| ==> Step(cfg, states[i], actions[i], states[i + 1])
  }

  // ----- What the first region does

  /** The resolution of a closed conflict is one its policy allows. */
  ghost predicate Justified(cfg: Config, c: Conflict) {
    && Closed(c) && c.resolution.Some?
    && var r := c.resolution.value;
       && (r.winner.Some? ==> r.winner.value in c.modalities)
       && (c.status == Resolved ==>
             if r.policyUsed == ManualResolve then r.winner.Some?
             else
               && c.driftScore < cfg.requireManualAbove && !r.policyUsed.Custom?
               && Chooses(r.policyUsed, c.modalities, r.winner))
  }

  /** A region changes at most the status of one open conflict, and closes it exactly on success. */
  ghost predicate Shape(cfg: Config, active: seq<Conflict>, id: nat, out: Region, k: nat) {
    if out.outcome.Ok? then
      && k < |active| && active[k].id == id && !Closed(active[k])
      && out.active == active[k := out.outcome.value] && out.outcome.value.id == id && Justified(cfg, out.outcome.value)
    else
      || out.active == active
      || (k < |active| && !Closed(active[k]) && out.active == active[k := active[k].(status := InProgress)])
  }

  lemma RegionShape(cfg: Config, active: seq<Conflict>, id: nat, call: Call, out: Region)
    requires IsRegion(cfg, active, id, call, out)
    ensures exists k :: Shape(cfg, active, id, out, k)
  {
    var k := match Find(active, id) case None => 0 case Some(k) => k;
    assert Shape(cfg, active, id, out, k);
  }

  // ----- The invariant

  ghost predicate HasId(cs: seq<Conflict>, id: nat) {
    exists i :: 0 <= i < |cs| && cs[i].id == id
  }

  ghost predicate Moving(s: State, id: nat) {
    exists tid :: tid in s.movers && s.movers[tid].c.id == id
  }

  ghost predicate NoDuplicates(ids: seq<nat>) {
    forall i, j :: 0 <= i < j < |ids| ==> ids[i] != ids[j]
  }

  /** Some call has marked `c` and is about to remove it. */
  ghost predicate Carried(s: State, c: Conflict) {
    exists tid :: tid in s.movers && s.movers[tid] == Mover(c, Marked)
  }

  ghost predicate ActiveOk(s: State) {
    && DistinctIds(s.active)
    && (forall c :: c in s.active ==> c.id in s.detected && (Closed(c) ==> Carried(s, c)))
  }

  ghost predicate MoverOk(cfg: Config, s: State, m: Mover) {
    && Justified(cfg, m.c) && m.c.id in s.detected && !HasId(s.log, m.c.id)
    && (if m.phase == Marked then m.c in s.active else !HasId(s.active, m.c.id))
  }

  ghost predicate MoversOk(cfg: Config, s: State) {
    && (forall tid :: tid in s.movers ==> MoverOk(cfg, s, s.movers[tid]))
    && (forall t, u :: t in s.movers && u in s.movers && t != u ==> s.movers[t].c.id != s.movers[u].c.id)
  }

  ghost predicate LogOk(cfg: Config, s: State) {
    && DistinctIds(s.log)
    && s.history == LastN(cfg.maxHistory, s.log)
    && forall c :: c in s.log ==> c.id in s.detected && !HasId(s.active, c.id) && Justified(cfg, c)
  }

  ghost predicate AccountsOk(s: State) {
    && (forall id :: id in s.detected ==> HasId(s.active, id) || Moving(s, id) || HasId(s.log, id))
    && NoDuplicates(s.accepted)
    && (forall id :: id in s.accepted <==> Moving(s, id) || HasId(s.log, id))
  }

  ghost predicate Inv(cfg: Config, s: State) {
    ActiveOk(s) && MoversOk(cfg, s) && LogOk(cfg, s) && AccountsOk(s)
  }

  lemma LogIdsAreElsewhere(cfg: Config, s: State, id: nat)
    requires Inv(cfg, s) && HasId(s.log, id)
    ensures !HasId(s.active, id) && !Moving(s, id) && id in s.detected
  {
    var j :| 0 <= j < |s.log| && s.log[j].id == id;
    assert s.log[j] in s.log;
    forall t | t in s.movers ensures s.movers[t].c.id != id {
      assert MoverOk(cfg, s, s.movers[t]);
    }
  }

  /** An open conflict in the active list has no mover, so nothing was accepted for it yet. */
  lemma NobodyMovesOpen(cfg: Config, s: State, k: nat)
    requires Inv(cfg, s) && k < |s.active| && !Closed(s.active[k])
    ensures !Moving(s, s.active[k].id) && !HasId(s.log, s.active[k].id) && s.active[k].id !in s.accepted
  {
    var id := s.active[k].id;
    assert HasId(s.active, id);
    forall t | t in s.movers ensures s.movers[t].c.id != id {
      assert MoverOk(cfg, s, s.movers[t]);
      if s.movers[t].phase == Marked {
        var i :| 0 <= i < |s.active| && s.active[i] == s.movers[t].c;
        assert i != k;
      }
    }
    forall j | 0 <= j < |s.log| ensures s.log[j].id != id {
      assert s.log[j] in s.log;
    }
  }

  lemma SameIds(cs: seq<Conflict>, ds: seq<Conflict>)
    requires |cs| == |ds| && forall i :: 0 <= i < |cs| ==> cs[i].id == ds[i].id
    ensures forall id :: HasId(cs, id) <==> HasId(ds, id)
  {
    forall id ensures HasId(cs, id) <==> HasId(ds, id) {
      if HasId(cs, id) {
        var i :| 0 <= i < |cs| && cs[i].id == id;
        assert ds[i].id == id;
      }
      if HasId(ds, id) {
        var i :| 0 <= i < |ds| && ds[i].id == id;
        assert cs[i].id == id;
      }
    }
  }

  lemma AppendedId(cs: seq<Conflict>, c: Conflict)
    ensures forall id :: HasId(cs + [c], id) <==> HasId(cs, id) || id == c.id
  {
    forall id ensures HasId(cs + [c], id) <==> HasId(cs, id) || id == c.id {
      if HasId(cs, id) {
        var i :| 0 <= i < |cs| && cs[i].id == id;
        assert (cs + [c])[i].id == id;
      }
      assert (cs + [c])[|cs|].id == c.id;
    }
  }

  lemma WithoutId(cs: seq<Conflict>, gone: nat)
    ensures forall id :: HasId(Without(cs, gone), id) <==> HasId(cs, id) && id != gone
  {
    forall id ensures HasId(Without(cs, gone), id) <==> HasId(cs, id) && id != gone {
      if HasId(cs, id) && id != gone {
        var i :| 0 <= i < |cs| && cs[i].id == id;
        assert cs[i] in Without(cs, gone);
      }
      if HasId(Without(cs, gone), id) {
        var i :| 0 <= i < |Without(cs, gone)| && Without(cs, gone)[i].id == id;
        assert Without(cs, gone)[i] in cs;
      }
    }
  }

  lemma DetectKeeps(cfg: Config, s: State, a: Action, s': State)
    requires Inv(cfg, s) && a.Detect? && Step(cfg, s, a, s')
    ensures Inv(cfg, s')
  {
    AppendedId(s.active, a.c);
    forall c | c in s'.active ensures c.id in s'.detected && (Closed(c) ==> Carried(s', c)) {
      if c in s.active && Closed(c) {
        assert Carried(s, c);
      }
    }
    forall tid | tid in s'.movers ensures MoverOk(cfg, s', s'.movers[tid]) {
      assert MoverOk(cfg, s, s.movers[tid]);
    }
    forall id ensures Moving(s', id) <==> Moving(s, id) {}
  }

  lemma BeginErrKeeps(cfg: Config, s: State, a: Action, s': State)
    requires Inv(cfg, s) && a.Begin? && a.out.outcome.Err? && Step(cfg, s, a, s')
    ensures Inv(cfg, s')
  {
    RegionShape(cfg, s.active, a.id, a.call, a.out);
    var k: nat :| Shape(cfg, s.active, a.id, a.out, k);
    SameIds(s.active, s'.active);
    BeginErrMovers(cfg, s, a, s', k);
    forall c | c in s'.active && Closed(c) ensures Carried(s', c) {
      assert c in s.active && Carried(s, c);
    }
    forall id ensures Moving(s', id) <==> Moving(s, id) {}
  }

  lemma BeginErrMovers(cfg: Config, s: State, a: Action, s': State, k: nat)
    requires Inv(cfg, s) && a.Begin? && a.out.outcome.Err? && Step(cfg, s, a, s')
    requires Shape(cfg, s.active, a.id, a.out, k)
    ensures MoversOk(cfg, s')
  {
    SameIds(s.active, s'.active);
    forall tid | tid in s'.movers ensures MoverOk(cfg, s', s'.movers[tid]) {
      assert MoverOk(cfg, s, s.movers[tid]);
      if s.movers[tid].phase == Marked {
        var i :| 0 <= i < |s.active| && s.active[i] == s.movers[tid].c;
        assert s'.active[i] == s.movers[tid].c;
      }
    }
  }

  lemma BeginOkMovers(cfg: Config, s: State, a: Action, s': State, k: nat)
    requires Inv(cfg, s) && a.Begin? && a.out.outcome.Ok? && Step(cfg, s, a, s')
    requires Shape(cfg, s.active, a.id, a.out, k)
    ensures MoversOk(cfg, s')
  {
    SameIds(s.active, s'.active);
    NobodyMovesOpen(cfg, s, k);
    assert HasId(s.active, a.id) && s.active[k] in s.active;
    forall tid | tid in s'.movers ensures MoverOk(cfg, s', s'.movers[tid]) {
      if tid == a.tid {
        assert s'.active[k] == a.out.outcome.value;
      } else {
        assert MoverOk(cfg, s, s.movers[tid]);
        if s.movers[tid].phase == Marked {
          var i :| 0 <= i < |s.active| && s.active[i] == s.movers[tid].c;
          assert s'.active[i] == s.movers[tid].c;
        }
      }
    }
  }

  lemma BeginOkMoving(cfg: Config, s: State, a: Action, s': State, k: nat)
    requires a.Begin? && a.out.outcome.Ok? && Step(cfg, s, a, s') && Shape(cfg, s.active, a.id, a.out, k)
    ensures forall id :: Moving(s', id) <==> Moving(s, id) || id == a.id
  {
    forall id ensures Moving(s', id) <==> Moving(s, id) || id == a.id {
      assert s'.movers[a.tid].c.id == a.id;
      if Moving(s, id) {
        var t :| t in s.movers && s.movers[t].c.id == id;
        assert s'.movers[t].c.id == id;
      }
    }
  }

  lemma BeginOkActive(cfg: Config, s: State, a: Action, s': State, k: nat)
    requires Inv(cfg, s) && a.Begin? && a.out.outcome.Ok? && Step(cfg, s, a, s')
    requires Shape(cfg, s.active, a.id, a.out, k)
    ensures ActiveOk(s')
  {
    assert s.active[k] in s.active;
    forall d | d in s'.active ensures d.id in s'.detected && (Closed(d) ==> Carried(s', d)) {
      if d == a.out.outcome.value {
        assert s'.movers[a.tid] == Mover(d, Marked);
      } else {
        assert d in s.active;
        if Closed(d) {
          var t :| t in s.movers && s.movers[t] == Mover(d, Marked);
          assert s'.movers[t] == Mover(d, Marked);
        }
      }
    }
  }

  lemma BeginOkKeeps(cfg: Config, s: State, a: Action, s': State)
    requires Inv(cfg, s) && a.Begin? && a.out.outcome.Ok? && Step(cfg, s, a, s')
    ensures Inv(cfg, s')
  {
    RegionShape(cfg, s.active, a.id, a.call, a.out);
    var k: nat :| Shape(cfg, s.active, a.id, a.out, k);
    SameIds(s.active, s'.active);
    NobodyMovesOpen(cfg, s, k);
    BeginOkMovers(cfg, s, a, s', k);
    BeginOkMoving(cfg, s, a, s', k);
    BeginOkActive(cfg, s, a, s', k);
  }

  lemma RemoveMovers(cfg: Config, s: State, a: Action, s': State)
    requires Inv(cfg, s) && a.Remove? && Step(cfg, s, a, s')
    ensures MoversOk(cfg, s')
    ensures forall id :: Moving(s', id) <==> Moving(s, id)
  {
    WithoutId(s.active, s.movers[a.tid].c.id);
    forall tid | tid in s'.movers ensures MoverOk(cfg, s', s'.movers[tid]) {
      assert MoverOk(cfg, s, s.movers[tid]);
    }
    forall id ensures Moving(s', id) <==> Moving(s, id) {
      if Moving(s, id) {
        var t :| t in s.movers && s.movers[t].c.id == id;
        assert s'.movers[t].c.id == id;
      }
    }
  }

  lemma RemoveKeeps(cfg: Config, s: State, a: Action, s': State)
    requires Inv(cfg, s) && a.Remove? && Step(cfg, s, a, s')
    ensures Inv(cfg, s')
  {
    assert MoverOk(cfg, s, s.movers[a.tid]);
    WithoutId(s.active, s.movers[a.tid].c.id);
    RemoveMovers(cfg, s, a, s');
    RemoveActive(cfg, s, a, s');
    hide MoversOk, ActiveOk, Closed, Justified, HasId, Moving;
  }

  lemma RemoveActive(cfg: Config, s: State, a: Action, s': State)
    requires ActiveOk(s) && a.Remove? && Step(cfg, s, a, s')
    ensures ActiveOk(s')
  {
    forall d | d in s'.active && Closed(d) ensures Carried(s', d) {
      var t :| t in s.movers && s.movers[t] == Mover(d, Marked);
      assert s'.movers[t] == Mover(d, Marked);
    }
  }

  lemma PushMovers(cfg: Config, s: State, a: Action, s': State)
    requires Inv(cfg, s) && a.Push? && Step(cfg, s, a, s')
    ensures MoversOk(cfg, s')
    ensures forall id :: Moving(s, id) <==> Moving(s', id) || id == s.movers[a.tid].c.id
  {
    AppendedId(s.log, s.movers[a.tid].c);
    forall tid | tid in s'.movers ensures MoverOk(cfg, s', s'.movers[tid]) {
      assert MoverOk(cfg, s, s.movers[tid]);
    }
    forall id ensures Moving(s, id) <==> Moving(s', id) || id == s.movers[a.tid].c.id {
      if Moving(s, id) && id != s.movers[a.tid].c.id {
        var t :| t in s.movers && s.movers[t].c.id == id;
        assert s'.movers[t].c.id == id;
      }
    }
  }

  lemma PushLog(cfg: Config, s: State, a: Action, s': State)
    requires Inv(cfg, s) && a.Push? && Step(cfg, s, a, s')
    ensures LogOk(cfg, s')
  {
    assert MoverOk(cfg, s, s.movers[a.tid]);
    LastNAppends(cfg.maxHistory, s.log, s.movers[a.tid].c);
    assert forall i :: 0 <= i < |s.log| ==> s'.log[i] == s.log[i] && HasId(s.log, s.log[i].id);
  }

  lemma PushKeeps(cfg: Config, s: State, a: Action, s': State)
    requires Inv(cfg, s) && a.Push? && Step(cfg, s, a, s')
    ensures Inv(cfg, s')
  {
    AppendedId(s.log, s.movers[a.tid].c);
    PushMovers(cfg, s, a, s');
    PushLog(cfg, s, a, s');
    forall d | d in s'.active && Closed(d) ensures Carried(s', d) {
      assert MoverOk(cfg, s, s.movers[a.tid]);
      var t :| t in s.movers && s.movers[t] == Mover(d, Marked);
      assert s'.movers[t] == Mover(d, Marked);
    }
  }

  /** Trimming after every push keeps the same suffix as trimming once at the end. */
  lemma LastNAppends(n: nat, cs: seq<Conflict>, c: Conflict)
    ensures LastN(n, LastN(n, cs) + [c]) == LastN(n, cs + [c])
  {
  }

  lemma {:induction false} RunsKeepInv(cfg: Config, states: seq<State>, actions: seq<Action>, i: nat)
    requires IsRun(cfg, states, actions) && i < |states|
    ensures Inv(cfg, states[i])
  {
    if i > 0 {
      RunsKeepInv(cfg, states, actions, i - 1);
      var s, a, s' := states[i - 1], actions[i - 1], states[i];
      assert Step(cfg, s, a, states[i - 1 + 1]);
      match a {
        case Detect(_) => DetectKeeps(cfg, s, a, s');
        case Begin(_, _, _, out) =>
          if out.outcome.Err? {
            BeginErrKeeps(cfg, s, a, s');
          } else {
            BeginOkKeeps(cfg, s, a, s');
          }
        case Remove(_) => RemoveKeeps(cfg, s, a, s');
        case Push(_) => PushKeeps(cfg, s, a, s');
      }
    }
  }

  // ----- What holds in every run

  ghost predicate Live(s: State, id: nat) {
    exists i :: 0 <= i < |s.active| && s.active[i].id == id && !Closed(s.active[i])
  }

  ghost predicate BeingMarked(s: State, id: nat) {
    exists tid :: tid in s.movers && s.movers[tid].c.id == id && s.movers[tid].phase == Marked
  }

  ghost predicate InFlight(s: State, id: nat) {
    exists tid :: tid in s.movers && s.movers[tid].c.id == id && s.movers[tid].phase == Removed
  }

  ghost predicate Evicted(s: State, id: nat) {
    HasId(s.log, id) && !HasId(s.history, id)
  }

  /** In every interleaving each detected conflict is in exactly one place: live, marked by its
      one mover, in flight between the two locks, in the history, or evicted from it. */
  lemma EachConflictIsInOnePlace(cfg: Config, states: seq<State>, actions: seq<Action>, i: nat, id: nat)
    requires IsRun(cfg, states, actions) && i < |states| && id in states[i].detected
    ensures
      var s := states[i];
      FiniteSets.One(Live(s, id)) + FiniteSets.One(BeingMarked(s, id)) + FiniteSets.One(InFlight(s, id))
        + FiniteSets.One(HasId(s.history, id)) + FiniteSets.One(Evicted(s, id)) == 1
  {
    RunsKeepInv(cfg, states, actions, i);
    var s := states[i];
    assert HasId(s.history, id) ==> HasId(s.log, id);
    if HasId(s.log, id) {
      LogIdsAreElsewhere(cfg, s, id);
      assert !Live(s, id) && !BeingMarked(s, id) && !InFlight(s, id);
      assert HasId(s.history, id) != Evicted(s, id);
    } else if Moving(s, id) {
      var t :| t in s.movers && s.movers[t].c.id == id;
      assert MoverOk(cfg, s, s.movers[t]);
      assert !Live(s, id) by {
        if Live(s, id) {
          var k :| 0 <= k < |s.active| && s.active[k].id == id && !Closed(s.active[k]);
          NobodyMovesOpen(cfg, s, k);
        }
      }
      assert BeingMarked(s, id) <==> s.movers[t].phase == Marked;
      assert InFlight(s, id) <==> s.movers[t].phase == Removed;
    } else {
      var k :| 0 <= k < |s.active| && s.active[k].id == id;
      assert s.active[k] in s.active;
      assert Live(s, id);
    }
  }

  /** Nothing is in two entries of a list, nor carried by two movers. */
  lemma PlacesHoldConflictsOnce(cfg: Config, states: seq<State>, actions: seq<Action>, i: nat)
    requires IsRun(cfg, states, actions) && i < |states|
    ensures DistinctIds(states[i].active) && DistinctIds(states[i].history)
    ensures forall t, u :: t in states[i].movers && u in states[i].movers && t != u ==>
      states[i].movers[t].c.id != states[i].movers[u].c.id
  {
    RunsKeepInv(cfg, states, actions, i);
  }

  /** At most one resolution or dismissal ever succeeds for a conflict. */
  lemma AtMostOneSuccess(cfg: Config, states: seq<State>, actions: seq<Action>, i: nat, j: nat)
    requires IsRun(cfg, states, actions) && i < j < |actions|
    requires actions[i].Begin? && actions[i].out.outcome.Ok?
    requires actions[j].Begin? && actions[j].out.outcome.Ok?
    ensures actions[i].id != actions[j].id
  {
    assert Step(cfg, states[i], actions[i], states[i + 1]);
    assert Step(cfg, states[j], actions[j], states[j + 1]);
    var id := actions[i].id;
    assert states[i + 1].accepted[|states[i].accepted|] == id;
    AcceptedGrows(cfg, states, actions, i + 1, j);
    RunsKeepInv(cfg, states, actions, j);
    RegionShape(cfg, states[j].active, actions[j].id, actions[j].call, actions[j].out);
    var k: nat :| Shape(cfg, states[j].active, actions[j].id, actions[j].out, k);
    NobodyMovesOpen(cfg, states[j], k);
  }

  lemma {:induction false} AcceptedGrows(cfg: Config, states: seq<State>, actions: seq<Action>, i: nat, j: nat)
    requires IsRun(cfg, states, actions) && i <= j < |states|
    ensures states[i].accepted <= states[j].accepted
    decreases j
  {
    if i < j {
      AcceptedGrows(cfg, states, actions, i, j - 1);
      assert Step(cfg, states[j - 1], actions[j - 1], states[j - 1 + 1]);
    }
  }

  /** The history is the last `maxHistory` completed conflicts, in completion order, and what
      `history(limit)` returns is the reverse of the last `limit` of those. */
  lemma HistoryIsLogSuffix(cfg: Config, states: seq<State>, actions: seq<Action>, i: nat, limit: nat)
    requires IsRun(cfg, states, actions) && i < |states|
    ensures states[i].history == LastN(cfg.maxHistory, states[i].log)
    ensures
      Reversed(LastN(limit, states[i].history))
      == Reversed(LastN(if limit < cfg.maxHistory then limit else cfg.maxHistory, states[i].log))
  {
    RunsKeepInv(cfg, states, actions, i);
    assert LastN(limit, states[i].history) ==
      LastN(if limit < cfg.maxHistory then limit else cfg.maxHistory, states[i].log);
  }

  /** A resolved entry not decided by hand had drift below the manual threshold, and its winner is
      what its policy chooses: one of its own modalities, of least rank under a priority order. */
  lemma HistoryIsJustified(cfg: Config, states: seq<State>, actions: seq<Action>, i: nat, c: Conflict)
    requires IsRun(cfg, states, actions) && i < |states| && c in states[i].history
    ensures Justified(cfg, c)
  {
    RunsKeepInv(cfg, states, actions, i);
    assert c in states[i].log;
  }

  // ----- What the calls recorded

  /** `c` is what some earlier call made of its conflict. */
  ghost predicate CameFrom(actions: seq<Action>, i: nat, c: Conflict) {
    exists j :: 0 <= j < i && j < |actions| && actions[j].Begin? && actions[j].out.outcome == Ok(c)
  }

  lemma {:induction false} EntriesComeFromCalls(cfg: Config, states: seq<State>, actions: seq<Action>, i: nat)
    requires IsRun(cfg, states, actions) && i < |states|
    ensures forall c :: c in states[i].log ==> CameFrom(actions, i, c)
    ensures forall tid :: tid in states[i].movers ==> CameFrom(actions, i, states[i].movers[tid].c)
  {
    if i > 0 {
      EntriesComeFromCalls(cfg, states, actions, i - 1);
      var s, a, s' := states[i - 1], actions[i - 1], states[i];
      assert Step(cfg, s, a, states[i - 1 + 1]);
      hide Step, IsRegion;
      StepAddsOnlyIts(cfg, s, a, s');
      forall c | c in s'.log ensures CameFrom(actions, i, c) {
        assert CameFrom(actions, i - 1, c);
      }
      forall tid | tid in s'.movers ensures CameFrom(actions, i, s'.movers[tid].c) {
        if tid in s.movers && s'.movers[tid].c == s.movers[tid].c {
          assert CameFrom(actions, i - 1, s.movers[tid].c);
        }
      }
    }
  }

  lemma StepAddsOnlyIts(cfg: Config, s: State, a: Action, s': State)
    requires Step(cfg, s, a, s')
    ensures forall c :: c in s'.log ==> c in s.log || exists tid :: tid in s.movers && s.movers[tid].c == c
    ensures forall tid :: tid in s'.movers ==>
      || (tid in s.movers && s'.movers[tid].c == s.movers[tid].c)
      || (a.Begin? && a.out.outcome == Ok(s'.movers[tid].c))
  {
  }

  /** What `c` records if it was closed by this call. */
  ghost predicate Records(cfg: Config, call: Call, c: Conflict) {
    c.resolution.Some? &&
    var r := c.resolution.value;
    match call
    case Resolve(requested, now) =>
      && c.status == Resolved && r.resolvedAt == now && r.resolver == "system" && r.notes == None
      && Decides(cfg, c, requested, r.policyUsed) && !IsEscalated(cfg, c, r.policyUsed)
      && Chooses(r.policyUsed, c.modalities, r.winner)
    case ResolveManual(winner, resolver, notes, now) =>
      c.status == Resolved && r == Resolution(now, Policy.ManualResolve, Some(winner), resolver, notes)
    case Dismiss(reason, now) =>
      && c.status == Dismissed
      && r == Resolution(now, LastWriterWins, None, "system", Some("Dismissed: " + reason))
  }

  lemma RegionRecords(cfg: Config, active: seq<Conflict>, id: nat, call: Call, out: Region)
    requires DistinctIds(active) && IsRegion(cfg, active, id, call, out) && out.outcome.Ok?
    ensures Records(cfg, call, out.outcome.value)
  {
  }

  /** In every interleaving each conflict in the history is what exactly one accepted call made of it:
      its resolution holds the arguments of that call. */
  lemma HistoryHoldsCalls(cfg: Config, states: seq<State>, actions: seq<Action>, i: nat, c: Conflict)
    requires IsRun(cfg, states, actions) && i < |states| && c in states[i].history
    ensures exists j :: 0 <= j < i && actions[j].Begin? && actions[j].id == c.id && Records(cfg, actions[j].call, c)
  {
    RunsKeepInv(cfg, states, actions, i);
    assert c in states[i].log;
    EntriesComeFromCalls(cfg, states, actions, i);
    var j: nat :| j < i && actions[j].Begin? && actions[j].out.outcome == Ok(c);
    RunsKeepInv(cfg, states, actions, j);
    assert Step(cfg, states[j], actions[j], states[j + 1]);
    RegionRecords(cfg, states[j].active, actions[j].id, actions[j].call, actions[j].out);
    RegionShape(cfg, states[j].active, actions[j].id, actions[j].call, actions[j].out);
    assert actions[j].id == c.id;
  }
}
