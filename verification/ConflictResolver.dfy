/** Conflicts between modalities: detection, policy-based resolution, dismissal and history.

The functions describe what one lock region does to the active list or to the history. The class
runs the regions in sequence; `ConflictInterleaving` runs them in every order. */
module ConflictResolver {
  import opened Wrappers

  datatype Modality = Graph | Vector | Tensor | Semantic | Document | Temporal | Provenance | Spatial

  datatype Policy =
    | LastWriterWins
    | ModalityPriority(order: seq<Modality>)
    | ManualResolve
    | AutoMerge
    | Custom(name: string)

  datatype Status = Open | InProgress | Resolved | Dismissed

  datatype Resolution = Resolution(
    resolvedAt: int,
    policyUsed: Policy,
    winner: Option<Modality>,
    resolver: string,
    notes: Option<string>)

  datatype Conflict = Conflict(
    id: nat,
    entity: string,
    detectedAt: int,
    modalities: seq<Modality>,
    driftScore: real,
    description: string,
    status: Status,
    resolution: Option<Resolution>)

  datatype Config = Config(
    defaultPolicy: Policy,
    pairPolicies: map<(Modality, Modality), Policy>,
    requireManualAbove: real,
    maxHistory: nat)

  datatype Error = NotFound | AlreadyResolved | InvalidPolicy | ModalityNotInConflict

  predicate Closed(c: Conflict) {
    c.status == Resolved || c.status == Dismissed
  }

  // ----- Choosing a policy

  /** The override for a pair of modalities, in either order. */
  function PairPolicy(cfg: Config, a: Modality, b: Modality): Option<Policy> {
    if (a, b) in cfg.pairPolicies then Some(cfg.pairPolicies[(a, b)])
    else if (b, a) in cfg.pairPolicies then Some(cfg.pairPolicies[(b, a)])
    else None
  }

  /** No pair of positions before (i, j), read row by row, has an override. */
  ghost predicate NoOverrideBefore(cfg: Config, ms: seq<Modality>, i: nat, j: nat) {
    forall k, l :: 0 <= k < l < |ms| && (k < i || (k == i && l < j)) ==> PairPolicy(cfg, ms[k], ms[l]) == None
  }

  /** `p` is the override of the first pair of modalities that has one, else the default. */
  ghost predicate Selects(cfg: Config, ms: seq<Modality>, p: Policy) {
    || (exists i, j :: 0 <= i < j < |ms| && NoOverrideBefore(cfg, ms, i, j) && PairPolicy(cfg, ms[i], ms[j]) == Some(p))
    || (NoOverrideBefore(cfg, ms, |ms|, 0) && p == cfg.defaultPolicy)
  }

  lemma SelectionIsUnique(cfg: Config, ms: seq<Modality>, p: Policy, q: Policy)
    requires Selects(cfg, ms, p) && Selects(cfg, ms, q)
    ensures p == q
  {
  }

  method SelectPolicy(cfg: Config, ms: seq<Modality>) returns (p: Policy)
    ensures Selects(cfg, ms, p)
  {
    for i := 0 to |ms|
      invariant NoOverrideBefore(cfg, ms, i, 0)
    {
      for j := i + 1 to |ms|
        invariant NoOverrideBefore(cfg, ms, i, j)
      {
        var override := PairPolicy(cfg, ms[i], ms[j]);
        if override.Some? {
          return override.value;
        }
      }
      assert NoOverrideBefore(cfg, ms, i + 1, 0);
    }
    p := cfg.defaultPolicy;
  }

  // ----- Applying a policy

  /** The position of `m` in a priority order. */
  function Rank(order: seq<Modality>, m: Modality): (r: Option<nat>)
    ensures r.Some? <==> m in order
    ensures r.Some? ==> r.value < |order| && order[r.value] == m && m !in order[..r.value]
  {
    if order == [] then None
    else if order[0] == m then Some(0)
    else match Rank(order[1..], m)
      case None => None
      case Some(k) => assert order[..k + 1] == [order[0]] + order[1..][..k]; Some(k + 1)
  }

  /** Whether `winner` is what `policy` chooses among the conflicting modalities. */
  ghost predicate Chooses(policy: Policy, ms: seq<Modality>, winner: Option<Modality>) {
    match policy
    case LastWriterWins =>
      winner == if ms == [] then None else Some(ms[|ms| - 1])
    case ModalityPriority(order) =>
      if exists m :: m in ms && m in order then
        && winner.Some? && winner.value in ms && winner.value in order
        && forall m :: m in ms && m in order ==> Rank(order, winner.value).value <= Rank(order, m).value
      else winner == if ms == [] then None else Some(ms[0])
    case _ => winner == None
  }

  lemma ChoiceIsUnique(policy: Policy, ms: seq<Modality>, v: Option<Modality>, w: Option<Modality>)
    requires Chooses(policy, ms, v) && Chooses(policy, ms, w)
    ensures v == w
  {
  }

  /** The last writer is the last modality of the conflict. */
  lemma LastIsChosen(before: seq<Modality>, m: Modality)
    ensures Chooses(LastWriterWins, before + [m], Some(m)) && Chooses(LastWriterWins, [], None)
  {
  }

  /** A priority order chooses its first member that is in the conflict. */
  lemma FirstInOrderIsChosen(before: seq<Modality>, m: Modality, after: seq<Modality>, ms: seq<Modality>)
    requires m in ms && forall x :: x in before ==> x !in ms
    ensures Chooses(ModalityPriority(before + ([m] + after)), ms, Some(m))
  {
    var order := before + ([m] + after);
    assert order[|before|] == m && m in order;
    forall x | x in ms && x in order ensures |before| <= Rank(order, x).value {
      assert order[Rank(order, x).value] == x;
    }
  }

  /** An order without any of them chooses the first modality of the conflict. */
  lemma FirstIsChosenWithoutOrder(order: seq<Modality>, m: Modality, rest: seq<Modality>)
    requires forall x :: x in [m] + rest ==> x !in order
    ensures Chooses(ModalityPriority(order), [m] + rest, Some(m)) && Chooses(ModalityPriority(order), [], None)
  {
  }

  method ApplyPolicy(c: Conflict, policy: Policy, now: int) returns (r: Resolution)
    ensures Chooses(policy, c.modalities, r.winner)
    ensures r.resolvedAt == now && r.policyUsed == policy && r.resolver == "system" && r.notes == None
  {
    var ms := c.modalities;
    var winner: Option<Modality>;
    match policy {
      case LastWriterWins =>
        winner := if ms == [] then None else Some(ms[|ms| - 1]);
      case ModalityPriority(order) =>
        var best: Option<(nat, Modality)> := None;
        for i := 0 to |ms|
          invariant best == None ==> forall m :: m in ms[..i] ==> m !in order
          invariant best.Some? ==> best.value.1 in ms && Rank(order, best.value.1) == Some(best.value.0)
          invariant best.Some? ==> forall m :: m in ms[..i] && m in order ==> best.value.0 <= Rank(order, m).value
        {
          assert ms[..i + 1] == ms[..i] + [ms[i]];
          var idx := Rank(order, ms[i]);
          if idx.Some? {
            if best == None || idx.value < best.value.0 {
              best := Some((idx.value, ms[i]));
            }
          }
        }
        assert ms[..|ms|] == ms;
        winner := if best.Some? then Some(best.value.1) else if ms == [] then None else Some(ms[0]);
      case _ =>
        winner := None;
    }
    r := Resolution(now, policy, winner, "system", None);
  }

  // ----- The lock regions

  /** Position of the first active conflict with the given id. */
  function Find(active: seq<Conflict>, id: nat): (r: Option<nat>)
    ensures r.Some? ==> r.value < |active| && active[r.value].id == id
    ensures r.Some? ==> forall i :: 0 <= i < r.value ==> active[i].id != id
    ensures r.None? ==> forall c :: c in active ==> c.id != id
  {
    if active == [] then None
    else if active[0].id == id then Some(0)
    else match Find(active[1..], id)
      case None => None
      case Some(k) => Some(k + 1)
  }

  /** What a call leaves in the active list while it holds the lock, and the closed conflict it
      then moves to the history if it succeeds. */
  datatype Region = Region(active: seq<Conflict>, outcome: Result<Conflict, Error>)

  function Close(active: seq<Conflict>, k: nat, status: Status, r: Resolution): Region
    requires k < |active|
  {
    var closed := active[k].(status := status, resolution := Some(r));
    Region(active[k := closed], Ok(closed))
  }

  /** What a call to `resolve` may do under the active lock. */
  ghost predicate ResolveRegion(cfg: Config, active: seq<Conflict>, id: nat, requested: Option<Policy>, now: int,
    out: Region)
  {
    match Find(active, id)
    case None => out == Region(active, Err(NotFound))
    case Some(k) =>
      var c := active[k];
      if Closed(c) then out == Region(active, Err(AlreadyResolved))
      else if c.driftScore >= cfg.requireManualAbove then
        out == Region(active[k := c.(status := InProgress)], Err(InvalidPolicy))
      else
        exists p :: (if requested.Some? then p == requested.value else Selects(cfg, c.modalities, p))
          && (if p.ManualResolve? || p.Custom? then
                out == Region(active[k := c.(status := InProgress)], Err(InvalidPolicy))
              else
                exists w :: Chooses(p, c.modalities, w)
                  && out == Close(active, k, Resolved, Resolution(now, p, w, "system", None)))
  }

  function ManualRegion(active: seq<Conflict>, id: nat, winner: Modality, resolver: string, notes: Option<string>,
    now: int): Region
  {
    match Find(active, id)
    case None => Region(active, Err(NotFound))
    case Some(k) =>
      if Closed(active[k]) then Region(active, Err(AlreadyResolved))
      else if winner !in active[k].modalities then Region(active, Err(ModalityNotInConflict))
      else Close(active, k, Resolved, Resolution(now, ManualResolve, Some(winner), resolver, notes))
  }

  function DismissRegion(active: seq<Conflict>, id: nat, reason: string, now: int): Region {
    match Find(active, id)
    case None => Region(active, Err(NotFound))
    case Some(k) =>
      if Closed(active[k]) then Region(active, Err(AlreadyResolved))
      else Close(active, k, Dismissed, Resolution(now, LastWriterWins, None, "system", Some("Dismissed: " + reason)))
  }

  /** The active list without the conflict `id`. */
  function Without(active: seq<Conflict>, id: nat): (r: seq<Conflict>)
    ensures forall c :: c in r <==> c in active && c.id != id
    ensures DistinctIds(active) ==> DistinctIds(r)
  {
    if active == [] then []
    else if active[0].id == id then Without(active[1..], id)
    else [active[0]] + Without(active[1..], id)
  }

  lemma {:induction false} WithoutAbsent(active: seq<Conflict>, id: nat)
    requires forall c :: c in active ==> c.id != id
    ensures Without(active, id) == active
  {
    if active != [] {
      WithoutAbsent(active[1..], id);
    }
  }

  lemma WithoutStep(active: seq<Conflict>, id: nat)
    requires active != []
    ensures Without(active, id) ==
      if active[0].id == id then Without(active[1..], id) else [active[0]] + Without(active[1..], id)
  {
  }

  lemma DistinctTail(active: seq<Conflict>)
    requires DistinctIds(active) && active != []
    ensures DistinctIds(active[1..]) && forall c :: c in active[1..] ==> c.id != active[0].id
  {
  }

  lemma CutFromTail<T>(s: seq<T>, k: nat)
    requires 0 < k < |s|
    ensures [s[0]] + (s[1..][..k - 1] + s[1..][k..]) == s[..k] + s[k + 1..]
  {
  }

  /** Exactly the one conflict is cut out, and the others keep their order. */
  lemma {:induction false} WithoutCutsOne(active: seq<Conflict>, k: nat)
    requires DistinctIds(active) && k < |active|
    ensures Without(active, active[k].id) == active[..k] + active[k + 1..]
  {
    hide DistinctIds, Without;
    var rest := active[1..];
    DistinctTail(active);
    WithoutStep(active, active[k].id);
    if k == 0 {
      WithoutAbsent(rest, active[0].id);
    } else {
      WithoutCutsOne(rest, k - 1);
      assert active[k] == rest[k - 1] && rest[k - 1] in rest;
      CutFromTail(active, k);
    }
  }

  /** Closing a conflict and cutting it out leaves the same list as cutting it out. */
  lemma ClosedIsCutOut(active: seq<Conflict>, k: nat, closed: Conflict)
    requires DistinctIds(active) && k < |active| && closed.id == active[k].id
    ensures Without(active[k := closed], closed.id) == Without(active, closed.id)
  {
    var changed := active[k := closed];
    assert DistinctIds(changed);
    WithoutCutsOne(active, k);
    WithoutCutsOne(changed, k);
    assert changed[..k] == active[..k] && changed[k + 1..] == active[k + 1..];
  }

  ghost predicate DistinctIds(cs: seq<Conflict>) {
    forall i, j :: 0 <= i < j < |cs| ==> cs[i].id != cs[j].id
  }

  /** The last `n` entries of a list. */
  function LastN(n: nat, cs: seq<Conflict>): (r: seq<Conflict>)
    ensures |r| == if |cs| <= n then |cs| else n
    ensures forall i :: 0 <= i < |r| ==> r[i] == cs[|cs| - |r| + i]
  {
    if |cs| <= n then cs else cs[|cs| - n..]
  }

  function Reversed(cs: seq<Conflict>): (r: seq<Conflict>)
    ensures |r| == |cs| && forall i :: 0 <= i < |cs| ==> r[i] == cs[|cs| - 1 - i]
  {
    if cs == [] then [] else Reversed(cs[1..]) + [cs[0]]
  }

  // ----- What a call leaves behind, told by its arguments

  /** The conflict `id` as it is stored: the only one with that id. */
  ghost predicate Holds(active: seq<Conflict>, id: nat, c: Conflict) {
    c in active && c.id == id
  }

  lemma FindHolds(active: seq<Conflict>, id: nat, c: Conflict)
    requires DistinctIds(active) && Holds(active, id, c)
    ensures Find(active, id).Some? && active[Find(active, id).value] == c
  {
    var i :| 0 <= i < |active| && active[i] == c;
  }

  /** A manual resolution succeeds exactly for an open conflict and one of its modalities, and then
      records exactly the winner, resolver and notes it was given. */
  lemma ManualIsRecorded(
    active: seq<Conflict>, id: nat, winner: Modality, resolver: string, notes: Option<string>, now: int, c: Conflict)
    requires DistinctIds(active) && Holds(active, id, c)
    ensures
      var out := ManualRegion(active, id, winner, resolver, notes, now).outcome;
      if Closed(c) then out == Err(AlreadyResolved)
      else if winner !in c.modalities then out == Err(ModalityNotInConflict)
      else out == Ok(Conflict(c.id, c.entity, c.detectedAt, c.modalities, c.driftScore, c.description, Resolved,
                              Some(Resolution(now, ManualResolve, Some(winner), resolver, notes))))
  {
    FindHolds(active, id, c);
  }

  /** A dismissal succeeds exactly for an open conflict, names no winner, and records the reason. */
  lemma DismissalIsRecorded(active: seq<Conflict>, id: nat, reason: string, now: int, c: Conflict)
    requires DistinctIds(active) && Holds(active, id, c)
    ensures
      var out := DismissRegion(active, id, reason, now).outcome;
      if Closed(c) then out == Err(AlreadyResolved)
      else out == Ok(Conflict(c.id, c.entity, c.detectedAt, c.modalities, c.driftScore, c.description, Dismissed,
                              Some(Resolution(now, LastWriterWins, None, "system", Some("Dismissed: " + reason)))))
  {
    FindHolds(active, id, c);
  }

  /** The policy that decides: the one asked for, or else the one selected. */
  ghost predicate Decides(cfg: Config, c: Conflict, requested: Option<Policy>, p: Policy) {
    if requested.Some? then p == requested.value else Selects(cfg, c.modalities, p)
  }

  /** Whether `resolve` is refused: by the drift, or by a policy that needs somebody else. */
  ghost predicate IsEscalated(cfg: Config, c: Conflict, p: Policy) {
    c.driftScore >= cfg.requireManualAbove || p == ManualResolve || p.Custom?
  }

  /** `resolve` succeeds exactly for an open conflict that is not escalated, and then records the
      policy that decides, with the winner it chooses; an escalated one is left in progress. */
  lemma ResolutionIsRecorded(
    cfg: Config, active: seq<Conflict>, id: nat, requested: Option<Policy>, now: int, out: Region,
    c: Conflict, p: Policy)
    requires DistinctIds(active) && Holds(active, id, c) && Decides(cfg, c, requested, p)
    requires ResolveRegion(cfg, active, id, requested, now, out)
    ensures
      if Closed(c) then out.outcome == Err(AlreadyResolved) && out.active == active
      else if IsEscalated(cfg, c, p) then
        out.outcome == Err(InvalidPolicy) && Holds(out.active, id, c.(status := InProgress))
      else
        exists w :: Chooses(p, c.modalities, w) && out.outcome ==
          Ok(Conflict(c.id, c.entity, c.detectedAt, c.modalities, c.driftScore, c.description, Resolved,
                      Some(Resolution(now, p, w, "system", None))))
  {
    FindHolds(active, id, c);
    var k := Find(active, id).value;
    if !Closed(c) && c.driftScore < cfg.requireManualAbove {
      var q :| (if requested.Some? then q == requested.value else Selects(cfg, c.modalities, q))
        && (if q.ManualResolve? || q.Custom? then
              out == Region(active[k := c.(status := InProgress)], Err(InvalidPolicy))
            else
              exists w :: Chooses(q, c.modalities, w)
                && out == Close(active, k, Resolved, Resolution(now, q, w, "system", None)));
      if requested.None? {
        SelectionIsUnique(cfg, c.modalities, p, q);
      }
    }
    assert active[k := c.(status := InProgress)][k] == c.(status := InProgress);
  }

  /** An unknown id is refused by all three, and nothing changes. */
  lemma UnknownIsRefused(
    cfg: Config, active: seq<Conflict>, id: nat, requested: Option<Policy>, winner: Modality, resolver: string,
    notes: Option<string>, reason: string, now: int, out: Region)
    requires forall c :: c in active ==> c.id != id
    requires ResolveRegion(cfg, active, id, requested, now, out)
    ensures out == ManualRegion(active, id, winner, resolver, notes, now) == DismissRegion(active, id, reason, now)
    ensures out == Region(active, Err(NotFound))
  {
  }

  /** An override is found in either order of its two modalities, and the order given counts first. */
  lemma PairPolicyFinds(cfg: Config, a: Modality, b: Modality)
    ensures (a, b) in cfg.pairPolicies ==> PairPolicy(cfg, a, b) == Some(cfg.pairPolicies[(a, b)])
    ensures (a, b) !in cfg.pairPolicies && (b, a) in cfg.pairPolicies ==>
      PairPolicy(cfg, a, b) == Some(cfg.pairPolicies[(b, a)]) == PairPolicy(cfg, b, a)
    ensures (a, b) !in cfg.pairPolicies && (b, a) !in cfg.pairPolicies ==> PairPolicy(cfg, a, b) == None
  {
  }

  // ----- The resolver

  class Resolver {
    const cfg: Config
    var active: seq<Conflict>
    var history: seq<Conflict>

    ghost predicate Valid()
      reads this
    {
      DistinctIds(active) && |history| <= cfg.maxHistory && forall c :: c in history ==> Closed(c)
    }

    constructor (cfg: Config)
      ensures Valid() && this.cfg == cfg && active == [] && history == []
    {
      this.cfg := cfg;
      active, history := [], [];
    }

    /** `id` is the generated UUID: it differs from every id in use. */
    method DetectConflict(id: nat, entity: string, modalities: seq<Modality>, driftScore: real, description: string,
        now: int)
      returns (c: Conflict)
      requires Valid() && forall o :: o in active ==> o.id != id
      modifies this
      ensures Valid() && history == old(history)
      ensures c == Conflict(id, entity, now, modalities, driftScore, description, Open, None)
      ensures active == old(active) + [c]
    {
      c := Conflict(id, entity, now, modalities, driftScore, description, Open, None);
      active := active + [c];
    }

    /** The part of `resolve` that holds the active lock. */
    method MarkResolved(id: nat, requested: Option<Policy>, now: int) returns (outcome: Result<Conflict, Error>)
      modifies this
      ensures ResolveRegion(cfg, old(active), id, requested, now, Region(active, outcome)) && history == old(history)
    {
      var found := Find(active, id);
      if found == None {
        return Err(NotFound);
      }
      var k := found.value;
      var c := active[k];
      if Closed(c) {
        return Err(AlreadyResolved);
      }
      if c.driftScore >= cfg.requireManualAbove {
        active := active[k := c.(status := InProgress)];
        return Err(InvalidPolicy);
      }
      var p: Policy;
      if requested.Some? {
        p := requested.value;
      } else {
        p := SelectPolicy(cfg, c.modalities);
      }
      if p.ManualResolve? || p.Custom? {
        active := active[k := c.(status := InProgress)];
        return Err(InvalidPolicy);
      }
      var resolution := ApplyPolicy(c, p, now);
      active := active[k := c.(status := Resolved, resolution := Some(resolution))];
      outcome := Ok(active[k]);
    }

    method MarkManual(id: nat, winner: Modality, resolver: string, notes: Option<string>, now: int)
      returns (outcome: Result<Conflict, Error>)
      modifies this
      ensures Region(active, outcome) == ManualRegion(old(active), id, winner, resolver, notes, now)
        && history == old(history)
    {
      var found := Find(active, id);
      if found == None {
        return Err(NotFound);
      }
      var k := found.value;
      if Closed(active[k]) {
        return Err(AlreadyResolved);
      }
      if winner !in active[k].modalities {
        return Err(ModalityNotInConflict);
      }
      var resolution := Resolution(now, ManualResolve, Some(winner), resolver, notes);
      active := active[k := active[k].(status := Resolved,
                                       resolution := Some(resolution))];
      outcome := Ok(active[k]);
    }

    method MarkDismissed(id: nat, reason: string, now: int) returns (outcome: Result<Conflict, Error>)
      modifies this
      ensures Region(active, outcome) == DismissRegion(old(active), id, reason, now) && history == old(history)
    {
      var found := Find(active, id);
      if found == None {
        return Err(NotFound);
      }
      var k := found.value;
      if Closed(active[k]) {
        return Err(AlreadyResolved);
      }
      var resolution := Resolution(now, LastWriterWins, None, "system", Some("Dismissed: " + reason));
      active := active[k := active[k].(status := Dismissed,
                                       resolution := Some(resolution))];
      outcome := Ok(active[k]);
    }

    method Resolve(id: nat, requested: Option<Policy>, now: int) returns (r: Result<Resolution, Error>)
      requires Valid()
      modifies this
      ensures Valid()
      ensures exists out ::
        ResolveRegion(cfg, old(active), id, requested, now, out) && Completes(old(history), out, active, history, r)
      ensures r.Ok? && requested.Some? ==> r.value.policyUsed == requested.value
      ensures r.Ok? && requested.None? ==>
        exists c :: Holds(old(active), id, c) && Selects(cfg, c.modalities, r.value.policyUsed)
    {
      ghost var found := Find(active, id);
      var outcome := MarkResolved(id, requested, now);
      ghost var out := Region(active, outcome);
      r := Finish(outcome);
      assert Completes(old(history), out, active, history, r);
      if r.Ok? && requested.None? {
        assert Holds(old(active), id, old(active)[found.value]);
      }
    }

    method ResolveManual(id: nat, winner: Modality, resolver: string, notes: Option<string>, now: int)
      returns (r: Result<Resolution, Error>)
      requires Valid()
      modifies this
      ensures Valid()
      ensures Completes(old(history), ManualRegion(old(active), id, winner, resolver, notes, now), active, history, r)
      ensures r.Ok? ==> r.value == Resolution(now, ManualResolve, Some(winner), resolver, notes)
      ensures r.Ok? ==>
        exists c :: (Holds(old(active), id, c) && !Closed(c) && winner in c.modalities
          && active == Without(old(active), id)
          && history == LastN(cfg.maxHistory, old(history) + [c.(status := Resolved, resolution := Some(r.value))]))
    {
      ghost var found := Find(active, id);
      var outcome := MarkManual(id, winner, resolver, notes, now);
      r := Finish(outcome);
      if r.Ok? {
        ClosedIsCutOut(old(active), found.value, outcome.value);
        assert Holds(old(active), id, old(active)[found.value]);
      }
    }

    method Dismiss(id: nat, reason: string, now: int) returns (r: Result<Resolution, Error>)
      requires Valid()
      modifies this
      ensures Valid()
      ensures Completes(old(history), DismissRegion(old(active), id, reason, now), active, history, r)
      ensures r.Ok? ==> r.value == Resolution(now, LastWriterWins, None, "system", Some("Dismissed: " + reason))
      ensures r.Ok? ==>
        exists c :: (Holds(old(active), id, c) && !Closed(c) && active == Without(old(active), id)
          && history == LastN(cfg.maxHistory, old(history) + [c.(status := Dismissed, resolution := Some(r.value))]))
    {
      ghost var found := Find(active, id);
      var outcome := MarkDismissed(id, reason, now);
      r := Finish(outcome);
      if r.Ok? {
        ClosedIsCutOut(old(active), found.value, outcome.value);
        assert Holds(old(active), id, old(active)[found.value]);
      }
    }

    /** Release the active lock; on success move the closed conflict to the history. */
    method Finish(outcome: Result<Conflict, Error>) returns (r: Result<Resolution, Error>)
      requires Valid() && (outcome.Ok? ==> Closed(outcome.value) && outcome.value.resolution.Some?)
      modifies this
      ensures Valid() && Completes(old(history), Region(old(active), outcome), active, history, r)
    {
      match outcome
      case Err(e) => r := Err(e);
      case Ok(c) =>
        MoveToHistory(c);
        r := Ok(c.resolution.value);
    }

    /** A call run without interference: the region, then on success the move to the history. */
    ghost predicate Completes(history0: seq<Conflict>, out: Region, active1: seq<Conflict>, history1: seq<Conflict>,
      r: Result<Resolution, Error>)
    {
      match out.outcome
      case Err(e) => active1 == out.active && history1 == history0 && r == Err(e)
      case Ok(c) =>
        && active1 == Without(out.active, c.id)
        && history1 == LastN(cfg.maxHistory, history0 + [c])
        && c.resolution.Some? && r == Ok(c.resolution.value)
    }

    method MoveToHistory(c: Conflict)
      requires DistinctIds(active) && |history| <= cfg.maxHistory
      modifies this
      ensures active == Without(old(active), c.id)
      ensures history == LastN(cfg.maxHistory, old(history) + [c])
    {
      active := Without(active, c.id);
      history := history + [c];
      if |history| > cfg.maxHistory {
        var excess := |history| - cfg.maxHistory;
        history := history[excess..];
      }
    }

    /** Most recent first; a limit of 0 means no limit. */
    method History(limit: nat) returns (result: seq<Conflict>)
      ensures limit == 0 ==> result == Reversed(history)
      ensures limit > 0 ==> result == Reversed(LastN(limit, history))
    {
      if limit == 0 || limit >= |history| {
        result := Reversed(history);
      } else {
        result := Reversed(history[|history| - limit..]);
      }
    }
  }
}
