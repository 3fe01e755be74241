/** Transactions that buffer operations until commit, with a limit on active ones and a cleanup
of expired ones. Each call holds the lock of the transaction map throughout, so it is one step.

Times are counted in one unit, the unit of the timeout. Generated ids are parameters. */
module TransactionManager {
  import opened Wrappers
  import FiniteSets
  import ByteStrings

  type Id = string

  datatype TxnState = Active | Committed | RolledBack

  datatype OperationType = Create | Update | Delete

  datatype Operation = Operation(entity: string, kind: OperationType, payload: ByteStrings.Bytes, timestamp: string)

  datatype Transaction = Transaction(state: TxnState, operations: seq<Operation>, startedAt: int,
    completedAt: Option<int>)

  datatype Error = NotFound | AlreadyCommitted | AlreadyRolledBack | TooManyTransactions

  datatype Config = Config(maxConcurrent: nat, timeout: nat)

  type Table = map<Id, Transaction>

  function ActiveIds(txns: Table): set<Id> {
    set id | id in txns && txns[id].state == Active
  }

  /** Why a call on `id` is refused, if it is: only an active transaction takes calls. */
  function Refusal(txns: Table, id: Id): Option<Error> {
    if id !in txns then Some(NotFound)
    else match txns[id].state
      case Active => None
      case Committed => Some(AlreadyCommitted)
      case RolledBack => Some(AlreadyRolledBack)
  }

  /** A transaction is expired if it was completed, or is active and was started, longer ago than
      the timeout. */
  predicate Expired(cfg: Config, t: Transaction, now: int) {
    if t.state != Active then t.completedAt.Some? && now - t.completedAt.value > cfg.timeout
    else now - t.startedAt > cfg.timeout
  }

  function ExpiredIds(cfg: Config, txns: Table, now: int): set<Id> {
    set id | id in txns && Expired(cfg, txns[id], now)
  }

  // ----- The calls as functions of the table

  datatype Event =
    | Begin(id: Id, now: int)
    | Buffer(id: Id, op: Operation)
    | Commit(id: Id, now: int)
    | Rollback(id: Id, now: int)
    | Cleanup(now: int)

  predicate Accepts(cfg: Config, txns: Table, e: Event) {
    match e
    case Begin(_, _) => |ActiveIds(txns)| < cfg.maxConcurrent
    case Cleanup(_) => true
    case _ => Refusal(txns, e.id) == None
  }

  function After(cfg: Config, txns: Table, e: Event): Table {
    if !Accepts(cfg, txns, e) then txns
    else match e
      case Begin(id, now) => txns[id := Transaction(Active, [], now, None)]
      case Buffer(id, op) => txns[id := txns[id].(operations := txns[id].operations + [op])]
      case Commit(id, now) => txns[id := txns[id].(state := Committed, completedAt := Some(now))]
      case Rollback(id, now) => txns[id := txns[id].(state := RolledBack, operations := [], completedAt := Some(now))]
      case Cleanup(now) => txns - ExpiredIds(cfg, txns, now)
  }

  class Manager {
    const cfg: Config
    var txns: Table

    ghost predicate Valid()
      reads this
    {
      |ActiveIds(txns)| <= cfg.maxConcurrent
    }

    constructor (cfg: Config)
      ensures Valid() && this.cfg == cfg && txns == map[]
    {
      this.cfg, txns := cfg, map[];
      new;
      assert ActiveIds(txns) == {};
    }

    /** `id` is the generated identifier: no transaction has it yet. */
    method Begin(id: Id, now: int) returns (r: Result<Id, Error>)
      requires Valid() && id !in txns
      modifies this
      ensures Valid() && txns == After(cfg, old(txns), Event.Begin(id, now))
      ensures r == if Accepts(cfg, old(txns), Event.Begin(id, now)) then Ok(id) else Err(TooManyTransactions)
    {
      var activeCount := |ActiveIds(txns)|;
      if activeCount >= cfg.maxConcurrent {
        return Err(TooManyTransactions);
      }
      ActiveAfter(cfg, txns, Event.Begin(id, now));
      txns := txns[id := Transaction(Active, [], now, None)];
      r := Ok(id);
    }

    method BufferOperation(id: Id, op: Operation) returns (r: Result<(), Error>)
      requires Valid()
      modifies this
      ensures Valid() && txns == After(cfg, old(txns), Buffer(id, op))
      ensures r == match Refusal(old(txns), id) case None => Ok(()) case Some(e) => Err(e)
    {
      ActiveAfter(cfg, txns, Buffer(id, op));
      if id !in txns {
        return Err(NotFound);
      }
      match txns[id].state {
        case Active =>
          txns := txns[id := txns[id].(operations := txns[id].operations + [op])];
          r := Ok(());
        case Committed => r := Err(AlreadyCommitted);
        case RolledBack => r := Err(AlreadyRolledBack);
      }
    }

    method Commit(id: Id, now: int) returns (r: Result<seq<Operation>, Error>)
      requires Valid()
      modifies this
      ensures Valid() && txns == After(cfg, old(txns), Event.Commit(id, now))
      ensures r == match Refusal(old(txns), id) case None => Ok(old(txns)[id].operations) case Some(e) => Err(e)
    {
      ActiveAfter(cfg, txns, Event.Commit(id, now));
      if id !in txns {
        return Err(NotFound);
      }
      match txns[id].state {
        case Active =>
          txns := txns[id := txns[id].(state := Committed, completedAt := Some(now))];
          r := Ok(txns[id].operations);
        case Committed => r := Err(AlreadyCommitted);
        case RolledBack => r := Err(AlreadyRolledBack);
      }
    }

    /** Returns how many operations were discarded. */
    method Rollback(id: Id, now: int) returns (r: Result<nat, Error>)
      requires Valid()
      modifies this
      ensures Valid() && txns == After(cfg, old(txns), Event.Rollback(id, now))
      ensures r == match Refusal(old(txns), id) case None => Ok(|old(txns)[id].operations|) case Some(e) => Err(e)
    {
      ActiveAfter(cfg, txns, Event.Rollback(id, now));
      if id !in txns {
        return Err(NotFound);
      }
      match txns[id].state {
        case Active =>
          var discarded := |txns[id].operations|;
          txns := txns[id := txns[id].(operations := [])];
          txns := txns[id := txns[id].(state := RolledBack, completedAt := Some(now))];
          assert txns == After(cfg, old(txns), Event.Rollback(id, now));
          r := Ok(discarded);
        case Committed => r := Err(AlreadyCommitted);
        case RolledBack => r := Err(AlreadyRolledBack);
      }
    }

    /** Remove every expired transaction, active ones included; returns how many. */
    method CleanupExpired(now: int) returns (count: nat)
      requires Valid()
      modifies this
      ensures Valid() && txns == After(cfg, old(txns), Cleanup(now))
      ensures count == |ExpiredIds(cfg, old(txns), now)|
    {
      ActiveAfter(cfg, txns, Cleanup(now));
      var expired := ExpiredIds(cfg, txns, now);
      count := |expired|;
      var rest := expired;
      while rest != {}
        invariant rest <= expired && txns == old(txns) - (expired - rest)
        decreases rest
      {
        var id :| id in rest;
        rest := rest - {id};
        txns := txns - {id};
      }
      assert expired - rest == expired;
    }
  }

  /** No call takes the number of active transactions over the limit. */
  lemma ActiveAfter(cfg: Config, txns: Table, e: Event)
    requires |ActiveIds(txns)| <= cfg.maxConcurrent
    ensures |ActiveIds(After(cfg, txns, e))| <= cfg.maxConcurrent
  {
    var ids, ids' := ActiveIds(txns), ActiveIds(After(cfg, txns, e));
    if e.Begin? && Accepts(cfg, txns, e) {
      assert ids' <= ids + {e.id};
      FiniteSets.SubsetSize(ids', ids + {e.id});
    } else {
      assert ids' <= ids;
      FiniteSets.SubsetSize(ids', ids);
    }
  }

  // ----- Runs

  function Run(cfg: Config, events: seq<Event>): Table {
    if events == [] then map[] else After(cfg, Run(cfg, events[..|events| - 1]), events[|events| - 1])
  }

  /** Whether event `i` of the run is accepted. */
  predicate Accepted(cfg: Config, events: seq<Event>, i: nat)
    requires i < |events|
  {
    Accepts(cfg, Run(cfg, events[..i]), events[i])
  }

  /** Generated ids are never reused. */
  ghost predicate FreshIds(events: seq<Event>) {
    forall i, j :: 0 <= i < j < |events| && events[i].Begin? && events[j].Begin? ==> events[i].id != events[j].id
  }

  ghost predicate Began(events: seq<Event>, id: Id) {
    exists i :: 0 <= i < |events| && events[i].Begin? && events[i].id == id
  }

  /** The operations successfully buffered for `id`, in order. */
  function BufferedOps(cfg: Config, events: seq<Event>, id: Id): seq<Operation> {
    if events == [] then []
    else
      var init, e := events[..|events| - 1], events[|events| - 1];
      if e.Buffer? && e.id == id && Accepts(cfg, Run(cfg, init), e) then BufferedOps(cfg, init, id) + [e.op]
      else BufferedOps(cfg, init, id)
  }

  lemma {:induction false} ActiveStaysUnderLimit(cfg: Config, events: seq<Event>)
    ensures |ActiveIds(Run(cfg, events))| <= cfg.maxConcurrent
  {
    if events == [] {
      assert ActiveIds(Run(cfg, events)) == {};
    } else {
      ActiveStaysUnderLimit(cfg, events[..|events| - 1]);
      ActiveAfter(cfg, Run(cfg, events[..|events| - 1]), events[|events| - 1]);
    }
  }

  lemma {:induction false} UnknownBeforeBegin(cfg: Config, events: seq<Event>, id: Id)
    requires !Began(events, id)
    ensures id !in Run(cfg, events) && BufferedOps(cfg, events, id) == []
  {
    if events != [] {
      var init := events[..|events| - 1];
      assert !Began(init, id) by {
        forall i | 0 <= i < |init| ensures !(init[i].Begin? && init[i].id == id) {
          assert init[i] == events[i];
        }
      }
      UnknownBeforeBegin(cfg, init, id);
    }
  }

  lemma FreshPrefix(events: seq<Event>, n: nat)
    requires FreshIds(events) && n <= |events|
    ensures FreshIds(events[..n])
  {
  }

  /** The last event can only begin an id that was not begun before. */
  lemma LastBeginIsFirst(events: seq<Event>)
    requires FreshIds(events) && events != [] && events[|events| - 1].Begin?
    ensures !Began(events[..|events| - 1], events[|events| - 1].id)
  {
    var init := events[..|events| - 1];
    forall i | 0 <= i < |init| ensures !(init[i].Begin? && init[i].id == events[|events| - 1].id) {
      assert init[i] == events[i];
    }
  }

  /** A transaction that was not rolled back holds exactly its successfully buffered operations. */
  lemma {:induction false} HoldsBufferedOps(cfg: Config, events: seq<Event>, id: Id)
    requires FreshIds(events) && id in Run(cfg, events) && Run(cfg, events)[id].state != RolledBack
    ensures Run(cfg, events)[id].operations == BufferedOps(cfg, events, id)
  {
    var init, e := events[..|events| - 1], events[|events| - 1];
    FreshPrefix(events, |events| - 1);
    if e.Begin? && e.id == id && Accepts(cfg, Run(cfg, init), e) {
      LastBeginIsFirst(events);
      UnknownBeforeBegin(cfg, init, id);
    } else {
      HoldsBufferedOps(cfg, init, id);
    }
  }

  /** A successful commit answers exactly the operations buffered successfully, in order. */
  lemma CommitReturnsBuffered(cfg: Config, events: seq<Event>, i: nat)
    requires FreshIds(events) && i < |events| && events[i].Commit? && Accepted(cfg, events, i)
    ensures Run(cfg, events[..i])[events[i].id].operations == BufferedOps(cfg, events[..i], events[i].id)
  {
    FreshPrefix(events, i);
    HoldsBufferedOps(cfg, events[..i], events[i].id);
  }

  // ----- Expiry

  /** Cleanup forgets a stored transaction exactly when it has expired: no rollback is recorded, and
      later calls on it are refused because it is unknown. */
  lemma CleanupForgetsIff(cfg: Config, txns: Table, id: Id, now: int)
    requires id in txns
    ensures Refusal(After(cfg, txns, Cleanup(now)), id) == Some(NotFound) <==> Expired(cfg, txns[id], now)
    ensures txns[id].state == Active ==> Refusal(After(cfg, txns, Rollback(id, now)), id) == Some(AlreadyRolledBack)
  {
  }

  /** An active transaction is removed by a cleanup exactly if it began longer ago than the timeout,
      and a committed or rolled back one exactly if it ended longer ago. */
  lemma CleanupRemovesIff(cfg: Config, txns: Table, id: Id, now: int)
    requires id in txns
    ensures
      var t, left := txns[id], After(cfg, txns, Cleanup(now));
      && (t.state == Active ==> (id !in left <==> now - t.startedAt > cfg.timeout))
      && (t.state != Active && t.completedAt.Some? ==> (id !in left <==> now - t.completedAt.value > cfg.timeout))
      && (id in left ==> left[id] == t)
  {
  }

  /** A transaction that is committed within the timeout after it began survives every cleanup until
      then, and its commit answers its operations. */
  lemma SurvivorCommits(cfg: Config, txns: Table, id: Id, cleanup: int, now: int)
    requires id in txns && txns[id].state == Active && cleanup - txns[id].startedAt <= cfg.timeout
    ensures
      var cleaned := After(cfg, txns, Cleanup(cleanup));
      && Accepts(cfg, cleaned, Event.Commit(id, now))
      && var left := After(cfg, cleaned, Event.Commit(id, now));
         id in left && left[id] == Transaction(Committed, txns[id].operations, txns[id].startedAt, Some(now))
  {
  }

  /** A rollback leaves nothing buffered and records when it happened. */
  lemma RollbackLeavesNothing(cfg: Config, txns: Table, id: Id, now: int)
    requires id in txns && txns[id].state == Active
    ensures
      var left := After(cfg, txns, Event.Rollback(id, now));
      id in left && left[id] == Transaction(RolledBack, [], txns[id].startedAt, Some(now))
  {
  }

  /** An active transaction past its timeout is answered differently after cleanup and after the
      rollback that its timeout is documented to cause. */
  lemma ExpiryIsNoRollback(cfg: Config, id: Id, now: int)
    requires cfg.maxConcurrent > 0 && now > cfg.timeout
    ensures
      var begun := Run(cfg, [Begin(id, 0)]);
      && id in begun && begun[id].state == Active
      && Refusal(After(cfg, begun, Cleanup(now)), id) == Some(NotFound)
      && Refusal(After(cfg, begun, Rollback(id, now)), id) == Some(AlreadyRolledBack)
  {
    var events := [Begin(id, 0)];
    RunStep(cfg, events, 0);
    assert events[..0] == [] && events[..0 + 1] == events;
    assert ActiveIds(map[]) == {};
    CleanupForgetsIff(cfg, Run(cfg, events), id, now);
  }

  // ----- Ended transactions

  ghost predicate Ended(txns: Table, id: Id) {
    id !in txns || txns[id].state != Active
  }

  lemma RunStep(cfg: Config, events: seq<Event>, i: nat)
    requires i < |events|
    ensures Run(cfg, events[..i + 1]) == After(cfg, Run(cfg, events[..i]), events[i])
  {
    assert events[..i + 1][..i] == events[..i];
  }

  /** Once begun and ended, an id never becomes active again. */
  lemma {:induction false} EndedStaysEnded(cfg: Config, events: seq<Event>, id: Id, i: nat, j: nat)
    requires FreshIds(events) && i <= j <= |events|
    requires Began(events[..i], id) && Ended(Run(cfg, events[..i]), id)
    ensures Ended(Run(cfg, events[..j]), id)
    decreases j
  {
    if i < j {
      EndedStaysEnded(cfg, events, id, i, j - 1);
      RunStep(cfg, events, j - 1);
      var k :| 0 <= k < i && events[..i][k].Begin? && events[..i][k].id == id;
      assert events[k] == events[..i][k];
    }
  }

  lemma {:induction false} StoredWasBegun(cfg: Config, events: seq<Event>, id: Id)
    requires id in Run(cfg, events)
    ensures Began(events, id)
  {
    if !Began(events, id) {
      UnknownBeforeBegin(cfg, events, id);
    }
  }

  /** An accepted commit or rollback, or a cleanup that removes it, ends a transaction for good:
      no later commit of it is accepted. In particular it commits at most once. */
  lemma NoCommitAfterEnd(cfg: Config, events: seq<Event>, id: Id, i: nat, j: nat)
    requires FreshIds(events) && i < j < |events| && id in Run(cfg, events[..i])
    requires Accepted(cfg, events, i)
    requires match events[i]
      case Commit(x, _) => x == id
      case Rollback(x, _) => x == id
      case Cleanup(now) => id in ExpiredIds(cfg, Run(cfg, events[..i]), now)
      case _ => false
    requires events[j].Commit? && events[j].id == id
    ensures !Accepted(cfg, events, j)
  {
    StoredWasBegun(cfg, events[..i], id);
    var k :| 0 <= k < i && events[..i][k].Begin? && events[..i][k].id == id;
    assert events[..i + 1][k].Begin? && events[..i + 1][k].id == id;
    RunStep(cfg, events, i);
    EndedStaysEnded(cfg, events, id, i + 1, j);
  }

  /** A committed or rolled back transaction keeps its whole record until it is removed. */
  lemma {:induction false} EndedIsFrozen(cfg: Config, events: seq<Event>, id: Id, i: nat, j: nat)
    requires FreshIds(events) && i <= j <= |events|
    requires id in Run(cfg, events[..i]) && Run(cfg, events[..i])[id].state != Active
    ensures id in Run(cfg, events[..j]) ==> Run(cfg, events[..j])[id] == Run(cfg, events[..i])[id]
    decreases j
  {
    if i < j {
      hide FreshIds, Run, After;
      EndedIsFrozen(cfg, events, id, i, j - 1);
      RunStep(cfg, events, j - 1);
      StoredWasBegun(cfg, events[..i], id);
      NotBegunAgain(events, id, i, j - 1);
      FrozenStep(cfg, Run(cfg, events[..j - 1]), events[j - 1], id);
    }
  }

  lemma NotBegunAgain(events: seq<Event>, id: Id, i: nat, j: nat)
    requires FreshIds(events) && i <= j < |events| && Began(events[..i], id)
    ensures !(events[j].Begin? && events[j].id == id)
  {
    var k :| 0 <= k < i && events[..i][k].Begin? && events[..i][k].id == id;
    assert events[k] == events[..i][k];
  }

  lemma FrozenStep(cfg: Config, txns: Table, e: Event, id: Id)
    requires (id in txns ==> txns[id].state != Active) && !(e.Begin? && e.id == id)
    ensures id in After(cfg, txns, e) ==> id in txns && After(cfg, txns, e)[id] == txns[id]
  {
  }

  // ----- Records

  /** An accepted begin records an active transaction without operations, begun now; an accepted commit
      makes later calls answer AlreadyCommitted. */
  lemma BeginAndCommitRecord(cfg: Config, txns: Table, id: Id, now: int)
    ensures |ActiveIds(txns)| < cfg.maxConcurrent ==>
      var begun := After(cfg, txns, Event.Begin(id, now));
      id in begun && begun[id] == Transaction(Active, [], now, None)
    ensures id in txns && txns[id].state == Active ==>
      Refusal(After(cfg, txns, Event.Commit(id, now)), id) == Some(AlreadyCommitted)
    ensures id in txns && txns[id].state != Active && txns[id].completedAt == None ==>
      id in After(cfg, txns, Cleanup(now))
  {
  }

  /** An operation is appended to its own transaction, and no other one changes. */
  lemma BufferAppends(cfg: Config, txns: Table, id: Id, op: Operation, other: Id)
    requires id in txns && txns[id].state == Active
    ensures
      var after := After(cfg, txns, Event.Buffer(id, op));
      && id in after && after[id].operations == txns[id].operations + [op] && after[id].state == Active
      && (other != id ==> (other in after <==> other in txns) && (other in txns ==> after[other] == txns[other]))
  {
  }
}
