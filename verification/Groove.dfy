/** Groove sessions: a peer connects, sends heartbeats and disconnects; a status poll degrades a
session that has been silent for longer than the timeout, and removes one that is silent and
already degraded.

Each handler holds the lock of the session table while it touches it, so it is one step.
Instants are nanoseconds of a monotonic clock. Generated session ids are parameters. */
module Groove {
  import opened Wrappers

  type Id = string

  datatype State =
    | Discovered | Negotiating | Connected | Active | Degraded
    | Reconnecting | Disconnecting | Disconnected | Rejected

  datatype Info = Info(
    peer: string, state: State, connectedAtMs: nat, lastHeartbeatMs: nat,
    lastHeartbeat: nat, matched: seq<string>)

  type Table = map<Id, Info>

  const TIMEOUT_MS: nat := 15_000

  predicate Offers(capability: string) {
    capability in ["octad-storage", "drift-detection", "provenance", "vector-search", "spatial-search", "vcl"]
  }

  function Offered(capabilities: seq<string>): seq<string> {
    if capabilities == [] then []
    else
      var init, last := capabilities[..|capabilities| - 1], capabilities[|capabilities| - 1];
      Offered(init) + if Offers(last) then [last] else []
  }

  /** Whole milliseconds from `since` to `now`; zero when `now` is not later. */
  function ElapsedMs(since: nat, now: nat): nat {
    if now <= since then 0 else (now - since) / 1_000_000
  }

  predicate Late(since: nat, now: nat) {
    ElapsedMs(since, now) > TIMEOUT_MS
  }

  /** A poll is late from 15.001 seconds after the last sign of life. */
  lemma LateIff(since: nat, now: nat)
    ensures Late(since, now) <==> now >= since + 15_001_000_000
  {
  }

  /** The offered capabilities among those asked for, in the order asked, repetitions included. */
  lemma {:induction false} OfferedAre(capabilities: seq<string>, c: string)
    ensures c in Offered(capabilities) <==> c in capabilities && Offers(c)
    ensures multiset(Offered(capabilities))[c] == if Offers(c) then multiset(capabilities)[c] else 0
  {
    if capabilities != [] {
      var init, last := capabilities[..|capabilities| - 1], capabilities[|capabilities| - 1];
      assert capabilities == init + [last];
      OfferedAre(init, c);
    }
  }

  // ----- The handlers as functions of the table

  datatype Event =
    | Connect(id: Id, peer: string, consumes: seq<string>, now: nat, unixMs: nat)
    | Disconnect(id: Id)
    | Heartbeat(id: Id, now: nat, unixMs: nat)
    | Poll(now: nat)

  /** A peer is turned away if it asks for something and nothing it asks for is offered. */
  predicate Compatible(consumes: seq<string>) {
    Offered(consumes) != [] || consumes == []
  }

  function Beat(info: Info, now: nat, unixMs: nat): Info {
    info.(lastHeartbeat := now, lastHeartbeatMs := unixMs,
          state := if info.state in {Connected, Degraded} then Active else info.state)
  }

  predicate Removed(info: Info, now: nat) {
    Late(info.lastHeartbeat, now) && info.state == Degraded
  }

  function Polled(info: Info, now: nat): Info {
    if Late(info.lastHeartbeat, now) && info.state in {Active, Connected} then info.(state := Degraded) else info
  }

  function After(sessions: Table, e: Event): Table {
    match e
    case Connect(id, peer, consumes, now, ms) =>
      if Compatible(consumes) then sessions[id := Info(peer, Connected, ms, ms, now, Offered(consumes))] else sessions
    case Disconnect(id) => sessions - {id}
    case Heartbeat(id, now, ms) =>
      if id in sessions then sessions[id := Beat(sessions[id], now, ms)] else sessions
    case Poll(now) =>
      map id | id in sessions && !Removed(sessions[id], now) :: Polled(sessions[id], now)
  }

  /** A peer is accepted if and only if it asks for nothing, or for one of the six capabilities. */
  lemma CompatibleIff(consumes: seq<string>)
    ensures Compatible(consumes) <==>
      || consumes == []
      || "octad-storage" in consumes || "drift-detection" in consumes || "provenance" in consumes
      || "vector-search" in consumes || "spatial-search" in consumes || "vcl" in consumes
  {
    forall c ensures c in Offered(consumes) <==> c in consumes && Offers(c) {
      OfferedAre(consumes, c);
    }
    SixAreOffered();
    hide Offers, Offered;
    if Offered(consumes) != [] {
      var c := Offered(consumes)[0];
      assert c in Offered(consumes);
      OfferedIsOneOfSix(c);
    }
  }

  lemma SixAreOffered()
    ensures Offers("octad-storage") && Offers("drift-detection") && Offers("provenance")
    ensures Offers("vector-search") && Offers("spatial-search") && Offers("vcl")
  {
  }

  lemma OfferedIsOneOfSix(c: string)
    requires Offers(c)
    ensures c == "octad-storage" || c == "drift-detection" || c == "provenance"
      || c == "vector-search" || c == "spatial-search" || c == "vcl"
  {
  }

  class Server {
    var sessions: Table

    constructor ()
      ensures sessions == map[]
    {
      sessions := map[];
    }

    /** The matched capabilities, or none when the peer is rejected. */
    method Connect(id: Id, peer: string, consumes: seq<string>, now: nat, unixMs: nat)
      returns (matched: Option<seq<string>>)
      requires id !in sessions
      modifies this
      ensures sessions == After(old(sessions), Event.Connect(id, peer, consumes, now, unixMs))
      ensures matched == if Compatible(consumes) then Some(Offered(consumes)) else None
    {
      var found: seq<string> := [];
      for i := 0 to |consumes|
        invariant found == Offered(consumes[..i])
      {
        assert consumes[..i + 1][..i] == consumes[..i];
        if Offers(consumes[i]) {
          found := found + [consumes[i]];
        }
      }
      assert consumes[..|consumes|] == consumes;
      if found == [] && consumes != [] {
        return None;
      }
      sessions := sessions[id := Info(peer, Connected, unixMs, unixMs, now, found)];
      matched := Some(found);
    }

    method Disconnect(id: Id) returns (found: bool)
      modifies this
      ensures sessions == After(old(sessions), Event.Disconnect(id))
      ensures found == (id in old(sessions))
    {
      found := id in sessions;
      sessions := sessions - {id};
    }

    method Heartbeat(id: Id, now: nat, unixMs: nat) returns (found: bool)
      modifies this
      ensures sessions == After(old(sessions), Event.Heartbeat(id, now, unixMs))
      ensures found == (id in old(sessions))
    {
      if id !in sessions {
        return false;
      }
      var info := sessions[id].(lastHeartbeatMs := unixMs);
      info := info.(lastHeartbeat := now);
      if info.state == Connected || info.state == Degraded {
        info := info.(state := Active);
      }
      sessions := sessions[id := info];
      found := true;
    }

    /** Degrade and remove silent sessions, and report the sessions that remain. */
    method Status(now: nat) returns (status: Table)
      modifies this
      ensures sessions == After(old(sessions), Poll(now)) && status == sessions
    {
      var was := sessions;
      var toRemove: seq<Id> := [];
      var rest := sessions.Keys;
      while rest != {}
        invariant rest <= was.Keys == sessions.Keys
        invariant forall id :: id in toRemove <==> id in was && id !in rest && Removed(was[id], now)
        invariant forall id :: id in was ==> sessions[id] == if id in rest then was[id] else Polled(was[id], now)
        decreases rest
      {
        var id :| id in rest;
        rest := rest - {id};
        var info := sessions[id];
        if ElapsedMs(info.lastHeartbeat, now) > TIMEOUT_MS {
          if info.state == Degraded {
            toRemove := toRemove + [id];
          } else if info.state == Active || info.state == Connected {
            sessions := sessions[id := info.(state := Degraded)];
          }
        }
      }
      var all := sessions;
      for i := 0 to |toRemove|
        invariant sessions == map id | id in all && id !in toRemove[..i] :: all[id]
      {
        sessions := sessions - {toRemove[i]};
      }
      assert toRemove[..|toRemove|] == toRemove;
      status := sessions;
    }
  }

  // ----- Runs

  /** The sessions after the first `n` events. */
  function Run(events: seq<Event>, n: nat): Table
    requires n <= |events|
  {
    if n == 0 then map[] else After(Run(events, n - 1), events[n - 1])
  }

  predicate Connects(events: seq<Event>, c: int, id: Id) {
    0 <= c < |events| && events[c].Connect? && events[c].id == id && Compatible(events[c].consumes)
  }

  /** Generated session ids are never reused: `id` is only ever connected by event `c`. */
  ghost predicate ConnectedOnceAt(events: seq<Event>, c: int, id: Id) {
    forall i :: Connects(events, i, id) <==> i == c
  }

  /** Event `b` connects `id` or is a heartbeat from it, `c` being the event that connects it. */
  predicate Beats(events: seq<Event>, c: nat, b: int, id: Id)
    requires c < |events|
  {
    c <= b < |events| && (b == c || (events[b].Heartbeat? && events[b].id == id))
  }

  function Instant(e: Event): nat {
    if e.Disconnect? then 0 else e.now
  }

  /** Event `b` is the last sign of life of `id` among the first `n` events. */
  ghost predicate LastBeat(events: seq<Event>, c: nat, b: int, id: Id, n: nat)
    requires c < |events|
  {
    Beats(events, c, b, id) && b < n && forall k :: b < k < n ==> !Beats(events, c, k, id)
  }

  /** Event `p` is a status poll that comes too late after event `b`. */
  predicate LatePoll(events: seq<Event>, b: int, p: int) {
    0 <= b < p < |events| && events[p].Poll? && Late(Instant(events[b]), events[p].now)
  }

  ghost predicate AnyLatePoll(events: seq<Event>, b: int, n: int) {
    exists p :: p < n && LatePoll(events, b, p)
  }

  ghost predicate HungUp(events: seq<Event>, c: nat, id: Id, n: nat)
    requires n <= |events|
  {
    exists d :: c < d < n && events[d] == Event.Disconnect(id)
  }

  /** Two late polls after one sign of life `b`, and no other sign of life before the second. */
  ghost predicate GivenUpAt(events: seq<Event>, c: nat, b: int, p: int, q: int, id: Id)
    requires c < |events|
  {
    b < p < q && LatePoll(events, b, p) && LatePoll(events, b, q) && LastBeat(events, c, b, id, q)
  }

  ghost predicate GivenUpBy(events: seq<Event>, c: nat, q: int, id: Id)
    requires c < |events|
  {
    exists b, p :: GivenUpAt(events, c, b, p, q, id)
  }

  ghost predicate GivenUp(events: seq<Event>, c: nat, id: Id, n: nat)
    requires c < |events|
  {
    exists q :: q < n && GivenUpBy(events, c, q, id)
  }

  lemma {:induction false} UnknownBeforeConnect(events: seq<Event>, c: int, id: Id, n: nat)
    requires ConnectedOnceAt(events, c, id) && n <= |events| && (n <= c || c < 0)
    ensures id !in Run(events, n)
  {
    if n > 0 {
      UnknownBeforeConnect(events, c, id, n - 1);
      assert Connects(events, n - 1, id) <==> n - 1 == c;
    }
  }

  lemma BeatExists(events: seq<Event>, c: nat, id: Id, n: nat) returns (b: nat)
    requires c < n <= |events|
    ensures LastBeat(events, c, b, id, n)
  {
    b := n - 1;
    while !Beats(events, c, b, id)
      invariant c <= b < n && forall k :: b < k < n ==> !Beats(events, c, k, id)
      decreases b
    {
      b := b - 1;
    }
  }

  /** What the state of a live session says: degraded exactly when one poll came too late since
      its last sign of life `b`, and otherwise active or connected according to what `b` was. */
  ghost predicate StateTells(events: seq<Event>, c: nat, b: nat, id: Id, n: nat)
    requires c < |events| && b < n <= |events|
  {
    id in Run(events, n) ==>
      var info := Run(events, n)[id];
      && info.lastHeartbeat == Instant(events[b])
      && info.state == if AnyLatePoll(events, b, n) then Degraded else if b == c then Connected else Active
  }

  lemma {:induction false} StateTellsLatePolls(events: seq<Event>, c: nat, b: nat, id: Id, n: nat)
    requires c < n <= |events| && ConnectedOnceAt(events, c, id) && LastBeat(events, c, b, id, n)
    ensures StateTells(events, c, b, id, n)
    decreases n
  {
    assert Connects(events, c, id);
    assert Connects(events, n - 1, id) <==> n - 1 == c;
    if n - 1 == c {
      assert b == c && !AnyLatePoll(events, b, n);
    } else {
      var b' := BeatExists(events, c, id, n - 1);
      StateTellsLatePolls(events, c, b', id, n - 1);
      if b == n - 1 {
        assert !AnyLatePoll(events, b, n);
      } else {
        assert b' == b by {
          assert Beats(events, c, b, id) && Beats(events, c, b', id);
        }
        assert !Beats(events, c, n - 1, id);
        assert AnyLatePoll(events, b, n) <==> AnyLatePoll(events, b, n - 1) || LatePoll(events, b, n - 1);
      }
    }
  }

  /** A session is live exactly when it has neither hung up nor been given up: it leaves only by
      a disconnect, or at a late poll after another late poll with no heartbeat in between, and
      those two polls are always enough. */
  lemma {:induction false} LivesIff(events: seq<Event>, c: nat, id: Id, n: nat)
    requires c < n <= |events| && ConnectedOnceAt(events, c, id)
    ensures id in Run(events, n) <==> !HungUp(events, c, id, n) && !GivenUp(events, c, id, n)
    decreases n
  {
    assert Connects(events, c, id);
    assert Connects(events, n - 1, id) <==> n - 1 == c;
    if n - 1 == c {
      assert id in Run(events, n);
    } else {
      LivesIff(events, c, id, n - 1);
      HungUpStep(events, c, id, n);
      GivenUpStep(events, c, id, n);
      if events[n - 1].Poll? && id in Run(events, n - 1) {
        var b := BeatExists(events, c, id, n - 1);
        StateTellsLatePolls(events, c, b, id, n - 1);
        RemovedIff(events, c, b, id, n);
      }
    }
  }

  lemma HungUpStep(events: seq<Event>, c: nat, id: Id, n: nat)
    requires c < n - 1 < |events|
    ensures HungUp(events, c, id, n) <==> HungUp(events, c, id, n - 1) || events[n - 1] == Event.Disconnect(id)
  {
  }

  lemma GivenUpStep(events: seq<Event>, c: nat, id: Id, n: nat)
    requires c < n - 1 < |events|
    ensures GivenUp(events, c, id, n) <==>
            GivenUp(events, c, id, n - 1) || GivenUpBy(events, c, n - 1, id)
  {
  }

  lemma RemovedIff(events: seq<Event>, c: nat, b: nat, id: Id, n: nat)
    requires c < n - 1 < |events| && events[n - 1].Poll? && id in Run(events, n - 1)
    requires LastBeat(events, c, b, id, n - 1) && StateTells(events, c, b, id, n - 1)
    ensures Removed(Run(events, n - 1)[id], events[n - 1].now) <==>
            GivenUpBy(events, c, n - 1, id)
  {
    if Removed(Run(events, n - 1)[id], events[n - 1].now) {
      assert AnyLatePoll(events, b, n - 1);
      var p :| p < n - 1 && LatePoll(events, b, p);
      assert GivenUpAt(events, c, b, p, n - 1, id);
    }
    if GivenUpBy(events, c, n - 1, id) {
      var b', p :| GivenUpAt(events, c, b', p, n - 1, id);
      assert b' == b by {
        assert Beats(events, c, b, id) && Beats(events, c, b', id);
      }
    }
  }

  /** Live sessions are connected, active or degraded, never anything else. */
  lemma {:induction false} OnlyThreeStates(events: seq<Event>, n: nat, id: Id)
    requires n <= |events| && id in Run(events, n)
    ensures Run(events, n)[id].state in {Connected, Active, Degraded}
  {
    if id in Run(events, n - 1) {
      OnlyThreeStates(events, n - 1, id);
    }
  }

  // ----- The clock

  /** Heartbeats and polls read the clock under the lock, so no earlier event has a later time. A
      connect reads it before it takes the lock, and may be overtaken. */
  ghost predicate Timed(events: seq<Event>) {
    forall i, j :: 0 <= i < j < |events| && (events[j].Heartbeat? || events[j].Poll?)
      ==> Instant(events[i]) <= Instant(events[j])
  }

  lemma LaterIsLate(since: nat, now: nat, later: nat)
    requires Late(since, now) && now <= later
    ensures Late(since, later)
  {
    assert (now - since) / 1_000_000 <= (later - since) / 1_000_000;
  }

  /** A session silent past the timeout is gone after two polls: once one poll has come too late,
      every later poll finds it gone unless a heartbeat came first. */
  lemma SilentIsGoneAfterTwoPolls(events: seq<Event>, c: nat, id: Id, b: nat, p: nat, q: nat, n: nat)
    requires Timed(events) && c < |events| && ConnectedOnceAt(events, c, id)
    requires b < p < q < |events| && LastBeat(events, c, b, id, q)
    requires LatePoll(events, b, p) && events[q].Poll? && q < n <= |events|
    ensures id !in Run(events, n)
  {
    LaterIsLate(Instant(events[b]), events[p].now, events[q].now);
    assert GivenUpAt(events, c, b, p, q, id) && GivenUpBy(events, c, q, id);
    LivesIff(events, c, id, n);
  }

  /** The second of two polls may come at once: a session degraded and removed at the same instant,
      with no other timeout between. */
  lemma RemovedWithoutAnotherTimeout(id: Id, late: nat)
    requires Late(0, late)
    ensures
      var events := [Event.Connect(id, "p", [], 0, 0), Poll(late), Poll(late)];
      && id in Run(events, 2) && Run(events, 2)[id].state == Degraded
      && id !in Run(events, 3)
  {
    var events := [Event.Connect(id, "p", [], 0, 0), Poll(late), Poll(late)];
    assert Compatible([]);
    assert Run(events, 0) == map[];
    assert Run(events, 1) == After(map[], events[0]);
    assert Run(events, 2) == After(Run(events, 1), events[1]);
    assert Run(events, 3) == After(Run(events, 2), events[2]);
  }

  /** Poll `p` comes within the timeout after some earlier sign of life. */
  ghost predicate Punctual(events: seq<Event>, c: nat, p: int, id: Id)
    requires c < |events|
  {
    exists b :: Beats(events, c, b, id) && b < p && !LatePoll(events, b, p)
  }

  /** A poll in time after one sign of life is in time after the later ones. */
  lemma InTimeAfterLater(events: seq<Event>, c: nat, id: Id, earlier: int, b: int, q: int)
    requires Timed(events) && c < |events| && Beats(events, c, earlier, id) && Beats(events, c, b, id)
    requires earlier <= b < q && !LatePoll(events, earlier, q)
    ensures !LatePoll(events, b, q)
  {
    if earlier < b < q < |events| && events[q].Poll? {
      InTimeInstants(Instant(events[earlier]), Instant(events[b]), events[q].now);
    }
  }

  lemma PunctualIsKept(events: seq<Event>, c: nat, id: Id, q: int)
    requires Timed(events) && c < |events| && Punctual(events, c, q, id)
    ensures !GivenUpBy(events, c, q, id)
  {
    var earlier :| Beats(events, c, earlier, id) && earlier < q && !LatePoll(events, earlier, q);
    forall b | Beats(events, c, b, id) && earlier <= b < q ensures !LatePoll(events, b, q) {
      InTimeAfterLater(events, c, id, earlier, b, q);
    }
  }

  /** A session whose every poll comes within the timeout after a sign of life stays. */
  lemma PunctualStays(events: seq<Event>, c: nat, id: Id, n: nat)
    requires c < n <= |events| && ConnectedOnceAt(events, c, id) && !HungUp(events, c, id, n) && Timed(events)
    requires forall p :: c < p < n && events[p].Poll? ==> Punctual(events, c, p, id)
    ensures id in Run(events, n)
  {
    LivesIff(events, c, id, n);
    forall q | q < n && GivenUpBy(events, c, q, id) ensures c < q && events[q].Poll? {}
    forall q | c < q < n && events[q].Poll? ensures !GivenUpBy(events, c, q, id) {
      PunctualIsKept(events, c, id, q);
    }
  }

  lemma InTimeInstants(earlier: nat, since: nat, now: nat)
    requires earlier <= since && !Late(earlier, now)
    ensures !Late(since, now)
  {
    if since < now {
      assert (now - since) / 1_000_000 <= (now - earlier) / 1_000_000;
    }
  }

  // ----- What a session records

  /** A connect records its peer, its times and what matched; a heartbeat records its times and
      nothing else; a poll records nothing. */
  lemma SessionRecords(sessions: Table, e: Event, id: Id)
    requires id in After(sessions, e)
    ensures
      var info := After(sessions, e)[id];
      && (e.Connect? && e.id == id && Compatible(e.consumes) ==>
            info == Info(e.peer, Connected, e.unixMs, e.unixMs, e.now, Offered(e.consumes)))
      && (id in sessions && !(e.Connect? && e.id == id) ==>
            var was := sessions[id];
            && info.peer == was.peer && info.connectedAtMs == was.connectedAtMs && info.matched == was.matched
            && (if e.Heartbeat? && e.id == id then info.lastHeartbeat == e.now && info.lastHeartbeatMs == e.unixMs
                else info.lastHeartbeat == was.lastHeartbeat && info.lastHeartbeatMs == was.lastHeartbeatMs))
  {
  }
}
