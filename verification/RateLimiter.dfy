/** The per-client sliding-window rate limiter.

Instants are nanosecond counts. A run lists the calls in the order in which they take the lock,
each with the clock value it read before, so readings need not ascend. */
module RateLimiter {

  type Instant = nat

  const U32: nat := 0x1_0000_0000

  // 60 seconds.
  const MINUTE: nat := 60_000_000_000

  /** Elapsed time, zero when the clock value is the later one. */
  function DurationSince(now: Instant, t: Instant): nat {
    if now >= t then now - t else 0
  }

  /** A timestamp that pruning at `now` keeps. */
  predicate Fresh(t: Instant, now: Instant, window: nat) {
    DurationSince(now, t) < window
  }

  /** The timestamps a window has not yet lost at `now`. */
  function Recent(ts: seq<Instant>, now: Instant, window: nat): (r: seq<Instant>)
    ensures |r| <= |ts|
  {
    if ts == [] then []
    else
      var init, t := ts[..|ts| - 1], ts[|ts| - 1];
      if Fresh(t, now, window) then Recent(init, now, window) + [t] else Recent(init, now, window)
  }

  /** The timestamps of the half-open interval [start, start + length). */
  function Within(ts: seq<Instant>, start: nat, length: nat): seq<Instant> {
    if ts == [] then []
    else
      var init, t := ts[..|ts| - 1], ts[|ts| - 1];
      if start <= t < start + length then Within(init, start, length) + [t] else Within(init, start, length)
  }

  type Windows = map<string, seq<Instant>>

  function Stamps(ws: Windows, client: string): seq<Instant> {
    if client in ws then ws[client] else []
  }

  datatype Limiter = Limiter(max: nat, window: nat)

  predicate Allows(l: Limiter, ws: Windows, client: string, now: Instant) {
    l.max == 0 || |Recent(Stamps(ws, client), now, l.window)| < l.max
  }

  function AfterCheck(l: Limiter, ws: Windows, client: string, now: Instant): Windows {
    if l.max == 0 then ws
    else
      var kept := Recent(Stamps(ws, client), now, l.window);
      ws[client := if |kept| < l.max then kept + [now] else kept]
  }

  function AfterRemaining(l: Limiter, ws: Windows, client: string, now: Instant): Windows {
    if l.max == 0 then ws else ws[client := Recent(Stamps(ws, client), now, l.window)]
  }

  /** What `remaining` answers: the quota left, or the whole range of u32 when there is no limit. */
  function QuotaLeft(l: Limiter, ws: Windows, client: string, now: Instant): nat
    requires l.max > 0 ==> |Stamps(ws, client)| <= l.max
  {
    if l.max == 0 then U32 - 1 else l.max - |Recent(Stamps(ws, client), now, l.window)|
  }

  class RateLimiter {
    const limits: Limiter
    var windows: Windows

    /** The limit is a u32 and no window is over it, so a window's length survives the cast to u32. */
    ghost predicate Valid()
      reads this
    {
      limits.max < U32 && forall client :: client in windows ==> |windows[client]| <= limits.max
    }

    constructor (maxRequestsPerMinute: nat)
      requires maxRequestsPerMinute < U32
      ensures Valid() && limits == Limiter(maxRequestsPerMinute, MINUTE) && windows == map[]
    {
      limits := Limiter(maxRequestsPerMinute, MINUTE);
      windows := map[];
    }

    method Check(client: string, now: Instant) returns (allowed: bool)
      requires Valid()
      modifies this
      ensures Valid()
      ensures limits.max == 0 ==> allowed
      ensures allowed <==> Allows(limits, old(windows), client, now)
      ensures windows == AfterCheck(limits, old(windows), client, now)
    {
      if limits.max == 0 {
        return true;
      }
      var timestamps := Recent(Stamps(windows, client), now, limits.window);
      if |timestamps| % U32 >= limits.max {
        allowed := false;
      } else {
        timestamps := timestamps + [now];
        allowed := true;
      }
      windows := windows[client := timestamps];
    }

    /** The subtraction saturates at zero, and never needs to. */
    method Remaining(client: string, now: Instant) returns (left: nat)
      requires Valid()
      modifies this
      ensures Valid()
      ensures windows == AfterRemaining(limits, old(windows), client, now)
      ensures limits.max == 0 ==> left == 0xFFFF_FFFF
      ensures left == QuotaLeft(limits, old(windows), client, now)
    {
      if limits.max == 0 {
        return U32 - 1;
      }
      var timestamps := Recent(Stamps(windows, client), now, limits.window);
      windows := windows[client := timestamps];
      var used := |timestamps| % U32;
      left := if used <= limits.max then limits.max - used else 0;
    }
  }

  // ----- Runs

  datatype Event = Check(client: string, now: Instant) | Remaining(client: string, now: Instant)

  function WindowsAfter(l: Limiter, events: seq<Event>): Windows {
    if events == [] then map[]
    else
      var ws := WindowsAfter(l, events[..|events| - 1]);
      match events[|events| - 1]
      case Check(client, now) => AfterCheck(l, ws, client, now)
      case Remaining(client, now) => AfterRemaining(l, ws, client, now)
  }

  /** The times at which `client` had a request accepted. */
  function Accepted(l: Limiter, events: seq<Event>, client: string): seq<Instant> {
    if events == [] then []
    else
      var init, e := events[..|events| - 1], events[|events| - 1];
      if e.Check? && e.client == client && Allows(l, WindowsAfter(l, init), client, e.now)
      then Accepted(l, init, client) + [e.now]
      else Accepted(l, init, client)
  }

  /** The clock readings of the calls of one client, in the order of the lock. */
  function Readings(events: seq<Event>, client: string): seq<Instant> {
    if events == [] then []
    else
      var init, e := events[..|events| - 1], events[|events| - 1];
      if e.client == client then Readings(init, client) + [e.now] else Readings(init, client)
  }

  lemma {:induction false} StampsAreReadings(l: Limiter, events: seq<Event>, client: string, t: Instant)
    requires l.max > 0 && t in Stamps(WindowsAfter(l, events), client)
    ensures t in Readings(events, client)
  {
    var init, e := events[..|events| - 1], events[|events| - 1];
    if e.client == client {
      RecentIsPart(Stamps(WindowsAfter(l, init), client), e.now, l.window, t);
    }
    if t in Stamps(WindowsAfter(l, init), client) {
      StampsAreReadings(l, init, client, t);
    }
  }

  lemma {:induction false} RecentIsPart(ts: seq<Instant>, now: Instant, window: nat, t: Instant)
    ensures t in Recent(ts, now, window) ==> t in ts
  {
    if ts != [] {
      RecentIsPart(ts[..|ts| - 1], now, window, t);
    }
  }

  // ----- When a window has forgotten nothing that counts

  /** Some reading prunes an earlier one that is still fresh at `now`. */
  ghost predicate Forgets(ts: seq<Instant>, now: Instant, window: nat) {
    exists i, j :: 0 <= i < j < |ts| && !Fresh(ts[i], ts[j], window) && Fresh(ts[i], now, window)
  }

  /** Pruning at `earlier` loses nothing a later pruning would keep. */
  lemma {:induction false} RecentTwice(ts: seq<Instant>, earlier: Instant, now: Instant, window: nat)
    requires forall t :: t in ts && Fresh(t, now, window) ==> Fresh(t, earlier, window)
    ensures Recent(Recent(ts, earlier, window), now, window) == Recent(ts, now, window)
  {
    if ts != [] {
      RecentTwice(ts[..|ts| - 1], earlier, now, window);
    }
  }

  lemma {:induction false} ForgetsMore(ts: seq<Instant>, t: Instant, now: Instant, window: nat)
    requires !Forgets(ts + [t], now, window)
    ensures !Forgets(ts, now, window)
    ensures forall s :: s in ts && Fresh(s, now, window) ==> Fresh(s, t, window)
  {
    var more := ts + [t];
    forall i, j | 0 <= i < j < |ts| ensures Fresh(ts[i], ts[j], window) || !Fresh(ts[i], now, window) {
      assert more[i] == ts[i] && more[j] == ts[j];
    }
    forall s | s in ts && Fresh(s, now, window) ensures Fresh(s, t, window) {
      var i :| 0 <= i < |ts| && ts[i] == s;
      assert more[i] == s && more[|ts|] == t;
    }
  }

  /** If the readings forget nothing that is fresh now, a stored window has lost only accepted
      requests that do not count any more. */
  lemma {:induction false} WindowsHoldRecentAccepted(l: Limiter, events: seq<Event>, client: string, now: Instant)
    requires l.max > 0 && !Forgets(Readings(events, client), now, l.window)
    ensures Recent(Stamps(WindowsAfter(l, events), client), now, l.window) ==
      Recent(Accepted(l, events, client), now, l.window)
  {
    hide WindowsAfter, Accepted, Recent, Fresh, Stamps, Forgets;
    if events == [] {
      NothingYet(l, client);
    } else {
      var init, e := events[..|events| - 1], events[|events| - 1];
      assert events == init + [e];
      if e.client == client {
        var stamps := Stamps(WindowsAfter(l, init), client);
        ForgetsMore(Readings(init, client), e.now, now, l.window);
        forall t | t in stamps ensures t in Readings(init, client) {
          StampsAreReadings(l, init, client, t);
        }
        RecentTwice(stamps, e.now, now, l.window);
        OneMoreCall(l, init, e);
        RecentAppends(Recent(stamps, e.now, l.window), e.now, now, l.window);
        RecentAppends(Accepted(l, init, client), e.now, now, l.window);
      } else {
        OthersCall(l, init, e, client);
      }
      WindowsHoldRecentAccepted(l, init, client, now);
    }
  }

  lemma RecentAppends(ts: seq<Instant>, t: Instant, now: Instant, window: nat)
    ensures ts + [] == ts
    ensures Recent(ts + [t], now, window) == Recent(ts, now, window) + if Fresh(t, now, window) then [t] else []
  {
    assert (ts + [t])[..|ts|] == ts;
  }

  /** A request is refused exactly when `max` requests of the same client were accepted in the
      trailing window. */
  lemma RefusedExactlyAtTheLimit(l: Limiter, events: seq<Event>, client: string, now: Instant)
    requires l.max > 0 && !Forgets(Readings(events, client), now, l.window)
    ensures Allows(l, WindowsAfter(l, events), client, now) <==>
      |Recent(Accepted(l, events, client), now, l.window)| < l.max
    ensures |Recent(Accepted(l, events, client), now, l.window)| <= l.max
  {
    WindowsHoldRecentAccepted(l, events, client, now);
    WindowsStayUnderLimit(l, events, client);
  }

  /** What `remaining` answers and the requests accepted in the trailing window add up to the limit. */
  lemma RemainingIsTheRest(l: Limiter, events: seq<Event>, client: string, now: Instant)
    requires l.max > 0 && !Forgets(Readings(events, client), now, l.window)
    ensures |Stamps(WindowsAfter(l, events), client)| <= l.max
    ensures QuotaLeft(l, WindowsAfter(l, events), client, now)
      + |Recent(Accepted(l, events, client), now, l.window)| == l.max
  {
    WindowsHoldRecentAccepted(l, events, client, now);
    WindowsStayUnderLimit(l, events, client);
  }

  lemma {:induction false} WindowsStayUnderLimit(l: Limiter, events: seq<Event>, client: string)
    requires l.max > 0
    ensures |Stamps(WindowsAfter(l, events), client)| <= l.max
  {
    if events != [] {
      WindowsStayUnderLimit(l, events[..|events| - 1], client);
    }
  }

  // ----- When no window is over the limit

  /** Of two readings that fit in one window, the earlier call is pruned by a call between them. */
  ghost predicate Overtaken(ts: seq<Instant>, window: nat) {
    exists i, j, k :: 0 <= i < j < k < |ts|
      && !Fresh(ts[i], ts[j], window) && Fresh(ts[i], ts[k], window) && Fresh(ts[k], ts[i], window)
  }

  lemma {:induction false} WithinIsRecent(ts: seq<Instant>, start: nat, window: nat, now: Instant)
    requires start <= now < start + window
    ensures |Within(ts, start, window)| <= |Recent(ts, now, window)|
  {
    if ts != [] {
      WithinIsRecent(ts[..|ts| - 1], start, window, now);
    }
  }

  predicate Inside(t: Instant, start: nat, window: nat) {
    start <= t < start + window
  }

  /** No reading in the interval is pruned by a later call. */
  ghost predicate NonePruned(ts: seq<Instant>, start: nat, window: nat) {
    forall i, j :: 0 <= i < j < |ts| && Inside(ts[i], start, window) ==> Fresh(ts[i], ts[j], window)
  }

  lemma NonePrunedBefore(ts: seq<Instant>, t: Instant, start: nat, window: nat)
    requires NonePruned(ts + [t], start, window)
    ensures NonePruned(ts, start, window)
    ensures forall s :: s in ts && Inside(s, start, window) ==> Fresh(s, t, window)
  {
    var more := ts + [t];
    forall i, j | 0 <= i < j < |ts| && Inside(ts[i], start, window) ensures Fresh(ts[i], ts[j], window) {
      assert more[i] == ts[i] && more[j] == ts[j];
    }
    forall s | s in ts && Inside(s, start, window) ensures Fresh(s, t, window) {
      var i :| 0 <= i < |ts| && ts[i] == s;
      assert more[i] == s && more[|ts|] == t;
    }
  }

  lemma {:induction false} PruningKeepsInside(ts: seq<Instant>, now: Instant, start: nat, window: nat)
    requires forall t :: t in ts && Inside(t, start, window) ==> Fresh(t, now, window)
    ensures Within(Recent(ts, now, window), start, window) == Within(ts, start, window)
  {
    if ts != [] {
      PruningKeepsInside(ts[..|ts| - 1], now, start, window);
    }
  }

  lemma {:induction false} AcceptedInsideAreHeld(l: Limiter, events: seq<Event>, client: string, start: nat)
    requires l.max > 0 && NonePruned(Readings(events, client), start, l.window)
    ensures Within(Stamps(WindowsAfter(l, events), client), start, l.window) ==
      Within(Accepted(l, events, client), start, l.window)
  {
    hide WindowsAfter, Accepted, Recent, Fresh, Stamps, NonePruned, Within, Inside;
    if events == [] {
      NothingYet(l, client);
    } else {
      var init, e := events[..|events| - 1], events[|events| - 1];
      assert events == init + [e];
      if e.client == client {
        var stamps := Stamps(WindowsAfter(l, init), client);
        NonePrunedBefore(Readings(init, client), e.now, start, l.window);
        forall t | t in stamps ensures t in Readings(init, client) {
          StampsAreReadings(l, init, client, t);
        }
        PruningKeepsInside(stamps, e.now, start, l.window);
        OneMoreCall(l, init, e);
        WithinAppends(Recent(stamps, e.now, l.window), e.now, start, l.window);
        WithinAppends(Accepted(l, init, client), e.now, start, l.window);
      } else {
        OthersCall(l, init, e, client);
      }
      AcceptedInsideAreHeld(l, init, client, start);
    }
  }

  lemma WithinAppends(ts: seq<Instant>, t: Instant, start: nat, window: nat)
    ensures ts + [] == ts
    ensures Within(ts + [t], start, window) == Within(ts, start, window) + if Inside(t, start, window) then [t] else []
  {
    assert (ts + [t])[..|ts|] == ts;
  }

  lemma OvertakenMore(ts: seq<Instant>, t: Instant, window: nat)
    requires !Overtaken(ts + [t], window)
    ensures !Overtaken(ts, window)
    ensures forall start :: Inside(t, start, window) ==> NonePruned(ts, start, window)
  {
    var more := ts + [t];
    forall i, j, k | 0 <= i < j < k < |ts|
      ensures Fresh(ts[i], ts[j], window) || !Fresh(ts[i], ts[k], window) || !Fresh(ts[k], ts[i], window)
    {
      assert more[i] == ts[i] && more[j] == ts[j] && more[k] == ts[k];
    }
    forall start, i, j | Inside(t, start, window) && 0 <= i < j < |ts| && Inside(ts[i], start, window)
      ensures Fresh(ts[i], ts[j], window)
    {
      assert more[i] == ts[i] && more[j] == ts[j] && more[|ts|] == t;
    }
  }

  /** No interval of one window length ever holds more than `max` accepted requests of a client whose
      readings are not overtaken. */
  lemma {:induction false} NoWindowOverTheLimit(l: Limiter, events: seq<Event>, client: string, start: nat)
    requires l.max > 0 && !Overtaken(Readings(events, client), l.window)
    ensures |Within(Accepted(l, events, client), start, l.window)| <= l.max
  {
    if events != [] {
      var init, e := events[..|events| - 1], events[|events| - 1];
      if e.client == client {
        OvertakenMore(Readings(init, client), e.now, l.window);
      }
      NoWindowOverTheLimit(l, init, client, start);
      if e.Check? && e.client == client && Inside(e.now, start, l.window) {
        AcceptedInsideAreHeld(l, init, client, start);
        WithinIsRecent(Stamps(WindowsAfter(l, init), client), start, l.window, e.now);
      }
    }
  }

  // ----- These conditions are exact

  /** The calls of one client with the first `n` of these readings: `check` at the picked ones and
      `remaining` at the others. */
  function Picked(ts: seq<Instant>, picks: set<nat>, client: string, n: nat): seq<Event>
    requires n <= |ts|
  {
    if n == 0 then []
    else Picked(ts, picks, client, n - 1)
         + [if n - 1 in picks then Check(client, ts[n - 1]) else Remaining(client, ts[n - 1])]
  }

  lemma {:induction false} ReadingsOfPicked(ts: seq<Instant>, picks: set<nat>, client: string, n: nat)
    requires n <= |ts|
    ensures Readings(Picked(ts, picks, client, n), client) == ts[..n]
  {
    if n > 0 {
      ReadingsOfPicked(ts, picks, client, n - 1);
      var init := Picked(ts, picks, client, n - 1);
      assert Picked(ts, picks, client, n)[..|Picked(ts, picks, client, n)| - 1] == init;
      assert ts[..n] == ts[..n - 1] + [ts[n - 1]];
    }
  }

  /** What a run with limit one holds before, at and after its first accepted call `i`: the stamp of
      `i`, until a call prunes it. */
  lemma {:induction false} FirstPick(w: nat, ts: seq<Instant>, picks: set<nat>, client: string, i: nat, n: nat)
    requires n <= |ts| && i < |ts| && i in picks && forall m :: m in picks && m < n ==> m == i
    ensures
      var l, events := Limiter(1, w), Picked(ts, picks, client, n);
      var stamps := Stamps(WindowsAfter(l, events), client);
      && Accepted(l, events, client) == (if n <= i then [] else [ts[i]])
      && (stamps == [] || (n > i && stamps == [ts[i]]))
      && ((exists j :: i < j < n && !Fresh(ts[i], ts[j], w)) ==> stamps == [])
  {
    hide WindowsAfter, Accepted, Recent, Fresh, Stamps, Picked;
    var l := Limiter(1, w);
    PickStep(ts, picks, client, n);
    if n == 0 {
      NothingYet(l, client);
    } else {
      var init := Picked(ts, picks, client, n - 1);
      FirstPick(w, ts, picks, client, i, n - 1);
      OneMoreCall(l, init, if n - 1 in picks then Check(client, ts[n - 1]) else Remaining(client, ts[n - 1]));
      RecentOfOne(ts[i], ts[n - 1], w);
    }
  }

  lemma PickStep(ts: seq<Instant>, picks: set<nat>, client: string, n: nat)
    requires n <= |ts|
    ensures Picked(ts, picks, client, n) == if n == 0 then [] else
      Picked(ts, picks, client, n - 1)
      + [if n - 1 in picks then Check(client, ts[n - 1]) else Remaining(client, ts[n - 1])]
  {
  }

  lemma NothingYet(l: Limiter, client: string)
    ensures Accepted(l, [], client) == [] && Stamps(WindowsAfter(l, []), client) == []
  {
  }

  lemma OthersCall(l: Limiter, events: seq<Event>, e: Event, client: string)
    requires e.client != client
    ensures Stamps(WindowsAfter(l, events + [e]), client) == Stamps(WindowsAfter(l, events), client)
    ensures Accepted(l, events + [e], client) == Accepted(l, events, client)
  {
    assert (events + [e])[..|events|] == events;
  }

  /** What one more call of a client does to its window and to the requests it had accepted. */
  lemma OneMoreCall(l: Limiter, events: seq<Event>, e: Event)
    requires l.max > 0
    ensures
      var kept := Recent(Stamps(WindowsAfter(l, events), e.client), e.now, l.window);
      var accepted := if e.Check? && |kept| < l.max then [e.now] else [];
      && Stamps(WindowsAfter(l, events + [e]), e.client) == kept + accepted
      && Accepted(l, events + [e], e.client) == Accepted(l, events, e.client) + accepted
  {
    hide Recent;
    OneMoreEvent(l, events, e);
  }

  lemma RecentOfOne(t: Instant, now: Instant, window: nat)
    ensures Recent([], now, window) == []
    ensures Recent([t], now, window) == if Fresh(t, now, window) then [t] else []
  {
    assert [t][..0] == [];
  }

  /** After the last picked call nothing more is accepted. */
  lemma {:induction false} NothingAfterLastPick(l: Limiter, ts: seq<Instant>, picks: set<nat>, client: string,
      k: nat, n: nat)
    requires k <= n <= |ts| && forall m :: m in picks ==> m < k
    ensures Accepted(l, Picked(ts, picks, client, n), client) == Accepted(l, Picked(ts, picks, client, k), client)
  {
    if k < n {
      NothingAfterLastPick(l, ts, picks, client, k, n - 1);
      OneMoreEvent(l, Picked(ts, picks, client, n - 1), Remaining(client, ts[n - 1]));
    }
  }

  /** Whatever calls make these readings, every window that is asked holds what counts. */
  ghost predicate AlwaysHeld(ts: seq<Instant>, now: Instant, window: nat, client: string) {
    forall l: Limiter, events :: l.max > 0 && l.window == window && Readings(events, client) == ts ==>
      Recent(Stamps(WindowsAfter(l, events), client), now, window) == Recent(Accepted(l, events, client), now, window)
  }

  lemma WindowsHoldIff(ts: seq<Instant>, now: Instant, window: nat, client: string)
    ensures AlwaysHeld(ts, now, window, client) <==> !Forgets(ts, now, window)
  {
    hide Accepted, Picked, Recent, Readings, Stamps, WindowsAfter;
    if !Forgets(ts, now, window) {
      forall l: Limiter, events | l.max > 0 && l.window == window && Readings(events, client) == ts
        ensures Recent(Stamps(WindowsAfter(l, events), client), now, window) ==
          Recent(Accepted(l, events, client), now, window)
      {
        WindowsHoldRecentAccepted(l, events, client, now);
      }
    } else {
      var i: nat, j :| i < j < |ts| && !Fresh(ts[i], ts[j], window) && Fresh(ts[i], now, window);
      var events := Picked(ts, {i}, client, |ts|);
      ReadingsOfPicked(ts, {i}, client, |ts|);
      FirstPick(window, ts, {i}, client, i, |ts|);
      RecentOfOne(ts[i], now, window);
      assert ts[..|ts|] == ts;
      assert Recent(Stamps(WindowsAfter(Limiter(1, window), events), client), now, window)
          != Recent(Accepted(Limiter(1, window), events, client), now, window);
    }
  }

  /** Whatever calls make these readings, no interval of one window length is over the limit. */
  ghost predicate AlwaysUnderLimit(ts: seq<Instant>, window: nat, client: string) {
    forall l: Limiter, events, start: nat :: l.max > 0 && l.window == window && Readings(events, client) == ts ==>
      |Within(Accepted(l, events, client), start, window)| <= l.max
  }

  lemma AcceptsBoth(ts: seq<Instant>, window: nat, client: string, i: nat, j: nat, k: nat)
    requires i < j < k < |ts| && !Fresh(ts[i], ts[j], window)
    ensures Accepted(Limiter(1, window), Picked(ts, {i, k}, client, |ts|), client) == [ts[i]] + [ts[k]]
  {
    hide WindowsAfter, Accepted, Recent, Stamps, Picked, Fresh;
    var l, picks := Limiter(1, window), {i, k};
    assert forall m :: m in picks && m < k ==> m == i;
    FirstPick(window, ts, picks, client, i, k);
    PickStep(ts, picks, client, k + 1);
    OneMoreCall(l, Picked(ts, picks, client, k), Check(client, ts[k]));
    RecentOfOne(ts[i], ts[k], window);
    NothingAfterLastPick(l, ts, picks, client, k + 1, |ts|);
  }

  lemma OvertakenBreaksTheLimit(ts: seq<Instant>, window: nat, client: string, i: nat, j: nat, k: nat)
    requires i < j < k < |ts|
    requires !Fresh(ts[i], ts[j], window) && Fresh(ts[i], ts[k], window) && Fresh(ts[k], ts[i], window)
    ensures
      var start := if ts[i] <= ts[k] then ts[i] else ts[k];
      |Within(Accepted(Limiter(1, window), Picked(ts, {i, k}, client, |ts|), client), start, window)| == 2
  {
    hide Accepted, Picked, Within;
    AcceptsBoth(ts, window, client, i, j, k);
    TwoInside(ts[i], ts[k], if ts[i] <= ts[k] then ts[i] else ts[k], window);
  }

  lemma TwoInside(t: Instant, u: Instant, start: nat, window: nat)
    requires Inside(t, start, window) && Inside(u, start, window)
    ensures |Within([t] + [u], start, window)| == 2
  {
    OneMoreStamp([], t, start, window);
    OneMoreStamp([] + [t], u, start, window);
    assert [] + [t] == [t];
  }

  /** The limit holds for every choice of calls and every limit if and only if the clock readings
      are not overtaken: this depends on the readings alone. */
  lemma LimitHoldsIff(ts: seq<Instant>, window: nat, client: string)
    ensures AlwaysUnderLimit(ts, window, client) <==> !Overtaken(ts, window)
  {
    hide Accepted, Picked, Within, Readings;
    if !Overtaken(ts, window) {
      forall l: Limiter, events, start: nat | l.max > 0 && l.window == window && Readings(events, client) == ts
        ensures |Within(Accepted(l, events, client), start, window)| <= l.max
      {
        NoWindowOverTheLimit(l, events, client, start);
      }
    } else {
      var i: nat, j: nat, k: nat :| i < j < k < |ts|
        && !Fresh(ts[i], ts[j], window) && Fresh(ts[i], ts[k], window) && Fresh(ts[k], ts[i], window);
      ReadingsOfPicked(ts, {i, k}, client, |ts|);
      assert ts[..|ts|] == ts;
      OvertakenBreaksTheLimit(ts, window, client, i, j, k);
    }
  }

  // ----- A clock that never goes back

  ghost predicate Ascending(ts: seq<Instant>) {
    forall i, j :: 0 <= i < j < |ts| ==> ts[i] <= ts[j]
  }

  /** Readings that ascend are not overtaken, and forget nothing that counts now or later. */
  lemma AscendingIsSafe(ts: seq<Instant>, now: Instant, window: nat)
    requires Ascending(ts) && forall i :: 0 <= i < |ts| ==> ts[i] <= now
    ensures !Overtaken(ts, window) && !Forgets(ts, now, window)
  {
  }

  lemma OneMoreEvent(l: Limiter, events: seq<Event>, e: Event)
    ensures WindowsAfter(l, events + [e]) == if e.Check? then AfterCheck(l, WindowsAfter(l, events), e.client, e.now)
                                             else AfterRemaining(l, WindowsAfter(l, events), e.client, e.now)
    ensures Accepted(l, events + [e], e.client) ==
            if e.Check? && Allows(l, WindowsAfter(l, events), e.client, e.now)
            then Accepted(l, events, e.client) + [e.now] else Accepted(l, events, e.client)
  {
    assert (events + [e])[..|events|] == events;
  }

  lemma OneMoreStamp(ts: seq<Instant>, t: Instant, start: nat, length: nat)
    ensures Within(ts + [t], start, length) ==
      if start <= t < start + length then Within(ts, start, length) + [t] else Within(ts, start, length)
    ensures Recent(ts + [t], start, length) ==
      if Fresh(t, start, length) then Recent(ts, start, length) + [t] else Recent(ts, start, length)
  {
    assert (ts + [t])[..|ts|] == ts;
  }

  /** The code reads the clock before it locks, so a call can prune with a later time than that of
      the next call. Then a limit of one request a minute breaks. */
  lemma LateClockReadBreaksTheLimit()
    ensures exists events, client, start: nat ::
      |Within(Accepted(Limiter(1, MINUTE), events, client), start, MINUTE)| == 2
  {
    var ts: seq<Instant> := [90_000_000_000, 150_000_000_000, 60_000_000_000];
    OvertakenBreaksTheLimit(ts, MINUTE, "c", 0, 1, 2);
  }

  // ----- No limit

  /** The times of all checks of a client. */
  function CheckTimes(events: seq<Event>, client: string): seq<Instant> {
    if events == [] then []
    else
      var init, e := events[..|events| - 1], events[|events| - 1];
      if e.Check? && e.client == client then CheckTimes(init, client) + [e.now] else CheckTimes(init, client)
  }

  /** A limit of 0 is no limit: every check is accepted, in every run, and nothing is stored. */
  lemma {:induction false} NoLimitAcceptsAll(l: Limiter, events: seq<Event>, client: string)
    requires l.max == 0
    ensures Accepted(l, events, client) == CheckTimes(events, client)
    ensures WindowsAfter(l, events) == map[]
  {
    if events != [] {
      NoLimitAcceptsAll(l, events[..|events| - 1], client);
    }
  }

  /** With a limit, the first check of a client is accepted, and refused checks are not stored. */
  lemma FirstCheckIsAccepted(l: Limiter, ws: Windows, client: string, now: Instant)
    ensures client !in ws ==> Allows(l, ws, client, now)
    ensures l.max > 0 ==>
      var kept := Recent(Stamps(ws, client), now, l.window);
      Stamps(AfterCheck(l, ws, client, now), client) == if Allows(l, ws, client, now) then kept + [now] else kept
  {
    assert Recent([], now, l.window) == [];
  }

  /** One minute. */
  lemma WindowIsOneMinute(t: Instant, now: Instant)
    ensures Fresh(t, now, MINUTE) <==> now < t + 60_000_000_000
  {
  }

  // ----- Clients

  function Only(events: seq<Event>, client: string): seq<Event> {
    if events == [] then []
    else
      var init, e := events[..|events| - 1], events[|events| - 1];
      if e.client == client then Only(init, client) + [e] else Only(init, client)
  }

  /** What a client gets does not depend on the other clients' calls. */
  lemma {:induction false} ClientsAreIndependent(l: Limiter, events: seq<Event>, client: string)
    ensures Accepted(l, events, client) == Accepted(l, Only(events, client), client)
    ensures Stamps(WindowsAfter(l, events), client) == Stamps(WindowsAfter(l, Only(events, client)), client)
  {
    if events != [] {
      var init, e := events[..|events| - 1], events[|events| - 1];
      ClientsAreIndependent(l, init, client);
      if e.client == client {
        assert Only(events, client)[..|Only(events, client)| - 1] == Only(init, client);
      }
    }
  }
}
