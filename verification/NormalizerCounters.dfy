/** The normalizer's drift handler and its status counters, under any number of concurrent calls.

A call looks up a strategy, counts itself active in one lock region, runs the strategy, and counts
itself completed or failed in a second lock region. It keeps its read lock on the strategy list
until it returns, so registering a strategy waits for the calls that have entered.

What a strategy decides about a drift event, how it ends, the clock, and whether the result
channel accepts a message are parameters. */
module NormalizerCounters {
  import opened Wrappers
  import FiniteSets

  datatype DriftType =
    | SemanticVectorDrift | GraphDocumentDrift | TemporalConsistencyDrift | TensorDrift
    | SchemaDrift | ProvenanceDrift | SpatialDrift | QualityDrift

  type Outcome = Option<string>    // the normalization result; None when the strategy fails

  datatype Strategy = Strategy(name: string, applies: set<DriftType>)

  datatype Event = Event(score: real, drift: DriftType)

  datatype Config = Config(minScore: real, hasChannel: bool)

  datatype Status = Status(active: int, completed: int, failures: int, last: Option<int>)

  const IDLE: Status := Status(0, 0, 0, None)

  datatype Answer = Skipped | Normalized(result: string) | StrategyFailed | ChannelError

  /** The first strategy that applies to the drift type. */
  predicate Finds(strategies: seq<Strategy>, drift: DriftType, found: Option<Strategy>) {
    match found
    case None => forall s :: s in strategies ==> drift !in s.applies
    case Some(s) =>
      exists i :: 0 <= i < |strategies| && strategies[i] == s && drift in s.applies
        && forall k :: 0 <= k < i ==> drift !in strategies[k].applies
  }

  lemma FindsOnce(strategies: seq<Strategy>, drift: DriftType, a: Option<Strategy>, b: Option<Strategy>)
    requires Finds(strategies, drift, a) && Finds(strategies, drift, b)
    ensures a == b
  {
  }

  // ----- The two lock regions

  function CountUp(s: Status): Status {
    s.(active := s.active + 1)
  }

  function CountDown(s: Status, outcome: Outcome, now: int): Status {
    var s' := s.(active := s.active - 1);
    match outcome
    case Some(_) => s'.(completed := s'.completed + 1, last := Some(now))
    case None => s'.(failures := s'.failures + 1)
  }

  function AnswerOf(cfg: Config, outcome: Outcome, sent: bool): Answer {
    match outcome
    case None => StrategyFailed
    case Some(result) => if cfg.hasChannel && !sent then ChannelError else Normalized(result)
  }

  /** A failed strategy is reported as such; a result is handed on, unless there is a channel and it
      does not take it. */
  lemma AnswersTell(cfg: Config, result: string, sent: bool)
    ensures AnswerOf(cfg, None, sent) == StrategyFailed
    ensures AnswerOf(cfg, Some(result), true) == Normalized(result)
    ensures AnswerOf(cfg, Some(result), false) == if cfg.hasChannel then ChannelError else Normalized(result)
  {
  }

  // ----- One call on its own

  class Normalizer {
    const cfg: Config
    var strategies: seq<Strategy>
    var status: Status

    constructor (cfg: Config)
      ensures this.cfg == cfg && strategies == [] && status == IDLE
    {
      this.cfg, strategies, status := cfg, [], IDLE;
    }

    method RegisterStrategy(s: Strategy)
      modifies this`strategies
      ensures strategies == old(strategies) + [s]
    {
      strategies := strategies + [s];
    }

    method Find(drift: DriftType) returns (found: Option<Strategy>)
      ensures Finds(strategies, drift, found)
    {
      found := None;
      for i := 0 to |strategies|
        invariant forall k :: 0 <= k < i ==> drift !in strategies[k].applies
      {
        if drift in strategies[i].applies {
          return Some(strategies[i]);
        }
      }
    }

    /** `outcome` is how each strategy ends. */
    method HandleDrift(event: Event, outcome: Strategy -> Outcome, now: int, sent: bool) returns (r: Answer)
      modifies this`status
      ensures r == Skipped <==> event.score < cfg.minScore || Finds(strategies, event.drift, None)
      ensures r == Skipped ==> status == old(status)
      ensures r != Skipped ==>
        exists s :: (Finds(strategies, event.drift, Some(s))
          && r == AnswerOf(cfg, outcome(s), sent)
          && status == CountDown(CountUp(old(status)), outcome(s), now))
    {
      if event.score < cfg.minScore {
        return Skipped;
      }
      var found := Find(event.drift);
      if found == None {
        return Skipped;
      }
      status := status.(active := status.active + 1);
      var result := outcome(found.value);
      status := status.(active := status.active - 1);
      match result {
        case Some(_) => status := status.(completed := status.completed + 1, last := Some(now));
        case None => status := status.(failures := status.failures + 1);
      }
      match result {
        case None => r := StrategyFailed;
        case Some(value) => r := if cfg.hasChannel && !sent then ChannelError else Normalized(value);
      }
    }
  }

  // ----- Concurrent calls

  datatype Phase =
    | Entered(strategy: Strategy)
    | Running(strategy: Strategy)
    | Counted(strategy: Strategy, outcome: Outcome)
    | Answered(answer: Answer)

  datatype Call = Call(event: Event, phase: Phase)

  datatype State = State(strategies: seq<Strategy>, calls: map<nat, Call>, status: Status)

  datatype Step =
    | Register(strategy: Strategy)
    | Enter(call: nat, event: Event)
    | Start(call: nat)
    | Finish(call: nat, outcome: Outcome, now: int)
    | Reply(call: nat, sent: bool)

  predicate HoldsListLock(c: Call) {
    !c.phase.Answered?
  }

  ghost predicate Next(cfg: Config, s: State, step: Step, s': State) {
    match step
    case Register(strategy) =>
      && (forall id :: id in s.calls ==> !HoldsListLock(s.calls[id]))
      && s' == s.(strategies := s.strategies + [strategy])
    case Enter(id, event) =>
      && id !in s.calls
      && exists phase ::
           s' == s.(calls := s.calls[id := Call(event, phase)]) && EntersAs(cfg, s.strategies, event, phase)
    case Start(id) =>
      && id in s.calls && s.calls[id].phase.Entered?
      && s' == s.(calls := s.calls[id := s.calls[id].(phase := Running(s.calls[id].phase.strategy))],
                  status := CountUp(s.status))
    case Finish(id, outcome, now) =>
      && id in s.calls && s.calls[id].phase.Running?
      && s' == s.(calls := s.calls[id := s.calls[id].(phase := Counted(s.calls[id].phase.strategy, outcome))],
                  status := CountDown(s.status, outcome, now))
    case Reply(id, sent) =>
      && id in s.calls && s.calls[id].phase.Counted?
      && var answer := AnswerOf(cfg, s.calls[id].phase.outcome, sent);
         s' == s.(calls := s.calls[id := s.calls[id].(phase := Answered(answer))])
  }

  /** A call that is skipped answers at once; any other goes on with the strategy it found. */
  predicate EntersAs(cfg: Config, strategies: seq<Strategy>, event: Event, phase: Phase) {
    if event.score < cfg.minScore then phase == Answered(Skipped)
    else match phase
      case Entered(s) => Finds(strategies, event.drift, Some(s))
      case Answered(a) => a == Skipped && Finds(strategies, event.drift, None)
      case _ => false
  }

  ghost predicate IsRun(cfg: Config, states: seq<State>, steps: seq<Step>) {
    && |states| == |steps| + 1
    && states[0] == State([], map[], IDLE)
    && forall i :: 0 <= i < |steps| ==> Next(cfg, states[i], steps[i], states[i + 1])
  }

  // ----- The counters count calls

  function RunningCalls(s: State): set<nat> {
    set id | id in s.calls && s.calls[id].phase.Running?
  }

  predicate HasCompleted(p: Phase) {
    || (p.Counted? && p.outcome.Some?)
    || (p.Answered? && (p.answer.Normalized? || p.answer.ChannelError?))
  }

  predicate HasFailed(p: Phase) {
    || (p.Counted? && p.outcome.None?)
    || (p.Answered? && p.answer.StrategyFailed?)
  }

  function CompletedCalls(s: State): set<nat> {
    set id | id in s.calls && HasCompleted(s.calls[id].phase)
  }

  function FailedCalls(s: State): set<nat> {
    set id | id in s.calls && HasFailed(s.calls[id].phase)
  }

  /** The calls that passed the first lock region. */
  function StartedCalls(s: State): set<nat> {
    set id | id in s.calls && !s.calls[id].phase.Entered? && s.calls[id].phase != Answered(Skipped)
  }

  /** Each counter is the number of calls in its phase. */
  ghost predicate CountersCount(s: State) {
    && s.status.active == |RunningCalls(s)|
    && s.status.completed == |CompletedCalls(s)|
    && s.status.failures == |FailedCalls(s)|
    && (s.status.last == None <==> s.status.completed == 0)
  }

  /** `to` is `from` after `id` has been taken out or put in according to `member`. */
  lemma SizeAfter(from: set<nat>, to: set<nat>, id: nat, member: bool)
    requires forall k :: k in to <==> if k == id then member else k in from
    ensures |to| - FiniteSets.One(member) == |from| - FiniteSets.One(id in from)
  {
    assert to - {id} == from - {id};
    assert id in from ==> from == from - {id} + {id};
    assert id in to ==> to == to - {id} + {id};
    assert id !in from ==> from == from - {id};
    assert id !in to ==> to == to - {id};
  }

  /** A call that has not entered counts for nothing, like a skipped one. */
  function PhaseIn(s: State, id: nat): Phase {
    if id in s.calls then s.calls[id].phase else Answered(Skipped)
  }

  predicate StatusFollows(s: Status, p: Phase, s': Status, p': Phase) {
    && s'.active - FiniteSets.One(p'.Running?) == s.active - FiniteSets.One(p.Running?)
    && s'.completed - FiniteSets.One(HasCompleted(p')) == s.completed - FiniteSets.One(HasCompleted(p))
    && s'.failures - FiniteSets.One(HasFailed(p')) == s.failures - FiniteSets.One(HasFailed(p))
  }

  /** The status moves with the phase of the one call that a step changes. */
  lemma PhaseChangeKeepsCounts(s: State, s': State, id: nat)
    requires CountersCount(s) && id in s'.calls && s'.calls == s.calls[id := s'.calls[id]]
    requires StatusFollows(s.status, PhaseIn(s, id), s'.status, PhaseIn(s', id))
    requires s'.status.last == None <==> s'.status.completed == 0
    ensures CountersCount(s')
  {
    SizeAfter(RunningCalls(s), RunningCalls(s'), id, s'.calls[id].phase.Running?);
    SizeAfter(CompletedCalls(s), CompletedCalls(s'), id, HasCompleted(s'.calls[id].phase));
    SizeAfter(FailedCalls(s), FailedCalls(s'), id, HasFailed(s'.calls[id].phase));
  }

  lemma StepKeepsCounts(cfg: Config, s: State, step: Step, s': State)
    requires CountersCount(s) && Next(cfg, s, step, s')
    ensures CountersCount(s')
  {
    hide RunningCalls, CompletedCalls, FailedCalls;
    if step.Register? {
      CallsDecideCounts(s, s');
    } else {
      PhaseChangeKeepsCounts(s, s', step.call);
    }
  }

  lemma CallsDecideCounts(s: State, s': State)
    requires CountersCount(s) && s'.calls == s.calls && s'.status == s.status
    ensures CountersCount(s')
  {
    assert RunningCalls(s') == RunningCalls(s);
  }

  lemma {:induction false} RunsCount(cfg: Config, states: seq<State>, steps: seq<Step>, n: nat)
    requires IsRun(cfg, states, steps) && n <= |steps|
    ensures CountersCount(states[n])
  {
    if n == 0 {
      assert RunningCalls(states[0]) == CompletedCalls(states[0]) == FailedCalls(states[0]) == {};
    } else {
      RunsCount(cfg, states, steps, n - 1);
      StepKeepsCounts(cfg, states[n - 1], steps[n - 1], states[n]);
    }
  }

  lemma StartedSize(s: State)
    ensures |StartedCalls(s)| == |RunningCalls(s)| + |CompletedCalls(s)| + |FailedCalls(s)|
  {
    var running, completed, failed := RunningCalls(s), CompletedCalls(s), FailedCalls(s);
    assert StartedCalls(s) == running + completed + failed;
    assert running !! completed && (running + completed) !! failed;
  }

  /** At every moment of every run the calls started are those active, completed and failed. */
  lemma StartedIsActivePlusEnded(cfg: Config, states: seq<State>, steps: seq<Step>, n: nat)
    requires IsRun(cfg, states, steps) && n <= |steps|
    ensures |StartedCalls(states[n])| ==
      states[n].status.active + states[n].status.completed + states[n].status.failures
  {
    RunsCount(cfg, states, steps, n);
    StartedSize(states[n]);
  }

  /** The counter a finishing call takes down is positive: it never underflows. */
  lemma DecrementIsSafe(cfg: Config, states: seq<State>, steps: seq<Step>, n: nat)
    requires IsRun(cfg, states, steps) && n < |steps| && steps[n].Finish?
    ensures states[n].status.active > 0
  {
    RunsCount(cfg, states, steps, n);
    assert Next(cfg, states[n], steps[n], states[n + 1]);
    assert steps[n].call in RunningCalls(states[n]);
  }

  /** When no call is under way, nothing is counted active, and completions and failures are
      exactly the calls answered with a result (sent or not) and with a strategy failure. */
  lemma QuietCounters(cfg: Config, states: seq<State>, steps: seq<Step>, n: nat)
    requires IsRun(cfg, states, steps) && n <= |steps|
    requires forall id :: id in states[n].calls ==> states[n].calls[id].phase.Answered?
    ensures states[n].status.active == 0
    ensures states[n].status.completed ==
            |set id | id in states[n].calls && states[n].calls[id].phase.answer !in {Skipped, StrategyFailed}|
    ensures states[n].status.failures ==
            |set id | id in states[n].calls && states[n].calls[id].phase.answer == StrategyFailed|
  {
    RunsCount(cfg, states, steps, n);
    var s := states[n];
    assert RunningCalls(s) == {};
    assert CompletedCalls(s) == set id | id in s.calls && s.calls[id].phase.answer !in {Skipped, StrategyFailed};
    assert FailedCalls(s) == set id | id in s.calls && s.calls[id].phase.answer == StrategyFailed;
  }

  /** Whatever else runs, only the two lock regions touch the status: a skipped call, a reply and
      a failed send leave it as it is. */
  lemma OnlyRegionsCount(cfg: Config, s: State, step: Step, s': State)
    requires Next(cfg, s, step, s')
    ensures s'.status != s.status ==> step.Start? || step.Finish?
    ensures step.Start? ==> s'.status.active == s.status.active + 1
    ensures step.Finish? ==>
      s'.status.active + s'.status.completed + s'.status.failures
      == s.status.active + s.status.completed + s.status.failures
    ensures step.Finish? ==>
      && s'.status.completed == s.status.completed + FiniteSets.One(step.outcome.Some?)
      && s'.status.failures == s.status.failures + FiniteSets.One(step.outcome.None?)
      && s'.status.last == if step.outcome.Some? then Some(step.now) else s.status.last
  {
  }

  // ----- The strategy list

  /** A strategy registered later is found only where no earlier one applies. */
  lemma EarlierStrategyWins(
    cfg: Config, s: State, strategy: Strategy, s': State, drift: DriftType, found: Option<Strategy>)
    requires Next(cfg, s, Register(strategy), s') && Finds(s.strategies, drift, found)
    ensures Finds(s'.strategies, drift,
                  if found.Some? then found else if drift in strategy.applies then Some(strategy) else None)
  {
    var n := |s.strategies|;
    assert s'.strategies[n] == strategy && forall k :: 0 <= k < n ==> s'.strategies[k] == s.strategies[k];
  }

  /** A call is skipped exactly when its score is below the threshold or no strategy applies, and
      otherwise enters with the strategy found. */
  lemma SkippedIff(cfg: Config, s: State, call: nat, event: Event, s': State)
    requires Next(cfg, s, Enter(call, event), s')
    ensures
      var phase := s'.calls[call].phase;
      && (phase == Answered(Skipped) <==>
            event.score < cfg.minScore || forall x :: x in s.strategies ==> event.drift !in x.applies)
      && (phase != Answered(Skipped) ==> phase.Entered? && event.drift in phase.strategy.applies)
  {
  }

  /** The strategy of a call under way. */
  function StrategyOf(c: Call): (s: Option<Strategy>)
  {
    match c.phase
    case Answered(_) => None
    case Entered(x) => Some(x)
    case Running(x) => Some(x)
    case Counted(x, _) => Some(x)
  }

  ghost predicate StrategiesAreCurrent(cfg: Config, s: State) {
    forall id :: id in s.calls && HoldsListLock(s.calls[id]) ==>
      !(s.calls[id].event.score < cfg.minScore) && Finds(s.strategies, s.calls[id].event.drift, StrategyOf(s.calls[id]))
  }

  /** Because a call keeps its read lock, the strategy it runs is at every later moment of the call
      the first in the registered list that applies to its event. */
  lemma {:induction false} StrategyStaysCurrent(cfg: Config, states: seq<State>, steps: seq<Step>, n: nat)
    requires IsRun(cfg, states, steps) && n <= |steps|
    ensures StrategiesAreCurrent(cfg, states[n])
  {
    if n > 0 {
      StrategyStaysCurrent(cfg, states, steps, n - 1);
      var s, s' := states[n - 1], states[n];
      assert Next(cfg, s, steps[n - 1], s');
      forall id | id in s'.calls && HoldsListLock(s'.calls[id])
        ensures !(s'.calls[id].event.score < cfg.minScore)
                && Finds(s'.strategies, s'.calls[id].event.drift, StrategyOf(s'.calls[id]))
      {
        if id in s.calls && HoldsListLock(s.calls[id]) {
          assert StrategyOf(s.calls[id]) == StrategyOf(s'.calls[id]);
        }
      }
    }
  }
}
