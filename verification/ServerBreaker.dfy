/** The circuit breaker middleware (middleware/circuitbreaker.go): one breaker,
    the calls in flight through it, and every interleaving of admissions and
    completions. Time is an integer clock reading. */
module ServerBreaker {
  import opened FailureMarks

  datatype CircuitState = Closed | Open | HalfOpen

  /** The options only ever store positive values. */
  datatype Config = Config(failureThreshold: int, successThreshold: int, timeout: int, maxHalfOpen: int) {
    ghost predicate Valid() { failureThreshold >= 1 && successThreshold >= 1 && timeout >= 1 && maxHalfOpen >= 1 }
  }

  datatype Breaker = Breaker(state: CircuitState, failures: int, successes: int, lastFailure: int, halfOpenCount: int)

  function Transition(b: Breaker, to: CircuitState): Breaker {
    b.(state := to, successes := 0, halfOpenCount := 0, failures := if to == Closed then 0 else b.failures)
  }

  function MaybeHalfOpen(cfg: Config, b: Breaker, now: int): Breaker {
    if b.state == Open && now > b.lastFailure + cfg.timeout then Transition(b, HalfOpen) else b
  }

  /** Whether beforeCall lets the call through, judged after the transition. */
  predicate Admits(cfg: Config, b: Breaker) {
    b.state == Closed || (b.state == HalfOpen && b.halfOpenCount < cfg.maxHalfOpen)
  }

  function Before(cfg: Config, b0: Breaker, now: int): Breaker {
    var b := MaybeHalfOpen(cfg, b0, now);
    if b.state == HalfOpen && Admits(cfg, b) then b.(halfOpenCount := b.halfOpenCount + 1) else b
  }

  function After(cfg: Config, b: Breaker, admitted: CircuitState, failed: bool, now: int): Breaker {
    match admitted
    case Closed =>
      if !failed then b.(failures := 0)
      else if b.failures + 1 >= cfg.failureThreshold
      then Transition(b.(failures := b.failures + 1, lastFailure := now), Open)
      else b.(failures := b.failures + 1)
    case HalfOpen =>
      if b.state != HalfOpen then (if failed then b.(lastFailure := now, successes := 0) else b)
      else if failed then Transition(b.(lastFailure := now), Open)
      else if b.successes + 1 >= cfg.successThreshold && b.halfOpenCount - 1 == 0 then Transition(b, Closed)
      else b.(halfOpenCount := b.halfOpenCount - 1, successes := b.successes + 1)
    case Open => b
  }

  // ----------------------------------------------------------------- object

  class CircuitBreaker {
    const cfg: Config
    var state: CircuitState
    var failures: int
    var successes: int
    var lastFailureTime: int
    var halfOpenCount: int

    ghost function Snapshot(): Breaker
      reads this
    {
      Breaker(state, failures, successes, lastFailureTime, halfOpenCount)
    }

    constructor (cfg: Config)
      ensures this.cfg == cfg && Snapshot() == Breaker(Closed, 0, 0, 0, 0)
    {
      this.cfg := cfg;
      state, failures, successes, lastFailureTime, halfOpenCount := Closed, 0, 0, 0, 0;
    }

    method TransitionLocked(to: CircuitState)
      modifies this
      ensures Snapshot() == Transition(old(Snapshot()), to)
    {
      state := to;
      successes := 0;
      halfOpenCount := 0;
      if to == Closed { failures := 0; }
    }

    method BeforeCall(now: int) returns (admitted: CircuitState, ok: bool)
      modifies this
      ensures Snapshot() == Before(cfg, old(Snapshot()), now)
      ensures admitted == MaybeHalfOpen(cfg, old(Snapshot()), now).state
      ensures ok <==> Admits(cfg, MaybeHalfOpen(cfg, old(Snapshot()), now))
    {
      if state == Open && now > lastFailureTime + cfg.timeout {
        TransitionLocked(HalfOpen);
      }
      admitted := state;
      match state {
        case Closed => ok := true;
        case Open => ok := false;
        case HalfOpen =>
          if halfOpenCount >= cfg.maxHalfOpen {
            ok := false;
          } else {
            halfOpenCount := halfOpenCount + 1;
            ok := true;
          }
      }
    }

    method AfterCall(admitted: CircuitState, failed: bool, now: int)
      modifies this
      ensures Snapshot() == After(cfg, old(Snapshot()), admitted, failed, now)
    {
      match admitted {
        case Closed =>
          if failed {
            failures := failures + 1;
            if failures >= cfg.failureThreshold {
              lastFailureTime := now;
              TransitionLocked(Open);
            }
          } else {
            failures := 0;
          }
        case HalfOpen =>
          if state == HalfOpen { halfOpenCount := halfOpenCount - 1; }
          if failed {
            lastFailureTime := now;
            successes := 0;
            if state == HalfOpen { TransitionLocked(Open); }
          } else if state == HalfOpen {
            successes := successes + 1;
            if successes >= cfg.successThreshold && halfOpenCount == 0 {
              TransitionLocked(Closed);
            }
          }
        case Open =>
      }
    }
  }

  // -------------------------------------------------------------------- runs

  /** A call in flight: the state it was admitted under and, for a probe, the
      half-open episode it belongs to. */
  datatype Flight = Flight(admitted: CircuitState, episode: nat)

  /** The breaker with its calls in flight and the successes in the current
      half-open episode, of its own probes and of older ones (stale). openedAt
      is when the circuit last became open, marks are the failures of calls
      admitted while closed and what wiped them out, and recorded is the time of
      the last failure that counts for the timeout: of a probe, or one that
      reached the threshold. */
  datatype Sys = Sys(b: Breaker, episode: nat, flights: map<nat, Flight>, stale: nat, own: nat,
                     openedAt: int, clock: int, marks: seq<Mark>, recorded: int)

  datatype Event = Start(id: nat, now: int) | Finish(id: nat, failed: bool, now: int)

  function Init(): Sys { Sys(Breaker(Closed, 0, 0, 0, 0), 0, map[], 0, 0, 0, 0, [], 0) }

  /** Starts use fresh ids, finishes need a call in flight, clocks do not go back. */
  predicate Enabled(s: Sys, e: Event) {
    s.clock <= e.now && (if e.Start? then e.id !in s.flights else e.id in s.flights)
  }

  function Step(cfg: Config, s: Sys, e: Event): Sys
    requires Enabled(s, e)
  {
    match e
    case Start(id, now) =>
      var b := MaybeHalfOpen(cfg, s.b, now);
      var episode := if b.state != s.b.state then s.episode + 1 else s.episode;
      var flights := if Admits(cfg, b) then s.flights[id := Flight(b.state, episode)] else s.flights;
      var same := b.state == s.b.state;
      Sys(Before(cfg, s.b, now), episode, flights,
          if same then s.stale else 0, if same then s.own else 0, s.openedAt, now, s.marks, s.recorded)
    case Finish(id, failed, now) =>
      var fl := s.flights[id];
      var b := After(cfg, s.b, fl.admitted, failed, now);
      var probe := fl.admitted == HalfOpen && s.b.state == HalfOpen && b.state == HalfOpen;
      Sys(b, s.episode, s.flights - {id},
          if b.state != HalfOpen then 0 else if probe && fl.episode != s.episode then s.stale + 1 else s.stale,
          if b.state != HalfOpen then 0 else if probe && fl.episode == s.episode then s.own + 1 else s.own,
          if b.state == Open && s.b.state != Open then now else s.openedAt,
          now,
          if fl.admitted == Closed then s.marks + [if failed then Trip else Wipe]
          else if s.b.state != Closed && b.state == Closed then s.marks + [Wipe] else s.marks,
          if failed && (fl.admitted == HalfOpen || TripsSinceWipe(s.marks) + 1 >= cfg.failureThreshold) then now
          else s.recorded)
  }

  ghost predicate Runs(cfg: Config, s: Sys, es: seq<Event>, t: Sys)
    decreases |es|
  {
    if es == [] then s == t else Enabled(s, es[0]) && Runs(cfg, Step(cfg, s, es[0]), es[1..], t)
  }

  /** Probes of the current half-open episode still in flight. */
  function Probes(s: Sys): set<nat> {
    set id | id in s.flights && s.flights[id] == Flight(HalfOpen, s.episode)
  }

  ghost predicate Inv(cfg: Config, s: Sys) {
    && (s.b.state == Closed ==> 0 <= s.b.failures < cfg.failureThreshold)
    && s.b.failures == TripsSinceWipe(s.marks) && s.b.lastFailure == s.recorded && s.b.successes == s.own + s.stale
    && s.b.halfOpenCount <= cfg.maxHalfOpen
    && (s.b.state == HalfOpen ==> s.b.halfOpenCount == |Probes(s)| - s.stale)
    && (s.b.state != HalfOpen ==> s.b.halfOpenCount == 0 && s.stale == 0 && s.own == 0)
    && (s.b.state == Open ==> s.openedAt <= s.b.lastFailure <= s.clock)
    && (forall id :: id in s.flights ==> s.flights[id].episode <= s.episode && s.flights[id].admitted != Open)
  }

  lemma StartKeepsInv(cfg: Config, s: Sys, id: nat, now: int)
    requires cfg.Valid() && Inv(cfg, s) && Enabled(s, Start(id, now))
    ensures Inv(cfg, Step(cfg, s, Start(id, now)))
  {
    var t := Step(cfg, s, Start(id, now));
    var b := MaybeHalfOpen(cfg, s.b, now);
    if b.state == HalfOpen {
      if s.b.state == Open {
        assert Probes(t) == {id};
      } else if Admits(cfg, b) {
        assert Probes(t) == Probes(s) + {id};
      } else {
        assert Probes(t) == Probes(s);
      }
    }
  }

  lemma FinishProbes(cfg: Config, s: Sys, id: nat, failed: bool, now: int)
    requires Enabled(s, Finish(id, failed, now))
    ensures var t := Step(cfg, s, Finish(id, failed, now));
      |Probes(t)| == |Probes(s)| - if s.flights[id] == Flight(HalfOpen, s.episode) then 1 else 0
  {
    var t := Step(cfg, s, Finish(id, failed, now));
    if s.flights[id] == Flight(HalfOpen, s.episode) {
      assert id in Probes(s);
      assert Probes(t) == Probes(s) - {id};
    } else {
      assert Probes(t) == Probes(s);
    }
  }

  /** A success admitted while closed wipes the failures and moves nothing. */
  lemma EarlySuccessKeepsInv(cfg: Config, s: Sys, id: nat, now: int)
    requires cfg.Valid() && Inv(cfg, s) && Enabled(s, Finish(id, false, now)) && s.flights[id].admitted == Closed
    ensures Inv(cfg, Step(cfg, s, Finish(id, false, now)))
  {
    MarkTrip(s.marks);
    FinishProbes(cfg, s, id, false, now);
  }

  /** A failure below the threshold is counted and moves nothing. */
  lemma EarlyFailureKeepsInv(cfg: Config, s: Sys, id: nat, now: int)
    requires cfg.Valid() && Inv(cfg, s) && Enabled(s, Finish(id, true, now)) && s.flights[id].admitted == Closed
    requires s.b.failures + 1 < cfg.failureThreshold
    ensures Inv(cfg, Step(cfg, s, Finish(id, true, now)))
  {
    MarkTrip(s.marks);
    FinishProbes(cfg, s, id, true, now);
  }

  /** One that reaches it opens the circuit, from whatever state. */
  lemma LastFailureKeepsInv(cfg: Config, s: Sys, id: nat, now: int)
    requires cfg.Valid() && Inv(cfg, s) && Enabled(s, Finish(id, true, now)) && s.flights[id].admitted == Closed
    requires s.b.failures + 1 >= cfg.failureThreshold
    ensures Inv(cfg, Step(cfg, s, Finish(id, true, now)))
  {
    MarkTrip(s.marks);
  }

  lemma EarlyFinishKeepsInv(cfg: Config, s: Sys, id: nat, failed: bool, now: int)
    requires cfg.Valid() && Inv(cfg, s) && Enabled(s, Finish(id, failed, now)) && s.flights[id].admitted == Closed
    ensures Inv(cfg, Step(cfg, s, Finish(id, failed, now)))
  {
    if !failed {
      EarlySuccessKeepsInv(cfg, s, id, now);
    } else if s.b.failures + 1 < cfg.failureThreshold {
      EarlyFailureKeepsInv(cfg, s, id, now);
    } else {
      LastFailureKeepsInv(cfg, s, id, now);
    }
  }

  lemma ProbeFinishKeepsInv(cfg: Config, s: Sys, id: nat, failed: bool, now: int)
    requires cfg.Valid() && Inv(cfg, s) && Enabled(s, Finish(id, failed, now)) && s.flights[id].admitted == HalfOpen
    ensures Inv(cfg, Step(cfg, s, Finish(id, failed, now)))
  {
    MarkTrip(s.marks);
    FinishProbes(cfg, s, id, failed, now);
  }

  lemma FinishKeepsInv(cfg: Config, s: Sys, id: nat, failed: bool, now: int)
    requires cfg.Valid() && Inv(cfg, s) && Enabled(s, Finish(id, failed, now))
    ensures Inv(cfg, Step(cfg, s, Finish(id, failed, now)))
  {
    if s.flights[id].admitted == Closed {
      EarlyFinishKeepsInv(cfg, s, id, failed, now);
    } else {
      ProbeFinishKeepsInv(cfg, s, id, failed, now);
    }
  }

  lemma {:induction false} RunsKeepInv(cfg: Config, s: Sys, es: seq<Event>, t: Sys)
    requires cfg.Valid() && Inv(cfg, s) && Runs(cfg, s, es, t)
    ensures Inv(cfg, t)
    decreases |es|
  {
    if es != [] {
      match es[0] {
        case Start(id, now) => StartKeepsInv(cfg, s, id, now);
        case Finish(id, failed, now) => FinishKeepsInv(cfg, s, id, failed, now);
      }
      RunsKeepInv(cfg, Step(cfg, s, es[0]), es[1..], t);
    }
  }

  /** In every run: closed means failures below the threshold, the half-open
      counter stays within its maximum, and it equals the probes in flight
      exactly when no older probe completed inside the current episode. */
  lemma EveryRunIsSafe(cfg: Config, es: seq<Event>, t: Sys)
    requires cfg.Valid() && Runs(cfg, Init(), es, t)
    ensures t.b.failures == TripsSinceWipe(t.marks)
    ensures t.b.state == Closed ==> TripsSinceWipe(t.marks) < cfg.failureThreshold
    ensures t.b.halfOpenCount <= cfg.maxHalfOpen
    ensures t.b.state == HalfOpen ==>
      t.b.halfOpenCount == |Probes(t)| - t.stale && (t.b.halfOpenCount == |Probes(t)| <==> t.stale == 0)
  {
    RunsKeepInv(cfg, Init(), es, t);
  }

  /** Open is left only for half-open, and only after the timeout since the
      circuit opened and since the last recorded failure. */
  lemma OpenLastsTheTimeout(cfg: Config, es: seq<Event>, s: Sys, e: Event)
    requires cfg.Valid() && Runs(cfg, Init(), es, s) && Enabled(s, e)
    requires s.b.state == Open && Step(cfg, s, e).b.state != Open
    ensures Step(cfg, s, e).b.state == HalfOpen
    ensures e.now > s.b.lastFailure + cfg.timeout && e.now > s.openedAt + cfg.timeout
  {
    RunsKeepInv(cfg, Init(), es, s);
  }

  /** Exactly when an event closes the circuit: it is the success of a probe, in
      half-open, that completes the success threshold together with the
      episode's own and older successes, and the probes in flight are one more
      than those older successes. */
  lemma ClosesIff(cfg: Config, es: seq<Event>, s: Sys, e: Event)
    requires cfg.Valid() && Runs(cfg, Init(), es, s) && Enabled(s, e) && s.b.state != Closed
    ensures Step(cfg, s, e).b.state == Closed <==>
      && s.b.state == HalfOpen && e.Finish? && !e.failed && s.flights[e.id].admitted == HalfOpen
      && s.own + s.stale + 1 >= cfg.successThreshold && |Probes(s)| == s.stale + 1
  {
    RunsKeepInv(cfg, Init(), es, s);
  }

  /** What closing leaves behind: as many probes of the episode still in flight
      as older probes took part, and none if and only if none did. Then the
      threshold was met by the episode's own probes. */
  lemma ClosingNeedsSuccesses(cfg: Config, es: seq<Event>, s: Sys, e: Event)
    requires cfg.Valid() && Runs(cfg, Init(), es, s) && Enabled(s, e)
    requires s.b.state != Closed && Step(cfg, s, e).b.state == Closed
    ensures e.Finish?
    ensures var older := s.stale + if s.flights[e.id].episode == s.episode then 0 else 1;
      && |Probes(s) - {e.id}| == older
      && (Probes(s) - {e.id} == {} <==> older == 0)
      && (older == 0 ==> s.own + 1 >= cfg.successThreshold)
  {
    RunsKeepInv(cfg, Init(), es, s);
    ClosesIff(cfg, es, s, e);
    if s.flights[e.id].episode == s.episode {
      assert e.id in Probes(s);
    } else {
      assert Probes(s) - {e.id} == Probes(s);
    }
    EmptyIff(Probes(s) - {e.id});
  }

  lemma EmptyIff(s: set<nat>)
    ensures |s| == 0 <==> s == {}
  {}

  /** In every run a call is let through if and only if the circuit is closed, or
      open with the timeout passed since the last failure that counts for it, or
      half-open with fewer probes in flight than its maximum, older successes
      taken off. */
  lemma AdmittedIff(cfg: Config, es: seq<Event>, s: Sys, id: nat, now: int)
    requires cfg.Valid() && Runs(cfg, Init(), es, s) && Enabled(s, Start(id, now))
    ensures id in Step(cfg, s, Start(id, now)).flights <==>
      match s.b.state
      case Closed => true
      case Open => now > s.recorded + cfg.timeout
      case HalfOpen => |Probes(s)| - s.stale < cfg.maxHalfOpen
  {
    RunsKeepInv(cfg, Init(), es, s);
  }

  /** The state after every event, from the counted failures, the outcome and the
      state the call was admitted under. */
  lemma EveryMove(cfg: Config, es: seq<Event>, s: Sys, e: Event)
    requires cfg.Valid() && Runs(cfg, Init(), es, s) && Enabled(s, e)
    ensures var next := Step(cfg, s, e).b.state;
      match e
      case Start(_, now) => next == if s.b.state == Open && now > s.recorded + cfg.timeout then HalfOpen else s.b.state
      case Finish(id, failed, _) =>
        if s.flights[id].admitted == Closed then
          next == if failed && TripsSinceWipe(s.marks) + 1 >= cfg.failureThreshold then Open else s.b.state
        else if s.b.state != HalfOpen then next == s.b.state
        else if failed then next == Open
        else next == if s.own + s.stale + 1 >= cfg.successThreshold && |Probes(s)| == s.stale + 1 then Closed else HalfOpen
  {
    RunsKeepInv(cfg, Init(), es, s);
  }

  // --------------------------------------------------------- older completions

  /** In a full half-open episode an older probe that succeeds either closes the
      circuit over the probes in flight, or frees a slot that was never its own,
      so that the next call exceeds the configured maximum. It closes only with
      a maximum of one and the threshold met. */
  lemma StaleSuccessOveradmits(cfg: Config, s: Sys, older: nat, next: nat)
    requires cfg.Valid() && Inv(cfg, s) && s.b.state == HalfOpen && s.b.halfOpenCount == cfg.maxHalfOpen
    requires older in s.flights && s.flights[older].admitted == HalfOpen && s.flights[older].episode < s.episode
    requires next !in s.flights
    ensures var t := Step(cfg, s, Finish(older, false, s.clock));
      if cfg.maxHalfOpen >= 2 || s.own + s.stale + 1 < cfg.successThreshold
      then t.b.state == HalfOpen && Enabled(t, Start(next, s.clock))
           && |Probes(Step(cfg, t, Start(next, s.clock)))| == cfg.maxHalfOpen + s.stale + 1
      else t.b.state == Closed && |Probes(s)| == s.stale + 1
  {
    var t := Step(cfg, s, Finish(older, false, s.clock));
    if t.b.state == HalfOpen {
      assert Probes(t) == Probes(s);
      assert Probes(Step(cfg, t, Start(next, s.clock))) == Probes(t) + {next};
    }
  }

  ghost predicate Reachable(cfg: Config, t: Sys) { exists es :: Runs(cfg, Init(), es, t) }

  lemma {:induction false} RunsSnoc(cfg: Config, s: Sys, es: seq<Event>, t: Sys, e: Event)
    requires Runs(cfg, s, es, t) && Enabled(t, e)
    ensures Runs(cfg, s, es + [e], Step(cfg, t, e))
    decreases |es|
  {
    if es == [] {
      assert [e][1..] == [];
    } else {
      RunsSnoc(cfg, Step(cfg, s, es[0]), es[1..], t, e);
      assert (es + [e])[1..] == es[1..] + [e];
    }
  }

  lemma ReachStep(cfg: Config, s: Sys, e: Event)
    requires Reachable(cfg, s) && Enabled(s, e)
    ensures Reachable(cfg, Step(cfg, s, e))
  {
    var es :| Runs(cfg, Init(), es, s);
    RunsSnoc(cfg, Init(), es, s, e);
  }

  lemma ReachInv(cfg: Config, s: Sys)
    requires cfg.Valid() && Reachable(cfg, s)
    ensures Inv(cfg, s)
  {
    var es :| Runs(cfg, Init(), es, s);
    RunsKeepInv(cfg, Init(), es, s);
  }

  /** Failing calls open the circuit while one early call is still out. */
  lemma {:induction false} FailUntilOpen(cfg: Config, s: Sys) returns (t: Sys)
    requires cfg.Valid() && Reachable(cfg, s) && s.b.state == Closed && 0 <= s.b.failures < cfg.failureThreshold
    requires s.flights == map[1 := Flight(Closed, 0)] && s.episode == 0
    ensures Reachable(cfg, t) && t.b.state == Open && t.b.failures >= cfg.failureThreshold && t.b.lastFailure == t.clock
    ensures t.flights == s.flights && t.episode == 0
    decreases cfg.failureThreshold - s.b.failures
  {
    var u := Step(cfg, s, Start(0, s.clock));
    ReachStep(cfg, s, Start(0, s.clock));
    t := Step(cfg, u, Finish(0, true, s.clock));
    ReachStep(cfg, u, Finish(0, true, s.clock));
    assert t.flights == s.flights;
    if t.b.state == Closed { t := FailUntilOpen(cfg, t); }
  }

  /** A later episode in which call 2, a probe of the first one, is still out. */
  ghost predicate OlderProbeOut(s: Sys, next: nat) {
    && s.b.state == HalfOpen && s.episode == 2 && s.stale == 0 && s.own == 0
    && 2 in s.flights && s.flights[2] == Flight(HalfOpen, 1) && forall id :: id in s.flights ==> id < next
  }

  /** The late failure of a call admitted while closed reopens the circuit with
      the first probe out; the next timeout starts a second episode. */
  lemma SecondEpisode(cfg: Config, s: Sys) returns (t: Sys)
    requires cfg.Valid() && Reachable(cfg, s) && s.b.state == Open && s.b.failures >= cfg.failureThreshold
    requires s.b.lastFailure == s.clock && s.flights == map[1 := Flight(Closed, 0)] && s.episode == 0
    ensures Reachable(cfg, t) && OlderProbeOut(t, 4) && t.b.halfOpenCount == 1
  {
    var late := s.clock + cfg.timeout + 1;
    var p := Step(cfg, s, Start(2, late));
    ReachStep(cfg, s, Start(2, late));
    var q := Step(cfg, p, Finish(1, true, late));
    ReachStep(cfg, p, Finish(1, true, late));
    assert q.flights == map[2 := Flight(HalfOpen, 1)];
    var later := late + cfg.timeout + 1;
    t := Step(cfg, q, Start(3, later));
    ReachStep(cfg, q, Start(3, later));
  }

  lemma {:induction false} FillUp(cfg: Config, s: Sys, next: nat) returns (t: Sys, free: nat)
    requires cfg.Valid() && Reachable(cfg, s) && OlderProbeOut(s, next) && s.b.halfOpenCount <= cfg.maxHalfOpen
    ensures Reachable(cfg, t) && OlderProbeOut(t, free) && t.b.halfOpenCount == cfg.maxHalfOpen
    decreases cfg.maxHalfOpen - s.b.halfOpenCount
  {
    t, free := s, next;
    if s.b.halfOpenCount < cfg.maxHalfOpen {
      t := Step(cfg, s, Start(next, s.clock));
      ReachStep(cfg, s, Start(next, s.clock));
      t, free := FillUp(cfg, t, next + 1);
    }
  }

  /** For every configuration a full episode with an older probe out is reached. */
  lemma StaleStateIsReachable(cfg: Config) returns (t: Sys, next: nat)
    requires cfg.Valid()
    ensures Reachable(cfg, t) && OlderProbeOut(t, next) && t.b.halfOpenCount == cfg.maxHalfOpen
  {
    assert Runs(cfg, Init(), [], Init());
    ReachStep(cfg, Init(), Start(1, 0));
    t := Step(cfg, Init(), Start(1, 0));
    t := FailUntilOpen(cfg, t);
    t := SecondEpisode(cfg, t);
    t, next := FillUp(cfg, t, 4);
  }

  ghost predicate MayOveradmit(cfg: Config) {
    exists t :: Reachable(cfg, t) && t.b.state == HalfOpen && |Probes(t)| > cfg.maxHalfOpen
  }

  lemma SingleStart(cfg: Config, s: Sys, id: nat, now: int)
    requires cfg.Valid() && cfg.maxHalfOpen == 1 && Enabled(s, Start(id, now))
    requires s.b.state == HalfOpen ==> s.b.halfOpenCount == 1 && s.stale == 0
    ensures var t := Step(cfg, s, Start(id, now)); t.b.state == HalfOpen ==> t.b.halfOpenCount == 1 && t.stale == 0
  {}

  lemma SingleFinish(cfg: Config, s: Sys, id: nat, failed: bool, now: int)
    requires cfg.Valid() && cfg.maxHalfOpen == 1 && cfg.successThreshold == 1 && Inv(cfg, s)
    requires Enabled(s, Finish(id, failed, now))
    requires s.b.state == HalfOpen ==> s.b.halfOpenCount == 1 && s.stale == 0
    ensures var t := Step(cfg, s, Finish(id, failed, now)); t.b.state == HalfOpen ==> t.b.halfOpenCount == 1 && t.stale == 0
  {}

  /** With one slot and one success needed, every completion ends the episode. */
  lemma {:induction false} SingleProbe(cfg: Config, s: Sys, es: seq<Event>, t: Sys)
    requires cfg.Valid() && cfg.maxHalfOpen == 1 && cfg.successThreshold == 1 && Inv(cfg, s) && Runs(cfg, s, es, t)
    requires s.b.state == HalfOpen ==> s.b.halfOpenCount == 1 && s.stale == 0
    ensures t.b.state == HalfOpen ==> t.b.halfOpenCount == 1 && t.stale == 0
    decreases |es|
  {
    if es != [] {
      match es[0] {
        case Start(id, now) =>
          StartKeepsInv(cfg, s, id, now);
          SingleStart(cfg, s, id, now);
        case Finish(id, failed, now) =>
          FinishKeepsInv(cfg, s, id, failed, now);
          SingleFinish(cfg, s, id, failed, now);
      }
      SingleProbe(cfg, Step(cfg, s, es[0]), es[1..], t);
    }
  }

  /** The configured maximum can be exceeded by the probes of one episode if and
      only if it is at least two or more than one success is needed to close.
      The default, one slot and two successes, is such a configuration. */
  lemma OveradmissionIff(cfg: Config)
    requires cfg.Valid()
    ensures MayOveradmit(cfg) <==> cfg.maxHalfOpen >= 2 || cfg.successThreshold >= 2
  {
    if cfg.maxHalfOpen >= 2 || cfg.successThreshold >= 2 {
      var s, next := StaleStateIsReachable(cfg);
      ReachInv(cfg, s);
      StaleSuccessOveradmits(cfg, s, 2, next);
      var t := Step(cfg, s, Finish(2, false, s.clock));
      ReachStep(cfg, s, Finish(2, false, s.clock));
      ReachStep(cfg, t, Start(next, s.clock));
      var u := Step(cfg, t, Start(next, s.clock));
      assert u.b.state == HalfOpen && |Probes(u)| > cfg.maxHalfOpen;
    } else {
      forall t | Reachable(cfg, t) && t.b.state == HalfOpen ensures |Probes(t)| <= cfg.maxHalfOpen {
        var es :| Runs(cfg, Init(), es, t);
        SingleProbe(cfg, Init(), es, t);
        ReachInv(cfg, t);
      }
    }
  }
}
