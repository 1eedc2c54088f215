/** The client transport's circuit breaker (client/circuitbreaker.go). A request
    carries no record of the state it was admitted under, so requests in flight
    are only counted. */
module ClientBreaker {
  import opened Options
  import opened FailureMarks

  datatype CircuitState = Closed | Open | HalfOpen

  datatype Config = Config(maxFailures: int, openTimeout: int, halfOpenMax: int) {
    ghost predicate Valid() { maxFailures >= 1 && openTimeout >= 1 && halfOpenMax >= 1 }
  }

  datatype Breaker = Breaker(state: CircuitState, failures: int, lastFailure: int, halfOpenRequests: int)

  /** The result of a request: success, an error ShouldTrip counts, or another
      error. A success that a custom ShouldTrip counts is a Tripping. */
  datatype Outcome = Success | Tripping | Harmless

  predicate Admits(cfg: Config, b: Breaker, now: int) {
    match b.state
    case Closed => true
    case Open => now - b.lastFailure >= cfg.openTimeout
    case HalfOpen => b.halfOpenRequests < cfg.halfOpenMax
  }

  function Before(cfg: Config, b: Breaker, now: int): Breaker {
    if !Admits(cfg, b, now) || b.state == Closed then b
    else if b.state == Open then b.(state := HalfOpen, halfOpenRequests := 1)
    else b.(halfOpenRequests := b.halfOpenRequests + 1)
  }

  function After(cfg: Config, b: Breaker, o: Outcome, now: int): Breaker {
    match o
    case Harmless => b
    case Success =>
      if b.state == HalfOpen then b.(state := Closed, failures := 0, halfOpenRequests := 0)
      else if b.state == Closed then b.(failures := 0) else b
    case Tripping =>
      var late := b.(lastFailure := now);
      match b.state
      case Closed =>
        var counted := late.(failures := b.failures + 1);
        if counted.failures >= cfg.maxFailures then counted.(state := Open) else counted
      case HalfOpen => late.(state := Open, halfOpenRequests := 0)
      case Open => late
  }

  class CircuitBreaker {
    const cfg: Config
    var state: CircuitState
    var consecutiveFailures: int
    var lastFailureTime: int
    var halfOpenRequests: int

    ghost function Snapshot(): Breaker
      reads this
    {
      Breaker(state, consecutiveFailures, lastFailureTime, halfOpenRequests)
    }

    /** Zero or negative options take the defaults. */
    constructor (maxFailures: int, openTimeout: int, halfOpenMax: int)
      ensures cfg.Valid() && Snapshot() == Breaker(Closed, 0, 0, 0)
      ensures maxFailures > 0 ==> cfg.maxFailures == maxFailures
      ensures maxFailures <= 0 ==> cfg.maxFailures == 5
      ensures openTimeout > 0 ==> cfg.openTimeout == openTimeout
      ensures openTimeout <= 0 ==> cfg.openTimeout == 30_000_000_000
      ensures halfOpenMax > 0 ==> cfg.halfOpenMax == halfOpenMax
      ensures halfOpenMax <= 0 ==> cfg.halfOpenMax == 1
    {
      cfg := Config(if maxFailures <= 0 then 5 else maxFailures,
                    if openTimeout <= 0 then 30_000_000_000 else openTimeout,
                    if halfOpenMax <= 0 then 1 else halfOpenMax);
      state, consecutiveFailures, lastFailureTime, halfOpenRequests := Closed, 0, 0, 0;
    }

    method BeforeRequest(now: int) returns (ok: bool)
      modifies this
      ensures Snapshot() == Before(cfg, old(Snapshot()), now)
      ensures ok <==> Admits(cfg, old(Snapshot()), now)
    {
      match state {
        case Closed => ok := true;
        case Open =>
          if now - lastFailureTime >= cfg.openTimeout {
            state := HalfOpen;
            halfOpenRequests := 1;
            return true;
          }
          ok := false;
        case HalfOpen =>
          if halfOpenRequests < cfg.halfOpenMax {
            halfOpenRequests := halfOpenRequests + 1;
            return true;
          }
          ok := false;
      }
    }

    method AfterRequest(o: Outcome, now: int)
      modifies this
      ensures Snapshot() == After(cfg, old(Snapshot()), o, now)
    {
      if o != Tripping {
        if state == HalfOpen {
          if o == Success {
            state := Closed;
            consecutiveFailures := 0;
            halfOpenRequests := 0;
          }
        } else if state == Closed && o == Success {
          consecutiveFailures := 0;
        }
        return;
      }
      lastFailureTime := now;
      match state {
        case Closed =>
          consecutiveFailures := consecutiveFailures + 1;
          if consecutiveFailures >= cfg.maxFailures { state := Open; }
        case HalfOpen =>
          halfOpenRequests := 0;
          state := Open;
        case Open =>
      }
    }
  }

  // -------------------------------------------------------------------- runs

  datatype Event = Start(now: int) | Finish(outcome: Outcome, now: int)

  /** The breaker, its requests in flight, the tripping failures seen while closed
      with the successes and closings that wipe them out, and the requests the
      half-open episode has let through. */
  datatype Sys = Sys(b: Breaker, inflight: nat, marks: seq<Mark>, admitted: nat)

  function Init(): Sys { Sys(Breaker(Closed, 0, 0, 0), 0, [], 0) }

  predicate Enabled(s: Sys, e: Event) { e.Finish? ==> s.inflight > 0 }

  function Step(cfg: Config, s: Sys, e: Event): Sys
    requires Enabled(s, e)
  {
    match e
    case Start(now) =>
      var b := Before(cfg, s.b, now);
      if !Admits(cfg, s.b, now) then s
      else Sys(b, s.inflight + 1, s.marks, if s.b.state == Open then 1 else s.admitted + 1)
    case Finish(o, now) =>
      var b := After(cfg, s.b, o, now);
      var marks := if s.b.state == Closed && o == Tripping then s.marks + [Trip]
                   else if (s.b.state == Closed && o == Success) || (s.b.state != Closed && b.state == Closed)
                   then s.marks + [Wipe] else s.marks;
      Sys(b, s.inflight - 1, marks, s.admitted)
  }

  ghost predicate Runs(cfg: Config, s: Sys, es: seq<Event>, t: Sys)
    decreases |es|
  {
    if es == [] then s == t else Enabled(s, es[0]) && Runs(cfg, Step(cfg, s, es[0]), es[1..], t)
  }

  ghost predicate Inv(cfg: Config, s: Sys) {
    && s.b.failures == TripsSinceWipe(s.marks)
    && (if s.b.state == Closed then s.b.failures < cfg.maxFailures else s.b.failures == cfg.maxFailures)
    && (s.b.state == HalfOpen ==> 1 <= s.b.halfOpenRequests == s.admitted <= cfg.halfOpenMax)
  }

  lemma StartKeepsInv(cfg: Config, s: Sys, now: int)
    requires cfg.Valid() && Inv(cfg, s)
    ensures Inv(cfg, Step(cfg, s, Start(now)))
  {}

  lemma TripKeepsInv(cfg: Config, s: Sys, now: int)
    requires cfg.Valid() && Inv(cfg, s) && s.inflight > 0
    ensures Inv(cfg, Step(cfg, s, Finish(Tripping, now)))
  {
    MarkTrip(s.marks);
  }

  lemma SuccessKeepsInv(cfg: Config, s: Sys, now: int)
    requires cfg.Valid() && Inv(cfg, s) && s.inflight > 0
    ensures Inv(cfg, Step(cfg, s, Finish(Success, now)))
  {
    MarkTrip(s.marks);
  }

  lemma StepKeepsInv(cfg: Config, s: Sys, e: Event)
    requires cfg.Valid() && Inv(cfg, s) && Enabled(s, e)
    ensures Inv(cfg, Step(cfg, s, e))
  {
    match e
    case Start(now) => StartKeepsInv(cfg, s, now);
    case Finish(Tripping, now) => TripKeepsInv(cfg, s, now);
    case Finish(Success, now) => SuccessKeepsInv(cfg, s, now);
    case Finish(Harmless, now) =>
  }

  lemma {:induction false} RunsKeepInv(cfg: Config, s: Sys, es: seq<Event>, t: Sys)
    requires cfg.Valid() && Inv(cfg, s) && Runs(cfg, s, es, t)
    ensures Inv(cfg, t)
    decreases |es|
  {
    if es != [] {
      StepKeepsInv(cfg, s, es[0]);
      RunsKeepInv(cfg, Step(cfg, s, es[0]), es[1..], t);
    }
  }

  /** In every run the counter is the number of tripping failures seen while
      closed since the last success or closing; it is below the maximum while
      closed and stays at it otherwise; and a half-open episode has admitted at
      most its maximum in total. */
  lemma EveryRunIsSafe(cfg: Config, es: seq<Event>, t: Sys)
    requires cfg.Valid() && Runs(cfg, Init(), es, t)
    ensures t.b.failures == TripsSinceWipe(t.marks)
    ensures t.b.state == Closed <==> t.b.failures < cfg.maxFailures
    ensures t.b.state != Closed <==> t.b.failures == cfg.maxFailures
    ensures t.b.state == HalfOpen ==> 1 <= t.admitted <= cfg.halfOpenMax
  {
    RunsKeepInv(cfg, Init(), es, t);
  }

  // ----------------------------------------------------- admission and moves

  /** When the last tripping failure came in, read from the events. */
  function LastTrip(es: seq<Event>): Option<int> {
    if es == [] then None
    else
      var e := es[|es| - 1];
      if e.Finish? && e.outcome == Tripping then Some(e.now) else LastTrip(es[..|es| - 1])
  }

  /** The breaker's clock is that of the last trip, and only a trip opens it. */
  ghost predicate TripTold(done: seq<Event>, b: Breaker) {
    && (LastTrip(done).Some? ==> b.lastFailure == LastTrip(done).value)
    && (b.state != Closed ==> LastTrip(done).Some?)
  }

  lemma LastTripSnoc(done: seq<Event>, e: Event)
    ensures LastTrip(done + [e]) == if e.Finish? && e.outcome == Tripping then Some(e.now) else LastTrip(done)
  {
    assert (done + [e])[..|done|] == done;
  }

  lemma StepTold(cfg: Config, done: seq<Event>, s: Sys, e: Event)
    requires Enabled(s, e) && TripTold(done, s.b)
    ensures TripTold(done + [e], Step(cfg, s, e).b)
  {
    LastTripSnoc(done, e);
  }

  lemma {:induction false} RunsTold(cfg: Config, done: seq<Event>, s: Sys, es: seq<Event>, t: Sys)
    requires TripTold(done, s.b) && Runs(cfg, s, es, t)
    ensures TripTold(done + es, t.b)
    decreases |es|
  {
    if es == [] {
      assert done + es == done;
    } else {
      StepTold(cfg, done, s, es[0]);
      RunsTold(cfg, done + [es[0]], Step(cfg, s, es[0]), es[1..], t);
      assert done + [es[0]] + es[1..] == done + es;
    }
  }

  /** In every run a request is let through if and only if the circuit is closed,
      or open with the timeout passed since the last tripping failure, or
      half-open with fewer requests let through than its maximum. */
  lemma AdmittedIff(cfg: Config, es: seq<Event>, s: Sys, now: int)
    requires cfg.Valid() && Runs(cfg, Init(), es, s)
    ensures s.b.state == Open ==> LastTrip(es).Some?
    ensures Step(cfg, s, Start(now)).inflight == s.inflight + 1 <==>
      match s.b.state
      case Closed => true
      case Open => now >= LastTrip(es).value + cfg.openTimeout
      case HalfOpen => s.admitted < cfg.halfOpenMax
  {
    RunsTold(cfg, [], Init(), es, s);
    assert [] + es == es;
    RunsKeepInv(cfg, Init(), es, s);
  }

  /** The state after every event, from the counted trips and the outcome. */
  lemma EveryMove(cfg: Config, es: seq<Event>, s: Sys, e: Event)
    requires cfg.Valid() && Runs(cfg, Init(), es, s) && Enabled(s, e)
    ensures s.b.state == Open ==> LastTrip(es).Some?
    ensures var next := Step(cfg, s, e).b.state;
      match e
      case Start(now) =>
        next == if s.b.state == Open && now >= LastTrip(es).value + cfg.openTimeout then HalfOpen else s.b.state
      case Finish(Harmless, _) => next == s.b.state
      case Finish(Success, _) => next == if s.b.state == Open then Open else Closed
      case Finish(Tripping, _) =>
        next == if s.b.state == Closed && TripsSinceWipe(s.marks) + 1 < cfg.maxFailures then Closed else Open
  {
    RunsTold(cfg, [], Init(), es, s);
    assert [] + es == es;
    RunsKeepInv(cfg, Init(), es, s);
  }

  // ---------------------------------------------------------------- recovery

  /** Some continuation closes the circuit. */
  ghost predicate CanClose(cfg: Config, s: Sys) {
    exists es, t :: Runs(cfg, s, es, t) && t.b.state == Closed
  }

  lemma {:induction false} TrappedForever(cfg: Config, s: Sys, es: seq<Event>, t: Sys)
    requires s.b.state == HalfOpen && s.b.halfOpenRequests >= cfg.halfOpenMax && s.inflight == 0
    requires Runs(cfg, s, es, t)
    ensures t == s
    decreases |es|
  {
    if es != [] { TrappedForever(cfg, s, es[1..], t); }
  }

  lemma Cons(cfg: Config, s: Sys, e: Event, es: seq<Event>, t: Sys)
    requires Enabled(s, e) && Runs(cfg, Step(cfg, s, e), es, t)
    ensures Runs(cfg, s, [e] + es, t)
  {
    assert ([e] + es)[1..] == es;
  }

  /** A half-open circuit can still close exactly when a request is in flight or
      a slot is free. Otherwise it stays half-open and rejects every request:
      a harmless error never gives its slot back. */
  lemma RecoversIff(cfg: Config, s: Sys)
    requires s.b.state == HalfOpen
    ensures CanClose(cfg, s) <==> s.inflight > 0 || s.b.halfOpenRequests < cfg.halfOpenMax
  {
    if s.inflight > 0 {
      var t := Step(cfg, s, Finish(Success, 0));
      Cons(cfg, s, Finish(Success, 0), [], t);
    } else if s.b.halfOpenRequests < cfg.halfOpenMax {
      var s1 := Step(cfg, s, Start(0));
      var t := Step(cfg, s1, Finish(Success, 0));
      Cons(cfg, s1, Finish(Success, 0), [], t);
      Cons(cfg, s, Start(0), [Finish(Success, 0)] + [], t);
    } else {
      forall es, t | Runs(cfg, s, es, t) ensures t.b.state != Closed {
        TrappedForever(cfg, s, es, t);
      }
    }
  }

  ghost predicate Reachable(cfg: Config, t: Sys) { exists es :: Runs(cfg, Init(), es, t) }

  lemma {:induction false} RunsSnoc(cfg: Config, s: Sys, es: seq<Event>, t: Sys, e: Event)
    requires Runs(cfg, s, es, t) && Enabled(t, e)
    ensures Runs(cfg, s, es + [e], Step(cfg, t, e))
    decreases |es|
  {
    if es == [] {
      assert [e][1..] == [];
    } else {
      RunsSnoc(cfg, Step(cfg, s, es[0]), es[1..], t, e);
      assert (es + [e])[1..] == es[1..] + [e];
    }
  }

  lemma ReachStep(cfg: Config, s: Sys, e: Event)
    requires Reachable(cfg, s) && Enabled(s, e)
    ensures Reachable(cfg, Step(cfg, s, e))
  {
    var es :| Runs(cfg, Init(), es, s);
    RunsSnoc(cfg, Init(), es, s, e);
  }

  /** Failing requests, one after the other, open the circuit. */
  lemma {:induction false} FailUntilOpen(cfg: Config, s: Sys) returns (t: Sys)
    requires cfg.Valid() && Reachable(cfg, s) && s.b.state == Closed && s.inflight == 0 && s.b.failures < cfg.maxFailures
    ensures Reachable(cfg, t) && t.b.state == Open && t.inflight == 0
    decreases cfg.maxFailures - s.b.failures
  {
    ReachStep(cfg, s, Start(0));
    t := Step(cfg, s, Start(0));
    ReachStep(cfg, t, Finish(Tripping, 0));
    t := Step(cfg, t, Finish(Tripping, 0));
    if t.b.state == Closed { t := FailUntilOpen(cfg, t); }
  }

  /** A probe that ends harmlessly keeps its slot. */
  lemma HarmlessProbe(cfg: Config, s: Sys, now: int) returns (t: Sys)
    requires Reachable(cfg, s) && s.inflight == 0 && s.b.state != Closed && Admits(cfg, s.b, now)
    ensures Reachable(cfg, t) && t.inflight == 0 && t.b.state == HalfOpen
    ensures t.b.halfOpenRequests == if s.b.state == Open then 1 else s.b.halfOpenRequests + 1
  {
    ReachStep(cfg, s, Start(now));
    t := Step(cfg, s, Start(now));
    ReachStep(cfg, t, Finish(Harmless, now));
    t := Step(cfg, t, Finish(Harmless, now));
  }

  lemma {:induction false} UseUpSlots(cfg: Config, s: Sys) returns (t: Sys)
    requires cfg.Valid() && Reachable(cfg, s) && s.inflight == 0 && s.b.state == HalfOpen
    ensures Reachable(cfg, t) && t.inflight == 0 && t.b.state == HalfOpen && t.b.halfOpenRequests >= cfg.halfOpenMax
    decreases cfg.halfOpenMax - s.b.halfOpenRequests
  {
    t := s;
    if s.b.halfOpenRequests < cfg.halfOpenMax {
      t := HarmlessProbe(cfg, s, 0);
      t := UseUpSlots(cfg, t);
    }
  }

  /** Every configuration has a run into the trap: failures open the circuit,
      the timeout passes, and all probes end in harmless errors. */
  lemma TrapIsReachable(cfg: Config)
    requires cfg.Valid()
    ensures exists t :: Reachable(cfg, t) && t.b.state == HalfOpen && !CanClose(cfg, t)
  {
    assert Runs(cfg, Init(), [], Init());
    var s := FailUntilOpen(cfg, Init());
    var t := HarmlessProbe(cfg, s, s.b.lastFailure + cfg.openTimeout);
    t := UseUpSlots(cfg, t);
    RecoversIff(cfg, t);
  }
}
