/** Request coalescing (client/coalescing.go) as a protocol. Each action is one
    critical section or channel operation of a caller in Do/waitForFlight or of
    a flight's background goroutine. */
module Coalescer {
  import opened Options

  type Key = string

  /** How a flight ended: what fn returned, a recovered panic, or an abort
      because the shared context was cancelled during the window. */
  datatype Outcome = Returned(result: string) | Panicked | Aborted

  datatype ExecPc = InWindow | Running | Storing(next: Outcome) | Stored | DoneClosed | Removed | Finished

  datatype Flight = Flight(
    key: Key, callers: int, exec: ExecPc, outcome: Option<Outcome>,
    cancelled: bool,
    runs: nat, closes: nat, hitZero: bool)

  datatype Answer = FromFlight(flight: nat, outcome: Outcome) | OwnContext | TooManyRequests

  /** A caller waits on a flight, leaves it with an answer, and, when it was
      the last, looks at done and perhaps cancels before it returns. */
  datatype CallPc =
    | Waiting(flight: nat)
    | Leaving(flight: nat, answer: Answer)
    | LastLooks(flight: nat, answer: Answer)
    | LastCancels(flight: nat, answer: Answer)
    | Answered(answer: Answer)

  datatype State = State(limit: int, inflight: map<Key, nat>, flights: seq<Flight>, calls: map<nat, CallPc>)

  /** Steps of a flight's background goroutine. */
  datatype ExecEvent =
    | WindowExpires | SeeCancelled
    | FnReturns(result: string) | FnPanics
    | Store | CloseDone | Cleanup | ReleaseCtx

  /** Steps of a caller in waitForFlight. */
  datatype WaitEvent = ReadDone | OwnCtxDone | Decrement | LookAtDone | CancelShared

  datatype Action = Do(call: nat, key: Key) | Wait(call: nat, e: WaitEvent) | Exec(f: nat, event: ExecEvent)

  function Init(limit: int): State { State(limit, map[], [], map[]) }

  predicate IsDone(fl: Flight) { fl.exec == DoneClosed || fl.exec == Removed || fl.exec == Finished }

  predicate CallAt(s: State, c: nat) {
    c in s.calls && (s.calls[c].Answered? || s.calls[c].flight < |s.flights|)
  }

  predicate WaitEnabled(s: State, c: nat, e: WaitEvent) {
    CallAt(s, c) &&
    match e
    case ReadDone => s.calls[c].Waiting?
        && IsDone(s.flights[s.calls[c].flight]) && s.flights[s.calls[c].flight].outcome.Some?
    case OwnCtxDone => s.calls[c].Waiting?
    case Decrement => s.calls[c].Leaving?
    case LookAtDone => s.calls[c].LastLooks?
    case CancelShared => s.calls[c].LastCancels?
  }

  predicate Enabled(s: State, a: Action) {
    match a
    case Do(c, key) => c !in s.calls && (key in s.inflight ==> s.inflight[key] < |s.flights|)
    case Wait(c, e) => WaitEnabled(s, c, e)
    case Exec(f, event) => f < |s.flights| && ExecEnabled(s.flights[f], event)
  }

  predicate ExecEnabled(fl: Flight, event: ExecEvent) {
    match event
    case WindowExpires => fl.exec == InWindow
    case SeeCancelled => fl.exec == InWindow && fl.cancelled
    case FnReturns(_) => fl.exec == Running
    case FnPanics => fl.exec == Running
    case Store => fl.exec.Storing?
    case CloseDone => fl.exec == Stored
    case Cleanup => fl.exec == DoneClosed
    case ReleaseCtx => fl.exec == Removed
  }

  function ExecStep(fl: Flight, event: ExecEvent): Flight
    requires ExecEnabled(fl, event)
  {
    match event
    case WindowExpires => fl.(exec := Running, runs := fl.runs + 1)
    case SeeCancelled => fl.(exec := Storing(Aborted))
    case FnReturns(result) => fl.(exec := Storing(Returned(result)))
    case FnPanics => fl.(exec := Storing(Panicked))
    case Store => fl.(exec := Stored, outcome := Some(fl.exec.next))
    case CloseDone => fl.(exec := DoneClosed, closes := fl.closes + 1)
    case Cleanup => fl.(exec := Removed)
    case ReleaseCtx => fl.(exec := Finished, cancelled := true)
  }

  /** The flight a caller acts on. */
  function FlightOf(s: State, c: nat): nat
    requires c in s.calls && !s.calls[c].Answered?
  {
    s.calls[c].flight
  }

  function DoStep(s: State, c: nat, key: Key): State
    requires key in s.inflight ==> s.inflight[key] < |s.flights|
  {
    if key in s.inflight then Join(s, c, s.inflight[key])
    else if s.limit > 0 && |s.inflight| >= s.limit then s.(calls := s.calls[c := Answered(TooManyRequests)])
    else Create(s, c, key)
  }

  function WaitStep(s: State, c: nat, e: WaitEvent): State
    requires WaitEnabled(s, c, e)
  {
    var f := FlightOf(s, c);
    match e
    case ReadDone => s.(calls := s.calls[c := Leaving(f, FromFlight(f, s.flights[f].outcome.value))])
    case OwnCtxDone => s.(calls := s.calls[c := Leaving(f, OwnContext)])
    case Decrement => Leave(s, c, f)
    case LookAtDone =>
      s.(calls := s.calls[c := if IsDone(s.flights[f]) then Answered(s.calls[c].answer)
                               else LastCancels(f, s.calls[c].answer)])
    case CancelShared =>
      s.(flights := s.flights[f := s.flights[f].(cancelled := true)],
         calls := s.calls[c := Answered(s.calls[c].answer)])
  }

  function Apply(s: State, a: Action): State
    requires Enabled(s, a)
  {
    match a
    case Do(c, key) => DoStep(s, c, key)
    case Wait(c, e) => WaitStep(s, c, e)
    case Exec(f, event) =>
      s.(flights := s.flights[f := ExecStep(s.flights[f], event)],
         inflight := if event.Cleanup? then s.inflight - {s.flights[f].key} else s.inflight)
  }

  function Join(s: State, c: nat, f: nat): State
    requires f < |s.flights|
  {
    s.(flights := s.flights[f := s.flights[f].(callers := s.flights[f].callers + 1)],
       calls := s.calls[c := Waiting(f)])
  }

  function Create(s: State, c: nat, key: Key): State {
    s.(flights := s.flights + [Flight(key, 1, InWindow, None, false, 0, 0, false)],
       inflight := s.inflight[key := |s.flights|],
       calls := s.calls[c := Waiting(|s.flights|)])
  }

  function Leave(s: State, c: nat, f: nat): State
    requires f < |s.flights| && c in s.calls && s.calls[c].Leaving?
  {
    var n := s.flights[f].callers - 1;
    s.(flights := s.flights[f := s.flights[f].(callers := n, hitZero := s.flights[f].hitZero || n == 0)],
       calls := s.calls[c := if n == 0 then LastLooks(f, s.calls[c].answer) else Answered(s.calls[c].answer)])
  }

  ghost predicate Runs(s: State, acts: seq<Action>, t: State)
    decreases |acts|
  {
    if acts == [] then s == t
    else Enabled(s, acts[0]) && Runs(Apply(s, acts[0]), acts[1..], t)
  }

  // -------------------------------------------------------------- invariant

  /** In the map's care: created and not yet cleaned up. */
  predicate Live(fl: Flight) { fl.exec != Removed && fl.exec != Finished }

  /** Callers counted by a flight: joined and not yet decremented. */
  function Attached(s: State, f: nat): set<nat> {
    set c | c in s.calls && (s.calls[c].Waiting? || s.calls[c].Leaving?) && s.calls[c].flight == f
  }

  ghost predicate EntryOk(s: State, k: Key)
    requires k in s.inflight
  {
    s.inflight[k] < |s.flights| && s.flights[s.inflight[k]].key == k && Live(s.flights[s.inflight[k]])
  }

  ghost predicate Mapped(s: State, f: nat)
    requires f < |s.flights|
  {
    Live(s.flights[f]) ==> s.flights[f].key in s.inflight && s.inflight[s.flights[f].key] == f
  }

  /** The map and the live flights are the same thing: one live flight per key. */
  ghost predicate MapOk(s: State) {
    && (forall k :: k in s.inflight ==> EntryOk(s, k))
    && (forall f :: 0 <= f < |s.flights| ==> Mapped(s, f))
    && (s.limit > 0 ==> |s.inflight| <= s.limit)
  }

  /** fn ran at most once, done was closed at most once and only after the
      result was stored, and an early cancellation means the count hit zero. */
  ghost predicate FlightOk(fl: Flight) {
    && fl.runs <= 1 && (fl.exec == InWindow ==> fl.runs == 0)
    && fl.closes == (if IsDone(fl) then 1 else 0)
    && (fl.outcome.Some? <==> IsDone(fl) || fl.exec == Stored)
    && (fl.cancelled ==> fl.hitZero || fl.exec == Finished)
    && ((fl.exec == Storing(Aborted) || fl.outcome == Some(Aborted)) ==> fl.hitZero && fl.runs == 0)
    && (fl.exec == Running ==> fl.runs == 1)
    && ((fl.exec.Storing? && fl.exec.next != Aborted) || (fl.outcome.Some? && fl.outcome.value != Aborted) ==> fl.runs == 1)
  }

  ghost predicate CallOk(s: State, c: nat)
    requires c in s.calls
  {
    var pc := s.calls[c];
    && (pc.Answered? || pc.flight < |s.flights|)
    && (pc.LastLooks? || pc.LastCancels? ==> s.flights[pc.flight].hitZero)
    && (!pc.Waiting? && pc.answer.FromFlight? ==>
          pc.answer.flight < |s.flights| && IsDone(s.flights[pc.answer.flight])
          && s.flights[pc.answer.flight].outcome == Some(pc.answer.outcome))
  }

  ghost predicate CountsOk(s: State) {
    forall f :: 0 <= f < |s.flights| ==> s.flights[f].callers == |Attached(s, f)|
  }

  ghost predicate Inv(s: State) {
    && MapOk(s) && CountsOk(s)
    && (forall f :: 0 <= f < |s.flights| ==> FlightOk(s.flights[f]))
    && (forall c :: c in s.calls ==> CallOk(s, c))
  }

  // ------------------------------------------------------------ preservation

  /** What no step undoes about a flight. */
  ghost predicate Evolves(was: Flight, now: Flight) {
    && now.key == was.key && (Live(now) ==> Live(was))
    && (IsDone(was) ==> IsDone(now)) && (was.hitZero ==> now.hitZero)
    && (was.outcome.Some? ==> now.outcome == was.outcome)
  }

  lemma ExecKeepsFlight(fl: Flight, event: ExecEvent)
    requires FlightOk(fl) && ExecEnabled(fl, event)
    ensures FlightOk(ExecStep(fl, event)) && Evolves(fl, ExecStep(fl, event))
    ensures Live(ExecStep(fl, event)) <==> Live(fl) && !event.Cleanup?
    ensures event.Cleanup? ==> Live(fl)
  {}

  /** No flight disappears, each one evolves, and all are in order afterwards. */
  ghost predicate FlightsEvolve(was: seq<Flight>, now: seq<Flight>) {
    && |was| <= |now|
    && (forall f :: 0 <= f < |was| ==> Evolves(was[f], now[f]))
    && (forall f :: 0 <= f < |now| ==> FlightOk(now[f]))
  }

  lemma OneEvolves(flights: seq<Flight>, f: nat, fl: Flight)
    requires (forall g :: 0 <= g < |flights| ==> FlightOk(flights[g])) && f < |flights|
    requires FlightOk(fl) && Evolves(flights[f], fl)
    ensures FlightsEvolve(flights, flights[f := fl])
  {}

  lemma NewEvolves(flights: seq<Flight>, fl: Flight)
    requires (forall g :: 0 <= g < |flights| ==> FlightOk(flights[g])) && FlightOk(fl)
    ensures FlightsEvolve(flights, flights + [fl])
  {}

  lemma JoinEvolves(flights: seq<Flight>, f: nat)
    requires (forall g :: 0 <= g < |flights| ==> FlightOk(flights[g])) && f < |flights|
    ensures FlightsEvolve(flights, flights[f := flights[f].(callers := flights[f].callers + 1)])
  {
    assert FlightOk(flights[f]);
    OneEvolves(flights, f, flights[f].(callers := flights[f].callers + 1));
  }

  lemma DoEvolves(s: State, c: nat, key: Key)
    requires (forall g :: 0 <= g < |s.flights| ==> FlightOk(s.flights[g])) && Enabled(s, Do(c, key))
    ensures FlightsEvolve(s.flights, DoStep(s, c, key).flights)
  {
    if key in s.inflight {
      JoinEvolves(s.flights, s.inflight[key]);
    } else if !(s.limit > 0 && |s.inflight| >= s.limit) {
      NewEvolves(s.flights, Flight(key, 1, InWindow, None, false, 0, 0, false));
    }
  }

  lemma WaitEvolves(s: State, c: nat, e: WaitEvent)
    requires Inv(s) && WaitEnabled(s, c, e)
    ensures FlightsEvolve(s.flights, WaitStep(s, c, e).flights)
  {
    var f := FlightOf(s, c);
    assert FlightOk(s.flights[f]) && CallOk(s, c);
    if e.Decrement? || e.CancelShared? { OneEvolves(s.flights, f, WaitStep(s, c, e).flights[f]); }
  }

  lemma StepEvolves(s: State, a: Action)
    requires Inv(s) && Enabled(s, a)
    ensures FlightsEvolve(s.flights, Apply(s, a).flights)
  {
    match a
    case Do(c, key) => DoEvolves(s, c, key);
    case Wait(c, e) => WaitEvolves(s, c, e);
    case Exec(f, event) =>
      assert FlightOk(s.flights[f]);
      ExecKeepsFlight(s.flights[f], event);
      OneEvolves(s.flights, f, ExecStep(s.flights[f], event));
  }

  lemma RemovalShrinks(m: map<Key, nat>, key: Key)
    ensures |m - {key}| <= |m|
  {
    assert (m - {key}).Keys == m.Keys - {key};
    assert |m - {key}| == |(m - {key}).Keys| && |m| == |m.Keys|;
  }

  lemma CleanupKeepsMap(s: State, f: nat)
    requires MapOk(s) && Enabled(s, Exec(f, Cleanup))
    ensures MapOk(Apply(s, Exec(f, Cleanup)))
  {
    var t := Apply(s, Exec(f, Cleanup));
    RemovalShrinks(s.inflight, s.flights[f].key);
    assert Mapped(s, f);
    forall k | k in t.inflight ensures EntryOk(t, k) {
      assert EntryOk(s, k);
      assert s.inflight[k] != f;
    }
    forall g | 0 <= g < |t.flights| ensures Mapped(t, g) {
      if g != f { assert Mapped(s, g) && t.flights[g] == s.flights[g]; }
    }
  }

  lemma CreateKeepsMap(s: State, c: nat, key: Key)
    requires MapOk(s) && key !in s.inflight && (s.limit > 0 ==> |s.inflight| < s.limit)
    ensures MapOk(Create(s, c, key))
  {
    var t := Create(s, c, key);
    assert |t.inflight| <= |s.inflight| + 1;
    forall k | k in t.inflight ensures EntryOk(t, k) { if k != key { assert EntryOk(s, k); } }
    forall g | 0 <= g < |t.flights| ensures Mapped(t, g) { if g < |s.flights| { assert Mapped(s, g); } }
  }

  /** Steps that leave the map alone and no flight dead or renamed. */
  lemma SameMap(s: State, t: State)
    requires MapOk(s) && t.inflight == s.inflight && t.limit == s.limit && |t.flights| == |s.flights|
    requires forall f :: 0 <= f < |s.flights| ==>
      s.flights[f].key == t.flights[f].key && (Live(s.flights[f]) <==> Live(t.flights[f]))
    ensures MapOk(t)
  {
    forall k | k in t.inflight ensures EntryOk(t, k) { assert EntryOk(s, k); }
    forall g | 0 <= g < |t.flights| ensures Mapped(t, g) { assert Mapped(s, g); }
  }

  lemma ExecKeepsMap(s: State, f: nat, event: ExecEvent)
    requires Inv(s) && Enabled(s, Exec(f, event)) && !event.Cleanup?
    ensures MapOk(Apply(s, Exec(f, event)))
  {
    ExecKeepsFlight(s.flights[f], event);
    SameMap(s, Apply(s, Exec(f, event)));
  }

  lemma DoKeepsMap(s: State, c: nat, key: Key)
    requires Inv(s) && Enabled(s, Do(c, key))
    ensures MapOk(Apply(s, Do(c, key)))
  {
    if key !in s.inflight && !(s.limit > 0 && |s.inflight| >= s.limit) {
      CreateKeepsMap(s, c, key);
    } else {
      SameMap(s, Apply(s, Do(c, key)));
    }
  }

  lemma StepKeepsMap(s: State, a: Action)
    requires Inv(s) && Enabled(s, a)
    ensures MapOk(Apply(s, a))
  {
    match a
    case Exec(f, event) =>
      if event.Cleanup? { CleanupKeepsMap(s, f); } else { ExecKeepsMap(s, f, event); }
    case Do(c, key) => DoKeepsMap(s, c, key);
    case Wait(c, e) => SameMap(s, WaitStep(s, c, e));
  }

  lemma JoinCounts(s: State, c: nat, g: nat)
    requires CountsOk(s) && c !in s.calls && g < |s.flights|
    ensures CountsOk(Join(s, c, g))
  {
    var t := Join(s, c, g);
    forall f | 0 <= f < |t.flights| ensures t.flights[f].callers == |Attached(t, f)| {
      if f == g {
        assert Attached(t, f) == Attached(s, f) + {c};
      } else {
        assert Attached(t, f) == Attached(s, f);
      }
    }
  }

  lemma CreateCounts(s: State, c: nat, key: Key)
    requires Inv(s) && c !in s.calls
    ensures CountsOk(Create(s, c, key))
  {
    var t := Create(s, c, key);
    forall f | 0 <= f < |t.flights| ensures t.flights[f].callers == |Attached(t, f)| {
      if f < |s.flights| {
        assert Attached(t, f) == Attached(s, f);
      } else {
        assert forall d :: d in s.calls ==> CallOk(s, d);
        assert Attached(t, f) == {c};
      }
    }
  }

  lemma LeaveCounts(s: State, c: nat, g: nat)
    requires CountsOk(s) && g < |s.flights| && c in s.calls && s.calls[c].Leaving? && s.calls[c].flight == g
    ensures CountsOk(Leave(s, c, g))
  {
    var t := Leave(s, c, g);
    forall f | 0 <= f < |t.flights| ensures t.flights[f].callers == |Attached(t, f)| {
      if f == g {
        assert c in Attached(s, f);
        assert Attached(t, f) == Attached(s, f) - {c};
      } else {
        assert Attached(t, f) == Attached(s, f);
      }
    }
  }

  /** Steps that attach and detach nobody. */
  lemma SameCounts(s: State, t: State)
    requires CountsOk(s) && |t.flights| == |s.flights|
    requires forall f :: 0 <= f < |s.flights| ==> s.flights[f].callers == t.flights[f].callers
    requires forall f :: 0 <= f < |s.flights| ==> Attached(t, f) == Attached(s, f)
    ensures CountsOk(t)
  {}

  lemma ExecCounts(s: State, f: nat, event: ExecEvent)
    requires Inv(s) && Enabled(s, Exec(f, event))
    ensures CountsOk(Apply(s, Exec(f, event)))
  {
    SameCounts(s, Apply(s, Exec(f, event)));
  }

  lemma DoCounts(s: State, c: nat, key: Key)
    requires Inv(s) && Enabled(s, Do(c, key))
    ensures CountsOk(Apply(s, Do(c, key)))
  {
    if key in s.inflight {
      JoinCounts(s, c, s.inflight[key]);
    } else if !(s.limit > 0 && |s.inflight| >= s.limit) {
      CreateCounts(s, c, key);
    } else {
      SameCounts(s, Apply(s, Do(c, key)));
    }
  }

  lemma WaitCounts(s: State, c: nat, e: WaitEvent)
    requires Inv(s) && WaitEnabled(s, c, e)
    ensures CountsOk(WaitStep(s, c, e))
  {
    if e.Decrement? {
      LeaveCounts(s, c, FlightOf(s, c));
    } else {
      var t := WaitStep(s, c, e);
      forall f | 0 <= f < |s.flights| ensures Attached(t, f) == Attached(s, f) {}
      SameCounts(s, t);
    }
  }

  lemma StepKeepsCounts(s: State, a: Action)
    requires Inv(s) && Enabled(s, a)
    ensures CountsOk(Apply(s, a))
  {
    match a
    case Do(c, key) => DoCounts(s, c, key);
    case Wait(c, e) => WaitCounts(s, c, e);
    case Exec(f, event) => ExecCounts(s, f, event);
  }

  lemma UntouchedCall(s: State, t: State, c: nat)
    requires c in s.calls && c in t.calls && t.calls[c] == s.calls[c] && CallOk(s, c)
    requires FlightsEvolve(s.flights, t.flights)
    ensures CallOk(t, c)
  {}

  lemma WaitingCall(s: State, c: nat, e: WaitEvent)
    requires Inv(s) && WaitEnabled(s, c, e) && FlightsEvolve(s.flights, WaitStep(s, c, e).flights)
    ensures CallOk(WaitStep(s, c, e), c)
  {
    assert CallOk(s, c);
  }

  lemma ActingCall(s: State, a: Action)
    requires Inv(s) && Enabled(s, a) && !a.Exec? && FlightsEvolve(s.flights, Apply(s, a).flights)
    ensures a.call in Apply(s, a).calls && CallOk(Apply(s, a), a.call)
  {
    if a.Wait? { WaitingCall(s, a.call, a.e); }
  }

  /** A step moves its own caller only. */
  lemma OthersStay(s: State, a: Action, c: nat)
    requires Enabled(s, a) && (a.Exec? || c != a.call)
    ensures c in Apply(s, a).calls <==> c in s.calls
    ensures c in s.calls ==> Apply(s, a).calls[c] == s.calls[c]
  {}

  lemma StepKeepsCalls(s: State, a: Action)
    requires Inv(s) && Enabled(s, a) && FlightsEvolve(s.flights, Apply(s, a).flights)
    ensures forall c :: c in Apply(s, a).calls ==> CallOk(Apply(s, a), c)
  {
    var t := Apply(s, a);
    forall c | c in t.calls ensures CallOk(t, c) {
      if a.Exec? || c != a.call {
        OthersStay(s, a, c);
        UntouchedCall(s, t, c);
      } else {
        ActingCall(s, a);
      }
    }
  }

  lemma StepKeepsInv(s: State, a: Action)
    requires Inv(s) && Enabled(s, a)
    ensures Inv(Apply(s, a))
  {
    StepKeepsMap(s, a);
    StepKeepsCounts(s, a);
    StepEvolves(s, a);
    StepKeepsCalls(s, a);
  }

  lemma {:induction false} RunsKeepInv(s: State, acts: seq<Action>, t: State)
    requires Inv(s) && Runs(s, acts, t)
    ensures Inv(t)
    decreases |acts|
  {
    if acts != [] {
      StepKeepsInv(s, acts[0]);
      RunsKeepInv(Apply(s, acts[0]), acts[1..], t);
    }
  }

  // --------------------------------------------------------------- theorems

  /** In every interleaving: fn runs at most once per flight, two live flights
      never share a key, done is closed at most once, the map respects its
      limit, and a flight cancelled before it completed had lost all callers. */
  lemma EveryRunIsSafe(limit: int, acts: seq<Action>, t: State)
    requires Runs(Init(limit), acts, t)
    ensures forall f :: 0 <= f < |t.flights| ==> t.flights[f].runs <= 1 && t.flights[f].closes <= 1
    ensures forall f, g ::
      (0 <= f < |t.flights| && 0 <= g < |t.flights| && Live(t.flights[f]) && Live(t.flights[g])
       && t.flights[f].key == t.flights[g].key) ==> f == g
    ensures limit > 0 ==> |t.inflight| <= limit
    ensures forall f :: 0 <= f < |t.flights| && t.flights[f].cancelled && !IsDone(t.flights[f]) ==> t.flights[f].hitZero
    ensures forall f :: 0 <= f < |t.flights| ==> t.flights[f].callers == |Attached(t, f)|
  {
    RunsKeepInv(Init(limit), acts, t);
    LimitKept(Init(limit), acts, t);
    assert forall f :: 0 <= f < |t.flights| ==> FlightOk(t.flights[f]) && Mapped(t, f);
  }

  lemma {:induction false} LimitKept(s: State, acts: seq<Action>, t: State)
    requires Runs(s, acts, t)
    ensures t.limit == s.limit
    decreases |acts|
  {
    if acts != [] { LimitKept(Apply(s, acts[0]), acts[1..], t); }
  }

  /** All callers that leave one flight through done get the same answer: the
      outcome of its single run, or the abort of a flight that never ran. */
  lemma SameAnswer(limit: int, acts: seq<Action>, t: State, c: nat, d: nat)
    requires Runs(Init(limit), acts, t)
    requires c in t.calls && t.calls[c].Answered? && t.calls[c].answer.FromFlight?
    requires d in t.calls && t.calls[d].Answered? && t.calls[d].answer.FromFlight?
    requires t.calls[c].answer.flight == t.calls[d].answer.flight
    ensures t.calls[c].answer == t.calls[d].answer
    ensures var fl := t.calls[c].answer.flight;
      fl < |t.flights| && (t.calls[c].answer.outcome == Aborted <==> t.flights[fl].runs == 0)
  {
    RunsKeepInv(Init(limit), acts, t);
    assert CallOk(t, c) && CallOk(t, d);
  }

  // -------------------------------------------------- answers and their causes

  /** The action by which a flight comes to this outcome. */
  ghost predicate Caused(done: seq<Action>, f: nat, o: Outcome) {
    match o
    case Returned(r) => Exec(f, FnReturns(r)) in done
    case Panicked => Exec(f, FnPanics) in done
    case Aborted => Exec(f, SeeCancelled) in done
  }

  /** No such action for the flight yet, or only that of its one outcome. */
  ghost predicate OutcomeTold(done: seq<Action>, f: nat, known: Option<Outcome>) {
    forall o: Outcome :: Caused(done, f, o) <==> known == Some(o)
  }

  /** The outcome a flight has settled on, stored or about to be. */
  function Settled(fl: Flight): Option<Outcome> {
    if fl.outcome.Some? then fl.outcome else if fl.exec.Storing? then Some(fl.exec.next) else None
  }

  ghost predicate FlightsTold(done: seq<Action>, flights: seq<Flight>) {
    && (forall f :: 0 <= f < |flights| ==> OutcomeTold(done, f, Settled(flights[f])))
    && (forall f: nat :: f >= |flights| ==> OutcomeTold(done, f, None))
  }

  lemma OneMore(done: seq<Action>, a: Action, f: nat, o: Outcome)
    ensures Caused(done + [a], f, o) <==>
      Caused(done, f, o) || a == Exec(f, match o case Returned(r) => FnReturns(r) case Panicked => FnPanics case Aborted => SeeCancelled)
  {}

  /** Actions other than the three that settle a flight tell nothing new. */
  lemma NothingNew(done: seq<Action>, a: Action, f: nat, known: Option<Outcome>)
    requires OutcomeTold(done, f, known)
    requires a.Exec? && a.f == f ==> !a.event.FnReturns? && !a.event.FnPanics? && !a.event.SeeCancelled?
    ensures OutcomeTold(done + [a], f, known)
  {
    forall o: Outcome ensures Caused(done + [a], f, o) <==> known == Some(o) { OneMore(done, a, f, o); }
  }

  lemma NewlySettled(done: seq<Action>, f: nat, event: ExecEvent, o: Outcome)
    requires OutcomeTold(done, f, None)
    requires o == match event
                  case FnReturns(r) => Returned(r)
                  case FnPanics => Panicked
                  case _ => Aborted
    requires event.FnReturns? || event.FnPanics? || event.SeeCancelled?
    ensures OutcomeTold(done + [Exec(f, event)], f, Some(o))
  {
    forall x: Outcome ensures Caused(done + [Exec(f, event)], f, x) <==> Some(o) == Some(x) {
      OneMore(done, Exec(f, event), f, x);
    }
  }

  lemma ExecTold(done: seq<Action>, fl: Flight, f: nat, event: ExecEvent)
    requires FlightOk(fl) && ExecEnabled(fl, event) && OutcomeTold(done, f, Settled(fl))
    ensures OutcomeTold(done + [Exec(f, event)], f, Settled(ExecStep(fl, event)))
  {
    if event.FnReturns? || event.FnPanics? || event.SeeCancelled? {
      NewlySettled(done, f, event, ExecStep(fl, event).exec.next);
    } else {
      NothingNew(done, Exec(f, event), f, Settled(fl));
    }
  }

  /** What callers do settles no flight. */
  lemma CallersSettleNothing(s: State, a: Action, f: nat)
    requires Enabled(s, a) && !a.Exec? && f < |Apply(s, a).flights|
    ensures Settled(Apply(s, a).flights[f]) == if f < |s.flights| then Settled(s.flights[f]) else None
    ensures |s.flights| <= |Apply(s, a).flights|
  {}

  lemma StepTold(done: seq<Action>, s: State, a: Action)
    requires Inv(s) && Enabled(s, a) && FlightsTold(done, s.flights)
    ensures FlightsTold(done + [a], Apply(s, a).flights)
  {
    var t := Apply(s, a);
    StepEvolves(s, a);
    forall f: nat | f < |t.flights| ensures OutcomeTold(done + [a], f, Settled(t.flights[f])) {
      if !a.Exec? {
        CallersSettleNothing(s, a, f);
        NothingNew(done, a, f, if f < |s.flights| then Settled(s.flights[f]) else None);
      } else if a.f == f {
        assert FlightOk(s.flights[f]);
        ExecTold(done, s.flights[f], f, a.event);
      } else {
        NothingNew(done, a, f, Settled(s.flights[f]));
      }
    }
    forall f: nat | f >= |t.flights| ensures OutcomeTold(done + [a], f, None) { NothingNew(done, a, f, None); }
  }

  lemma {:induction false} RunsTold(done: seq<Action>, s: State, acts: seq<Action>, t: State)
    requires Inv(s) && FlightsTold(done, s.flights) && Runs(s, acts, t)
    ensures FlightsTold(done + acts, t.flights)
    decreases |acts|
  {
    if acts == [] {
      assert done + acts == done;
    } else {
      StepTold(done, s, acts[0]);
      StepKeepsInv(s, acts[0]);
      RunsTold(done + [acts[0]], Apply(s, acts[0]), acts[1..], t);
      assert done + [acts[0]] + acts[1..] == done + acts;
    }
  }

  /** In every run a caller answered by a flight gets a result if and only if the
      flight's function returned just that, the panic error if and only if it
      panicked, and an abort if and only if the flight saw its cancellation. */
  lemma AnswersAreCaused(limit: int, acts: seq<Action>, t: State, c: nat)
    requires Runs(Init(limit), acts, t) && c in t.calls && t.calls[c].Answered? && t.calls[c].answer.FromFlight?
    ensures var f, o := t.calls[c].answer.flight, t.calls[c].answer.outcome;
      && (forall r :: o == Returned(r) <==> Exec(f, FnReturns(r)) in acts)
      && (o == Panicked <==> Exec(f, FnPanics) in acts)
      && (o == Aborted <==> Exec(f, SeeCancelled) in acts)
  {
    RunsKeepInv(Init(limit), acts, t);
    RunsTold([], Init(limit), acts, t);
    assert [] + acts == acts;
    assert CallOk(t, c);
    var f, o := t.calls[c].answer.flight, t.calls[c].answer.outcome;
    assert OutcomeTold(acts, f, Some(o));
    forall r ensures o == Returned(r) <==> Exec(f, FnReturns(r)) in acts { assert Caused(acts, f, Returned(r)) <==> o == Returned(r); }
    assert Caused(acts, f, Panicked) <==> o == Panicked;
    assert Caused(acts, f, Aborted) <==> o == Aborted;
  }

  // ------------------------------------------------------ calls and their keys

  /** The flight a call waits on, leaves or was answered by, if any. */
  function FlightFor(pc: CallPc): Option<nat> {
    if !pc.Answered? then Some(pc.flight)
    else if pc.answer.FromFlight? then Some(pc.answer.flight) else None
  }

  /** Why a call is where it is: asked under its flight's key, and turned away or
      gone on its own context only when that happened. */
  ghost predicate CallTold(done: seq<Action>, s: State, c: nat)
    requires c in s.calls
  {
    var pc := s.calls[c];
    && (FlightFor(pc).Some? ==>
          FlightFor(pc).value < |s.flights| && Do(c, s.flights[FlightFor(pc).value].key) in done)
    && (!pc.Waiting? && pc.answer.FromFlight? && !pc.Answered? ==> pc.answer.flight == pc.flight)
    && (!pc.Waiting? && pc.answer == OwnContext ==> Wait(c, OwnCtxDone) in done)
    && (exists key :: Do(c, key) in done)
  }

  ghost predicate CallsTold(done: seq<Action>, s: State) {
    forall c :: c in s.calls ==> CallTold(done, s, c)
  }

  lemma OtherCallTold(done: seq<Action>, s: State, a: Action, c: nat)
    requires Inv(s) && Enabled(s, a) && c in s.calls && CallTold(done, s, c) && (a.Exec? || c != a.call)
    ensures c in Apply(s, a).calls && CallTold(done + [a], Apply(s, a), c)
  {
    OthersStay(s, a, c);
    StepEvolves(s, a);
    assert exists key :: Do(c, key) in done;
  }

  lemma DoTold(done: seq<Action>, s: State, c: nat, key: Key)
    requires Inv(s) && Enabled(s, Do(c, key))
    ensures CallTold(done + [Do(c, key)], DoStep(s, c, key), c)
  {
    var all := done + [Do(c, key)];
    assert all[|done|] == Do(c, key);
    if key in s.inflight { assert EntryOk(s, key); }
  }

  lemma WaitTold(done: seq<Action>, s: State, c: nat, e: WaitEvent)
    requires Inv(s) && WaitEnabled(s, c, e) && CallTold(done, s, c)
    ensures CallTold(done + [Wait(c, e)], WaitStep(s, c, e), c)
  {
    var all := done + [Wait(c, e)];
    assert all[|done|] == Wait(c, e);
    WaitEvolves(s, c, e);
    assert exists key :: Do(c, key) in done;
  }

  lemma StepCallsTold(done: seq<Action>, s: State, a: Action)
    requires Inv(s) && Enabled(s, a) && CallsTold(done, s)
    ensures CallsTold(done + [a], Apply(s, a))
  {
    var t := Apply(s, a);
    forall c | c in t.calls ensures CallTold(done + [a], t, c) {
      if a.Exec? || c != a.call {
        OthersStay(s, a, c);
        OtherCallTold(done, s, a, c);
      } else if a.Do? {
        DoTold(done, s, c, a.key);
      } else {
        WaitTold(done, s, c, a.e);
      }
    }
  }

  lemma {:induction false} RunsCallsTold(done: seq<Action>, s: State, acts: seq<Action>, t: State)
    requires Inv(s) && CallsTold(done, s) && Runs(s, acts, t)
    ensures CallsTold(done + acts, t)
    decreases |acts|
  {
    if acts == [] {
      assert done + acts == done;
    } else {
      StepCallsTold(done, s, acts[0]);
      StepKeepsInv(s, acts[0]);
      RunsCallsTold(done + [acts[0]], Apply(s, acts[0]), acts[1..], t);
      assert done + [acts[0]] + acts[1..] == done + acts;
    }
  }

  /** In every run a call is answered only by a flight for the key it asked for,
      and with its own context's error only if that context ended. */
  lemma AnswersAreForTheKey(limit: int, acts: seq<Action>, t: State, c: nat)
    requires Runs(Init(limit), acts, t) && c in t.calls && t.calls[c].Answered?
    ensures t.calls[c].answer.FromFlight? ==>
      t.calls[c].answer.flight < |t.flights| && Do(c, t.flights[t.calls[c].answer.flight].key) in acts
    ensures t.calls[c].answer == OwnContext ==> Wait(c, OwnCtxDone) in acts
  {
    RunsCallsTold([], Init(limit), acts, t);
    assert [] + acts == acts;
    assert CallTold(acts, t, c);
  }

  ghost predicate KeyInFlight(s: State, key: Key) {
    exists f :: 0 <= f < |s.flights| && Live(s.flights[f]) && s.flights[f].key == key
  }

  lemma MappedIff(s: State, key: Key)
    requires MapOk(s)
    ensures key in s.inflight <==> KeyInFlight(s, key)
  {
    if key in s.inflight {
      assert EntryOk(s, key);
    }
    if KeyInFlight(s, key) {
      var f :| 0 <= f < |s.flights| && Live(s.flights[f]) && s.flights[f].key == key;
      assert Mapped(s, f);
    }
  }

  /** A call is turned away if and only if no live flight has its key and as many
      keys as the limit are in flight. */
  lemma RefusedIff(s: State, c: nat, key: Key)
    requires Inv(s) && Enabled(s, Do(c, key))
    ensures Apply(s, Do(c, key)).calls[c] == Answered(TooManyRequests) <==>
      s.limit > 0 && |s.inflight| == s.limit && !KeyInFlight(s, key)
  {
    MappedIff(s, key);
  }

  /** Cleanup removes exactly its own map entry. */
  lemma CleanupRemovesItself(s: State, f: nat)
    requires Inv(s) && Enabled(s, Exec(f, Cleanup))
    ensures s.flights[f].key in s.inflight && s.inflight[s.flights[f].key] == f
    ensures var rest := Apply(s, Exec(f, Cleanup)).inflight;
      forall k :: k in s.inflight && s.inflight[k] != f <==> k in rest && k in s.inflight && rest[k] == s.inflight[k]
  {
    assert Mapped(s, f);
    assert forall k :: k in s.inflight ==> EntryOk(s, k);
  }

  /** A stored outcome is final. */
  lemma {:induction false} OutcomeIsFinal(s: State, acts: seq<Action>, t: State, f: nat)
    requires Inv(s) && Runs(s, acts, t) && f < |s.flights| && s.flights[f].outcome.Some?
    ensures f < |t.flights| && t.flights[f].outcome == s.flights[f].outcome
    decreases |acts|
  {
    if acts != [] {
      StepKeepsInv(s, acts[0]);
      StepEvolves(s, acts[0]);
      OutcomeIsFinal(Apply(s, acts[0]), acts[1..], t, f);
    }
  }

  lemma RunsCons(s: State, a: Action, acts: seq<Action>, t: State)
    requires Enabled(s, a) && Runs(Apply(s, a), acts, t)
    ensures Runs(s, [a] + acts, t)
  {
    assert ([a] + acts)[1..] == acts;
  }

  // ------------------------------------------- what a waiting caller may see

  /** The caller waits on a flight that ended in an abort. */
  ghost predicate WaitsOnAborted(t: State, c: nat) {
    && WaitsIn(t, c) && IsDone(t.flights[t.calls[c].flight])
    && t.flights[t.calls[c].flight].outcome == Some(Aborted)
  }

  /** The caller waits on a flight whose shared context was cancelled before it completed. */
  ghost predicate WaitsOnCancelled(t: State, c: nat) {
    && WaitsIn(t, c) && !IsDone(t.flights[t.calls[c].flight]) && t.flights[t.calls[c].flight].cancelled
  }

  ghost predicate WaitsIn(s: State, c: nat) {
    c in s.calls && s.calls[c].Waiting? && s.calls[c].flight < |s.flights|
  }

  /** Some caller brought the count to zero and is on its way to cancel. */
  ghost predicate HasLastLeaver(s: State, f: nat) {
    exists d :: d in s.calls && (s.calls[d].LastLooks? || s.calls[d].LastCancels?) && s.calls[d].flight == f
  }

  /** The flight is cancelled, or will be when the last leaver gets there. */
  ghost predicate Exposed(s: State, f: nat)
    requires f < |s.flights|
  {
    !IsDone(s.flights[f]) && (s.flights[f].cancelled || HasLastLeaver(s, f))
  }

  /** The flight is aborted, or still in its window and exposed. */
  ghost predicate Doomed(s: State, f: nat)
    requires f < |s.flights|
  {
    || s.flights[f].outcome == Some(Aborted) || s.flights[f].exec == Storing(Aborted)
    || (s.flights[f].exec == InWindow && Exposed(s, f))
  }

  ghost predicate MayAbort(s: State, c: nat) {
    exists acts, t :: Runs(s, acts, t) && WaitsOnAborted(t, c)
  }

  ghost predicate MayCancel(s: State, c: nat) {
    exists acts, t :: Runs(s, acts, t) && WaitsOnCancelled(t, c)
  }

  /** Another caller's decrement leaves a waiting caller's flight above zero. */
  lemma WaiterIsCounted(s: State, c: nat, d: nat)
    requires Inv(s) && WaitsIn(s, c) && d != c && d in s.calls && s.calls[d].Leaving?
    requires s.calls[d].flight == s.calls[c].flight
    ensures s.flights[s.calls[c].flight].callers >= 2
  {
    var f := s.calls[c].flight;
    assert {c, d} <= Attached(s, f);
    SubsetSize({c, d}, Attached(s, f));
  }

  lemma {:induction false} SubsetSize(a: set<nat>, b: set<nat>)
    requires a <= b
    ensures |a| <= |b|
    decreases a
  {
    if a != {} {
      var x :| x in a;
      SubsetSize(a - {x}, b - {x});
    }
  }

  /** No last leaver appears while somebody waits. */
  lemma NoNewLeaver(s: State, a: Action, c: nat)
    requires Inv(s) && Enabled(s, a) && WaitsIn(s, c) && WaitsIn(Apply(s, a), c)
    requires !HasLastLeaver(s, s.calls[c].flight)
    ensures !HasLastLeaver(Apply(s, a), s.calls[c].flight)
  {
    var f, t := s.calls[c].flight, Apply(s, a);
    forall d | d in t.calls && (t.calls[d].LastLooks? || t.calls[d].LastCancels?) ensures t.calls[d].flight != f {
      if a.Exec? || d != a.call {
        OthersStay(s, a, d);
      } else if a.Wait? {
        NewLeaverElsewhere(s, a.call, a.e, c);
      }
    }
  }

  lemma NewLeaverElsewhere(s: State, d: nat, e: WaitEvent, c: nat)
    requires Inv(s) && WaitEnabled(s, d, e) && d != c && WaitsIn(s, c) && !HasLastLeaver(s, s.calls[c].flight)
    ensures var pc := WaitStep(s, d, e).calls[d]; pc.LastLooks? || pc.LastCancels? ==> pc.flight != s.calls[c].flight
  {
    if e.Decrement? && s.calls[d].flight == s.calls[c].flight { WaiterIsCounted(s, c, d); }
  }

  /** A step cancels a flight only through a last leaver or after completion. */
  lemma CancelNeedsLeaver(s: State, a: Action, f: nat)
    requires Enabled(s, a) && f < |s.flights| && f < |Apply(s, a).flights|
    requires !s.flights[f].cancelled && Apply(s, a).flights[f].cancelled
    ensures HasLastLeaver(s, f) || IsDone(s.flights[f])
  {}

  /** How a flight can get from one point to the next. */
  ghost predicate Progress(was: Flight, now: Flight) {
    && (now.exec == InWindow ==> was.exec == InWindow)
    && (now.exec == Storing(Aborted) ==> was.exec == Storing(Aborted) || (was.exec == InWindow && was.cancelled))
    && (now.outcome == Some(Aborted) ==> was.outcome == Some(Aborted) || was.exec == Storing(Aborted))
    && (IsDone(was) ==> IsDone(now))
  }

  lemma ExecProgress(fl: Flight, event: ExecEvent)
    requires ExecEnabled(fl, event)
    ensures Progress(fl, ExecStep(fl, event))
  {}

  lemma CallerProgress(s: State, a: Action, f: nat)
    requires Enabled(s, a) && !a.Exec? && f < |s.flights| && f < |Apply(s, a).flights|
    ensures var was, now := s.flights[f], Apply(s, a).flights[f]; now.exec == was.exec && now.outcome == was.outcome
  {}

  lemma ProgressStep(s: State, a: Action, f: nat)
    requires Enabled(s, a) && f < |s.flights| && f < |Apply(s, a).flights|
    ensures Progress(s.flights[f], Apply(s, a).flights[f])
  {
    if !a.Exec? {
      CallerProgress(s, a, f);
    } else if a.f == f {
      ExecProgress(s.flights[f], a.event);
    }
  }

  lemma SafeStep(s: State, a: Action, c: nat)
    requires Inv(s) && Enabled(s, a) && WaitsIn(s, c) && WaitsIn(Apply(s, a), c) && Apply(s, a).calls[c] == s.calls[c]
    ensures var f := s.calls[c].flight;
      && (!Exposed(s, f) ==> !Exposed(Apply(s, a), f))
      && (!Doomed(s, f) ==> !Doomed(Apply(s, a), f))
  {
    var f := s.calls[c].flight;
    ProgressStep(s, a, f);
    if !HasLastLeaver(s, f) { NoNewLeaver(s, a, c); }
    if !s.flights[f].cancelled && Apply(s, a).flights[f].cancelled { CancelNeedsLeaver(s, a, f); }
  }

  lemma StillWaiting(s: State, a: Action, c: nat)
    requires Enabled(s, a) && WaitsIn(s, c) && c in Apply(s, a).calls && Apply(s, a).calls[c].Waiting?
    ensures Apply(s, a).calls[c] == s.calls[c]
  {}

  /** A caller that stopped waiting never waits again. */
  lemma {:induction false} NeverBack(s: State, acts: seq<Action>, t: State, c: nat)
    requires Runs(s, acts, t) && c in s.calls && !s.calls[c].Waiting?
    ensures c in t.calls && !t.calls[c].Waiting?
    decreases |acts|
  {
    if acts != [] { NeverBack(Apply(s, acts[0]), acts[1..], t, c); }
  }

  /** Flights only grow in number, so a waiting caller's flight stays there. */
  lemma WaitsOn(s: State, a: Action, c: nat)
    requires Inv(s) && Enabled(s, a) && WaitsIn(s, c)
    ensures c in Apply(s, a).calls && (Apply(s, a).calls[c].Waiting? ==> WaitsIn(Apply(s, a), c))
  {
    StepEvolves(s, a);
  }

  lemma {:induction false} SafeRun(s: State, acts: seq<Action>, t: State, c: nat)
    requires Inv(s) && WaitsIn(s, c) && Runs(s, acts, t) && WaitsIn(t, c)
    ensures !Exposed(s, s.calls[c].flight) ==> !WaitsOnCancelled(t, c)
    ensures !Doomed(s, s.calls[c].flight) ==> !WaitsOnAborted(t, c)
    decreases |acts|
  {
    if acts != [] {
      var u := Apply(s, acts[0]);
      WaitsOn(s, acts[0], c);
      if !u.calls[c].Waiting? { NeverBack(u, acts[1..], t, c); }
      StillWaiting(s, acts[0], c);
      SafeStep(s, acts[0], c);
      StepKeepsInv(s, acts[0]);
      SafeRun(u, acts[1..], t, c);
    }
  }

  lemma MayAbortBefore(s: State, a: Action, c: nat)
    requires Enabled(s, a) && MayAbort(Apply(s, a), c)
    ensures MayAbort(s, c)
  {
    var acts, t :| Runs(Apply(s, a), acts, t) && WaitsOnAborted(t, c);
    RunsCons(s, a, acts, t);
  }

  lemma MayCancelBefore(s: State, a: Action, c: nat)
    requires Enabled(s, a) && MayCancel(Apply(s, a), c)
    ensures MayCancel(s, c)
  {
    var acts, t :| Runs(Apply(s, a), acts, t) && WaitsOnCancelled(t, c);
    RunsCons(s, a, acts, t);
  }

  /** The last leaver's two steps, seen from a caller that waits. */
  lemma LookStep(s: State, c: nat, d: nat)
    requires WaitsIn(s, c) && d in s.calls && s.calls[d].LastLooks? && s.calls[d].flight == s.calls[c].flight
    requires !IsDone(s.flights[s.calls[c].flight])
    ensures Enabled(s, Wait(d, LookAtDone))
    ensures var t := Apply(s, Wait(d, LookAtDone));
      && WaitsIn(t, c) && t.calls[c] == s.calls[c] && t.flights == s.flights
      && d in t.calls && t.calls[d].LastCancels? && t.calls[d].flight == s.calls[c].flight
  {}

  lemma CancelStep(s: State, c: nat, d: nat)
    requires WaitsIn(s, c) && d in s.calls && s.calls[d].LastCancels? && s.calls[d].flight == s.calls[c].flight
    ensures Enabled(s, Wait(d, CancelShared))
    ensures var t := Apply(s, Wait(d, CancelShared)); var f := s.calls[c].flight;
      WaitsIn(t, c) && t.calls[c] == s.calls[c] && t.flights[f] == s.flights[f].(cancelled := true)
  {}

  /** A flight whose abort is decided can run straight to done. */
  lemma {:induction false} DecidedMayAbort(s: State, c: nat)
    requires WaitsIn(s, c)
    requires var fl := s.flights[s.calls[c].flight];
      && (fl.outcome == Some(Aborted) ==> IsDone(fl) || fl.exec == Stored)
      && (fl.outcome == Some(Aborted) || fl.exec == Storing(Aborted) || (fl.exec == InWindow && fl.cancelled))
    ensures MayAbort(s, c)
    decreases var fl := s.flights[s.calls[c].flight];
      if fl.exec == InWindow then 3 else if fl.exec.Storing? then 2 else if fl.exec == Stored then 1 else 0
  {
    var f := s.calls[c].flight;
    var fl := s.flights[f];
    if WaitsOnAborted(s, c) {
      assert Runs(s, [], s);
    } else {
      var e := if fl.exec == InWindow then SeeCancelled else if fl.exec.Storing? then Store else CloseDone;
      DecidedMayAbort(Apply(s, Exec(f, e)), c);
      MayAbortBefore(s, Exec(f, e), c);
    }
  }

  lemma CancellingMayAbort(s: State, c: nat, d: nat)
    requires WaitsIn(s, c) && d in s.calls && s.calls[d].LastCancels? && s.calls[d].flight == s.calls[c].flight
    requires var fl := s.flights[s.calls[c].flight]; fl.exec == InWindow && fl.outcome == None
    ensures MayAbort(s, c)
  {
    CancelStep(s, c, d);
    DecidedMayAbort(Apply(s, Wait(d, CancelShared)), c);
    MayAbortBefore(s, Wait(d, CancelShared), c);
  }

  lemma DoomedMayAbort(s: State, c: nat)
    requires WaitsIn(s, c) && Doomed(s, s.calls[c].flight) && FlightOk(s.flights[s.calls[c].flight])
    ensures MayAbort(s, c)
  {
    var f := s.calls[c].flight;
    if s.flights[f].exec == InWindow && !s.flights[f].cancelled {
      var d :| d in s.calls && (s.calls[d].LastLooks? || s.calls[d].LastCancels?) && s.calls[d].flight == f;
      if s.calls[d].LastLooks? {
        LookStep(s, c, d);
        CancellingMayAbort(Apply(s, Wait(d, LookAtDone)), c, d);
        MayAbortBefore(s, Wait(d, LookAtDone), c);
      } else {
        CancellingMayAbort(s, c, d);
      }
    } else {
      DecidedMayAbort(s, c);
    }
  }

  lemma CancelledNow(s: State, c: nat)
    requires WaitsOnCancelled(s, c)
    ensures MayCancel(s, c)
  {
    assert Runs(s, [], s);
  }

  lemma CancellingMayCancel(s: State, c: nat, d: nat)
    requires WaitsIn(s, c) && d in s.calls && s.calls[d].LastCancels? && s.calls[d].flight == s.calls[c].flight
    requires !IsDone(s.flights[s.calls[c].flight])
    ensures MayCancel(s, c)
  {
    CancelStep(s, c, d);
    CancelledNow(Apply(s, Wait(d, CancelShared)), c);
    MayCancelBefore(s, Wait(d, CancelShared), c);
  }

  lemma ExposedMayCancel(s: State, c: nat)
    requires WaitsIn(s, c) && Exposed(s, s.calls[c].flight)
    ensures MayCancel(s, c)
  {
    var f := s.calls[c].flight;
    if s.flights[f].cancelled {
      CancelledNow(s, c);
    } else {
      var d :| d in s.calls && (s.calls[d].LastLooks? || s.calls[d].LastCancels?) && s.calls[d].flight == f;
      if s.calls[d].LastLooks? {
        LookStep(s, c, d);
        CancellingMayCancel(Apply(s, Wait(d, LookAtDone)), c, d);
        MayCancelBefore(s, Wait(d, LookAtDone), c);
      } else {
        CancellingMayCancel(s, c, d);
      }
    }
  }

  /** A waiting caller can be handed an abort if and only if its flight is
      already aborted, or is in its window and cancelled or about to be by a
      caller that had brought the count to zero. */
  lemma MayAbortIff(s: State, c: nat)
    requires Inv(s) && WaitsIn(s, c)
    ensures MayAbort(s, c) <==> Doomed(s, s.calls[c].flight)
  {
    if Doomed(s, s.calls[c].flight) {
      assert FlightOk(s.flights[s.calls[c].flight]);
      DoomedMayAbort(s, c);
    } else {
      forall acts, t | Runs(s, acts, t) ensures !WaitsOnAborted(t, c) {
        if WaitsIn(t, c) { SafeRun(s, acts, t, c); }
      }
    }
  }

  /** The shared context can be cancelled under a waiting caller if and only if
      it already is, or a last leaver is on its way. */
  lemma MayCancelIff(s: State, c: nat)
    requires Inv(s) && WaitsIn(s, c)
    ensures MayCancel(s, c) <==> Exposed(s, s.calls[c].flight)
  {
    if Exposed(s, s.calls[c].flight) {
      ExposedMayCancel(s, c);
    } else {
      forall acts, t | Runs(s, acts, t) ensures !WaitsOnCancelled(t, c) {
        if WaitsIn(t, c) { SafeRun(s, acts, t, c); }
      }
    }
  }

  /** A caller that waits is at risk exactly if it joined a flight that was
      doomed, or exposed, at that moment; one that started its own flight never is. */
  lemma RiskIsKnownAtTheJoin(s: State, c: nat, key: Key)
    requires Inv(s) && Enabled(s, Do(c, key)) && Apply(s, Do(c, key)).calls[c].Waiting?
    ensures var t := Apply(s, Do(c, key));
      && (MayAbort(t, c) <==> key in s.inflight && Doomed(s, s.inflight[key]))
      && (MayCancel(t, c) <==> key in s.inflight && Exposed(s, s.inflight[key]))
  {
    var t := Apply(s, Do(c, key));
    StepKeepsInv(s, Do(c, key));
    assert CallOk(t, c);
    MayAbortIff(t, c);
    MayCancelIff(t, c);
    if key in s.inflight { JoinKeepsRisk(s, c, s.inflight[key]); } else { CreateIsSafe(s, c, key); }
  }

  lemma JoinKeepsRisk(s: State, c: nat, f: nat)
    requires f < |s.flights| && c !in s.calls
    ensures Exposed(Join(s, c, f), f) <==> Exposed(s, f)
    ensures Doomed(Join(s, c, f), f) <==> Doomed(s, f)
  {
    LeaverUnchanged(s, Join(s, c, f), c, f);
  }

  lemma CreateIsSafe(s: State, c: nat, key: Key)
    requires Inv(s) && c !in s.calls
    ensures var t := Create(s, c, key); !Exposed(t, |s.flights|) && !Doomed(t, |s.flights|)
  {
    assert forall d :: d in s.calls ==> CallOk(s, d);
    assert !HasLastLeaver(Create(s, c, key), |s.flights|);
  }

  lemma LeaverUnchanged(s: State, t: State, c: nat, f: nat)
    requires c !in s.calls && t.calls == s.calls[c := Waiting(f)]
    ensures HasLastLeaver(t, f) <==> HasLastLeaver(s, f)
  {
    if HasLastLeaver(s, f) {
      var d :| d in s.calls && (s.calls[d].LastLooks? || s.calls[d].LastCancels?) && s.calls[d].flight == f;
      assert t.calls[d] == s.calls[d];
    }
  }

  // ------------------------------------------------------------ a run into it

  /** The last caller left and is about to cancel, the window is still open. */
  function AboutToCancel(): State {
    State(1000, map["k" := 0], [Flight("k", 0, InWindow, None, false, 0, 0, true)],
          map[0 := LastCancels(0, OwnContext)])
  }

  /** The only caller of flight 0 is done waiting. */
  function OnlyCallerLeaves(): State {
    State(1000, map["k" := 0], [Flight("k", 1, InWindow, None, false, 0, 0, false)],
          map[0 := Leaving(0, OwnContext)])
  }

  lemma ReachOnlyCallerLeaves(acts: seq<Action>, t: State)
    requires Runs(OnlyCallerLeaves(), acts, t)
    ensures Runs(Init(1000), [Do(0, "k")] + ([Wait(0, OwnCtxDone)] + acts), t)
  {
    var s1 := Apply(Init(1000), Do(0, "k"));
    assert Apply(s1, Wait(0, OwnCtxDone)) == OnlyCallerLeaves();
    RunsCons(s1, Wait(0, OwnCtxDone), acts, t);
    RunsCons(Init(1000), Do(0, "k"), [Wait(0, OwnCtxDone)] + acts, t);
  }

  lemma ReachAboutToCancel(acts: seq<Action>, t: State)
    requires Runs(AboutToCancel(), acts, t)
    ensures Runs(OnlyCallerLeaves(), [Wait(0, Decrement)] + ([Wait(0, LookAtDone)] + acts), t)
  {
    var s3 := Apply(OnlyCallerLeaves(), Wait(0, Decrement));
    assert Apply(s3, Wait(0, LookAtDone)) == AboutToCancel();
    RunsCons(s3, Wait(0, LookAtDone), acts, t);
    RunsCons(OnlyCallerLeaves(), Wait(0, Decrement), [Wait(0, LookAtDone)] + acts, t);
  }

  /** A caller that never left can still be handed an abort: it joined after the
      count had reached zero and before the last leaver cancelled. */
  lemma JoinerMaySeeAbort()
    ensures exists acts, t :: Runs(Init(1000), acts, t) && WaitsOnAborted(t, 1)
  {
    JoinerIsDoomed();
    var acts, t :| Runs(Apply(AboutToCancel(), Do(1, "k")), acts, t) && WaitsOnAborted(t, 1);
    RunsCons(AboutToCancel(), Do(1, "k"), acts, t);
    acts := [Do(1, "k")] + acts;
    ReachAboutToCancel(acts, t);
    ReachOnlyCallerLeaves([Wait(0, Decrement)] + ([Wait(0, LookAtDone)] + acts), t);
  }

  lemma JoinerIsDoomed()
    ensures Enabled(AboutToCancel(), Do(1, "k")) && MayAbort(Apply(AboutToCancel(), Do(1, "k")), 1)
  {
    var s := Apply(AboutToCancel(), Do(1, "k"));
    assert s.calls[0] == LastCancels(0, OwnContext) && HasLastLeaver(s, 0);
    DoomedMayAbort(s, 1);
  }
}
