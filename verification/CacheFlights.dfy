/** The Cache middleware (middleware/cache.go) under concurrent calls: every
    interleaving of first looks, singleflight joins, second looks, handler
    runs, stores, expiries, evictions and invalidations. */
module CacheFlights {
  import opened Options
  import opened ByteStrings
  import opened LruSpec
  import opened CacheChain
  import opened ToolName

  datatype Request = Request(tool: Bytes, extra: Bytes, input: Bytes)

  /** What stays fixed: capacity and configuration, the hash, the handler and
      the inputs that ever occur. */
  datatype World = World(cap: nat, cfg: Config, h: Hash, f: Handler, traffic: set<Bytes>)

  function KeyOf(w: World, q: Request): Bytes { BuildKey(w.h, q.tool, q.extra, q.input) }

  function Handle(w: World, q: Request): Reply { w.f(q.tool, q.extra, q.input) }

  /** Inside sf.Do: before the second look, before the handler, before the
      store, with a result, and with the result handed out. */
  datatype Stage = Looking | Missed | Storing(value: Bytes) | Resolved(reply: Reply) | Finished(reply: Reply)
  datatype Flight = Flight(req: Request, stage: Stage)

  datatype CallPc = Begun | Entering | InFlight(flight: nat) | Answered(reply: Reply)
  datatype Call = Call(req: Request, pc: CallPc)

  /** The recency list, the calls by number, all flights so far and those that
      the singleflight group still knows, by key. */
  datatype State = State(list: seq<Entry>, calls: map<nat, Call>, flights: seq<Flight>, group: map<Bytes, nat>)

  datatype Action =
    | Arrive(c: nat, req: Request) | Bypass(c: nat) | FirstLook(c: nat, now: int) | Enter(c: nat) | Read(c: nat)
    | SecondLook(g: nat, now: int) | RunHandler(g: nat) | Store(g: nat, now: int) | Finish(g: nat)
    | Invalidate(gone: KeySet)

  function Init(): State { State([], map[], [], map[]) }

  predicate At(s: State, c: nat, pc: CallPc) { c in s.calls && s.calls[c].pc == pc }

  predicate StageIs(s: State, g: nat, stage: Stage) { g < |s.flights| && s.flights[g].stage == stage }

  ghost predicate Enabled(w: World, s: State, a: Action) {
    match a
    case Arrive(c, req) => c !in s.calls && ValidName(req.tool) && req.input in w.traffic
    case Bypass(c) => At(s, c, Begun) && !ShouldCache(w.cfg, s.calls[c].req.tool)
    case FirstLook(c, now) => At(s, c, Begun) && ShouldCache(w.cfg, s.calls[c].req.tool)
    case Enter(c) => At(s, c, Entering)
    case Read(c) => c in s.calls && s.calls[c].pc.InFlight? && s.calls[c].pc.flight < |s.flights|
                    && s.flights[s.calls[c].pc.flight].stage.Finished?
    case SecondLook(g, now) => StageIs(s, g, Looking)
    case RunHandler(g) => StageIs(s, g, Missed)
    case Store(g, now) => g < |s.flights| && s.flights[g].stage.Storing?
    case Finish(g) => g < |s.flights| && s.flights[g].stage.Resolved?
    case Invalidate(gone) => true
  }

  function Move(s: State, c: nat, pc: CallPc): State
    requires c in s.calls
  {
    s.(calls := s.calls[c := s.calls[c].(pc := pc)])
  }

  function Advance(s: State, g: nat, stage: Stage): State
    requires g < |s.flights|
  {
    s.(flights := s.flights[g := s.flights[g].(stage := stage)])
  }

  /** sf.Do: join the flight of this key or start one. */
  function EnterFlight(w: World, s: State, c: nat): State
    requires c in s.calls
  {
    var q := s.calls[c].req;
    if KeyOf(w, q) in s.group then Move(s, c, InFlight(s.group[KeyOf(w, q)]))
    else
      var t := Move(s, c, InFlight(|s.flights|));
      t.(flights := s.flights + [Flight(q, Looking)], group := s.group[KeyOf(w, q) := |s.flights|])
  }

  function Look(w: World, s: State, q: Request, now: int): State {
    s.(list := Step(w.cap, s.list, Get(KeyOf(w, q), now)))
  }

  function Found(w: World, s: State, q: Request, now: int): Option<Bytes> {
    Answer(s.list, Get(KeyOf(w, q), now))
  }

  function StoreOp(w: World, q: Request, value: Bytes, now: int): Op { Set(KeyOf(w, q), value, w.cfg.ttl, now) }

  ghost function Apply(w: World, s: State, a: Action): State
    requires Enabled(w, s, a)
  {
    match a
    case Arrive(c, req) => s.(calls := s.calls[c := Call(req, Begun)])
    case Bypass(c) => Move(s, c, Answered(Handle(w, s.calls[c].req)))
    case FirstLook(c, now) =>
      var q := s.calls[c].req;
      Move(Look(w, s, q, now), c, if Found(w, s, q, now).Some? then Answered(Ok(Found(w, s, q, now).value)) else Entering)
    case Enter(c) => EnterFlight(w, s, c)
    case Read(c) => Move(s, c, Answered(s.flights[s.calls[c].pc.flight].stage.reply))
    case SecondLook(g, now) =>
      var q := s.flights[g].req;
      Advance(Look(w, s, q, now), g, if Found(w, s, q, now).Some? then Resolved(Ok(Found(w, s, q, now).value)) else Missed)
    case RunHandler(g) =>
      var r := Handle(w, s.flights[g].req);
      Advance(s, g, if r.Ok? then Storing(r.value) else Resolved(r))
    case Store(g, now) =>
      var value := s.flights[g].stage.value;
      Advance(s.(list := Step(w.cap, s.list, StoreOp(w, s.flights[g].req, value, now))), g, Resolved(Ok(value)))
    case Finish(g) =>
      Advance(s.(group := s.group - {KeyOf(w, s.flights[g].req)}), g, Finished(s.flights[g].stage.reply))
    case Invalidate(gone) => s.(list := Step(w.cap, s.list, Delete(gone)))
  }

  ghost predicate Runs(w: World, s: State, acts: seq<Action>, t: State)
    decreases |acts|
  {
    if acts == [] then s == t else Enabled(w, s, acts[0]) && Runs(w, Apply(w, s, acts[0]), acts[1..], t)
  }

  // -------------------------------------------------------------- invariant

  ghost predicate Proper(w: World, q: Request) { ValidName(q.tool) && q.input in w.traffic }

  /** Whatever a flight has come to know is the handler's answer to its request. */
  ghost predicate FlightOk(w: World, fl: Flight) {
    && Proper(w, fl.req)
    && (fl.stage.Storing? ==> Handle(w, fl.req) == Ok(fl.stage.value))
    && (fl.stage.Resolved? || fl.stage.Finished? ==> Handle(w, fl.req) == fl.stage.reply)
  }

  /** A call waits only on a flight for its own request. */
  ghost predicate CallOk(w: World, c: Call, flights: seq<Flight>) {
    && Proper(w, c.req)
    && (c.pc.Answered? ==> c.pc.reply == Handle(w, c.req))
    && (c.pc.InFlight? ==> c.pc.flight < |flights| && flights[c.pc.flight].req == c.req)
  }

  /** The group knows exactly the unfinished flights, each by its key. */
  ghost predicate GroupOk(w: World, flights: seq<Flight>, group: map<Bytes, nat>) {
    && (forall k :: k in group ==> group[k] < |flights| && KeyOf(w, flights[group[k]].req) == k)
    && (forall g :: 0 <= g < |flights| && !flights[g].stage.Finished? ==>
          KeyOf(w, flights[g].req) in group && group[KeyOf(w, flights[g].req)] == g)
  }

  ghost predicate Inv(w: World, s: State) {
    && Faithful(w.h, w.traffic, w.f, s.list)
    && (forall g :: 0 <= g < |s.flights| ==> FlightOk(w, s.flights[g]))
    && (forall c :: c in s.calls ==> CallOk(w, s.calls[c], s.flights))
    && GroupOk(w, s.flights, s.group)
  }

  lemma FoundIsAnswer(w: World, s: State, q: Request, now: int)
    requires HexDigest(w.h, w.traffic) && Proper(w, q) && Faithful(w.h, w.traffic, w.f, s.list)
    ensures Found(w, s, q, now).Some? ==> Handle(w, q) == Ok(Found(w, s, q, now).value)
  {
    CachedIsAnswer(w.h, w.traffic, w.f, s.list, q.tool, q.extra, q.input);
  }

  lemma LookKeeps(w: World, s: State, q: Request, now: int)
    requires Inv(w, s)
    ensures Inv(w, Look(w, s, q, now))
  {
    StepFaithful(w.h, w.traffic, w.f, w.cap, s.list, Get(KeyOf(w, q), now));
  }

  /** Moving one call on its own request. */
  lemma MoveKeeps(w: World, s: State, c: nat, pc: CallPc)
    requires Inv(w, s) && c in s.calls && CallOk(w, s.calls[c].(pc := pc), s.flights)
    ensures Inv(w, Move(s, c, pc))
  {}

  /** Advancing one flight that stays unfinished. */
  lemma AdvanceKeeps(w: World, s: State, g: nat, stage: Stage)
    requires Inv(w, s) && g < |s.flights| && !s.flights[g].stage.Finished? && !stage.Finished?
    requires FlightOk(w, s.flights[g].(stage := stage))
    ensures Inv(w, Advance(s, g, stage))
  {
    var t := Advance(s, g, stage);
    assert forall k :: 0 <= k < |s.flights| ==> t.flights[k].req == s.flights[k].req;
    assert forall c :: c in t.calls ==> CallOk(w, s.calls[c], s.flights);
  }

  lemma FinishKeeps(w: World, s: State, g: nat)
    requires Inv(w, s) && g < |s.flights| && s.flights[g].stage.Resolved?
    ensures Inv(w, Apply(w, s, Finish(g)))
  {
    var t := Apply(w, s, Finish(g));
    assert FlightOk(w, s.flights[g]);
    assert forall k :: 0 <= k < |s.flights| ==> t.flights[k].req == s.flights[k].req;
    assert forall c :: c in t.calls ==> CallOk(w, s.calls[c], s.flights);
  }

  /** A joiner's request is the flight's request, because keys are injective. */
  lemma EnterKeeps(w: World, s: State, c: nat)
    requires HexDigest(w.h, w.traffic) && Inv(w, s) && At(s, c, Entering)
    ensures Inv(w, EnterFlight(w, s, c))
  {
    var q := s.calls[c].req;
    assert CallOk(w, s.calls[c], s.flights);
    if KeyOf(w, q) in s.group {
      var r := s.flights[s.group[KeyOf(w, q)]].req;
      assert FlightOk(w, s.flights[s.group[KeyOf(w, q)]]);
      KeyInjective(w.h, w.traffic, r.tool, r.extra, r.input, q.tool, q.extra, q.input);
      MoveKeeps(w, s, c, InFlight(s.group[KeyOf(w, q)]));
    } else {
      NewFlightKeeps(w, s, c);
    }
  }

  lemma NewFlightKeeps(w: World, s: State, c: nat)
    requires Inv(w, s) && At(s, c, Entering) && KeyOf(w, s.calls[c].req) !in s.group
    ensures Inv(w, EnterFlight(w, s, c))
  {
    var t := EnterFlight(w, s, c);
    assert forall d :: d in s.calls ==> CallOk(w, s.calls[d], s.flights);
    forall d | d in t.calls ensures CallOk(w, t.calls[d], t.flights) {
      assert CallOk(w, s.calls[d], s.flights);
    }
  }

  lemma StoreKeeps(w: World, s: State, g: nat, now: int)
    requires Inv(w, s) && g < |s.flights| && s.flights[g].stage.Storing?
    ensures Inv(w, Apply(w, s, Store(g, now)))
  {
    var q, value := s.flights[g].req, s.flights[g].stage.value;
    assert FlightOk(w, s.flights[g]);
    var op := StoreOp(w, q, value, now);
    assert Caches(w.h, w.traffic, w.f, NewEntry(op), q.tool, q.extra, q.input);
    StepFaithful(w.h, w.traffic, w.f, w.cap, s.list, op);
    AdvanceKeeps(w, s.(list := Step(w.cap, s.list, op)), g, Resolved(Ok(value)));
  }

  lemma FirstLookKeeps(w: World, s: State, c: nat, now: int)
    requires HexDigest(w.h, w.traffic) && Inv(w, s) && Enabled(w, s, FirstLook(c, now))
    ensures Inv(w, Apply(w, s, FirstLook(c, now)))
  {
    var q := s.calls[c].req;
    assert CallOk(w, s.calls[c], s.flights);
    FoundIsAnswer(w, s, q, now);
    LookKeeps(w, s, q, now);
    MoveKeeps(w, Look(w, s, q, now), c,
              if Found(w, s, q, now).Some? then Answered(Ok(Found(w, s, q, now).value)) else Entering);
  }

  lemma SecondLookKeeps(w: World, s: State, g: nat, now: int)
    requires HexDigest(w.h, w.traffic) && Inv(w, s) && Enabled(w, s, SecondLook(g, now))
    ensures Inv(w, Apply(w, s, SecondLook(g, now)))
  {
    var q := s.flights[g].req;
    assert FlightOk(w, s.flights[g]);
    FoundIsAnswer(w, s, q, now);
    LookKeeps(w, s, q, now);
    AdvanceKeeps(w, Look(w, s, q, now), g,
                 if Found(w, s, q, now).Some? then Resolved(Ok(Found(w, s, q, now).value)) else Missed);
  }

  lemma CallStepKeeps(w: World, s: State, a: Action)
    requires Inv(w, s) && Enabled(w, s, a) && (a.Arrive? || a.Bypass? || a.Read?)
    ensures Inv(w, Apply(w, s, a))
  {
    if !a.Arrive? { assert CallOk(w, s.calls[a.c], s.flights); }
    if a.Bypass? {
      MoveKeeps(w, s, a.c, Answered(Handle(w, s.calls[a.c].req)));
    } else if a.Read? {
      assert FlightOk(w, s.flights[s.calls[a.c].pc.flight]);
      MoveKeeps(w, s, a.c, Answered(s.flights[s.calls[a.c].pc.flight].stage.reply));
    }
  }

  lemma StepKeepsInv(w: World, s: State, a: Action)
    requires HexDigest(w.h, w.traffic) && Inv(w, s) && Enabled(w, s, a)
    ensures Inv(w, Apply(w, s, a))
  {
    match a
    case FirstLook(c, now) => FirstLookKeeps(w, s, c, now);
    case Enter(c) => EnterKeeps(w, s, c);
    case SecondLook(g, now) => SecondLookKeeps(w, s, g, now);
    case RunHandler(g) =>
      assert FlightOk(w, s.flights[g]);
      var r := Handle(w, s.flights[g].req);
      AdvanceKeeps(w, s, g, if r.Ok? then Storing(r.value) else Resolved(r));
    case Store(g, now) => StoreKeeps(w, s, g, now);
    case Finish(g) => FinishKeeps(w, s, g);
    case Invalidate(gone) => StepFaithful(w.h, w.traffic, w.f, w.cap, s.list, Delete(gone));
    case _ => CallStepKeeps(w, s, a);
  }

  lemma {:induction false} RunsKeepInv(w: World, s: State, acts: seq<Action>, t: State)
    requires HexDigest(w.h, w.traffic) && Inv(w, s) && Runs(w, s, acts, t)
    ensures Inv(w, t)
    decreases |acts|
  {
    if acts != [] {
      StepKeepsInv(w, s, acts[0]);
      RunsKeepInv(w, Apply(w, s, acts[0]), acts[1..], t);
    }
  }

  /** In every interleaving every call, leader or follower, hit or miss, gets
      exactly what the uncached handler answers to its own request. */
  lemma EveryAnswerIsTheHandlers(w: World, acts: seq<Action>, t: State, c: nat)
    requires HexDigest(w.h, w.traffic) && Runs(w, Init(), acts, t)
    requires c in t.calls && t.calls[c].pc.Answered?
    ensures t.calls[c].pc.reply == w.f(t.calls[c].req.tool, t.calls[c].req.extra, t.calls[c].req.input)
  {
    RunsKeepInv(w, Init(), acts, t);
    assert CallOk(w, t.calls[c], t.flights);
  }

  /** No stampede: two unfinished flights never work on the same request. */
  lemma OneFlightPerRequest(w: World, acts: seq<Action>, t: State, g: nat, k: nat)
    requires HexDigest(w.h, w.traffic) && Runs(w, Init(), acts, t) && g < |t.flights| && k < |t.flights|
    requires !t.flights[g].stage.Finished? && !t.flights[k].stage.Finished? && t.flights[g].req == t.flights[k].req
    ensures g == k
  {
    RunsKeepInv(w, Init(), acts, t);
  }
}
