/** The failover loop of client/loadbalancer.go with its strategies. What the
    loop cannot control is a parameter, indexed by attempt: cancellation of the
    context, the healthy backends, the connections of other callers, and the
    outcome of the request. */
module Failover {
  import opened Options

  const WORD: nat := 0x1_0000_0000_0000_0000

  datatype Backend = Backend(id: string, conns: int)

  /** Random and user strategies are a sequence of picks, possibly out of range. */
  datatype Strategy = RoundRobin(counter: nat) | LeastConnections | Picks(pick: nat -> int, used: nat)

  datatype Outcome = Succeeded | Retryable | Fatal

  datatype Env = Env(maxRetries: int, retriesLimit: int, total: nat,
                     cancelled: nat -> bool, healthy: nat -> seq<string>, others: (string, nat) -> int,
                     outcome: (string, nat) -> Outcome)

  /** This caller's part of the activeConns counters. */
  type Active = map<string, int>

  function Count(active: Active, id: string): int { if id in active then active[id] else 0 }

  function Bump(active: Active, id: string, d: int): Active { active[id := Count(active, id) + d] }

  /** The healthy backends with the counters a strategy reads. */
  function Snapshot(env: Env, active: Active, k: nat): (bs: seq<Backend>)
    ensures |bs| == |env.healthy(k)|
    ensures forall i :: 0 <= i < |bs| ==> bs[i].id == env.healthy(k)[i]
  {
    var ids := env.healthy(k);
    seq(|ids|, i requires 0 <= i < |ids| => Backend(ids[i], Count(active, ids[i]) + env.others(ids[i], k)))
  }

  // --------------------------------------------------------------- strategies

  /** First index with the fewest connections among the first n. */
  function LeastOf(bs: seq<Backend>, n: nat): (i: nat)
    requires 1 <= n <= |bs|
    ensures i < n && forall j :: 0 <= j < n ==> bs[i].conns <= bs[j].conns && (j < i ==> bs[i].conns < bs[j].conns)
  {
    if n == 1 then 0
    else var i := LeastOf(bs, n - 1);
      if bs[n - 1].conns < bs[i].conns then n - 1 else i
  }

  function Choose(s: Strategy, bs: seq<Backend>): int
    requires bs != []
  {
    match s
    case RoundRobin(counter) => counter % |bs|
    case LeastConnections => LeastOf(bs, |bs|)
    case Picks(pick, used) => pick(used)
  }

  /** The counter is an unsigned 64-bit word. */
  function Advance(s: Strategy): Strategy {
    match s
    case RoundRobin(counter) => RoundRobin((counter + 1) % WORD)
    case LeastConnections => s
    case Picks(pick, used) => Picks(pick, used + 1)
  }

  method LeastConnectionsNext(backends: seq<Backend>) returns (idx: int)
    ensures backends == [] ==> idx == -1
    ensures backends != [] ==> 0 <= idx < |backends| && idx == LeastOf(backends, |backends|)
    ensures backends != [] ==> forall j :: 0 <= j < |backends| ==> backends[idx].conns <= backends[j].conns
  {
    if backends == [] { return -1; }
    var minIdx, minConns := 0, backends[0].conns;
    var i := 1;
    while i < |backends|
      invariant 1 <= i <= |backends| && 0 <= minIdx < i
      invariant minIdx == LeastOf(backends, i) && minConns == backends[minIdx].conns
    {
      if backends[i].conns < minConns {
        minConns, minIdx := backends[i].conns, i;
      }
      i := i + 1;
    }
    return minIdx;
  }

  function Kept(all: seq<Backend>, healthy: Backend -> bool): seq<Backend> {
    if all == [] then []
    else Kept(all[..|all| - 1], healthy) + if healthy(all[|all| - 1]) then [all[|all| - 1]] else []
  }

  /** Exactly the healthy ones stay, each once. */
  lemma {:induction false} KeptFacts(all: seq<Backend>, healthy: Backend -> bool)
    ensures forall b :: b in Kept(all, healthy) <==> b in all && healthy(b)
    ensures DistinctIds(all) ==> DistinctIds(Kept(all, healthy))
  {
    if all != [] {
      var init, last := all[..|all| - 1], all[|all| - 1];
      assert all == init + [last];
      KeptFacts(init, healthy);
      if DistinctIds(all) {
        assert forall i :: 0 <= i < |Kept(init, healthy)| ==> Kept(init, healthy)[i] in init;
      }
    }
  }

  /** getHealthyBackends: the healthy ones, in order. */
  method HealthyBackends(all: seq<Backend>, healthy: Backend -> bool) returns (hs: seq<Backend>)
    ensures hs == Kept(all, healthy)
    ensures forall b :: b in hs <==> b in all && healthy(b)
    ensures DistinctIds(all) ==> DistinctIds(hs)
  {
    hs := [];
    var i := 0;
    while i < |all|
      invariant i <= |all| && hs == Kept(all[..i], healthy)
    {
      assert all[..i + 1][..i] == all[..i];
      if healthy(all[i]) { hs := hs + [all[i]]; }
      i := i + 1;
    }
    assert all[..i] == all;
    KeptFacts(all, healthy);
  }

  ghost predicate DistinctIds(bs: seq<Backend>) {
    forall i, j :: 0 <= i < j < |bs| ==> bs[i].id != bs[j].id
  }

  // --------------------------------------------------------------------- loop

  datatype Result = Success | ContextError | NotRetryable | AllFailed | BalancerClosed

  /** What the loop carries: the strategy, this caller's counters and the
      backends the request ran on, in order. */
  datatype Work = Work(strategy: Strategy, active: Active, ran: seq<string>)

  datatype Final = Final(result: Result, work: Work)

  datatype Progress = Done(final: Final) | Again(work: Work)

  /** Attempts the loop may make: MaxRetries, all backends for 0, the safety
      limit for -1. */
  function Attempts(env: Env): nat {
    if env.maxRetries == -1 then (if env.retriesLimit < 0 then 0 else env.retriesLimit)
    else if env.maxRetries == 0 then env.total
    else if env.maxRetries < 0 then 0 else env.maxRetries
  }

  /** The configuration allows n requests: MaxRetries of them, as many as there
      are backends for 0, and up to the safety limit for -1. */
  ghost predicate Allows(env: Env, n: nat) {
    if env.maxRetries == -1 then n <= env.retriesLimit
    else if env.maxRetries == 0 then n <= env.total else n <= env.maxRetries
  }

  lemma AllowsIff(env: Env, n: nat)
    requires n >= 1
    ensures Allows(env, n) <==> n <= Attempts(env)
  {}

  /** The counters after a request on this backend: one up, one down. */
  function Served(active: Active, id: string): Active { Bump(Bump(active, id, 1), id, -1) }

  /** The request on one backend. */
  function Try(env: Env, w: Work, id: string, k: nat): Progress {
    var next := Work(w.strategy, Served(w.active, id), w.ran + [id]);
    match env.outcome(id, k)
    case Succeeded => Done(Final(Success, next))
    case Fatal => Done(Final(NotRetryable, next))
    case Retryable => Again(next)
  }

  /** One round of the loop. */
  function Attempt(env: Env, w: Work, k: nat): Progress {
    if env.cancelled(k) then Done(Final(ContextError, w))
    else if env.healthy(k) == [] then Done(Final(AllFailed, w))
    else
      var ids := env.healthy(k);
      var idx := Choose(w.strategy, Snapshot(env, w.active, k));
      var on := w.(strategy := Advance(w.strategy));
      if idx < 0 || idx >= |ids| then Done(Final(AllFailed, on))
      else if ids[idx] in w.ran then Again(on)
      else Try(env, on, ids[idx], k)
  }

  function Loop(env: Env, w: Work, k: nat): Final
    decreases Attempts(env) - k
  {
    if k >= Attempts(env) then Final(AllFailed, w)
    else
      var p := Attempt(env, w, k);
      if p.Done? then p.final else Loop(env, p.work, k + 1)
  }

  /** executeWithFailover: the tried map is the set of ids the request ran on. */
  method ExecuteWithFailover(env: Env, closed: bool, s0: Strategy, active0: Active)
    returns (result: Result, s: Strategy, active: Active, ran: seq<string>)
    ensures Final(result, Work(s, active, ran)) ==
      if closed then Final(BalancerClosed, Work(s0, active0, [])) else Loop(env, Work(s0, active0, []), 0)
    ensures NoRepeats(ran) && (ran != [] ==> Allows(env, |ran|))
    ensures Truthful(env, result, ran)
    ensures SameCounts(active, active0)
  {
    if closed { return BalancerClosed, s0, active0, []; }
    RunsOncePerBackend(env, Work(s0, active0, []), 0);
    AnswerIsTruthful(env, Work(s0, active0, []), 0);
    CountersRestored(env, Work(s0, active0, []), 0);
    result, s, active, ran := RetryLoop(env, s0, active0);
    if ran != [] { AllowsIff(env, |ran|); }
  }

  method RetryLoop(env: Env, s0: Strategy, active0: Active)
    returns (result: Result, s: Strategy, active: Active, ran: seq<string>)
    ensures Final(result, Work(s, active, ran)) == Loop(env, Work(s0, active0, []), 0)
  {
    ghost var goal := Loop(env, Work(s0, active0, []), 0);
    var maxRetries := env.maxRetries;
    if maxRetries == 0 { maxRetries := env.total; }
    s, active, ran := s0, active0, [];
    var tried: set<string> := {};
    var attempt, attemptCount := 0, 0;
    while attempt < maxRetries || maxRetries == -1
      invariant attemptCount == attempt <= Attempts(env)
      invariant maxRetries == -1 || maxRetries == Attempts(env) || (maxRetries < 0 && Attempts(env) == 0)
      invariant maxRetries == -1 <==> env.maxRetries == -1
      invariant forall id :: id in tried <==> id in ran
      invariant Loop(env, Work(s, active, ran), attempt) == goal
      decreases Attempts(env) - attempt
    {
      attemptCount := attemptCount + 1;
      if maxRetries == -1 && attemptCount > env.retriesLimit { break; }
      if env.cancelled(attempt) { return ContextError, s, active, ran; }
      var ids := env.healthy(attempt);
      if ids == [] { break; }
      var idx := Choose(s, Snapshot(env, active, attempt));
      s := Advance(s);
      if idx < 0 || idx >= |ids| { break; }
      var id := ids[idx];
      if id in tried {
        attempt := attempt + 1;
        continue;
      }
      tried := tried + {id};
      ran := ran + [id];
      active := Bump(active, id, 1);
      var outcome := env.outcome(id, attempt);
      active := Bump(active, id, -1);
      match outcome {
        case Succeeded => return Success, s, active, ran;
        case Fatal => return NotRetryable, s, active, ran;
        case Retryable =>
      }
      attempt := attempt + 1;
    }
    return AllFailed, s, active, ran;
  }

  // ----------------------------------------------------------------- theorems

  ghost predicate NoRepeats(ids: seq<string>) {
    forall i, j :: 0 <= i < j < |ids| ==> ids[i] != ids[j]
  }

  /** The work a round leaves, whether or not it ends the loop. */
  function Left(p: Progress): Work { if p.Done? then p.final.work else p.work }

  /** A round adds at most one backend, a new one. */
  lemma AttemptRuns(env: Env, w: Work, k: nat)
    requires NoRepeats(w.ran)
    ensures var now := Left(Attempt(env, w, k)).ran;
      w.ran <= now && |now| <= |w.ran| + 1 && NoRepeats(now)
  {}

  /** The request never runs twice on one backend and within the attempt limit,
      whatever health, outcomes, cancellation and strategy do. */
  lemma {:induction false} RunsOncePerBackend(env: Env, w: Work, k: nat)
    requires NoRepeats(w.ran) && |w.ran| <= k <= Attempts(env)
    ensures var ran := Loop(env, w, k).work.ran; NoRepeats(ran) && |ran| <= Attempts(env) && w.ran <= ran
    decreases Attempts(env) - k
  {
    if k < Attempts(env) {
      AttemptRuns(env, w, k);
      var p := Attempt(env, w, k);
      if p.Again? { RunsOncePerBackend(env, p.work, k + 1); }
    }
  }

  ghost predicate SameCounts(a: Active, b: Active) { forall id :: Count(a, id) == Count(b, id) }

  lemma AttemptRestores(env: Env, w: Work, k: nat)
    ensures SameCounts(Left(Attempt(env, w, k)).active, w.active)
  {}

  /** Whatever happens, the caller leaves every connection counter as it was. */
  lemma {:induction false} CountersRestored(env: Env, w: Work, k: nat)
    ensures SameCounts(Loop(env, w, k).work.active, w.active)
    decreases Attempts(env) - k
  {
    if k < Attempts(env) {
      AttemptRestores(env, w, k);
      var p := Attempt(env, w, k);
      if p.Again? { CountersRestored(env, p.work, k + 1); }
    }
  }

  /** At some attempt, not cancelled, the backend was healthy and the request
      ended this way on it. */
  ghost predicate EndedOn(env: Env, id: string, o: Outcome) {
    exists k, i :: 0 <= k < Attempts(env) && !env.cancelled(k) && 0 <= i < |env.healthy(k)|
                   && env.healthy(k)[i] == id && env.outcome(id, k) == o
  }

  ghost predicate AllRetryable(env: Env, ids: seq<string>) {
    forall i :: 0 <= i < |ids| ==> EndedOn(env, ids[i], Retryable)
  }

  /** What the caller is told: success or a fatal error is that of the last
      backend the request ran on, and everywhere else it failed retryably. */
  ghost predicate Truthful(env: Env, result: Result, ran: seq<string>) {
    if result == Success || result == NotRetryable
    then ran != [] && AllRetryable(env, ran[..|ran| - 1])
         && EndedOn(env, ran[|ran| - 1], if result == Success then Succeeded else Fatal)
    else AllRetryable(env, ran)
  }

  lemma AttemptIsTruthful(env: Env, w: Work, k: nat)
    requires AllRetryable(env, w.ran) && k < Attempts(env)
    ensures var p := Attempt(env, w, k);
      if p.Done? then Truthful(env, p.final.result, p.final.work.ran) else AllRetryable(env, p.work.ran)
  {
    if !env.cancelled(k) && env.healthy(k) != [] {
      var ids := env.healthy(k);
      var idx := Choose(w.strategy, Snapshot(env, w.active, k));
      if 0 <= idx < |ids| {
        assert EndedOn(env, ids[idx], env.outcome(ids[idx], k));
        assert (w.ran + [ids[idx]])[..|w.ran|] == w.ran;
      }
    }
  }

  lemma {:induction false} AnswerIsTruthful(env: Env, w: Work, k: nat)
    requires AllRetryable(env, w.ran)
    ensures Truthful(env, Loop(env, w, k).result, Loop(env, w, k).work.ran)
    decreases Attempts(env) - k
  {
    if k < Attempts(env) {
      AttemptIsTruthful(env, w, k);
      var p := Attempt(env, w, k);
      if p.Again? { AnswerIsTruthful(env, p.work, k + 1); }
    }
  }

  /** Health fixed: every attempt sees the same non-empty list. */
  ghost predicate FixedHealth(env: Env, ids: seq<string>) {
    ids != [] && forall k :: env.healthy(k) == ids
  }

  lemma ModStep(c: nat, j: nat, n: nat)
    requires n >= 1 && j < n
    ensures (c + j) % n == if c % n + j < n then c % n + j else c % n + j - n
  {
    var q, r := c / n, c % n;
    assert c == q * n + r;
    if r + j < n {
      ModIs(c + j, q, r + j, n);
    } else {
      assert c + j == (q + 1) * n + (r + j - n);
      ModIs(c + j, q + 1, r + j - n, n);
    }
  }

  lemma ModIs(x: nat, q: nat, r: nat, n: nat)
    requires n >= 1 && r < n && x == q * n + r
    ensures x % n == r
  {
    var d := x / n - q;
    assert x == (x / n) * n + x % n;
    assert d * n == (x / n) * n - q * n;
    assert d * n == r - x % n;
    assert d >= 1 ==> d * n >= n;
    assert d <= -1 ==> d * n <= 0 - n;
  }

  /** The index round robin picks at attempt j from counter c0. */
  function Slot(n: nat, c0: nat, j: nat): (i: nat)
    requires n >= 1
    ensures i < n
  {
    ((c0 + j) % WORD) % n
  }

  lemma NextCounter(c0: nat, j: nat)
    ensures ((c0 + j) % WORD + 1) % WORD == (c0 + j + 1) % WORD
  {}

  ghost predicate PickedBefore(ids: seq<string>, c0: nat, id: string, k: nat)
    requires ids != []
  {
    exists j :: 0 <= j < k && ids[Slot(|ids|, c0, j)] == id
  }

  lemma PickedStep(ids: seq<string>, c0: nat, id: string, k: nat)
    requires ids != []
    ensures PickedBefore(ids, c0, id, k + 1) <==> PickedBefore(ids, c0, id, k) || ids[Slot(|ids|, c0, k)] == id
  {
    if PickedBefore(ids, c0, id, k) {
      var j :| 0 <= j < k && ids[Slot(|ids|, c0, j)] == id;
      assert j < k + 1;
    }
  }

  /** The backends the request ran on are those the counter pointed at so far. */
  ghost predicate RanPicked(ids: seq<string>, c0: nat, ran: seq<string>, k: nat)
    requires ids != []
  {
    forall id :: id in ran <==> PickedBefore(ids, c0, id, k)
  }

  lemma RanPickedStep(ids: seq<string>, c0: nat, ran: seq<string>, k: nat)
    requires ids != [] && RanPicked(ids, c0, ran, k)
    ensures var id := ids[Slot(|ids|, c0, k)];
      RanPicked(ids, c0, if id in ran then ran else ran + [id], k + 1)
  {
    var id := ids[Slot(|ids|, c0, k)];
    var now := if id in ran then ran else ran + [id];
    forall x ensures x in now <==> PickedBefore(ids, c0, x, k + 1) { PickedStep(ids, c0, x, k); }
  }

  /** A round that neither succeeds nor ends the loop otherwise. */
  lemma RoundRobinStep(env: Env, ids: seq<string>, c0: nat, w: Work, k: nat)
    requires FixedHealth(env, ids) && w.strategy == RoundRobin((c0 + k) % WORD)
    ensures var id := ids[Slot(|ids|, c0, k)]; var p := Attempt(env, w, k);
      && (p.Done? ==> p.final.result != AllFailed)
      && (p.Again? ==> p.work.strategy == RoundRobin((c0 + k + 1) % WORD)
                       && p.work.ran == if id in w.ran then w.ran else w.ran + [id])
  {
    NextCounter(c0, k);
  }

  /** A loop that ends all-failed ran the request on exactly the backends that
      the counter pointed at during its attempts. */
  lemma {:induction false} RanArePicked(env: Env, ids: seq<string>, c0: nat, w: Work, k: nat)
    requires FixedHealth(env, ids) && k <= Attempts(env) && w.strategy == RoundRobin((c0 + k) % WORD)
    requires RanPicked(ids, c0, w.ran, k) && Loop(env, w, k).result == AllFailed
    ensures RanPicked(ids, c0, Loop(env, w, k).work.ran, Attempts(env))
    decreases Attempts(env) - k
  {
    if k < Attempts(env) {
      RoundRobinStep(env, ids, c0, w, k);
      RanPickedStep(ids, c0, w.ran, k);
      RanArePicked(env, ids, c0, Attempt(env, w, k).work, k + 1);
    }
  }

  /** Index i is picked within m attempts. */
  ghost predicate Reached(n: nat, c0: nat, m: nat, i: nat)
    requires n >= 1
  {
    exists j :: 0 <= j < m && Slot(n, c0, j) == i
  }

  ghost predicate CoversAll(n: nat, c0: nat, m: nat)
    requires n >= 1
  {
    forall i :: 0 <= i < n ==> Reached(n, c0, m, i)
  }

  /** Attempts needed to reach all n backends. A counter about to wrap starts
      over at index 0, which wastes attempts unless n divides 2^64. */
  function Needed(n: nat, c0: nat): (m: nat)
    requires n >= 1
    ensures m >= 1
  {
    if c0 + n <= WORD then n
    else if c0 >= WORD || WORD % n <= WORD - c0 then n + WORD % n else n + WORD - c0
  }

  lemma SlotUnwrapped(n: nat, c0: nat, j: nat)
    requires n >= 1 && c0 + n <= WORD && j < n
    ensures Slot(n, c0, j) == if c0 % n + j < n then c0 % n + j else c0 % n + j - n
  {
    assert (c0 + j) % WORD == c0 + j;
    ModStep(c0, j, n);
  }

  lemma CoversUnwrapped(n: nat, c0: nat, m: nat)
    requires n >= 1 && c0 + n <= WORD && m >= n
    ensures CoversAll(n, c0, m)
  {
    var r := c0 % n;
    forall i | 0 <= i < n ensures Reached(n, c0, m, i) {
      var j := if i >= r then i - r else i + n - r;
      SlotUnwrapped(n, c0, j);
    }
  }

  lemma MissesUnwrapped(n: nat, c0: nat, m: nat)
    requires n >= 1 && c0 + n <= WORD && m < n
    ensures !CoversAll(n, c0, m)
  {
    SlotUnwrapped(n, c0, m);
    var missed := Slot(n, c0, m);
    forall j | 0 <= j < m ensures Slot(n, c0, j) != missed { SlotUnwrapped(n, c0, j); }
    assert !Reached(n, c0, m, missed);
  }

  /** Picks before the counter wraps, counted back from 2^64, and after. */
  lemma SlotNearWrap(n: nat, c0: nat, j: nat)
    requires 1 <= n <= WORD && c0 < WORD < c0 + n && c0 + j < WORD + n
    ensures var d, w := WORD - c0 - j, WORD % n;
      Slot(n, c0, j) == if d <= 0 then 0 - d else if d <= w then w - d else w - d + n
  {
    var d, w, q := WORD - c0 - j, WORD % n, WORD / n;
    assert WORD == q * n + w;
    if d <= 0 {
      assert (c0 + j) % WORD == 0 - d;
      ModIs(0 - d, 0, 0 - d, n);
    } else if d <= w {
      ModIs(c0 + j, q, w - d, n);
    } else {
      assert q >= 1;
      assert (q - 1) * n == q * n - n;
      ModIs(c0 + j, q - 1, w - d + n, n);
    }
  }

  lemma CoversWrapped(n: nat, c0: nat, m: nat)
    requires 1 <= n <= WORD && c0 < WORD < c0 + n && m >= Needed(n, c0)
    ensures CoversAll(n, c0, m)
  {
    var k, w := WORD - c0, WORD % n;
    forall i | 0 <= i < n ensures Reached(n, c0, m, i) {
      var j := if k + i < m then k + i else k - (w + n - i);
      SlotNearWrap(n, c0, j);
    }
  }

  lemma MissesWrapped(n: nat, c0: nat, m: nat)
    requires 1 <= n <= WORD && c0 < WORD < c0 + n && m < Needed(n, c0)
    ensures !CoversAll(n, c0, m)
  {
    var k, w := WORD - c0, WORD % n;
    var missed := if w >= k then n - 1 else if w >= m - k then w else m - k;
    forall j | 0 <= j < m ensures Slot(n, c0, j) != missed { SlotNearWrap(n, c0, j); }
    assert !Reached(n, c0, m, missed);
  }

  /** With health fixed and distinct ids, a round-robin loop that reports
      all-failed has tried every healthy backend if and only if it had the
      attempts the counter needs: as many as there are backends, and more only
      when the 64-bit counter wraps on the way. */
  lemma RoundRobinTriesAllIff(env: Env, ids: seq<string>, c0: nat, active: Active)
    requires FixedHealth(env, ids) && NoRepeats(ids) && c0 < WORD && |ids| <= WORD
    ensures var f := Loop(env, Work(RoundRobin(c0), active, []), 0);
      f.result == AllFailed ==> (TriesAll(ids, f) <==> Allows(env, Needed(|ids|, c0)))
  {
    RoundRobinTriesCovered(env, ids, c0, active);
    CoversIff(|ids|, c0, Attempts(env));
    AllowsIff(env, Needed(|ids|, c0));
  }

  lemma RoundRobinTriesCovered(env: Env, ids: seq<string>, c0: nat, active: Active)
    requires FixedHealth(env, ids) && NoRepeats(ids) && c0 < WORD
    ensures var f := Loop(env, Work(RoundRobin(c0), active, []), 0);
      f.result == AllFailed ==> (TriesAll(ids, f) <==> CoversAll(|ids|, c0, Attempts(env)))
  {
    var w, m := Work(RoundRobin(c0), active, []), Attempts(env);
    if Loop(env, w, 0).result == AllFailed {
      RanArePicked(env, ids, c0, w, 0);
      TriesPicked(ids, c0, Loop(env, w, 0), m);
      PickedIffCovered(ids, c0, m);
    }
  }

  lemma TriesPicked(ids: seq<string>, c0: nat, f: Final, m: nat)
    requires ids != [] && RanPicked(ids, c0, f.work.ran, m)
    ensures TriesAll(ids, f) <==> forall i :: 0 <= i < |ids| ==> PickedBefore(ids, c0, ids[i], m)
  {}

  ghost predicate TriesAll(ids: seq<string>, f: Final) {
    forall i :: 0 <= i < |ids| ==> ids[i] in f.work.ran
  }

  lemma CoversIff(n: nat, c0: nat, m: nat)
    requires 1 <= n <= WORD && c0 < WORD
    ensures CoversAll(n, c0, m) <==> m >= Needed(n, c0)
  {
    if c0 + n <= WORD {
      if m >= n { CoversUnwrapped(n, c0, m); } else { MissesUnwrapped(n, c0, m); }
    } else if m >= Needed(n, c0) {
      CoversWrapped(n, c0, m);
    } else {
      MissesWrapped(n, c0, m);
    }
  }

  lemma PickedIffCovered(ids: seq<string>, c0: nat, m: nat)
    requires ids != [] && NoRepeats(ids)
    ensures (forall i :: 0 <= i < |ids| ==> PickedBefore(ids, c0, ids[i], m)) <==> CoversAll(|ids|, c0, m)
  {
    forall i | 0 <= i < |ids|
      ensures PickedBefore(ids, c0, ids[i], m) <==> Reached(|ids|, c0, m, i)
    {
      if PickedBefore(ids, c0, ids[i], m) {
        var j :| 0 <= j < m && ids[Slot(|ids|, c0, j)] == ids[i];
        assert Slot(|ids|, c0, j) == i;
      }
    }
  }

  /** A wrapping counter skips a backend: with three backends and the counter at
      its last value, three attempts go to 0, 0 and 1. */
  lemma WrapSkipsABackend(env: Env, a: string, b: string, c: string, active: Active)
    requires a != b && b != c && a != c
    requires FixedHealth(env, [a, b, c]) && env.maxRetries == 3
    requires Loop(env, Work(RoundRobin(WORD - 1), active, []), 0).result == AllFailed
    ensures !TriesAll([a, b, c], Loop(env, Work(RoundRobin(WORD - 1), active, []), 0))
  {
    assert WORD % 3 == 1;
    RoundRobinTriesAllIff(env, [a, b, c], WORD - 1, active);
  }

  // -------------------------------------------------------- least connections

  /** No other caller's connections come or go during the attempts. */
  ghost predicate OnlyCaller(env: Env) { forall id, k :: env.others(id, k) == env.others(id, 0) }

  /** The counters decide the pick, not the attempt. */
  lemma SamePick(env: Env, ids: seq<string>, a: Active, b: Active, k: nat)
    requires FixedHealth(env, ids) && OnlyCaller(env) && SameCounts(a, b)
    ensures Snapshot(env, a, k) == Snapshot(env, b, 0)
  {}

  /** The first healthy backend with the fewest connections, for this caller. */
  ghost function Favourite(env: Env, ids: seq<string>, active: Active): string
    requires FixedHealth(env, ids)
  {
    ids[LeastOf(Snapshot(env, active, 0), |ids|)]
  }

  lemma LeastConnectionsStep(env: Env, ids: seq<string>, active0: Active, w: Work, k: nat)
    requires FixedHealth(env, ids) && OnlyCaller(env) && w.strategy == LeastConnections && SameCounts(w.active, active0)
    ensures var id := Favourite(env, ids, active0); var p := Attempt(env, w, k);
      && (p.Done? ==> p.final.result != AllFailed)
      && (p.Again? ==> p.work.strategy == LeastConnections && SameCounts(p.work.active, active0)
                       && p.work.ran == if id in w.ran then w.ran else w.ran + [id])
  {
    SamePick(env, ids, w.active, active0, k);
    AttemptRestores(env, w, k);
  }

  /** Least connections does not fail over for the only caller: its own count is
      back where it was before every attempt, so each attempt picks the same
      backend and the request runs on that one only. */
  lemma {:induction false} LeastConnectionsRetriesOne(env: Env, ids: seq<string>, active0: Active, w: Work, k: nat)
    requires FixedHealth(env, ids) && OnlyCaller(env) && k <= Attempts(env)
    requires w.strategy == LeastConnections && SameCounts(w.active, active0)
    requires w.ran == if k == 0 then [] else [Favourite(env, ids, active0)]
    requires Loop(env, w, k).result == AllFailed
    ensures Loop(env, w, k).work.ran == if Attempts(env) == 0 then [] else [Favourite(env, ids, active0)]
    decreases Attempts(env) - k
  {
    if k < Attempts(env) {
      LeastConnectionsStep(env, ids, active0, w, k);
      assert [] + [Favourite(env, ids, active0)] == [Favourite(env, ids, active0)];
      LeastConnectionsRetriesOne(env, ids, active0, Attempt(env, w, k).work, k + 1);
    }
  }

  /** So all-failed comes after trying every healthy backend if and only if there
      is just one and at least one attempt. */
  lemma LeastConnectionsTriesAllIff(env: Env, ids: seq<string>, active: Active)
    requires FixedHealth(env, ids) && NoRepeats(ids) && OnlyCaller(env)
    requires Loop(env, Work(LeastConnections, active, []), 0).result == AllFailed
    ensures TriesAll(ids, Loop(env, Work(LeastConnections, active, []), 0)) <==> Allows(env, 1) && |ids| == 1
  {
    AllowsIff(env, 1);
    LeastConnectionsRetriesOne(env, ids, active, Work(LeastConnections, active, []), 0);
    var m := LeastOf(Snapshot(env, active, 0), |ids|);
    if |ids| > 1 {
      var other := if m == 0 then 1 else 0;
      assert ids[other] != ids[m];
    }
  }
}
