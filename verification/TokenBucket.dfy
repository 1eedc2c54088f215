/** The token-bucket limiter of middleware/ratelimit.go over the reals: one
    bucket per key, refilled on every call, clock readings as parameters.

    The trace theory measures time in tokens, rate * seconds: a bucket then
    gains one token per unit of time and all of it is linear. The main theorems
    are stated in seconds again. */
module TokenBucket {

  type Key = string
  datatype Config = Config(rate: real, burst: nat)
  datatype Bucket = Bucket(tokens: real, lastTime: real)

  /** A call on a key; `at` is in token time. */
  datatype Call = Call(key: Key, at: real)

  function Cap(burst: nat, x: real): real { if x > burst as real then burst as real else x }

  /** Tokens a call finds on its key: a new bucket is full. */
  function Level(burst: nat, buckets: map<Key, Bucket>, key: Key, at: real): real {
    if key !in buckets then burst as real
    else Cap(burst, buckets[key].tokens + (at - buckets[key].lastTime))
  }

  /** A call takes a token when there is one. */
  function Taken(level: real): real { if level < 1.0 then level else level - 1.0 }

  function Step(burst: nat, buckets: map<Key, Bucket>, c: Call): map<Key, Bucket> {
    buckets[c.key := Bucket(Taken(Level(burst, buckets, c.key, c.at)), c.at)]
  }

  /** Token time. */
  function Stamp(rate: real, t: real): real { rate * t }

  /** Buckets with their times in tokens. */
  ghost function InTokens(rate: real, buckets: map<Key, Bucket>): map<Key, Bucket> {
    map k | k in buckets :: Scaled(rate, buckets[k])
  }

  ghost function Scaled(rate: real, b: Bucket): Bucket { Bucket(b.tokens, Stamp(rate, b.lastTime)) }

  lemma PutInTokens(rate: real, buckets: map<Key, Bucket>, key: Key, b: Bucket)
    ensures InTokens(rate, buckets[key := b]) == InTokens(rate, buckets)[key := Scaled(rate, b)]
  {
    var after := buckets[key := b];
    forall k | k in after ensures InTokens(rate, after)[k] == InTokens(rate, buckets)[key := Scaled(rate, b)][k] {}
  }

  /** What a call finds in seconds is what it finds in token time. */
  lemma FoundInTokens(cfg: Config, buckets: map<Key, Bucket>, key: Key, now: real)
    ensures Level(cfg.burst, InTokens(cfg.rate, buckets), key, Stamp(cfg.rate, now)) ==
      if key in buckets then Cap(cfg.burst, buckets[key].tokens + (now - buckets[key].lastTime) * cfg.rate)
      else cfg.burst as real
  {
    if key in buckets { SpanSplit(cfg.rate, buckets[key].lastTime, now); }
  }

  lemma StepInTokens(cfg: Config, buckets: map<Key, Bucket>, key: Key, now: real, b: Bucket)
    requires b == Bucket(Taken(Level(cfg.burst, InTokens(cfg.rate, buckets), key, Stamp(cfg.rate, now))), now)
    ensures InTokens(cfg.rate, buckets[key := b]) == Step(cfg.burst, InTokens(cfg.rate, buckets), Call(key, Stamp(cfg.rate, now)))
  {
    PutInTokens(cfg.rate, buckets, key, b);
  }

  lemma NoTimePasses(rate: real, dt: real)
    ensures dt == 0.0 ==> dt * rate == 0.0
  {}

  lemma SpanSplit(rate: real, a: real, b: real)
    ensures (b - a) * rate == Stamp(rate, b) - Stamp(rate, a) && rate * (b - a) == Stamp(rate, b) - Stamp(rate, a)
  {}

  class RateLimiter {
    const cfg: Config
    var buckets: map<Key, Bucket>

    ghost function View(): map<Key, Bucket>
      reads this
    {
      InTokens(cfg.rate, buckets)
    }

    /** A non-positive burst option leaves the default, the rate rounded up. */
    constructor (rate: real, burst: int)
      requires rate > 0.0
      ensures View() == map[] && cfg.rate == rate && cfg.burst >= 1
      ensures burst > 0 ==> cfg.burst == burst
      ensures burst <= 0 ==> cfg.burst as real - 1.0 < rate <= cfg.burst as real
    {
      var ceil := -((-rate).Floor);
      cfg := Config(rate, if burst > 0 then burst else ceil);
      buckets := map[];
    }

    method Allow(key: Key, now: real) returns (ok: bool)
      modifies this
      ensures ok <==> Level(cfg.burst, old(View()), key, Stamp(cfg.rate, now)) >= 1.0
      ensures View() == Step(cfg.burst, old(View()), Call(key, Stamp(cfg.rate, now)))
    {
      var b;
      if key !in buckets {
        b := Bucket(cfg.burst as real, now);
        buckets := buckets[key := b];
      } else {
        b := buckets[key];
      }
      ghost var level := Level(cfg.burst, old(View()), key, Stamp(cfg.rate, now));
      FoundInTokens(cfg, old(buckets), key, now);
      b := Refill(b, now);
      assert b == Bucket(level, now);
      buckets := buckets[key := b];
      ok := b.tokens >= 1.0;
      if ok {
        b := b.(tokens := b.tokens - 1.0);
        buckets := buckets[key := b];
      }
      assert buckets == old(buckets)[key := b];
      StepInTokens(cfg, old(buckets), key, now, b);
    }

    /** Tokens for the elapsed time, at most the burst. */
    method Refill(b0: Bucket, now: real) returns (b: Bucket)
      ensures b == Bucket(Cap(cfg.burst, b0.tokens + (now - b0.lastTime) * cfg.rate), now)
      ensures b0 == Bucket(cfg.burst as real, now) ==> b == b0
    {
      var elapsed := now - b0.lastTime;
      NoTimePasses(cfg.rate, elapsed);
      b := b0.(tokens := b0.tokens + elapsed * cfg.rate);
      if b.tokens > cfg.burst as real {
        b := b.(tokens := cfg.burst as real);
      }
      b := b.(lastTime := now);
    }
  }

  // ------------------------------------------------------------------ traces

  /** Buckets after a sequence of calls on a new limiter. */
  function After(burst: nat, calls: seq<Call>): map<Key, Bucket> {
    if calls == [] then map[] else Step(burst, After(burst, calls[..|calls| - 1]), calls[|calls| - 1])
  }

  /** Tokens a further call would find. */
  function Tokens(burst: nat, calls: seq<Call>, key: Key, at: real): real {
    Level(burst, After(burst, calls), key, at)
  }

  /** Whether call i of a trace was admitted. */
  predicate Admitted(burst: nat, calls: seq<Call>, i: nat)
    requires i < |calls|
  {
    Tokens(burst, calls[..i], calls[i].key, calls[i].at) >= 1.0
  }

  /** 1 for an admitted call on the key, otherwise 0. */
  function Counts(burst: nat, calls: seq<Call>, key: Key, i: nat): nat
    requires i < |calls|
  {
    if calls[i].key == key && Admitted(burst, calls, i) then 1 else 0
  }

  /** Admitted calls on a key among calls[lo..hi]. */
  function Count(burst: nat, calls: seq<Call>, key: Key, lo: nat, hi: nat): nat
    requires lo <= hi <= |calls|
  {
    if lo == hi then 0
    else Count(burst, calls, key, lo, hi - 1) + Counts(burst, calls, key, hi - 1)
  }

  lemma {:induction false} CountPrefix(burst: nat, calls: seq<Call>, n: nat, key: Key, lo: nat, hi: nat)
    requires lo <= hi <= n <= |calls|
    ensures Count(burst, calls[..n], key, lo, hi) == Count(burst, calls, key, lo, hi)
  {
    if lo < hi {
      CountPrefix(burst, calls, n, key, lo, hi - 1);
      assert calls[..n][..hi - 1] == calls[..hi - 1];
    }
  }

  /** What is left at `at` of the allowance that starts with call j: the burst
      and the time since, less the admissions since. */
  function Allowance(burst: nat, calls: seq<Call>, key: Key, j: nat, at: real): real
    requires j < |calls|
  {
    burst as real + (at - calls[j].at) - Count(burst, calls, key, j, |calls|) as real
  }

  lemma LevelAfter(burst: nat, buckets: map<Key, Bucket>, c: Call, key: Key, at: real)
    ensures Level(burst, Step(burst, buckets, c), key, at) ==
      if c.key == key then Cap(burst, Taken(Level(burst, buckets, key, c.at)) + (at - c.at))
      else Level(burst, buckets, key, at)
  {}

  lemma TokensAfter(burst: nat, calls: seq<Call>, key: Key, at: real)
    requires calls != []
    ensures var n := |calls| - 1; var last := calls[n];
      Tokens(burst, calls, key, at) ==
        if last.key == key then Cap(burst, Taken(Tokens(burst, calls[..n], key, last.at)) + (at - last.at))
        else Tokens(burst, calls[..n], key, at)
  {
    LevelAfter(burst, After(burst, calls[..|calls| - 1]), calls[|calls| - 1], key, at);
  }

  /** A last call on the key: the tokens from before it, less what it took. */
  lemma TokensOwn(burst: nat, calls: seq<Call>, key: Key, at: real)
    requires calls != [] && calls[|calls| - 1].key == key
    ensures var n := |calls| - 1;
      Tokens(burst, calls, key, at) ==
        Cap(burst, Tokens(burst, calls[..n], key, calls[n].at) - Counts(burst, calls, key, n) as real + (at - calls[n].at))
  {
    TokensAfter(burst, calls, key, at);
  }

  lemma CountStep(burst: nat, calls: seq<Call>, key: Key, j: nat)
    requires j < |calls|
    ensures var n := |calls| - 1;
      Count(burst, calls, key, j, n + 1) == Count(burst, calls[..n], key, j, n) + Counts(burst, calls, key, n)
  {
    CountPrefix(burst, calls, |calls| - 1, key, j, |calls| - 1);
  }

  /** One more call on the trace changes every older allowance alike. */
  lemma AllowanceStep(burst: nat, calls: seq<Call>, key: Key, j: nat, at: real)
    requires j + 1 < |calls|
    ensures var n := |calls| - 1;
      Allowance(burst, calls, key, j, at)
        == Allowance(burst, calls[..n], key, j, calls[n].at) + (at - calls[n].at) - Counts(burst, calls, key, n) as real
  {
    CountStep(burst, calls, key, j);
  }

  lemma AllowanceOther(burst: nat, calls: seq<Call>, key: Key, j: nat, at: real)
    requires j + 1 < |calls| && calls[|calls| - 1].key != key
    ensures Allowance(burst, calls, key, j, at) == Allowance(burst, calls[..|calls| - 1], key, j, at)
  {
    CountStep(burst, calls, key, j);
  }

  /** The allowance of the last call itself. */
  lemma AllowanceLast(burst: nat, calls: seq<Call>, key: Key, at: real)
    requires calls != []
    ensures var n := |calls| - 1;
      Allowance(burst, calls, key, n, at) == burst as real + (at - calls[n].at) - Counts(burst, calls, key, n) as real
  {
    CountStep(burst, calls, key, |calls| - 1);
  }

  lemma TokensCapped(burst: nat, calls: seq<Call>, key: Key, at: real)
    ensures Tokens(burst, calls, key, at) <= burst as real
  {}

  /** The level never exceeds the burst or any allowance. */
  lemma {:induction false} TokensBelow(burst: nat, calls: seq<Call>, key: Key, j: nat, at: real)
    requires j < |calls| && calls[j].key == key
    ensures Tokens(burst, calls, key, at) <= burst as real
    ensures Tokens(burst, calls, key, at) <= Allowance(burst, calls, key, j, at)
  {
    var n := |calls| - 1;
    TokensCapped(burst, calls, key, at);
    if calls[n].key != key {
      TokensAfter(burst, calls, key, at);
      TokensBelow(burst, calls[..n], key, j, at);
      AllowanceOther(burst, calls, key, j, at);
    } else {
      TokensOwn(burst, calls, key, at);
      if j < n {
        TokensBelow(burst, calls[..n], key, j, calls[n].at);
        AllowanceStep(burst, calls, key, j, at);
      } else {
        TokensCapped(burst, calls[..n], key, calls[n].at);
        AllowanceLast(burst, calls, key, at);
      }
    }
  }

  /** The level is the burst or one of the allowances. */
  ghost predicate Attained(burst: nat, calls: seq<Call>, key: Key, at: real) {
    || Tokens(burst, calls, key, at) == burst as real
    || exists j :: 0 <= j < |calls| && calls[j].key == key
                && Tokens(burst, calls, key, at) == Allowance(burst, calls, key, j, at)
  }

  lemma AttainedOther(burst: nat, calls: seq<Call>, key: Key, at: real)
    requires calls != [] && calls[|calls| - 1].key != key && Attained(burst, calls[..|calls| - 1], key, at)
    ensures Attained(burst, calls, key, at)
  {
    var past := calls[..|calls| - 1];
    TokensAfter(burst, calls, key, at);
    if Tokens(burst, past, key, at) != burst as real {
      var j :| 0 <= j < |past| && past[j].key == key && Tokens(burst, past, key, at) == Allowance(burst, past, key, j, at);
      AllowanceOther(burst, calls, key, j, at);
      assert calls[j].key == key;
    }
  }

  lemma AttainedOwn(burst: nat, calls: seq<Call>, key: Key, at: real)
    requires calls != [] && calls[|calls| - 1].key == key
    requires Attained(burst, calls[..|calls| - 1], key, calls[|calls| - 1].at)
    ensures Attained(burst, calls, key, at)
  {
    var n := |calls| - 1;
    var past, when := calls[..n], calls[n].at;
    TokensOwn(burst, calls, key, at);
    if Tokens(burst, past, key, when) == burst as real {
      AllowanceLast(burst, calls, key, at);
    } else {
      var j :| 0 <= j < |past| && past[j].key == key && Tokens(burst, past, key, when) == Allowance(burst, past, key, j, when);
      AllowanceStep(burst, calls, key, j, at);
      assert calls[j].key == key;
    }
  }

  lemma {:induction false} TokensAttained(burst: nat, calls: seq<Call>, key: Key, at: real)
    ensures Attained(burst, calls, key, at)
  {
    if calls != [] {
      var n := |calls| - 1;
      if calls[n].key != key {
        TokensAttained(burst, calls[..n], key, at);
        AttainedOther(burst, calls, key, at);
      } else {
        TokensAttained(burst, calls[..n], key, calls[n].at);
        AttainedOwn(burst, calls, key, at);
      }
    }
  }

  /** Call i fits the allowance that starts with call j: the admissions from j
      on, plus one, stay within the burst and the time between them. */
  ghost predicate Fits(burst: nat, calls: seq<Call>, j: nat, i: nat)
    requires j <= i < |calls|
  {
    Count(burst, calls, calls[i].key, j, i) as real + 1.0 <= burst as real + (calls[i].at - calls[j].at)
  }

  lemma FitsAllowance(burst: nat, calls: seq<Call>, j: nat, i: nat)
    requires j < i < |calls| && calls[j].key == calls[i].key
    ensures Fits(burst, calls, j, i) <==> Allowance(burst, calls[..i], calls[i].key, j, calls[i].at) >= 1.0
  {
    CountPrefix(burst, calls, i, calls[i].key, j, i);
  }

  lemma AdmittedFits(burst: nat, calls: seq<Call>, j: nat, i: nat)
    requires j <= i < |calls| && calls[j].key == calls[i].key && Admitted(burst, calls, i)
    ensures Fits(burst, calls, j, i)
  {
    if j < i {
      TokensBelow(burst, calls[..i], calls[i].key, j, calls[i].at);
      FitsAllowance(burst, calls, j, i);
    } else {
      TokensCapped(burst, calls[..i], calls[i].key, calls[i].at);
    }
  }

  lemma RejectedMisfits(burst: nat, calls: seq<Call>, i: nat) returns (j: nat)
    requires i < |calls| && !Admitted(burst, calls, i)
    ensures j <= i && calls[j].key == calls[i].key && !Fits(burst, calls, j, i)
  {
    var past, key, at := calls[..i], calls[i].key, calls[i].at;
    TokensAttained(burst, past, key, at);
    if Tokens(burst, past, key, at) == burst as real {
      j := i;
    } else {
      j :| 0 <= j < |past| && past[j].key == key && Tokens(burst, past, key, at) == Allowance(burst, past, key, j, at);
      FitsAllowance(burst, calls, j, i);
    }
  }

  // ----------------------------------------------------------------- windows

  lemma {:induction false} CountFrom(burst: nat, calls: seq<Call>, key: Key, lo: nat, hi: nat)
    requires lo < hi <= |calls|
    ensures Count(burst, calls, key, lo, hi) == Count(burst, calls, key, lo + 1, hi) + Counts(burst, calls, key, lo)
  {
    if lo + 1 < hi {
      CountFrom(burst, calls, key, lo, hi - 1);
    } else {
      assert Count(burst, calls, key, lo, lo + 1) == Count(burst, calls, key, lo, lo) + Counts(burst, calls, key, lo);
    }
  }

  ghost predicate Monotone(calls: seq<Call>) {
    forall i, j :: 0 <= i <= j < |calls| ==> calls[i].at <= calls[j].at
  }

  ghost predicate Bounded(burst: nat, calls: seq<Call>, key: Key, lo: nat, hi: nat)
    requires lo <= hi < |calls|
  {
    Count(burst, calls, key, lo, hi + 1) as real <= burst as real + (calls[hi].at - calls[lo].at)
  }

  lemma {:induction false} StretchBound(burst: nat, calls: seq<Call>, key: Key, lo: nat, hi: nat)
    requires Monotone(calls) && lo <= hi < |calls|
    ensures Bounded(burst, calls, key, lo, hi)
    decreases hi - lo
  {
    if Counts(burst, calls, key, hi) == 1 && calls[lo].key == key {
      AdmittedFits(burst, calls, lo, hi);
    } else if lo == hi {
      assert Count(burst, calls, key, lo, lo) == 0;
    } else if calls[lo].key != key {
      CountFrom(burst, calls, key, lo, hi + 1);
      StretchBound(burst, calls, key, lo + 1, hi);
    } else {
      StretchBound(burst, calls, key, lo, hi - 1);
    }
  }

  // -------------------------------------------------------------- separation

  /** The calls on one key. */
  function Only(calls: seq<Call>, key: Key): seq<Call> {
    if calls == [] then []
    else
      var rest := Only(calls[..|calls| - 1], key);
      if calls[|calls| - 1].key == key then rest + [calls[|calls| - 1]] else rest
  }

  /** Keys never affect each other: the level of a key is that of a limiter
      that saw only its calls. */
  lemma {:induction false} KeysAreIndependent(burst: nat, calls: seq<Call>, key: Key, at: real)
    ensures Tokens(burst, calls, key, at) == Tokens(burst, Only(calls, key), key, at)
  {
    if calls != [] {
      var n := |calls| - 1;
      TokensAfter(burst, calls, key, at);
      if calls[n].key == key {
        var mine := Only(calls, key);
        assert mine[..|mine| - 1] == Only(calls[..n], key);
        TokensAfter(burst, mine, key, at);
        KeysAreIndependent(burst, calls[..n], key, calls[n].at);
      } else {
        KeysAreIndependent(burst, calls[..n], key, at);
      }
    }
  }

  // -------------------------------------------------------------- in seconds

  /** The calls come at these seconds. */
  ghost predicate Timed(cfg: Config, calls: seq<Call>, times: seq<real>) {
    |times| == |calls| && forall i :: 0 <= i < |calls| ==> calls[i].at == Stamp(cfg.rate, times[i])
  }

  lemma Elapsed(cfg: Config, calls: seq<Call>, times: seq<real>, j: nat, i: nat)
    requires Timed(cfg, calls, times) && j < |calls| && i < |calls|
    ensures calls[i].at - calls[j].at == cfg.rate * (times[i] - times[j])
  {
    SpanSplit(cfg.rate, times[j], times[i]);
  }

  ghost predicate FitsInSeconds(cfg: Config, calls: seq<Call>, times: seq<real>, j: nat, i: nat)
    requires Timed(cfg, calls, times) && j <= i < |calls|
  {
    Count(cfg.burst, calls, calls[i].key, j, i) as real + 1.0 <= cfg.burst as real + cfg.rate * (times[i] - times[j])
  }

  /** A call is admitted if and only if, from itself and from every earlier call
      on its key, the admissions plus one stay within burst + rate * elapsed. */
  lemma AdmittedIff(cfg: Config, calls: seq<Call>, times: seq<real>, i: nat)
    requires Timed(cfg, calls, times) && i < |calls|
    ensures Admitted(cfg.burst, calls, i) <==>
      forall j :: 0 <= j <= i && calls[j].key == calls[i].key ==> FitsInSeconds(cfg, calls, times, j, i)
  {
    if Admitted(cfg.burst, calls, i) {
      forall j | 0 <= j <= i && calls[j].key == calls[i].key ensures FitsInSeconds(cfg, calls, times, j, i) {
        AdmittedFits(cfg.burst, calls, j, i);
        Elapsed(cfg, calls, times, j, i);
      }
    } else {
      var j := RejectedMisfits(cfg.burst, calls, i);
      Elapsed(cfg, calls, times, j, i);
      assert !FitsInSeconds(cfg, calls, times, j, i);
    }
  }

  lemma TokenTimeMonotone(cfg: Config, calls: seq<Call>, times: seq<real>)
    requires cfg.rate >= 0.0 && Timed(cfg, calls, times)
    requires forall i, j :: 0 <= i <= j < |times| ==> times[i] <= times[j]
    ensures Monotone(calls)
  {
    forall i, j | 0 <= i <= j < |calls| ensures calls[i].at <= calls[j].at {
      SpanGrows(cfg.rate, times[i], times[j]);
    }
  }

  lemma SpanGrows(rate: real, a: real, b: real)
    requires rate >= 0.0 && a <= b
    ensures Stamp(rate, a) <= Stamp(rate, b)
  {}

  /** With a monotone clock, any stretch of calls from time s to time t admits at
      most burst + rate * (t - s) calls of one key. */
  lemma WindowBound(cfg: Config, calls: seq<Call>, times: seq<real>, key: Key, lo: nat, hi: nat)
    requires cfg.rate >= 0.0 && Timed(cfg, calls, times) && lo <= hi < |calls|
    requires forall i, j :: 0 <= i <= j < |times| ==> times[i] <= times[j]
    ensures Count(cfg.burst, calls, key, lo, hi + 1) as real <= cfg.burst as real + cfg.rate * (times[hi] - times[lo])
  {
    TokenTimeMonotone(cfg, calls, times);
    StretchBound(cfg.burst, calls, key, lo, hi);
    Elapsed(cfg, calls, times, lo, hi);
  }
}
