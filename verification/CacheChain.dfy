/** The Cache middleware (middleware/cache.go) over the LRU cache. The input
    hash and the handler are parameters: the hash has 64 characters and no
    collision on the inputs that occur, the handler is determined by tool,
    extra key and input. */
module CacheChain {
  import opened Options
  import opened ByteStrings
  import opened LruSpec
  import opened LruCache
  import opened ToolName

  datatype Reply = Ok(value: Bytes) | Failed(error: string)

  type Handler = (Bytes, Bytes, Bytes) -> Reply
  type Hash = Bytes -> Bytes

  /** hex(sha256(_)), as far as the cache depends on it: `traffic` are the
      inputs that ever occur, and no two of them collide. */
  ghost predicate HexDigest(h: Hash, traffic: set<Bytes>) {
    && (forall x :: |h(x)| == 64)
    && (forall x, y :: x in traffic && y in traffic && h(x) == h(y) ==> x == y)
  }

  /** buildKey: an empty extra component is left out together with its colon. */
  function BuildKey(h: Hash, tool: Bytes, extra: Bytes, input: Bytes): Bytes {
    (if extra == [] then tool else tool + [COLON] + extra) + [COLON] + h(input)
  }

  // ------------------------------------------------------------------- keys

  /** The text before the first colon is determined. */
  lemma ColonSplit(a: Bytes, b: Bytes, y: Bytes)
    requires COLON !in a && COLON !in b && a + [COLON] <= b + [COLON] + y
    ensures a == b
  {
    var s := b + [COLON] + y;
    assert s[..|a| + 1] == a + [COLON];
    assert s[|a|] == (a + [COLON])[|a|] && s[|b|] == COLON;
    assert forall j :: 0 <= j < |a| ==> s[j] == a[j];
    assert forall j :: 0 <= j < |b| ==> s[j] == b[j];
    assert |a| == |b|;
    assert s[..|a|] == a && s[..|b|] == b;
  }

  function Middle(extra: Bytes): Bytes { if extra == [] then [] else extra + [COLON] }

  lemma KeyShape(h: Hash, tool: Bytes, extra: Bytes, input: Bytes)
    ensures BuildKey(h, tool, extra, input) == tool + [COLON] + (Middle(extra) + h(input))
  {}

  /** Cache keys are injective on valid tool names. */
  lemma KeyInjective(h: Hash, traffic: set<Bytes>, t1: Bytes, e1: Bytes, i1: Bytes, t2: Bytes, e2: Bytes, i2: Bytes)
    requires HexDigest(h, traffic) && i1 in traffic && i2 in traffic && ValidName(t1) && ValidName(t2)
    requires BuildKey(h, t1, e1, i1) == BuildKey(h, t2, e2, i2)
    ensures t1 == t2 && e1 == e2 && i1 == i2
  {
    NoColon(t1);
    NoColon(t2);
    KeyShape(h, t1, e1, i1);
    KeyShape(h, t2, e2, i2);
    var r1, r2 := Middle(e1) + h(i1), Middle(e2) + h(i2);
    var key := BuildKey(h, t1, e1, i1);
    assert t1 + [COLON] <= key;
    ColonSplit(t1, t2, r2);
    assert r1 == key[|t1| + 1..] && r2 == key[|t1| + 1..];
    assert h(i1) == r1[|r1| - 64..] && h(i2) == r2[|r2| - 64..];
    assert Middle(e1) == r1[..|r1| - 64] && Middle(e2) == r2[..|r2| - 64];
    if e1 != [] && e2 != [] {
      assert e1 == Middle(e1)[..|Middle(e1)| - 1] && e2 == Middle(e2)[..|Middle(e2)| - 1];
    }
  }

  /** "<tool>:" is a prefix of exactly that tool's keys. */
  lemma PrefixSelectsTool(h: Hash, tool: Bytes, other: Bytes, extra: Bytes, input: Bytes)
    requires ValidName(tool) && ValidName(other)
    ensures tool + [COLON] <= BuildKey(h, other, extra, input) <==> tool == other
  {
    NoColon(tool);
    NoColon(other);
    KeyShape(h, other, extra, input);
    var rest := Middle(extra) + h(input);
    if tool + [COLON] <= other + [COLON] + rest {
      ColonSplit(tool, other, rest);
    }
  }

  // ----------------------------------------------------------- transparency

  ghost predicate Caches(h: Hash, traffic: set<Bytes>, f: Handler, e: Entry, tool: Bytes, extra: Bytes, input: Bytes) {
    ValidName(tool) && input in traffic && e.key == BuildKey(h, tool, extra, input) && f(tool, extra, input) == Ok(e.value)
  }

  /** Every entry is a successful answer of the handler under its own key. */
  ghost predicate Faithful(h: Hash, traffic: set<Bytes>, f: Handler, l: seq<Entry>) {
    forall e :: e in l ==> exists t, x, i :: Caches(h, traffic, f, e, t, x, i)
  }

  /** What is cached under a request's key is what the handler would answer. */
  lemma CachedIsAnswer(h: Hash, traffic: set<Bytes>, f: Handler, l: seq<Entry>, tool: Bytes, extra: Bytes, input: Bytes)
    requires HexDigest(h, traffic) && input in traffic && ValidName(tool) && Faithful(h, traffic, f, l)
    ensures var e := Find(l, BuildKey(h, tool, extra, input));
      e.Some? ==> f(tool, extra, input) == Ok(e.value.value)
  {
    var key := BuildKey(h, tool, extra, input);
    FindSpec(l, key);
    if Find(l, key).Some? {
      var t, x, i :| Caches(h, traffic, f, Find(l, key).value, t, x, i);
      KeyInjective(h, traffic, t, x, i, tool, extra, input);
    }
  }

  lemma StepFaithful(h: Hash, traffic: set<Bytes>, f: Handler, cap: nat, l: seq<Entry>, op: Op)
    requires Faithful(h, traffic, f, l)
    requires op.Set? ==> exists t, x, i :: Caches(h, traffic, f, NewEntry(op), t, x, i)
    ensures Faithful(h, traffic, f, Step(cap, l, op))
  {
    forall e | e in Step(cap, l, op) ensures exists t, x, i :: Caches(h, traffic, f, e, t, x, i) {
      if op.Delete? {
        DropSpec(l, op.gone);
      } else {
        DropSpec(l, One(op.key));
        FindSpec(l, op.key);
        assert (op.Set? && e == NewEntry(op)) || e in l;
      }
    }
  }

  /** Which tools the middleware caches, and for how long. */
  datatype Config = Config(ttl: int, skip: set<Bytes>, only: set<Bytes>)

  predicate ShouldCache(cfg: Config, tool: Bytes) {
    if cfg.only != {} then tool in cfg.only else tool !in cfg.skip
  }

  /** What one call does to the recency list: nothing for a tool that is not
      cached; otherwise a look, a second one after a miss, and, when that missed
      too and the handler succeeded, its answer stored. */
  ghost function CallEffect(cfg: Config, cap: nat, h: Hash, f: Handler, l: seq<Entry>,
                            tool: Bytes, extra: Bytes, input: Bytes, now1: int, now2: int, now3: int): seq<Entry>
  {
    var key := BuildKey(h, tool, extra, input);
    if !ShouldCache(cfg, tool) then l
    else
      var look1 := Step(cap, l, LruSpec.Get(key, now1));
      if Answer(l, LruSpec.Get(key, now1)).Some? then look1
      else
        var look2 := Step(cap, look1, LruSpec.Get(key, now2));
        if Answer(look1, LruSpec.Get(key, now2)).Some? || f(tool, extra, input).Failed? then look2
        else Step(cap, look2, LruSpec.Set(key, f(tool, extra, input).value, cfg.ttl, now3))
  }

  /** Tools left out by the skip list, or by not being on a non-empty only list,
      never touch the cache. */
  lemma LeftOutToolsBypass(cfg: Config, cap: nat, h: Hash, f: Handler, l: seq<Entry>,
                           tool: Bytes, extra: Bytes, input: Bytes, now1: int, now2: int, now3: int)
    requires if cfg.only == {} then tool in cfg.skip else tool !in cfg.only
    ensures CallEffect(cfg, cap, h, f, l, tool, extra, input, now1, now2, now3) == l
  {}

  /** Any other tool's successful answer is there for the same request after a
      call that missed, until the configured ttl has run out. */
  lemma MissIsCached(cfg: Config, cap: nat, h: Hash, f: Handler, l: seq<Entry>,
                     tool: Bytes, extra: Bytes, input: Bytes, now1: int, now2: int, now3: int, now: int)
    requires if cfg.only == {} then tool !in cfg.skip else tool in cfg.only
    requires f(tool, extra, input).Ok? && Find(l, BuildKey(h, tool, extra, input)).None?
    requires cfg.ttl <= 0 || now <= now3 + cfg.ttl
    ensures var after := CallEffect(cfg, cap, h, f, l, tool, extra, input, now1, now2, now3);
      Answer(after, LruSpec.Get(BuildKey(h, tool, extra, input), now)) == Some(f(tool, extra, input).value)
  {
    var key := BuildKey(h, tool, extra, input);
    var op := LruSpec.Set(key, f(tool, extra, input).value, cfg.ttl, now3);
    var rest := if |l| >= cap && l != [] then l[..|l| - 1] else l;
    FindCons(NewEntry(op), rest, key);
  }

  /** One call through the middleware, clock readings given. It answers exactly
      what the uncached handler answers and keeps the cache faithful. */
  method CachedCall(cfg: Config, cache: Cache, h: Hash, ghost traffic: set<Bytes>, f: Handler,
                    tool: Bytes, extra: Bytes, input: Bytes, now1: int, now2: int, now3: int)
    returns (r: Reply)
    requires HexDigest(h, traffic) && input in traffic && ValidName(tool)
    requires cache.Valid() && Faithful(h, traffic, f, cache.Contents())
    modifies cache`items, cache`order, cache`owned, cache.owned
    ensures r == f(tool, extra, input)
    ensures cache.Valid() && Faithful(h, traffic, f, cache.Contents()) && fresh(cache.owned - old(cache.owned))
    ensures cache.Contents() ==
      CallEffect(cfg, cache.capacity, h, f, old(cache.Contents()), tool, extra, input, now1, now2, now3)
  {
    if !ShouldCache(cfg, tool) {
      return f(tool, extra, input);
    }
    var key := BuildKey(h, tool, extra, input);
    var hit := Lookup(cache, h, traffic, f, tool, extra, input, now1);
    if hit.Some? { return Ok(hit.value); }
    hit := Lookup(cache, h, traffic, f, tool, extra, input, now2);
    if hit.Some? { return Ok(hit.value); }
    r := f(tool, extra, input);
    if r.Failed? { return; }
    ghost var op := LruSpec.Set(key, r.value, cfg.ttl, now3);
    assert Caches(h, traffic, f, NewEntry(op), tool, extra, input);
    StepFaithful(h, traffic, f, cache.capacity, cache.Contents(), op);
    cache.Set(key, r.value, cfg.ttl, now3);
  }

  method Lookup(cache: Cache, h: Hash, ghost traffic: set<Bytes>, ghost f: Handler,
                tool: Bytes, extra: Bytes, input: Bytes, now: int)
    returns (hit: Option<Bytes>)
    requires HexDigest(h, traffic) && input in traffic && ValidName(tool)
    requires cache.Valid() && Faithful(h, traffic, f, cache.Contents())
    modifies cache`items, cache`order
    ensures hit.Some? ==> f(tool, extra, input) == Ok(hit.value)
    ensures cache.Valid() && Faithful(h, traffic, f, cache.Contents())
    ensures var op := LruSpec.Get(BuildKey(h, tool, extra, input), now);
      hit == Answer(old(cache.Contents()), op) && cache.Contents() == Step(cache.capacity, old(cache.Contents()), op)
  {
    var key := BuildKey(h, tool, extra, input);
    CachedIsAnswer(h, traffic, f, cache.Contents(), tool, extra, input);
    StepFaithful(h, traffic, f, cache.capacity, cache.Contents(), LruSpec.Get(key, now));
    hit := cache.Get(key, now);
  }

  /** InvalidateTool removes that tool's entries and no others. */
  method InvalidateTool(cache: Cache, ghost h: Hash, ghost traffic: set<Bytes>, ghost f: Handler, tool: Bytes) returns (n: nat)
    requires ValidName(tool) && cache.Valid() && Faithful(h, traffic, f, cache.Contents())
    modifies cache`items, cache`order
    ensures cache.Valid() && Faithful(h, traffic, f, cache.Contents())
    ensures forall e :: e in cache.Contents() <==>
      e in old(cache.Contents()) && !exists x, i :: Caches(h, traffic, f, e, tool, x, i)
    ensures n == |old(cache.Contents())| - |cache.Contents()|
  {
    ghost var was := cache.Contents();
    ghost var gone := WithPrefix(tool + [COLON]);
    DropSpec(was, gone);
    StepFaithful(h, traffic, f, cache.capacity, was, LruSpec.Delete(gone));
    forall e | e in was ensures Covers(gone, e.key) <==> exists x, i :: Caches(h, traffic, f, e, tool, x, i) {
      var t, x, i :| Caches(h, traffic, f, e, t, x, i);
      PrefixSelectsTool(h, tool, t, x, i);
      forall x', i' | Caches(h, traffic, f, e, tool, x', i') ensures Covers(gone, e.key) {
        PrefixSelectsTool(h, tool, tool, x', i');
      }
    }
    n := cache.DeleteByPrefix(tool + [COLON]);
  }
}
