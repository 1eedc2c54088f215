/** The in-memory LRU cache of middleware/cache.go on values: the recency list,
    front first, and what each operation does to it. Traces of operations give
    the theorems: inclusion between capacities, last value, residency. */
module LruSpec {
  import opened Options
  import opened ByteStrings

  /** expires is the instant after which the entry is stale; None never expires. */
  datatype Entry = Entry(key: Bytes, value: Bytes, expires: Option<int>)

  /** The keys an operation deletes. */
  datatype KeySet = One(key: Bytes) | WithPrefix(prefix: Bytes)

  predicate Covers(ks: KeySet, key: Bytes) {
    match ks case One(k) => key == k case WithPrefix(p) => p <= key
  }

  function Drop(l: seq<Entry>, ks: KeySet): seq<Entry> {
    if l == [] then []
    else if Covers(ks, l[0].key) then Drop(l[1..], ks)
    else [l[0]] + Drop(l[1..], ks)
  }

  function Find(l: seq<Entry>, key: Bytes): Option<Entry> {
    if l == [] then None else if l[0].key == key then Some(l[0]) else Find(l[1..], key)
  }

  predicate Stale(e: Entry, now: int) { e.expires.Some? && now > e.expires.value }

  datatype Op =
    | Get(key: Bytes, now: int)
    | Set(key: Bytes, value: Bytes, ttl: int, now: int)
    | Delete(gone: KeySet)

  function NewEntry(op: Op): Entry
    requires op.Set?
  {
    Entry(op.key, op.value, if op.ttl > 0 then Some(op.now + op.ttl) else None)
  }

  predicate Hit(l: seq<Entry>, key: Bytes, now: int) {
    Find(l, key).Some? && !Stale(Find(l, key).value, now)
  }

  function Step(cap: nat, l: seq<Entry>, op: Op): seq<Entry> {
    match op
    case Get(key, now) =>
      if Find(l, key).None? then l
      else if Stale(Find(l, key).value, now) then Drop(l, One(key))
      else [Find(l, key).value] + Drop(l, One(key))
    case Set(key, _, _, _) =>
      if Find(l, key).Some? then [NewEntry(op)] + Drop(l, One(key))
      else if |l| >= cap && l != [] then [NewEntry(op)] + l[..|l| - 1]
      else [NewEntry(op)] + l
    case Delete(gone) => Drop(l, gone)
  }

  /** What Get answers. */
  function Answer(l: seq<Entry>, op: Op): Option<Bytes> {
    if op.Get? && Hit(l, op.key, op.now) then Some(Find(l, op.key).value.value) else None
  }

  /** The recency list after a trace on a new cache. */
  function After(cap: nat, ops: seq<Op>): seq<Entry> {
    if ops == [] then [] else Step(cap, After(cap, ops[..|ops| - 1]), ops[|ops| - 1])
  }

  // ------------------------------------------------------------ basic facts

  ghost predicate Distinct(l: seq<Entry>) {
    forall i, j :: 0 <= i < j < |l| ==> l[i].key != l[j].key
  }

  lemma {:induction false} FindSpec(l: seq<Entry>, key: Bytes)
    ensures Find(l, key).Some? <==> exists i :: 0 <= i < |l| && l[i].key == key
    ensures Find(l, key).Some? ==> Find(l, key).value in l && Find(l, key).value.key == key
  {
    if l != [] {
      FindSpec(l[1..], key);
      if l[0].key != key {
        assert forall i :: 0 <= i < |l| && l[i].key == key ==> i > 0 && l[1..][i - 1].key == key;
        if Find(l[1..], key).Some? {
          var i :| 0 <= i < |l[1..]| && l[1..][i].key == key;
          assert l[i + 1].key == key;
        }
      }
    }
  }

  /** In a list with distinct keys the entry found is the only one. */
  lemma {:induction false} FindAt(l: seq<Entry>, i: nat)
    requires Distinct(l) && i < |l|
    ensures Find(l, l[i].key) == Some(l[i])
  {
    if i > 0 {
      FindAt(l[1..], i - 1);
    }
  }

  lemma {:induction false} DropSpec(l: seq<Entry>, ks: KeySet)
    ensures |Drop(l, ks)| <= |l|
    ensures forall e :: e in Drop(l, ks) <==> e in l && !Covers(ks, e.key)
    ensures Distinct(l) ==> Distinct(Drop(l, ks))
  {
    if l != [] {
      var rest := Drop(l[1..], ks);
      DropSpec(l[1..], ks);
      assert forall e :: e in l <==> e == l[0] || e in l[1..];
      if Distinct(l) {
        assert forall e :: e in rest ==> e.key != l[0].key;
        forall i, j | 0 <= i < j < |Drop(l, ks)| ensures Drop(l, ks)[i].key != Drop(l, ks)[j].key {
          if !Covers(ks, l[0].key) && i == 0 { assert Drop(l, ks)[j] in rest; }
        }
      }
    }
  }

  lemma {:induction false} DropNothing(l: seq<Entry>, ks: KeySet)
    requires forall e :: e in l ==> !Covers(ks, e.key)
    ensures Drop(l, ks) == l
  {
    if l != [] { DropNothing(l[1..], ks); }
  }

  lemma {:induction false} DropOneSize(l: seq<Entry>, key: Bytes)
    requires Distinct(l)
    ensures |Drop(l, One(key))| == |l| - (if Find(l, key).Some? then 1 else 0)
  {
    if l != [] {
      if l[0].key == key {
        DropNothing(l[1..], One(key));
      } else {
        DropOneSize(l[1..], key);
      }
    }
  }

  ghost predicate Good(cap: nat, l: seq<Entry>) { Distinct(l) && |l| <= cap }

  /** A new first entry for a key that is gone from the rest. */
  lemma FrontDistinct(e: Entry, l: seq<Entry>)
    requires Distinct(l) && Find(l, e.key).None?
    ensures Distinct([e] + l)
  {
    FindSpec(l, e.key);
  }

  lemma MovedDistinct(e: Entry, l: seq<Entry>)
    requires Distinct(l)
    ensures Distinct([e] + Drop(l, One(e.key)))
  {
    DropSpec(l, One(e.key));
    var rest := Drop(l, One(e.key));
    FindSpec(rest, e.key);
    assert forall i :: 0 <= i < |rest| ==> rest[i] in rest;
    FrontDistinct(e, rest);
  }

  lemma SetGood(cap: nat, l: seq<Entry>, op: Op)
    requires 1 <= cap && Good(cap, l) && op.Set?
    ensures Good(cap, Step(cap, l, op))
  {
    DropOneSize(l, op.key);
    if Find(l, op.key).Some? {
      MovedDistinct(NewEntry(op), l);
    } else {
      FrontDistinct(NewEntry(op), l);
      assert l != [] ==> ([NewEntry(op)] + l)[..|l|] == [NewEntry(op)] + l[..|l| - 1];
    }
  }

  lemma StepGood(cap: nat, l: seq<Entry>, op: Op)
    requires 1 <= cap && Good(cap, l)
    ensures Good(cap, Step(cap, l, op))
  {
    match op
    case Delete(gone) => DropSpec(l, gone);
    case Set(_, _, _, _) => SetGood(cap, l, op);
    case Get(key, now) =>
      DropOneSize(l, key);
      DropSpec(l, One(key));
      FindSpec(l, key);
      if Find(l, key).Some? { MovedDistinct(Find(l, key).value, l); }
  }

  /** Capacity and distinct keys hold after every trace. */
  lemma {:induction false} AfterGood(cap: nat, ops: seq<Op>)
    requires 1 <= cap
    ensures Good(cap, After(cap, ops))
  {
    if ops != [] {
      AfterGood(cap, ops[..|ops| - 1]);
      StepGood(cap, After(cap, ops[..|ops| - 1]), ops[|ops| - 1]);
    }
  }

  // -------------------------------------------------------------- inclusion

  /** a is b with some elements left out. */
  ghost predicate Sub(a: seq<Entry>, b: seq<Entry>) {
    a == [] || (b != [] && ((a[0] == b[0] && Sub(a[1..], b[1..])) || Sub(a, b[1..])))
  }

  lemma SubCons(e: Entry, a: seq<Entry>, b: seq<Entry>)
    requires Sub(a, b)
    ensures Sub([e] + a, [e] + b)
  {
    assert ([e] + a)[1..] == a && ([e] + b)[1..] == b;
  }

  lemma SubSkip(e: Entry, a: seq<Entry>, b: seq<Entry>)
    requires Sub(a, b)
    ensures Sub(a, [e] + b)
  {
    assert ([e] + b)[1..] == b;
  }

  lemma {:induction false} SubMember(a: seq<Entry>, b: seq<Entry>)
    requires Sub(a, b)
    ensures |a| <= |b| && forall e :: e in a ==> e in b
    decreases |b|
  {
    if a != [] {
      if a[0] == b[0] && Sub(a[1..], b[1..]) {
        SubMember(a[1..], b[1..]);
        assert forall e :: e in a ==> e == a[0] || e in a[1..];
      } else {
        SubMember(a, b[1..]);
      }
    }
  }

  lemma {:induction false} SubDrop(a: seq<Entry>, b: seq<Entry>, ks: KeySet)
    requires Sub(a, b)
    ensures Sub(Drop(a, ks), Drop(b, ks))
    ensures |a| - |Drop(a, ks)| <= |b| - |Drop(b, ks)|
    decreases |b|
  {
    if a == [] {
      DropSpec(b, ks);
    } else if a[0] == b[0] && Sub(a[1..], b[1..]) {
      SubDrop(a[1..], b[1..], ks);
      if !Covers(ks, a[0].key) { SubCons(a[0], Drop(a[1..], ks), Drop(b[1..], ks)); }
    } else {
      SubDrop(a, b[1..], ks);
      if !Covers(ks, b[0].key) { SubSkip(b[0], Drop(a, ks), Drop(b[1..], ks)); }
    }
  }

  lemma {:induction false} SubInit(a: seq<Entry>, b: seq<Entry>)
    requires Sub(a, b) && a != []
    ensures Sub(a[..|a| - 1], b)
    decreases |b|
  {
    if a[0] == b[0] && Sub(a[1..], b[1..]) {
      if |a| > 1 {
        SubInit(a[1..], b[1..]);
        assert a[..|a| - 1][1..] == a[1..][..|a| - 2];
      }
    } else {
      SubInit(a, b[1..]);
    }
  }

  /** Losing the last element on both sides keeps the order. */
  lemma {:induction false} SubInits(a: seq<Entry>, b: seq<Entry>)
    requires Sub(a, b) && a != []
    ensures Sub(a[..|a| - 1], b[..|b| - 1])
    decreases |b|
  {
    if a[0] == b[0] && Sub(a[1..], b[1..]) {
      if |a| > 1 {
        SubMember(a[1..], b[1..]);
        SubInits(a[1..], b[1..]);
        assert a[..|a| - 1][1..] == a[1..][..|a| - 2] && b[..|b| - 1][1..] == b[1..][..|b| - 2];
      }
    } else {
      SubMember(a, b[1..]);
      SubInits(a, b[1..]);
      assert b[..|b| - 1][1..] == b[1..][..|b| - 2];
    }
  }

  /** The relation between a small and a large cache: same order, and the large
      one never has less room left. */
  ghost predicate Included(small: nat, large: nat, s: seq<Entry>, l: seq<Entry>) {
    && Good(small, s) && Good(large, l) && Sub(s, l)
    && large - |l| >= small - |s|
  }

  lemma SubFind(s: seq<Entry>, l: seq<Entry>, key: Bytes)
    requires Sub(s, l) && Distinct(l) && Find(s, key).Some?
    ensures Find(l, key) == Find(s, key)
  {
    FindSpec(s, key);
    SubMember(s, l);
    var i :| 0 <= i < |l| && l[i] == Find(s, key).value;
    FindAt(l, i);
  }

  lemma IncludedGet(small: nat, large: nat, s: seq<Entry>, l: seq<Entry>, key: Bytes, now: int)
    requires Included(small, large, s, l)
    ensures Sub(Step(small, s, Get(key, now)), Step(large, l, Get(key, now)))
    ensures large - |Step(large, l, Get(key, now))| >= small - |Step(small, s, Get(key, now))|
  {
    SubDrop(s, l, One(key));
    DropOneSize(s, key);
    DropOneSize(l, key);
    if Find(s, key).Some? {
      SubFind(s, l, key);
      SubCons(Find(s, key).value, Drop(s, One(key)), Drop(l, One(key)));
    } else if Find(l, key).Some? {
      AbsentDrop(s, key);
      SubSkip(Find(l, key).value, s, Drop(l, One(key)));
    }
  }

  lemma AbsentDrop(l: seq<Entry>, key: Bytes)
    requires Find(l, key).None?
    ensures Drop(l, One(key)) == l
  {
    FindSpec(l, key);
    DropNothing(l, One(key));
  }

  lemma IncludedSet(small: nat, large: nat, s: seq<Entry>, l: seq<Entry>, op: Op)
    requires 1 <= small <= large && Included(small, large, s, l) && op.Set?
    ensures Sub(Step(small, s, op), Step(large, l, op))
    ensures large - |Step(large, l, op)| >= small - |Step(small, s, op)|
  {
    var e := NewEntry(op);
    SubDrop(s, l, One(op.key));
    DropOneSize(s, op.key);
    DropOneSize(l, op.key);
    if Find(s, op.key).Some? {
      SubFind(s, l, op.key);
      SubCons(e, Drop(s, One(op.key)), Drop(l, One(op.key)));
    } else {
      AbsentDrop(s, op.key);
      var s' := if |s| >= small && s != [] then s[..|s| - 1] else s;
      var l' := if Find(l, op.key).Some? then Drop(l, One(op.key))
                else if |l| >= large && l != [] then l[..|l| - 1] else l;
      assert Sub(s', l') by {
        if Find(l, op.key).Some? || |l| < large {
          if s' != s { SubInit(s, l'); }
        } else {
          SubInits(s, l);
        }
      }
      SubCons(e, s', l');
    }
  }

  lemma StepIncluded(small: nat, large: nat, s: seq<Entry>, l: seq<Entry>, op: Op)
    requires 1 <= small <= large && Included(small, large, s, l)
    ensures Included(small, large, Step(small, s, op), Step(large, l, op))
  {
    StepGood(small, s, op);
    StepGood(large, l, op);
    match op
    case Get(key, now) => IncludedGet(small, large, s, l, key, now);
    case Set(_, _, _, _) => IncludedSet(small, large, s, l, op);
    case Delete(gone) => SubDrop(s, l, gone);
  }

  /** LRU inclusion: after any trace the smaller cache's recency list is a
      subsequence of the larger one's. */
  lemma {:induction false} Inclusion(small: nat, large: nat, ops: seq<Op>)
    requires 1 <= small <= large
    ensures Included(small, large, After(small, ops), After(large, ops))
  {
    if ops != [] {
      var prev := ops[..|ops| - 1];
      Inclusion(small, large, prev);
      StepIncluded(small, large, After(small, prev), After(large, prev), ops[|ops| - 1]);
    }
  }

  /** Every hit in the smaller cache is a hit with the same value in the larger. */
  lemma InclusionHits(small: nat, large: nat, ops: seq<Op>, op: Op)
    requires 1 <= small <= large
    ensures Answer(After(small, ops), op).Some? ==> Answer(After(large, ops), op) == Answer(After(small, ops), op)
  {
    Inclusion(small, large, ops);
    if op.Get? && Find(After(small, ops), op.key).Some? {
      SubFind(After(small, ops), After(large, ops), op.key);
    }
  }

  // -------------------------------------------- last value and residency

  /** The reference meaning of a key: the last entry set for it, unless it was
      deleted since or read after it had expired. No capacity is involved. */
  function Latest(ops: seq<Op>, key: Bytes): Option<Entry> {
    if ops == [] then None
    else LatestStep(Latest(ops[..|ops| - 1], key), ops[|ops| - 1], key)
  }

  function LatestStep(prev: Option<Entry>, op: Op, key: Bytes): Option<Entry> {
    if op.Delete? then (if Covers(op.gone, key) then None else prev)
    else if op.key != key then prev
    else if op.Set? then Some(NewEntry(op))
    else if prev.Some? && Stale(prev.value, op.now) then None else prev
  }

  /** Other keys set or hit since the key itself was last set or hit. */
  function Newer(cap: nat, ops: seq<Op>, key: Bytes): set<Bytes> {
    if ops == [] then {} else
    var init, op := ops[..|ops| - 1], ops[|ops| - 1];
    var prev := Newer(cap, init, key);
    if op.Set? || (op.Get? && Hit(After(cap, init), op.key, op.now))
    then (if op.key == key then {} else prev + {op.key}) else prev
  }

  /** Position of the key, and that everything in front of it is newer. */
  ghost predicate BehindOnly(l: seq<Entry>, key: Bytes, newer: set<Bytes>) {
    && key !in newer
    && exists i :: 0 <= i < |l| && l[i].key == key && forall j :: 0 <= j < i ==> l[j].key in newer
  }

  lemma {:induction false} DropFind(l: seq<Entry>, ks: KeySet, key: Bytes)
    ensures Find(Drop(l, ks), key) == if Covers(ks, key) then None else Find(l, key)
  {
    if l != [] {
      DropFind(l[1..], ks, key);
      if !Covers(ks, l[0].key) { assert ([l[0]] + Drop(l[1..], ks))[1..] == Drop(l[1..], ks); }
    }
  }

  lemma FindCons(e: Entry, l: seq<Entry>, key: Bytes)
    ensures Find([e] + l, key) == if e.key == key then Some(e) else Find(l, key)
  {
    assert ([e] + l)[1..] == l;
  }

  lemma {:induction false} FindInit(l: seq<Entry>, key: Bytes)
    requires l != [] && Distinct(l)
    ensures Find(l[..|l| - 1], key) == if l[|l| - 1].key == key then None else Find(l, key)
  {
    if |l| > 1 {
      assert l[..|l| - 1][1..] == l[1..][..|l| - 2];
      FindInit(l[1..], key);
    }
  }

  /** This Set evicts the key. */
  predicate Evicts(cap: nat, l: seq<Entry>, op: Op, key: Bytes) {
    op.Set? && op.key != key && Find(l, op.key).None? && |l| >= cap && l != [] && l[|l| - 1].key == key
  }

  /** What a step does to one key: eviction apart, just what the reference says. */
  lemma StepFind(cap: nat, l: seq<Entry>, op: Op, key: Bytes)
    requires 1 <= cap && Good(cap, l)
    ensures Find(Step(cap, l, op), key) ==
      if Evicts(cap, l, op, key) then None else LatestStep(Find(l, key), op, key)
  {
    if op.Delete? {
      DropFind(l, op.gone, key);
    } else {
      var k := op.key;
      DropFind(l, One(k), key);
      FindSpec(l, k);
      if op.Get? {
        if Find(l, k).Some? { FindCons(Find(l, k).value, Drop(l, One(k)), key); }
      } else {
        FindCons(NewEntry(op), Drop(l, One(k)), key);
        FindCons(NewEntry(op), l, key);
        if l != [] {
          FindInit(l, key);
          FindCons(NewEntry(op), l[..|l| - 1], key);
        }
      }
    }
  }

  /** What the cache holds for a key is always the latest entry set for it. */
  lemma {:induction false} HoldsLatest(cap: nat, ops: seq<Op>, key: Bytes)
    requires 1 <= cap
    ensures Find(After(cap, ops), key).Some? ==> Find(After(cap, ops), key) == Latest(ops, key)
  {
    if ops != [] {
      var prev := ops[..|ops| - 1];
      HoldsLatest(cap, prev, key);
      AfterGood(cap, prev);
      StepFind(cap, After(cap, prev), ops[|ops| - 1], key);
    }
  }

  /** A hit returns the last value set that is neither deleted nor expired. */
  lemma HitReturnsLatest(cap: nat, ops: seq<Op>, key: Bytes, now: int)
    requires 1 <= cap && Answer(After(cap, ops), Get(key, now)).Some?
    ensures Latest(ops, key).Some? && !Stale(Latest(ops, key).value, now)
    ensures Answer(After(cap, ops), Get(key, now)) == Some(Latest(ops, key).value.value)
  {
    HoldsLatest(cap, ops, key);
  }

  lemma {:induction false} DropBehind(l: seq<Entry>, ks: KeySet, key: Bytes, newer: set<Bytes>)
    requires BehindOnly(l, key, newer) && !Covers(ks, key)
    ensures BehindOnly(Drop(l, ks), key, newer)
  {
    var i :| 0 <= i < |l| && l[i].key == key && forall j :: 0 <= j < i ==> l[j].key in newer;
    var d := Drop(l[1..], ks);
    if i == 0 {
      assert Drop(l, ks)[0].key == key;
    } else {
      assert l[1..][i - 1].key == key && forall j :: 0 <= j < i - 1 ==> l[1..][j].key in newer by {
        forall j | 0 <= j < i - 1 ensures l[1..][j].key in newer { assert l[1..][j] == l[j + 1]; }
      }
      DropBehind(l[1..], ks, key, newer);
      if !Covers(ks, l[0].key) { ConsBehind(l[0], d, key, newer); }
    }
  }

  lemma ConsBehind(e: Entry, l: seq<Entry>, key: Bytes, newer: set<Bytes>)
    requires BehindOnly(l, key, newer) && e.key in newer
    ensures BehindOnly([e] + l, key, newer)
  {
    var i :| 0 <= i < |l| && l[i].key == key && forall j :: 0 <= j < i ==> l[j].key in newer;
    assert ([e] + l)[i + 1].key == key;
  }

  lemma Widen(l: seq<Entry>, key: Bytes, newer: set<Bytes>, k: Bytes)
    requires BehindOnly(l, key, newer) && k != key
    ensures BehindOnly(l, key, newer + {k})
  {
    var i :| 0 <= i < |l| && l[i].key == key && forall j :: 0 <= j < i ==> l[j].key in newer;
    assert forall j :: 0 <= j < i ==> l[j].key in newer + {k};
  }

  lemma {:induction false} DistinctKeysCount(l: seq<Entry>, n: nat, s: set<Bytes>)
    requires Distinct(l) && n <= |l| && forall j :: 0 <= j < n ==> l[j].key in s
    ensures |s| >= n
  {
    if n > 0 {
      DistinctKeysCount(l, n - 1, s - {l[n - 1].key});
    }
  }

  /** The key is still there behind newer keys only, or it lost its place to a
      full load of newer keys. */
  ghost predicate Resident(cap: nat, ops: seq<Op>, key: Bytes) {
    Latest(ops, key).Some? ==>
      var newer := Newer(cap, ops, key);
      if Find(After(cap, ops), key).Some? then BehindOnly(After(cap, ops), key, newer)
      else |newer| >= cap
  }

  /** A list that stays, moves some other key to the front, or loses its last. */
  lemma OtherToFront(l: seq<Entry>, e: Entry, key: Bytes, newer: set<Bytes>)
    requires BehindOnly(l, key, newer) && e.key != key
    ensures BehindOnly([e] + Drop(l, One(e.key)), key, newer + {e.key})
  {
    Widen(l, key, newer, e.key);
    DropBehind(l, One(e.key), key, newer + {e.key});
    ConsBehind(e, Drop(l, One(e.key)), key, newer + {e.key});
  }

  /** A new key on a full list: the last entry goes. If that is our key, the
      keys in front of it and the new one make up a full load. */
  lemma SetOtherFull(cap: nat, l: seq<Entry>, e: Entry, key: Bytes, newer: set<Bytes>)
    requires 1 <= cap == |l| && Distinct(l) && Find(l, e.key).None? && BehindOnly(l, key, newer)
    ensures if l[|l| - 1].key == key then |newer + {e.key}| >= cap
            else BehindOnly([e] + l[..|l| - 1], key, newer + {e.key})
  {
    var i :| 0 <= i < |l| && l[i].key == key && forall j :: 0 <= j < i ==> l[j].key in newer;
    var more := newer + {e.key};
    FindSpec(l, e.key);
    if i < |l| - 1 {
      var init := l[..|l| - 1];
      assert init[i].key == key && forall j :: 0 <= j < i ==> init[j].key in more;
      ConsBehind(e, init, key, more);
    } else {
      DistinctKeysCount(l, i, newer - {e.key});
      assert more == (newer - {e.key}) + {e.key};
    }
  }

  lemma SetOther(cap: nat, l: seq<Entry>, op: Op, key: Bytes, newer: set<Bytes>)
    requires 1 <= cap && Good(cap, l) && op.Set? && op.key != key && BehindOnly(l, key, newer)
    ensures if Evicts(cap, l, op, key) then |newer + {op.key}| >= cap
            else BehindOnly(Step(cap, l, op), key, newer + {op.key})
  {
    var e := NewEntry(op);
    if Find(l, op.key).Some? {
      OtherToFront(l, e, key, newer);
    } else if |l| >= cap {
      SetOtherFull(cap, l, e, key, newer);
    } else {
      Widen(l, key, newer, op.key);
      ConsBehind(e, l, key, newer + {op.key});
    }
  }

  lemma GetOther(cap: nat, l: seq<Entry>, k: Bytes, now: int, key: Bytes, newer: set<Bytes>)
    requires 1 <= cap && Good(cap, l) && k != key && BehindOnly(l, key, newer)
    ensures BehindOnly(Step(cap, l, Get(k, now)), key, if Hit(l, k, now) then newer + {k} else newer)
  {
    FindSpec(l, k);
    if Hit(l, k, now) {
      OtherToFront(l, Find(l, k).value, key, newer);
    } else if Find(l, k).Some? {
      DropBehind(l, One(k), key, newer);
    }
  }

  lemma AtFront(e: Entry, l: seq<Entry>)
    ensures BehindOnly([e] + l, e.key, {})
  {
    assert ([e] + l)[0].key == e.key;
  }

  lemma {:induction false} AlwaysResident(cap: nat, ops: seq<Op>, key: Bytes)
    requires 1 <= cap
    ensures Resident(cap, ops, key)
  {
    if ops != [] {
      var prev, op := ops[..|ops| - 1], ops[|ops| - 1];
      var l, newer := After(cap, prev), Newer(cap, prev, key);
      AlwaysResident(cap, prev, key);
      AfterGood(cap, prev);
      StepFind(cap, l, op, key);
      HoldsLatest(cap, prev, key);
      match op
      case Delete(gone) =>
        if Find(l, key).Some? && !Covers(gone, key) { DropBehind(l, gone, key, newer); }
      case Set(k, _, _, _) =>
        if k == key {
          SetFront(cap, l, op);
        } else if Find(l, key).Some? {
          SetOther(cap, l, op, key, newer);
        } else {
          GrowSet(newer, k);
        }
      case Get(k, now) =>
        if k == key {
          FindSpec(l, key);
          if Hit(l, key, now) { AtFront(Find(l, key).value, Drop(l, One(key))); }
        } else if Find(l, key).Some? {
          GetOther(cap, l, k, now, key, newer);
        } else {
          GrowSet(newer, k);
        }
    }
  }

  lemma GrowSet(s: set<Bytes>, k: Bytes)
    ensures |s + {k}| >= |s|
  {
    if k in s { assert s + {k} == s; }
  }

  lemma SetFront(cap: nat, l: seq<Entry>, op: Op)
    requires op.Set?
    ensures BehindOnly(Step(cap, l, op), op.key, {})
  {
    assert Step(cap, l, op)[0].key == op.key;
  }

  /** A key that was not deleted and did not expire stays present until at
      least `cap` distinct other keys have been set or hit after it. */
  lemma StaysUntilCrowdedOut(cap: nat, ops: seq<Op>, key: Bytes)
    requires 1 <= cap && Latest(ops, key).Some? && |Newer(cap, ops, key)| < cap
    ensures Find(After(cap, ops), key) == Latest(ops, key)
  {
    AlwaysResident(cap, ops, key);
    HoldsLatest(cap, ops, key);
  }

  // ------------------------------------------------------ expiry by the clock
  // Statements with the fields of the operations only.

  /** Operation i is the last Set of the key. */
  ghost predicate LastSet(ops: seq<Op>, key: Bytes, i: nat) {
    && i < |ops| && ops[i].Set? && ops[i].key == key
    && forall j :: i < j < |ops| ==> !(ops[j].Set? && ops[j].key == key)
  }

  /** An operation that deletes the key, by name or by prefix. */
  ghost predicate Removes(op: Op, key: Bytes) {
    op.Delete? && (op.gone == One(key) || (op.gone.WithPrefix? && op.gone.prefix <= key))
  }

  /** Other keys set or asked for after operation i. */
  ghost function OthersSince(ops: seq<Op>, key: Bytes, i: nat): set<Bytes> {
    set j | i < j < |ops| && !ops[j].Delete? && ops[j].key != key :: ops[j].key
  }

  /** The life of an entry set at this operation: what a Set without a positive
      ttl stores is always alive. */
  ghost predicate AliveAt(op: Op, now: int)
    requires op.Set?
  {
    op.ttl <= 0 || now <= op.now + op.ttl
  }

  /** Nothing ended the entry since: no deletion, no look at it after its time. */
  ghost predicate Undisturbed(ops: seq<Op>, key: Bytes, i: nat)
    requires i < |ops| && ops[i].Set?
  {
    forall j :: i < j < |ops| ==>
      !Removes(ops[j], key) && (ops[j].Get? && ops[j].key == key ==> AliveAt(ops[i], ops[j].now))
  }

  lemma {:induction false} LatestWithoutSet(ops: seq<Op>, key: Bytes)
    requires forall j :: 0 <= j < |ops| ==> !(ops[j].Set? && ops[j].key == key)
    ensures Latest(ops, key) == None
  {
    if ops != [] { LatestWithoutSet(ops[..|ops| - 1], key); }
  }

  lemma StaleIffDead(op: Op, now: int)
    requires op.Set?
    ensures Stale(NewEntry(op), now) <==> !AliveAt(op, now)
  {}

  lemma LatestStepSince(ops: seq<Op>, key: Bytes, i: nat)
    requires LastSet(ops, key, i) && i < |ops| - 1
    requires Latest(ops[..|ops| - 1], key) == None || Latest(ops[..|ops| - 1], key) == Some(NewEntry(ops[i]))
    ensures Latest(ops, key) == None || Latest(ops, key) == Some(NewEntry(ops[i]))
    ensures Latest(ops[..|ops| - 1], key).Some? && Undisturbed(ops, key, i) ==> Latest(ops, key).Some?
    ensures Removes(ops[|ops| - 1], key) ==> Latest(ops, key) == None
  {
    StaleIffDead(ops[i], if ops[|ops| - 1].Get? then ops[|ops| - 1].now else 0);
  }

  /** The reference holds the last Set's entry, or nothing; surely the entry
      while nothing ended it. */
  lemma {:induction false} LatestIsLastSet(ops: seq<Op>, key: Bytes, i: nat)
    requires LastSet(ops, key, i)
    ensures Latest(ops, key) == None || Latest(ops, key) == Some(NewEntry(ops[i]))
    ensures Undisturbed(ops, key, i) ==> Latest(ops, key).Some?
  {
    var n := |ops| - 1;
    if i < n {
      var past := ops[..n];
      assert LastSet(past, key, i) && past[i] == ops[i];
      assert Undisturbed(ops, key, i) ==> Undisturbed(past, key, i);
      LatestIsLastSet(past, key, i);
      LatestStepSince(ops, key, i);
    }
  }

  lemma {:induction false} LatestRemoved(ops: seq<Op>, key: Bytes, i: nat, j: nat)
    requires LastSet(ops, key, i) && i < j < |ops| && Removes(ops[j], key)
    ensures Latest(ops, key) == None
    decreases |ops|
  {
    var n := |ops| - 1;
    var past := ops[..n];
    assert LastSet(past, key, i) && past[i] == ops[i];
    LatestIsLastSet(past, key, i);
    LatestStepSince(ops, key, i);
    if j < n { LatestRemoved(past, key, i, j); }
  }

  /** A key that was never set is a miss. */
  lemma NeverSetMisses(cap: nat, ops: seq<Op>, key: Bytes, now: int)
    requires 1 <= cap && forall j :: 0 <= j < |ops| ==> !(ops[j].Set? && ops[j].key == key)
    ensures Answer(After(cap, ops), Get(key, now)) == None
  {
    HoldsLatest(cap, ops, key);
    LatestWithoutSet(ops, key);
  }

  /** So is one whose last Set had a positive ttl that has run out. */
  lemma ExpiredMisses(cap: nat, ops: seq<Op>, key: Bytes, i: nat, now: int)
    requires 1 <= cap && LastSet(ops, key, i) && ops[i].ttl > 0 && now > ops[i].now + ops[i].ttl
    ensures Answer(After(cap, ops), Get(key, now)) == None
  {
    HoldsLatest(cap, ops, key);
    LatestIsLastSet(ops, key, i);
    StaleIffDead(ops[i], now);
  }

  /** And one that was deleted after its last Set, by name or by prefix. */
  lemma DeletedMisses(cap: nat, ops: seq<Op>, key: Bytes, i: nat, j: nat, now: int)
    requires 1 <= cap && LastSet(ops, key, i) && i < j < |ops| && Removes(ops[j], key)
    ensures Answer(After(cap, ops), Get(key, now)) == None
  {
    HoldsLatest(cap, ops, key);
    LatestRemoved(ops, key, i, j);
  }

  lemma {:induction false} NewerAreOthers(cap: nat, ops: seq<Op>, key: Bytes, i: nat)
    requires i < |ops| && ops[i].Set? && ops[i].key == key
    ensures Newer(cap, ops, key) <= OthersSince(ops, key, i)
    decreases |ops|
  {
    var n := |ops| - 1;
    if i < n {
      var past := ops[..n];
      NewerAreOthers(cap, past, key, i);
      forall k | k in OthersSince(past, key, i) ensures k in OthersSince(ops, key, i) {
        var j :| i < j < n && !past[j].Delete? && past[j].key != key && past[j].key == k;
        assert ops[j].key == k;
      }
      if !ops[n].Delete? && ops[n].key != key { assert ops[n].key in OthersSince(ops, key, i); }
    }
  }

  /** A Get answers the value of the key's last Set when that Set is alive at the
      time, nothing ended it since and fewer than cap other keys were used since. */
  lemma GetAnswersLastSet(cap: nat, ops: seq<Op>, key: Bytes, i: nat, now: int)
    requires 1 <= cap && LastSet(ops, key, i) && AliveAt(ops[i], now) && Undisturbed(ops, key, i)
    requires |OthersSince(ops, key, i)| < cap
    ensures Answer(After(cap, ops), Get(key, now)) == Some(ops[i].value)
  {
    LatestIsLastSet(ops, key, i);
    NewerAreOthers(cap, ops, key, i);
    SubsetCount(Newer(cap, ops, key), OthersSince(ops, key, i));
    StaysUntilCrowdedOut(cap, ops, key);
    StaleIffDead(ops[i], now);
  }

  lemma {:induction false} SubsetCount(a: set<Bytes>, b: set<Bytes>)
    requires a <= b
    ensures |a| <= |b|
    decreases a
  {
    if a != {} {
      var x :| x in a;
      SubsetCount(a - {x}, b - {x});
    }
  }
}
