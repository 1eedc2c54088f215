/** lruCache of middleware/cache.go: a map from keys to list elements and the
    recency list, updated in place. Every method refines one step of `LruSpec`.
    The linked list of the Go standard library is a sequence of element
    references; the clock reading is a parameter. */
module LruCache {
  import opened Options
  import opened ByteStrings
  import opened LruSpec

  /** A list element: its key is fixed, value and expiry change on update. */
  class Element {
    const key: Bytes
    var value: Bytes
    var expires: Option<int>

    constructor (key: Bytes, value: Bytes, expires: Option<int>)
      ensures this.key == key && this.value == value && this.expires == expires
    {
      this.key, this.value, this.expires := key, value, expires;
    }

    ghost function View(): Entry
      reads this
    {
      Entry(key, value, expires)
    }
  }

  ghost function ViewOf(es: seq<Element>): (r: seq<Entry>)
    reads es
    ensures |r| == |es| && forall i :: 0 <= i < |es| ==> r[i] == es[i].View()
  {
    seq(|es|, i requires 0 <= i < |es| reads es => es[i].View())
  }

  /** list.Remove: the list without one element. */
  function Unlink(es: seq<Element>, el: Element): seq<Element> {
    if es == [] then []
    else if es[0] == el then Unlink(es[1..], el)
    else [es[0]] + Unlink(es[1..], el)
  }

  ghost predicate DistinctKeys(es: seq<Element>) {
    forall i, j :: 0 <= i < j < |es| ==> es[i].key != es[j].key
  }

  lemma {:induction false} UnlinkMembers(es: seq<Element>, el: Element)
    ensures forall j :: 0 <= j < |Unlink(es, el)| ==> Unlink(es, el)[j] in es && Unlink(es, el)[j] != el
    ensures forall i :: 0 <= i < |es| && es[i] != el ==> es[i] in Unlink(es, el)
  {
    if es != [] {
      UnlinkMembers(es[1..], el);
      forall i | 0 <= i < |es| && es[i] != el ensures es[i] in Unlink(es, el) {
        if i > 0 { assert es[i] == es[1..][i - 1]; }
      }
    }
  }

  lemma ConsDistinct(el: Element, es: seq<Element>)
    requires DistinctKeys(es) && forall j :: 0 <= j < |es| ==> es[j].key != el.key
    ensures DistinctKeys([el] + es)
  {}

  lemma {:induction false} UnlinkDistinct(es: seq<Element>, el: Element)
    requires DistinctKeys(es)
    ensures DistinctKeys(Unlink(es, el))
  {
    if es != [] {
      UnlinkDistinct(es[1..], el);
      UnlinkMembers(es[1..], el);
      var rest := Unlink(es[1..], el);
      forall j | 0 <= j < |rest| ensures rest[j].key != es[0].key {
        assert rest[j] in es[1..];
      }
      if es[0] != el { ConsDistinct(es[0], rest); }
    }
  }

  /** What unlinking an element of a list with distinct keys leaves. */
  lemma UnlinkFacts(es: seq<Element>, el: Element)
    requires DistinctKeys(es) && el in es
    ensures DistinctKeys(Unlink(es, el)) && |Unlink(es, el)| == |es| - 1
    ensures forall j :: 0 <= j < |Unlink(es, el)| ==> Unlink(es, el)[j] in es && Unlink(es, el)[j].key != el.key
    ensures forall i :: 0 <= i < |es| && es[i] != el ==> es[i] in Unlink(es, el)
    ensures ViewOf(Unlink(es, el)) == Drop(ViewOf(es), One(el.key))
  {
    UnlinkMembers(es, el);
    UnlinkDistinct(es, el);
    UnlinkView(es, el);
    var i :| 0 <= i < |es| && es[i] == el;
    FindAt(ViewOf(es), i);
    DropOneSize(ViewOf(es), el.key);
  }

  lemma {:induction false} UnlinkView(es: seq<Element>, el: Element)
    requires forall x :: x in es && x.key == el.key ==> x == el
    ensures ViewOf(Unlink(es, el)) == Drop(ViewOf(es), One(el.key))
  {
    if es != [] {
      assert es[0] in es && es == [es[0]] + es[1..];
      UnlinkView(es[1..], el);
      ViewFront(es[0], es[1..]);
      DropFront(es[0].View(), ViewOf(es[1..]), One(el.key));
      ViewFront(es[0], Unlink(es[1..], el));
    }
  }

  lemma DropFront(e: Entry, l: seq<Entry>, ks: KeySet)
    ensures Drop([e] + l, ks) == if Covers(ks, e.key) then Drop(l, ks) else [e] + Drop(l, ks)
  {
    assert ([e] + l)[1..] == l;
  }

  /** Map and list agree one to one. */
  ghost predicate Linked(items: map<Bytes, Element>, order: seq<Element>) {
    && DistinctKeys(order)
    && (forall i :: 0 <= i < |order| ==> order[i].key in items && items[order[i].key] == order[i])
    && (forall k :: k in items ==> items[k].key == k && items[k] in order)
  }

  lemma LinkedUnlink(items: map<Bytes, Element>, order: seq<Element>, el: Element)
    requires Linked(items, order) && el in order
    ensures Linked(items - {el.key}, Unlink(order, el)) && |Unlink(order, el)| == |order| - 1
    ensures forall j :: 0 <= j < |Unlink(order, el)| ==> Unlink(order, el)[j] in order
    ensures ViewOf(Unlink(order, el)) == Drop(ViewOf(order), One(el.key))
  {
    UnlinkFacts(order, el);
    var rest := Unlink(order, el);
    forall k | k in items - {el.key} ensures items[k] in rest {
      var i :| 0 <= i < |order| && order[i] == items[k];
    }
    forall i | 0 <= i < |rest| ensures rest[i].key in items - {el.key} && items[rest[i].key] == rest[i] {
      var j :| 0 <= j < |order| && order[j] == rest[i];
    }
  }

  lemma LinkedPush(items: map<Bytes, Element>, order: seq<Element>, el: Element)
    requires Linked(items, order) && el.key !in items
    ensures Linked(items[el.key := el], [el] + order)
  {
    ConsDistinct(el, order);
    var more := [el] + order;
    forall k | k in items ensures items[k] in more {
      assert items[k] in order;
    }
  }

  /** list.MoveToFront on references and on values. */
  lemma LinkedFront(items: map<Bytes, Element>, order: seq<Element>, el: Element)
    requires Linked(items, order) && el in order
    ensures Linked(items, [el] + Unlink(order, el)) && |Unlink(order, el)| == |order| - 1
    ensures forall j :: 0 <= j < |Unlink(order, el)| ==> Unlink(order, el)[j] in order
    ensures ViewOf([el] + Unlink(order, el)) == [el.View()] + Drop(ViewOf(order), One(el.key))
  {
    var rest := Unlink(order, el);
    UnlinkFacts(order, el);
    ViewFront(el, rest);
    ConsDistinct(el, rest);
    forall k | k in items ensures items[k] in [el] + rest {
      var i :| 0 <= i < |order| && order[i] == items[k];
      assert items[k] != el ==> order[i] in rest;
    }
    forall i | 0 <= i < |rest| ensures rest[i].key in items && items[rest[i].key] == rest[i] {
      var j :| 0 <= j < |order| && order[j] == rest[i];
    }
  }

  lemma ViewFront(el: Element, rest: seq<Element>)
    ensures ViewOf([el] + rest) == [el.View()] + ViewOf(rest)
  {}

  class Cache {
    var capacity: nat
    var items: map<Bytes, Element>
    var order: seq<Element>
    /** The elements this cache may change. */
    ghost var owned: set<Element>

    /** Map and list agree one to one, within capacity. */
    ghost predicate Valid()
      reads this
    {
      && 1 <= capacity && |order| <= capacity && Linked(items, order)
      && forall i :: 0 <= i < |order| ==> order[i] in owned
    }

    /** The recency list as values, most recently used first. */
    ghost function Contents(): seq<Entry>
      reads this, order
    {
      ViewOf(order)
    }

    constructor (capacity: nat)
      requires 1 <= capacity
      ensures Valid() && Contents() == [] && this.capacity == capacity && owned == {}
    {
      this.capacity := capacity;
      items, order, owned := map[], [], {};
    }

    /** Lookup in the map agrees with lookup in the list. */
    lemma FindInMap(key: Bytes)
      requires Valid()
      ensures Distinct(Contents())
      ensures Find(Contents(), key) == if key in items then Some(items[key].View()) else None
    {
      FindSpec(Contents(), key);
      if key in items {
        var i :| 0 <= i < |order| && order[i] == items[key];
        FindAt(Contents(), i);
        assert Contents()[i].key == key;
      }
    }

    /** removeLocked. */
    method RemoveLocked(el: Element)
      requires Valid() && el in order
      modifies this`items, this`order
      ensures Valid() && |order| == |old(order)| - 1
      ensures items == old(items) - {el.key}
      ensures Contents() == Drop(old(Contents()), One(el.key))
    {
      LinkedUnlink(items, order, el);
      items := items - {el.key};
      order := Unlink(order, el);
    }

    /** evictLocked: the back of the list, if any. */
    method EvictLocked()
      requires Valid()
      modifies this`items, this`order
      ensures Valid()
      ensures Contents() == if old(Contents()) == [] then [] else old(Contents())[..|old(Contents())| - 1]
      ensures items.Keys <= old(items.Keys)
      ensures old(order) != [] ==> |order| < |old(order)|
    {
      if order != [] {
        var back := order[|order| - 1];
        DropLast(Contents()) by { FindInMap(back.key); }
        RemoveLocked(back);
      }
    }

    static lemma {:induction false} DropLast(l: seq<Entry>)
      requires l != [] && Distinct(l)
      ensures Drop(l, One(l[|l| - 1].key)) == l[..|l| - 1]
    {
      if |l| > 1 {
        DropLast(l[1..]);
        assert l[..|l| - 1] == [l[0]] + l[1..][..|l| - 2];
      }
    }

    method Get(key: Bytes, now: int) returns (r: Option<Bytes>)
      requires Valid()
      modifies this`items, this`order
      ensures Valid()
      ensures Contents() == Step(capacity, old(Contents()), LruSpec.Get(key, now))
      ensures r == Answer(old(Contents()), LruSpec.Get(key, now))
    {
      FindInMap(key);
      ghost var goal := Step(capacity, Contents(), LruSpec.Get(key, now));
      if key !in items {
        assert goal == Contents();
        return None;
      }
      var el := items[key];
      assert goal == (if Stale(el.View(), now) then [] else [el.View()]) + Drop(Contents(), One(key));
      if el.expires.Some? && now > el.expires.value {
        RemoveLocked(el);
        return None;
      }
      MoveToFront(el);
      return Some(el.value);
    }

    method MoveToFront(el: Element)
      requires Valid() && el in order
      modifies this`order
      ensures Valid()
      ensures Contents() == [el.View()] + Drop(old(Contents()), One(el.key))
    {
      LinkedFront(items, order, el);
      order := [el] + Unlink(order, el);
    }

    method Set(key: Bytes, value: Bytes, ttl: int, now: int)
      requires Valid()
      modifies this`items, this`order, this`owned, owned
      ensures Valid() && fresh(owned - old(owned))
      ensures Contents() == Step(capacity, old(Contents()), LruSpec.Set(key, value, ttl, now))
    {
      var expires := if ttl > 0 then Some(now + ttl) else None;
      ghost var was, e := Contents(), Entry(key, value, expires);
      ghost var goal := Step(capacity, was, LruSpec.Set(key, value, ttl, now));
      FindInMap(key);
      if key in items {
        assert goal == [e] + Drop(was, One(key));
        UpdateInPlace(items[key], value, expires);
      } else {
        assert goal == [e] + if |was| >= capacity then was[..|was| - 1] else was;
        InsertNew(key, value, expires);
      }
    }

    /** The insert branch of Set: evict when full, then push to the front. */
    method InsertNew(key: Bytes, value: Bytes, expires: Option<int>)
      requires Valid() && key !in items
      modifies this`items, this`order, this`owned
      ensures Valid() && fresh(owned - old(owned))
      ensures var was := old(Contents());
        Contents() == [Entry(key, value, expires)] + if |was| >= capacity then was[..|was| - 1] else was
    {
      MakeRoom();
      var el := new Element(key, value, expires);
      owned := owned + {el};
      PushFront(el);
    }

    /** Evicts when the list is at capacity. */
    method MakeRoom()
      requires Valid()
      modifies this`items, this`order
      ensures Valid() && |order| < capacity && items.Keys <= old(items.Keys)
      ensures var was := old(Contents());
        Contents() == if |was| >= capacity then was[..|was| - 1] else was
    {
      if |order| >= capacity {
        EvictLocked();
      }
    }

    /** A new element at the front of the list and in the map. */
    method PushFront(el: Element)
      requires Valid() && el.key !in items && |order| < capacity && el in owned
      modifies this`items, this`order
      ensures Valid() && order == [el] + old(order)
      ensures Contents() == [el.View()] + old(Contents())
    {
      LinkedPush(items, order, el);
      ViewFront(el, order);
      items, order := items[el.key := el], [el] + order;
    }

    /** The update branch of Set: the element's fields change, then it moves to the front. */
    method UpdateInPlace(el: Element, value: Bytes, expires: Option<int>)
      requires Valid() && el in order
      modifies this`order, el
      ensures Valid()
      ensures Contents() == [Entry(el.key, value, expires)] + Drop(old(Contents()), One(el.key))
    {
      ghost var was := Contents();
      el.value := value;
      el.expires := expires;
      SameButOne(was, Contents(), el.key);
      MoveToFront(el);
    }

    /** Changing the dropped entry does not show in what remains. */
    static lemma {:induction false} SameButOne(a: seq<Entry>, b: seq<Entry>, key: Bytes)
      requires |a| == |b|
      requires forall i :: 0 <= i < |a| ==> a[i] == b[i] || (a[i].key == key && b[i].key == key)
      ensures Drop(a, One(key)) == Drop(b, One(key))
    {
      if a != [] { SameButOne(a[1..], b[1..], key); }
    }

    method Delete(key: Bytes)
      requires Valid()
      modifies this`items, this`order
      ensures Valid()
      ensures Contents() == Step(capacity, old(Contents()), LruSpec.Delete(One(key)))
    {
      FindInMap(key);
      if key !in items {
        AbsentDrop(Contents(), key);
        return;
      }
      RemoveLocked(items[key]);
    }

    /** The keys to delete, gathered in the map's arbitrary iteration order. */
    method CollectKeys(prefix: Bytes) returns (toDelete: set<Bytes>)
      ensures forall k :: k in toDelete <==> k in items && prefix <= k
    {
      toDelete := {};
      var keys := items.Keys;
      while keys != {}
        invariant keys <= items.Keys
        invariant forall k :: k in toDelete <==> k in items && k !in keys && prefix <= k
        decreases keys
      {
        var k :| k in keys;
        if prefix <= k { toDelete := toDelete + {k}; }
        keys := keys - {k};
      }
    }

    lemma NoneLeft(prefix: Bytes)
      requires Valid() && forall k :: k in items ==> !(prefix <= k)
      ensures Drop(Contents(), WithPrefix(prefix)) == Contents()
    {
      forall e | e in Contents() ensures !(prefix <= e.key) {
        var i :| 0 <= i < |order| && Contents()[i] == e;
        assert order[i] in order;
      }
      DropNothing(Contents(), WithPrefix(prefix));
    }

    /** Removing one matching key leaves the keys without the prefix as they were. */
    method RemoveMatching(key: Bytes, ghost prefix: Bytes)
      requires Valid() && key in items && prefix <= key
      modifies this`items, this`order
      ensures Valid() && |order| == |old(order)| - 1 && items == old(items) - {key}
      ensures Drop(Contents(), WithPrefix(prefix)) == Drop(old(Contents()), WithPrefix(prefix))
    {
      DropTwice(Contents(), key, prefix);
      RemoveLocked(items[key]);
    }

    method DeleteByPrefix(prefix: Bytes) returns (n: nat)
      requires Valid()
      modifies this`items, this`order
      ensures Valid()
      ensures Contents() == Step(capacity, old(Contents()), LruSpec.Delete(WithPrefix(prefix)))
      ensures n == |old(order)| - |order|
    {
      var toDelete := CollectKeys(prefix);
      n := 0;
      while toDelete != {}
        invariant Valid()
        invariant n == |old(order)| - |order|
        invariant forall k :: k in toDelete <==> k in items && prefix <= k
        invariant Drop(Contents(), WithPrefix(prefix)) == Drop(old(Contents()), WithPrefix(prefix))
        decreases toDelete
      {
        var key :| key in toDelete;
        RemoveMatching(key, prefix);
        n := n + 1;
        toDelete := toDelete - {key};
      }
      NoneLeft(prefix);
    }

    static lemma {:induction false} DropTwice(l: seq<Entry>, key: Bytes, prefix: Bytes)
      requires prefix <= key
      ensures Drop(Drop(l, One(key)), WithPrefix(prefix)) == Drop(l, WithPrefix(prefix))
    {
      if l != [] {
        DropTwice(l[1..], key, prefix);
        if l[0].key != key { assert ([l[0]] + Drop(l[1..], One(key)))[1..] == Drop(l[1..], One(key)); }
      }
    }
  }
}
