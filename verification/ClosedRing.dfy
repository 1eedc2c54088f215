/** The bounded set of closed sessions (session_tools.go, removeAll): a ring of
    ids, the empty id marking unused slots. */
module ClosedRing {

  const MAX_CLOSED_SESSIONS: nat := 10_000

  datatype Ring = Ring(slots: seq<string>, next: nat)

  ghost predicate RingOk(r: Ring) {
    && 1 <= |r.slots| && r.next < |r.slots|
    && forall i, j :: 0 <= i < j < |r.slots| && r.slots[i] != "" ==> r.slots[i] != r.slots[j]
  }

  /** The closed ids: the non-empty slots. */
  ghost predicate IsClosed(r: Ring, id: string) { id != "" && id in r.slots }

  function Wrap(i: nat, n: nat): nat { if i + 1 == n then 0 else i + 1 }

  /** A newly closed id overwrites the oldest slot; a known one changes nothing. */
  function Close(r: Ring, id: string): (t: Ring)
    requires r.next < |r.slots|
    ensures t.next < |t.slots| == |r.slots|
  {
    if id in r.slots then r else Ring(r.slots[r.next := id], Wrap(r.next, |r.slots|))
  }

  lemma CloseKeepsRing(r: Ring, id: string)
    requires RingOk(r) && id != ""
    ensures RingOk(Close(r, id)) && |Close(r, id).slots| == |r.slots|
    ensures forall x :: IsClosed(Close(r, id), x) <==>
      x == id || (IsClosed(r, x) && (id in r.slots || x != r.slots[r.next]))
  {
    var t := Close(r, id);
    forall x | x != id ensures IsClosed(t, x) <==> IsClosed(r, x) && (id in r.slots || x != r.slots[r.next]) {
      if IsClosed(r, x) && x != r.slots[r.next] {
        var i :| 0 <= i < |r.slots| && r.slots[i] == x;
        assert t.slots[i] == x;
      }
    }
    assert id !in r.slots ==> t.slots[r.next] == id;
  }

  /** Closes a sequence of ids. */
  function CloseAll(r: Ring, ids: seq<string>): (t: Ring)
    requires r.next < |r.slots|
    ensures t.next < |t.slots| == |r.slots|
  {
    if ids == [] then r else Close(CloseAll(r, ids[..|ids| - 1]), ids[|ids| - 1])
  }

  /** How many of the closings were of an id not in the ring at its turn. */
  function NewCount(r: Ring, ids: seq<string>): nat
    requires r.next < |r.slots|
  {
    if ids == [] then 0
    else
      var init, last := ids[..|ids| - 1], ids[|ids| - 1];
      NewCount(r, init) + if last in CloseAll(r, init).slots then 0 else 1
  }

  /** Steps until the write position reaches slot p. */
  function Distance(next: nat, p: nat, n: nat): int { if p >= next then p - next else p + n - next }

  /** Known ids change nothing; each new one brings the write position one closer. */
  lemma {:induction false} RingAfter(r: Ring, ids: seq<string>, p: nat)
    requires RingOk(r) && p < |r.slots| && r.slots[p] != "" && "" !in ids
    requires NewCount(r, ids) <= Distance(r.next, p, |r.slots|)
    ensures var t := CloseAll(r, ids);
      && RingOk(t) && |t.slots| == |r.slots| && t.slots[p] == r.slots[p]
      && Distance(t.next, p, |t.slots|) == Distance(r.next, p, |r.slots|) - NewCount(r, ids)
  {
    if ids != [] {
      var init, last := ids[..|ids| - 1], ids[|ids| - 1];
      assert last in ids;
      RingAfter(r, init, p);
      CloseKeepsRing(CloseAll(r, init), last);
    }
  }

  lemma JustClosed(r: Ring, id: string)
    requires RingOk(r) && id != "" && id !in r.slots
    ensures var s := Close(r, id);
      RingOk(s) && s.slots[r.next] == id && Distance(s.next, r.next, |s.slots|) == |s.slots| - 1
  {
    CloseKeepsRing(r, id);
  }

  /** Closing a new id when the write position is at p forgets what was there. */
  lemma OverwriteForgets(t: Ring, last: string)
    requires RingOk(t) && t.slots[t.next] != "" && last != "" && last !in t.slots
    ensures !IsClosed(Close(t, last), t.slots[t.next])
  {
    CloseKeepsRing(t, last);
  }

  /** After exactly |slots| new closings the id is forgotten, however many
      closings of known ids came between or after them. */
  lemma {:induction false} EvictedAfter(s: Ring, p: nat, later: seq<string>)
    requires RingOk(s) && p < |s.slots| && s.slots[p] != "" && "" !in later
    requires Distance(s.next, p, |s.slots|) == |s.slots| - 1 && NewCount(s, later) == |s.slots|
    ensures !IsClosed(CloseAll(s, later), s.slots[p])
  {
    var init, last := later[..|later| - 1], later[|later| - 1];
    assert last in later;
    if last in CloseAll(s, init).slots {
      EvictedAfter(s, p, init);
    } else {
      RingAfter(s, init, p);
      assert CloseAll(s, init).next == p;
      OverwriteForgets(CloseAll(s, init), last);
    }
  }

  /** A newly closed id stays closed through any closings of which fewer than
      |slots| are new at their turn, and the |slots|-th new one evicts it. */
  lemma KeptUntilEvicted(r: Ring, id: string, later: seq<string>)
    requires RingOk(r) && id != "" && id !in r.slots && "" !in later
    ensures NewCount(Close(r, id), later) < |r.slots| ==> IsClosed(CloseAll(Close(r, id), later), id)
    ensures NewCount(Close(r, id), later) == |r.slots| ==> !IsClosed(CloseAll(Close(r, id), later), id)
  {
    var s := Close(r, id);
    JustClosed(r, id);
    if NewCount(s, later) < |r.slots| {
      RingAfter(s, later, r.next);
    } else if NewCount(s, later) == |r.slots| {
      EvictedAfter(s, r.next, later);
    }
  }
}
