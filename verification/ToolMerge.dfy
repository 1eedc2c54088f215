/** Sorted tool lists: the session overlay merge of session_tools.go and its
    filtering form, and the list built from a registry map. */
module ToolMerge {
  import opened Options
  import opened ByteStrings

  /** A tool as the registries see it; id tells different tools of one name apart. */
  datatype Tool = Tool(name: Bytes, hasHandler: bool, id: nat)

  type Filter = Tool -> bool

  /** Strictly sorted by name. */
  ghost predicate Sorted(ts: seq<Tool>) {
    forall i, j :: 0 <= i < j < |ts| ==> Less(ts[i].name, ts[j].name)
  }

  ghost predicate Below(name: Bytes, ts: seq<Tool>) {
    forall i :: 0 <= i < |ts| ==> Less(name, ts[i].name)
  }

  ghost predicate HasName(ts: seq<Tool>, name: Bytes) {
    exists i :: 0 <= i < |ts| && ts[i].name == name
  }

  lemma SortedCons(t: Tool, ts: seq<Tool>)
    requires Sorted(ts) && Below(t.name, ts)
    ensures Sorted([t] + ts)
  {}

  lemma SortedHead(ts: seq<Tool>)
    requires Sorted(ts) && ts != []
    ensures Sorted(ts[1..]) && Below(ts[0].name, ts[1..])
  {}

  lemma BelowTrans(a: Bytes, b: Bytes, ts: seq<Tool>)
    requires Less(a, b) && Below(b, ts)
    ensures Below(a, ts)
  {
    forall i | 0 <= i < |ts| ensures Less(a, ts[i].name) { LessTransitive(a, b, ts[i].name); }
  }

  // -------------------------------------------------------------------- merge

  /** The two-index merge: on equal names the session tool wins. */
  function Merge(global: seq<Tool>, session: seq<Tool>): seq<Tool>
    decreases |global| + |session|
  {
    if global == [] then session
    else if session == [] then global
    else if Less(global[0].name, session[0].name) then [global[0]] + Merge(global[1..], session)
    else if Less(session[0].name, global[0].name) then [session[0]] + Merge(global, session[1..])
    else [session[0]] + Merge(global[1..], session[1..])
  }

  function Filtered(f: Filter, ts: seq<Tool>): seq<Tool> {
    if ts == [] then []
    else if f(ts[0]) then [ts[0]] + Filtered(f, ts[1..])
    else Filtered(f, ts[1..])
  }

  /** A tool is in the merge when the session has it, or the global list has it
      and no session tool shadows its name. */
  ghost predicate Visible(global: seq<Tool>, session: seq<Tool>, t: Tool) {
    t in session || (t in global && !HasName(session, t.name))
  }

  lemma {:induction false} MergeBelow(name: Bytes, g: seq<Tool>, s: seq<Tool>)
    requires Below(name, g) && Below(name, s)
    ensures Below(name, Merge(g, s))
    decreases |g| + |s|
  {
    if g != [] && s != [] {
      if Less(g[0].name, s[0].name) {
        MergeBelow(name, g[1..], s);
      } else if Less(s[0].name, g[0].name) {
        MergeBelow(name, g, s[1..]);
      } else {
        MergeBelow(name, g[1..], s[1..]);
      }
    }
  }

  lemma BelowCons(name: Bytes, t: Tool, ts: seq<Tool>)
    requires ts != [] && ts[0] == t && Less(name, t.name) && Below(t.name, ts[1..])
    ensures Below(name, ts)
  {
    BelowTrans(name, t.name, ts[1..]);
    forall i | 0 <= i < |ts| ensures Less(name, ts[i].name) {
      if i > 0 { assert ts[i] == ts[1..][i - 1]; }
    }
  }

  lemma {:induction false} MergeSorted(g: seq<Tool>, s: seq<Tool>)
    requires Sorted(g) && Sorted(s)
    ensures Sorted(Merge(g, s))
    decreases |g| + |s|
  {
    if g != [] && s != [] {
      SortedHead(g);
      SortedHead(s);
      if Less(g[0].name, s[0].name) {
        BelowCons(g[0].name, s[0], s);
        MergeBelow(g[0].name, g[1..], s);
        MergeSorted(g[1..], s);
        SortedCons(g[0], Merge(g[1..], s));
      } else if Less(s[0].name, g[0].name) {
        BelowCons(s[0].name, g[0], g);
        MergeBelow(s[0].name, g, s[1..]);
        MergeSorted(g, s[1..]);
        SortedCons(s[0], Merge(g, s[1..]));
      } else {
        LessTotal(g[0].name, s[0].name);
        MergeBelow(s[0].name, g[1..], s[1..]);
        MergeSorted(g[1..], s[1..]);
        SortedCons(s[0], Merge(g[1..], s[1..]));
      }
    }
  }

  lemma NameSplit(ts: seq<Tool>, name: Bytes)
    requires ts != []
    ensures HasName(ts, name) <==> ts[0].name == name || HasName(ts[1..], name)
    ensures forall t :: t in ts <==> t == ts[0] || t in ts[1..]
  {
    if HasName(ts[1..], name) {
      var i :| 0 <= i < |ts[1..]| && ts[1..][i].name == name;
      assert ts[i + 1].name == name;
    }
    if HasName(ts, name) && ts[0].name != name {
      var i :| 0 <= i < |ts| && ts[i].name == name;
      assert ts[1..][i - 1].name == name;
    }
  }

  lemma BelowNoName(name: Bytes, ts: seq<Tool>)
    requires Below(name, ts)
    ensures !HasName(ts, name) && forall t :: t in ts ==> t.name != name
  {
    LessIrreflexive(name);
  }

  lemma {:induction false} MergeVisible(g: seq<Tool>, s: seq<Tool>, t: Tool)
    requires Sorted(g) && Sorted(s)
    ensures t in Merge(g, s) <==> Visible(g, s, t)
    decreases |g| + |s|
  {
    if g != [] && s != [] {
      SortedHead(g);
      SortedHead(s);
      NameSplit(g, t.name);
      NameSplit(s, t.name);
      if Less(g[0].name, s[0].name) {
        BelowCons(g[0].name, s[0], s);
        BelowNoName(g[0].name, s);
        MergeVisible(g[1..], s, t);
      } else if Less(s[0].name, g[0].name) {
        BelowCons(s[0].name, g[0], g);
        BelowNoName(s[0].name, g);
        MergeVisible(g, s[1..], t);
      } else {
        LessTotal(g[0].name, s[0].name);
        BelowNoName(g[0].name, g[1..]);
        MergeVisible(g[1..], s[1..], t);
      }
    }
  }

  lemma {:induction false} FilteredFacts(f: Filter, ts: seq<Tool>)
    ensures forall t :: t in Filtered(f, ts) <==> t in ts && f(t)
    ensures Sorted(ts) ==> Sorted(Filtered(f, ts))
  {
    if ts != [] {
      FilteredFacts(f, ts[1..]);
      var rest := Filtered(f, ts[1..]);
      NameSplit(ts, ts[0].name);
      if Sorted(ts) && f(ts[0]) {
        SortedHead(ts);
        forall i | 0 <= i < |rest| ensures Less(ts[0].name, rest[i].name) {
          assert rest[i] in rest && rest[i] in ts[1..];
        }
        SortedCons(ts[0], rest);
      }
    }
  }

  lemma {:induction false} FilteredConcat(f: Filter, a: seq<Tool>, b: seq<Tool>)
    ensures Filtered(f, a + b) == Filtered(f, a) + Filtered(f, b)
  {
    if a == [] {
      assert a + b == b;
    } else {
      FilteredConcat(f, a[1..], b);
      assert (a + b)[1..] == a[1..] + b;
    }
  }

  // --------------------------------------------------------------- loop forms

  /** mergeSessionTools. */
  method MergeSessionTools(global: seq<Tool>, session: seq<Tool>) returns (merged: seq<Tool>)
    ensures merged == Merge(global, session)
  {
    merged := [];
    var gi, si := 0, 0;
    assert global[0..] == global && session[0..] == session;
    while gi < |global| && si < |session|
      invariant gi <= |global| && si <= |session|
      invariant merged + Merge(global[gi..], session[si..]) == Merge(global, session)
      decreases |global| - gi + |session| - si
    {
      MergeAt(global, session, gi, si);
      if Less(global[gi].name, session[si].name) {
        Shift(merged, global[gi], Merge(global[gi + 1..], session[si..]));
        merged := merged + [global[gi]];
        gi := gi + 1;
      } else if Less(session[si].name, global[gi].name) {
        Shift(merged, session[si], Merge(global[gi..], session[si + 1..]));
        merged := merged + [session[si]];
        si := si + 1;
      } else {
        Shift(merged, session[si], Merge(global[gi + 1..], session[si + 1..]));
        merged := merged + [session[si]];
        gi, si := gi + 1, si + 1;
      }
    }
    MergeTail(global[gi..], session[si..]);
    merged := merged + global[gi..] + session[si..];
  }

  lemma Shift(a: seq<Tool>, t: Tool, b: seq<Tool>)
    ensures a + ([t] + b) == (a + [t]) + b
  {}

  lemma MergeTail(g: seq<Tool>, s: seq<Tool>)
    requires g == [] || s == []
    ensures Merge(g, s) == g + s
  {}

  /** The merge one step into both suffixes. */
  lemma MergeAt(g: seq<Tool>, s: seq<Tool>, gi: nat, si: nat)
    requires gi < |g| && si < |s|
    ensures Merge(g[gi..], s[si..]) ==
      if Less(g[gi].name, s[si].name) then [g[gi]] + Merge(g[gi + 1..], s[si..])
      else if Less(s[si].name, g[gi].name) then [s[si]] + Merge(g[gi..], s[si + 1..])
      else [s[si]] + Merge(g[gi + 1..], s[si + 1..])
  {
    assert g[gi..][1..] == g[gi + 1..] && s[si..][1..] == s[si + 1..];
  }

  /** Appends a tool when the filter allows it. */
  function Push(f: Filter, ts: seq<Tool>, t: Tool): seq<Tool> { if f(t) then ts + [t] else ts }

  lemma PushFiltered(f: Filter, done: seq<Tool>, t: Tool, rest: seq<Tool>)
    ensures Push(f, done, t) + Filtered(f, rest) == done + Filtered(f, [t] + rest)
  {
    assert ([t] + rest)[1..] == rest;
  }

  /** mergeSessionToolsFiltered: one pass gives the filter of the merge. */
  method MergeSessionToolsFiltered(global: seq<Tool>, session: seq<Tool>, f: Filter) returns (result: seq<Tool>)
    ensures result == Filtered(f, Merge(global, session))
  {
    result := [];
    var gi, si := 0, 0;
    ghost var goal := Filtered(f, Merge(global, session));
    assert global[0..] == global && session[0..] == session;
    while gi < |global| && si < |session|
      invariant gi <= |global| && si <= |session|
      invariant result + Filtered(f, Merge(global[gi..], session[si..])) == goal
      decreases |global| - gi + |session| - si
    {
      MergeAt(global, session, gi, si);
      if Less(global[gi].name, session[si].name) {
        PushFiltered(f, result, global[gi], Merge(global[gi + 1..], session[si..]));
        result := Push(f, result, global[gi]);
        gi := gi + 1;
      } else if Less(session[si].name, global[gi].name) {
        PushFiltered(f, result, session[si], Merge(global[gi..], session[si + 1..]));
        result := Push(f, result, session[si]);
        si := si + 1;
      } else {
        PushFiltered(f, result, session[si], Merge(global[gi + 1..], session[si + 1..]));
        result := Push(f, result, session[si]);
        gi, si := gi + 1, si + 1;
      }
    }
    MergeTail(global[gi..], session[si..]);
    FilteredConcat(f, global[gi..], session[si..]);
    var more := FilterTools(f, global[gi..]);
    result := result + more;
    more := FilterTools(f, session[si..]);
    result := result + more;
  }

  /** A filtering loop over one list. */
  method FilterTools(f: Filter, ts: seq<Tool>) returns (result: seq<Tool>)
    ensures result == Filtered(f, ts)
  {
    result := [];
    var i := 0;
    assert ts[0..] == ts;
    while i < |ts|
      invariant i <= |ts| && result + Filtered(f, ts[i..]) == Filtered(f, ts)
    {
      assert ts[i..] == [ts[i]] + ts[i + 1..];
      PushFiltered(f, result, ts[i], ts[i + 1..]);
      result := Push(f, result, ts[i]);
      i := i + 1;
    }
  }

  // ------------------------------------------------------- list of a registry

  /** The strictly sorted list of a registry map. */
  ghost predicate ListOf(ts: seq<Tool>, tools: map<Bytes, Tool>) {
    Sorted(ts) && forall t :: t in ts <==> t.name in tools && tools[t.name] == t
  }

  ghost predicate Keyed(tools: map<Bytes, Tool>) {
    forall n :: n in tools ==> tools[n].name == n
  }

  /** A map has only one such list: a warm cache and a rebuilt one agree. */
  lemma {:induction false} ListIsUnique(a: seq<Tool>, b: seq<Tool>)
    requires Sorted(a) && Sorted(b) && forall t :: t in a <==> t in b
    ensures a == b
  {
    HeadIn(a);
    HeadIn(b);
    if a != [] {
      SortedHead(a);
      SortedHead(b);
      SameHead(a, b);
      BelowNoName(a[0].name, a[1..]);
      BelowNoName(a[0].name, b[1..]);
      NameSplit(a, a[0].name);
      NameSplit(b, a[0].name);
      ListIsUnique(a[1..], b[1..]);
      assert a == [a[0]] + a[1..] && b == [b[0]] + b[1..];
    }
  }

  lemma HeadIn(ts: seq<Tool>)
    ensures ts != [] ==> ts[0] in ts
  {}

  lemma SameHead(a: seq<Tool>, b: seq<Tool>)
    requires Sorted(a) && Sorted(b) && a != [] && b != [] && a[0] in b && b[0] in a
    ensures a[0] == b[0]
  {
    var i :| 0 <= i < |b| && b[i] == a[0];
    var j :| 0 <= j < |a| && a[j] == b[0];
    if i > 0 && j > 0 {
      LessTransitive(a[0].name, b[0].name, a[0].name);
      LessIrreflexive(a[0].name);
    }
  }

  /** Inserts a tool of a new name at its place. */
  function Insert(ts: seq<Tool>, t: Tool): seq<Tool> {
    if ts == [] || Less(t.name, ts[0].name) then [t] + ts else [ts[0]] + Insert(ts[1..], t)
  }

  lemma {:induction false} InsertFacts(ts: seq<Tool>, t: Tool)
    requires Sorted(ts) && !HasName(ts, t.name)
    ensures Sorted(Insert(ts, t)) && forall x :: x in Insert(ts, t) <==> x == t || x in ts
    ensures forall n :: Less(n, t.name) && Below(n, ts) ==> Below(n, Insert(ts, t))
  {
    if ts == [] {
      assert Insert(ts, t) == [t];
    } else {
      SortedHead(ts);
      NameSplit(ts, t.name);
      if Less(t.name, ts[0].name) {
        BelowCons(t.name, ts[0], ts);
        SortedCons(t, ts);
      } else {
        InsertFacts(ts[1..], t);
        LessTotal(t.name, ts[0].name);
        SortedCons(ts[0], Insert(ts[1..], t));
        forall n | Less(n, t.name) && Below(n, ts) ensures Below(n, Insert(ts, t)) {
          assert Below(n, ts[1..]);
        }
      }
    }
  }

  /** Collects the map's tools in arbitrary order into a sorted list. */
  method BuildSorted(tools: map<Bytes, Tool>) returns (ts: seq<Tool>)
    requires Keyed(tools)
    ensures ListOf(ts, tools)
  {
    ts := [];
    var names := tools.Keys;
    while names != {}
      invariant names <= tools.Keys && Sorted(ts)
      invariant forall t :: t in ts <==> t.name in tools && t.name !in names && tools[t.name] == t
      decreases names
    {
      var n :| n in names;
      assert forall i :: 0 <= i < |ts| ==> ts[i] in ts;
      InsertFacts(ts, tools[n]);
      ts := Insert(ts, tools[n]);
      names := names - {n};
    }
  }
}
