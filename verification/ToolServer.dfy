/** The global tool registry of server.go, the per-session overlays of
    session_tools.go, and the two places that read both: tools/list
    (dispatch.go) and the lookup part of CallTool (server.go). */
module ToolServer {
  import opened Options
  import opened ByteStrings
  import opened ToolName
  import opened ToolMerge
  import opened ClosedRing

  // --------------------------------------------------------- global registry

  datatype RegResult = RegOk | ToolNil | BadName(why: NameCheck) | HandlerNil | AlreadyExists | NotFound

  ghost predicate ToolOk(t: Option<Tool>) {
    t.Some? && ValidName(t.value.name) && t.value.hasHandler
  }

  /** A batch that RegisterTools accepts: valid tools, distinct new names. */
  ghost predicate BatchOk(tools: map<Bytes, Tool>, batch: seq<Option<Tool>>) {
    && (forall i :: 0 <= i < |batch| ==> ToolOk(batch[i]) && batch[i].value.name !in tools)
    && (forall i, j :: 0 <= i < j < |batch| ==> batch[i].value.name != batch[j].value.name)
  }

  /** The registry after a whole batch. */
  function AddAll(tools: map<Bytes, Tool>, batch: seq<Option<Tool>>): map<Bytes, Tool>
    requires forall i :: 0 <= i < |batch| ==> batch[i].Some?
  {
    if batch == [] then tools
    else
      var last := batch[|batch| - 1].value;
      AddAll(tools, batch[..|batch| - 1])[last.name := last]
  }

  /** An accepted batch adds its tools under their names and changes no other. */
  lemma {:induction false} AddAllFacts(tools: map<Bytes, Tool>, batch: seq<Option<Tool>>)
    requires BatchOk(tools, batch)
    ensures forall n :: n in AddAll(tools, batch) <==> n in tools || NamedIn(batch, n)
    ensures forall n :: n in tools ==> AddAll(tools, batch)[n] == tools[n]
    ensures forall i :: 0 <= i < |batch| ==>
      batch[i].value.name in AddAll(tools, batch) && AddAll(tools, batch)[batch[i].value.name] == batch[i].value
  {
    if batch != [] {
      AddAllFacts(tools, batch[..|batch| - 1]);
      forall n ensures n in AddAll(tools, batch) <==> n in tools || NamedIn(batch, n) { NamedInStep(batch, n); }
    }
  }

  lemma NamedInStep(batch: seq<Option<Tool>>, n: Bytes)
    requires batch != []
    ensures var init, last := batch[..|batch| - 1], batch[|batch| - 1];
      NamedIn(batch, n) <==> NamedIn(init, n) || (last.Some? && last.value.name == n)
  {
    var init := batch[..|batch| - 1];
    if NamedIn(init, n) {
      var i :| 0 <= i < |init| && init[i].Some? && init[i].value.name == n;
      assert batch[i].value.name == n;
    }
  }

  ghost predicate NamedIn(batch: seq<Option<Tool>>, n: Bytes) {
    exists i :: 0 <= i < |batch| && batch[i].Some? && batch[i].value.name == n
  }

  class ToolRegistry {
    var tools: map<Bytes, Tool>
    var sortedTools: Option<seq<Tool>>

    ghost predicate Valid()
      reads this
    {
      && Keyed(tools)
      && (forall n :: n in tools ==> ValidName(n))
      && (sortedTools.Some? ==> ListOf(sortedTools.value, tools))
    }

    constructor ()
      ensures Valid() && tools == map[]
    {
      tools, sortedTools := map[], None;
    }

    /** The checks shared by both registration methods. */
    method CheckTool(tool: Option<Tool>) returns (r: RegResult)
      ensures r == RegOk <==> ToolOk(tool)
      ensures r == ToolNil <==> tool.None?
      ensures r.RegOk? || r.ToolNil? || r.BadName? || r.HandlerNil?
    {
      if tool.None? { return ToolNil; }
      var name := ValidateToolName(tool.value.name);
      if name != NameOk { return BadName(name); }
      if !tool.value.hasHandler { return HandlerNil; }
      return RegOk;
    }

    method RegisterTool(tool: Option<Tool>) returns (r: RegResult)
      requires Valid()
      modifies this
      ensures Valid()
      ensures r == RegOk <==> ToolOk(tool) && tool.value.name !in old(tools)
      ensures r == AlreadyExists <==> ToolOk(tool) && tool.value.name in old(tools)
      ensures tools == if r == RegOk then old(tools)[tool.value.name := tool.value] else old(tools)
    {
      r := CheckTool(tool);
      if r != RegOk { return; }
      if tool.value.name in tools { return AlreadyExists; }
      tools := tools[tool.value.name := tool.value];
      sortedTools := None;
    }

    method RemoveTool(name: Bytes) returns (r: RegResult)
      requires Valid()
      modifies this
      ensures Valid()
      ensures r == RegOk <==> name in old(tools)
      ensures tools == old(tools) - {name}
    {
      if name == [] || name !in tools {
        assert tools - {name} == tools;
        return NotFound;
      }
      tools := tools - {name};
      sortedTools := None;
      return RegOk;
    }

    /** All or nothing. */
    method RegisterTools(batch: seq<Option<Tool>>) returns (r: RegResult)
      requires Valid()
      modifies this
      ensures Valid()
      ensures r == RegOk <==> BatchOk(old(tools), batch)
      ensures tools == if BatchOk(old(tools), batch) then AddAll(old(tools), batch) else old(tools)
    {
      if batch == [] { return RegOk; }
      r := CheckBatch(batch);
      if r != RegOk { return; }
      var i := 0;
      while i < |batch|
        invariant i <= |batch| && forall j :: 0 <= j < i ==> batch[j].value.name !in tools
      {
        if batch[i].value.name in tools { return AlreadyExists; }
        i := i + 1;
      }
      i := 0;
      while i < |batch|
        invariant i <= |batch| && Keyed(tools) && forall n :: n in tools ==> ValidName(n)
        invariant tools == AddAll(old(tools), batch[..i])
      {
        assert batch[..i + 1][..i] == batch[..i];
        tools := tools[batch[i].value.name := batch[i].value];
        i := i + 1;
      }
      assert batch[..i] == batch;
      sortedTools := None;
    }

    /** The first loop of RegisterTools: each tool is valid, no name twice. */
    method CheckBatch(batch: seq<Option<Tool>>) returns (r: RegResult)
      ensures r == RegOk <==> BatchOk(map[], batch)
    {
      var seen: set<Bytes> := {};
      var i := 0;
      while i < |batch|
        invariant i <= |batch|
        invariant BatchOk(map[], batch[..i])
        invariant forall n :: n in seen <==> exists j :: 0 <= j < i && batch[j].value.name == n
      {
        r := CheckTool(batch[i]);
        if r != RegOk { return; }
        if batch[i].value.name in seen {
          return AlreadyExists;
        }
        seen := seen + {batch[i].value.name};
        i := i + 1;
      }
      assert batch[..i] == batch;
      return RegOk;
    }

    /** The cached list, rebuilt when a change dropped it. */
    method GetSortedTools() returns (ts: seq<Tool>)
      requires Valid()
      modifies this`sortedTools
      ensures Valid() && ListOf(ts, tools)
    {
      if sortedTools.Some? { return sortedTools.value; }
      ts := BuildSorted(tools);
      sortedTools := Some(ts);
    }
  }

  // -------------------------------------------------------- session registry

  datatype Session = Session(tools: map<Bytes, Tool>, sorted: Option<seq<Tool>>)

  datatype AddResult = Added | SessionIdEmpty | SessionToolNil | NameIsEmpty | NoHandler
                     | SessionClosed | SessionLimit | ToolLimit | ToolExists

  ghost predicate SessionOk(s: Session, limit: int) {
    && Keyed(s.tools) && 1 <= |s.tools| <= limit && [] !in s.tools
    && (s.sorted.Some? ==> ListOf(s.sorted.value, s.tools))
  }

  function ToolsIn(sessions: map<string, Session>, id: string): map<Bytes, Tool> {
    if id in sessions then sessions[id].tools else map[]
  }

  /** Every live session is named, not closed, and holds between one tool and
      the limit; the number of sessions is within its own limit. */
  ghost predicate SessionsOk(sessions: map<string, Session>, closed: set<string>, toolCap: int, sessionCap: int) {
    && |sessions| <= sessionCap
    && (forall id :: id in sessions ==> id != "" && id !in closed && SessionOk(sessions[id], toolCap))
  }

  lemma PutSession(sessions: map<string, Session>, closed: set<string>, toolCap: int, sessionCap: int, id: string, s: Session)
    requires SessionsOk(sessions, closed, toolCap, sessionCap)
    requires id != "" && id !in closed && SessionOk(s, toolCap) && (id in sessions || |sessions| < sessionCap)
    ensures SessionsOk(sessions[id := s], closed, toolCap, sessionCap)
  {
    GrowMap(sessions, id, s);
  }

  lemma DropSession(sessions: map<string, Session>, closed: set<string>, toolCap: int, sessionCap: int, id: string, more: set<string>)
    requires SessionsOk(sessions, closed, toolCap, sessionCap) && more <= closed + {id}
    ensures SessionsOk(sessions - {id}, more, toolCap, sessionCap)
  {
    ShrinkMap(sessions, id);
  }

  /** A session with one tool more is still a session. */
  lemma SessionMore(sessions: map<string, Session>, closed: set<string>, toolCap: int, sessionCap: int, id: string, t: Tool)
    requires SessionsOk(sessions, closed, toolCap, sessionCap)
    requires t.name != [] && t.name !in ToolsIn(sessions, id) && |ToolsIn(sessions, id)| < toolCap
    ensures SessionOk(Session(ToolsIn(sessions, id)[t.name := t], None), toolCap)
  {
    GrowMap(ToolsIn(sessions, id), t.name, t);
  }

  /** With one tool less it is one too, unless that was its last. */
  lemma SessionLess(s: Session, name: Bytes, limit: int)
    requires SessionOk(s, limit) && name in s.tools
    ensures var rest := s.tools - {name};
      if |rest| == 0 then rest == map[] else SessionOk(Session(rest, None), limit)
  {
    ShrinkMap(s.tools, name);
  }

  ghost predicate ArgsOk(id: string, tool: Option<Tool>) {
    id != "" && tool.Some? && tool.value.name != [] && tool.value.hasHandler
  }

  /** When one more tool of a new name keeps the sessions in order. */
  lemma AddKeepsIff(sessions: map<string, Session>, closed: set<string>, toolCap: int, sessionCap: int, id: string, t: Tool)
    requires SessionsOk(sessions, closed, toolCap, sessionCap) && id != "" && t.name != [] && toolCap >= 1
    ensures var mine := ToolsIn(sessions, id);
      t.name !in mine ==>
        (SessionsOk(sessions[id := Session(mine[t.name := t], None)], closed, toolCap, sessionCap) <==>
          id !in closed && |mine| < toolCap && (id in sessions || |sessions| < sessionCap))
  {
    var mine := ToolsIn(sessions, id);
    var s := Session(mine[t.name := t], None);
    GrowMap(mine, t.name, t);
    GrowMap(sessions, id, s);
    if t.name !in mine && id !in closed && |mine| < toolCap && (id in sessions || |sessions| < sessionCap) {
      SessionMore(sessions, closed, toolCap, sessionCap, id, t);
      PutSession(sessions, closed, toolCap, sessionCap, id, s);
    } else if t.name !in mine {
      assert sessions[id := s][id] == s;
    }
  }

  lemma PutOthers(sessions: map<string, Session>, id: string, s: Session)
    ensures OthersSame(sessions[id := s], sessions, id) && ToolsIn(sessions[id := s], id) == s.tools
  {}

  lemma DropOthers(sessions: map<string, Session>, id: string)
    ensures OthersSame(sessions - {id}, sessions, id) && ToolsIn(sessions - {id}, id) == map[]
  {}

  /** Only one session's tools may differ. */
  ghost predicate OthersSame(a: map<string, Session>, b: map<string, Session>, id: string) {
    forall x :: x != id ==> (x in a <==> x in b) && ToolsIn(a, x) == ToolsIn(b, x)
  }

  class SessionToolRegistry {
    const maxToolsPerSess: int
    const maxSessions: int
    var sessions: map<string, Session>
    var closed: set<string>
    var closedRng: array?<string>
    var closedIdx: nat

    ghost function ToolCap(): int { if maxToolsPerSess <= 0 then 100 else maxToolsPerSess }
    ghost function SessionCap(): int { if maxSessions <= 0 then 10_000 else maxSessions }

    /** The ring as a value; before the first close all slots are unused. */
    ghost function RingView(): Ring
      reads this`closedRng, this`closedIdx, closedRng
    {
      if closedRng == null then Ring(seq(MAX_CLOSED_SESSIONS, _ => ""), 0) else Ring(closedRng[..], closedIdx)
    }

    ghost predicate RingValid()
      reads this`closed, this`closedRng, this`closedIdx, closedRng
    {
      && (closedRng != null ==> closedRng.Length == MAX_CLOSED_SESSIONS)
      && RingOk(RingView())
      && forall id :: id in closed <==> IsClosed(RingView(), id)
    }

    ghost predicate LiveValid()
      reads this`sessions, this`closed
    {
      SessionsOk(sessions, closed, ToolCap(), SessionCap())
    }

    ghost predicate Valid()
      reads this, closedRng
    {
      RingValid() && LiveValid()
    }

    constructor (maxTools: int, maxSess: int)
      ensures Valid() && sessions == map[] && closed == {} && closedRng == null && |RingView().slots| == 10_000
      ensures ToolCap() == (if maxTools <= 0 then 100 else maxTools)
      ensures SessionCap() == if maxSess <= 0 then 10_000 else maxSess
    {
      maxToolsPerSess, maxSessions := maxTools, maxSess;
      sessions, closed, closedRng, closedIdx := map[], {}, null, 0;
    }

    /** The sessions with one more tool. */
    ghost function With(id: string, t: Tool): map<string, Session>
      reads this
    {
      sessions[id := Session(ToolsIn(sessions, id)[t.name := t], None)]
    }

    /** Accepts exactly the additions of a new name after which every limit still
        holds, no closed session is back and every name is given. A closed or
        full registry is reported before a full or occupied session. */
    method CheckAdd(id: string, tool: Option<Tool>) returns (r: AddResult)
      requires LiveValid()
      ensures r == Added <==>
        ArgsOk(id, tool) && tool.value.name !in ToolsIn(sessions, id)
        && SessionsOk(With(id, tool.value), closed, ToolCap(), SessionCap())
      ensures r == SessionIdEmpty || r == SessionToolNil || r == NameIsEmpty || r == NoHandler <==> !ArgsOk(id, tool)
      ensures r == SessionIdEmpty <==> id == ""
      ensures r == SessionToolNil <==> id != "" && tool.None?
      ensures r == NameIsEmpty <==> id != "" && tool.Some? && tool.value.name == []
      ensures r == SessionClosed <==> ArgsOk(id, tool) && id in closed
      ensures r == SessionLimit <==> ArgsOk(id, tool) && id !in closed && id !in sessions && |sessions| == SessionCap()
      ensures r == ToolLimit <==> ArgsOk(id, tool) && id in sessions && |sessions[id].tools| == ToolCap()
      ensures r == ToolExists <==>
        ArgsOk(id, tool) && id in sessions && |sessions[id].tools| < ToolCap() && tool.value.name in sessions[id].tools
    {
      if id == "" { return SessionIdEmpty; }
      if tool.None? { return SessionToolNil; }
      if tool.value.name == [] { return NameIsEmpty; }
      if !tool.value.hasHandler { return NoHandler; }
      AddKeepsIff(sessions, closed, ToolCap(), SessionCap(), id, tool.value);
      if id in closed { return SessionClosed; }
      if id !in sessions {
        var cap := if maxSessions <= 0 then 10_000 else maxSessions;
        if |sessions| >= cap { return SessionLimit; }
      }
      var mine := ToolsIn(sessions, id);
      var limit := if maxToolsPerSess <= 0 then 100 else maxToolsPerSess;
      if |mine| >= limit { return ToolLimit; }
      if tool.value.name in mine { return ToolExists; }
      return Added;
    }

    /** Stores a session's changed tools. */
    method Put(id: string, s: Session)
      requires LiveValid() && id != "" && id !in closed && SessionOk(s, ToolCap())
      requires id in sessions || |sessions| < SessionCap()
      modifies this`sessions
      ensures LiveValid() && ToolsIn(sessions, id) == s.tools && OthersSame(sessions, old(sessions), id)
    {
      PutOthers(sessions, id, s);
      PutSession(sessions, closed, ToolCap(), SessionCap(), id, s);
      sessions := sessions[id := s];
    }

    method Add(id: string, tool: Option<Tool>) returns (r: AddResult)
      requires LiveValid()
      modifies this`sessions
      ensures LiveValid()
      ensures r == Added <==>
        ArgsOk(id, tool) && tool.value.name !in ToolsIn(old(sessions), id)
        && SessionsOk(old(With(id, tool.value)), closed, ToolCap(), SessionCap())
      ensures sessions == if r == Added then old(With(id, tool.value)) else old(sessions)
    {
      r := CheckAdd(id, tool);
      if r == Added {
        sessions := sessions[id := Session(ToolsIn(sessions, id)[tool.value.name := tool.value], None)];
      }
    }

    method Remove(id: string, name: Bytes) returns (ok: bool)
      requires LiveValid()
      modifies this`sessions
      ensures LiveValid()
      ensures ok <==> id != "" && name != [] && name in ToolsIn(old(sessions), id)
      ensures ToolsIn(sessions, id) == ToolsIn(old(sessions), id) - {name}
      ensures OthersSame(sessions, old(sessions), id)
    {
      if id == "" || name == [] || id !in sessions || name !in sessions[id].tools {
        assert ToolsIn(sessions, id) - {name} == ToolsIn(sessions, id);
        return false;
      }
      var rest := sessions[id].tools - {name};
      SessionLess(sessions[id], name, ToolCap());
      if |rest| == 0 {
        DropSession(sessions, closed, ToolCap(), SessionCap(), id, closed);
        DropOthers(sessions, id);
        sessions := sessions - {id};
      } else {
        Put(id, Session(rest, None));
      }
      return true;
    }

    /** Drops the session's tools and records the id as closed. */
    method RemoveAll(id: string)
      requires Valid()
      modifies this`sessions, this`closed, this`closedRng, this`closedIdx, closedRng
      ensures Valid() && (closedRng == old(closedRng) || fresh(closedRng)) && |RingView().slots| == 10_000
      ensures id == "" ==> sessions == old(sessions) && RingView() == old(RingView())
      ensures id != "" ==> sessions == old(sessions) - {id} && RingView() == Close(old(RingView()), id)
    {
      if id == "" { return; }
      ghost var was := closed;
      RecordClosed(id);
      DropSession(sessions, was, ToolCap(), SessionCap(), id, closed);
      sessions := sessions - {id};
    }

    /** The part of removeAll that works on the closed set and its ring. */
    method RecordClosed(id: string)
      requires RingValid() && id != ""
      modifies this`closed, this`closedRng, this`closedIdx, closedRng
      ensures RingValid() && (closedRng == old(closedRng) || fresh(closedRng))
      ensures RingView() == Close(old(RingView()), id) && closed <= old(closed) + {id}
    {
      EnsureRing();
      if id !in closed { MarkClosed(id); }
    }

    /** Lazy initialization of the ring. */
    method EnsureRing()
      requires RingValid()
      modifies this`closedRng, this`closedIdx
      ensures closedRng != null && RingValid() && RingView() == old(RingView())
      ensures closedRng == old(closedRng) || fresh(closedRng)
    {
      if closedRng == null {
        closedRng := new string[MAX_CLOSED_SESSIONS](_ => "");
        closedIdx := 0;
        assert RingView() == old(RingView());
      }
    }

    /** The ring write: evict the oldest id, store the new one, advance. */
    method MarkClosed(id: string)
      requires closedRng != null && RingValid() && id != "" && id !in closed
      modifies this`closed, this`closedIdx, closedRng
      ensures closedRng == old(closedRng) && RingValid()
      ensures RingView() == Close(old(RingView()), id)
      ensures closed <= old(closed) + {id}
    {
      ghost var r := RingView();
      CloseKeepsRing(r, id);
      var oldest := closedRng[closedIdx];
      assert oldest == r.slots[r.next] && id !in r.slots;
      if oldest != "" { closed := closed - {oldest}; }
      closedRng[closedIdx] := id;
      closedIdx := (closedIdx + 1) % closedRng.Length;
      closed := closed + {id};
      assert RingView() == Close(r, id);
    }

    method Lookup(id: string, name: Bytes) returns (t: Option<Tool>)
      requires LiveValid()
      ensures t == if name in ToolsIn(sessions, id) then Some(ToolsIn(sessions, id)[name]) else None
    {
      if id == "" || name == [] { return None; }
      if id !in sessions || name !in sessions[id].tools { return None; }
      return Some(sessions[id].tools[name]);
    }

    /** The session's cached list, rebuilt when needed; empty without session tools. */
    method SortedTools(id: string) returns (ts: seq<Tool>)
      requires LiveValid()
      modifies this`sessions
      ensures LiveValid() && ListOf(ts, ToolsIn(sessions, id))
      ensures OthersSame(sessions, old(sessions), id) && ToolsIn(sessions, id) == ToolsIn(old(sessions), id)
    {
      if id == "" || id !in sessions { return []; }
      if sessions[id].sorted.Some? { return sessions[id].sorted.value; }
      ts := BuildSorted(sessions[id].tools);
      Put(id, sessions[id].(sorted := Some(ts)));
    }
  }

  lemma GrowMap<K, V>(m: map<K, V>, k: K, v: V)
    ensures |m[k := v]| == |m| + if k in m then 0 else 1
    ensures m[k := v].Keys == m.Keys + {k}
  {
    assert m[k := v].Keys == m.Keys + {k};
    assert |m[k := v]| == |m[k := v].Keys| && |m| == |m.Keys|;
    if k in m { assert m.Keys + {k} == m.Keys; }
  }

  lemma ShrinkMap<K, V>(m: map<K, V>, k: K)
    ensures |m - {k}| == |m| - if k in m then 1 else 0
  {
    assert (m - {k}).Keys == m.Keys - {k};
    assert |m - {k}| == |(m - {k}).Keys| && |m| == |m.Keys|;
    if k !in m { assert m.Keys - {k} == m.Keys; }
  }

  // ----------------------------------------------------------- list and call

  /** What a call by name resolves to for a session under a tenant filter. */
  function Resolve(global: map<Bytes, Tool>, session: map<Bytes, Tool>, f: Filter, name: Bytes): Option<Tool> {
    var found := if name in session then Some(session[name])
                 else if name in global then Some(global[name]) else None;
    if found.Some? && f(found.value) then found else None
  }

  /** The lookup and filter part of CallTool. */
  method CallLookup(reg: ToolRegistry, sess: SessionToolRegistry, id: string, f: Filter, name: Bytes)
    returns (r: Option<Tool>)
    requires reg.Valid() && sess.Valid()
    ensures r == Resolve(reg.tools, ToolsIn(sess.sessions, id), f, name)
  {
    r := sess.Lookup(id, name);
    if r.None? && name in reg.tools {
      r := Some(reg.tools[name]);
    }
    if r.None? { return None; }
    if !f(r.value) { return None; }
  }

  /** Membership in the filtered merge is resolution. */
  lemma ListedIffResolved(g: seq<Tool>, s: seq<Tool>, global: map<Bytes, Tool>, session: map<Bytes, Tool>,
                          f: Filter, t: Tool)
    requires ListOf(g, global) && ListOf(s, session) && Keyed(session)
    ensures t in Filtered(f, Merge(g, s)) <==> Resolve(global, session, f, t.name) == Some(t)
  {
    MergeVisible(g, s, t);
    FilteredFacts(f, Merge(g, s));
    assert HasName(s, t.name) <==> t.name in session by {
      if t.name in session {
        assert session[t.name] in s;
        var i :| 0 <= i < |s| && s[i] == session[t.name];
        assert s[i].name == t.name;
      }
      if HasName(s, t.name) {
        var i :| 0 <= i < |s| && s[i].name == t.name;
        assert s[i] in s;
      }
    }
  }

  /** tools/list for a session and tenant: strictly sorted by name, the filter
      of the overlay merge, and listing exactly the tools that calls by name
      resolve to, whether or not the sorted caches were warm. */
  method ToolsList(reg: ToolRegistry, sess: SessionToolRegistry, id: string, f: Filter)
    returns (ts: seq<Tool>, ghost g: seq<Tool>, ghost s: seq<Tool>)
    requires reg.Valid() && sess.Valid()
    modifies reg`sortedTools, sess`sessions
    ensures reg.Valid() && sess.Valid()
    ensures OthersSame(sess.sessions, old(sess.sessions), id)
    ensures ToolsIn(sess.sessions, id) == ToolsIn(old(sess.sessions), id)
    ensures ListOf(g, reg.tools) && ListOf(s, ToolsIn(sess.sessions, id)) && ts == Filtered(f, Merge(g, s))
    ensures Sorted(ts)
    ensures forall t :: t in ts <==> Resolve(reg.tools, ToolsIn(sess.sessions, id), f, t.name) == Some(t)
  {
    var all := reg.GetSortedTools();
    var mine := sess.SortedTools(id);
    g, s := all, mine;
    if |mine| == 0 {
      ts := FilterTools(f, all);
      assert Merge(all, mine) == all by { MergeTail(all, mine); }
    } else {
      ts := MergeSessionToolsFiltered(all, mine, f);
    }
    MergeSorted(all, mine);
    FilteredFacts(f, Merge(all, mine));
    forall t ensures t in ts <==> Resolve(reg.tools, ToolsIn(sess.sessions, id), f, t.name) == Some(t) {
      assert Keyed(ToolsIn(sess.sessions, id));
      ListedIffResolved(all, mine, reg.tools, ToolsIn(sess.sessions, id), f, t);
    }
  }
}
