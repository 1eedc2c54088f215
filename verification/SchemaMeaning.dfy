/** What the validator of middleware/validation.go accepts, said keyword by
    keyword without error lists, paths or passes over the data. */
module SchemaMeaning {
  import opened Options
  import opened JsonSchema

  ghost predicate InRange(lo: Option<int>, n: int, hi: Option<int>) {
    (lo.Some? ==> lo.value <= n) && (hi.Some? ==> n <= hi.value)
  }

  ghost predicate NumberOk(s: Schema, n: real) {
    && (s.minimum.Some? ==> s.minimum.value <= n) && (s.maximum.Some? ==> n <= s.maximum.value)
    && (s.above.Some? ==> s.above.value < n) && (s.below.Some? ==> n < s.below.value)
  }

  ghost predicate TextOk(o: Oracle, s: Schema, text: string) {
    InRange(s.minLength, |text|, s.maxLength) && (s.pattern != "" ==> o.matches(s.pattern, text))
  }

  ghost predicate AllDifferent(o: Oracle, elems: seq<Json>) {
    forall i, j :: 0 <= i < j < |elems| ==> o.keyOf(elems[i]) != o.keyOf(elems[j])
  }

  ghost predicate SizeOk(o: Oracle, s: Schema, elems: seq<Json>) {
    InRange(s.minItems, |elems|, s.maxItems) && (s.uniqueItems ==> AllDifferent(o, elems))
  }

  ghost predicate AllPresent(required: seq<string>, fields: seq<Field>) {
    forall k :: 0 <= k < |required| ==> Present(fields, required[k])
  }

  ghost predicate Present(fields: seq<Field>, name: string) { exists i :: 0 <= i < |fields| && fields[i].name == name }

  ghost predicate EnumOk(o: Oracle, s: Schema, val: Json) {
    s.enum.Some? ==> exists i :: 0 <= i < |s.enum.value| && o.sameJson(s.enum.value[i], val)
  }

  /** A value meets a schema after its references are followed. */
  ghost predicate Accepts(o: Oracle, schema: Schema, val: Json, defs: Defs, depth: nat)
    decreases val, 2
  {
    Meets(o, Resolve(schema, defs, depth), val, defs, depth)
  }

  /** The keywords of one schema: the enum for any type, then what the named
      type asks for. An unknown type asks nothing. */
  ghost predicate Meets(o: Oracle, s: Schema, val: Json, defs: Defs, depth: nat)
    decreases val, 1
  {
    && EnumOk(o, s, val)
    && (s.kind == "string" ==> val.Str? && TextOk(o, s, val.s))
    && (s.kind == "integer" ==> val.Num? && val.v == val.v.Floor as real && NumberOk(s, val.v))
    && (s.kind == "number" ==> val.Num? && NumberOk(s, val.v))
    && (s.kind == "boolean" ==> val.Bool?)
    && (s.kind == "object" ==> val.Obj? && AcceptsFields(o, s, val.fields, defs, depth))
    && (s.kind == "array" ==>
          && val.Arr? && SizeOk(o, s, val.elems)
          && (s.items.Some? ==>
                forall i :: 0 <= i < |val.elems| ==>
                  Accepts(o, Resolve(s.items.value, defs, depth), val.elems[i], defs, depth)))
  }

  /** Required fields are present; with properties given, each entry meets its
      own schema or the rule for further ones. */
  ghost predicate AcceptsFields(o: Oracle, schema: Schema, fields: seq<Field>, defs: Defs, depth: nat)
    decreases Obj(fields), 0
  {
    var s := Resolve(schema, defs, depth);
    && AllPresent(s.required, fields)
    && (s.properties.Some? ==> forall i :: 0 <= i < |fields| ==> AcceptsEntry(o, s, fields[i], defs, depth))
  }

  ghost predicate AcceptsEntry(o: Oracle, s: Schema, f: Field, defs: Defs, depth: nat)
    requires s.properties.Some?
    decreases f
  {
    var rule := RuleFor(s, f.name);
    && rule != Deny
    && (rule.Must? ==> Accepts(o, Resolve(rule.schema, defs, depth), f.value, defs, depth))
  }

  /** What the schema says about a field of this name. */
  function RuleFor(s: Schema, name: string): Additional
    requires s.properties.Some?
  {
    var prop := FindProp(s.properties.value, name);
    if prop.None? then s.additional
    else if prop.value.schema.None? then Permit else Must(prop.value.schema.value)
  }

  // -------------------------------------------------------------- references

  /** The first entry of this name. */
  ghost predicate FirstNamed(props: seq<Prop>, name: string, i: nat) {
    i < |props| && props[i].name == name && forall j :: 0 <= j < i ==> props[j].name != name
  }

  /** The schema is a reference "#/$defs/<name>" and the definitions hold t under
      that name. */
  ghost predicate PointsTo(s: Schema, defs: Defs, t: Schema) {
    defs.Some? && exists name: string, i: nat :: name != "" && s.ref == "#/$defs/" + name
                                    && FirstNamed(defs.value, name, i) && defs.value[i].schema == Some(t)
  }

  ghost predicate PointsNowhere(s: Schema, defs: Defs) { forall t :: !PointsTo(s, defs, t) }

  lemma {:induction false} FindPropSpec(props: seq<Prop>, name: string, i: nat)
    requires FirstNamed(props, name, i)
    ensures FindProp(props, name) == Some(props[i])
  {
    if i > 0 {
      assert props[1..][i - 1] == props[i];
      assert forall j :: 0 <= j < i - 1 ==> props[1..][j] == props[j + 1];
      FindPropSpec(props[1..], name, i - 1);
    }
  }

  lemma {:induction false} FoundIsFirst(props: seq<Prop>, name: string) returns (i: nat)
    requires FindProp(props, name).Some?
    ensures FirstNamed(props, name, i)
  {
    if props[0].name == name {
      i := 0;
    } else {
      i := FoundIsFirst(props[1..], name);
      assert forall j :: 1 <= j <= i ==> props[j] == props[1..][j - 1];
      i := i + 1;
    }
  }

  /** One hop, if the schema is a reference with a definition. */
  ghost function Hop(s: Schema, defs: Defs): Option<Schema> {
    if s.ref == "" then None else ResolveRef(s.ref, defs)
  }

  lemma HopIsPointer(s: Schema, defs: Defs, t: Schema)
    ensures Hop(s, defs) == Some(t) <==> PointsTo(s, defs, t)
  {
    var n := |REF_PREFIX|;
    if Hop(s, defs) == Some(t) {
      var name := s.ref[n..];
      assert s.ref == REF_PREFIX + name;
      var i := FoundIsFirst(defs.value, name);
      FindPropSpec(defs.value, name, i);
    }
    if PointsTo(s, defs, t) {
      var name: string, i: nat :| name != "" && s.ref == "#/$defs/" + name && FirstNamed(defs.value, name, i)
                     && defs.value[i].schema == Some(t);
      assert s.ref[n..] == name;
      FindPropSpec(defs.value, name, i);
    }
  }

  /** A reference is followed: it costs one hop and then stands for its target. */
  lemma ReferenceFollowed(s: Schema, defs: Defs, t: Schema, depth: nat)
    requires PointsTo(s, defs, t)
    ensures Resolve(s, defs, depth + 1) == Resolve(t, defs, depth)
  {
    HopIsPointer(s, defs, t);
  }

  /** Nothing else is: no reference, another form, no definition, no hop left. */
  lemma NothingFollowed(s: Schema, defs: Defs, depth: nat)
    requires depth == 0 || PointsNowhere(s, defs)
    ensures Resolve(s, defs, depth) == s
  {
    if depth > 0 && Hop(s, defs).Some? {
      HopIsPointer(s, defs, Hop(s, defs).value);
    }
  }

  /** t is n references away. */
  ghost predicate Leads(s: Schema, defs: Defs, n: nat, t: Schema)
    decreases n
  {
    if n == 0 then s == t else exists u :: PointsTo(s, defs, u) && Leads(u, defs, n - 1, t)
  }

  /** Resolution walks the chain of references to its end, or to its depth when
      the chain is longer or circular. */
  lemma {:induction false} ResolveFollows(schema: Schema, defs: Defs, depth: nat) returns (n: nat)
    ensures n <= depth && Leads(schema, defs, n, Resolve(schema, defs, depth))
    ensures n == depth || PointsNowhere(Resolve(schema, defs, depth), defs)
    decreases depth
  {
    n := 0;
    if depth > 0 {
      if t :| PointsTo(schema, defs, t) {
        ReferenceFollowed(schema, defs, t, depth - 1);
        n := ResolveFollows(t, defs, depth - 1);
        n := n + 1;
      } else {
        NothingFollowed(schema, defs, depth);
      }
    }
  }

  /** A chain is walked to its end, or as far as the depth reaches. */
  lemma {:induction false} ChainTaken(s: Schema, defs: Defs, n: nat, t: Schema, depth: nat)
    requires Leads(s, defs, n, t) && (n == depth || (n < depth && PointsNowhere(t, defs)))
    ensures Resolve(s, defs, depth) == t
    decreases n
  {
    if n == 0 {
      NothingFollowed(s, defs, depth);
    } else {
      var u :| PointsTo(s, defs, u) && Leads(u, defs, n - 1, t);
      ReferenceFollowed(s, defs, u, depth - 1);
      ChainTaken(u, defs, n - 1, t, depth - 1);
    }
  }

  /** Resolving again adds the budgets: the validator resolves a property before
      and inside validateValue, so it gets twice the hops of a root schema. */
  lemma {:induction false} ResolveTwice(schema: Schema, defs: Defs, a: nat, b: nat)
    ensures Resolve(Resolve(schema, defs, a), defs, b) == Resolve(schema, defs, a + b)
    decreases a
  {
    if a > 0 && Hop(schema, defs).Some? {
      ResolveTwice(Hop(schema, defs).value, defs, a - 1, b);
    }
  }

  // ------------------------------------------------------------ the equivalence

  lemma {:induction false} DuplicateIff(o: Oracle, elems: seq<Json>, seen: set<string>, i: nat)
    requires i <= |elems| && seen == set k | 0 <= k < i :: o.keyOf(elems[k])
    requires forall j, k :: 0 <= j < k < i ==> o.keyOf(elems[j]) != o.keyOf(elems[k])
    ensures FirstDuplicate(o, elems, seen, i).None? <==> AllDifferent(o, elems)
    decreases |elems| - i
  {
    if i < |elems| && o.keyOf(elems[i]) !in seen {
      DuplicateIff(o, elems, seen + {o.keyOf(elems[i])}, i + 1);
    }
  }

  lemma SizeIff(o: Oracle, s: Schema, elems: seq<Json>, path: string)
    ensures SizeProblems(o, s, elems, path) == [] <==> SizeOk(o, s, elems)
  {
    DuplicateIff(o, elems, {}, 0);
  }

  lemma {:induction false} PresentIff(required: seq<string>, fields: seq<Field>, prefix: string)
    ensures MissingProblems(required, Some(fields), prefix) == [] <==> AllPresent(required, fields)
  {
    if required != [] {
      PresentIff(required[1..], fields, prefix);
      assert forall k :: 1 <= k < |required| ==> required[k] == required[1..][k - 1];
      assert forall k :: 0 <= k < |required[1..]| ==> required[1..][k] == required[k + 1];
    }
  }

  /** One entry on its own. */
  ghost predicate EntryClean(o: Oracle, s: Schema, f: Field, prefix: string, defs: Defs, depth: nat)
    requires s.properties.Some?
  {
    var rule := RuleFor(s, f.name);
    && rule != Deny
    && (rule.Must? ==>
          ValueProblems(o, Resolve(rule.schema, defs, depth), f.value, QualifyField(prefix, f.name), defs, depth) == [])
  }

  /** The pass over the data is clean exactly when each entry is. */
  lemma {:induction false} FieldsIff(o: Oracle, s: Schema, fields: seq<Field>, prefix: string, defs: Defs, depth: nat, i: nat)
    requires s.properties.Some? && i <= |fields|
    ensures FieldProblems(o, s, fields, prefix, defs, depth, i) == [] <==>
      forall k :: i <= k < |fields| ==> EntryClean(o, s, fields[k], prefix, defs, depth)
    decreases |fields| - i
  {
    if i < |fields| {
      FieldsIff(o, s, fields, prefix, defs, depth, i + 1);
      assert FieldProblems(o, s, fields, prefix, defs, depth, i) == [] <==>
        EntryClean(o, s, fields[i], prefix, defs, depth) && FieldProblems(o, s, fields, prefix, defs, depth, i + 1) == [];
    }
  }

  lemma {:induction false} ElemsIff(o: Oracle, item: Schema, elems: seq<Json>, path: string, defs: Defs, depth: nat, i: nat)
    requires i <= |elems|
    ensures ElemProblems(o, item, elems, path, defs, depth, i) == [] <==>
      forall k :: i <= k < |elems| ==> ValueProblems(o, item, elems[k], ElemPath(path, k), defs, depth) == []
    decreases |elems| - i
  {
    if i < |elems| { ElemsIff(o, item, elems, path, defs, depth, i + 1); }
  }

  /** For every schema, circular references included, a value validates with no
      problem exactly when it meets the schema; so the path does not matter. */
  lemma {:induction false} ValueIff(o: Oracle, schema: Schema, val: Json, path: string, defs: Defs, depth: nat)
    ensures ValueProblems(o, schema, val, path, defs, depth) == [] <==> Accepts(o, schema, val, defs, depth)
    decreases val, 1
  {
    var s := Resolve(schema, defs, depth);
    if InEnum(o, s, val) {
      if s.kind == "object" && val.Obj? {
        ObjectIff(o, s, val.fields, path, defs, depth);
      } else if s.kind == "array" && val.Arr? {
        ArrayIff(o, s, val.elems, path, defs, depth);
      }
    }
  }

  lemma {:induction false} ArrayIff(o: Oracle, s: Schema, elems: seq<Json>, path: string, defs: Defs, depth: nat)
    ensures ArrayProblems(o, s, elems, path, defs, depth) == [] <==>
      SizeOk(o, s, elems) &&
      (s.items.Some? ==>
        forall i :: 0 <= i < |elems| ==> Accepts(o, Resolve(s.items.value, defs, depth), elems[i], defs, depth))
    decreases Arr(elems), 0
  {
    SizeIff(o, s, elems, path);
    if s.items.Some? {
      var item := Resolve(s.items.value, defs, depth);
      ElemsIff(o, item, elems, path, defs, depth, 0);
      forall i | 0 <= i < |elems|
        ensures ValueProblems(o, item, elems[i], ElemPath(path, i), defs, depth) == [] <==> Accepts(o, item, elems[i], defs, depth)
      {
        ValueIff(o, item, elems[i], ElemPath(path, i), defs, depth);
      }
    }
  }

  lemma {:induction false} ObjectIff(o: Oracle, schema: Schema, fields: seq<Field>, prefix: string, defs: Defs, depth: nat)
    ensures ObjectProblems(o, schema, fields, prefix, defs, depth) == [] <==> AcceptsFields(o, schema, fields, defs, depth)
    decreases Obj(fields), 0
  {
    var s := Resolve(schema, defs, depth);
    PresentIff(s.required, fields, prefix);
    if s.properties.Some? {
      FieldsIff(o, s, fields, prefix, defs, depth, 0);
      forall i | 0 <= i < |fields|
        ensures EntryClean(o, s, fields[i], prefix, defs, depth) <==> AcceptsEntry(o, s, fields[i], defs, depth)
      {
        var rule := RuleFor(s, fields[i].name);
        if rule.Must? {
          ValueIff(o, Resolve(rule.schema, defs, depth), fields[i].value, QualifyField(prefix, fields[i].name), defs, depth);
        }
      }
    }
  }

  /** A value validates under a reference if and only if it meets what the target
      resolves to with one hop less. */
  lemma ReferenceIff(o: Oracle, s: Schema, t: Schema, val: Json, path: string, defs: Defs, depth: nat)
    requires PointsTo(s, defs, t)
    ensures ValueProblems(o, s, val, path, defs, depth + 1) == [] <==>
      Meets(o, Resolve(t, defs, depth), val, defs, depth + 1)
  {
    ReferenceFollowed(s, defs, t, depth);
    ValueIff(o, s, val, path, defs, depth + 1);
  }

  /** Under a chain of references that ends within the depth, if and only if it
      validates under the schema at its end. */
  lemma ChainIff(o: Oracle, s: Schema, n: nat, t: Schema, val: Json, path: string, defs: Defs, depth: nat)
    requires Leads(s, defs, n, t) && n <= depth && PointsNowhere(t, defs)
    ensures ValueProblems(o, s, val, path, defs, depth) == [] <==> ValueProblems(o, t, val, path, defs, depth) == []
    ensures ValueProblems(o, s, val, path, defs, depth) == [] <==> Meets(o, t, val, defs, depth)
  {
    ChainTaken(s, defs, n, t, depth);
    NothingFollowed(t, defs, depth);
    ValueIff(o, s, val, path, defs, depth);
    ValueIff(o, t, val, path, defs, depth);
  }

  // --------------------------------------------------------- iteration order

  /** Equal up to the order of fields, at every level: what Go's decoded maps
      and slices cannot tell apart. */
  ghost predicate Alike(a: Json, b: Json)
    decreases a, 2
  {
    if a.Arr? && b.Arr? then
      |a.elems| == |b.elems| && forall i :: 0 <= i < |a.elems| ==> Alike(a.elems[i], b.elems[i])
    else if a.Obj? && b.Obj? then
      && (forall i :: 0 <= i < |a.fields| ==> InSecond(a.fields[i], b.fields))
      && (forall j :: 0 <= j < |b.fields| ==> InFirst(a, b.fields[j]))
    else a == b
  }

  /** An entry of one object has a partner in the other. */
  ghost predicate InSecond(f: Field, gs: seq<Field>)
    decreases f, 1
  {
    exists j :: 0 <= j < |gs| && AlikeField(f, gs[j])
  }

  ghost predicate InFirst(a: Json, g: Field)
    requires a.Obj?
    decreases a, 1
  {
    exists i :: 0 <= i < |a.fields| && AlikeField(a.fields[i], g)
  }

  ghost predicate AlikeField(f: Field, g: Field)
    decreases f, 0
  {
    f.name == g.name && Alike(f.value, g.value)
  }

  lemma Partners(a: Json, b: Json, i: nat, j: nat)
    requires a.Obj? && b.Obj? && i < |a.fields| && j < |b.fields| && AlikeField(a.fields[i], b.fields[j])
    ensures InSecond(a.fields[i], b.fields) && InFirst(a, b.fields[j])
  {}

  lemma {:induction false} AlikeItself(a: Json)
    ensures Alike(a, a)
    decreases a
  {
    if a.Arr? {
      forall i | 0 <= i < |a.elems| ensures Alike(a.elems[i], a.elems[i]) { AlikeItself(a.elems[i]); }
    } else if a.Obj? {
      forall i | 0 <= i < |a.fields| ensures InSecond(a.fields[i], a.fields) && InFirst(a, a.fields[i]) {
        AlikeItself(a.fields[i].value);
        Partners(a, a, i, i);
      }
    }
  }

  lemma {:induction false} AlikeTurned(a: Json, b: Json)
    requires Alike(a, b)
    ensures Alike(b, a)
    decreases a
  {
    if a.Arr? && b.Arr? {
      forall i | 0 <= i < |a.elems| ensures Alike(b.elems[i], a.elems[i]) { AlikeTurned(a.elems[i], b.elems[i]); }
    } else if a.Obj? && b.Obj? {
      forall j | 0 <= j < |b.fields| ensures InSecond(b.fields[j], a.fields) {
        assert InFirst(a, b.fields[j]);
        var i :| 0 <= i < |a.fields| && AlikeField(a.fields[i], b.fields[j]);
        AlikeTurned(a.fields[i].value, b.fields[j].value);
        Partners(b, a, j, i);
      }
      forall i | 0 <= i < |a.fields| ensures InFirst(b, a.fields[i]) {
        assert InSecond(a.fields[i], b.fields);
        var j :| 0 <= j < |b.fields| && AlikeField(a.fields[i], b.fields[j]);
        AlikeTurned(a.fields[i].value, b.fields[j].value);
        Partners(b, a, j, i);
      }
    }
  }

  /** Enum comparison and uniqueness keys do not see the order either. */
  ghost predicate Respects(o: Oracle) {
    forall a, b :: Alike(a, b) ==> o.keyOf(a) == o.keyOf(b) && forall x :: o.sameJson(x, a) == o.sameJson(x, b)
  }

  lemma AlikeUnique(o: Oracle, a: seq<Json>, b: seq<Json>)
    requires Respects(o) && |a| == |b| && forall i :: 0 <= i < |a| ==> Alike(a[i], b[i])
    ensures AllDifferent(o, a) ==> AllDifferent(o, b)
  {
    assert forall i :: 0 <= i < |a| ==> o.keyOf(a[i]) == o.keyOf(b[i]);
  }

  lemma AlikeInEnum(o: Oracle, s: Schema, a: Json, b: Json)
    requires Respects(o) && Alike(a, b) && EnumOk(o, s, a)
    ensures EnumOk(o, s, b)
  {
    if s.enum.Some? {
      var i :| 0 <= i < |s.enum.value| && o.sameJson(s.enum.value[i], a);
      assert o.sameJson(s.enum.value[i], b);
    }
  }

  lemma AlikePresent(a: Json, b: Json, required: seq<string>)
    requires a.Obj? && b.Obj? && Alike(a, b) && AllPresent(required, a.fields)
    ensures AllPresent(required, b.fields)
  {
    forall k | 0 <= k < |required| ensures Present(b.fields, required[k]) {
      assert Present(a.fields, required[k]);
      AlikeName(a, b, required[k]);
    }
  }

  lemma AlikeName(a: Json, b: Json, name: string)
    requires a.Obj? && b.Obj? && Alike(a, b) && Present(a.fields, name)
    ensures Present(b.fields, name)
  {
    var i :| 0 <= i < |a.fields| && a.fields[i].name == name;
    assert InSecond(a.fields[i], b.fields);
    var j :| 0 <= j < |b.fields| && AlikeField(a.fields[i], b.fields[j]);
    assert b.fields[j].name == name;
  }

  lemma {:induction false} AlikeAccepted(o: Oracle, schema: Schema, a: Json, b: Json, defs: Defs, depth: nat)
    requires Respects(o) && Alike(a, b) && Accepts(o, schema, a, defs, depth)
    ensures Accepts(o, schema, b, defs, depth)
    decreases a, 1
  {
    var s := Resolve(schema, defs, depth);
    AlikeInEnum(o, s, a, b);
    if s.kind == "object" {
      AlikeFields(o, s, a, b, defs, depth);
    } else if s.kind == "array" {
      AlikeUnique(o, a.elems, b.elems);
      if s.items.Some? {
        forall i | 0 <= i < |b.elems| ensures Accepts(o, Resolve(s.items.value, defs, depth), b.elems[i], defs, depth) {
          AlikeAccepted(o, Resolve(s.items.value, defs, depth), a.elems[i], b.elems[i], defs, depth);
        }
      }
    }
  }

  lemma {:induction false} AlikeFields(o: Oracle, schema: Schema, a: Json, b: Json, defs: Defs, depth: nat)
    requires Respects(o) && a.Obj? && b.Obj? && Alike(a, b) && AcceptsFields(o, schema, a.fields, defs, depth)
    ensures AcceptsFields(o, schema, b.fields, defs, depth)
    decreases a, 0
  {
    var s := Resolve(schema, defs, depth);
    AlikePresent(a, b, s.required);
    if s.properties.Some? {
      forall j | 0 <= j < |b.fields| ensures AcceptsEntry(o, s, b.fields[j], defs, depth) {
        assert InFirst(a, b.fields[j]);
        var i :| 0 <= i < |a.fields| && AlikeField(a.fields[i], b.fields[j]);
        assert AcceptsEntry(o, s, a.fields[i], defs, depth);
        AlikeEntry(o, s, a.fields[i], b.fields[j], defs, depth);
      }
    }
  }

  lemma {:induction false} AlikeEntry(o: Oracle, s: Schema, f: Field, g: Field, defs: Defs, depth: nat)
    requires s.properties.Some? && Respects(o) && AlikeField(f, g) && AcceptsEntry(o, s, f, defs, depth)
    ensures AcceptsEntry(o, s, g, defs, depth)
    decreases f
  {
    var rule := RuleFor(s, f.name);
    if rule.Must? { AlikeAccepted(o, Resolve(rule.schema, defs, depth), f.value, g.value, defs, depth); }
  }

  /** Go's map order, at whatever level, never changes whether a value validates. */
  lemma OrderDoesNotMatter(o: Oracle, schema: Schema, a: Json, b: Json, path: string, defs: Defs, depth: nat)
    requires Alike(a, b)
    ensures Respects(o) ==>
      (ValueProblems(o, schema, a, path, defs, depth) == [] <==> ValueProblems(o, schema, b, path, defs, depth) == [])
  {
    if Respects(o) {
      ValueIff(o, schema, a, path, defs, depth);
      ValueIff(o, schema, b, path, defs, depth);
      AlikeTurned(a, b);
      if Accepts(o, schema, a, defs, depth) { AlikeAccepted(o, schema, a, b, defs, depth); }
      if Accepts(o, schema, b, defs, depth) { AlikeAccepted(o, schema, b, a, defs, depth); }
    }
  }

  /** Tool input: a reference at the root is followed through up to 32 hops to the
      schema that decides, and no further. */
  lemma RootChainIff(o: Oracle, s: Schema, n: nat, t: Schema, fields: seq<Field>, defs: Defs)
    requires Leads(s, defs, n, t)
    ensures n == 32 || (n < 32 && PointsNowhere(t, defs)) ==>
      (RootProblems(o, s, Some(fields), defs) == [] <==>
        AllPresent(t.required, fields)
        && (t.properties.Some? ==> forall i :: 0 <= i < |fields| ==> AcceptsEntry(o, t, fields[i], defs, 32)))
  {
    ObjectIff(o, s, fields, "", defs, MAX_REF_DEPTH);
    if n == 32 || (n < 32 && PointsNowhere(t, defs)) { ChainTaken(s, defs, n, t, MAX_REF_DEPTH); }
  }

  /** The same for tool input as a whole. */
  lemma InputOrderDoesNotMatter(o: Oracle, schema: Schema, a: seq<Field>, b: seq<Field>, defs: Defs)
    requires Respects(o) && Alike(Obj(a), Obj(b))
    ensures RootProblems(o, schema, Some(a), defs) == [] <==> RootProblems(o, schema, Some(b), defs) == []
  {
    ObjectIff(o, schema, a, "", defs, MAX_REF_DEPTH);
    ObjectIff(o, schema, b, "", defs, MAX_REF_DEPTH);
    AlikeTurned(Obj(a), Obj(b));
    if AcceptsFields(o, schema, a, defs, MAX_REF_DEPTH) { AlikeFields(o, schema, Obj(a), Obj(b), defs, MAX_REF_DEPTH); }
    if AcceptsFields(o, schema, b, defs, MAX_REF_DEPTH) { AlikeFields(o, schema, Obj(b), Obj(a), defs, MAX_REF_DEPTH); }
  }

  /** A reordering is alike: the same entries, in whatever order. */
  lemma ReorderedIsAlike(a: seq<Field>, b: seq<Field>)
    requires forall f :: f in a <==> f in b
    ensures Alike(Obj(a), Obj(b))
  {
    forall i | 0 <= i < |a| ensures InSecond(a[i], b) {
      assert a[i] in b;
      var j :| 0 <= j < |b| && b[j] == a[i];
      AlikeItself(a[i].value);
      Partners(Obj(a), Obj(b), i, j);
    }
    forall j | 0 <= j < |b| ensures InFirst(Obj(a), b[j]) {
      assert b[j] in a;
      var i :| 0 <= i < |a| && a[i] == b[j];
      AlikeItself(b[j].value);
      Partners(Obj(a), Obj(b), i, j);
    }
  }
}
