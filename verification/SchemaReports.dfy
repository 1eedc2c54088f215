/** Which errors the validator of middleware/validation.go reports: exactly the
    violations of the resolved schema, each of its own kind and under the path
    of the place where it happened. */
module SchemaReports {
  import opened Options
  import opened Decimal
  import opened JsonSchema
  import opened SchemaMeaning

  /** A place inside a value: the way down from it. */
  datatype Step = Name(name: string) | Index(index: nat)
  type Place = seq<Step>

  /** Names are joined by dots, indices are bracketed. */
  function Into(path: string, step: Step): string {
    match step
    case Name(name) => (if path == "" then "" else path + ".") + name
    case Index(index) => path + "[" + Itoa(index) + "]"
  }

  function PathTo(path: string, place: Place): string
    decreases |place|
  {
    if place == [] then path else PathTo(Into(path, place[0]), place[1..])
  }

  // ---------------------------------------------------------------- violations

  ghost predicate OfKind(kind: string, val: Json) {
    && (kind == "string" ==> val.Str?) && (kind == "integer" ==> val.Num?) && (kind == "number" ==> val.Num?)
    && (kind == "boolean" ==> val.Bool?) && (kind == "object" ==> val.Obj?) && (kind == "array" ==> val.Arr?)
  }

  ghost predicate Integral(val: Json) { val.Num? && val.v == val.v.Floor as real }

  /** A number whose limits are looked at. */
  ghost predicate Limited(s: Schema, val: Json) {
    val.Num? && (s.kind == "number" || (s.kind == "integer" && Integral(val)))
  }

  /** What is wrong with the value itself. An enum mismatch hides all else. */
  ghost predicate Wrong(o: Oracle, s: Schema, val: Json, kind: Kind) {
    if !EnumOk(o, s, val) then kind == NotInEnum
    else match kind
      case WrongType(want) => want == s.kind && !OfKind(s.kind, val)
      case NotWhole => s.kind == "integer" && val.Num? && !Integral(val)
      case TooShort => s.kind == "string" && val.Str? && s.minLength.Some? && |val.s| < s.minLength.value
      case TooLong => s.kind == "string" && val.Str? && s.maxLength.Some? && s.maxLength.value < |val.s|
      case NoMatch => s.kind == "string" && val.Str? && s.pattern != "" && !o.matches(s.pattern, val.s)
      case TooSmall => Limited(s, val) && s.minimum.Some? && val.v < s.minimum.value
      case TooLarge => Limited(s, val) && s.maximum.Some? && s.maximum.value < val.v
      case NotAbove => Limited(s, val) && s.above.Some? && val.v <= s.above.value
      case NotBelow => Limited(s, val) && s.below.Some? && s.below.value <= val.v
      case TooFewItems => s.kind == "array" && val.Arr? && s.minItems.Some? && |val.elems| < s.minItems.value
      case TooManyItems => s.kind == "array" && val.Arr? && s.maxItems.Some? && s.maxItems.value < |val.elems|
      case _ => false
  }

  /** A violation of this kind at this place. */
  ghost predicate Violates(o: Oracle, schema: Schema, val: Json, place: Place, kind: Kind, defs: Defs, depth: nat)
    decreases val, 2
  {
    var s := Resolve(schema, defs, depth);
    if place == [] then Wrong(o, s, val, kind)
    else
      EnumOk(o, s, val)
      && ((s.kind == "object" && val.Obj? && FieldViolates(o, s, val.fields, place, kind, defs, depth))
          || (s.kind == "array" && val.Arr? && ElemViolates(o, s, val.elems, place, kind, defs, depth)))
  }

  /** A required name that is absent, an entry that is denied, or one level down. */
  ghost predicate FieldViolates(o: Oracle, schema: Schema, fields: seq<Field>, place: Place, kind: Kind, defs: Defs, depth: nat)
    requires place != []
    decreases Obj(fields), 1
  {
    var s := Resolve(schema, defs, depth);
    place[0].Name? &&
    ((place[1..] == [] && kind == MissingField && place[0].name in s.required && !Present(fields, place[0].name))
     || (s.properties.Some? && exists k :: 0 <= k < |fields| && fields[k].name == place[0].name
                                            && EntryViolates(o, s, fields[k], place[1..], kind, defs, depth)))
  }

  ghost predicate EntryViolates(o: Oracle, s: Schema, f: Field, place: Place, kind: Kind, defs: Defs, depth: nat)
    requires s.properties.Some?
    decreases f
  {
    var rule := RuleFor(s, f.name);
    || (rule == Deny && place == [] && kind == ExtraField)
    || (rule.Must? && Violates(o, Resolve(rule.schema, defs, depth), f.value, place, kind, defs, depth))
  }

  /** The first element that repeats an earlier one. */
  ghost predicate FirstRepeat(o: Oracle, elems: seq<Json>, i: nat) {
    && i < |elems| && (exists j :: 0 <= j < i && o.keyOf(elems[j]) == o.keyOf(elems[i]))
    && forall j, k :: 0 <= j < k < i ==> o.keyOf(elems[j]) != o.keyOf(elems[k])
  }

  ghost predicate ElemViolates(o: Oracle, s: Schema, elems: seq<Json>, place: Place, kind: Kind, defs: Defs, depth: nat)
    requires place != []
    decreases Arr(elems), 1
  {
    place[0].Index? && place[0].index < |elems| &&
    ((place[1..] == [] && kind == DuplicateItem && s.uniqueItems && FirstRepeat(o, elems, place[0].index))
     || (s.items.Some?
         && Violates(o, Resolve(s.items.value, defs, depth), elems[place[0].index], place[1..], kind, defs, depth)))
  }

  // ------------------------------------------------------------------- reports

  ghost predicate ReportedIn(o: Oracle, schema: Schema, val: Json, path: string, defs: Defs, depth: nat, p: Problem) {
    exists place: Place :: Violates(o, schema, val, place, p.kind, defs, depth) && p.path == PathTo(path, place)
  }

  ghost predicate FieldReported(o: Oracle, schema: Schema, fields: seq<Field>, path: string, defs: Defs, depth: nat, p: Problem) {
    exists place: Place :: place != [] && FieldViolates(o, schema, fields, place, p.kind, defs, depth)
                           && p.path == PathTo(path, place)
  }

  ghost predicate ElemReported(o: Oracle, s: Schema, elems: seq<Json>, path: string, defs: Defs, depth: nat, p: Problem) {
    exists place: Place :: place != [] && ElemViolates(o, s, elems, place, p.kind, defs, depth)
                           && p.path == PathTo(path, place)
  }

  lemma Down(path: string, step: Step, rest: Place)
    ensures ([step] + rest)[1..] == rest && PathTo(path, [step] + rest) == PathTo(Into(path, step), rest)
  {}

  // ------------------------------------------------------------------- objects

  ghost predicate Misses(fields: seq<Field>, name: string, path: string, p: Problem) {
    !Present(fields, name) && p == Problem(Into(path, Name(name)), MissingField)
  }

  ghost predicate AmongMissing(required: seq<string>, fields: seq<Field>, path: string, p: Problem) {
    exists k :: 0 <= k < |required| && Misses(fields, required[k], path, p)
  }

  lemma AmongMissingStep(required: seq<string>, fields: seq<Field>, path: string, p: Problem)
    requires required != []
    ensures AmongMissing(required, fields, path, p) <==>
      Misses(fields, required[0], path, p) || AmongMissing(required[1..], fields, path, p)
  {
    assert forall k :: 1 <= k < |required| ==> required[k] == required[1..][k - 1];
    assert forall k :: 0 <= k < |required[1..]| ==> required[1..][k] == required[k + 1];
  }

  lemma MissingStep(required: seq<string>, fields: seq<Field>, path: string, p: Problem)
    requires required != []
    ensures p in MissingProblems(required, Some(fields), path) <==>
      Misses(fields, required[0], path, p) || p in MissingProblems(required[1..], Some(fields), path)
  {
    assert QualifyField(path, required[0]) == Into(path, Name(required[0]));
  }

  lemma {:induction false} MissingReports(required: seq<string>, fields: seq<Field>, path: string, p: Problem)
    ensures p in MissingProblems(required, Some(fields), path) <==> AmongMissing(required, fields, path, p)
  {
    if required != [] {
      MissingReports(required[1..], fields, path, p);
      MissingStep(required, fields, path, p);
      AmongMissingStep(required, fields, path, p);
    }
  }

  /** Some entry from i on has this error. */
  ghost predicate AmongEntries(o: Oracle, s: Schema, fields: seq<Field>, path: string, defs: Defs, depth: nat, i: nat, p: Problem)
    requires s.properties.Some?
  {
    exists k :: i <= k < |fields| && EntryHas(o, s, fields[k], path, defs, depth, p)
  }

  ghost predicate EntryHas(o: Oracle, s: Schema, f: Field, path: string, defs: Defs, depth: nat, p: Problem)
    requires s.properties.Some?
  {
    p in EntryProblems(o, s, f, path, defs, depth)
  }

  lemma AmongStep(o: Oracle, s: Schema, fields: seq<Field>, path: string, defs: Defs, depth: nat, i: nat, p: Problem)
    requires s.properties.Some? && i < |fields|
    ensures AmongEntries(o, s, fields, path, defs, depth, i, p) <==>
      EntryHas(o, s, fields[i], path, defs, depth, p) || AmongEntries(o, s, fields, path, defs, depth, i + 1, p)
  {}

  lemma InConcat(a: seq<Problem>, b: seq<Problem>, p: Problem)
    ensures p in a + b <==> p in a || p in b
  {}

  lemma FieldsStep(o: Oracle, s: Schema, fields: seq<Field>, path: string, defs: Defs, depth: nat, i: nat, p: Problem)
    requires s.properties.Some? && i < |fields|
    ensures p in FieldProblems(o, s, fields, path, defs, depth, i) <==>
      EntryHas(o, s, fields[i], path, defs, depth, p) || p in FieldProblems(o, s, fields, path, defs, depth, i + 1)
  {
    InConcat(EntryProblems(o, s, fields[i], path, defs, depth), FieldProblems(o, s, fields, path, defs, depth, i + 1), p);
  }

  lemma {:induction false} FieldsReport(o: Oracle, s: Schema, fields: seq<Field>, path: string, defs: Defs, depth: nat, i: nat, p: Problem)
    requires s.properties.Some? && i <= |fields|
    ensures p in FieldProblems(o, s, fields, path, defs, depth, i) <==> AmongEntries(o, s, fields, path, defs, depth, i, p)
    decreases |fields| - i
  {
    if i < |fields| {
      FieldsReport(o, s, fields, path, defs, depth, i + 1, p);
      FieldsStep(o, s, fields, path, defs, depth, i, p);
      AmongStep(o, s, fields, path, defs, depth, i, p);
    }
  }

  ghost predicate EntryReported(o: Oracle, s: Schema, f: Field, path: string, defs: Defs, depth: nat, p: Problem)
    requires s.properties.Some?
  {
    exists place: Place :: EntryViolates(o, s, f, place, p.kind, defs, depth) && p.path == PathTo(Into(path, Name(f.name)), place)
  }

  lemma DeniedEntry(o: Oracle, s: Schema, f: Field, path: string, defs: Defs, depth: nat, p: Problem)
    requires s.properties.Some? && RuleFor(s, f.name) == Deny
    ensures EntryHas(o, s, f, path, defs, depth, p) <==> EntryReported(o, s, f, path, defs, depth, p)
  {
    var here := Into(path, Name(f.name));
    assert QualifyField(path, f.name) == here && PathTo(here, []) == here;
    if p == Problem(here, ExtraField) { assert EntryViolates(o, s, f, [], p.kind, defs, depth); }
  }

  lemma CheckedEntry(o: Oracle, s: Schema, f: Field, path: string, defs: Defs, depth: nat, p: Problem)
    requires s.properties.Some? && RuleFor(s, f.name).Must?
    requires var sub, here := Resolve(RuleFor(s, f.name).schema, defs, depth), Into(path, Name(f.name));
      p in ValueProblems(o, sub, f.value, here, defs, depth) <==> ReportedIn(o, sub, f.value, here, defs, depth, p)
    ensures EntryHas(o, s, f, path, defs, depth, p) <==> EntryReported(o, s, f, path, defs, depth, p)
  {
    var sub, here := Resolve(RuleFor(s, f.name).schema, defs, depth), Into(path, Name(f.name));
    assert QualifyField(path, f.name) == here;
    if ReportedIn(o, sub, f.value, here, defs, depth, p) {
      var place: Place :| Violates(o, sub, f.value, place, p.kind, defs, depth) && p.path == PathTo(here, place);
      assert EntryViolates(o, s, f, place, p.kind, defs, depth);
    }
    if EntryReported(o, s, f, path, defs, depth, p) {
      var place: Place :| EntryViolates(o, s, f, place, p.kind, defs, depth) && p.path == PathTo(here, place);
      assert Violates(o, sub, f.value, place, p.kind, defs, depth);
    }
  }

  lemma {:induction false} EntryReports(o: Oracle, s: Schema, f: Field, path: string, defs: Defs, depth: nat, p: Problem)
    requires s.properties.Some?
    ensures EntryHas(o, s, f, path, defs, depth, p) <==> EntryReported(o, s, f, path, defs, depth, p)
    decreases f
  {
    var rule := RuleFor(s, f.name);
    if rule == Deny {
      DeniedEntry(o, s, f, path, defs, depth, p);
    } else if rule.Must? {
      ValueReports(o, Resolve(rule.schema, defs, depth), f.value, Into(path, Name(f.name)), defs, depth, p);
      CheckedEntry(o, s, f, path, defs, depth, p);
    }
  }

  lemma MissingPlace(o: Oracle, schema: Schema, fields: seq<Field>, path: string, defs: Defs, depth: nat, p: Problem)
    requires p in MissingProblems(Resolve(schema, defs, depth).required, Some(fields), path)
    ensures FieldReported(o, schema, fields, path, defs, depth, p)
  {
    var s := Resolve(schema, defs, depth);
    MissingReports(s.required, fields, path, p);
    var k :| 0 <= k < |s.required| && Misses(fields, s.required[k], path, p);
    var place: Place := [Name(s.required[k])] + [];
    Down(path, Name(s.required[k]), []);
    assert FieldViolates(o, schema, fields, place, p.kind, defs, depth);
  }

  lemma EntryPlace(o: Oracle, schema: Schema, fields: seq<Field>, path: string, defs: Defs, depth: nat, p: Problem, k: nat, place: Place)
    requires Resolve(schema, defs, depth).properties.Some? && k < |fields|
    requires EntryViolates(o, Resolve(schema, defs, depth), fields[k], place, p.kind, defs, depth)
    requires p.path == PathTo(Into(path, Name(fields[k].name)), place)
    ensures FieldReported(o, schema, fields, path, defs, depth, p)
  {
    var full: Place := [Name(fields[k].name)] + place;
    Down(path, Name(fields[k].name), place);
    assert FieldViolates(o, schema, fields, full, p.kind, defs, depth);
  }

  lemma {:induction false} ObjectReports(o: Oracle, schema: Schema, fields: seq<Field>, path: string, defs: Defs, depth: nat, p: Problem)
    ensures p in ObjectProblems(o, schema, fields, path, defs, depth) <==> FieldReported(o, schema, fields, path, defs, depth, p)
    decreases Obj(fields), 1
  {
    if p in ObjectProblems(o, schema, fields, path, defs, depth) { ObjectReportsOnly(o, schema, fields, path, defs, depth, p); }
    if FieldReported(o, schema, fields, path, defs, depth, p) { ObjectReportsAll(o, schema, fields, path, defs, depth, p); }
  }

  lemma {:induction false} ObjectReportsOnly(o: Oracle, schema: Schema, fields: seq<Field>, path: string, defs: Defs, depth: nat, p: Problem)
    requires p in ObjectProblems(o, schema, fields, path, defs, depth)
    ensures FieldReported(o, schema, fields, path, defs, depth, p)
    decreases Obj(fields), 0
  {
    var s := Resolve(schema, defs, depth);
    if p in MissingProblems(s.required, Some(fields), path) {
      MissingPlace(o, schema, fields, path, defs, depth, p);
    } else {
      FieldsReport(o, s, fields, path, defs, depth, 0, p);
      var k :| 0 <= k < |fields| && EntryHas(o, s, fields[k], path, defs, depth, p);
      EntryReports(o, s, fields[k], path, defs, depth, p);
      var place: Place :| EntryViolates(o, s, fields[k], place, p.kind, defs, depth)
                          && p.path == PathTo(Into(path, Name(fields[k].name)), place);
      EntryPlace(o, schema, fields, path, defs, depth, p, k, place);
    }
  }

  lemma {:induction false} ObjectReportsAll(o: Oracle, schema: Schema, fields: seq<Field>, path: string, defs: Defs, depth: nat, p: Problem)
    requires FieldReported(o, schema, fields, path, defs, depth, p)
    ensures p in ObjectProblems(o, schema, fields, path, defs, depth)
    decreases Obj(fields), 0
  {
    var s := Resolve(schema, defs, depth);
    var place: Place :| place != [] && FieldViolates(o, schema, fields, place, p.kind, defs, depth) && p.path == PathTo(path, place);
    var name, rest := place[0].name, place[1..];
    if rest == [] && p.kind == MissingField && name in s.required && !Present(fields, name) {
      var k :| 0 <= k < |s.required| && s.required[k] == name;
      assert PathTo(Into(path, place[0]), rest) == Into(path, Name(s.required[k]));
      assert Misses(fields, s.required[k], path, p);
      MissingReports(s.required, fields, path, p);
    } else {
      var k :| 0 <= k < |fields| && fields[k].name == name && EntryViolates(o, s, fields[k], rest, p.kind, defs, depth);
      assert p.path == PathTo(Into(path, Name(fields[k].name)), rest);
      EntryReports(o, s, fields[k], path, defs, depth, p);
      FieldsReport(o, s, fields, path, defs, depth, 0, p);
    }
  }

  // -------------------------------------------------------------------- arrays

  /** The scan finds the first repetition. */
  lemma {:induction false} DuplicateIs(o: Oracle, elems: seq<Json>, seen: set<string>, i: nat, n: nat)
    requires i <= |elems| && seen == set k | 0 <= k < i :: o.keyOf(elems[k])
    requires forall j, k :: 0 <= j < k < i ==> o.keyOf(elems[j]) != o.keyOf(elems[k])
    ensures FirstDuplicate(o, elems, seen, i) == Some(n) <==> FirstRepeat(o, elems, n)
    decreases |elems| - i
  {
    if i < |elems| {
      if o.keyOf(elems[i]) in seen {
        var j :| 0 <= j < i && o.keyOf(elems[j]) == o.keyOf(elems[i]);
        assert FirstRepeat(o, elems, i);
        assert n < i ==> !FirstRepeat(o, elems, n);
      } else {
        DuplicateIs(o, elems, seen + {o.keyOf(elems[i])}, i + 1, n);
      }
    }
  }

  lemma {:induction false} ElemsReport(o: Oracle, item: Schema, elems: seq<Json>, path: string, defs: Defs, depth: nat, i: nat, p: Problem)
    requires i <= |elems|
    ensures p in ElemProblems(o, item, elems, path, defs, depth, i) <==>
      exists k :: i <= k < |elems| && p in ValueProblems(o, item, elems[k], ElemPath(path, k), defs, depth)
    decreases |elems| - i
  {
    if i < |elems| { ElemsReport(o, item, elems, path, defs, depth, i + 1, p); }
  }

  /** Errors of an array below the array itself. */
  function InnerProblems(o: Oracle, s: Schema, elems: seq<Json>, path: string, defs: Defs, depth: nat): seq<Problem> {
    (var dup := FirstDuplicate(o, elems, {}, 0);
     if s.uniqueItems && dup.Some? then [Problem(ElemPath(path, dup.value), DuplicateItem)] else [])
    + if s.items.None? then []
      else ElemProblems(o, Resolve(s.items.value, defs, depth), elems, path, defs, depth, 0)
  }

  lemma ElemPlace(o: Oracle, s: Schema, elems: seq<Json>, path: string, defs: Defs, depth: nat, p: Problem, k: nat, rest: Place)
    requires k < |elems| && p.path == PathTo(Into(path, Index(k)), rest)
    requires || (rest == [] && p.kind == DuplicateItem && s.uniqueItems && FirstRepeat(o, elems, k))
             || (s.items.Some? && Violates(o, Resolve(s.items.value, defs, depth), elems[k], rest, p.kind, defs, depth))
    ensures ElemReported(o, s, elems, path, defs, depth, p)
  {
    var place: Place := [Index(k)] + rest;
    Down(path, Index(k), rest);
    assert ElemViolates(o, s, elems, place, p.kind, defs, depth);
  }

  lemma {:induction false} InnerReports(o: Oracle, s: Schema, elems: seq<Json>, path: string, defs: Defs, depth: nat, p: Problem)
    ensures p in InnerProblems(o, s, elems, path, defs, depth) <==> ElemReported(o, s, elems, path, defs, depth, p)
    decreases Arr(elems), 1
  {
    if p in InnerProblems(o, s, elems, path, defs, depth) { InnerReportsOnly(o, s, elems, path, defs, depth, p); }
    if ElemReported(o, s, elems, path, defs, depth, p) { InnerReportsAll(o, s, elems, path, defs, depth, p); }
  }

  lemma {:induction false} InnerReportsOnly(o: Oracle, s: Schema, elems: seq<Json>, path: string, defs: Defs, depth: nat, p: Problem)
    requires p in InnerProblems(o, s, elems, path, defs, depth)
    ensures ElemReported(o, s, elems, path, defs, depth, p)
    decreases Arr(elems), 0
  {
    var dup := FirstDuplicate(o, elems, {}, 0);
    if s.uniqueItems && dup.Some? && p == Problem(ElemPath(path, dup.value), DuplicateItem) {
      DuplicateIs(o, elems, {}, 0, dup.value);
      ElemPlace(o, s, elems, path, defs, depth, p, dup.value, []);
    } else {
      var item := Resolve(s.items.value, defs, depth);
      ElemsReport(o, item, elems, path, defs, depth, 0, p);
      var k :| 0 <= k < |elems| && p in ValueProblems(o, item, elems[k], ElemPath(path, k), defs, depth);
      ValueReports(o, item, elems[k], ElemPath(path, k), defs, depth, p);
      var rest: Place :| Violates(o, item, elems[k], rest, p.kind, defs, depth) && p.path == PathTo(ElemPath(path, k), rest);
      ElemPlace(o, s, elems, path, defs, depth, p, k, rest);
    }
  }

  lemma {:induction false} InnerReportsAll(o: Oracle, s: Schema, elems: seq<Json>, path: string, defs: Defs, depth: nat, p: Problem)
    requires ElemReported(o, s, elems, path, defs, depth, p)
    ensures p in InnerProblems(o, s, elems, path, defs, depth)
    decreases Arr(elems), 0
  {
    var place: Place :| place != [] && ElemViolates(o, s, elems, place, p.kind, defs, depth) && p.path == PathTo(path, place);
    var k, rest := place[0].index, place[1..];
    if rest == [] && p.kind == DuplicateItem && s.uniqueItems && FirstRepeat(o, elems, k) {
      assert PathTo(Into(path, Index(k)), rest) == ElemPath(path, k);
      RepeatReported(o, s, elems, path, defs, depth, p, k);
    } else {
      var item := Resolve(s.items.value, defs, depth);
      assert p.path == PathTo(ElemPath(path, k), rest);
      ValueReports(o, item, elems[k], ElemPath(path, k), defs, depth, p);
      ElementReported(o, s, elems, path, defs, depth, p, k);
    }
  }

  lemma RepeatReported(o: Oracle, s: Schema, elems: seq<Json>, path: string, defs: Defs, depth: nat, p: Problem, k: nat)
    requires s.uniqueItems && FirstRepeat(o, elems, k) && p == Problem(ElemPath(path, k), DuplicateItem)
    ensures p in InnerProblems(o, s, elems, path, defs, depth)
  {
    DuplicateIs(o, elems, {}, 0, k);
  }

  lemma ElementReported(o: Oracle, s: Schema, elems: seq<Json>, path: string, defs: Defs, depth: nat, p: Problem, k: nat)
    requires s.items.Some? && k < |elems|
    requires p in ValueProblems(o, Resolve(s.items.value, defs, depth), elems[k], ElemPath(path, k), defs, depth)
    ensures p in InnerProblems(o, s, elems, path, defs, depth)
  {
    ElemsReport(o, Resolve(s.items.value, defs, depth), elems, path, defs, depth, 0, p);
  }

  // -------------------------------------------------------------------- values

  /** The errors at the value itself. */
  function HereProblems(o: Oracle, s: Schema, val: Json, path: string): seq<Problem> {
    if !InEnum(o, s, val) then [Problem(path, NotInEnum)]
    else if s.kind == "string" then
      if val.Str? then LengthProblems(o, s, val.s, path) else [Problem(path, WrongType(s.kind))]
    else if s.kind == "integer" then
      if !val.Num? then [Problem(path, WrongType(s.kind))]
      else if val.v != val.v.Floor as real then [Problem(path, NotWhole)] else NumberProblems(s, val.v, path)
    else if s.kind == "number" then
      if val.Num? then NumberProblems(s, val.v, path) else [Problem(path, WrongType(s.kind))]
    else if s.kind == "boolean" then if val.Bool? then [] else [Problem(path, WrongType(s.kind))]
    else if s.kind == "object" then if val.Obj? then [] else [Problem(path, WrongType(s.kind))]
    else if s.kind == "array" then
      if val.Arr? then CountProblems(s, |val.elems|, path) else [Problem(path, WrongType(s.kind))]
    else []
  }

  /** The errors below it. */
  function BelowProblems(o: Oracle, s: Schema, val: Json, path: string, defs: Defs, depth: nat): seq<Problem> {
    if !InEnum(o, s, val) then []
    else if s.kind == "object" && val.Obj? then ObjectProblems(o, s, val.fields, path, defs, depth)
    else if s.kind == "array" && val.Arr? then InnerProblems(o, s, val.elems, path, defs, depth)
    else []
  }

  /** The errors about the number of elements. */
  function CountProblems(s: Schema, n: nat, path: string): seq<Problem> {
    When(s.minItems.Some? && n < s.minItems.value, path, TooFewItems)
    + When(s.maxItems.Some? && n > s.maxItems.value, path, TooManyItems)
  }

  lemma ArrayTogether(o: Oracle, s: Schema, elems: seq<Json>, path: string, defs: Defs, depth: nat)
    ensures ArrayProblems(o, s, elems, path, defs, depth) ==
      CountProblems(s, |elems|, path) + InnerProblems(o, s, elems, path, defs, depth)
  {
    var dup := FirstDuplicate(o, elems, {}, 0);
    var repeated := if s.uniqueItems && dup.Some? then [Problem(ElemPath(path, dup.value), DuplicateItem)] else [];
    var inner := if s.items.None? then []
                 else ElemProblems(o, Resolve(s.items.value, defs, depth), elems, path, defs, depth, 0);
    assert (CountProblems(s, |elems|, path) + repeated) + inner == CountProblems(s, |elems|, path) + (repeated + inner);
  }

  lemma Together(o: Oracle, schema: Schema, val: Json, path: string, defs: Defs, depth: nat)
    ensures var s := Resolve(schema, defs, depth);
      ValueProblems(o, schema, val, path, defs, depth) == HereProblems(o, s, val, path) + BelowProblems(o, s, val, path, defs, depth)
  {
    var s := Resolve(schema, defs, depth);
    if InEnum(o, s, val) && s.kind == "array" && val.Arr? {
      ArrayTogether(o, s, val.elems, path, defs, depth);
    } else if InEnum(o, s, val) && s.kind == "object" && val.Obj? {
      var below := ObjectProblems(o, s, val.fields, path, defs, depth);
      assert [] + below == below;
    } else {
      assert HereProblems(o, s, val, path) + [] == HereProblems(o, s, val, path);
    }
  }

  lemma TextReports(o: Oracle, s: Schema, text: string, path: string, p: Problem)
    ensures p in LengthProblems(o, s, text, path) <==>
      p.path == path &&
      ((p.kind == TooShort && s.minLength.Some? && |text| < s.minLength.value)
       || (p.kind == TooLong && s.maxLength.Some? && s.maxLength.value < |text|)
       || (p.kind == NoMatch && s.pattern != "" && !o.matches(s.pattern, text)))
  {}

  lemma NumberReports(s: Schema, n: real, path: string, p: Problem)
    ensures p in NumberProblems(s, n, path) <==>
      p.path == path &&
      ((p.kind == TooSmall && s.minimum.Some? && n < s.minimum.value)
       || (p.kind == TooLarge && s.maximum.Some? && s.maximum.value < n)
       || (p.kind == NotAbove && s.above.Some? && n <= s.above.value)
       || (p.kind == NotBelow && s.below.Some? && s.below.value <= n))
  {}

  lemma CountReports(s: Schema, n: nat, path: string, p: Problem)
    ensures p in CountProblems(s, n, path) <==>
      p.path == path &&
      ((p.kind == TooFewItems && s.minItems.Some? && n < s.minItems.value)
       || (p.kind == TooManyItems && s.maxItems.Some? && s.maxItems.value < n))
  {}

  lemma OneReport(path: string, kind: Kind, p: Problem)
    ensures p in [Problem(path, kind)] <==> p.kind == kind && p.path == path
  {}

  lemma StringReports(o: Oracle, s: Schema, val: Json, path: string, p: Problem)
    requires EnumOk(o, s, val) && s.kind == "string" && val.Str?
    ensures p in HereProblems(o, s, val, path) <==> Wrong(o, s, val, p.kind) && p.path == path
  {
    assert HereProblems(o, s, val, path) == LengthProblems(o, s, val.s, path);
    TextReports(o, s, val.s, path, p);
  }

  lemma LimitReports(o: Oracle, s: Schema, val: Json, path: string, p: Problem)
    requires EnumOk(o, s, val) && Limited(s, val)
    ensures p in HereProblems(o, s, val, path) <==> Wrong(o, s, val, p.kind) && p.path == path
  {
    assert HereProblems(o, s, val, path) == NumberProblems(s, val.v, path);
    NumberReports(s, val.v, path, p);
  }

  lemma ArrayReports(o: Oracle, s: Schema, val: Json, path: string, p: Problem)
    requires EnumOk(o, s, val) && s.kind == "array" && val.Arr?
    ensures p in HereProblems(o, s, val, path) <==> Wrong(o, s, val, p.kind) && p.path == path
  {
    assert HereProblems(o, s, val, path) == CountProblems(s, |val.elems|, path);
    CountReports(s, |val.elems|, path, p);
  }

  lemma RightKindReports(o: Oracle, s: Schema, val: Json, path: string, p: Problem)
    requires EnumOk(o, s, val) && OfKind(s.kind, val)
    ensures p in HereProblems(o, s, val, path) <==> Wrong(o, s, val, p.kind) && p.path == path
  {
    if s.kind == "string" {
      StringReports(o, s, val, path, p);
    } else if s.kind == "array" {
      ArrayReports(o, s, val, path, p);
    } else if Limited(s, val) {
      LimitReports(o, s, val, path, p);
    } else if s.kind == "integer" {
      OneReport(path, NotWhole, p);
    } else {
      assert HereProblems(o, s, val, path) == [];
    }
  }

  lemma WrongKindReports(o: Oracle, s: Schema, val: Json, path: string)
    requires EnumOk(o, s, val) && !OfKind(s.kind, val)
    ensures HereProblems(o, s, val, path) == [Problem(path, WrongType(s.kind))]
    ensures forall kind :: Wrong(o, s, val, kind) <==> kind == WrongType(s.kind)
  {}

  lemma HereReports(o: Oracle, s: Schema, val: Json, path: string, p: Problem)
    ensures p in HereProblems(o, s, val, path) <==> Wrong(o, s, val, p.kind) && p.path == path
  {
    if !EnumOk(o, s, val) {
      OneReport(path, NotInEnum, p);
    } else if OfKind(s.kind, val) {
      RightKindReports(o, s, val, path, p);
    } else {
      WrongKindReports(o, s, val, path);
      OneReport(path, WrongType(s.kind), p);
    }
  }

  ghost predicate BelowReported(o: Oracle, schema: Schema, val: Json, path: string, defs: Defs, depth: nat, p: Problem) {
    exists place: Place :: place != [] && Violates(o, schema, val, place, p.kind, defs, depth) && p.path == PathTo(path, place)
  }

  lemma BelowObject(o: Oracle, schema: Schema, val: Json, path: string, defs: Defs, depth: nat, p: Problem)
    requires var s := Resolve(schema, defs, depth); EnumOk(o, s, val) && s.kind == "object" && val.Obj?
    ensures BelowReported(o, schema, val, path, defs, depth, p) <==>
      FieldReported(o, Resolve(schema, defs, depth), val.fields, path, defs, depth, p)
  {
    var s := Resolve(schema, defs, depth);
    if BelowReported(o, schema, val, path, defs, depth, p) {
      var place: Place :| place != [] && Violates(o, schema, val, place, p.kind, defs, depth) && p.path == PathTo(path, place);
      assert FieldViolates(o, s, val.fields, place, p.kind, defs, depth);
    }
    if FieldReported(o, s, val.fields, path, defs, depth, p) {
      var place: Place :| place != [] && FieldViolates(o, s, val.fields, place, p.kind, defs, depth) && p.path == PathTo(path, place);
      assert Violates(o, schema, val, place, p.kind, defs, depth);
    }
  }

  lemma BelowArray(o: Oracle, schema: Schema, val: Json, path: string, defs: Defs, depth: nat, p: Problem)
    requires var s := Resolve(schema, defs, depth); EnumOk(o, s, val) && s.kind == "array" && val.Arr?
    ensures BelowReported(o, schema, val, path, defs, depth, p) <==>
      ElemReported(o, Resolve(schema, defs, depth), val.elems, path, defs, depth, p)
  {
    var s := Resolve(schema, defs, depth);
    if BelowReported(o, schema, val, path, defs, depth, p) {
      var place: Place :| place != [] && Violates(o, schema, val, place, p.kind, defs, depth) && p.path == PathTo(path, place);
      assert ElemViolates(o, s, val.elems, place, p.kind, defs, depth);
    }
    if ElemReported(o, s, val.elems, path, defs, depth, p) {
      var place: Place :| place != [] && ElemViolates(o, s, val.elems, place, p.kind, defs, depth) && p.path == PathTo(path, place);
      assert Violates(o, schema, val, place, p.kind, defs, depth);
    }
  }

  lemma {:induction false} BelowReports(o: Oracle, schema: Schema, val: Json, path: string, defs: Defs, depth: nat, p: Problem)
    ensures p in BelowProblems(o, Resolve(schema, defs, depth), val, path, defs, depth) <==>
      BelowReported(o, schema, val, path, defs, depth, p)
    decreases val, 2
  {
    var s := Resolve(schema, defs, depth);
    if EnumOk(o, s, val) {
      if s.kind == "object" && val.Obj? {
        BelowObject(o, schema, val, path, defs, depth, p);
        ObjectReports(o, s, val.fields, path, defs, depth, p);
      } else if s.kind == "array" && val.Arr? {
        BelowArray(o, schema, val, path, defs, depth, p);
        InnerReports(o, s, val.elems, path, defs, depth, p);
      }
    }
  }

  lemma HereOrBelow(o: Oracle, schema: Schema, val: Json, path: string, defs: Defs, depth: nat, p: Problem)
    ensures ReportedIn(o, schema, val, path, defs, depth, p) <==>
      (Wrong(o, Resolve(schema, defs, depth), val, p.kind) && p.path == path)
      || BelowReported(o, schema, val, path, defs, depth, p)
  {
    assert PathTo(path, []) == path;
    if Wrong(o, Resolve(schema, defs, depth), val, p.kind) && p.path == path {
      assert Violates(o, schema, val, [], p.kind, defs, depth);
    }
    if BelowReported(o, schema, val, path, defs, depth, p) {
      var place: Place :| place != [] && Violates(o, schema, val, place, p.kind, defs, depth) && p.path == PathTo(path, place);
    }
    if ReportedIn(o, schema, val, path, defs, depth, p) {
      var place: Place :| Violates(o, schema, val, place, p.kind, defs, depth) && p.path == PathTo(path, place);
      if place != [] { assert BelowReported(o, schema, val, path, defs, depth, p); }
    }
  }

  /** An error is reported if and only if the schema is violated in that way, at
      the place whose path it names. */
  lemma {:induction false} ValueReports(o: Oracle, schema: Schema, val: Json, path: string, defs: Defs, depth: nat, p: Problem)
    ensures p in ValueProblems(o, schema, val, path, defs, depth) <==> ReportedIn(o, schema, val, path, defs, depth, p)
    decreases val, 3
  {
    var s := Resolve(schema, defs, depth);
    Together(o, schema, val, path, defs, depth);
    InConcat(HereProblems(o, s, val, path), BelowProblems(o, s, val, path, defs, depth), p);
    HereReports(o, s, val, path, p);
    BelowReports(o, schema, val, path, defs, depth, p);
    HereOrBelow(o, schema, val, path, defs, depth, p);
  }
}
