/** Schema validation of tool input (middleware/validation.go). JSON objects
    are sequences of fields: their order stands for Go's arbitrary map order,
    so statements over all objects are statements over all iteration orders.
    A schema keyword whose value has an unusable type counts as absent, as in
    the source. Equality for enum, regular expressions and canonical keys for
    uniqueItems are parameters. */
module JsonSchema {
  import opened Options
  import opened Decimal

  datatype Json = Null | Bool(b: bool) | Num(v: real) | Str(s: string) | Arr(elems: seq<Json>) | Obj(fields: seq<Field>)
  datatype Field = Field(name: string, value: Json)

  datatype Additional = NoRule | Permit | Deny | Must(schema: Schema)
  datatype Prop = Prop(name: string, schema: Option<Schema>)

  datatype Schema = Schema(
    kind: string, ref: string, enum: Option<seq<Json>>,
    required: seq<string>, properties: Option<seq<Prop>>, additional: Additional,
    items: Option<Schema>, minItems: Option<int>, maxItems: Option<int>, uniqueItems: bool,
    minLength: Option<int>, maxLength: Option<int>, pattern: string,
    minimum: Option<real>, maximum: Option<real>, above: Option<real>, below: Option<real>)

  /** The empty schema: no keyword. */
  function AnySchema(): Schema {
    Schema("", "", None, [], None, NoRule, None, None, None, false, None, None, "", None, None, None, None)
  }

  datatype Oracle = Oracle(sameJson: (Json, Json) -> bool, matches: (string, string) -> bool, keyOf: Json -> string)

  datatype Kind =
    | MissingField | ExtraField | WrongType(want: string) | NotWhole | NotInEnum
    | TooShort | TooLong | NoMatch | TooSmall | TooLarge | NotAbove | NotBelow
    | TooFewItems | TooManyItems | DuplicateItem
  datatype Problem = Problem(path: string, kind: Kind)

  type Defs = Option<seq<Prop>>

  const MAX_REF_DEPTH: nat := 32

  // -------------------------------------------------------------- references

  function FindProp(props: seq<Prop>, name: string): Option<Prop> {
    if props == [] then None else if props[0].name == name then Some(props[0]) else FindProp(props[1..], name)
  }

  const REF_PREFIX: string := "#/$defs/"

  function ResolveRef(ref: string, defs: Defs): Option<Schema> {
    if !(REF_PREFIX <= ref) || ref == REF_PREFIX || defs.None? then None
    else
      var found := FindProp(defs.value, ref[|REF_PREFIX|..]);
      if found.None? then None else found.value.schema
  }

  /** Follows at most `depth` reference hops. */
  function Resolve(schema: Schema, defs: Defs, depth: nat): Schema
    decreases depth
  {
    if depth == 0 || schema.ref == "" || ResolveRef(schema.ref, defs).None? then schema
    else Resolve(ResolveRef(schema.ref, defs).value, defs, depth - 1)
  }

  method ResolveSchema(schema0: Schema, defs: Defs, depth0: nat) returns (schema: Schema)
    ensures schema == Resolve(schema0, defs, depth0)
  {
    schema := schema0;
    var depth := depth0;
    while depth > 0
      invariant Resolve(schema, defs, depth) == Resolve(schema0, defs, depth0)
    {
      if schema.ref == "" { return; }
      var resolved := ResolveRef(schema.ref, defs);
      if resolved.None? { return; }
      schema := resolved.value;
      depth := depth - 1;
    }
  }

  // ------------------------------------------------------------- constraints

  function When(bad: bool, path: string, kind: Kind): seq<Problem> { if bad then [Problem(path, kind)] else [] }

  function LengthProblems(o: Oracle, s: Schema, text: string, path: string): seq<Problem> {
    When(s.minLength.Some? && |text| < s.minLength.value, path, TooShort)
    + When(s.maxLength.Some? && |text| > s.maxLength.value, path, TooLong)
    + When(s.pattern != "" && !o.matches(s.pattern, text), path, NoMatch)
  }

  function NumberProblems(s: Schema, n: real, path: string): seq<Problem> {
    When(s.minimum.Some? && n < s.minimum.value, path, TooSmall)
    + When(s.maximum.Some? && n > s.maximum.value, path, TooLarge)
    + When(s.above.Some? && n <= s.above.value, path, NotAbove)
    + When(s.below.Some? && n >= s.below.value, path, NotBelow)
  }

  predicate InEnum(o: Oracle, s: Schema, val: Json) {
    s.enum.None? || exists i :: 0 <= i < |s.enum.value| && o.sameJson(s.enum.value[i], val)
  }

  function QualifyField(prefix: string, field: string): string {
    if prefix == "" then field else prefix + "." + field
  }

  function ElemPath(path: string, i: nat): string { path + "[" + Itoa(i) + "]" }

  /** The first element whose key was seen before, if any. */
  function FirstDuplicate(o: Oracle, elems: seq<Json>, seen: set<string>, i: nat): Option<nat>
    requires i <= |elems|
    decreases |elems| - i
  {
    if i == |elems| then None
    else if o.keyOf(elems[i]) in seen then Some(i)
    else FirstDuplicate(o, elems, seen + {o.keyOf(elems[i])}, i + 1)
  }

  function SizeProblems(o: Oracle, s: Schema, elems: seq<Json>, path: string): seq<Problem> {
    When(s.minItems.Some? && |elems| < s.minItems.value, path, TooFewItems)
    + When(s.maxItems.Some? && |elems| > s.maxItems.value, path, TooManyItems)
    + (var dup := FirstDuplicate(o, elems, {}, 0);
       if s.uniqueItems && dup.Some? then [Problem(ElemPath(path, dup.value), DuplicateItem)] else [])
  }

  function HasField(fields: seq<Field>, name: string): bool {
    exists i :: 0 <= i < |fields| && fields[i].name == name
  }

  /** One problem for each required field that is absent; all of them when there
      is no object at all. */
  function MissingProblems(required: seq<string>, data: Option<seq<Field>>, prefix: string): seq<Problem> {
    if required == [] then []
    else When(data.None? || !HasField(data.value, required[0]), QualifyField(prefix, required[0]), MissingField)
         + MissingProblems(required[1..], data, prefix)
  }

  // --------------------------------------------------------------- validators
  // Every recursive call is on a strictly smaller JSON value or later in the
  // same one, so validation ends on every schema, circular references included.

  function ObjectProblems(o: Oracle, schema: Schema, fields: seq<Field>, prefix: string, defs: Defs, depth: nat): seq<Problem>
    decreases Obj(fields), 1, 0
  {
    var s := Resolve(schema, defs, depth);
    MissingProblems(s.required, Some(fields), prefix)
    + if s.properties.None? then [] else FieldProblems(o, s, fields, prefix, defs, depth, 0)
  }

  function FieldProblems(o: Oracle, s: Schema, fields: seq<Field>, prefix: string, defs: Defs, depth: nat, i: nat): seq<Problem>
    requires s.properties.Some? && i <= |fields|
    decreases Obj(fields), 0, |fields| - i
  {
    if i == |fields| then []
    else EntryProblems(o, s, fields[i], prefix, defs, depth) + FieldProblems(o, s, fields, prefix, defs, depth, i + 1)
  }

  function EntryProblems(o: Oracle, s: Schema, f: Field, prefix: string, defs: Defs, depth: nat): seq<Problem>
    requires s.properties.Some?
    decreases f, 0, 0
  {
    var path := QualifyField(prefix, f.name);
    var prop := FindProp(s.properties.value, f.name);
    if prop.None? then
      match s.additional
      case Deny => [Problem(path, ExtraField)]
      case Must(extra) => ValueProblems(o, Resolve(extra, defs, depth), f.value, path, defs, depth)
      case _ => []
    else if prop.value.schema.None? then []
    else ValueProblems(o, Resolve(prop.value.schema.value, defs, depth), f.value, path, defs, depth)
  }

  function ValueProblems(o: Oracle, schema: Schema, val: Json, path: string, defs: Defs, depth: nat): seq<Problem>
    decreases val, 2, 0
  {
    var s := Resolve(schema, defs, depth);
    if !InEnum(o, s, val) then [Problem(path, NotInEnum)]
    else if s.kind == "string" then
      if val.Str? then LengthProblems(o, s, val.s, path) else [Problem(path, WrongType(s.kind))]
    else if s.kind == "integer" then
      if !val.Num? then [Problem(path, WrongType(s.kind))]
      else if val.v != val.v.Floor as real then [Problem(path, NotWhole)]
      else NumberProblems(s, val.v, path)
    else if s.kind == "number" then
      if val.Num? then NumberProblems(s, val.v, path) else [Problem(path, WrongType(s.kind))]
    else if s.kind == "boolean" then
      if val.Bool? then [] else [Problem(path, WrongType(s.kind))]
    else if s.kind == "object" then
      if val.Obj? then ObjectProblems(o, s, val.fields, path, defs, depth) else [Problem(path, WrongType(s.kind))]
    else if s.kind == "array" then
      if val.Arr? then ArrayProblems(o, s, val.elems, path, defs, depth) else [Problem(path, WrongType(s.kind))]
    else []
  }

  function ArrayProblems(o: Oracle, s: Schema, elems: seq<Json>, path: string, defs: Defs, depth: nat): seq<Problem>
    decreases Arr(elems), 1, 0
  {
    SizeProblems(o, s, elems, path)
    + if s.items.None? then []
      else ElemProblems(o, Resolve(s.items.value, defs, depth), elems, path, defs, depth, 0)
  }

  function ElemProblems(o: Oracle, item: Schema, elems: seq<Json>, path: string, defs: Defs, depth: nat, i: nat): seq<Problem>
    requires i <= |elems|
    decreases Arr(elems), 0, |elems| - i
  {
    if i == |elems| then []
    else ValueProblems(o, item, elems[i], ElemPath(path, i), defs, depth)
         + ElemProblems(o, item, elems, path, defs, depth, i + 1)
  }

  /** validateObject at the root, where the input may be absent. */
  function RootProblems(o: Oracle, schema: Schema, data: Option<seq<Field>>, defs: Defs): seq<Problem> {
    if data.Some? then ObjectProblems(o, schema, data.value, "", defs, MAX_REF_DEPTH)
    else MissingProblems(Resolve(schema, defs, MAX_REF_DEPTH).required, None, "")
  }

  // --------------------------------------------------------------- loop forms

  method ValidateUniqueItems(o: Oracle, elems: seq<Json>, path: string) returns (errs: seq<Problem>)
    ensures var dup := FirstDuplicate(o, elems, {}, 0);
      errs == if dup.Some? then [Problem(ElemPath(path, dup.value), DuplicateItem)] else []
  {
    var seen: set<string> := {};
    var i := 0;
    while i < |elems|
      invariant i <= |elems| && FirstDuplicate(o, elems, seen, i) == FirstDuplicate(o, elems, {}, 0)
    {
      if o.keyOf(elems[i]) in seen {
        return [Problem(ElemPath(path, i), DuplicateItem)];
      }
      seen := seen + {o.keyOf(elems[i])};
      i := i + 1;
    }
    return [];
  }

  lemma Assoc(a: seq<Problem>, b: seq<Problem>, c: seq<Problem>)
    ensures (a + b) + c == a + (b + c)
  {}

  lemma MissingAt(required: seq<string>, data: Option<seq<Field>>, prefix: string, i: nat)
    requires i < |required|
    ensures MissingProblems(required[i..], data, prefix)
      == When(data.None? || !HasField(data.value, required[i]), QualifyField(prefix, required[i]), MissingField)
         + MissingProblems(required[i + 1..], data, prefix)
  {
    assert required[i..][1..] == required[i + 1..];
  }

  method CheckRequired(required: seq<string>, data: Option<seq<Field>>, prefix: string) returns (errs: seq<Problem>)
    ensures errs == MissingProblems(required, data, prefix)
  {
    errs := [];
    var i := 0;
    ghost var goal := MissingProblems(required, data, prefix);
    ghost var rest := goal;
    assert required[0..] == required;
    while i < |required|
      invariant i <= |required| && errs + rest == goal
      invariant rest == MissingProblems(required[i..], data, prefix)
    {
      MissingAt(required, data, prefix, i);
      var more := When(data.None? || !HasField(data.value, required[i]), QualifyField(prefix, required[i]), MissingField);
      rest := MissingProblems(required[i + 1..], data, prefix);
      Assoc(errs, more, rest);
      errs := errs + more;
      i := i + 1;
    }
  }

  method ValidateObject(o: Oracle, schema0: Schema, fields: seq<Field>, prefix: string, defs: Defs, depth: nat)
    returns (errs: seq<Problem>)
    ensures errs == ObjectProblems(o, schema0, fields, prefix, defs, depth)
    decreases Obj(fields), 1, 0
  {
    var s := ResolveSchema(schema0, defs, depth);
    errs := CheckRequired(s.required, Some(fields), prefix);
    if s.properties.None? { return; }
    var more := ValidateFields(o, s, fields, prefix, defs, depth);
    errs := errs + more;
  }

  /** The single pass over the data. */
  method ValidateFields(o: Oracle, s: Schema, fields: seq<Field>, prefix: string, defs: Defs, depth: nat)
    returns (errs: seq<Problem>)
    requires s.properties.Some?
    ensures errs == FieldProblems(o, s, fields, prefix, defs, depth, 0)
    decreases Obj(fields), 0, |fields| + 1
  {
    errs := [];
    var i := 0;
    ghost var goal := FieldProblems(o, s, fields, prefix, defs, depth, 0);
    ghost var rest := goal;
    while i < |fields|
      invariant i <= |fields| && errs + rest == goal
      invariant rest == FieldProblems(o, s, fields, prefix, defs, depth, i)
    {
      var more := ValidateField(o, s, fields, prefix, defs, depth, i);
      rest := FieldProblems(o, s, fields, prefix, defs, depth, i + 1);
      Assoc(errs, more, rest);
      errs := errs + more;
      i := i + 1;
    }
  }

  /** One round of the loop over the data. */
  method ValidateField(o: Oracle, s: Schema, fields: seq<Field>, prefix: string, defs: Defs, depth: nat, i: nat)
    returns (errs: seq<Problem>)
    requires s.properties.Some? && i < |fields|
    ensures FieldProblems(o, s, fields, prefix, defs, depth, i)
         == errs + FieldProblems(o, s, fields, prefix, defs, depth, i + 1)
    decreases Obj(fields), 0, |fields| - i
  {
    var path := QualifyField(prefix, fields[i].name);
    var prop := FindProp(s.properties.value, fields[i].name);
    if prop.None? {
      match s.additional {
        case Deny => return [Problem(path, ExtraField)];
        case Must(extra) =>
          var r := ResolveSchema(extra, defs, depth);
          errs := ValidateValue(o, r, fields[i].value, path, defs, depth);
        case _ => return [];
      }
    } else if prop.value.schema.None? {
      return [];
    } else {
      var r := ResolveSchema(prop.value.schema.value, defs, depth);
      errs := ValidateValue(o, r, fields[i].value, path, defs, depth);
    }
  }

  method ValidateValue(o: Oracle, schema: Schema, val: Json, path: string, defs: Defs, depth: nat)
    returns (errs: seq<Problem>)
    ensures errs == ValueProblems(o, schema, val, path, defs, depth)
    decreases val, 2, 0
  {
    var s := ResolveSchema(schema, defs, depth);
    if !InEnum(o, s, val) { return [Problem(path, NotInEnum)]; }
    if s.kind == "string" {
      if !val.Str? { return [Problem(path, WrongType(s.kind))]; }
      errs := LengthProblems(o, s, val.s, path);
    } else if s.kind == "integer" {
      if !val.Num? { return [Problem(path, WrongType(s.kind))]; }
      if val.v != val.v.Floor as real { return [Problem(path, NotWhole)]; }
      errs := NumberProblems(s, val.v, path);
    } else if s.kind == "number" {
      if !val.Num? { return [Problem(path, WrongType(s.kind))]; }
      errs := NumberProblems(s, val.v, path);
    } else if s.kind == "boolean" {
      if !val.Bool? { return [Problem(path, WrongType(s.kind))]; }
      errs := [];
    } else if s.kind == "object" {
      if !val.Obj? { return [Problem(path, WrongType(s.kind))]; }
      errs := ValidateObject(o, s, val.fields, path, defs, depth);
    } else if s.kind == "array" {
      if !val.Arr? { return [Problem(path, WrongType(s.kind))]; }
      errs := ValidateArray(o, s, val.elems, path, defs, depth);
    } else {
      errs := [];
    }
  }

  method ValidateArray(o: Oracle, s: Schema, elems: seq<Json>, path: string, defs: Defs, depth: nat)
    returns (errs: seq<Problem>)
    ensures errs == ArrayProblems(o, s, elems, path, defs, depth)
    decreases Arr(elems), 1, 0
  {
    errs := When(s.minItems.Some? && |elems| < s.minItems.value, path, TooFewItems);
    errs := errs + When(s.maxItems.Some? && |elems| > s.maxItems.value, path, TooManyItems);
    var dup: seq<Problem> := [];
    if s.uniqueItems {
      dup := ValidateUniqueItems(o, elems, path);
    }
    errs := errs + dup;
    if s.items.None? { return; }
    var item := ResolveSchema(s.items.value, defs, depth);
    var more := ValidateElems(o, item, elems, path, defs, depth);
    errs := errs + more;
  }

  method ValidateElems(o: Oracle, item: Schema, elems: seq<Json>, path: string, defs: Defs, depth: nat)
    returns (errs: seq<Problem>)
    ensures errs == ElemProblems(o, item, elems, path, defs, depth, 0)
    decreases Arr(elems), 0, |elems| + 1
  {
    errs := [];
    var i := 0;
    while i < |elems|
      invariant i <= |elems|
      invariant errs + ElemProblems(o, item, elems, path, defs, depth, i)
             == ElemProblems(o, item, elems, path, defs, depth, 0)
    {
      var more := ValidateValue(o, item, elems[i], ElemPath(path, i), defs, depth);
      errs := errs + more;
      i := i + 1;
    }
  }
}
