/** Schema generation from Go types (schema.go). A Go type is a datatype; struct
    types are named and looked up in an environment, so they may refer to each
    other and to themselves. */
module SchemaGen {
  import opened Options
  import opened JsonSchema

  /** GBytes is []byte, GRaw json.RawMessage, GAny an interface or any kind the
      generator maps to the empty schema. */
  datatype GoType =
    | GString | GInt | GFloat | GBool | GRaw | GBytes | GAny
    | GSlice(elem: GoType) | GMap(stringKey: bool, elem: GoType) | GStruct(name: string) | GPtr(elem: GoType)

  /** A struct field under its JSON name; invisible ones are unexported or tagged "-". */
  datatype GoField = GoField(name: string, typ: GoType, omitempty: bool, visible: bool)

  type Types = map<string, seq<GoField>>

  const MAX_SCHEMA_DEPTH: nat := 20

  function FieldsOf(env: Types, name: string): seq<GoField> { if name in env then env[name] else [] }

  /** A pointer field is described by the type it points to. */
  function Bare(t: GoType): GoType { if t.GPtr? then t.elem else t }

  predicate IsRequired(f: GoField) { f.visible && !f.omitempty && !f.typ.GPtr? }

  function RequiredNames(fs: seq<GoField>): seq<string> {
    if fs == [] then []
    else if IsRequired(fs[0]) then [fs[0].name] + RequiredNames(fs[1..]) else RequiredNames(fs[1..])
  }

  function Typed(kind: string): Schema { AnySchema().(kind := kind) }

  function TypeSchema(env: Types, t: GoType, seen: set<string>, depth: nat): Schema
    decreases 22 - depth, 2, 0
  {
    if depth >= MAX_SCHEMA_DEPTH then AnySchema()
    else match t
      case GString => Typed("string")
      case GInt => Typed("integer")
      case GFloat => Typed("number")
      case GBool => Typed("boolean")
      case GRaw => AnySchema()
      case GBytes => AnySchema()
      case GAny => AnySchema()
      case GSlice(elem) => Typed("array").(items := Some(TypeSchema(env, elem, seen, depth + 1)))
      case GMap(stringKey, elem) =>
        if !stringKey then Typed("object")
        else
          var value := TypeSchema(env, elem, seen, depth + 1);
          if value == AnySchema() then Typed("object") else Typed("object").(additional := Must(value))
      case GStruct(name) => StructSchema(env, name, seen, depth + 1)
      case GPtr(elem) => TypeSchema(env, elem, seen, depth + 1)
  }

  function StructSchema(env: Types, name: string, seen: set<string>, depth: nat): Schema
    decreases 22 - depth, 1, 0
  {
    if depth >= MAX_SCHEMA_DEPTH || name in seen then Typed("object")
    else Typed("object").(
      properties := Some(PropSchemas(env, FieldsOf(env, name), seen + {name}, depth)),
      required := RequiredNames(FieldsOf(env, name)))
  }

  function PropSchemas(env: Types, fs: seq<GoField>, seen: set<string>, depth: nat): seq<Prop>
    requires depth < MAX_SCHEMA_DEPTH
    decreases 22 - depth, 0, |fs|
  {
    if fs == [] then []
    else if !fs[0].visible then PropSchemas(env, fs[1..], seen, depth)
    else [Prop(fs[0].name, Some(TypeSchema(env, Bare(fs[0].typ), seen, depth + 1)))]
         + PropSchemas(env, fs[1..], seen, depth)
  }

  /** GenerateSchema: a top-level pointer is unwrapped. */
  function GenerateSchema(env: Types, t0: GoType): Schema {
    var t := Bare(t0);
    if t.GStruct? then StructSchema(env, t.name, {}, 0) else TypeSchema(env, t, {}, 0)
  }

  // --------------------------------------------------------------- loop forms

  /** schemaForStruct marks the type in the shared seen set, fills the property
      and required lists field by field, and unmarks it again. */
  method SchemaForStruct(env: Types, name: string, seen0: set<string>, depth: nat)
    returns (schema: Schema, seen: set<string>)
    ensures schema == StructSchema(env, name, seen0, depth) && seen == seen0
    decreases 22 - depth, 1, 0
  {
    seen := seen0;
    if depth >= MAX_SCHEMA_DEPTH || name in seen { return Typed("object"), seen; }
    seen := seen + {name};
    var props, required;
    props, required, seen := SchemaForFields(env, FieldsOf(env, name), seen, depth);
    seen := seen - {name};
    schema := Typed("object").(properties := Some(props), required := required);
  }

  lemma PropsAt(env: Types, fs: seq<GoField>, seen: set<string>, depth: nat, i: nat)
    requires depth < MAX_SCHEMA_DEPTH && i < |fs|
    ensures PropSchemas(env, fs[i..], seen, depth) ==
      (if fs[i].visible then [Prop(fs[i].name, Some(TypeSchema(env, Bare(fs[i].typ), seen, depth + 1)))] else [])
      + PropSchemas(env, fs[i + 1..], seen, depth)
    ensures RequiredNames(fs[i..]) == (if IsRequired(fs[i]) then [fs[i].name] else []) + RequiredNames(fs[i + 1..])
  {
    assert fs[i..][1..] == fs[i + 1..];
  }

  lemma Assoc<T>(a: seq<T>, b: seq<T>, c: seq<T>)
    ensures (a + b) + c == a + (b + c)
  {}

  /** The field loop. */
  method SchemaForFields(env: Types, fs: seq<GoField>, seen0: set<string>, depth: nat)
    returns (props: seq<Prop>, required: seq<string>, seen: set<string>)
    requires depth < MAX_SCHEMA_DEPTH
    ensures props == PropSchemas(env, fs, seen0, depth) && required == RequiredNames(fs) && seen == seen0
    decreases 22 - depth, 0, 0
  {
    props, required, seen := [], [], seen0;
    var i := 0;
    ghost var restP, restR := PropSchemas(env, fs, seen0, depth), RequiredNames(fs);
    assert fs[0..] == fs;
    while i < |fs|
      invariant i <= |fs| && seen == seen0
      invariant restP == PropSchemas(env, fs[i..], seen0, depth) && restR == RequiredNames(fs[i..])
      invariant props + restP == PropSchemas(env, fs, seen0, depth)
      invariant required + restR == RequiredNames(fs)
    {
      PropsAt(env, fs, seen0, depth, i);
      restP, restR := PropSchemas(env, fs[i + 1..], seen0, depth), RequiredNames(fs[i + 1..]);
      var newProps: seq<Prop>, newRequired: seq<string> := [], [];
      if fs[i].visible {
        var prop;
        prop, seen := SchemaForType(env, Bare(fs[i].typ), seen, depth + 1);
        newProps := [Prop(fs[i].name, Some(prop))];
        if !fs[i].omitempty && !fs[i].typ.GPtr? { newRequired := [fs[i].name]; }
      }
      Assoc(props, newProps, restP);
      Assoc(required, newRequired, restR);
      props, required := props + newProps, required + newRequired;
      i := i + 1;
    }
  }

  method SchemaForType(env: Types, t: GoType, seen0: set<string>, depth: nat)
    returns (schema: Schema, seen: set<string>)
    ensures schema == TypeSchema(env, t, seen0, depth) && seen == seen0
    decreases 22 - depth, 2, 0
  {
    seen := seen0;
    if depth >= MAX_SCHEMA_DEPTH { return AnySchema(), seen; }
    match t {
      case GString => schema := Typed("string");
      case GInt => schema := Typed("integer");
      case GFloat => schema := Typed("number");
      case GBool => schema := Typed("boolean");
      case GRaw => schema := AnySchema();
      case GBytes => schema := AnySchema();
      case GAny => schema := AnySchema();
      case GSlice(elem) =>
        var item;
        item, seen := SchemaForType(env, elem, seen, depth + 1);
        schema := Typed("array").(items := Some(item));
      case GMap(stringKey, elem) =>
        if !stringKey { return Typed("object"), seen; }
        var value;
        value, seen := SchemaForType(env, elem, seen, depth + 1);
        schema := if value == AnySchema() then Typed("object") else Typed("object").(additional := Must(value));
      case GStruct(name) =>
        schema, seen := SchemaForStruct(env, name, seen, depth + 1);
      case GPtr(elem) =>
        schema, seen := SchemaForType(env, elem, seen, depth + 1);
    }
  }
}
