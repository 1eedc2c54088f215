/** What the generated schemas accept, said about Go types and JSON values
    directly, and the agreement with the JSON encoding of Go values. */
module SchemaAgreement {
  import opened Options
  import opened JsonSchema
  import opened SchemaMeaning
  import opened SchemaGen

  function FindField(fs: seq<GoField>, name: string): Option<GoField> {
    if fs == [] then None
    else if fs[0].visible && fs[0].name == name then Some(fs[0]) else FindField(fs[1..], name)
  }

  predicate Whole(j: Json) { j.Num? && j.v == j.v.Floor as real }

  // --------------------------------------------------------- accepted values

  /** The values a generated schema accepts: the type's shape down to the depth
      limit and the first repetition of a struct; map values are not looked at. */
  ghost predicate Fits(env: Types, t: GoType, seen: set<string>, depth: nat, j: Json)
    decreases 22 - depth, 1
  {
    depth >= 20 ||
    match t
    case GString => j.Str?
    case GInt => Whole(j)
    case GFloat => j.Num?
    case GBool => j.Bool?
    case GRaw => true
    case GBytes => true
    case GAny => true
    case GSlice(elem) => j.Arr? && forall i :: 0 <= i < |j.elems| ==> Fits(env, elem, seen, depth + 1, j.elems[i])
    case GMap(_, _) => j.Obj?
    case GStruct(name) => j.Obj? && StructFits(env, name, seen, depth + 1, j.fields)
    case GPtr(elem) => Fits(env, elem, seen, depth + 1, j)
  }

  ghost predicate StructFits(env: Types, name: string, seen: set<string>, depth: nat, fields: seq<Field>)
    decreases 22 - depth, 0
  {
    depth >= 20 || name in seen ||
    var fs := FieldsOf(env, name);
    && (forall k :: 0 <= k < |fs| && fs[k].visible && !fs[k].omitempty && !fs[k].typ.GPtr? ==> Present(fields, fs[k].name))
    && (forall i :: 0 <= i < |fields| ==> EntryFits(env, fs, seen + {name}, depth + 1, fields[i]))
  }

  /** An entry under a field's name fits that field; others are ignored. */
  ghost predicate EntryFits(env: Types, fs: seq<GoField>, seen: set<string>, depth: nat, entry: Field)
    decreases 22 - depth, 2
  {
    var f := FindField(fs, entry.name);
    f.Some? ==> Fits(env, if f.value.typ.GPtr? then f.value.typ.elem else f.value.typ, seen, depth, entry.value)
  }

  lemma {:induction false} FindPropSchema(env: Types, fs: seq<GoField>, seen: set<string>, depth: nat, name: string)
    requires depth < MAX_SCHEMA_DEPTH
    ensures FindProp(PropSchemas(env, fs, seen, depth), name) ==
      var f := FindField(fs, name);
      if f.None? then None else Some(Prop(name, Some(TypeSchema(env, Bare(f.value.typ), seen, depth + 1))))
  {
    if fs != [] {
      FindPropSchema(env, fs[1..], seen, depth, name);
      var rest := PropSchemas(env, fs[1..], seen, depth);
      if fs[0].visible {
        var head := Prop(fs[0].name, Some(TypeSchema(env, Bare(fs[0].typ), seen, depth + 1)));
        assert ([head] + rest)[1..] == rest;
      }
    }
  }

  lemma {:induction false} RequiredIff(fs: seq<GoField>, fields: seq<Field>, prefix: string)
    ensures MissingProblems(RequiredNames(fs), Some(fields), prefix) == [] <==>
      forall k :: 0 <= k < |fs| && fs[k].visible && !fs[k].omitempty && !fs[k].typ.GPtr? ==> Present(fields, fs[k].name)
  {
    if fs != [] {
      RequiredIff(fs[1..], fields, prefix);
      var rest := RequiredNames(fs[1..]);
      assert ([fs[0].name] + rest)[1..] == rest;
      assert forall k :: 1 <= k < |fs| ==> fs[k] == fs[1..][k - 1];
      assert forall k :: 0 <= k < |fs[1..]| ==> fs[1..][k] == fs[k + 1];
    }
  }

  // ---------------------------------------------------------------- exactness

  /** Generated schemas use no reference. */
  lemma NoReference(env: Types, t: GoType, seen: set<string>, depth: nat)
    ensures TypeSchema(env, t, seen, depth).ref == "" && TypeSchema(env, t, seen, depth).enum == None
    decreases 22 - depth
  {
    if depth < MAX_SCHEMA_DEPTH && t.GPtr? { NoReference(env, t.elem, seen, depth + 1); }
  }

  lemma ResolveSame(s: Schema, defs: Defs, rd: nat)
    requires s.ref == ""
    ensures Resolve(s, defs, rd) == s
  {}

  /** One entry of the data against its generated property. */
  lemma EntryCleanIff(o: Oracle, env: Types, s: Schema, fs: seq<GoField>, inside: set<string>, depth: nat,
                      entry: Field, path: string, defs: Defs, rd: nat)
    requires depth < MAX_SCHEMA_DEPTH && s.properties == Some(PropSchemas(env, fs, inside, depth)) && s.additional == NoRule
    ensures EntryClean(o, s, entry, path, defs, rd) <==>
      var f := FindField(fs, entry.name);
      f.Some? ==> ValueProblems(o, TypeSchema(env, Bare(f.value.typ), inside, depth + 1), entry.value,
                                QualifyField(path, entry.name), defs, rd) == []
  {
    FindPropSchema(env, fs, inside, depth, entry.name);
    var f := FindField(fs, entry.name);
    if f.Some? {
      NoReference(env, Bare(f.value.typ), inside, depth + 1);
      ResolveSame(TypeSchema(env, Bare(f.value.typ), inside, depth + 1), defs, rd);
    }
  }

  lemma StructCombine(o: Oracle, env: Types, name: string, seen: set<string>, depth: nat,
                      fields: seq<Field>, path: string, defs: Defs, rd: nat)
    requires depth < MAX_SCHEMA_DEPTH && name !in seen
    requires forall i :: 0 <= i < |fields| ==>
      (EntryClean(o, StructSchema(env, name, seen, depth), fields[i], path, defs, rd) <==>
       EntryFits(env, FieldsOf(env, name), seen + {name}, depth + 1, fields[i]))
    ensures ObjectProblems(o, StructSchema(env, name, seen, depth), fields, path, defs, rd) == []
       <==> StructFits(env, name, seen, depth, fields)
  {
    var s := StructSchema(env, name, seen, depth);
    ResolveSame(s, defs, rd);
    RequiredIff(FieldsOf(env, name), fields, path);
    FieldsIff(o, s, fields, path, defs, rd, 0);
  }

  lemma {:induction false} EntryExact(o: Oracle, env: Types, s: Schema, fs: seq<GoField>, inside: set<string>, depth: nat,
                                      entry: Field, path: string, defs: Defs, rd: nat)
    requires depth < MAX_SCHEMA_DEPTH && s.properties == Some(PropSchemas(env, fs, inside, depth)) && s.additional == NoRule
    ensures EntryClean(o, s, entry, path, defs, rd) <==> EntryFits(env, fs, inside, depth + 1, entry)
    decreases 22 - depth, 0
  {
    EntryCleanIff(o, env, s, fs, inside, depth, entry, path, defs, rd);
    var f := FindField(fs, entry.name);
    if f.Some? {
      Exact(o, env, Bare(f.value.typ), inside, depth + 1, entry.value, QualifyField(path, entry.name), defs, rd);
    }
  }

  lemma {:induction false} StructExact(o: Oracle, env: Types, name: string, seen: set<string>, depth: nat,
                                       fields: seq<Field>, path: string, defs: Defs, rd: nat)
    ensures ObjectProblems(o, StructSchema(env, name, seen, depth), fields, path, defs, rd) == []
       <==> StructFits(env, name, seen, depth, fields)
    decreases 22 - depth, 1
  {
    var s := StructSchema(env, name, seen, depth);
    if depth < MAX_SCHEMA_DEPTH && name !in seen {
      var fs, inside := FieldsOf(env, name), seen + {name};
      forall i | 0 <= i < |fields|
        ensures EntryClean(o, s, fields[i], path, defs, rd) <==> EntryFits(env, fs, inside, depth + 1, fields[i])
      {
        EntryExact(o, env, s, fs, inside, depth, fields[i], path, defs, rd);
      }
      StructCombine(o, env, name, seen, depth, fields, path, defs, rd);
    } else {
      ResolveSame(s, defs, rd);
    }
  }

  lemma SliceExact(o: Oracle, env: Types, elem: GoType, seen: set<string>, depth: nat,
                   elems: seq<Json>, path: string, defs: Defs, rd: nat)
    requires depth < MAX_SCHEMA_DEPTH
    requires forall i :: 0 <= i < |elems| ==>
      (Fits(env, elem, seen, depth + 1, elems[i]) <==>
       ValueProblems(o, TypeSchema(env, elem, seen, depth + 1), elems[i], ElemPath(path, i), defs, rd) == [])
    ensures ArrayProblems(o, TypeSchema(env, GSlice(elem), seen, depth), elems, path, defs, rd) == []
       <==> Fits(env, GSlice(elem), seen, depth, Arr(elems))
  {
    var item := TypeSchema(env, elem, seen, depth + 1);
    NoReference(env, elem, seen, depth + 1);
    ResolveSame(item, defs, rd);
    ElemsIff(o, item, elems, path, defs, rd, 0);
  }

  /** A schema that only names a type checks only the JSON kind. */
  lemma KindExact(o: Oracle, kind: string, j: Json, path: string, defs: Defs, rd: nat)
    ensures var clean := ValueProblems(o, Typed(kind), j, path, defs, rd) == [];
      && (kind == "" ==> clean)
      && (kind == "string" ==> (clean <==> j.Str?))
      && (kind == "integer" ==> (clean <==> Whole(j)))
      && (kind == "number" ==> (clean <==> j.Num?))
      && (kind == "boolean" ==> (clean <==> j.Bool?))
  {
    ResolveSame(Typed(kind), defs, rd);
  }

  /** Without properties the rule for further ones is not looked at. */
  lemma PlainObjectExact(o: Oracle, s: Schema, j: Json, path: string, defs: Defs, rd: nat)
    requires s == Typed("object").(additional := s.additional)
    ensures ValueProblems(o, s, j, path, defs, rd) == [] <==> j.Obj?
  {
    ResolveSame(s, defs, rd);
  }

  lemma {:induction false} LeafExact(o: Oracle, env: Types, t: GoType, seen: set<string>, depth: nat,
                                     j: Json, path: string, defs: Defs, rd: nat)
    requires depth >= MAX_SCHEMA_DEPTH || !(t.GSlice? || t.GStruct? || t.GPtr?)
    ensures ValueProblems(o, TypeSchema(env, t, seen, depth), j, path, defs, rd) == []
       <==> Fits(env, t, seen, depth, j)
  {
    var s := TypeSchema(env, t, seen, depth);
    if depth < MAX_SCHEMA_DEPTH && t.GMap? {
      PlainObjectExact(o, s, j, path, defs, rd);
    } else {
      assert s == Typed(s.kind);
      KindExact(o, s.kind, j, path, defs, rd);
    }
  }

  lemma ObjectStep(o: Oracle, s: Schema, j: Json, path: string, defs: Defs, rd: nat)
    requires s.ref == "" && s.enum == None
    ensures s.kind == "object" ==>
      (ValueProblems(o, s, j, path, defs, rd) == [] <==> j.Obj? && ObjectProblems(o, s, j.fields, path, defs, rd) == [])
    ensures s.kind == "array" ==>
      (ValueProblems(o, s, j, path, defs, rd) == [] <==> j.Arr? && ArrayProblems(o, s, j.elems, path, defs, rd) == [])
  {
    ResolveSame(s, defs, rd);
  }

  lemma {:induction false} ExactSlice(o: Oracle, env: Types, elem: GoType, seen: set<string>, depth: nat,
                                      elems: seq<Json>, path: string, defs: Defs, rd: nat)
    requires depth < MAX_SCHEMA_DEPTH
    ensures ArrayProblems(o, TypeSchema(env, GSlice(elem), seen, depth), elems, path, defs, rd) == []
       <==> Fits(env, GSlice(elem), seen, depth, Arr(elems))
    decreases 22 - depth, 2
  {
    forall i | 0 <= i < |elems|
      ensures Fits(env, elem, seen, depth + 1, elems[i]) <==>
        ValueProblems(o, TypeSchema(env, elem, seen, depth + 1), elems[i], ElemPath(path, i), defs, rd) == []
    {
      Exact(o, env, elem, seen, depth + 1, elems[i], ElemPath(path, i), defs, rd);
    }
    SliceExact(o, env, elem, seen, depth, elems, path, defs, rd);
  }

  /** A generated schema accepts exactly the values that fit the type. */
  lemma {:induction false} Exact(o: Oracle, env: Types, t: GoType, seen: set<string>, depth: nat,
                                 j: Json, path: string, defs: Defs, rd: nat)
    ensures ValueProblems(o, TypeSchema(env, t, seen, depth), j, path, defs, rd) == []
       <==> Fits(env, t, seen, depth, j)
    decreases 22 - depth, 3
  {
    if depth >= MAX_SCHEMA_DEPTH || !(t.GSlice? || t.GStruct? || t.GPtr?) {
      LeafExact(o, env, t, seen, depth, j, path, defs, rd);
    } else if t.GPtr? {
      Exact(o, env, t.elem, seen, depth + 1, j, path, defs, rd);
    } else {
      NoReference(env, t, seen, depth);
      ObjectStep(o, TypeSchema(env, t, seen, depth), j, path, defs, rd);
      if t.GStruct? && j.Obj? {
        StructExact(o, env, t.name, seen, depth + 1, j.fields, path, defs, rd);
      } else if t.GSlice? && j.Arr? {
        ExactSlice(o, env, t.elem, seen, depth, j.elems, path, defs, rd);
      }
    }
  }

  // ------------------------------------------------------------ JSON encoding

  /** j is a JSON encoding of a value of type t in which no typed position is
      null. It follows the value, so self-referential types are no problem. */
  ghost predicate Encodes(env: Types, t: GoType, j: Json)
    decreases j, 1, t
  {
    match t
    case GString => j.Str?
    case GInt => Whole(j)
    case GFloat => j.Num?
    case GBool => j.Bool?
    case GRaw => true
    case GBytes => j.Str?
    case GAny => true
    case GSlice(elem) => j.Arr? && forall i :: 0 <= i < |j.elems| ==> Encodes(env, elem, j.elems[i])
    case GMap(_, elem) => j.Obj? && forall i :: 0 <= i < |j.fields| ==> Encodes(env, elem, j.fields[i].value)
    case GStruct(name) => j.Obj? && StructEncodes(env, FieldsOf(env, name), j)
    case GPtr(elem) => Encodes(env, elem, j)
  }

  /** Every field without omitempty is there, and every entry is a field. */
  ghost predicate StructEncodes(env: Types, fs: seq<GoField>, j: Json)
    requires j.Obj?
    decreases j, 0
  {
    && (forall k :: 0 <= k < |fs| && fs[k].visible && !fs[k].omitempty ==> HasField(j.fields, fs[k].name))
    && (forall i :: 0 <= i < |j.fields| ==>
          FindField(fs, j.fields[i].name).Some? && Encodes(env, FindField(fs, j.fields[i].name).value.typ, j.fields[i].value))
  }

  lemma {:induction false} EncodesFits(env: Types, t: GoType, seen: set<string>, depth: nat, j: Json)
    requires Encodes(env, t, j)
    ensures Fits(env, t, seen, depth, j)
    decreases 22 - depth, 1
  {
    if depth < MAX_SCHEMA_DEPTH {
      match t {
        case GSlice(elem) =>
          forall i | 0 <= i < |j.elems| ensures Fits(env, elem, seen, depth + 1, j.elems[i]) {
            EncodesFits(env, elem, seen, depth + 1, j.elems[i]);
          }
        case GStruct(name) => StructEncodesFits(env, name, seen, depth + 1, j);
        case GPtr(elem) => EncodesFits(env, elem, seen, depth + 1, j);
        case _ =>
      }
    }
  }

  lemma BareEncodes(env: Types, t: GoType, j: Json)
    requires Encodes(env, t, j)
    ensures Encodes(env, Bare(t), j)
  {}

  lemma {:induction false} StructEncodesFits(env: Types, name: string, seen: set<string>, depth: nat, j: Json)
    requires Encodes(env, GStruct(name), j)
    ensures StructFits(env, name, seen, depth, j.fields)
    decreases 22 - depth, 0
  {
    if depth < MAX_SCHEMA_DEPTH && name !in seen {
      var fs := FieldsOf(env, name);
      forall i | 0 <= i < |j.fields| && FindField(fs, j.fields[i].name).Some?
        ensures Fits(env, Bare(FindField(fs, j.fields[i].name).value.typ), seen + {name}, depth + 1, j.fields[i].value)
      {
        BareEncodes(env, FindField(fs, j.fields[i].name).value.typ, j.fields[i].value);
        EncodesFits(env, Bare(FindField(fs, j.fields[i].name).value.typ), seen + {name}, depth + 1, j.fields[i].value);
      }
    }
  }

  /** For every struct type, self-referential ones included, every null-free
      encoding of a value passes validation against the generated schema. */
  lemma EncodingsValidate(o: Oracle, env: Types, name: string, fields: seq<Field>, defs: Defs)
    requires Encodes(env, GStruct(name), Obj(fields))
    ensures RootProblems(o, GenerateSchema(env, GStruct(name)), Some(fields), defs) == []
    ensures RootProblems(o, GenerateSchema(env, GPtr(GStruct(name))), Some(fields), defs) == []
  {
    StructEncodesFits(env, name, {}, 0, Obj(fields));
    StructExact(o, env, name, {}, 0, fields, "", defs, MAX_REF_DEPTH);
  }

  /** And the input passes exactly when it fits the struct. */
  lemma RootExact(o: Oracle, env: Types, name: string, fields: seq<Field>, defs: Defs)
    ensures RootProblems(o, GenerateSchema(env, GStruct(name)), Some(fields), defs) == []
       <==> StructFits(env, name, {}, 0, fields)
  {
    StructExact(o, env, name, {}, 0, fields, "", defs, MAX_REF_DEPTH);
  }

  /** A null in a position whose type has a "type" keyword is rejected, so a nil
      pointer, slice or map does not validate. */
  lemma {:induction false} NullIsRejected(o: Oracle, env: Types, t: GoType, seen: set<string>, depth: nat,
                                          path: string, defs: Defs, rd: nat)
    requires TypeSchema(env, t, seen, depth).kind != ""
    ensures ValueProblems(o, TypeSchema(env, t, seen, depth), Null, path, defs, rd) != []
    decreases 22 - depth
  {
    Exact(o, env, t, seen, depth, Null, path, defs, rd);
    if depth < MAX_SCHEMA_DEPTH && t.GPtr? {
      Exact(o, env, t.elem, seen, depth + 1, Null, path, defs, rd);
      NullIsRejected(o, env, t.elem, seen, depth + 1, path, defs, rd);
    }
  }

  lemma MapSchemaIs(env: Types, stringKey: bool, elem: GoType, seen: set<string>, depth: nat)
    requires depth < MAX_SCHEMA_DEPTH
    ensures var value := TypeSchema(env, elem, seen, depth + 1);
      TypeSchema(env, GMap(stringKey, elem), seen, depth) ==
        Typed("object").(additional := if stringKey && value != AnySchema() then Must(value) else NoRule)
  {}

  /** What the generator writes about the values of a map: a schema that accepts
      exactly what fits the element type, left out only when everything does,
      and nothing at all for keys that are not strings. */
  lemma MapSchemaDescribesValues(env: Types, stringKey: bool, elem: GoType, seen: set<string>, depth: nat,
                                 o: Oracle, j: Json, path: string, defs: Defs, rd: nat)
    requires depth < MAX_SCHEMA_DEPTH
    ensures var s := TypeSchema(env, GMap(stringKey, elem), seen, depth);
      && s.kind == "object" && s.properties.None? && s.required == []
      && (s.additional.Must? || s.additional.NoRule?) && (!stringKey ==> s.additional.NoRule?)
      && (s.additional.Must? ==>
            (ValueProblems(o, s.additional.schema, j, path, defs, rd) == [] <==> Fits(env, elem, seen, depth + 1, j)))
      && (stringKey && s.additional.NoRule? ==> Fits(env, elem, seen, depth + 1, j))
  {
    MapSchemaIs(env, stringKey, elem, seen, depth);
    ElementExact(o, env, elem, seen, depth + 1, j, path, defs, rd);
  }

  lemma ElementExact(o: Oracle, env: Types, elem: GoType, seen: set<string>, depth: nat,
                     j: Json, path: string, defs: Defs, rd: nat)
    ensures var value := TypeSchema(env, elem, seen, depth);
      && (ValueProblems(o, value, j, path, defs, rd) == [] <==> Fits(env, elem, seen, depth, j))
      && (value == AnySchema() ==> Fits(env, elem, seen, depth, j))
  {
    Exact(o, env, elem, seen, depth, j, path, defs, rd);
    KindExact(o, "", j, path, defs, rd);
  }

  /** Map values are not checked: the generator writes additionalProperties but
      no properties, and the validator looks at the former only beside the
      latter. A string passes for the value of a map to integers. */
  lemma MapValuesAreUnchecked(o: Oracle, env: Types, elem: GoType, fields: seq<Field>, path: string, defs: Defs, rd: nat)
    ensures ValueProblems(o, TypeSchema(env, GMap(true, elem), {}, 0), Obj(fields), path, defs, rd) == []
    ensures var j := Obj([Field("k", Str("x"))]);
      ValueProblems(o, TypeSchema(env, GMap(true, GInt), {}, 0), j, path, defs, rd) == [] && !Encodes(env, GMap(true, GInt), j)
  {
    Exact(o, env, GMap(true, elem), {}, 0, Obj(fields), path, defs, rd);
    var j := Obj([Field("k", Str("x"))]);
    Exact(o, env, GMap(true, GInt), {}, 0, j, path, defs, rd);
    assert j.fields[0].value == Str("x");
  }
}
