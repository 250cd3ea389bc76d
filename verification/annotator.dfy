/** The base-class annotation `generate_models` applies to each loaded schema
    before handing it to the emitter (scripts/generate.py). */
module Annotator {
  import opened Wrappers
  import opened Json

  /** Why the in-place dict updates raise: `schema.get` on a non-dict is an
      `AttributeError`, and item assignment into a non-dict `$defs` a `TypeError`. */
  datatype AnnotateError = SchemaNotObject | DefsNotObject

  /** Python truthiness of `base_class: str | None`. */
  predicate Truthy(baseClass: Option<string>) {
    baseClass.Some? && baseClass.value != ""
  }

  /** The synthetic definition stored under `$defs.baseModel`. */
  const BaseModelDef: Json := JObj(map["type" := JStr("object")])

  /** The root composition constraint that refers to it. */
  const BaseModelRef: Json := JArr([JObj(map["$ref" := JStr("#/$defs/baseModel")])])

  /** `annotated` is `schema` with `$defs.baseModel` set, the other `$defs`
      entries kept, `allOf` replaced by the single reference and every other
      root key left alone. */
  predicate AnnotatedFrom(schema: Json, annotated: Json) {
    && schema.JObj?
    && annotated.JObj?
    && annotated.fields.Keys == schema.fields.Keys + {"$defs", "allOf"}
    && (forall k :: k in schema.fields && k != "$defs" && k != "allOf" ==> annotated.fields[k] == schema.fields[k])
    && annotated.fields["allOf"] == BaseModelRef
    && annotated.fields["$defs"].JObj?
    && var defs := annotated.fields["$defs"].fields;
    && "baseModel" in defs && defs["baseModel"] == BaseModelDef
    && (if "$defs" in schema.fields
        then schema.fields["$defs"].JObj?
             && defs.Keys == schema.fields["$defs"].fields.Keys + {"baseModel"}
             && (forall d :: d in schema.fields["$defs"].fields && d != "baseModel" ==> defs[d] == schema.fields["$defs"].fields[d])
        else defs.Keys == {"baseModel"})
  }

  /** Lines 55-58 of `generate_models`: with a falsy base class the schema is
      passed through; otherwise it is annotated, or the update raises. */
  function Annotate(schema: Json, baseClass: Option<string>): (r: Result<Json, AnnotateError>)
    ensures !Truthy(baseClass) ==> r == Success(schema)
    ensures Truthy(baseClass) ==>
      (r.Success? <==> schema.JObj? && ("$defs" in schema.fields ==> schema.fields["$defs"].JObj?))
    ensures Truthy(baseClass) && r.Success? ==> AnnotatedFrom(schema, r.value)
    ensures Truthy(baseClass) && !schema.JObj? ==> r == Failure(SchemaNotObject)
  {
    if !Truthy(baseClass) then Success(schema)
    else if !schema.JObj? then Failure(SchemaNotObject)
    else
      var defs := if "$defs" in schema.fields then schema.fields["$defs"] else JObj(map[]);
      if !defs.JObj? then Failure(DefsNotObject)
      else
        var defs' := JObj(defs.fields["baseModel" := BaseModelDef]);
        Success(JObj(schema.fields["$defs" := defs']["allOf" := BaseModelRef]))
  }

  /** Annotating an annotated schema again changes nothing. */
  lemma AnnotateIdempotent(schema: Json, baseClass: Option<string>)
    requires Annotate(schema, baseClass).Success?
    ensures Annotate(Annotate(schema, baseClass).value, baseClass) == Annotate(schema, baseClass)
  {
    var a := Annotate(schema, baseClass).value;
    if Truthy(baseClass) {
      var defs := a.fields["$defs"];
      assert defs.fields["baseModel" := BaseModelDef] == defs.fields;
      assert a.fields["$defs" := defs]["allOf" := BaseModelRef] == a.fields;
    }
  }

  /** The base class name itself never reaches the schema: any two truthy
      names give the same result. */
  lemma AnnotateIgnoresName(schema: Json, a: string, b: string)
    requires a != "" && b != ""
    ensures Annotate(schema, Some(a)) == Annotate(schema, Some(b))
  {
  }
}
