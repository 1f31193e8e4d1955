/** The response-shape contract the backend hands to the model service, and what
    it means for a value to satisfy it. Only the JSON Schema keywords the
    contract uses are modelled: `type`, `items`, `properties`, `required`,
    `enum`, `minimum` and `maximum` (JSON Schema Validation 2020-12, sections
    6.1.1, 6.1.2, 6.2.2, 6.2.4 and 6.5.3, with `items` and `properties` from the
    applicator vocabulary of JSON Schema Core 2020-12, sections 10.3.1.2 and
    10.3.2.1). `description` is an annotation with no effect on validation and
    is not modelled. */
module Schema {
  import opened Basics
  import opened Json

  datatype Schema =
    | ArrayOf(items: Schema)
    | ObjectOf(properties: seq<Property>, required: seq<string>)
    | StringOf(allowed: Option<seq<string>>)
    | NumberIn(minimum: Option<real>, maximum: Option<real>)

  datatype Property = Property(name: string, schema: Schema)

  /** Validation of a JSON instance against a schema, keyword by keyword. */
  predicate Conforms(v: Value, s: Schema)
    decreases s
  {
    match s
    case ArrayOf(item) =>
      v.Arr? && forall i :: 0 <= i < |v.items| ==> Conforms(v.items[i], item)
    case ObjectOf(props, req) =>
      && v.Obj?
      && (forall j :: 0 <= j < |props| && props[j].name in v.fields ==>
            Conforms(v.fields[props[j].name], props[j].schema))
      && (forall k :: 0 <= k < |req| ==> req[k] in v.fields)
    case StringOf(allowed) =>
      v.Str? && (allowed.Some? ==> v.s in allowed.value)
    case NumberIn(lo, hi) =>
      v.Num? && (lo.Some? ==> lo.value <= v.n) && (hi.Some? ==> v.n <= hi.value)
  }

  /** The `jsonSchema` literal of the backend: an array of objects each requiring
      `rule`, `status` ("pass" or "fail"), `evidence`, `reasoning` and a
      `confidence` between 0 and 100. */
  const VerdictSchema: Schema :=
    ArrayOf(ObjectOf(
      [ Property("rule", StringOf(None)),
        Property("status", StringOf(Some(["pass", "fail"]))),
        Property("evidence", StringOf(None)),
        Property("reasoning", StringOf(None)),
        Property("confidence", NumberIn(Some(0.0), Some(100.0))) ],
      ["rule", "status", "evidence", "reasoning", "confidence"]))

  /** One verdict record, stated directly rather than through the schema. */
  predicate ValidVerdict(v: Value)
  {
    && v.Obj?
    && "rule" in v.fields && v.fields["rule"].Str?
    && "status" in v.fields && v.fields["status"] in {Str("pass"), Str("fail")}
    && "evidence" in v.fields && v.fields["evidence"].Str?
    && "reasoning" in v.fields && v.fields["reasoning"].Str?
    && "confidence" in v.fields && v.fields["confidence"].Num?
    && 0.0 <= v.fields["confidence"].n <= 100.0
  }

  /** A value satisfies the backend's schema exactly when it is an array of
      valid verdict records. */
  lemma VerdictSchemaMeaning(v: Value)
    ensures Conforms(v, VerdictSchema) <==>
              v.Arr? && forall i :: 0 <= i < |v.items| ==> ValidVerdict(v.items[i])
  {
    var ObjectOf(props, req) := VerdictSchema.items;
    if v.Arr? {
      forall i | 0 <= i < |v.items|
        ensures Conforms(v.items[i], VerdictSchema.items) <==> ValidVerdict(v.items[i])
      {
        var x := v.items[i];
        if x.Obj? && Conforms(x, VerdictSchema.items) {
          assert req[0] in x.fields && req[1] in x.fields && req[2] in x.fields;
          assert req[3] in x.fields && req[4] in x.fields;
          assert Conforms(x.fields[props[0].name], props[0].schema);
          assert Conforms(x.fields[props[1].name], props[1].schema);
          assert Conforms(x.fields[props[2].name], props[2].schema);
          assert Conforms(x.fields[props[3].name], props[3].schema);
          assert Conforms(x.fields[props[4].name], props[4].schema);
        }
        if ValidVerdict(x) {
          forall j | 0 <= j < |props| && props[j].name in x.fields
            ensures Conforms(x.fields[props[j].name], props[j].schema)
          {
            assert j in {0, 1, 2, 3, 4};
          }
        }
      }
    }
  }
}
