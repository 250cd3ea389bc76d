/** The checks of tests/base.py, as predicates that hold exactly when the
    pytest test passes: no assertion fails and nothing raises. Schemas are
    whatever `json.loads` produced, and Python's `in` and `[]` are applied
    with their real semantics on each kind of JSON value. */
module SchemaTests {
  import opened Wrappers
  import opened Json
  import opened PyTypes
  import Strings

  /** `test_schema_structure`. */
  predicate StructureTestPasses(schema: Json) {
    && HasKey(schema, "$schema")
    && HasKey(schema, "type")
    && Subscript(schema, "type") == Some(JStr("object"))
    && HasKey(schema, "properties")
  }

  /** `'type' in p or '$ref' in p`, short-circuiting as Python does. */
  predicate PropertyTyped(p: Json) {
    match PyIn(JStr("type"), p)
    case None => false
    case Some(found) => found || HasKey(p, "$ref")
  }

  /** `test_schema_properties`: `.values()` needs a dict. */
  predicate PropertiesTestPasses(schema: Json) {
    match Subscript(schema, "properties")
    case Some(JObj(props)) => forall k :: k in props ==> PropertyTyped(props[k])
    case _ => false
  }

  /** `test_required_properties`: `schema['properties']` is only looked up
      once there is a required entry to check. */
  predicate RequiredTestPasses(schema: Json) {
    match PyIn(JStr("required"), schema)
    case None => false
    case Some(false) => true
    case Some(true) =>
      match Subscript(schema, "required")
      case Some(JArr(names)) =>
        forall i :: 0 <= i < |names| ==>
          Subscript(schema, "properties").Some? && PyIn(names[i], Subscript(schema, "properties").value) == Some(true)
      case _ => false
  }

  predicate SchemaTestsPass(schema: Json) {
    StructureTestPasses(schema) && PropertiesTestPasses(schema) && RequiredTestPasses(schema)
  }

  /** `test_required_properties` compares with Python `==`, where `True == 1`
      holds inside lists too: a `required` entry `[1]` is found in a list of
      properties holding `[True]`. */
  lemma RequiredComparesNested(schema: Json, one: Json, yes: Json)
    requires one == JArr([JInt(1)]) && yes == JArr([JArr([JBool(true)])])
    requires schema == JObj(map["required" := JArr([one]), "properties" := yes])
    ensures RequiredTestPasses(schema)
  {
    NestedBoolEqualsInt(one, yes);
    assert Subscript(schema, "required") == Some(JArr([one]));
    assert Subscript(schema, "properties") == Some(yes);
  }

  /** A property sub-schema in the intended sense: an object with a `type`
      or a `$ref`. */
  predicate IsTypedSubschema(p: Json) {
    p.JObj? && ("type" in p.fields || "$ref" in p.fields)
  }

  /** The well-formed root schema: an object of type `object` with `$schema`
      and a `properties` object whose entries are typed sub-schemas, and a
      `required` list, if any, naming only declared properties. */
  predicate WellFormedSchema(schema: Json) {
    && schema.JObj?
    && "$schema" in schema.fields
    && "type" in schema.fields && schema.fields["type"] == JStr("object")
    && "properties" in schema.fields && schema.fields["properties"].JObj?
    && (forall k :: k in schema.fields["properties"].fields ==> IsTypedSubschema(schema.fields["properties"].fields[k]))
    && ("required" in schema.fields ==>
          && schema.fields["required"].JArr?
          && forall i :: 0 <= i < |schema.fields["required"].items| ==>
               schema.fields["required"].items[i].JStr?
               && schema.fields["required"].items[i].s in schema.fields["properties"].fields)
  }

  /** Every property value is an object (the case the tests are written for). */
  predicate PropertyValuesAreObjects(schema: Json) {
    schema.JObj? && "properties" in schema.fields && schema.fields["properties"].JObj? ==>
      forall k :: k in schema.fields["properties"].fields ==> schema.fields["properties"].fields[k].JObj?
  }

  /** A well-formed schema passes the three schema tests. */
  lemma WellFormedPassesTests(schema: Json)
    requires WellFormedSchema(schema)
    ensures SchemaTestsPass(schema)
  {
    var props := schema.fields["properties"];
    if "required" in schema.fields {
      var names := schema.fields["required"].items;
      forall i | 0 <= i < |names|
        ensures PyIn(names[i], props) == Some(true)
      {
        assert names[i].JStr?;
      }
    }
  }

  /** When the property values are objects, passing the schema tests is
      exactly being well-formed. */
  lemma TestsCharacterizeWellFormed(schema: Json)
    requires PropertyValuesAreObjects(schema)
    ensures SchemaTestsPass(schema) <==> WellFormedSchema(schema)
  {
    if SchemaTestsPass(schema) {
      assert schema.JObj?;
      var props := schema.fields["properties"];
      assert props.JObj?;
      if "required" in schema.fields {
        var names := schema.fields["required"].items;
        forall i | 0 <= i < |names|
          ensures names[i].JStr? && names[i].s in props.fields
        {
          assert PyIn(names[i], props) == Some(true);
        }
      }
    }
    if WellFormedSchema(schema) {
      WellFormedPassesTests(schema);
    }
  }

  /** The property check is Python's `in`, which is a substring test on a
      string: a property whose "sub-schema" is the string `"type"` passes,
      although it is no schema at all. */
  lemma StringPropertyPassesTests()
    ensures var schema := JObj(map[
      "$schema" := JStr("https://json-schema.org/draft/2020-12/schema"),
      "type" := JStr("object"),
      "properties" := JObj(map["id" := JStr("type")])]);
      SchemaTestsPass(schema) && !WellFormedSchema(schema)
  {
    var props := map["id" := JStr("type")];
    assert Strings.OccursAt("type", "type", 0);
    assert PropertyTyped(props["id"]);
  }

  /** `_check_type_mapping(schema_type, td_type)`: only string schema types
      match a case; `object` accepts any hint. */
  function CheckTypeMapping(schemaType: Json, hint: PyType): (ok: bool)
    ensures !schemaType.JStr? ==> !ok
    ensures ok && schemaType.s != "object" ==> schemaType.s in {"string", "number", "integer", "boolean", "array"}
    ensures schemaType == JStr("object") ==> ok
  {
    match schemaType
    case JStr("string") => hint == Plain("str")
    case JStr("number") => hint == Plain("float") || hint == Plain("int")
    case JStr("integer") => hint == Plain("int")
    case JStr("boolean") => hint == Plain("bool")
    case JStr("array") => hint.Generic? && hint.origin == ListOrigin
    case JStr("object") => true
    case _ => false
  }

  /** The `number` case accepts every hint the `integer` case accepts. */
  lemma IntegerIsNumber(hint: PyType)
    requires CheckTypeMapping(JStr("integer"), hint)
    ensures CheckTypeMapping(JStr("number"), hint)
  {
  }

  /** `_is_optional(h)`: a union whose arguments include `NoneType`. */
  predicate IsOptional(h: PyType) {
    h.Generic? && h.origin == UnionOrigin && NoneType in h.args
  }

  /** The hint that is compared with the schema type: the first union
      argument of an optional hint, the hint itself otherwise. */
  function Unwrapped(h: PyType): PyType {
    if IsOptional(h) then h.args[0] else h
  }

  /** One property of `test_fields_match_schema` once its name was found. */
  predicate FieldTypeOk(p: Json, hint: PyType) {
    match PyIn(JStr("type"), p)
    case None => false
    case Some(false) => true
    case Some(true) => Subscript(p, "type").Some? && CheckTypeMapping(Subscript(p, "type").value, Unwrapped(hint))
  }

  /** `test_fields_match_schema`, given the TypedDict's type hints. */
  predicate FieldsMatchTestPasses(hints: map<string, PyType>, schema: Json) {
    match Subscript(schema, "properties")
    case Some(JObj(props)) => forall k :: k in props ==> k in hints && FieldTypeOk(props[k], hints[k])
    case _ => false
  }

  /** An optional hint `X | None` is checked against the schema type through
      `X`: for a property sub-schema with a `type`, the check passes exactly
      when `X` maps to that type. */
  lemma OptionalFieldChecksInner(p: map<string, Json>, x: PyType, text: string)
    requires "type" in p
    ensures FieldTypeOk(JObj(p), Generic(UnionOrigin, [x, NoneType], text)) <==> CheckTypeMapping(p["type"], x)
  {
    assert IsOptional(Generic(UnionOrigin, [x, NoneType], text)) by {
      assert [x, NoneType][1] == NoneType;
    }
  }

  /** A required hint is checked as it stands. */
  lemma RequiredFieldChecksItself(p: map<string, Json>, h: PyType)
    requires "type" in p && !IsOptional(h)
    ensures FieldTypeOk(JObj(p), h) <==> CheckTypeMapping(p["type"], h)
  {
  }

  /** A property sub-schema without `type` (a `$ref`) passes whatever its hint. */
  lemma UntypedFieldPasses(p: map<string, Json>, h: PyType)
    requires "type" !in p
    ensures FieldTypeOk(JObj(p), h)
  {
  }

  /** `test_fields_match_schema` asserts each property name among the hints
      before it looks at any type, so passing it keeps every name, and the
      dataclass test's name check passes on the same hints. */
  lemma FieldsMatchKeepsNames(hints: map<string, PyType>, schema: Json)
    requires FieldsMatchTestPasses(hints, schema)
    ensures schema.JObj? && "properties" in schema.fields && schema.fields["properties"].JObj?
    ensures schema.fields["properties"].fields.Keys <= hints.Keys
    ensures DataclassFieldsTestPasses(hints, schema)
  {
  }

  /** `test_required_fields`: `schema.get` needs a dict, and a missing
      `required` reads as the empty list. (`test_required_fields` runs the
      same loop twice; the second pass repeats the first.) */
  predicate RequiredFieldsTestPasses(hints: map<string, PyType>, schema: Json) {
    && schema.JObj?
    && var required := if "required" in schema.fields then schema.fields["required"] else JArr([]);
    && forall k :: k in hints ==>
         match PyIn(JStr(k), required)
         case None => false
         case Some(listed) => listed != IsOptional(hints[k])
  }

  /** `test_dataclass_fields`: iterating over `schema['properties']` visits
      the keys of a dict, the items of a list and the characters of a string. */
  predicate DataclassFieldsTestPasses(hints: map<string, PyType>, schema: Json) {
    match Subscript(schema, "properties")
    case Some(JObj(props)) => props.Keys <= hints.Keys
    case Some(JArr(items)) => forall i :: 0 <= i < |items| ==> items[i].JStr? && items[i].s in hints
    case Some(JStr(text)) => forall i :: 0 <= i < |text| ==> [text[i]] in hints
    case _ => false
  }

  /** The names a `required` list holds. */
  function RequiredNames(schema: Json): set<string>
    requires schema.JObj?
  {
    if "required" in schema.fields && schema.fields["required"].JArr?
    then set i | 0 <= i < |schema.fields["required"].items| && schema.fields["required"].items[i].JStr? :: schema.fields["required"].items[i].s
    else {}
  }

  /** With `required` absent or a list, the test passes exactly when every
      field is optional if and only if it is not required. */
  lemma OptionalIffNotRequired(hints: map<string, PyType>, schema: Json)
    requires schema.JObj?
    requires "required" in schema.fields ==> schema.fields["required"].JArr?
    ensures RequiredFieldsTestPasses(hints, schema) <==>
      forall k :: k in hints ==> (IsOptional(hints[k]) <==> k !in RequiredNames(schema))
  {
    var required := if "required" in schema.fields then schema.fields["required"] else JArr([]);
    forall k | k in hints
      ensures PyIn(JStr(k), required) == Some(k in RequiredNames(schema))
    {
      var items := required.items;
      if k in RequiredNames(schema) {
        var i :| 0 <= i < |items| && items[i].JStr? && items[i].s == k;
        assert PyEq(JStr(k), items[i]);
      }
      if PyIn(JStr(k), required) == Some(true) {
        var i :| 0 <= i < |items| && PyEq(JStr(k), items[i]);
        assert items[i] == JStr(k);
      }
    }
  }

  /** With a `properties` object, the dataclass test passes exactly when every
      schema property name is a field name, spelled the same. */
  lemma NamesPreserved(hints: map<string, PyType>, schema: Json)
    requires schema.JObj? && "properties" in schema.fields && schema.fields["properties"].JObj?
    ensures DataclassFieldsTestPasses(hints, schema) <==>
      forall k :: k in schema.fields["properties"].fields ==> k in hints
  {
  }

  /** The class the fixtures look up: `entity_name.title().replace('-', '')`. */
  function ClassName(entity: string): (name: string)
    ensures '-' !in name
  {
    Strings.RemoveChar(Strings.Title(entity), '-')
  }

  /** The words, each capitalized. */
  function CapitalizeAll(words: seq<string>): (r: seq<string>)
    ensures |r| == |words|
    ensures forall i :: 0 <= i < |words| ==> r[i] == Strings.Capitalize(words[i])
  {
    if |words| == 0 then []
    else [Strings.Capitalize(words[0])] + CapitalizeAll(words[1..])
  }

  /** A capitalized lower-case word contains no `-`. */
  lemma CapitalizedHasNoDash(w: string)
    requires Strings.IsLowerWord(w)
    ensures '-' !in Strings.Capitalize(w)
  {
    var c := Strings.Capitalize(w);
    forall i | 0 <= i < |c|
      ensures c[i] != '-'
    {
      if i > 0 {
        assert c[i] == w[i] && Strings.IsLower(w[i]);
      }
    }
  }

  /** The class name of a lone lower-case word is the word capitalized. */
  lemma ClassNameOfWord(w: string)
    requires Strings.IsLowerWord(w)
    ensures ClassName(w) == Strings.Capitalize(w)
  {
    Strings.TitleWord(w);
    CapitalizedHasNoDash(w);
    Strings.RemoveCharAbsent(Strings.Capitalize(w), '-');
  }

  /** A leading lower-case word and its `-` become the capitalized word. */
  lemma ClassNameStep(w: string, rest: string)
    requires Strings.IsLowerWord(w)
    ensures ClassName(w + "-" + rest) == Strings.Capitalize(w) + ClassName(rest)
  {
    var cap := Strings.Capitalize(w);
    var tr := Strings.Title(rest);
    assert Strings.Title(w + "-" + rest) == cap + "-" + tr by {
      Strings.TitleWordThenDash(w, rest);
    }
    assert Strings.RemoveChar(cap + "-" + tr, '-') == cap + Strings.RemoveChar(tr, '-') by {
      CapitalizedHasNoDash(w);
      Strings.RemoveCharAfter(cap, tr, '-');
    }
  }

  /** For an entity name made of lower-case words joined by `-`, the class
      name is the words capitalized and run together. */
  lemma {:induction false} ClassNameOfWords(words: seq<string>)
    requires forall i :: 0 <= i < |words| ==> Strings.IsLowerWord(words[i])
    ensures ClassName(Strings.Join(words, "-")) == Strings.Concat(CapitalizeAll(words))
  {
    if |words| == 1 {
      ClassNameOfWord(words[0]);
      assert Strings.Concat(CapitalizeAll(words)) == Strings.Capitalize(words[0]) + Strings.Concat([]);
    } else if |words| > 1 {
      ClassNameOfWords(words[1..]);
      ClassNameStep(words[0], Strings.Join(words[1..], "-"));
      assert CapitalizeAll(words)[1..] == CapitalizeAll(words[1..]);
    }
  }

  /** The entity names of the test suite: `accounts` is looked up as
      `Accounts`, and `group-info` as `GroupInfo`. */
  lemma AccountsClassName(entity: string)
    requires entity == "accounts"
    ensures ClassName(entity) == "Accounts"
  {
    assert Strings.Capitalize(entity) == "Accounts" by {
      CapitalizeExample(entity, 'a', 'A');
      assert entity[1..] == "ccounts";
    }
    assert Strings.IsLowerWord(entity) by {
      CapitalizeExample(entity, 'a', 'A');
    }
    ClassNameOfWord(entity);
  }

  lemma GroupInfoClassName(entity: string)
    requires entity == "group-info"
    ensures ClassName(entity) == "GroupInfo"
  {
    var g, i := "group", "info";
    assert Strings.Capitalize(g) == "Group" by {
      CapitalizeExample(g, 'g', 'G');
      assert g[1..] == "roup";
    }
    assert Strings.Capitalize(i) == "Info" by {
      CapitalizeExample(i, 'i', 'I');
      assert i[1..] == "nfo";
    }
    assert ClassName(g + "-" + i) == Strings.Capitalize(g) + Strings.Capitalize(i) by {
      assert Strings.IsLowerWord(g) && Strings.IsLowerWord(i);
      ClassNameOfWord(i);
      ClassNameStep(g, i);
    }
    assert entity == g + "-" + i;
  }

  lemma CapitalizeExample(w: string, lower: char, upper: char)
    requires |w| > 0 && w[0] == lower && Strings.IsLower(lower) && upper as int == lower as int - 32
    requires forall i :: 0 <= i < |w| ==> Strings.IsLower(w[i])
    ensures Strings.IsLowerWord(w)
    ensures Strings.Capitalize(w) == [upper] + w[1..]
  {
  }
}
