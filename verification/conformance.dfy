/** How the generator's outputs meet the test suite of tests/base.py: the
    files the tests import and read are the ones `generate_models` writes
    and reads, and the base-class annotation keeps the schema tests'
    verdict. */
module Conformance {
  import opened Wrappers
  import opened Json
  import Strings
  import Paths
  import Annotator
  import Generate
  import SchemaTests

  /** The module a test fixture imports,
      `generated.<representation dir>.<version>.<entity>`, where the test's
      version carries its `v` prefix (`v3_12`). */
  function TestModule(testVersion: string, t: Generate.Representation, entity: string): string {
    Strings.Join(["generated", Generate.FormatToDir(t), testVersion, entity], ".")
  }

  /** The source file of a module below the working directory: each `.`
      separates a package directory. */
  function ModuleFile(m: string): string {
    Strings.ReplaceChar(m, '.', '/') + ".py"
  }

  /** The path of the schema fixture: `schemas/<version>/<entity>.json`. */
  function TestSchemaPath(testVersion: string, entity: string): string {
    "schemas/" + testVersion + "/" + entity + ".json"
  }

  /** The module a test imports for version `v<version>` is the output file
      `generate_models(version, t)` writes for the schema `<entity>.json`,
      provided neither name contains a dot. */
  lemma ImportedModuleIsGenerated(version: string, t: Generate.Representation, entity: string)
    requires |entity| > 0 && '.' !in entity && '.' !in version
    ensures ModuleFile(TestModule("v" + version, t, entity)) == Generate.OutputFile(version, t, entity + ".json")
  {
    var parts := ["generated", Generate.FormatToDir(t), "v" + version, entity];
    assert Generate.OutputFile(version, t, entity + ".json") == Strings.Join(parts, "/") + ".py" by {
      StemOfEntityJson(entity);
      JoinFour(parts, "/");
      OutputDirParts(version, t);
    }
    assert ModuleFile(TestModule("v" + version, t, entity)) == Strings.Join(parts, "/") + ".py" by {
      DirHasNoDot(t);
      assert '.' !in parts[2];
      Strings.ReplaceDotsInJoin(parts);
    }
  }

  /** `generated/<dir>/v<version>` as three path components. */
  lemma OutputDirParts(version: string, t: Generate.Representation)
    ensures Generate.OutputDir(version, t) == "generated" + "/" + Generate.FormatToDir(t) + "/" + ("v" + version)
  {
  }

  lemma JoinFour(parts: seq<string>, sep: string)
    requires |parts| == 4
    ensures Strings.Join(parts, sep) == parts[0] + sep + parts[1] + sep + parts[2] + sep + parts[3]
  {
    assert parts[1..][1..] == parts[2..];
    assert parts[2..][1..] == parts[3..];
    assert Strings.Join(parts[3..], sep) == parts[3];
    assert Strings.Join(parts[2..], sep) == parts[2] + sep + parts[3];
    assert Strings.Join(parts[1..], sep) == parts[1] + sep + (parts[2] + sep + parts[3]);
  }

  lemma StemOfEntityJson(entity: string)
    requires |entity| > 0 && '.' !in entity
    ensures Paths.Stem(entity + ".json") == entity
  {
    Paths.StemOfDotted(entity, "json");
    assert entity + ".json" == entity + "." + "json";
  }

  lemma DirHasNoDot(t: Generate.Representation)
    ensures '.' !in Generate.FormatToDir(t) && '.' !in "generated"
  {
  }

  /** The schema fixture for version `v<version>` reads the very file
      `generate_models(version, t)` hands to the emitter. */
  lemma FixtureReadsGeneratorInput(version: string, entity: string)
    ensures TestSchemaPath("v" + version, entity) == Generate.InputFile(version, entity + ".json")
  {
  }

  /** The base-class annotation touches only `$defs` and `allOf`, which the
      schema tests never look at: an annotated schema passes them exactly
      when the original does, and stays well-formed. */
  lemma AnnotationKeepsSchemaTests(schema: Json, baseClass: Option<string>)
    requires Annotator.Annotate(schema, baseClass).Success?
    ensures var a := Annotator.Annotate(schema, baseClass).value;
      && (SchemaTests.SchemaTestsPass(a) <==> SchemaTests.SchemaTestsPass(schema))
      && (SchemaTests.WellFormedSchema(a) <==> SchemaTests.WellFormedSchema(schema))
  {
    var a := Annotator.Annotate(schema, baseClass).value;
    if Annotator.Truthy(baseClass) {
      assert Annotator.AnnotatedFrom(schema, a);
      forall k | k in {"$schema", "type", "properties", "required"}
        ensures (k in a.fields <==> k in schema.fields)
        ensures k in schema.fields ==> a.fields[k] == schema.fields[k]
      {
      }
      assert Subscript(a, "properties") == Subscript(schema, "properties");
      assert Subscript(a, "required") == Subscript(schema, "required");
      assert Subscript(a, "type") == Subscript(schema, "type");
      assert PyIn(JStr("required"), a) == PyIn(JStr("required"), schema);
      assert PyIn(JStr("type"), a) == PyIn(JStr("type"), schema);
      assert PyIn(JStr("$schema"), a) == PyIn(JStr("$schema"), schema);
      assert PyIn(JStr("properties"), a) == PyIn(JStr("properties"), schema);
    }
  }
}
