# pydantic-gerrit generator core, modelled in Dafny

pydantic-gerrit turns the JSON Schema documents of the Gerrit REST API into Python types. The same
schemas become three representations: Pydantic models, dataclasses and TypedDicts. This project
models the parts of the repository that decide what is generated, where it goes, and what the test
suite accepts. It then proves properties of that model.

The model covers:

- **The generator** (`scripts/generate.py`):
  - `FORMAT_TO_DIR` and the path rules for schema, output, package-marker and `latest` paths.
  - The base-class annotation applied to every schema.
  - The `generate_models` loop over a schema directory.
  - The numeric version key, and the choice of the newest version by a stable reverse sort.
  - `create_latest_symlinks` and `main`.
- **The TypedDict helper** (`generate_typeddicts.py`):
  - The recursive renderer `python_type_to_typeddict`.
  - The class emitter `model_to_typeddict`.
  - The command-line rule: an argument is skipped or split at its last dot, and its schema goes to `with_suffix('.json')`.
- **The test base classes** (`tests/base.py`):
  - The three schema tests, `_check_type_mapping`, `_is_optional`, `test_fields_match_schema`, `test_required_fields` and `test_dataclass_fields`.
  - The class-name rule `entity.title().replace('-', '')`.
  - Each test is a predicate that holds exactly when the pytest test passes: no assertion fails and nothing raises.

Layout, one module per file:

| file | module | contents |
|---|---|---|
| `wrappers.dfy` | `Wrappers` | `Option` and `Result` |
| `strings.dfy` | `Strings` | the `str` operations the sources use: `split`, `join`, `rsplit(sep, 1)`, `replace`, `title` on ASCII text |
| `json.dfy` | `Json` | parsed JSON values, with Python's `in` and `[]` on each kind of value |
| `versions.dfy` | `Versions` | version keys, list ordering, the newest-version selection loop |
| `paths.dfy` | `Paths` | the `pathlib` operations the sources use: `suffix`, `stem`, `with_suffix`, `/` |
| `annotator.dfy` | `Annotator` | the base-class annotation |
| `generate.dfy` | `Generate` | `generate_models`, `create_latest_symlinks` and `main` over an abstract file store |
| `pytypes.dfy` | `PyTypes` | Python type expressions as `get_origin`/`get_args` see them |
| `typeddicts.dfy` | `TypedDicts` | the renderer, the class emitter and the argument rule |
| `schema_tests.dfy` | `SchemaTests` | the checks of `tests/base.py` |
| `conformance.dfy` | `Conformance` | how the generator's files meet the tests' imports and fixtures |

The filesystem is abstracted:

- A directory listing is an input sequence in glob order.
- Written files are a map from path to text.
- The `latest` links are a map from link path to target.
- The external model emitter (`datamodel_code_generator.generate`) is a function parameter `emit`.

Facts about the code that the model keeps:

- `generate_models` has no per-entity failure isolation. An exception while processing one schema file stops the run, and files already written stay written.
- The version order is numeric component-wise. Ties go to the version listed first, because Python's sort is stable even with `reverse=True`.
- A version name that is not `_`-separated digits raises in the sort key, and the run ends without relinking.

## Model

| member | source | states |
|---|---|---|
| `Generate.FormatToDirInjective` | scripts/generate.py:18-22 | two representations whose directory names start with the same letter are the same representation, so no two share a directory |
| `Generate.AllRepresentations` | scripts/generate.py:18-22 | every representation is a key of the directory table, so the lookup never fails |
| `Generate.OutputDirInjective` | scripts/generate.py:37-38 | different (version, representation) pairs get different output directories |
| `Generate.OutputFileOfSchema` | scripts/generate.py:47-48 | a schema `x.json` is written to `x.py` inside its output directory |
| `Generate.WriteAll` | scripts/generate.py:47-75 | the schema loop ends without error exactly when every `*.json` entry can be annotated; it writes no path outside the outputs of the listing's schema files, writes all of them when no error occurs, and leaves every other file's content unchanged |
| `Generate.WriteAllWrites` | scripts/generate.py:47-75 | a schema file that no later schema file overwrites ends up holding the emitter's output for its annotated schema |
| `Generate.GenerateModels` | scripts/generate.py:25-75 | the package marker exists afterwards, nothing that existed is removed, the error happens exactly when some schema cannot be annotated, and on success the new files are exactly the marker plus the listing's outputs |
| `Generate.WriteAllIgnoresName` | scripts/generate.py:55-58 | with any two non-empty base-class names the emitter receives identical arguments: the name never reaches a schema |
| `Generate.GenerateWithoutBaseClass` | scripts/generate.py:105-108 | without a base class, which is how `main` calls it, generation never stops at the annotation step |
| `Generate.RequestAt` | scripts/generate.py:105-108 | call `3*j+m` of `main`'s loop generates version `j` in the `m`-th representation (Pydantic, dataclass, TypedDict) |
| `Generate.GenerateAll` | scripts/generate.py:105-108 | running the calls in order keeps every existing file, and afterwards every call's package marker and the output of every `*.json` file of its version's listing exist |
| `Generate.CallGenerates` | scripts/generate.py:44-48 | one call without a base class leaves its marker and the output of every schema file of its listing in place |
| `Generate.LinkPathInjective` | scripts/generate.py:89-90 | different representations have different `latest` link paths |
| `Generate.Relink` | scripts/generate.py:89-95 | every listed representation's link now points at the target; other links are untouched; no other link appears |
| `Generate.LinkLatest` | scripts/generate.py:85-95 | without versions the links are unchanged; otherwise every representation's link points at `v<latest>`, other links stay as they were, and nothing else is created |
| `Generate.LinkLatestIdempotent` | scripts/generate.py:89-95 | linking a second time with the same latest version changes nothing |
| `Generate.CreateLatestSymlinks` | scripts/generate.py:78-95 | fails exactly when some listed version has no numeric key; with no versions the links are unchanged; otherwise every link points at the version the stable reverse sort puts first |
| `Generate.RunAll` | scripts/generate.py:98-110 | stops exactly when no `v*` entry exists; otherwise makes three calls per version in listing order, keeps every existing file, leaves every version's models in every representation in place, then relinks, failing exactly on an unparsable version, with every link pointing at the latest version |
| `Versions.ParseComponent` | scripts/generate.py:82 | `int(x)` succeeds exactly on a non-empty digit string |
| `Versions.ParsePrinted` | scripts/generate.py:82 | parsing the decimal text of a number gives the number back |
| `Versions.ParseAll` | scripts/generate.py:82 | the key list exists exactly when every component parses, has one entry per component, and each entry is that component's value |
| `Versions.VersionKeyOfName` | scripts/generate.py:81-82 | every non-empty key is the key of its canonical `_`-joined name |
| `Versions.KeyLeReflexive` | scripts/generate.py:80-84 | list comparison of keys is reflexive |
| `Versions.KeyLeAntisymmetric` | scripts/generate.py:80-84 | two keys each at most the other are equal |
| `Versions.KeyLeTransitive` | scripts/generate.py:80-84 | list comparison of keys is transitive |
| `Versions.KeyLeTotal` | scripts/generate.py:80-84 | any two keys are comparable, so the sort has a maximum |
| `Versions.LatestUnique` | scripts/generate.py:80-88 | at most one position is the first one carrying the maximal key |
| `Versions.SelectLatest` | scripts/generate.py:80-88 | fails exactly when some version has no key, naming the first such version; returns nothing exactly for an empty list; otherwise returns the first version whose key is maximal |
| `Versions.NumericOrder` | scripts/generate.py:80-84 | among `3_2`, `3_12` and `3_9` the latest is `3_12`, although it sorts first as text |
| `Versions.VersionsOf` | scripts/generate.py:81 | a name is a version exactly when `v` followed by it is a listed entry |
| `Paths.Stem` | scripts/generate.py:48 | the stem followed by the suffix is the name, and a non-empty name has a non-empty stem |
| `Paths.StemOfJson` | scripts/generate.py:47-48 | a name `x.json` with a non-empty `x` is its stem followed by `.json`, and the hidden name `.json` is its own stem |
| `Paths.StemOfDotted` | generate_typeddicts.py:66 | the stem of `m.c` is `m` when `c` has no dot |
| `Paths.StemOfWithSuffix` | generate_typeddicts.py:66 | replacing the suffix by `.json` keeps the stem |
| `Annotator.Annotate` | scripts/generate.py:55-58 | a falsy base class passes the schema through; otherwise annotation succeeds exactly on an object whose `$defs`, if present, is an object, adds `$defs.baseModel` and the single `allOf` reference, and keeps every other key and definition |
| `Annotator.AnnotateIdempotent` | scripts/generate.py:55-58 | annotating an annotated schema again gives the same schema |
| `Annotator.AnnotateIgnoresName` | scripts/generate.py:55 | only the truthiness of the base-class name matters |
| `Strings.Split` | scripts/generate.py:82 | `split` yields at least one part and no part contains the separator |
| `Strings.JoinSplit` | scripts/generate.py:82 | joining the parts of a split with the separator gives the text back |
| `Strings.SplitJoin` | generate_typeddicts.py:53 | splitting separator-free parts joined by the separator gives the parts back |
| `Strings.RSplitOnce` | generate_typeddicts.py:62 | module, dot and class make up the argument, and the class has no dot |
| `Strings.TitleFrom` | tests/base.py:70 | each character is lower-cased after a letter and upper-cased otherwise |
| `Strings.RemoveChar` | tests/base.py:70 | the removed character is gone, and every other character occurs exactly when it did before |
| `Strings.TitleWordThenDash` | tests/base.py:70 | a lower-case word followed by `-` is capitalized, and the word after the dash starts afresh |
| `Json.PyEqReflexive` | tests/base.py:60 | Python `==` on JSON values holds between a value and itself |
| `Json.PyEqSymmetric` | tests/base.py:60 | Python `==` on JSON values is symmetric |
| `Json.InIffSubscript` | tests/base.py:45-47 | a string key is `in` a dict exactly when subscripting the dict with it does not raise |
| `Json.ElementIn` | tests/base.py:60 | a list contains each of its elements |
| `Json.InfixIn` | tests/base.py:53 | `in` on strings finds every string occurring inside |
| `Json.NestedBoolEqualsInt` | tests/base.py:60 | `[1] in [[True]]` holds: `True == 1` applies inside lists |
| `TypedDicts.Render` | generate_typeddicts.py:19-45 | rendering fails exactly when a rendered list or set alias has no argument, or a rendered dict alias has other than two |
| `TypedDicts.RenderAll` | generate_typeddicts.py:35-44 | arguments render in order, one text per argument; the first failing argument's error is the result |
| `TypedDicts.RenderSingleLine` | generate_typeddicts.py:19-45 | a type whose names have no line break renders on one line |
| `TypedDicts.RenderOptional` | generate_typeddicts.py:42-44 | the union of `X` and `None` renders as `X`'s text followed by ` \| None` |
| `TypedDicts.FieldLines` | generate_typeddicts.py:50-52 | one line per field, in field order, holding the field name and its rendered annotation; any failing annotation fails the class |
| `TypedDicts.TypedDictLines` | generate_typeddicts.py:48-53 | the class text splits into the header line followed by exactly one line per field, in order |
| `TypedDicts.ArgActionOf` | generate_typeddicts.py:59-66 | an argument is skipped exactly when it has no dot; otherwise module, dot and class make it up, the class has no dot, and the schema file is the argument with its suffix replaced by `.json` |
| `TypedDicts.MainOutput` | generate_typeddicts.py:56-68 | the header line, then one line per argument in order: a skip notice or the schema file written |
| `TypedDicts.SchemaFileDropsClass` | generate_typeddicts.py:62-66 | two classes of the same module write the same schema file `<module>.json` |
| `SchemaTests.WellFormedPassesTests` | tests/base.py:43-60 | a well-formed schema passes the structure, properties and required tests |
| `SchemaTests.TestsCharacterizeWellFormed` | tests/base.py:43-60 | when the property values are objects, passing the three tests is exactly being well-formed |
| `SchemaTests.StringPropertyPassesTests` | tests/base.py:50-53 | a property whose value is the string `"type"` passes the properties test, although it is not a schema |
| `SchemaTests.CheckTypeMapping` | tests/base.py:123-139 | a schema type that is not a string never matches; a match for anything but `object` names one of the five listed types; `object` matches every hint |
| `SchemaTests.IntegerIsNumber` | tests/base.py:128-131 | a hint the `integer` case accepts is also accepted by the `number` case |
| `SchemaTests.OptionalFieldChecksInner` | tests/base.py:148-156 | for a property with a `type`, an optional hint `X \| None` passes exactly when `X` maps to that type |
| `SchemaTests.RequiredFieldChecksItself` | tests/base.py:148-156 | for a property with a `type`, a hint that is not optional passes exactly when it maps to that type itself |
| `SchemaTests.UntypedFieldPasses` | tests/base.py:148 | a property without `type` passes whatever its hint |
| `SchemaTests.FieldsMatchKeepsNames` | tests/base.py:141-146 | passing `test_fields_match_schema` needs a `properties` dict whose every name is a hint, so `test_dataclass_fields` passes on the same hints |
| `SchemaTests.RequiredComparesNested` | tests/base.py:55-60 | a `required` entry `[1]` is found in a list of properties holding `[True]` |
| `SchemaTests.OptionalIffNotRequired` | tests/base.py:158-173 | with `required` absent or a list, the test passes exactly when each field is optional if and only if it is not required |
| `SchemaTests.NamesPreserved` | tests/base.py:100-104 | with a `properties` object, the dataclass test passes exactly when every property name is a field name |
| `SchemaTests.ClassName` | tests/base.py:70 | the class name contains no `-` |
| `SchemaTests.ClassNameOfWords` | tests/base.py:93 | lower-case words joined by `-` become the capitalized words run together |
| `SchemaTests.AccountsClassName` | tests/base.py:120-121 | `accounts` is looked up as `Accounts` |
| `SchemaTests.GroupInfoClassName` | tests/base.py:70 | `group-info` is looked up as `GroupInfo` |
| `Conformance.ImportedModuleIsGenerated` | tests/base.py:120 | the module a test imports for version `v<version>` is the file the generator writes for `<entity>.json` |
| `Conformance.FixtureReadsGeneratorInput` | tests/base.py:35 | the schema fixture reads the same file the generator hands to the emitter |
| `Conformance.AnnotationKeepsSchemaTests` | scripts/generate.py:55-58 | an annotated schema passes the schema tests, and is well-formed, exactly when the original is |

## Left out

- The model emitter (`datamodel_code_generator.generate`) is a parameter `emit`, because it is an external library. Its own errors are not modelled.
- Generate.WriteAllIgnoresName: `emit` is assumed deterministic. The emitter may write a generation timestamp into each file header, so the model promises identical emitter arguments, not identical file bytes; its clock is not modelled.
- Logging, directory creation and the way files and links are physically written are not modelled. The store is a map: I/O has no logic to model.
- JSON parse and file-read errors are not modelled. Schemas arrive already parsed.
- Floating-point JSON numbers are left out. Numbers are integers.
- Key order in JSON objects is not modelled, because no modelled check depends on it.
- Glob order is an input sequence, because the filesystem decides it.
- Generated directories are not modelled as packages beyond their marker file.
- `latest_link.exists()` follows links, so a dangling `latest` link is not removed and `symlink_to` then raises. This is left out: links are a map, and a dangling link is not represented.
- OS errors from unlinking or linking (permissions, races) are left out as I/O.
- In `generate_typeddicts.py`, the following are left out because they are runtime reflection and I/O:
  - `importlib.import_module`, `getattr` and `model_json_schema`;
  - the written schema text;
  - `model_fields`, whose field list is an input;
  - `get_type_hints`.
- The `str(t)` fallback of the renderer is an input text, because it is Python's own printing.
- `_is_optional` is modelled on the union origin. The difference between `typing.Union` and PEP 604 `X | Y` origins depends on the Python version and is left out.
- The fixtures and tests that run models or validators are left out, because they execute third-party code. These are `validator`, `test_model_serialization` and the test-data loaders.
- `test_required_fields` runs its loop twice. The second pass repeats the first, so it is modelled once.
- Versions.ParseComponent: `int()` also accepts surrounding whitespace, a sign, `_` between digits and non-ASCII digits. Only ASCII digit strings parse here, because version directories are named with them.
- Strings.TitleFrom: `str.title` is modelled on ASCII letters only. Other cased characters keep their case, because entity names are ASCII.
