/** The generation orchestrator of scripts/generate.py: representation
    directories, path rules, `generate_models`, `create_latest_symlinks` and
    `main`. The filesystem is abstracted: a directory listing is an input
    sequence, written files are a map from path to text, and the `latest`
    symlinks are a map from link path to target. */
module Generate {
  import opened Wrappers
  import opened Json
  import Strings
  import Paths
  import Versions
  import opened Annotator

  /** The three `DataModelType` members the generator targets. */
  datatype Representation = Pydantic | Dataclass | TypedDict

  /** The keys of `FORMAT_TO_DIR`, in its insertion order. */
  const Representations: seq<Representation> := [Pydantic, Dataclass, TypedDict]

  /** `FORMAT_TO_DIR[t]`. */
  function FormatToDir(t: Representation): string {
    match t
    case Pydantic => "pydantic"
    case Dataclass => "dataclass"
    case TypedDict => "typeddict"
  }

  /** `FORMAT_TO_DIR` sends different representations to different
      directories; the first letter already tells them apart. */
  lemma FormatToDirInjective(a: Representation, b: Representation)
    requires FormatToDir(a)[0] == FormatToDir(b)[0]
    ensures a == b
  {
  }

  /** Every representation is a key of `FORMAT_TO_DIR`. */
  lemma AllRepresentations()
    ensures forall t :: t in Representations
  {
    forall t
      ensures t in Representations
    {
      match t
      case Pydantic => assert Representations[0] == t;
      case Dataclass => assert Representations[1] == t;
      case TypedDict => assert Representations[2] == t;
    }
  }

  /** `Path('schemas') / f'v{version}'`. */
  function SchemaDir(version: string): string {
    "schemas/v" + version
  }

  /** `Path('generated') / FORMAT_TO_DIR[t] / f'v{version}'`. */
  function OutputDir(version: string, t: Representation): string {
    "generated/" + FormatToDir(t) + "/v" + version
  }

  /** The package marker touched in every output directory. */
  function InitFile(version: string, t: Representation): string {
    Paths.Child(OutputDir(version, t), "__init__.py")
  }

  /** `schema_file` as `str(schema_file)`, the name the emitter is told. */
  function InputFile(version: string, name: string): string {
    Paths.Child(SchemaDir(version), name)
  }

  /** `output_dir / f'{schema_file.stem}.py'`. */
  function OutputFile(version: string, t: Representation, name: string): string {
    Paths.Child(OutputDir(version, t), Paths.Stem(name) + ".py")
  }

  /** Distinct (version, representation) pairs write into distinct directories. */
  lemma OutputDirInjective(v1: string, t1: Representation, v2: string, t2: Representation)
    requires OutputDir(v1, t1) == OutputDir(v2, t2)
    ensures v1 == v2 && t1 == t2
  {
    var a := OutputDir(v1, t1);
    var b := OutputDir(v2, t2);
    assert a[10] == FormatToDir(t1)[0];
    assert b[10] == FormatToDir(t2)[0];
    FormatToDirInjective(t1, t2);
    var n := |"generated/" + FormatToDir(t1) + "/v"|;
    assert a[n..] == v1;
    assert b[n..] == v2;
  }

  /** An output file sits in its output directory and is named after the
      schema file: `accounts.json` becomes `accounts.py`. */
  lemma OutputFileOfSchema(version: string, t: Representation, name: string)
    requires Strings.EndsWith(name, ".json") && |name| > 5
    ensures OutputFile(version, t, name) == OutputDir(version, t) + "/" + name[..|name| - 5] + ".py"
  {
    Paths.StemOfJson(name);
    assert name[..|name| - 5] + ".json" == name;
    assert Paths.Stem(name) == name[..|name| - 5];
  }

  /** `schema_dir.glob('*.json')` matches every name ending in `.json`,
      hidden ones included. */
  predicate IsSchemaFile(name: string) {
    Strings.EndsWith(name, ".json")
  }

  /** One entry of a schema directory listing, with the parsed content of the
      file (only looked at for `*.json` names). */
  datatype SchemaEntry = SchemaEntry(name: string, content: Json)

  /** The files written so far, and the annotation error that stopped the
      loop, if one did: an exception leaves earlier outputs on disk. */
  datatype GenOutcome = GenOutcome(files: map<string, string>, error: Option<AnnotateError>)

  /** The output paths a listing produces. */
  function Outputs(version: string, t: Representation, listing: seq<SchemaEntry>): set<string>
    decreases |listing|
  {
    if |listing| == 0 then {}
    else
      (if IsSchemaFile(listing[0].name) then {OutputFile(version, t, listing[0].name)} else {})
      + Outputs(version, t, listing[1..])
  }

  /** No later schema file of the listing writes the same output path as entry `i`. */
  predicate LastWriter(version: string, t: Representation, listing: seq<SchemaEntry>, i: int)
    requires 0 <= i < |listing|
  {
    OutputFile(version, t, listing[i].name) !in Outputs(version, t, listing[i + 1..])
  }

  predicate AllAnnotate(listing: seq<SchemaEntry>, baseClass: Option<string>) {
    forall i :: 0 <= i < |listing| && IsSchemaFile(listing[i].name) ==> Annotate(listing[i].content, baseClass).Success?
  }

  /** The loop body of `generate_models` over the listing: annotate each
      schema file, pass it to the emitter, and (over)write its output file. */
  function WriteAll(
    version: string, t: Representation, baseClass: Option<string>, listing: seq<SchemaEntry>,
    emit: (Json, Representation, string) -> string, files: map<string, string>): (r: GenOutcome)
    ensures r.error.None? <==> AllAnnotate(listing, baseClass)
    ensures files.Keys <= r.files.Keys <= files.Keys + Outputs(version, t, listing)
    ensures r.error.None? ==> r.files.Keys == files.Keys + Outputs(version, t, listing)
    ensures forall k :: k in files && k !in Outputs(version, t, listing) ==> r.files[k] == files[k]
    decreases |listing|
  {
    if |listing| == 0 then GenOutcome(files, None)
    else
      var e := listing[0];
      var rest := listing[1..];
      assert forall i :: 0 < i < |listing| ==> listing[i] == rest[i - 1];
      if !IsSchemaFile(e.name) then
        WriteAll(version, t, baseClass, rest, emit, files)
      else
        match Annotate(e.content, baseClass)
        case Failure(err) => GenOutcome(files, Some(err))
        case Success(schema) =>
          WriteAll(version, t, baseClass, rest, emit, files[OutputFile(version, t, e.name) := emit(schema, t, InputFile(version, e.name))])
  }

  /** The files after handling one listing entry whose annotation succeeds. */
  function AfterEntry(
    version: string, t: Representation, baseClass: Option<string>, e: SchemaEntry,
    emit: (Json, Representation, string) -> string, files: map<string, string>): map<string, string>
    requires IsSchemaFile(e.name) ==> Annotate(e.content, baseClass).Success?
  {
    if IsSchemaFile(e.name)
    then files[OutputFile(version, t, e.name) := emit(Annotate(e.content, baseClass).value, t, InputFile(version, e.name))]
    else files
  }

  lemma WriteAllStep(
    version: string, t: Representation, baseClass: Option<string>, listing: seq<SchemaEntry>,
    emit: (Json, Representation, string) -> string, files: map<string, string>)
    requires |listing| > 0
    requires IsSchemaFile(listing[0].name) ==> Annotate(listing[0].content, baseClass).Success?
    ensures WriteAll(version, t, baseClass, listing, emit, files)
      == WriteAll(version, t, baseClass, listing[1..], emit, AfterEntry(version, t, baseClass, listing[0], emit, files))
  {
  }

  /** A file that no schema of the listing writes keeps its content. */
  lemma WriteAllKeeps(
    version: string, t: Representation, baseClass: Option<string>, listing: seq<SchemaEntry>,
    emit: (Json, Representation, string) -> string, files: map<string, string>, k: string)
    requires k in files && k !in Outputs(version, t, listing)
    ensures var r := WriteAll(version, t, baseClass, listing, emit, files);
      k in r.files && r.files[k] == files[k]
  {
  }

  /** Every schema file that no later file overwrites ends up holding what the
      emitter made of its annotated schema. */
  lemma {:induction false} WriteAllWrites(
    version: string, t: Representation, baseClass: Option<string>, listing: seq<SchemaEntry>,
    emit: (Json, Representation, string) -> string, files: map<string, string>, i: int)
    requires AllAnnotate(listing, baseClass)
    requires 0 <= i < |listing| && IsSchemaFile(listing[i].name) && LastWriter(version, t, listing, i)
    ensures var r := WriteAll(version, t, baseClass, listing, emit, files);
      && OutputFile(version, t, listing[i].name) in r.files
      && r.files[OutputFile(version, t, listing[i].name)]
      == emit(Annotate(listing[i].content, baseClass).value, t, InputFile(version, listing[i].name))
    decreases |listing|
  {
    var rest := listing[1..];
    AllAnnotateShift(listing, baseClass);
    var files' := AfterEntry(version, t, baseClass, listing[0], emit, files);
    WriteAllStep(version, t, baseClass, listing, emit, files);
    if i == 0 {
      WriteAllKeeps(version, t, baseClass, rest, emit, files', OutputFile(version, t, listing[0].name));
    } else {
      LastWriterShift(version, t, listing, i);
      WriteAllWrites(version, t, baseClass, rest, emit, files', i - 1);
    }
  }

  /** Dropping the first entry keeps every schema annotatable. */
  lemma AllAnnotateShift(listing: seq<SchemaEntry>, baseClass: Option<string>)
    requires |listing| > 0 && AllAnnotate(listing, baseClass)
    ensures AllAnnotate(listing[1..], baseClass)
    ensures IsSchemaFile(listing[0].name) ==> Annotate(listing[0].content, baseClass).Success?
  {
    assert forall j :: 0 <= j < |listing[1..]| ==> listing[1..][j] == listing[j + 1];
  }

  /** Dropping the first entry keeps a later entry the last writer of its output. */
  lemma LastWriterShift(version: string, t: Representation, listing: seq<SchemaEntry>, i: int)
    requires 0 < i < |listing| && LastWriter(version, t, listing, i)
    ensures listing[1..][i - 1] == listing[i]
    ensures LastWriter(version, t, listing[1..], i - 1)
  {
    assert listing[1..][i..] == listing[i + 1..];
  }

  lemma {:induction false} OutputsContain(version: string, t: Representation, listing: seq<SchemaEntry>, i: int)
    requires 0 <= i < |listing| && IsSchemaFile(listing[i].name)
    ensures OutputFile(version, t, listing[i].name) in Outputs(version, t, listing)
    decreases |listing|
  {
    if i > 0 {
      assert listing[1..][i - 1] == listing[i];
      OutputsContain(version, t, listing[1..], i - 1);
    }
  }

  /** `generate_models(version, t, base_class)` on the listing of the schema
      directory: touch the package marker, then write every schema file's
      output. */
  function GenerateModels(
    version: string, t: Representation, baseClass: Option<string>, listing: seq<SchemaEntry>,
    emit: (Json, Representation, string) -> string, files: map<string, string>): (r: GenOutcome)
    ensures r.error.None? <==> AllAnnotate(listing, baseClass)
    ensures files.Keys + {InitFile(version, t)} <= r.files.Keys
    ensures r.files.Keys <= files.Keys + {InitFile(version, t)} + Outputs(version, t, listing)
    ensures r.error.None? ==> r.files.Keys == files.Keys + {InitFile(version, t)} + Outputs(version, t, listing)
    ensures forall k :: k in files && k != InitFile(version, t) && k !in Outputs(version, t, listing) ==> r.files[k] == files[k]
  {
    var init := InitFile(version, t);
    var touched := if init in files then files else files[init := ""];
    WriteAll(version, t, baseClass, listing, emit, touched)
  }

  /** The base class name never reaches the emitter: any two truthy names
      produce the same files. */
  lemma {:induction false} WriteAllIgnoresName(
    version: string, t: Representation, a: string, b: string, listing: seq<SchemaEntry>,
    emit: (Json, Representation, string) -> string, files: map<string, string>)
    requires a != "" && b != ""
    ensures WriteAll(version, t, Some(a), listing, emit, files) == WriteAll(version, t, Some(b), listing, emit, files)
    decreases |listing|
  {
    if |listing| > 0 {
      var e := listing[0];
      AnnotateIgnoresName(e.content, a, b);
      if IsSchemaFile(e.name) && Annotate(e.content, Some(a)).Success? {
        var out := OutputFile(version, t, e.name);
        var files' := files[out := emit(Annotate(e.content, Some(a)).value, t, InputFile(version, e.name))];
        WriteAllIgnoresName(version, t, a, b, listing[1..], emit, files');
      } else {
        WriteAllIgnoresName(version, t, a, b, listing[1..], emit, files);
      }
    }
  }

  /** What `main` does: it never passes a base class, so no schema is ever
      annotated and generation cannot fail at that step. */
  lemma GenerateWithoutBaseClass(
    version: string, t: Representation, listing: seq<SchemaEntry>,
    emit: (Json, Representation, string) -> string, files: map<string, string>)
    ensures GenerateModels(version, t, None, listing, emit, files).error.None?
  {
  }

  /** A `generate_models` call `main` makes. */
  datatype Request = Request(version: string, representation: Representation)

  /** The calls of `main`'s loop: for each version, one per representation in
      the order Pydantic, Dataclass, TypedDict. */
  function Requests(versions: seq<string>): (rs: seq<Request>)
    ensures |rs| == 3 * |versions|
  {
    if |versions| == 0 then []
    else
      var head := [Request(versions[0], Pydantic), Request(versions[0], Dataclass), Request(versions[0], TypedDict)];
      head + Requests(versions[1..])
  }

  /** Call `3 * j + m` generates version `j` in the `m`-th representation. */
  lemma {:induction false} RequestAt(versions: seq<string>, j: int, m: int)
    requires 0 <= j < |versions| && 0 <= m < 3
    ensures Requests(versions)[3 * j + m] == Request(versions[j], Representations[m])
    decreases j
  {
    if j > 0 {
      RequestAt(versions[1..], j - 1, m);
      assert versions[1..][j - 1] == versions[j];
    }
  }

  /** The listing of a schema directory; a missing directory globs to nothing. */
  function Listing(store: map<string, seq<SchemaEntry>>, version: string): seq<SchemaEntry> {
    if SchemaDir(version) in store then store[SchemaDir(version)] else []
  }

  /** The files of `q` exist in `files`: its package marker, and the output
      of every schema file in its version's listing. */
  predicate Generated(q: Request, store: map<string, seq<SchemaEntry>>, files: map<string, string>) {
    && InitFile(q.version, q.representation) in files
    && forall j :: 0 <= j < |Listing(store, q.version)| && IsSchemaFile(Listing(store, q.version)[j].name) ==>
         OutputFile(q.version, q.representation, Listing(store, q.version)[j].name) in files
  }

  /** One call without a base class generates everything its request names. */
  lemma CallGenerates(
    q: Request, store: map<string, seq<SchemaEntry>>,
    emit: (Json, Representation, string) -> string, files: map<string, string>)
    ensures Generated(q, store, GenerateModels(q.version, q.representation, None, Listing(store, q.version), emit, files).files)
  {
    var listing := Listing(store, q.version);
    GenerateWithoutBaseClass(q.version, q.representation, listing, emit, files);
    forall j | 0 <= j < |listing| && IsSchemaFile(listing[j].name)
      ensures OutputFile(q.version, q.representation, listing[j].name) in Outputs(q.version, q.representation, listing)
    {
      OutputsContain(q.version, q.representation, listing, j);
    }
  }

  /** Carry out `main`'s requests in order, without a base class: every
      existing file stays, and every request's marker and model files exist. */
  function GenerateAll(
    requests: seq<Request>, store: map<string, seq<SchemaEntry>>,
    emit: (Json, Representation, string) -> string, files: map<string, string>): (r: map<string, string>)
    ensures files.Keys <= r.Keys
    ensures forall i :: 0 <= i < |requests| ==> Generated(requests[i], store, r)
    decreases |requests|
  {
    if |requests| == 0 then files
    else
      var q := requests[0];
      var g := GenerateModels(q.version, q.representation, None, Listing(store, q.version), emit, files);
      CallGenerates(q, store, emit, files);
      var r := GenerateAll(requests[1..], store, emit, g.files);
      assert forall i :: 0 < i < |requests| ==> requests[i] == requests[1..][i - 1];
      r
  }

  /** `Path('generated') / output_dir / 'latest'`. */
  function LinkPath(t: Representation): string {
    "generated/" + FormatToDir(t) + "/latest"
  }

  lemma LinkPathInjective(a: Representation, b: Representation)
    requires LinkPath(a) == LinkPath(b)
    ensures a == b
  {
    assert LinkPath(a)[10] == FormatToDir(a)[0];
    assert LinkPath(b)[10] == FormatToDir(b)[0];
    FormatToDirInjective(a, b);
  }

  /** Every representation's `latest` link points at `target`. */
  predicate LinksTo(links: map<string, string>, target: string) {
    forall t :: LinkPath(t) in links && links[LinkPath(t)] == target
  }

  /** Remove any existing link and create it again with the new target, for
      each of the given representation directories in turn. */
  function Relink(links: map<string, string>, reps: seq<Representation>, target: string): (r: map<string, string>)
    ensures forall t :: t in reps ==> LinkPath(t) in r && r[LinkPath(t)] == target
    ensures forall p :: p in links && (forall t :: t in reps ==> p != LinkPath(t)) ==> p in r && r[p] == links[p]
    ensures forall p :: p in r ==> p in links || exists t :: t in reps && p == LinkPath(t)
    decreases |reps|
  {
    if |reps| == 0 then links
    else
      var p := LinkPath(reps[0]);
      var removed := links - {p};
      Relink(removed[p := target], reps[1..], target)
  }

  /** `create_latest_symlinks` once the latest version is known: nothing
      without versions, otherwise every representation's `latest` link is
      made to point at `v<latest>`. */
  function LinkLatest(links: map<string, string>, latest: Option<string>): (r: map<string, string>)
    ensures latest.None? ==> r == links
    ensures latest.Some? ==> LinksTo(r, "v" + latest.value)
    ensures forall p :: p in links && (forall t :: p != LinkPath(t)) ==> p in r && r[p] == links[p]
    ensures forall p :: p in r ==> p in links || exists t :: p == LinkPath(t)
  {
    match latest
    case None => links
    case Some(v) =>
      AllRepresentations();
      Relink(links, Representations, "v" + v)
  }

  /** Linking twice with the same latest version leaves the same links as
      linking once. */
  lemma LinkLatestIdempotent(links: map<string, string>, latest: Option<string>)
    ensures LinkLatest(LinkLatest(links, latest), latest) == LinkLatest(links, latest)
  {
    var once := LinkLatest(links, latest);
    var twice := LinkLatest(once, latest);
    forall p | p in twice
      ensures p in once && twice[p] == once[p]
    {
      if exists t :: p == LinkPath(t) {
        var t :| p == LinkPath(t);
      }
    }
    forall p | p in once
      ensures p in twice
    {
      if exists t :: p == LinkPath(t) {
        var t :| p == LinkPath(t);
      }
    }
  }

  /** `create_latest_symlinks()` on the `schemas/` listing: the version keys
      raise on the first unparsable version, and otherwise the links are
      reset to the latest one. */
  method CreateLatestSymlinks(entries: seq<string>, links: map<string, string>)
    returns (r: Result<map<string, string>, string>)
    ensures var vs := Versions.VersionsOf(entries);
      && (r.Failure? <==> !Versions.AllParse(vs))
      && (r.Success? && |vs| == 0 ==> r.value == links)
      && (r.Success? && |vs| > 0 ==> exists k :: Versions.IsLatestAt(vs, k) && r.value == LinkLatest(links, Some(vs[k])))
      && (r.Success? && |vs| > 0 ==> exists k :: Versions.IsLatestAt(vs, k) && LinksTo(r.value, "v" + vs[k]))
  {
    var vs := Versions.VersionsOf(entries);
    var latest := Versions.SelectLatest(vs);
    match latest {
      case Failure(v) =>
        return Failure(v);
      case Success(choice) =>
        return Success(LinkLatest(links, choice));
    }
  }

  /** What one run of `main` did. */
  datatype RunOutcome =
    | NoVersions
    | Ran(requests: seq<Request>, files: map<string, string>, links: Result<map<string, string>, string>)

  /** `main()`: warn and stop without versions; otherwise generate every
      version in every representation, then link the latest version. */
  method RunAll(
    entries: seq<string>, store: map<string, seq<SchemaEntry>>,
    emit: (Json, Representation, string) -> string, files: map<string, string>, links: map<string, string>)
    returns (r: RunOutcome)
    ensures var vs := Versions.VersionsOf(entries);
      && (r.NoVersions? <==> |vs| == 0)
      && (r.Ran? ==> |r.requests| == 3 * |vs|)
      && (r.Ran? ==> forall k :: 0 <= k < |r.requests| ==> r.requests[k] == Request(vs[k / 3], Representations[k % 3]))
      && (r.Ran? ==> r.files == GenerateAll(r.requests, store, emit, files))
      && (r.Ran? ==> files.Keys <= r.files.Keys)
      && (r.Ran? ==> forall j, t :: 0 <= j < |vs| ==> Generated(Request(vs[j], t), store, r.files))
      && (r.Ran? ==> (r.links.Failure? <==> !Versions.AllParse(vs)))
      && (r.Ran? && r.links.Success? ==>
            exists k :: Versions.IsLatestAt(vs, k) && LinksTo(r.links.value, "v" + vs[k]))
  {
    var vs := Versions.VersionsOf(entries);
    if |vs| == 0 {
      return NoVersions;
    }
    var requests := Requests(vs);
    forall k | 0 <= k < |requests|
      ensures requests[k] == Request(vs[k / 3], Representations[k % 3])
    {
      RequestAt(vs, k / 3, k % 3);
    }
    var out := GenerateAll(requests, store, emit, files);
    forall j, t | 0 <= j < |vs|
      ensures Generated(Request(vs[j], t), store, out)
    {
      AllRepresentations();
      var m := if t == Pydantic then 0 else if t == Dataclass then 1 else 2;
      RequestAt(vs, j, m);
    }
    var linked := CreateLatestSymlinks(entries, links);
    return Ran(requests, out, linked);
  }
}
