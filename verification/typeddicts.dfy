/** generate_typeddicts.py: rendering a type expression as TypedDict source
    text, emitting a TypedDict class for a model, and the handling of the
    command-line arguments. */
module TypedDicts {
  import opened Wrappers
  import opened PyTypes
  import Strings
  import Paths

  /** Why `python_type_to_typeddict` raises: `get_args(t)[0]` on a bare
      `typing.List` or `typing.Set` (an `IndexError`), or unpacking the
      arguments of a dict alias that does not have exactly two (a `ValueError`). */
  datatype RenderError = MissingArgument | DictArity(count: nat)

  /** The arguments of `t` that `python_type_to_typeddict` actually renders
      all have the arity their origin needs: list and set aliases carry at
      least one argument (only the first is rendered), dict aliases exactly two. */
  predicate WellArity(t: PyType)
    decreases t
  {
    match t
    case Generic(o, args, _) =>
      (match o
       case ListOrigin => |args| >= 1 && WellArity(args[0])
       case SetOrigin => |args| >= 1 && WellArity(args[0])
       case DictOrigin => |args| == 2 && WellArity(args[0]) && WellArity(args[1])
       case TupleOrigin => forall i :: 0 <= i < |args| ==> WellArity(args[i])
       case UnionOrigin => forall i :: 0 <= i < |args| ==> WellArity(args[i])
       case NoneOrigin => true
       case OtherOrigin => true)
    case _ => true
  }

  /** `python_type_to_typeddict(t)`. */
  function Render(t: PyType): (r: Result<string, RenderError>)
    ensures r.Success? <==> WellArity(t)
    decreases t
  {
    match t
    case ModelClass(n) => Success("\"" + n + "Dict\"")
    case NoneType => Success("None")
    case Plain(n) => Success(n)
    case Opaque(text) => Success(text)
    case Generic(o, args, text) =>
      match o
      case ListOrigin =>
        if |args| == 0 then Failure(MissingArgument)
        else
          var a :- Render(args[0]);
          Success("list[" + a + "]")
      case SetOrigin =>
        if |args| == 0 then Failure(MissingArgument)
        else
          var a :- Render(args[0]);
          Success("set[" + a + "]")
      case DictOrigin =>
        if |args| != 2 then Failure(DictArity(|args|))
        else
          var k :- Render(args[0]);
          var v :- Render(args[1]);
          Success("dict[" + k + ", " + v + "]")
      case TupleOrigin =>
        var parts :- RenderAll(args);
        Success("tuple[" + Strings.Join(parts, ", ") + "]")
      case NoneOrigin => Success("None")
      case UnionOrigin =>
        var parts :- RenderAll(args);
        Success(Strings.Join(parts, " | "))
      case OtherOrigin => Success(text)
  }

  /** The generator expressions over `get_args(t)`: render every argument in
      order; the first argument that raises stops the whole rendering. */
  function RenderAll(ts: seq<PyType>): (r: Result<seq<string>, RenderError>)
    ensures r.Success? <==> forall i :: 0 <= i < |ts| ==> WellArity(ts[i])
    ensures r.Success? ==> |r.value| == |ts| && forall i :: 0 <= i < |ts| ==> Render(ts[i]) == Success(r.value[i])
    ensures r.Failure? ==>
      exists i :: 0 <= i < |ts| && Render(ts[i]) == Failure(r.error) && forall j :: 0 <= j < i ==> WellArity(ts[j])
    decreases ts
  {
    if |ts| == 0 then Success([])
    else
      var h :- Render(ts[0]);
      var rest :- RenderAll(ts[1..]);
      assert forall i :: 0 < i < |ts| ==> ts[i] == ts[1..][i - 1];
      Success([h] + rest)
  }

  /** No name or text that `Render` copies into its output contains `c`. */
  predicate Avoids(t: PyType, c: char)
    decreases t
  {
    match t
    case ModelClass(n) => c !in n
    case NoneType => true
    case Plain(n) => c !in n
    case Opaque(text) => c !in text
    case Generic(o, args, text) =>
      (o == OtherOrigin ==> c !in text) && forall i :: 0 <= i < |args| ==> Avoids(args[i], c)
  }

  /** The rendering of a type whose names have no line break is a single
      line: none of the fixed text the renderer adds contains one. */
  lemma {:induction false} RenderSingleLine(t: PyType)
    requires WellArity(t) && Avoids(t, '\n')
    ensures '\n' !in Render(t).value
    decreases t
  {
    match t
    case Generic(o, args, text) =>
      if o == ListOrigin || o == SetOrigin {
        RenderSingleLine(args[0]);
      } else if o == DictOrigin {
        RenderSingleLine(args[0]);
        RenderSingleLine(args[1]);
      } else if o == TupleOrigin || o == UnionOrigin {
        var parts := RenderAll(args).value;
        forall i | 0 <= i < |parts|
          ensures '\n' !in parts[i]
        {
          RenderSingleLine(args[i]);
        }
        Strings.JoinAvoids(parts, if o == TupleOrigin then ", " else " | ", '\n');
      }
    case _ =>
  }

  /** An optional annotation `X | None` renders as `X`'s text followed by
      ` | None`: the form `_is_optional` recognises in the generated code. */
  lemma RenderOptional(x: PyType, text: string)
    requires WellArity(x)
    ensures Render(Generic(UnionOrigin, [x, NoneType], text)) == Success(Render(x).value + " | None")
  {
    var args := [x, NoneType];
    assert WellArity(args[0]) && WellArity(args[1]);
    var parts := RenderAll(args).value;
    assert Render(args[0]) == Success(parts[0]) && Render(args[1]) == Success(parts[1]);
    assert parts == [Render(x).value, "None"];
    assert Render(Generic(UnionOrigin, args, text)) == Success(Strings.Join(parts, " | "));
    assert Strings.Join(parts, " | ") == parts[0] + " | " + parts[1] by {
      assert parts[1..] == ["None"];
    }
    assert Render(x).value + " | " + "None" == Render(x).value + " | None";
  }

  /** The first line `model_to_typeddict` emits. */
  function ClassHeader(name: string): string {
    "class " + name + "Dict(TypedDict, total=False):"
  }

  /** The line for one field. */
  function FieldLine(field: string, rendered: string): string {
    "    " + field + ": " + rendered
  }

  /** The field lines, in field order; a field whose annotation does not
      render stops the emission. */
  function FieldLines(fields: seq<(string, PyType)>): (r: Result<seq<string>, RenderError>)
    ensures r.Success? <==> forall i :: 0 <= i < |fields| ==> WellArity(fields[i].1)
    ensures r.Success? ==> |r.value| == |fields|
    ensures r.Success? ==> forall i :: 0 <= i < |fields| ==> r.value[i] == FieldLine(fields[i].0, Render(fields[i].1).value)
  {
    if |fields| == 0 then Success([])
    else
      var h :- Render(fields[0].1);
      var rest :- FieldLines(fields[1..]);
      assert forall i :: 0 < i < |fields| ==> fields[i] == fields[1..][i - 1];
      Success([FieldLine(fields[0].0, h)] + rest)
  }

  /** `model_to_typeddict(model)` for a model named `name` with the given
      fields (name and annotation, in declaration order). */
  function ModelToTypedDict(name: string, fields: seq<(string, PyType)>): Result<string, RenderError> {
    var lines :- FieldLines(fields);
    Success(Strings.Join([ClassHeader(name)] + lines, "\n"))
  }

  /** Line structure of the emitted class: the header, then exactly one line
      per field, in field order, holding the field name and its rendered
      annotation. */
  lemma TypedDictLines(name: string, fields: seq<(string, PyType)>)
    requires '\n' !in name
    requires forall i :: 0 <= i < |fields| ==> '\n' !in fields[i].0 && WellArity(fields[i].1) && Avoids(fields[i].1, '\n')
    ensures ModelToTypedDict(name, fields).Success?
    ensures var lines := Strings.Split(ModelToTypedDict(name, fields).value, '\n');
      && |lines| == |fields| + 1
      && lines[0] == ClassHeader(name)
      && forall i :: 0 <= i < |fields| ==> lines[i + 1] == FieldLine(fields[i].0, Render(fields[i].1).value)
  {
    var body := FieldLines(fields).value;
    var all := [ClassHeader(name)] + body;
    forall i | 0 <= i < |all|
      ensures '\n' !in all[i]
    {
      if i > 0 {
        RenderSingleLine(fields[i - 1].1);
      }
    }
    Strings.SplitJoin(all, '\n');
  }

  /** What `main` does with one command-line argument. */
  datatype ArgAction =
    | Skip(arg: string)
    | Export(moduleName: string, className: string, schemaFile: string)

  /** An argument without `.` is skipped; otherwise it is split at its last
      `.` into module and class, and the schema goes to the argument with its
      suffix replaced by `.json`. */
  function ArgActionOf(arg: string): (r: ArgAction)
    ensures r.Skip? <==> '.' !in arg
    ensures r.Skip? ==> r.arg == arg
    ensures r.Export? ==> r.moduleName + "." + r.className == arg && '.' !in r.className
    ensures r.Export? ==> r.schemaFile == Paths.WithSuffix(arg, ".json")
  {
    match Strings.RSplitOnce(arg, '.')
    case None => Skip(arg)
    case Some((m, c)) => Export(m, c, Paths.WithSuffix(arg, ".json"))
  }

  /** The lines `main` prints: the import header, then one line per argument. */
  function MainOutput(args: seq<string>): (out: seq<string>)
    ensures |out| == |args| + 1
    ensures out[0] == "from typing import TypedDict\n"
    ensures forall i :: 0 <= i < |args| ==> out[i + 1] == ActionLine(ArgActionOf(args[i]))
  {
    ["from typing import TypedDict\n"] + ActionLines(args)
  }

  function ActionLines(args: seq<string>): (lines: seq<string>)
    ensures |lines| == |args|
    ensures forall i :: 0 <= i < |args| ==> lines[i] == ActionLine(ArgActionOf(args[i]))
  {
    if |args| == 0 then [] else [ActionLine(ArgActionOf(args[0]))] + ActionLines(args[1..])
  }

  function ActionLine(a: ArgAction): string {
    match a
    case Skip(arg) => "# Skipping " + arg + ": must be in module.ModelName format"
    case Export(_, _, file) => "Wrote schema to " + file
  }

  /** Two classes of the same module are written to the same schema file:
      the class name is the suffix `with_suffix` replaces, so `pkg.mod.A`
      and `pkg.mod.B` both go to `pkg.mod.json`. */
  lemma SchemaFileDropsClass(moduleName: string, c1: string, c2: string)
    requires |moduleName| > 0 && |c1| > 0 && |c2| > 0 && '.' !in c1 && '.' !in c2
    ensures ArgActionOf(moduleName + "." + c1).schemaFile == moduleName + ".json"
    ensures ArgActionOf(moduleName + "." + c2).schemaFile == moduleName + ".json"
  {
    Paths.StemOfDotted(moduleName, c1);
    Paths.StemOfDotted(moduleName, c2);
    assert '.' in moduleName + "." + c1 by {
      assert (moduleName + "." + c1)[|moduleName|] == '.';
    }
    assert '.' in moduleName + "." + c2 by {
      assert (moduleName + "." + c2)[|moduleName|] == '.';
    }
  }
}
