/** Python type expressions as `typing.get_origin` / `typing.get_args` see
    them: the input of the TypedDict renderer and the field annotations the
    tests inspect with `get_type_hints`. */
module PyTypes {

  /** What `get_origin(t)` returns for a parameterised type. */
  datatype Origin =
    | ListOrigin
    | DictOrigin
    | TupleOrigin
    | SetOrigin
    | NoneOrigin
    | UnionOrigin
    | OtherOrigin

  /** A type expression. Classes are identified by name: `Plain("int")` is the
      built-in `int`. */
  datatype PyType =
      /** A `BaseModel` subclass, known by its class name. */
    | ModelClass(name: string)
      /** `type(None)`. */
    | NoneType
      /** A class with a `__name__` (`int`, `str`, `bool`, ...). */
    | Plain(name: string)
      /** Anything without `__name__` and without an origin; `text` is `str(t)`. */
    | Opaque(text: string)
      /** A parameterised type: its origin, its arguments and `str(t)`. */
    | Generic(origin: Origin, args: seq<PyType>, text: string)
}
