/** A JSON document as the Python handlers see it after parsing: a `dict`, `list`,
    `str`, `int`, `float`, `bool` or `None`, with Python's truthiness and the
    `AttributeError` messages that calling a missing method produces. */
module Json {

  datatype Value =
    | Null
    | Bool(b: bool)
    | Int(n: int)
    | Float(x: real)
    | Str(s: string)
    | List(items: seq<Value>)
    | Dict(fields: map<string, Value>)

  /** `bool(v)` in Python: `None`, `False`, zero, and empty strings, lists and dicts are falsy. */
  predicate Truthy(v: Value) {
    match v
    case Null => false
    case Bool(b) => b
    case Int(n) => n != 0
    case Float(x) => x != 0.0
    case Str(s) => s != ""
    case List(items) => items != []
    case Dict(fields) => fields != map[]
  }

  /** The falsy values are exactly the seven listed here, one per kind. */
  lemma FalsyValues(v: Value)
    ensures !Truthy(v) <==>
      v in {Null, Bool(false), Int(0), Float(0.0), Str(""), List([]), Dict(map[])}
  {
  }

  /** `type(v).__name__`: it names the kind of the value, so a dict, a string or a
      list is never reported under another kind's name. */
  function TypeName(v: Value): (name: string)
    ensures name == "dict" <==> v.Dict?
    ensures name == "str" <==> v.Str?
    ensures name == "list" <==> v.List?
  {
    match v
    case Null => "NoneType"
    case Bool(_) => "bool"
    case Int(_) => "int"
    case Float(_) => "float"
    case Str(_) => "str"
    case List(_) => "list"
    case Dict(_) => "dict"
  }

  /** `str(e)` for the `AttributeError` raised by `v.attr` when `v` has no such attribute. */
  function NoAttributeMessage(v: Value, attr: string): (message: string)
    ensures |message| == |TypeName(v)| + |attr| + 29
    ensures message[1..1 + |TypeName(v)|] == TypeName(v)
    ensures message[|message| - 1 - |attr|..|message| - 1] == attr
  {
    "'" + TypeName(v) + "' object has no attribute '" + attr + "'"
  }

  /** `fields.get(key, default)`. */
  function Get(fields: map<string, Value>, key: string, default: Value): (v: Value)
    ensures key in fields ==> v == fields[key]
    ensures key !in fields ==> v == default
  {
    if key in fields then fields[key] else default
  }
}
