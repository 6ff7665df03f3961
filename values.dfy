/** The data a schema converts, and the message an error carries. */
module Values {
  import opened Base
  import opened Strings

  /** Python values as they reach a schema: None, booleans, integers,
      strings, lists, tuples and dicts keyed by strings. */
  datatype Value =
    | VNone
    | VBool(b: bool)
    | VInt(i: int)
    | VStr(s: string)
    | VList(items: seq<Value>)
    | VTuple(items: seq<Value>)
    | VMap(entries: map<string, Value>)

  /** Python's `repr`, with a dict's keys in lexicographic order. */
  function Show(v: Value): string
    decreases v, 1, 0
  {
    match v
    case VNone => "None"
    case VBool(b) => if b then "True" else "False"
    case VInt(i) => IntToString(i)
    case VStr(s) => Quoted(s)
    case VList(xs) => "[" + ShowItems(xs) + "]"
    case VTuple(xs) => if |xs| == 1 then "(" + Show(xs[0]) + ",)" else "(" + ShowItems(xs) + ")"
    case VMap(m) => "{" + ShowEntries(v, SortedKeys(m.Keys)) + "}"
  }

  function ShowItems(xs: seq<Value>): string
    decreases xs
  {
    if xs == [] then ""
    else if |xs| == 1 then Show(xs[0])
    else Show(xs[0]) + ", " + ShowItems(xs[1..])
  }

  function ShowEntries(v: Value, keys: seq<string>): string
    requires v.VMap? && forall k :: k in keys ==> k in v.entries
    decreases v, 0, |keys|
  {
    if keys == [] then ""
    else
      var entry := Quoted(keys[0]) + ": " + Show(v.entries[keys[0]]);
      if |keys| == 1 then entry else entry + ", " + ShowEntries(v, keys[1..])
  }

  /** The `repr` of a string (escaping of quotes and control characters is
      not modelled). */
  function Quoted(s: string): string {
    "'" + s + "'"
  }

  /** Python's `str`: a string is itself, anything else its `repr`. */
  function Str(v: Value): string {
    if v.VStr? then v.s else Show(v)
  }

  /** Python's truth value. */
  predicate Truthy(v: Value) {
    match v
    case VNone => false
    case VBool(b) => b
    case VInt(i) => i != 0
    case VStr(s) => s != ""
    case VList(xs) => xs != []
    case VTuple(xs) => xs != []
    case VMap(m) => m != map[]
  }

  /** The elements of a list or tuple; every other value counts as not
      iterable. */
  function Items(v: Value): Option<seq<Value>> {
    if v.VList? || v.VTuple? then Some(v.items) else None
  }

  /** The message of an error: none (an aggregate), one string, or the list
      of strings an `All` validator collects. */
  datatype Msg = NoMsg | Text(text: string) | Texts(texts: seq<string>)

  /** The strings a message adds to a joined report; a false-valued message
      (None, the empty string, the empty list) adds nothing. */
  function Parts(m: Msg): seq<string> {
    match m
    case NoMsg => []
    case Text(s) => if s == "" then [] else [s]
    case Texts(ss) => ss
  }
}
