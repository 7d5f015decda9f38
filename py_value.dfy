/** The values a JSON decoder hands back, with the few Python operations the reply parser
    applies to them: `dict.get`, iteration with `for`, and `str()`. */
module PyValue {
  import opened Outcomes
  import opened Text

  /** A decoded JSON value. `JFloat` carries Python's own `repr` of the float; `JObj`
      holds a dict's items in insertion order, one per key. */
  datatype JsonValue =
    | JNull
    | JBool(b: bool)
    | JInt(i: int)
    | JFloat(repr: string)
    | JStr(s: string)
    | JArr(items: seq<JsonValue>)
    | JObj(fields: seq<(string, JsonValue)>)

  /** `type(v).__name__`, as it appears in Python's error messages. */
  function TypeName(v: JsonValue): string {
    match v
    case JNull => "NoneType"
    case JBool(_) => "bool"
    case JInt(_) => "int"
    case JFloat(_) => "float"
    case JStr(_) => "str"
    case JArr(_) => "list"
    case JObj(_) => "dict"
  }

  /** The message of the `AttributeError` raised by `v.name` when `v` lacks it. */
  function NoAttribute(v: JsonValue, name: string): string {
    "'" + TypeName(v) + "' object has no attribute '" + name + "'"
  }

  /** `d.get(key, default)` on a dict's items: the value stored under `key`, else `default`. */
  function Get(fields: seq<(string, JsonValue)>, key: string, default: JsonValue): (r: JsonValue)
    ensures (forall i :: 0 <= i < |fields| ==> fields[i].0 != key) ==> r == default
    ensures forall i :: 0 <= i < |fields| && fields[i].0 == key && (forall j :: 0 <= j < i ==> fields[j].0 != key)
                        ==> r == fields[i].1
  {
    if fields == [] then default
    else if fields[0].0 == key then fields[0].1
    else Get(fields[1..], key, default)
  }

  /** What `for x in v` walks over: a list's items, a string's characters, a dict's keys;
      anything else raises `TypeError`. */
  function Iterate(v: JsonValue): (r: Attempt<seq<JsonValue>>)
    ensures r.Raised? <==> !(v.JArr? || v.JStr? || v.JObj?)
    ensures v.JArr? ==> r == Ok(v.items)
    ensures v.JStr? ==> r.Ok? && |r.value| == |v.s| && forall i :: 0 <= i < |v.s| ==> r.value[i] == JStr([v.s[i]])
    ensures v.JObj? ==> r.Ok? && |r.value| == |v.fields| && forall i :: 0 <= i < |v.fields| ==> r.value[i] == JStr(v.fields[i].0)
    ensures r.Ok? && !v.JArr? ==> forall i :: 0 <= i < |r.value| ==> r.value[i].JStr?
  {
    match v
    case JArr(items) => Ok(items)
    case JStr(s) => Ok(seq(|s|, i requires 0 <= i < |s| => JStr([s[i]])))
    case JObj(fields) => Ok(seq(|fields|, i requires 0 <= i < |fields| => JStr(fields[i].0)))
    case _ => Raised("'" + TypeName(v) + "' object is not iterable")
  }

  /** `str(v)`. Scalars render exactly as Python renders them; lists and dicts render their
      elements with `PyRepr`. */
  function PyStr(v: JsonValue): string
    decreases v, 0
  {
    match v
    case JNull => "None"
    case JBool(b) => if b then "True" else "False"
    case JInt(i) => IntToString(i)
    case JFloat(r) => r
    case JStr(s) => s
    case JArr(items) =>
      "[" + Join(seq(|items|, k requires 0 <= k < |items| => PyRepr(items[k])), ", ") + "]"
    case JObj(fields) =>
      "{" + Join(seq(|fields|, k requires 0 <= k < |fields| =>
                   "'" + fields[k].0 + "': " + PyRepr(fields[k].1)), ", ") + "}"
  }

  /** `repr(v)` inside a container: strings are quoted (without Python's escaping). */
  function PyRepr(v: JsonValue): string
    decreases v, 1
  {
    if v.JStr? then "'" + v.s + "'" else PyStr(v)
  }
}
