/**
 * A parsed JSON value as the Python code sees it after `json.loads`, with
 * the few Python operations applied to such values: truthiness, `dict.get`,
 * `a or b`, `isinstance(x, int)` and `int(x)`.
 */
module Json {
  import opened Wrappers
  import opened PyStr

  /**
   * A JSON value. Objects are finite maps (key order is not modelled). A
   * float is represented by its truncation towards zero and whether it is
   * non-zero, the only two facts the modelled code ever uses of a float.
   */
  datatype Json =
    | JNull
    | JBool(b: bool)
    | JInt(i: int)
    | JFloat(trunc: int, nonzero: bool)
    | JStr(s: string)
    | JArr(items: seq<Json>)
    | JObj(fields: map<string, Json>)

  /** `bool(v)` in Python. */
  predicate Truthy(v: Json) {
    match v
    case JNull => false
    case JBool(b) => b
    case JInt(i) => i != 0
    case JFloat(_, nz) => nz
    case JStr(s) => s != []
    case JArr(xs) => xs != []
    case JObj(m) => m != map[]
  }

  /**
   * `obj.get(key)` on a dict: a missing key gives None, which is the same
   * Python value as a JSON null.
   */
  function Get(obj: map<string, Json>, key: string): (r: Json)
    ensures key !in obj ==> r == JNull
    ensures key in obj ==> r == obj[key]
  {
    if key in obj then obj[key] else JNull
  }

  /**
   * `a or b or ... or z`: the first truthy operand, or the last operand when
   * none is truthy.
   */
  function OrChain(vs: seq<Json>): (r: Json)
    requires vs != []
    ensures r in vs
    ensures Truthy(r) <==> exists k :: 0 <= k < |vs| && Truthy(vs[k])
    ensures !Truthy(r) ==> r == vs[|vs| - 1]
  {
    if |vs| == 1 || Truthy(vs[0]) then vs[0] else OrChain(vs[1..])
  }

  /** `obj.get(k1) or obj.get(k2) or ...` followed by a fallback value. */
  function GetFirst(obj: map<string, Json>, keys: seq<string>, fallback: Json): (r: Json)
    ensures Truthy(r) || r == fallback
    ensures (exists k :: 0 <= k < |keys| && Truthy(Get(obj, keys[k]))) ==> Truthy(r)
  {
    if keys == [] then fallback
    else if Truthy(Get(obj, keys[0])) then Get(obj, keys[0])
    else GetFirst(obj, keys[1..], fallback)
  }

  /** `isinstance(v, int)`: booleans are ints in Python. */
  predicate IsPyInt(v: Json) {
    v.JInt? || v.JBool?
  }

  /** The integer value of a Python int (True is 1, False is 0). */
  function PyIntValue(v: Json): int
    requires IsPyInt(v)
  {
    if v.JInt? then v.i else if v.b then 1 else 0
  }

  /**
   * `int(v)`: ints and bools give their value, floats truncate towards zero,
   * strings are parsed; None where Python raises (None, lists, dicts,
   * malformed strings).
   */
  function ToInt(v: Json): (r: Option<int>)
    ensures IsPyInt(v) ==> r == Some(PyIntValue(v))
    ensures v.JFloat? ==> r == Some(v.trunc)
    ensures (v.JNull? || v.JArr? || v.JObj?) ==> r.None?
  {
    match v
    case JInt(i) => Some(i)
    case JBool(b) => Some(if b then 1 else 0)
    case JFloat(t, _) => Some(t)
    case JStr(s) => ParseInt(s)
    case _ => None
  }

  /**
   * What `for x in v` hands to a loop body that only looks at list or dict
   * items: the items of a list; nothing for a string or a dict, whose
   * elements (characters, keys) are strings that such a body skips; None
   * where Python raises TypeError (None, numbers, booleans).
   */
  function Iterated(v: Json): (r: Option<seq<Json>>)
    ensures v.JArr? ==> r == Some(v.items)
    ensures (v.JStr? || v.JObj?) ==> r == Some([])
    ensures r.None? <==> !(v.JArr? || v.JStr? || v.JObj?)
  {
    match v
    case JArr(xs) => Some(xs)
    case JStr(_) => Some([])
    case JObj(_) => Some([])
    case _ => None
  }
}
