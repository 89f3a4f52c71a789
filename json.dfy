/** JSON-like values as the metadata API returns them once parsed, and the
    Python built-ins the organiser applies to them (`dict.get`, truthiness,
    `str()`). */
module Json {
  import opened Wrappers
  import opened Text

  /** A parsed JSON value. A mapping keeps its entries in insertion order, as a
      Python dict does; floats are not modelled. */
  datatype Json =
    | JNull
    | JBool(b: bool)
    | JInt(i: int)
    | JStr(s: string)
    | JList(items: seq<Json>)
    | JObj(fields: seq<Field>)

  datatype Field = Field(key: string, val: Json)

  /** Library formatting the model does not look inside: `json.dumps(v,
      ensure_ascii=False)`, the `repr` text Python's `str()` gives a list or a
      dict, and `datetime.strptime(s, "%Y-%m-%dT%H:%M:%S%z").strftime("%Y%m%d")`
      (`None` where `strptime` raises `ValueError`). */
  datatype Env = Env(
    dumps: Json -> string,
    repr: Json -> string,
    reformatDate: string -> Option<string>)

  /** The Python exceptions the modelled code can raise and not catch itself. */
  datatype PyError = AttributeError | TypeError | ValueError

  /** Number of constructors in a value; bounds every recursion over nested data. */
  function Size(j: Json): nat {
    match j
    case JList(items) => 1 + SizeItems(items)
    case JObj(fields) => 1 + SizeFields(fields)
    case _ => 1
  }

  function SizeItems(items: seq<Json>): nat
    decreases items
  {
    if items == [] then 0 else Size(items[0]) + SizeItems(items[1..])
  }

  function SizeFields(fields: seq<Field>): nat
    decreases fields
  {
    if fields == [] then 0 else 1 + Size(fields[0].val) + SizeFields(fields[1..])
  }

  /** Python `d.get(key)`: the value stored under `key`, if any. */
  function Lookup(fields: seq<Field>, key: string): (r: Option<Json>)
    ensures r.Some? <==> exists k :: 0 <= k < |fields| && fields[k].key == key
    ensures r.Some? ==> exists k :: 0 <= k < |fields| && fields[k] == Field(key, r.value)
    decreases |fields|
  {
    if fields == [] then None
    else if fields[0].key == key then Some(fields[0].val)
    else
      var r := Lookup(fields[1..], key);
      assert forall k :: 1 <= k < |fields| ==> fields[k] == fields[1..][k - 1];
      r
  }

  /** Python `d.get(key, default)`. */
  function Get(fields: seq<Field>, key: string, default: Json): Json {
    Lookup(fields, key).GetOr(default)
  }

  /** Python truthiness of a value. */
  predicate Truthy(j: Json) {
    match j
    case JNull => false
    case JBool(b) => b
    case JInt(i) => i != 0
    case JStr(s) => s != ""
    case JList(items) => items != []
    case JObj(fields) => fields != []
  }

  /** Python `str(v)`; also what an f-string or `format(v)` prints. */
  function PyStr(env: Env, j: Json): string {
    match j
    case JNull => "None"
    case JBool(b) => if b then "True" else "False"
    case JInt(i) => IntToString(i)
    case JStr(s) => s
    case _ => env.repr(j)
  }
}
