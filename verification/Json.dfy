/** JSON documents as the Python code sees them, and the few dictionary
    accessors it reads them through. */
module Json {
  datatype Json =
    | JNull
    | JBool(flag: bool)
    | JNumber(number: real)
    | JString(text: string)
    | JArray(items: seq<Json>)
    | JObject(members: map<string, Json>)

  type Object = map<string, Json>

  /** `_mapping`: anything but an object reads as the empty object. */
  function Mapping(value: Json): Object {
    if value.JObject? then value.members else map[]
  }

  /** `dict.get`: a missing member and an explicit null are the same. */
  function Get(fields: Object, key: string): Json {
    if key in fields then fields[key] else JNull
  }

  /** Member `key` of `value`, read through `_mapping`. */
  function Member(value: Json, key: string): Json {
    Get(Mapping(value), key)
  }

  /** Python truth of a JSON value. */
  predicate Truthy(value: Json) {
    match value
    case JNull => false
    case JBool(flag) => flag
    case JNumber(number) => number != 0.0
    case JString(text) => text != ""
    case JArray(items) => items != []
    case JObject(members) => members != map[]
  }

  /** Python's numbers include its booleans. */
  predicate Numeric(value: Json) {
    value.JNumber? || value.JBool?
  }

  function AsNumber(value: Json): real
    requires Numeric(value)
  {
    match value
    case JNumber(number) => number
    case JBool(flag) => if flag then 1.0 else 0.0
  }

  /** The list `value`, or the empty list for anything else. */
  function Items(value: Json): seq<Json> {
    if value.JArray? then value.items else []
  }

  /** The strings listed in an array, as `set(schema.get("required", []))`. */
  function Names(value: Json): set<string> {
    set item | item in Items(value) && item.JString? :: item.text
  }
}
