/**
  JSON values as Python's `json` module hands them to the extractor:
  None, bool, int/float, str, list and dict.
 */
module Json {

  datatype Json =
    | JNull
    | JBool(b: bool)
    | JNumber(n: real)
    | JString(s: string)
    | JArray(items: seq<Json>)
    | JObject(fields: map<string, Json>)

  /** The empty Python list `[]`. */
  const EmptyList: Json := JArray([])

  /** `d.get(key, default)` on a dictionary: the stored value when the key is present, else the default. */
  function GetOr(fields: map<string, Json>, key: string, default: Json): Json {
    if key in fields then fields[key] else default
  }
}
