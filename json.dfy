/**
 * The JSON tokens the compaction codec reads and writes (Newtonsoft's JToken tree).
 * Numbers are integers; an object is its ordered list of properties.
 */
module Json {

  datatype Json =
    | JNull
    | JBool(b: bool)
    | JNumber(n: int)
    | JString(s: string)
    | JArray(items: seq<Json>)
    | JObject(props: seq<(string, Json)>)

  /**
   * A record as the serializer sees it (JObject.FromObject): its properties in
   * declaration order, name and value.
   */
  type Record = seq<(string, Json)>
}
