/** A JSON document, as `serde_json::Value` represents it. */
module Json {

  datatype Value =
    | Null
    | Bool(b: bool)
    | Number(text: string)
    | Str(text: string)
    | Array(items: seq<Value>)
    | Object(fields: map<string, Value>)
}
