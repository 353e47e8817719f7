/** The JSON values the controller exchanges with the monitoring backend
    (JSON-RPC replies, sender payloads). Only integral numbers are modelled. */
module Json {

  datatype Json =
    | JNull
    | JBool(b: bool)
    | JNumber(n: int)
    | JString(s: string)
    | JArray(items: seq<Json>)
    | JObject(fields: map<string, Json>)
}
