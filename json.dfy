/** JSON values as the back end receives them from Flask's request.get_json()
    and as the front end builds them with JSON.stringify. */
module Json {

  datatype Json =
    | JNull
    | JBool(b: bool)
    | JNum(n: real)
    | JStr(s: string)
    | JArr(items: seq<Json>)
    | JObj(fields: map<string, Json>)
}
