/** The JSON values exchanged between the server, the hidden form fields and the widget. */
module JsonValue {

  /** A decoded JSON value. Numbers are integers: every number the panel exchanges
      (ids, positions) is an integer. */
  datatype Json =
    | JNull
    | JBool(b: bool)
    | JNum(n: int)
    | JStr(s: string)
    | JArr(items: seq<Json>)
    | JObj(members: map<string, Json>)
}
