/** The value `encoding/json` produces when it unmarshals into an `interface{}`:
    nil, bool, float64, string, []interface{} or map[string]interface{}.
    JSON numbers are kept as exact reals; float64 rounding is not modelled. */
module Json {

  datatype JVal =
    | JNull
    | JBool(b: bool)
    | JNum(n: real)
    | JStr(s: string)
    | JArr(elems: seq<JVal>)
    | JObj(fields: map<string, JVal>)
}
