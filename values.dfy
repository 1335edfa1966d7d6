/** The dynamically typed values the pipeline passes around: the row records
    built from the spreadsheet (column name to cell text) and the JSON
    configuration/translation objects. */
module Values {
  import opened Collections

  /** One row of one table: canonical column name to cell text. */
  type Record = map<string, string>

  /** `row[key] || ''`: a missing column reads as the empty string. */
  function Get(r: Record, k: string): (v: string)
    ensures k in r ==> v == r[k]
    ensures k !in r ==> v == []
  {
    if k in r then r[k] else []
  }

  /** `a || b` on strings: the empty string gives way. */
  function Or(a: string, b: string): (r: string)
    ensures a != [] ==> r == a
    ensures a == [] ==> r == b
  {
    if a != [] then a else b
  }

  /** A JSON value (numbers as exact reals; `undefined` is `None` where it can occur). */
  datatype Json =
    | JNull
    | JBool(b: bool)
    | JNum(n: real)
    | JStr(s: string)
    | JArr(items: seq<Json>)
    | JObj(fields: map<string, Json>)

  /** JavaScript truthiness of a possibly undefined JSON value. */
  predicate Truthy(v: Option<Json>) {
    match v
    case None => false
    case Some(JNull) => false
    case Some(JBool(b)) => b
    case Some(JNum(n)) => n != 0.0
    case Some(JStr(s)) => s != []
    case Some(JArr(_)) => true
    case Some(JObj(_)) => true
  }
}
