/**
 * JSON values and the text files that hold them. `JSON.parse` and
 * `JSON.stringify` are not modelled character by character: a file's text is
 * either text that parses to a value or text that `JSON.parse` rejects.
 */
module JsonText {
  import opened Wrappers

  datatype Json =
    | JNull
    | JBool(b: bool)
    | JNum(n: real)
    | JStr(s: string)
    | JArr(items: seq<Json>)
    | JObj(fields: map<string, Json>)

  /** The contents of a text file, as far as `JSON.parse` can tell. */
  datatype Text = Parsable(value: Json) | Malformed

  /** The `SyntaxError` that `JSON.parse` throws. */
  datatype SyntaxError = SyntaxError

  /** `JSON.parse`. */
  function Parse(t: Text): (r: Result<Json, SyntaxError>)
    ensures r.Success? <==> t.Parsable?
    ensures t.Parsable? ==> r.value == t.value
  {
    match t
    case Parsable(v) => Success(v)
    case Malformed => Failure(SyntaxError)
  }

  /** `JSON.stringify`: the text it produces parses back to the value it was given. */
  function Stringify(v: Json): (t: Text)
    ensures Parse(t) == Success(v)
  {
    Parsable(v)
  }
}
