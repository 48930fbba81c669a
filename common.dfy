/** Values shared by every part of the model: optional and failing results,
    JSON values as the application builds and parses them, HTTP responses,
    and the Python exceptions the handlers can let escape. */
module Common {

  datatype Option<+T> = None | Some(value: T)

  datatype Result<+T, +E> = Ok(value: T) | Err(error: E)

  /** A JSON value as built by the handlers and encoded by jsonify / orjson.
      Numbers are integers: no floating point value occurs in the modelled code.
      `JTime(t)` is a datetime field (microseconds since 0001-01-01), which the
      serializer writes as the text `Calendar.IsoFormat(t)`. */
  datatype Json =
    | JNull
    | JBool(b: bool)
    | JInt(i: int)
    | JStr(s: string)
    | JTime(micros: nat)
    | JArr(items: seq<Json>)
    | JObj(fields: map<string, Json>)

  /** Python truthiness of a decoded JSON value (`if value:`). */
  predicate Truthy(j: Json) {
    match j
    case JNull => false
    case JBool(b) => b
    case JInt(i) => i != 0
    case JStr(s) => s != ""
    case JTime(_) => true
    case JArr(a) => a != []
    case JObj(m) => m != map[]
  }

  /** An integer query-string argument: missing, the text of an integer
      (already converted, as `int(...)` does), or text `int(...)` rejects. */
  datatype QueryInt = Absent | Integer(n: int) | Malformed(text: string)

  /** An HTTP response: status code and body. A plain-text body is a `JStr`. */
  datatype Response = Response(status: int, body: Json)

  /** The `{'msg': text}` body most handlers answer with. */
  function Msg(status: int, text: string): (r: Response)
    ensures r.status == status && r.body.JObj? && r.body.fields.Keys == {"msg"}
    ensures r.body.fields["msg"] == JStr(text)
  {
    Response(status, JObj(map["msg" := JStr(text)]))
  }

  /** Exceptions that escape a handler or a model method; Flask answers an
      escaped exception with a 500 response. */
  datatype Exception =
    | ValueError(message: string)
    | ValidationError(message: string)
    | OperationError
    | OverflowError
    | ZeroDivisionError
    | DoesNotExist
    | MultipleObjectsReturned
    | KeyError(key: string)
    | NotUniqueError
    | TransportError(message: string)

  /** Python's floor division `a // b`. Dafny's `/` is Euclidean, which agrees
      with floor division for a positive divisor only. */
  function FloorDiv(a: int, b: int): (q: int)
    requires b != 0
    ensures b > 0 ==> q * b <= a < q * b + b
    ensures b < 0 ==> q * b >= a > q * b + b
  {
    if b > 0 then a / b else (-a) / (-b)
  }
}
