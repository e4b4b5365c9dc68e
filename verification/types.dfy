/** Values shared by every stage of the forwarder: the failure-carrying wrappers,
    raw payload bytes, decoded JSON documents and the field values that reach a store. */
module Types {

  /** A value that may be absent: a Python `None` or a builtin that raised. */
  datatype Option<+T> = None | Some(value: T)

  /** A value or the error that replaced it. */
  datatype Result<+T, +E> = Success(value: T) | Failure(error: E)

  newtype byte = x: int | 0 <= x < 256

  /** An MQTT payload exactly as it arrives: uninterpreted bytes. */
  type Bytes = seq<byte>

  /** A document as `json.loads` returns it. JSON integers and floats are both carried
      as their numeric value. */
  datatype Json =
    | JNull
    | JBool(b: bool)
    | JNumber(x: real)
    | JString(s: string)
    | JArray(items: seq<Json>)
    | JObject(members: map<string, Json>)

  /** A field value handed to a store: a number produced by `float()`, a text string,
      or the raw payload left untouched. */
  datatype Value = Num(x: real) | Str(s: string) | Raw(b: Bytes)

  /** The decoded key/value mapping of one message. */
  type Fields = map<string, Value>

  /** The Python exceptions that can leave a stage of the pipeline. */
  datatype Error =
    | TypeError
    | ValueError
    | AttributeError
    /** `requests.exceptions.ConnectionError` and its subclasses (ConnectTimeout,
        ProxyError, SSLError), as raised by the InfluxDB client; not Python's builtin
        ConnectionError, and not ReadTimeout. */
    | ConnectionError
    | OtherError(name: string)
}
