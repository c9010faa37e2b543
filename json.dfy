/** The decoded JSON values the model works on (JSON text lexing is not
    modelled), the kinds of `DecodingError` that `JSONDecoder` throws, and
    the two keyed-container reads the Meal decoder uses:
    `decode(String.self, forKey:)` and `decodeIfPresent(String.self, forKey:)`. */
module Json {
  import opened Wrappers

  datatype JsonValue =
    | JNull
    | JNum(number: int)
    | JStr(str: string)
    | JArr(items: seq<JsonValue>)
    | JObj(fields: map<string, JsonValue>)

  /** A keyed container: the members of one JSON object. */
  type JsonObject = map<string, JsonValue>

  /** The `DecodingError` cases, each with the key it was raised for. */
  datatype DecodeError =
    | KeyNotFound(key: string)
    | ValueNotFound(key: string)
    | TypeMismatch(key: string)
    | DataCorrupted(key: string)

  /** `decode(String.self, forKey:)`: the key must be present, non-null and
      a string. */
  function DecodeString(obj: JsonObject, key: string): Result<string, DecodeError> {
    if key !in obj then Failure(KeyNotFound(key))
    else match obj[key]
      case JStr(s) => Success(s)
      case JNull => Failure(ValueNotFound(key))
      case _ => Failure(TypeMismatch(key))
  }

  /** `decodeIfPresent(String.self, forKey:)`: absent or null gives `None`,
      a string gives it, anything else is a type mismatch. */
  function DecodeStringIfPresent(obj: JsonObject, key: string): Result<Option<string>, DecodeError> {
    if key !in obj then Success(None)
    else match obj[key]
      case JStr(s) => Success(Some(s))
      case JNull => Success(None)
      case _ => Failure(TypeMismatch(key))
  }

  /** `encodeIfPresent(_:forKey:)` for a string: writes the key only when
      the value is present. */
  function EncodeStringIfPresent(obj: JsonObject, key: string, value: Option<string>): JsonObject {
    if value.Some? then obj[key := JStr(value.value)] else obj
  }

  /** What `encodeIfPresent` writes under a new key, `decodeIfPresent`
      reads back. */
  lemma StringIfPresentRoundTrip(obj: JsonObject, key: string, value: Option<string>)
    requires key !in obj
    ensures DecodeStringIfPresent(EncodeStringIfPresent(obj, key, value), key) == Success(value)
  {
  }

  /** `decode` succeeds exactly on a present string, and `decodeIfPresent`
      agrees with it there. */
  lemma DecodeStringAgrees(obj: JsonObject, key: string)
    ensures DecodeString(obj, key).Success? <==> key in obj && obj[key].JStr?
    ensures DecodeString(obj, key).Success? ==>
              DecodeStringIfPresent(obj, key) == Success(Some(DecodeString(obj, key).value))
    ensures DecodeStringIfPresent(obj, key).Failure? ==> DecodeString(obj, key).Failure?
  {
  }
}
