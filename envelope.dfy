/**
 * The response envelopes of the endpoint (sendFailure and sendSuccess in
 * classes/class-endpoint.php) as values: the object that sendJSON would hand
 * to json_encode. The final JSON encoding is not part of this model.
 */
module Envelope {
  import opened JsonEscape

  /** A JSON value, as json_encode would see it. */
  datatype Json =
    | JNull
    | JBool(b: bool)
    | JInt(i: int)
    | JString(s: string)
    | JArray(items: seq<Json>)
    | JObject(fields: map<string, Json>)

  /** The properties of the response object, by name. */
  type Response = map<string, Json>

  const SuccessKey: string := "success"
  const ErrorKey: string := "errorMessage"

  /** Response data that cannot overwrite the two fixed properties of a success envelope. */
  predicate ReservedFree(data: map<string, Json>) {
    SuccessKey !in data && ErrorKey !in data
  }

  /** The envelope sendFailure builds: success false and the escaped message. */
  function FailureEnvelope(message: string): Response {
    map[SuccessKey := JBool(false), ErrorKey := JString(EscapeJsonString(message))]
  }

  /**
   * The envelope sendSuccess builds: success true, a null error message, and
   * then every entry of the response data copied in (an entry with one of the
   * two fixed names would overwrite it).
   */
  function SuccessEnvelope(data: map<string, Json>): Response {
    map[SuccessKey := JBool(true), ErrorKey := JNull] + data
  }

  /** Which envelope a handler asks for: sendFailure with its message, or sendSuccess with the response data. */
  datatype Answer = Failure(message: string) | Success(payload: map<string, Json>)

  /** The envelope sendJSON is handed for an answer. */
  function Render(a: Answer): Response {
    match a
    case Failure(m) => FailureEnvelope(m)
    case Success(d) => SuccessEnvelope(d)
  }

  /** Every response: a boolean success, and an error message that is null exactly on success. */
  predicate WellFormed(r: Response) {
    SuccessKey in r && r[SuccessKey].JBool? && ErrorKey in r &&
    (r[SuccessKey].b <==> r[ErrorKey] == JNull)
  }

  predicate IsFailure(r: Response) {
    SuccessKey in r && r[SuccessKey] == JBool(false)
  }

  /** A failure envelope carries only its two properties, the message escaped. */
  lemma FailureShape(message: string)
    ensures WellFormed(FailureEnvelope(message)) && IsFailure(FailureEnvelope(message))
    ensures FailureEnvelope(message).Keys == {SuccessKey, ErrorKey}
    ensures FailureEnvelope(message)[ErrorKey] == JString(EscapeJsonString(message))
  {
  }

  /**
   * A success envelope is well formed and holds exactly the response data
   * besides its two fixed properties, values unchanged and unescaped.
   */
  lemma SuccessShape(data: map<string, Json>)
    requires ReservedFree(data)
    ensures WellFormed(SuccessEnvelope(data)) && !IsFailure(SuccessEnvelope(data))
    ensures SuccessEnvelope(data)[SuccessKey] == JBool(true) && SuccessEnvelope(data)[ErrorKey] == JNull
    ensures SuccessEnvelope(data).Keys == {SuccessKey, ErrorKey} + data.Keys
    ensures forall k :: k in data ==> SuccessEnvelope(data)[k] == data[k]
  {
  }

  /** Success and failure envelopes never coincide, whatever the message or the data. */
  lemma EnvelopesDistinct(message: string, data: map<string, Json>)
    requires ReservedFree(data)
    ensures FailureEnvelope(message) != SuccessEnvelope(data)
  {
    assert SuccessEnvelope(data)[SuccessKey] != FailureEnvelope(message)[SuccessKey];
  }
}
