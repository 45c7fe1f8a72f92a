/**
  JSON-RPC 2.0 messages as the RPC package classifies them (`json.go`). A message is already parsed;
  `id` and `name` (the method) are the raw strings, None and "" when absent.
 */
module JsonRpc {
  import opened Options

  /** Payloads are opaque: a result, an error with its code, or neither. */
  datatype Payload = NoPayload | ResultOf(value: nat) | ErrorOf(code: int)

  datatype Message = Message(version: string, id: Option<string>, name: string, hasParams: bool, payload: Payload)

  const VERSION: string := "2.0"
  const NOTIFICATION_METHOD_SUFFIX: string := "_subscription"
  const NULL_ID: Option<string> := Some("null")

  predicate HasValidVersion(m: Message) {
    m.version == VERSION
  }

  predicate HasValidId(m: Message) {
    m.id.Some? && |m.id.value| > 0 && m.id.value[0] != '{' && m.id.value[0] != '['
  }

  predicate IsNotification(m: Message) {
    HasValidVersion(m) && m.id.None? && m.name != ""
  }

  predicate IsCall(m: Message) {
    HasValidVersion(m) && HasValidId(m) && m.name != ""
  }

  predicate IsResponse(m: Message) {
    HasValidVersion(m) && HasValidId(m) && m.name == "" && !m.hasParams && m.payload != NoPayload
  }

  predicate HasSuffix(s: string, suffix: string) {
    |s| >= |suffix| && s[|s| - |suffix|..] == suffix
  }

  /** A server notification for a client subscription. */
  predicate IsSubscriptionResult(m: Message) {
    IsNotification(m) && HasSuffix(m.name, NOTIFICATION_METHOD_SUFFIX)
  }

  /** A message for the call path of the handler: neither a response nor a subscription result. */
  predicate ForCallPath(m: Message) {
    !IsResponse(m) && !IsSubscriptionResult(m)
  }

  /** `errorMessage`: a response without an addressee. */
  function ErrorMessage(code: int): Message {
    Message(VERSION, NULL_ID, "", false, ErrorOf(code))
  }

  /** `errorResponse`: the same, addressed to the request. */
  function ErrorResponse(m: Message, code: int): Message {
    ErrorMessage(code).(id := m.id)
  }
}
