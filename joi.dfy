/** The request bodies the validators receive and the few Joi rules and
    default messages they use. A body is a JSON object; a key that is absent
    is `None`. */
module Joi {
  import opened Strings

  /** A JSON value. */
  datatype Value = Str(s: string) | Num(n: real) | Bool(b: bool) | Null | List(items: seq<Value>) | Object

  type Body = map<string, Value>

  /** The value under `key`, if any. */
  function Field(body: Body, key: string): Option<Value> {
    if key in body then Some(body[key]) else None
  }

  // Joi's default message templates, labelled by the key.

  function Quote(key: string): string { "\"" + key + "\"" }

  function RequiredMessage(key: string): string { Quote(key) + " is required" }

  function StringBaseMessage(key: string): string { Quote(key) + " must be a string" }

  function EmptyMessage(key: string): string { Quote(key) + " is not allowed to be empty" }

  function MinLengthMessage(key: string, limit: nat): string {
    Quote(key) + " length must be at least " + NatToString(limit) + " characters long"
  }

  function MaxLengthMessage(key: string, limit: nat): string {
    Quote(key) + " length must be less than or equal to " + NatToString(limit) + " characters long"
  }

  function PatternMessage(key: string, value: string, pattern: string): string {
    Quote(key) + " with value " + Quote(value) + " fails to match the required pattern: " + pattern
  }

  /** `string.uri`, which `"http:/"` and `"https:/"` draw. */
  function UriBaseMessage(key: string): string { Quote(key) + " must be a valid uri" }

  /** `string.uriCustomScheme`, which every other refused link draws. */
  function UriMessage(key: string): string {
    Quote(key) + " must be a valid uri with a scheme matching the http|https pattern"
  }

  function NumberBaseMessage(key: string): string { Quote(key) + " must be a number" }

  function NumberMinMessage(key: string, limit: int): string {
    Quote(key) + " must be greater than or equal to " + IntToString(limit)
  }

  function NumberMaxMessage(key: string, limit: int): string {
    Quote(key) + " must be less than or equal to " + IntToString(limit)
  }

  function ArrayBaseMessage(key: string): string { Quote(key) + " must be an array" }

  function ArrayMaxMessage(key: string, limit: nat): string {
    Quote(key) + " must contain less than or equal to " + NatToString(limit) + " items"
  }

  /** `uri({ scheme: ['http', 'https'] })`: an `http://` or `https://` link
      without white space. */
  predicate IsHttpUri(s: string) {
    (IsPrefix("http://", s) || IsPrefix("https://", s)) && !HasSpace(s)
  }

  /** The two inputs the uri rule refuses before matching the scheme pattern. */
  predicate IsBareScheme(s: string) { s == "http:/" || s == "https:/" }

  /** A JSON number that is a whole number. */
  predicate IsInteger(n: real) { n.Floor as real == n }
}
