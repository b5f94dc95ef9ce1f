/** The exceptions that escape a send; per-attempt failures never appear here. */
module Errors {
  import opened Values

  datatype SendError =
      /** The `TypeError` raised by the configuration resolvers, with its message. */
    | ConfigTypeError(message: string)
      /** Custom headers that are truthy but not a dict: item assignment raises `TypeError`. */
    | HeadersNotMapping(headers: Value)
      /** A truthy signing secret that is not text: it has no `encode`, so `AttributeError`. */
    | SecretNotText(secret: Value)
      /** A form body that the form encoder hands back unchanged (`None`, a bool, a number): it has no `encode`, so `AttributeError`. */
    | BodyNotText(body: Value)
      /** A payload that is neither text nor a dict cannot be merged into the outcome. */
    | PayloadNotMapping(payload: Value)
}
