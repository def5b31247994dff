/**
 * The message shown for a failed login or sign-up request:
 * `err.response?.data?.detail || err.message`, with a list-valued detail
 * (a validation error array) replaced by a generic message.
 */
module ErrorDetail {

  const GenericMessage := "Something went wrong"

  /**
   * The `detail` field of the response body: missing (no response, no body,
   * no field, or `null`), a string, or a list of validation errors.
   */
  datatype Detail = Missing | Text(text: string) | List(entries: seq<string>)

  /** An Axios error: the response detail and the error's own `message`. */
  datatype ApiError = ApiError(detail: Detail, message: string)

  /** JavaScript truthiness of the detail: an empty string is falsy, every array is truthy. */
  predicate Truthy(d: Detail) {
    d.List? || (d.Text? && d.text != "")
  }

  /**
   * A truthy text detail is shown as it is, any list (even an empty one)
   * becomes the generic message, and otherwise the error's message is used.
   */
  function DetailMessage(err: ApiError): (m: string)
    ensures err.detail.List? ==> m == GenericMessage
    ensures err.detail.Text? && err.detail.text != "" ==> m == err.detail.text
    ensures !Truthy(err.detail) ==> m == err.message
  {
    match err.detail
    case List(_) => GenericMessage
    case Text(s) => if s != "" then s else err.message
    case Missing => err.message
  }
}
