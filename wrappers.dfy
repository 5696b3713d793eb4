// Small failure-carrying datatypes shared by the model's modules.
module Wrappers {

  datatype Option<+T> = None | Some(value: T)

  /** An HTTP error as FastAPI raises it: a status code and a `detail` text. */
  datatype HttpError = HttpError(status: nat, detail: string)

  datatype Result<+T> = Ok(value: T) | Err(error: HttpError)

  /** A request body as pydantic parses it: the value, or one error per failing field, in field order. */
  datatype Validated<+T> = Valid(value: T) | Invalid(messages: seq<string>)

  /**
   * How an awaited client call ended: it resolved, or it threw an Error whose
   * `message` may be empty (a falsy message).
   */
  datatype CallOutcome = Resolved | Threw(message: string)

  /** JavaScript's `err.message || fallback`. */
  function MessageOr(message: string, fallback: string): (r: string)
    ensures r == (if message == "" then fallback else message)
    ensures fallback != "" ==> r != ""
  {
    if message != "" then message else fallback
  }

  /**
   * The `detail` of a refused reply as the client reads it: absent, a string
   * (an HTTPException's detail), or the list of validation error objects
   * FastAPI sends with a 422, of which only the number matters here.
   */
  datatype Detail = NoDetail | TextDetail(text: string) | ErrorList(count: nat)

  /** FastAPI's 422 reply to a body that fails validation: one error object per failing field. */
  function RefusalDetail<T>(v: Validated<T>): (d: Detail)
    requires v.Invalid?
    ensures d.ErrorList? && d.count == |v.messages|
  {
    ErrorList(|v.messages|)
  }

  /** What a page's error state holds: a text, or a list of error objects stored as it came. */
  datatype Shown = ShownText(text: string) | ShownObjects(count: nat)

  /**
   * JavaScript's `detail || fallback`: an absent or empty detail gives the
   * fallback; a list, even an empty one, is truthy and is kept as a list.
   */
  function DetailOr(d: Detail, fallback: string): (r: Shown)
    ensures r.ShownObjects? <==> d.ErrorList?
    ensures d.ErrorList? ==> r.count == d.count
    ensures r.ShownText? ==> r.text == (if d.TextDetail? && d.text != "" then d.text else fallback)
  {
    match d
    case NoDetail => ShownText(fallback)
    case TextDetail(t) => ShownText(MessageOr(t, fallback))
    case ErrorList(n) => ShownObjects(n)
  }

  /** `String(list)` of `n` plain objects: "[object Object]" `n` times, joined by commas. */
  function ObjectsText(n: nat): (s: string)
    ensures n == 0 ==> s == ""
    ensures n > 0 ==> |s| == 16 * n - 1 && s[..15] == "[object Object]"
  {
    if n == 0 then ""
    else if n == 1 then "[object Object]"
    else ObjectsText(n - 1) + ",[object Object]"
  }

  /**
   * The message of `new Error(detail || fallback)`: the text, the fallback,
   * or the printed list, which holds none of the validators' messages.
   */
  function DetailMessage(d: Detail, fallback: string): (m: string)
    ensures d.ErrorList? ==> m == ObjectsText(d.count)
    ensures !d.ErrorList? ==> m == DetailOr(d, fallback).text
  {
    match DetailOr(d, fallback)
    case ShownText(t) => t
    case ShownObjects(n) => ObjectsText(n)
  }
}
