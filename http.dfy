/** The JSON envelope every handler answers with, and JavaScript truthiness of the request
    values the handlers test with `if (x)` and `!x`. */
module Http {
  import opened Wrappers

  /** A response: the status code and the body's `success`, `error`, `message` and `data`. */
  datatype Response<D> = Response(
    status: int, success: bool, error: Option<string>, message: Option<string>, data: Option<D>)

  /** A failure the way the resource routes report it: the text under `error`. */
  function Fail<D>(status: int, error: string): (r: Response<D>)
    ensures !r.success && r.status == status && r.error == Some(error) && r.data.None?
  {
    Response(status, false, Some(error), None, None)
  }

  /** A failure the way the authentication routes report it: the text under `message`. */
  function Refuse<D>(status: int, message: string): (r: Response<D>)
    ensures !r.success && r.status == status && r.message == Some(message) && r.error.None? && r.data.None?
  {
    Response(status, false, None, Some(message), None)
  }

  /** A success with a payload. */
  function Ok<D>(status: int, data: D, message: string): (r: Response<D>)
    ensures r.success && r.status == status && r.data == Some(data) && r.message == Some(message)
  {
    Response(status, true, None, Some(message), Some(data))
  }

  /** A success answered with the payload alone, status 200 and no message. */
  function Data<D>(data: D): (r: Response<D>)
    ensures r.success && r.status == 200 && r.data == Some(data) && r.message.None? && r.error.None?
  {
    Response(200, true, None, None, Some(data))
  }

  /** A success without a payload. */
  function Ack<D>(message: string): (r: Response<D>)
    ensures r.success && r.status == 200 && r.data.None? && r.message == Some(message)
  {
    Response(200, true, None, Some(message), None)
  }

  /** A query value is truthy when it is present and not the empty string. */
  predicate Given(v: Option<string>) {
    v.Some? && v.value != ""
  }

  /** A body string is truthy when it is present and not empty. */
  predicate TruthyText(f: Field<string>) {
    f.Present? && f.value != ""
  }

  /** A body number is truthy when it is present and not zero. */
  predicate TruthyNumber(f: Field<int>) {
    f.Present? && f.value != 0
  }
}
