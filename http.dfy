/** The part of the HTTP library's response type that the kill-switch handler
    uses: the status code and whether caching is suppressed. The library's
    builders are modelled as functions on that value. */
module Http {

  /** An HTTP response as the handler builds it. `noCache` is true once
      `with_no_cache()` has added the headers that forbid caching. */
  datatype Response = Response(status: int, noCache: bool)

  /** `Response::empty_204()`: status 204, no body, caching allowed. */
  function Empty204(): Response
  {
    Response(204, false)
  }

  /** `Response::empty_400()`. */
  function Empty400(): Response
  {
    Response(400, false)
  }

  /** `Response::empty_404()`. */
  function Empty404(): Response
  {
    Response(404, false)
  }

  /** `with_status_code(code)`: replaces the status, keeps the headers. */
  function WithStatusCode(r: Response, code: int): Response
  {
    r.(status := code)
  }

  /** `with_no_cache()`: adds the no-cache headers, keeps the status. */
  function WithNoCache(r: Response): Response
  {
    r.(noCache := true)
  }

  /** What `try_or_400!` answers when JSON decoding fails: a 400 carrying a
      JSON description of the error, without no-cache headers. */
  function BadRequest(): Response
  {
    Response(400, false)
  }
}
