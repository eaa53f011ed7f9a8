/**
 The `http_accept_language` method: a request is a bot's when its
 Accept-Language header is missing or holds only whitespace.
 */
module HttpAcceptLanguage {
  import opened Wrappers
  import opened Strings
  import opened RequestTypes

  const REASON := "missing HTTP header Accept-Language"

  function FilterRequest(ctx: Context, info: RequestInfo, req: Request): (r: Option<Response>)
    ensures r.Some? <==> AllSpace(Header(req, "Accept-Language", ""))
    ensures r.Some? ==> r.value == TooManyRequests(REASON)
  {
    var value := Header(req, "Accept-Language", "");
    StripEmptyIffAllSpace(value);
    if Strip(value) == "" then Some(TooManyRequests(REASON)) else None
  }

  /** A missing header is rejected. */
  lemma MissingHeaderRejected(ctx: Context, info: RequestInfo, req: Request)
    requires "Accept-Language" !in req.headers
    ensures FilterRequest(ctx, info, req) == Some(TooManyRequests(REASON))
  {
  }

  /** A value with at least one non-whitespace character is accepted; one
      made only of whitespace is rejected. */
  lemma NonBlankAccepted(ctx: Context, info: RequestInfo, req: Request)
    requires "Accept-Language" in req.headers
    ensures FilterRequest(ctx, info, req).None?
            <==> exists i | 0 <= i < |req.headers["Accept-Language"]| :: !IsSpace(req.headers["Accept-Language"][i])
  {
  }

  /** Context and client identity never influence the verdict. */
  lemma VerdictOnlyFromHeader(c1: Context, i1: RequestInfo, c2: Context, i2: RequestInfo, req: Request)
    ensures FilterRequest(c1, i1, req) == FilterRequest(c2, i2, req)
  {
  }
}
