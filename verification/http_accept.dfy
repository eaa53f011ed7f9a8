/**
 The `http_accept` method: a request is a bot's when its Accept header does
 not admit `text/html`. The media-range test itself is werkzeug's and
 arrives as `Request.acceptsHtml`.
 */
module HttpAccept {
  import opened Wrappers
  import opened RequestTypes

  const REASON := "HTTP header Accept did not contain text/html"

  function FilterRequest(ctx: Context, info: RequestInfo, req: Request): (r: Option<Response>)
    ensures r.Some? <==> !req.acceptsHtml
    ensures r.Some? ==> r.value.Status() == 429
  {
    if !req.acceptsHtml then Some(TooManyRequests(REASON)) else None
  }
}
