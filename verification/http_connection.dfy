/**
 The `http_connection` method: a request is a bot's when its Connection
 header, stripped of surrounding whitespace, is exactly `close`.
 */
module HttpConnection {
  import opened Wrappers
  import opened Strings
  import opened RequestTypes

  const REASON := "HTTP header 'Connection=close"

  /** A request is rejected exactly when its Connection header is `close`
      padded with any amount of whitespace on either side. */
  function FilterRequest(ctx: Context, info: RequestInfo, req: Request): (r: Option<Response>)
    ensures r.Some? <==> PaddedClose(Header(req, "Connection", ""))
    ensures r.Some? ==> r.value == TooManyRequests(REASON)
  {
    var value := Header(req, "Connection", "");
    StripsToCloseIffPadded(value);
    if Strip(value) == "close" then Some(TooManyRequests(REASON)) else None
  }

  function WithConnection(value: string): Request {
    Request("/", map["Connection" := value], true)
  }

  /** `value` is `close` with whitespace (possibly none) on either side. */
  predicate PaddedClose(value: string) {
    exists i, j | 0 <= i <= j <= |value| :: value[i..j] == "close" && AllSpace(value[..i]) && AllSpace(value[j..])
  }

  /** `value.strip() == "close"` holds exactly for `close` padded with
      whitespace. */
  lemma StripsToCloseIffPadded(value: string)
    ensures Strip(value) == "close" <==> PaddedClose(value)
  {
    if PaddedClose(value) {
      PaddedCloseStrips(value);
    }
    if Strip(value) == "close" {
      StripSpec(value);
    }
  }

  lemma PaddedCloseStrips(value: string)
    requires PaddedClose(value)
    ensures Strip(value) == "close"
  {
    var i, j :| 0 <= i <= j <= |value| && value[i..j] == "close" && AllSpace(value[..i]) && AllSpace(value[j..]);
    var pre, post := value[..i], value[j..];
    assert value == pre + value[i..j] + post;
    assert Trimmed("close");
    StripPadded(pre, "close", post);
  }

  /** A missing header is accepted. */
  lemma MissingHeaderAccepted(ctx: Context, info: RequestInfo, req: Request)
    requires "Connection" !in req.headers
    ensures FilterRequest(ctx, info, req).None?
  {
  }

  /** Surrounding whitespace is ignored: ` close ` is rejected. */
  lemma PaddedCloseRejected(ctx: Context, info: RequestInfo)
    ensures FilterRequest(ctx, info, WithConnection(" close ")).Some?
  {
    StripPadded(" ", "close", " ");
    assert " " + "close" + " " == " close ";
  }

  /** The comparison is exact: `Close` and `keep-alive, close` are accepted. */
  lemma OtherSpellingsAccepted(ctx: Context, info: RequestInfo)
    ensures FilterRequest(ctx, info, WithConnection("Close")).None?
    ensures FilterRequest(ctx, info, WithConnection("keep-alive, close")).None?
  {
    StripPadded("", "Close", "");
    assert "" + "Close" + "" == "Close";
    StripPadded("", "keep-alive, close", "");
    assert "" + "keep-alive, close" + "" == "keep-alive, close";
  }
}
