/**
 The values one request carries through the gate: the request itself,
 `RequestInfo` (`_request_info.py`), `RequestContext` (`_request_context.py`),
 the configuration the core reads, and the responses it can produce.
 */
module RequestTypes {
  import opened Wrappers
  import opened IpAddress
  import opened CounterStore

  /** Request headers by canonical name; the host's case-insensitive header
      lookup is assumed to have produced the canonical name. */
  type Headers = map<string, string>

  /** `acceptsHtml` is werkzeug's `"text/html" in request.accept_mimetypes`,
      computed by the host. */
  datatype Request = Request(path: string, headers: Headers, acceptsHtml: bool)

  /** `request.headers.get(name, default)`. */
  function Header(req: Request, name: string, default: string): (r: string)
    ensures name in req.headers ==> r == req.headers[name]
    ensures name !in req.headers ==> r == default
  {
    if name in req.headers then req.headers[name] else default
  }

  /** The resolved client: `realIp`, its `network`, and the network's
      `compressed` text as the standard library renders it. */
  datatype RequestInfo = RequestInfo(realIp: IP, network: Network, compressed: string)

  /** The link token of this request; whether the client is suspicious is
      decided by the token tracker, which is not part of this model. */
  datatype LinkToken = LinkToken(token: string, suspicious: bool)

  /** The configuration keys the core reads. */
  datatype Config = Config(
    filterLinkLocal: bool,
    passIp: seq<Network>,
    blockIp: seq<Network>,
    redisPrefix: string,
    redisSecretHash: string)

  /** The counter store handle; its counts are threaded separately as `Counters`. */
  datatype RedisLib = RedisLib(prefix: string, secretHash: string)

  datatype Context = Context(config: Config, redisLib: Option<RedisLib>, linkToken: Option<LinkToken>)

  /** The responses the core produces; `Other` is whatever a user-supplied
      filter returns. `Raised` is an exception escaping the handler (the
      host then answers 500): it ends the filter chain and the gate just as
      an answer does. */
  datatype Response =
    | TooManyRequests(reason: string)
    | BlockListed(body: string)
    | RedirectToIndex
    | Raised(error: string)
    | Other(status: nat, body: string)
  {
    function Status(): nat {
      match this
      case TooManyRequests(_) => 429
      case BlockListed(_) => 429
      case RedirectToIndex => 302
      case Raised(_) => 500
      case Other(s, _) => s
    }
  }

  /** The exception raised by calling a method on a missing (`None`) handle. */
  const ATTRIBUTE_ERROR := "AttributeError"

  /** What a filter (or the gate) produces: its response, `None` meaning
      "not a bot" (or "accepted"), and the counter store afterwards. */
  datatype Step = Step(response: Option<Response>, store: Counters)
}
