/**
 The gate (`src/botdetection/_botdetection.py`): the decision taken before
 every request, the stylesheet link embedded in pages, and the endpoint
 that receives the link-token ping.
 */
module BotDetection {
  import opened Wrappers
  import opened Strings
  import opened IpAddress
  import opened RequestTypes
  import opened CounterStore
  import opened IpLists
  import opened RequestFilters

  /** The standard library's view of a network: its `compressed` text and
      whether it `is_link_local`. */
  datatype NetworkFacts = NetworkFacts(compressed: Render, isLinkLocal: Network -> bool)

  /** An installed `BotDetection`. */
  datatype Gate = Gate(config: Config, redisLib: Option<RedisLib>, requestFilter: RouteFilter, facts: NetworkFacts)

  /** `BotDetection.__init__`: a store handle exists exactly when a redis
      connection is supplied, and it uses the configured prefix and secret. */
  function Install(config: Config, redisSupplied: bool, requestFilter: RouteFilter, facts: NetworkFacts): (g: Gate)
    ensures g.redisLib.Some? <==> redisSupplied
    ensures g.redisLib.Some? ==> g.redisLib.value.prefix == config.redisPrefix
                                 && g.redisLib.value.secretHash == config.redisSecretHash
    ensures g.config == config && g.requestFilter == requestFilter
  {
    Gate(config, if redisSupplied then Some(RedisLib(config.redisPrefix, config.redisSecretHash)) else None,
         requestFilter, facts)
  }

  function ContextOf(g: Gate, linkToken: Option<LinkToken>): Context {
    Context(g.config, g.redisLib, linkToken)
  }

  function InfoOf(g: Gate, realIp: IP, network: Network): RequestInfo {
    RequestInfo(realIp, network, g.facts.compressed(network))
  }

  /** Link-local networks are exempt unless `filter_link_local` is set. */
  predicate Exempt(g: Gate, network: Network) {
    g.facts.isLinkLocal(network) && !g.config.filterLinkLocal
  }

  const BLOCKLIST_PREFIX := "IP is on BLOCKLIST - "

  /** `before_request`: the link-local exemption, then the pass list, then the
      block list (both consulted with the real IP), then the request filter.
      A `None` response lets the request through to the application. Only
      the request filter touches the counters, and it runs only for a
      request that no earlier stage decided. */
  function BeforeRequest(g: Gate, realIp: IP, network: Network, linkToken: Option<LinkToken>,
                         req: Request, store: Counters): (r: Step)
    ensures Exempt(g, network) ==> r == Step(None, store)
    ensures AnyMatch(realIp, g.config.passIp) ==> r == Step(None, store)
    ensures r.store != store ==> !Exempt(g, network) && !AnyMatch(realIp, g.config.passIp)
                                 && !AnyMatch(realIp, g.config.blockIp)
  {
    if Exempt(g, network) then Step(None, store)
    else if PassIp(realIp, g.config.passIp).matched then Step(None, store)
    else
      var block := BlockIp(realIp, g.config.blockIp);
      if block.matched then
        Step(Some(BlockListed(BLOCKLIST_PREFIX + Text(block, g.facts.compressed))), store)
      else
        Call(g.requestFilter, ContextOf(g, linkToken), InfoOf(g, realIp, network), req, store)
  }

  /** A link-local client is let through without any check, even when its
      address is on the block list. */
  lemma LinkLocalExempt(g: Gate, realIp: IP, network: Network, linkToken: Option<LinkToken>,
                        req: Request, store: Counters)
    requires g.facts.isLinkLocal(network) && !g.config.filterLinkLocal
    ensures BeforeRequest(g, realIp, network, linkToken, req, store) == Step(None, store)
  {
  }

  /** With `filter_link_local` set, being link-local makes no difference:
      the answer is the one a gate that knows of no link-local networks
      gives. */
  lemma FilterLinkLocalRemovesExemption(g: Gate, realIp: IP, network: Network,
                                        linkToken: Option<LinkToken>, req: Request, store: Counters)
    requires g.config.filterLinkLocal
    ensures var plain := g.(facts := g.facts.(isLinkLocal := n => false));
            BeforeRequest(g, realIp, network, linkToken, req, store)
            == BeforeRequest(plain, realIp, network, linkToken, req, store)
  {
  }

  /** The pass list wins over the block list. */
  lemma PassOverridesBlock(g: Gate, realIp: IP, network: Network, linkToken: Option<LinkToken>,
                           req: Request, store: Counters)
    requires AnyMatch(realIp, g.config.passIp) && AnyMatch(realIp, g.config.blockIp)
    ensures BeforeRequest(g, realIp, network, linkToken, req, store) == Step(None, store)
  {
  }

  /** A non-exempt client whose real address is on the block list and not on
      the pass list gets 429 naming the first matching network, and the
      request filter never runs. */
  lemma BlockListedRejected(g: Gate, realIp: IP, network: Network, linkToken: Option<LinkToken>,
                            req: Request, store: Counters)
    requires !Exempt(g, network)
    requires !AnyMatch(realIp, g.config.passIp) && AnyMatch(realIp, g.config.blockIp)
    ensures var r := BeforeRequest(g, realIp, network, linkToken, req, store);
            r.store == store && r.response.Some? && r.response.value.Status() == 429
            && exists k: nat :: FirstMatchAt(realIp, g.config.blockIp, k)
                 && r.response.value == BlockListed(BLOCKLIST_PREFIX
                      + (MatchText(g.config.blockIp[k], "block_ip", g.facts.compressed) + CONTACT_HINT))
  {
    var text := Text(BlockIp(realIp, g.config.blockIp), g.facts.compressed);
    BlockTextNamesFirstMatch(realIp, g.config.blockIp, g.facts.compressed);
    var k: nat :| FirstMatchAt(realIp, g.config.blockIp, k)
                 && text == MatchText(g.config.blockIp[k], "block_ip", g.facts.compressed) + CONTACT_HINT;
    BlockedStep(g, realIp, network, linkToken, req, store);
    var answer := BlockListed(BLOCKLIST_PREFIX + text);
    assert BeforeRequest(g, realIp, network, linkToken, req, store) == Step(Some(answer), store);
    assert answer.Status() == 429;
  }

  /** The block-list stage's answer, before its text is spelled out. */
  lemma BlockedStep(g: Gate, realIp: IP, network: Network, linkToken: Option<LinkToken>,
                    req: Request, store: Counters)
    requires !Exempt(g, network)
    requires !AnyMatch(realIp, g.config.passIp) && AnyMatch(realIp, g.config.blockIp)
    ensures BeforeRequest(g, realIp, network, linkToken, req, store)
            == Step(Some(BlockListed(BLOCKLIST_PREFIX + Text(BlockIp(realIp, g.config.blockIp), g.facts.compressed))), store)
  {
  }

  /** A non-exempt client on neither list is decided by the request filter
      alone. */
  lemma FilterDecidesOtherwise(g: Gate, realIp: IP, network: Network, linkToken: Option<LinkToken>,
                               req: Request, store: Counters)
    requires !Exempt(g, network)
    requires !AnyMatch(realIp, g.config.passIp) && !AnyMatch(realIp, g.config.blockIp)
    ensures BeforeRequest(g, realIp, network, linkToken, req, store)
            == Call(g.requestFilter, ContextOf(g, linkToken), InfoOf(g, realIp, network), req, store)
  {
  }

  /** The lists are consulted with the real address, never the network:
      once a list decides, which (non-exempt) network the client is in makes
      no difference to the answer. */
  lemma ListsSeeTheAddressNotTheNetwork(g: Gate, realIp: IP, n1: Network, n2: Network,
                                        linkToken: Option<LinkToken>, req: Request, store: Counters)
    requires !Exempt(g, n1) && !Exempt(g, n2)
    requires AnyMatch(realIp, g.config.passIp) || AnyMatch(realIp, g.config.blockIp)
    ensures BeforeRequest(g, realIp, n1, linkToken, req, store)
            == BeforeRequest(g, realIp, n2, linkToken, req, store)
  {
  }

  /** Two clients of the same network 128.0.0.0/1, with only the host
      128.0.0.0/32 on the block list: 128.0.0.0 is rejected, while its
      neighbour 128.0.0.1 goes on to the request filter (here an empty one)
      and is let through. */
  lemma NeighbourInListedNetworkPasses()
    ensures var net := Network(V4, [true] + Zeros(31), 1);
            var host := Network(V4, [true] + Zeros(31), 32);
            var blocked := IP(V4, [true] + Zeros(31));
            var neighbour := IP(V4, [true] + Zeros(30) + [true]);
            var cfg := Config(false, [], [host], "", "");
            var g := Gate(cfg, None, RouteFilter(map[]), NetworkFacts(n => "", n => false));
            var req := Request("/", map[], true);
            && InNetwork(blocked, net) && InNetwork(neighbour, net)
            && BeforeRequest(g, blocked, net, None, req, map[]).response.Some?
            && BeforeRequest(g, neighbour, net, None, req, map[]) == Step(None, map[])
  {
    var net := Network(V4, [true] + Zeros(31), 1);
    var host := Network(V4, [true] + Zeros(31), 32);
    var blocked := IP(V4, [true] + Zeros(31));
    var neighbour := IP(V4, [true] + Zeros(30) + [true]);
    InNetworkIffPrefixAgrees(blocked, net);
    InNetworkIffPrefixAgrees(neighbour, net);
    InNetworkIffPrefixAgrees(blocked, host);
    InNetworkIffPrefixAgrees(neighbour, host);
    assert blocked.bits[..32] == host.base[..32];
    assert neighbour.bits[31] != host.base[31];
    assert Matches(blocked, [host][0]);
    assert !AnyMatch(neighbour, [host]);
  }

  /** `botdetection_html_header`: nothing when the request carries no link
      token, otherwise a stylesheet link to `/client<token>.css`. */
  function HtmlHeader(linkToken: Option<LinkToken>): (r: string)
    ensures r == "" <==> linkToken.None?
    ensures linkToken.Some? ==> exists i: nat :: OccursAt(ClientUrl(linkToken.value.token), r, i)
  {
    match linkToken
    case None => ""
    case Some(t) =>
      var pre := "\n        <link rel=\"stylesheet\" href=\"";
      var url := ClientUrl(t.token);
      var r := pre + url + "\" type=\"text/css\" />\n        ";
      assert OccursAt(url, r, |pre|) by {
        assert r[|pre|..|pre| + |url|] == url;
      }
      r
  }

  /** The URL of the `client_token` endpoint for a token. */
  function ClientUrl(token: string): string {
    "/client" + token + ".css"
  }

  /** The `client_token` endpoint's reply: an empty stylesheet, or the
      exception that escapes the view. */
  datatype TokenReply =
    | Stylesheet(body: string, mimetype: string)
    | Failed(error: string)

  /** `client_token`: the view calls `ping` on the request's link token and
      answers with an empty stylesheet. Without a link token that attribute
      access raises, and the exception is the reply. */
  function ClientToken(linkToken: Option<LinkToken>, token: string): (r: TokenReply)
    ensures r.Failed? <==> linkToken.None?
    ensures r.Failed? ==> r.error == ATTRIBUTE_ERROR
    ensures r.Stylesheet? ==> r.body == "" && r.mimetype == "text/css"
  {
    match linkToken
    case None => Failed(ATTRIBUTE_ERROR)
    case Some(_) => Stylesheet("", "text/css")
  }

  /** The reply never depends on the token in the URL. */
  lemma ClientReplyIgnoresToken(linkToken: Option<LinkToken>, t1: string, t2: string)
    ensures ClientToken(linkToken, t1) == ClientToken(linkToken, t2)
  {
  }
}
