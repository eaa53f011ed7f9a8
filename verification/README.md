# botdetection admission logic in Dafny

This project models the deterministic core of `botdetection`, the request
gate a Flask application installs in front of its routes. For every request
the gate decides whether to let it through, in this order:

1. a client in a link-local network is exempt, unless `filter_link_local` is set;
2. a real address on the pass list is let through;
3. a real address on the block list gets 429 and a message naming the matching network;
4. otherwise the configured `RouteFilter` decides. It picks the filter list
   registered for the request path, falling back to `"*"`. The first filter
   in that list that answers decides.

The predefined filters are modelled one module each:
- `http_accept`, `http_accept_encoding`, `http_accept_language` and
  `http_connection` classify request headers;
- `http_user_agent` matches the User-Agent against a fixed regular
  expression of bot names;
- `ip_limit` counts requests per network in three windows (burst, long and
  suspicious-IP). It rejects a request above the ceilings, tightens them
  for clients whose link token marks them suspicious, and redirects a
  persistently suspicious network to the index page.

Modules:
- `Wrappers`: `Option`.
- `Strings`: Python's `str.strip`, `str.split` and whitespace class.
- `IpAddress`: addresses and networks as bit sequences, and Python's
  `in` on networks (false across IP versions, otherwise a masked compare).
- `IpLists`: the pass and block lists with their messages.
- `RequestTypes`: request, context, configuration and response.
- `CounterStore`: the counters the redis helpers keep.
- `HttpAccept`, `HttpAcceptEncoding`, `HttpAcceptLanguage`,
  `HttpConnection`, `HttpUserAgent` and `IpLimit`: the filters.
- `RequestFilters`: the filter chain and the route filter.
- `BotDetection`: the gate.

A filter returns an `Option<Response>`, where `None` means "not a bot".
The counter-using filter and the gate return a `Step`, which is the
response together with the counter store after the request.

An exception the source lets escape is modelled as an outcome, not as a
precondition. Both `ip_limit` without a store and `client_token` without a
link token access an attribute of `None`:
- `ip_limit` then answers the response `Raised("AttributeError")`, which
  Flask would turn into status 500. Like any answer it ends the filter
  chain and the gate.
- `client_token` then replies `Failed("AttributeError")` instead of its
  stylesheet.

Where a module docstring and the code disagree, the model follows the code:
- The `http_accept_encoding` docstring also lists a missing `text/html`
  as grounds for rejection. The code never looks for it.
- The `ip_limit` docstring says a persistently suspicious network is
  "blocked". The code redirects it to the index page with 302.

## Model

| member | source | states |
|---|---|---|
| Strings.StripSpec | src/botdetection/request_filters/http_accept_encoding.py:34 | `Strip(s)` is a contiguous slice of `s`, it neither begins nor ends with whitespace, and everything cut away on either side is whitespace (Python's `str.strip()`) |
| Strings.StripPadded | src/botdetection/request_filters/http_connection.py:31 | stripping whitespace padding off a value that has no outer whitespace gives back exactly that value |
| Strings.StripEmptyIffAllSpace | src/botdetection/request_filters/http_accept_language.py:30 | `strip()` yields `""` exactly when the value consists only of whitespace |
| Strings.Split | src/botdetection/request_filters/http_accept_encoding.py:34 | `str.split(",")` gives at least one piece, no piece contains the separator, and joining the pieces with the separator restores the input |
| Strings.SplitConcat | src/botdetection/request_filters/http_accept_encoding.py:34 | splitting `x + "," + y` gives the pieces of `x` followed by the pieces of `y` |
| RequestTypes.Header | src/botdetection/request_filters/http_user_agent.py:53 | `headers.get(name, default)`: the header's value when present, otherwise the default |
| CounterStore.Incr | src/botdetection/request_filters/ip_limit.py:113-116 | counting a request raises that key's count by one, reports the new count and changes no other key |
| CounterStore.Drop | src/botdetection/request_filters/ip_limit.py:109 | dropping a counter resets that key to zero and changes no other key; dropping an absent key changes nothing |
| CounterStore.DropThenIncr | src/botdetection/request_filters/ip_limit.py:107-116 | after a drop, the next count of that key is 1 |
| IpAddress.Mask | src/botdetection/_ip_lists.py:75 | `bits & netmask` keeps the first `p` bits and clears all the others |
| IpAddress.InNetworkIffPrefixAgrees | src/botdetection/_ip_lists.py:75 | `ip in net` holds iff the two have the same version and both are well formed, and the address agrees with the network address on the first `prefixlen` bits |
| IpLists.IpIsSubnetOfMemberInList | src/botdetection/_ip_lists.py:69-77 | the lookup matches iff some network of the list has the address's version and contains it; a match names the first such network and the list; a miss names the list |
| IpLists.PassIp | src/botdetection/_ip_lists.py:51-55 | the pass-list lookup matches iff some listed network of the same version contains the address, and the message names `pass_ip` |
| IpLists.BlockIp | src/botdetection/_ip_lists.py:58-66 | the block-list lookup matches iff some listed network of the same version contains the address, and the contact hint is appended exactly on a match |
| IpLists.OtherVersionNeverMatches | src/botdetection/_ip_lists.py:75 | a list holding only networks of the other IP version never matches |
| IpLists.EmptyListNeverMatches | src/botdetection/_ip_lists.py:74-77 | an empty list gives "no match" with the not-a-member message and no hint |
| IpLists.VerdictIgnoresOrder | src/botdetection/_ip_lists.py:74-76 | two lists with the same networks in any order give the same match verdict |
| IpLists.GuardIsRedundant | src/botdetection/_ip_lists.py:75 | the explicit version test adds nothing to `in`: the guarded test holds iff the network contains the address, and never across versions |
| IpLists.NotMemberTextAsWrittenMisnamesList | src/botdetection/_ip_lists.py:77 | the miss message as written never ends with the list name as a separate word |
| IpLists.NotMemberText | src/botdetection/_ip_lists.py:77 | the corrected miss message ends with ` <list name> list` |
| IpLists.BlockTextNamesFirstMatch | src/botdetection/_ip_lists.py:58-66 | a block-list match's message names the first matching network and ends with the contact hint |
| HttpAccept.FilterRequest | src/botdetection/request_filters/http_accept.py:28-35 | rejects with 429 exactly when the Accept header does not admit `text/html` |
| HttpAcceptEncoding.FilterRequest | src/botdetection/request_filters/http_accept_encoding.py:29-37 | accepts iff some comma-separated item, stripped, is `gzip` or `deflate`; otherwise 429 with the fixed reason |
| HttpAcceptEncoding.MembershipIsSupport | src/botdetection/request_filters/http_accept_encoding.py:34-35 | `"gzip" in accept_list or "deflate" in accept_list` holds iff some item is supported |
| HttpAcceptEncoding.MissingHeaderRejected | src/botdetection/request_filters/http_accept_encoding.py:34-36 | a request without the header is rejected |
| HttpAcceptEncoding.SingleItemIsExact | src/botdetection/request_filters/http_accept_encoding.py:34-35 | a single trimmed item is accepted iff it is literally `gzip` or `deflate` |
| HttpAcceptEncoding.UpperCaseRejected | src/botdetection/request_filters/http_accept_encoding.py:35 | `GZIP` is rejected: the comparison is case-sensitive |
| HttpAcceptEncoding.QualityValueRejected | src/botdetection/request_filters/http_accept_encoding.py:35 | `gzip;q=1` is rejected: quality parameters are not parsed |
| HttpAcceptEncoding.SupportedItemAccepted | src/botdetection/request_filters/http_accept_encoding.py:34-35 | one supported item anywhere between commas is enough for acceptance |
| HttpAcceptEncoding.PaddedItemAccepted | src/botdetection/request_filters/http_accept_encoding.py:34 | an item padded with spaces (` deflate `) still counts |
| HttpAcceptEncoding.VerdictIgnoresOrder | src/botdetection/request_filters/http_accept_encoding.py:34-35 | two headers whose comma-separated items form the same set, in any order and with any repetition, get the same answer |
| HttpAcceptEncoding.CommaSwapKeepsVerdict | src/botdetection/request_filters/http_accept_encoding.py:34-35 | swapping the two sides of a comma never changes the answer |
| HttpAcceptEncoding.VerdictOnlyFromHeader | src/botdetection/request_filters/http_accept_encoding.py:29-37 | context and client identity never change the verdict |
| HttpAcceptLanguage.FilterRequest | src/botdetection/request_filters/http_accept_language.py:25-32 | rejects with the fixed reason iff the header, defaulting to `""`, is all whitespace |
| HttpAcceptLanguage.MissingHeaderRejected | src/botdetection/request_filters/http_accept_language.py:30-31 | a request without the header is rejected |
| HttpAcceptLanguage.NonBlankAccepted | src/botdetection/request_filters/http_accept_language.py:30 | a present header is accepted iff it holds a non-whitespace character |
| HttpAcceptLanguage.VerdictOnlyFromHeader | src/botdetection/request_filters/http_accept_language.py:25-32 | context and client identity never change the verdict |
| HttpConnection.FilterRequest | src/botdetection/request_filters/http_connection.py:26-33 | rejects, with 429 and the fixed reason, iff the Connection header (defaulting to `""`) is `close` with whitespace (possibly none) on either side |
| HttpConnection.StripsToCloseIffPadded | src/botdetection/request_filters/http_connection.py:31 | `value.strip() == "close"` holds iff the value is `close` padded with whitespace on either side |
| HttpConnection.MissingHeaderAccepted | src/botdetection/request_filters/http_connection.py:31 | a request without the header is accepted |
| HttpConnection.PaddedCloseRejected | src/botdetection/request_filters/http_connection.py:31 | ` close ` is rejected |
| HttpConnection.OtherSpellingsAccepted | src/botdetection/request_filters/http_connection.py:31 | `Close` and `keep-alive, close` are accepted: the comparison is exact |
| HttpUserAgent.Search | src/botdetection/request_filters/http_user_agent.py:40 | the scan finds a word iff it occurs before the first newline, as `.*word` needs |
| HttpUserAgent.MatchAny | src/botdetection/request_filters/http_user_agent.py:28-42 | alternation: true iff some alternative matches the start of the string |
| HttpUserAgent.FilterRequest | src/botdetection/request_filters/http_user_agent.py:48-56 | rejects iff the User-Agent, defaulting to `unknown`, matches an alternative at its start; the reason quotes the User-Agent |
| HttpUserAgent.AlternativeRejects | src/botdetection/request_filters/http_user_agent.py:28-42 | any single alternative that matches is enough to reject |
| HttpUserAgent.MissingUserAgentRejected | src/botdetection/request_filters/http_user_agent.py:53 | a missing User-Agent becomes `unknown`, and that is rejected |
| HttpUserAgent.LiteralPrefixRejected | src/botdetection/request_filters/http_user_agent.py:31-38 | User-Agents starting with `python-requests`, `Java`, `Googlebot` or the Farside string are rejected, whatever follows |
| HttpUserAgent.CurlAnyCaseRejected | src/botdetection/request_filters/http_user_agent.py:31 | `curl` is rejected in every letter case |
| HttpUserAgent.WgetFirstLetterOnly | src/botdetection/request_filters/http_user_agent.py:31 | `Wget` is rejected; the `[wW]get` alternative does not match `WGET` |
| HttpUserAgent.ArchiveDotMatchesAnyCharacter | src/botdetection/request_filters/http_user_agent.py:33 | the unescaped dot lets `archive-org_bot` through the alternative, so it is rejected |
| HttpUserAgent.PetalBotAnywhereRejected | src/botdetection/request_filters/http_user_agent.py:40 | `PetalBot` anywhere in the first line is rejected |
| HttpUserAgent.AllLeadsExcluded | src/botdetection/request_filters/http_user_agent.py:28-42 | no start-anchored alternative matches the empty string or begins with space, `(` or `X`, and the only floating alternative is `PetalBot` |
| HttpUserAgent.EmptyUserAgentAccepted | src/botdetection/request_filters/http_user_agent.py:53-54 | a present but empty User-Agent is accepted |
| HttpUserAgent.AllMozillaSafe | src/botdetection/request_filters/http_user_agent.py:28-42 | every start-anchored alternative disagrees with `Mozilla/5.0 (` at its first, second or (for the Farside string) fourteenth character, and the only floating alternative is `PetalBot` |
| HttpUserAgent.MozillaSafeFails | src/botdetection/request_filters/http_user_agent.py:54 | such an alternative, matched from the start, never matches `Mozilla/5.0 (` followed by anything but `c` |
| HttpUserAgent.BrowserUserAgentAccepted | src/botdetection/request_filters/http_user_agent.py:53-56 | a browser User-Agent `Mozilla/5.0 (` + c + rest is accepted whenever c is not `c` and `PetalBot` is not in its first line |
| HttpUserAgent.FirefoxAccepted | src/botdetection/request_filters/http_user_agent.py:53-56 | `Mozilla/5.0 (X11; Linux) Firefox/115.0` is accepted |
| HttpUserAgent.StartAnchored | src/botdetection/request_filters/http_user_agent.py:54 | a User-Agent that begins with space, `(` or `X` is accepted unless `PetalBot` is in its first line |
| HttpUserAgent.LateBotNameAccepted | src/botdetection/request_filters/http_user_agent.py:54 | `X Googlebot/2.1` is accepted: bot names count only at the start |
| IpLimit.KeysDistinct | src/botdetection/request_filters/ip_limit.py:109-146 | two counter keys are equal iff they name the same window for the same network |
| IpLimit.FilterRequestNoLinkToken | src/botdetection/request_filters/ip_limit.py:136-150 | without a store it raises and no counter changes. Otherwise the burst counter goes up by one. Above 15 the request is rejected with the burst reason and the long counter is untouched. Otherwise the long counter goes up by one. Rejection happens iff burst > 15 or long > 150, always with 429, and no other counter changes |
| IpLimit.FilterRequest | src/botdetection/request_filters/ip_limit.py:97-133 | without a store or without a link token it is the plain limiter. A calm client passes and zeroes only its suspicious counter. A suspicious client's counter goes up by one. Above 3 the client is redirected and only that counter changes; otherwise the burst and long rules apply with ceilings 2 and 10. Only this network's three counters ever change |
| IpLimit.MissingStoreRaises | src/botdetection/request_filters/ip_limit.py:102-103 | without a store the limiter raises before touching any counter, link token or not |
| IpLimit.PlainCounts | src/botdetection/request_filters/ip_limit.py:142-148 | from fresh counters, each of the first 15 requests counts once in both windows |
| IpLimit.SixteenthRequestRejected | src/botdetection/request_filters/ip_limit.py:142-144 | from fresh counters, the 15th request is admitted and the 16th is rejected with the burst reason |
| IpLimit.SuspiciousCounts | src/botdetection/request_filters/ip_limit.py:113-116 | each suspicious request counts once in the suspicious-IP window |
| IpLimit.FourthSuspiciousRequestRedirected | src/botdetection/request_filters/ip_limit.py:117-123 | from a fresh suspicious window, the 4th suspicious request is redirected whatever the other counters hold |
| IpLimit.ReleaseRestartsSuspicion | src/botdetection/request_filters/ip_limit.py:107-117 | after a calm request, the next suspicious request restarts that window at one and is not redirected |
| IpLimit.SuspiciousIsStricter | src/botdetection/request_filters/ip_limit.py:75-88 | whatever the plain limiter rejects, the suspicious limiter rejects on the same counters; this rests on the suspicious ceilings being no higher than the normal ones (2 against 15, 10 against 150) |
| IpLimit.NetworksDoNotShareCounters | src/botdetection/request_filters/ip_limit.py:109-146 | a request never changes another network's counters |
| RequestFilters.Apply | src/botdetection/request_filters/__init__.py:12-28 | the base filter answers nothing; each of the six predefined variants answers exactly as the module function it wraps; the header filters leave the counters alone; a custom filter is called as given |
| RequestFilters.Chain | src/botdetection/request_filters/__init__.py:46-52 | an answer always comes from one of the listed filters; an empty list answers nothing |
| RequestFilters.ChainAppend | src/botdetection/request_filters/__init__.py:46-52 | running `a + b` is running `a` and, if it answered nothing, then `b` on the updated counters |
| RequestFilters.FirstAnswerWins | src/botdetection/request_filters/__init__.py:49-51 | the first filter that answers decides, and later filters never run |
| RequestFilters.SilentChainAdmits | src/botdetection/request_filters/__init__.py:46-52 | if every filter answers nothing on the counters its predecessors left, the chain answers nothing |
| RequestFilters.Lookup | src/botdetection/request_filters/__init__.py:42-44 | a registered path's list (even an empty one) wins; otherwise the `"*"` list is used; nothing is found iff neither key exists |
| RequestFilters.Call | src/botdetection/request_filters/__init__.py:35-52 | a request whose path has no list and no `"*"` fallback passes untouched |
| RequestFilters.ExactPathWins | src/botdetection/request_filters/__init__.py:42-44 | for a registered path the `"*"` list plays no part, and an empty registered list admits |
| RequestFilters.WildcardFallback | src/botdetection/request_filters/__init__.py:43-44 | an unregistered path runs the `"*"` list, or passes when there is none |
| RequestFilters.BaseFilterIsEmptyRoute | src/botdetection/request_filters/__init__.py:12-19 | the base filter behaves like a route filter with no routes: it answers nothing |
| BotDetection.Install | src/botdetection/_botdetection.py:25-31 | a store handle exists iff redis was supplied, and it uses the configured prefix and secret |
| BotDetection.BeforeRequest | src/botdetection/_botdetection.py:38-80 | an exempt link-local client, or one on the pass list, is let through untouched; the counters change only for a request that is neither exempt nor listed |
| BotDetection.LinkLocalExempt | src/botdetection/_botdetection.py:49-54 | a link-local client is let through without any check when `filter_link_local` is off, even when block-listed |
| BotDetection.FilterLinkLocalRemovesExemption | src/botdetection/_botdetection.py:49 | with `filter_link_local` on, being link-local changes nothing |
| BotDetection.PassOverridesBlock | src/botdetection/_botdetection.py:64-67 | an address on both lists is let through |
| BotDetection.BlockListedRejected | src/botdetection/_botdetection.py:69-72 | a block-listed address that is not on the pass list gets 429 naming the first matching network, and no filter runs |
| BotDetection.FilterDecidesOtherwise | src/botdetection/_botdetection.py:74-80 | a client on neither list is decided by the route filter alone |
| BotDetection.ListsSeeTheAddressNotTheNetwork | src/botdetection/_botdetection.py:64-72 | the lists are consulted with the real address: once a list decides, the client's (non-exempt) network makes no difference to the answer |
| BotDetection.NeighbourInListedNetworkPasses | src/botdetection/_botdetection.py:64-80 | in the network 128.0.0.0/1 with only 128.0.0.0/32 block-listed, 128.0.0.0 is rejected and its neighbour 128.0.0.1 passes |
| BotDetection.HtmlHeader | src/botdetection/_botdetection.py:82-98 | empty iff the request has no link token; otherwise it contains the link `/client<token>.css` |
| BotDetection.ClientToken | src/botdetection/_botdetection.py:102-106 | the reply is an `AttributeError` iff the request has no link token; otherwise it is an empty `text/css` body |
| BotDetection.ClientReplyIgnoresToken | src/botdetection/_botdetection.py:104-106 | the reply never depends on the token in the URL |

## Left out

- The redis helpers (`_redislib`): sliding-window expiry, TTLs and hashing of keys are not modelled. A counter only grows until it is dropped. The time windows appear only as constants.
- Requests are processed one at a time against one counter map, and every `incr` and `drop` succeeds. In the source, concurrent requests share one redis. The two or three `incr_sliding_window` calls that `ip_limit` makes for one request are not atomic together, and a redis error escapes as an exception. So IpLimit.PlainCounts, IpLimit.SuspiciousCounts, IpLimit.SixteenthRequestRejected and IpLimit.FourthSuspiciousRequestRedirected hold only when requests do not interleave and redis does not fail.
- `link_token` internals (token generation, `get_token`, `ping`, `is_suspicious`) are not part of this model. A request's link token, and whether it is suspicious, are inputs.
- `_helpers` is not part of this model. `get_real_ip`, `get_network` and the network's `compressed` text and `is_link_local` are inputs to the gate. `too_many_requests` becomes the `TooManyRequests(reason)` response, with status 429.
- Configuration parsing and validation (`config`) are left out. The model takes the parsed lists and flags; invalid list entries never reach it.
- HttpAccept.FilterRequest: werkzeug's `accept_mimetypes` media-range matching is left out. Whether the Accept header admits `text/html` is an input flag, so this filter's contract is weaker than the source's behaviour.
- Header names are looked up exactly. werkzeug's case-insensitive header access is not modelled.
- Flask and Jinja are left out: the response objects, `url_for`, `render_template_string`, logging, and the `request` attributes the gate sets.
- BotDetection.HtmlHeader: URL quoting and HTML escaping of the token are not modelled, so the link is stated for the token as given.
- BotDetection.ClientToken: the `ping` side effect on the link-token store is left out.
- A `RouteFilter` nested inside a filter list has no variant of its own. It can be written as a custom filter that calls `RequestFilters.Call`.
- A path's value is always a list in the model. In the source a path mapped to `None` falls back to `"*"`, which the model expresses by leaving the path out. Any other non-list value answers nothing, which an empty list expresses.
- Only the exception class of an escaping error is kept (`AttributeError`). Its message, traceback and Flask's error page are not modelled.
- Whitespace is Python's `str.isspace` set. Other Unicode properties are not modelled.
- HttpUserAgent.StartAnchored: stated only for first characters no start-anchored alternative can begin with (space, `(`, `X`), not for every non-matching string. Browser User-Agents, which begin with `M`, are covered by HttpUserAgent.BrowserUserAgentAccepted.
- HttpUserAgent.FirefoxAccepted: stated for a shortened Firefox string only. Full-length browser strings are covered symbolically by HttpUserAgent.BrowserUserAgentAccepted.
- HttpUserAgent.WgetFirstLetterOnly: the `WGET` half is stated for the `[wW]get` alternative alone, not for the whole expression.

## Findings

| source | as written | input that shows it | evidently intended | confidence | as-written member | corrected member |
|---|---|---|---|---|---|---|
| src/botdetection/_ip_lists.py:77 | the f-string writes a literal `f` before `{list_name}`, so the miss message reads "... in the fpass_ip list" | any address not on the pass list, for example any address with an empty `pass_ip` | "... in the pass_ip list" | not executed | IpLists.NotMemberTextAsWrittenMisnamesList | IpLists.NotMemberText |
