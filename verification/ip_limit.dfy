/**
 The `ip_limit` method: per-network request counters with fixed ceilings,
 tightened for clients the link token marks as suspicious
 (`src/botdetection/request_filters/ip_limit.py`).
 */
module IpLimit {
  import opened Wrappers
  import opened RequestTypes
  import opened CounterStore

  /** Window lengths in seconds; they only parameterise the store's expiry,
      which is not modelled. */
  const BURST_WINDOW: nat := 20
  const LONG_WINDOW: nat := 600
  const SUSPICIOUS_IP_WINDOW: nat := 3600 * 24 * 30

  const BURST_MAX: nat := 15
  const BURST_MAX_SUSPICIOUS: nat := 2
  const LONG_MAX: nat := 150
  const LONG_MAX_SUSPICIOUS: nat := 10
  const SUSPICIOUS_IP_MAX: nat := 3

  datatype Window = BurstWindow | LongWindow | SuspiciousIpWindow

  function WindowName(w: Window): string {
    match w
    case BurstWindow => "ip_limit.BURST_WINDOW"
    case LongWindow => "ip_limit.LONG_WINDOW"
    case SuspiciousIpWindow => "ip_limit.SUSPICIOUS_IP_WINDOW"
  }

  /** The counter key of a window for the client's network. */
  function Key(w: Window, info: RequestInfo): string {
    WindowName(w) + info.compressed
  }

  /** Counter keys never collide: two keys are equal only for the same
      window and the same network text. */
  lemma KeysDistinct(w1: Window, a: RequestInfo, w2: Window, b: RequestInfo)
    ensures Key(w1, a) == Key(w2, b) <==> w1 == w2 && a.compressed == b.compressed
  {
    var k1, k2 := Key(w1, a), Key(w2, b);
    if k1 == k2 {
      // all names share "ip_limit." and differ at index 9
      assert WindowName(w1)[9] == k1[9] == k2[9] == WindowName(w2)[9];
      assert w1 == w2;
      var n := |WindowName(w1)|;
      assert a.compressed == k1[n..] == k2[n..] == b.compressed;
    }
  }

  const BURST_REASON := "too many request in BURST_WINDOW (BURST_MAX)"
  const LONG_REASON := "too many request in LONG_WINDOW (LONG_MAX)"
  const BURST_SUSPICIOUS_REASON := "too many request in BURST_WINDOW (BURST_MAX_SUSPICIOUS)"
  const LONG_SUSPICIOUS_REASON := "too many request in LONG_WINDOW (LONG_MAX_SUSPICIOUS)"

  /** Only the given windows' counters of this network may change. */
  ghost predicate OnlyTouches(before: Counters, after: Counters, keys: set<string>) {
    forall k | k !in keys :: Count(after, k) == Count(before, k)
  }

  /** `filter_request_no_linktoken`: count the request in the burst window
      and reject above `BURST_MAX`; only then count it in the long window
      and reject above `LONG_MAX`. Without a store the first count raises. */
  function FilterRequestNoLinkToken(ctx: Context, info: RequestInfo, store: Counters): (r: Step)
    ensures ctx.redisLib.None? ==> r == Step(Some(Raised(ATTRIBUTE_ERROR)), store)
    ensures ctx.redisLib.Some? ==>
              var burst := Count(store, Key(BurstWindow, info)) + 1;
              var long := Count(store, Key(LongWindow, info)) + 1;
              && Count(r.store, Key(BurstWindow, info)) == burst
              && (burst > BURST_MAX ==> r == Step(Some(TooManyRequests(BURST_REASON)), Incr(store, Key(BurstWindow, info)).store))
              && (burst <= BURST_MAX ==> Count(r.store, Key(LongWindow, info)) == long)
              && (burst <= BURST_MAX && long > LONG_MAX ==> r.response == Some(TooManyRequests(LONG_REASON)))
              && (r.response.Some? <==> burst > BURST_MAX || long > LONG_MAX)
              && (r.response.Some? ==> r.response.value.Status() == 429)
    ensures OnlyTouches(store, r.store, {Key(BurstWindow, info), Key(LongWindow, info)})
  {
    KeysDistinct(BurstWindow, info, LongWindow, info);
    if ctx.redisLib.None? then Step(Some(Raised(ATTRIBUTE_ERROR)), store)
    else
      var b := Incr(store, Key(BurstWindow, info));
      if b.count > BURST_MAX then
        Step(Some(TooManyRequests(BURST_REASON)), b.store)
      else
        var l := Incr(b.store, Key(LongWindow, info));
        if l.count > LONG_MAX then Step(Some(TooManyRequests(LONG_REASON)), l.store)
        else Step(None, l.store)
  }

  /** `filter_request`: without a store or without a link token, the plain
      limiter. A client that is not suspicious releases its suspicious-window
      counter and passes. A suspicious client is redirected once it exceeds
      `SUSPICIOUS_IP_MAX`, and otherwise meets the tightened ceilings. */
  function FilterRequest(ctx: Context, info: RequestInfo, store: Counters): (r: Step)
    ensures ctx.redisLib.None? || ctx.linkToken.None? ==> r == FilterRequestNoLinkToken(ctx, info, store)
    ensures ctx.redisLib.Some? && ctx.linkToken.Some? && !ctx.linkToken.value.suspicious ==>
              r.response.None? && Count(r.store, Key(SuspiciousIpWindow, info)) == 0
              && OnlyTouches(store, r.store, {Key(SuspiciousIpWindow, info)})
    ensures ctx.redisLib.Some? && ctx.linkToken.Some? && ctx.linkToken.value.suspicious ==>
              var seen := Count(store, Key(SuspiciousIpWindow, info)) + 1;
              var burst := Count(store, Key(BurstWindow, info)) + 1;
              var long := Count(store, Key(LongWindow, info)) + 1;
              && Count(r.store, Key(SuspiciousIpWindow, info)) == seen
              && (seen > SUSPICIOUS_IP_MAX ==>
                    r.response == Some(RedirectToIndex) && OnlyTouches(store, r.store, {Key(SuspiciousIpWindow, info)}))
              && (seen <= SUSPICIOUS_IP_MAX ==>
                    && Count(r.store, Key(BurstWindow, info)) == burst
                    && (burst > BURST_MAX_SUSPICIOUS ==>
                          r.response == Some(TooManyRequests(BURST_SUSPICIOUS_REASON))
                          && Count(r.store, Key(LongWindow, info)) == long - 1)
                    && (burst <= BURST_MAX_SUSPICIOUS ==>
                          Count(r.store, Key(LongWindow, info)) == long
                          && (r.response.Some? <==> long > LONG_MAX_SUSPICIOUS)
                          && (r.response.Some? ==> r.response == Some(TooManyRequests(LONG_SUSPICIOUS_REASON)))))
    ensures OnlyTouches(store, r.store, {Key(SuspiciousIpWindow, info), Key(BurstWindow, info), Key(LongWindow, info)})
  {
    if ctx.redisLib.None? || ctx.linkToken.None? then FilterRequestNoLinkToken(ctx, info, store)
    else
      KeysDistinct(SuspiciousIpWindow, info, BurstWindow, info);
      KeysDistinct(SuspiciousIpWindow, info, LongWindow, info);
      KeysDistinct(BurstWindow, info, LongWindow, info);
      var suspicious := ctx.linkToken.value.suspicious;
      if !suspicious then
        Step(None, Drop(store, Key(SuspiciousIpWindow, info)))
      else
        var c := Incr(store, Key(SuspiciousIpWindow, info));
        if c.count > SUSPICIOUS_IP_MAX then Step(Some(RedirectToIndex), c.store)
        else
          var b := Incr(c.store, Key(BurstWindow, info));
          if b.count > BURST_MAX_SUSPICIOUS then Step(Some(TooManyRequests(BURST_SUSPICIOUS_REASON)), b.store)
          else
            var l := Incr(b.store, Key(LongWindow, info));
            if l.count > LONG_MAX_SUSPICIOUS then Step(Some(TooManyRequests(LONG_SUSPICIOUS_REASON)), l.store)
            else Step(None, l.store)
  }

  /** Without a store the limiter raises before touching any counter, with
      or without a link token. */
  lemma MissingStoreRaises(ctx: Context, info: RequestInfo, store: Counters)
    requires ctx.redisLib.None?
    ensures FilterRequest(ctx, info, store) == Step(Some(Raised(ATTRIBUTE_ERROR)), store)
  {
  }

  /** The store after `n` successive requests of one client in one context. */
  function Repeat(n: nat, ctx: Context, info: RequestInfo, store: Counters): Counters {
    if n == 0 then store else FilterRequest(ctx, info, Repeat(n - 1, ctx, info, store)).store
  }

  /** Without a link token, a network's first fifteen requests each count once
      in both windows. */
  lemma {:induction false} PlainCounts(n: nat, ctx: Context, info: RequestInfo, store: Counters)
    requires ctx.redisLib.Some? && ctx.linkToken.None? && n <= BURST_MAX
    requires Count(store, Key(BurstWindow, info)) == 0 && Count(store, Key(LongWindow, info)) == 0
    ensures Count(Repeat(n, ctx, info, store), Key(BurstWindow, info)) == n
    ensures Count(Repeat(n, ctx, info, store), Key(LongWindow, info)) == n
  {
    if n > 0 {
      PlainCounts(n - 1, ctx, info, store);
      var prev := Repeat(n - 1, ctx, info, store);
      assert Repeat(n, ctx, info, store) == FilterRequestNoLinkToken(ctx, info, prev).store;
    }
  }

  /** Burst ceiling: from fresh counters, the 15th request of a network is
      admitted and the 16th is rejected with the burst reason. */
  lemma SixteenthRequestRejected(ctx: Context, info: RequestInfo, store: Counters)
    requires ctx.redisLib.Some? && ctx.linkToken.None?
    requires Count(store, Key(BurstWindow, info)) == 0 && Count(store, Key(LongWindow, info)) == 0
    ensures FilterRequest(ctx, info, Repeat(14, ctx, info, store)).response.None?
    ensures FilterRequest(ctx, info, Repeat(15, ctx, info, store)).response == Some(TooManyRequests(BURST_REASON))
  {
    PlainCounts(14, ctx, info, store);
    PlainCounts(15, ctx, info, store);
  }

  /** A suspicious client's requests each count once in the suspicious window. */
  lemma {:induction false} SuspiciousCounts(n: nat, ctx: Context, info: RequestInfo, store: Counters)
    requires ctx.redisLib.Some? && ctx.linkToken.Some? && ctx.linkToken.value.suspicious
    requires Count(store, Key(SuspiciousIpWindow, info)) == 0
    ensures Count(Repeat(n, ctx, info, store), Key(SuspiciousIpWindow, info)) == n
  {
    if n > 0 {
      SuspiciousCounts(n - 1, ctx, info, store);
    }
  }

  /** Persistent suspicion: from a fresh suspicious window, the 4th suspicious
      request is redirected, whatever the burst and long windows hold. */
  lemma FourthSuspiciousRequestRedirected(ctx: Context, info: RequestInfo, store: Counters)
    requires ctx.redisLib.Some? && ctx.linkToken.Some? && ctx.linkToken.value.suspicious
    requires Count(store, Key(SuspiciousIpWindow, info)) == 0
    ensures FilterRequest(ctx, info, Repeat(3, ctx, info, store)).response == Some(RedirectToIndex)
  {
    SuspiciousCounts(3, ctx, info, store);
  }

  /** A request that is not suspicious releases the network: the next
      suspicious request starts the suspicious window again at one and is
      not redirected. */
  lemma ReleaseRestartsSuspicion(ctx: Context, info: RequestInfo, store: Counters, token: string)
    requires ctx.redisLib.Some?
    ensures var calm := ctx.(linkToken := Some(LinkToken(token, false)));
            var wary := ctx.(linkToken := Some(LinkToken(token, true)));
            var after := FilterRequest(calm, info, store).store;
            var r := FilterRequest(wary, info, after);
            Count(r.store, Key(SuspiciousIpWindow, info)) == 1 && r.response != Some(RedirectToIndex)
  {
  }

  /** Whenever the plain limiter turns a request down, the suspicious limiter
      on the same counters turns it down too (redirect or 429). */
  lemma SuspiciousIsStricter(ctx: Context, info: RequestInfo, store: Counters, token: string)
    requires FilterRequestNoLinkToken(ctx, info, store).response.Some?
    ensures FilterRequest(ctx.(linkToken := Some(LinkToken(token, true))), info, store).response.Some?
  {
    var wary := ctx.(linkToken := Some(LinkToken(token, true)));
    KeysDistinct(SuspiciousIpWindow, info, BurstWindow, info);
    KeysDistinct(SuspiciousIpWindow, info, LongWindow, info);
  }

  /** Requests from one network never change the counters of another. */
  lemma NetworksDoNotShareCounters(ctx: Context, info: RequestInfo, other: RequestInfo, w: Window, store: Counters)
    requires other.compressed != info.compressed
    ensures Count(FilterRequest(ctx, info, store).store, Key(w, other))
            == Count(store, Key(w, other))
  {
    KeysDistinct(w, other, SuspiciousIpWindow, info);
    KeysDistinct(w, other, BurstWindow, info);
    KeysDistinct(w, other, LongWindow, info);
  }
}
