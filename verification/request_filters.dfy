/**
 Request filters and their composition (`src/botdetection/request_filters/__init__.py`):
 the base filter, the predefined filters, user-supplied filters, and the
 route filter that picks a list of filters by path and runs it until one
 of them answers.
 */
module RequestFilters {
  import opened Wrappers
  import opened RequestTypes
  import opened CounterStore
  import HttpAccept
  import HttpAcceptEncoding
  import HttpAcceptLanguage
  import HttpConnection
  import HttpUserAgent
  import IpLimit

  /** `PredefinedRequestFilter`: the closed set of built-in filters. */
  datatype PredefinedFilter =
    | AcceptCheck
    | AcceptEncodingCheck
    | AcceptLanguageCheck
    | ConnectionCheck
    | UserAgentCheck
    | IpLimitCheck

  /** A user-supplied filter: any total function of the same inputs. */
  type FilterFn = (Context, RequestInfo, Request, Counters) -> Step

  /** An entry of a route's list: the base `RequestFilter`, a predefined
      filter, or a user-supplied callable. */
  datatype Filter =
    | BaseFilter
    | Predefined(which: PredefinedFilter)
    | Custom(call: FilterFn)

  /** Run one filter; a predefined one runs the module function it wraps. */
  function Apply(f: Filter, ctx: Context, info: RequestInfo, req: Request, store: Counters): (r: Step)
    ensures f.BaseFilter? ==> r == Step(None, store)
    ensures f.Predefined? && f.which != IpLimitCheck ==> r.store == store
    ensures f.Predefined? && f.which == AcceptCheck ==> r.response == HttpAccept.FilterRequest(ctx, info, req)
    ensures f.Predefined? && f.which == AcceptEncodingCheck ==> r.response == HttpAcceptEncoding.FilterRequest(ctx, info, req)
    ensures f.Predefined? && f.which == AcceptLanguageCheck ==> r.response == HttpAcceptLanguage.FilterRequest(ctx, info, req)
    ensures f.Predefined? && f.which == ConnectionCheck ==> r.response == HttpConnection.FilterRequest(ctx, info, req)
    ensures f.Predefined? && f.which == UserAgentCheck ==> r.response == HttpUserAgent.FilterRequest(ctx, info, req)
    ensures f.Predefined? && f.which == IpLimitCheck ==> r == IpLimit.FilterRequest(ctx, info, store)
    ensures f.Custom? ==> r == f.call(ctx, info, req, store)
  {
    match f
    case BaseFilter => Step(None, store)
    case Custom(call) => call(ctx, info, req, store)
    case Predefined(which) =>
      match which
      case AcceptCheck => Step(HttpAccept.FilterRequest(ctx, info, req), store)
      case AcceptEncodingCheck => Step(HttpAcceptEncoding.FilterRequest(ctx, info, req), store)
      case AcceptLanguageCheck => Step(HttpAcceptLanguage.FilterRequest(ctx, info, req), store)
      case ConnectionCheck => Step(HttpConnection.FilterRequest(ctx, info, req), store)
      case UserAgentCheck => Step(HttpUserAgent.FilterRequest(ctx, info, req), store)
      case IpLimitCheck => IpLimit.FilterRequest(ctx, info, store)
  }

  /** Run `fs` in order, threading the counters, and stop at the first
      filter that answers. An answer always comes from one of the filters. */
  function Chain(fs: seq<Filter>, ctx: Context, info: RequestInfo, req: Request, store: Counters): (r: Step)
    ensures r.response.Some? ==> exists i, s :: 0 <= i < |fs| && r == Apply(fs[i], ctx, info, req, s)
    ensures |fs| == 0 ==> r == Step(None, store)
    decreases |fs|
  {
    if |fs| == 0 then Step(None, store)
    else
      var first := Apply(fs[0], ctx, info, req, store);
      if first.response.Some? then first
      else
        var r := Chain(fs[1..], ctx, info, req, first.store);
        assert r.response.Some? ==> exists i, s :: 0 <= i < |fs| && r == Apply(fs[i], ctx, info, req, s) by {
          if r.response.Some? {
            var i, s :| 0 <= i < |fs[1..]| && r == Apply(fs[1..][i], ctx, info, req, s);
            assert r == Apply(fs[i + 1], ctx, info, req, s);
          }
        }
        r
  }

  /** Running two lists back to back is running their concatenation: the
      second list only runs when the first did not answer, and starts from
      the counters the first left. */
  lemma {:induction false} ChainAppend(a: seq<Filter>, b: seq<Filter>, ctx: Context, info: RequestInfo, req: Request, store: Counters)
    ensures var ra := Chain(a, ctx, info, req, store);
            Chain(a + b, ctx, info, req, store)
              == if ra.response.Some? then ra else Chain(b, ctx, info, req, ra.store)
    decreases |a|
  {
    if |a| == 0 {
      assert a + b == b;
    } else {
      assert (a + b)[0] == a[0];
      assert (a + b)[1..] == a[1..] + b;
      var first := Apply(a[0], ctx, info, req, store);
      if first.response.None? {
        ChainAppend(a[1..], b, ctx, info, req, first.store);
      }
    }
  }

  /** The first filter to answer decides, and the filters after it are never
      run: neither their answers nor their counter updates appear. */
  lemma FirstAnswerWins(before: seq<Filter>, f: Filter, after: seq<Filter>,
                        ctx: Context, info: RequestInfo, req: Request, store: Counters)
    requires Chain(before, ctx, info, req, store).response.None?
    requires Apply(f, ctx, info, req, Chain(before, ctx, info, req, store).store).response.Some?
    ensures Chain(before + [f] + after, ctx, info, req, store)
            == Apply(f, ctx, info, req, Chain(before, ctx, info, req, store).store)
  {
    var s := Chain(before, ctx, info, req, store).store;
    ChainAppend([f], after, ctx, info, req, s);
    ChainAppend(before, [f] + after, ctx, info, req, store);
    assert before + [f] + after == before + ([f] + after);
  }

  /** A list in which every filter answers nothing on the counters it is
      actually run with (those its predecessors left) answers nothing. */
  lemma {:induction false} SilentChainAdmits(fs: seq<Filter>, ctx: Context, info: RequestInfo, req: Request, store: Counters)
    requires forall i | 0 <= i < |fs| ::
               Apply(fs[i], ctx, info, req, Chain(fs[..i], ctx, info, req, store).store).response.None?
    ensures Chain(fs, ctx, info, req, store).response.None?
    decreases |fs|
  {
    if |fs| > 0 {
      var n := |fs| - 1;
      var init := fs[..n];
      forall i | 0 <= i < |init|
        ensures Apply(init[i], ctx, info, req, Chain(init[..i], ctx, info, req, store).store).response.None?
      {
        assert init[i] == fs[i] && init[..i] == fs[..i];
      }
      SilentChainAdmits(init, ctx, info, req, store);
      ChainAppend(init, [fs[n]], ctx, info, req, store);
      assert init + [fs[n]] == fs;
      assert fs[..n] == init;
    }
  }

  /** `RouteFilter`: lists of filters by request path, `"*"` for the rest. */
  datatype RouteFilter = RouteFilter(filters: map<string, seq<Filter>>)

  /** `filters.get(path)`, falling back to `filters.get("*")`. */
  function Lookup(rf: RouteFilter, path: string): (r: Option<seq<Filter>>)
    ensures r.Some? ==> (path in rf.filters && r.value == rf.filters[path])
                        || (path !in rf.filters && "*" in rf.filters && r.value == rf.filters["*"])
    ensures r.None? <==> path !in rf.filters && "*" !in rf.filters
  {
    if path in rf.filters then Some(rf.filters[path])
    else if "*" in rf.filters then Some(rf.filters["*"])
    else None
  }

  /** `RouteFilter.__call__`. */
  function Call(rf: RouteFilter, ctx: Context, info: RequestInfo, req: Request, store: Counters): (r: Step)
    ensures Lookup(rf, req.path).None? ==> r == Step(None, store)
  {
    match Lookup(rf, req.path)
    case None => Step(None, store)
    case Some(fs) => Chain(fs, ctx, info, req, store)
  }

  /** An exact path entry is used as is, even when its list is empty, and
      the `"*"` entry is then never consulted. */
  lemma ExactPathWins(rf: RouteFilter, ctx: Context, info: RequestInfo, req: Request, store: Counters, wild: seq<Filter>)
    requires req.path in rf.filters && req.path != "*"
    ensures Call(rf, ctx, info, req, store) == Chain(rf.filters[req.path], ctx, info, req, store)
    ensures Call(rf, ctx, info, req, store) == Call(RouteFilter(rf.filters["*" := wild]), ctx, info, req, store)
    ensures rf.filters[req.path] == [] ==> Call(rf, ctx, info, req, store) == Step(None, store)
  {
  }

  /** A path without an entry runs the `"*"` list; with no `"*"` entry
      either, the request passes untouched. */
  lemma WildcardFallback(rf: RouteFilter, ctx: Context, info: RequestInfo, req: Request, store: Counters)
    requires req.path !in rf.filters
    ensures "*" in rf.filters ==> Call(rf, ctx, info, req, store) == Chain(rf.filters["*"], ctx, info, req, store)
    ensures "*" !in rf.filters ==> Call(rf, ctx, info, req, store) == Step(None, store)
  {
  }

  /** The base `RequestFilter` answers nothing, just like a route filter
      with no entries. */
  lemma BaseFilterIsEmptyRoute(ctx: Context, info: RequestInfo, req: Request, store: Counters)
    ensures Apply(BaseFilter, ctx, info, req, store) == Call(RouteFilter(map[]), ctx, info, req, store)
    ensures Apply(BaseFilter, ctx, info, req, store).response.None?
  {
  }
}
