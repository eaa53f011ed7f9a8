/**
 The `http_accept_encoding` method: a request is a bot's unless one of the
 comma-separated items of its Accept-Encoding header, stripped of
 whitespace, is exactly `gzip` or `deflate`.
 */
module HttpAcceptEncoding {
  import opened Wrappers
  import opened Strings
  import opened RequestTypes

  const REASON := "HTTP header Accept-Encoding did not contain gzip nor deflate"

  /** Each item of `parts`, stripped. */
  function StripAll(parts: seq<string>): (r: seq<string>)
    ensures |r| == |parts| && forall i | 0 <= i < |parts| :: r[i] == Strip(parts[i])
  {
    seq(|parts|, i requires 0 <= i < |parts| => Strip(parts[i]))
  }

  /** `[value.strip() for value in header.split(",")]`. */
  function AcceptList(value: string): seq<string> {
    StripAll(Split(value, ','))
  }

  /** One comma-separated item announces a supported compression. */
  predicate Supported(item: string) {
    Strip(item) == "gzip" || Strip(item) == "deflate"
  }

  predicate AnySupported(parts: seq<string>) {
    exists i | 0 <= i < |parts| :: Supported(parts[i])
  }

  lemma MembershipIsSupport(parts: seq<string>)
    ensures ("gzip" in StripAll(parts) || "deflate" in StripAll(parts)) <==> AnySupported(parts)
  {
    var l := StripAll(parts);
    if "gzip" in l || "deflate" in l {
      var i :| 0 <= i < |l| && (l[i] == "gzip" || l[i] == "deflate");
      assert Supported(parts[i]);
    }
    if AnySupported(parts) {
      var i :| 0 <= i < |parts| && Supported(parts[i]);
      assert l[i] in l;
    }
  }

  function FilterRequest(ctx: Context, info: RequestInfo, req: Request): (r: Option<Response>)
    ensures r.None? <==> AnySupported(Split(Header(req, "Accept-Encoding", ""), ','))
    ensures r.Some? ==> r.value == TooManyRequests(REASON)
  {
    var header := Header(req, "Accept-Encoding", "");
    var acceptList := AcceptList(header);
    MembershipIsSupport(Split(header, ','));
    if !("gzip" in acceptList || "deflate" in acceptList) then Some(TooManyRequests(REASON))
    else None
  }

  function WithEncoding(value: string): Request {
    Request("/", map["Accept-Encoding" := value], true)
  }

  /** Without the header the item list is `[""]`, so the request is rejected. */
  lemma MissingHeaderRejected(ctx: Context, info: RequestInfo, req: Request)
    requires "Accept-Encoding" !in req.headers
    ensures FilterRequest(ctx, info, req) == Some(TooManyRequests(REASON))
  {
    SplitNoSep("", ',');
    StripPadded("", "", "");
  }

  /** A header that is one item, trimmed and free of commas, is accepted
      only if it is literally `gzip` or `deflate`: `GZIP` or `gzip;q=1` do not count. */
  lemma SingleItemIsExact(ctx: Context, info: RequestInfo, item: string)
    requires ',' !in item && Trimmed(item)
    ensures FilterRequest(ctx, info, WithEncoding(item)).None? <==> item == "gzip" || item == "deflate"
  {
    SplitNoSep(item, ',');
    StripPadded("", item, "");
    assert "" + item + "" == item;
  }

  lemma UpperCaseRejected(ctx: Context, info: RequestInfo)
    ensures FilterRequest(ctx, info, WithEncoding("GZIP")).Some?
  {
    SingleItemIsExact(ctx, info, "GZIP");
  }

  lemma QualityValueRejected(ctx: Context, info: RequestInfo)
    ensures FilterRequest(ctx, info, WithEncoding("gzip;q=1")).Some?
  {
    SingleItemIsExact(ctx, info, "gzip;q=1");
  }

  /** One supported item anywhere in the list is enough for acceptance. */
  lemma SupportedItemAccepted(ctx: Context, info: RequestInfo, before: string, item: string, after: string)
    requires ',' !in item && Supported(item)
    ensures FilterRequest(ctx, info, WithEncoding(before + [','] + item + [','] + after)).None?
  {
    var rest := item + [','] + after;
    assert before + [','] + item + [','] + after == before + [','] + rest;
    SplitConcat(before, rest, ',');
    SplitConcat(item, after, ',');
    SplitNoSep(item, ',');
    var a := Split(before, ',');
    var parts := a + ([item] + Split(after, ','));
    assert parts[|a|] == item;
  }

  /** Surrounding whitespace does not hide a supported item: ` deflate ` counts. */
  lemma PaddedItemAccepted(ctx: Context, info: RequestInfo, before: string, after: string)
    ensures FilterRequest(ctx, info, WithEncoding(before + [','] + " deflate " + [','] + after)).None?
  {
    StripPadded(" ", "deflate", " ");
    assert " " + "deflate" + " " == " deflate ";
    SupportedItemAccepted(ctx, info, before, " deflate ", after);
  }

  /** The verdict depends only on which items the header holds: two headers
      whose comma-separated items are the same set, in any order and with
      any repetition, get the same answer. */
  lemma VerdictIgnoresOrder(ctx: Context, info: RequestInfo, h1: string, h2: string)
    requires forall e :: e in Split(h1, ',') <==> e in Split(h2, ',')
    ensures FilterRequest(ctx, info, WithEncoding(h1)) == FilterRequest(ctx, info, WithEncoding(h2))
  {
    var a, b := Split(h1, ','), Split(h2, ',');
    if AnySupported(a) {
      var i :| 0 <= i < |a| && Supported(a[i]);
      assert a[i] in b;
    }
    if AnySupported(b) {
      var i :| 0 <= i < |b| && Supported(b[i]);
      assert b[i] in a;
    }
  }

  /** In particular, swapping the two sides of a comma keeps the verdict. */
  lemma CommaSwapKeepsVerdict(ctx: Context, info: RequestInfo, x: string, y: string)
    ensures FilterRequest(ctx, info, WithEncoding(x + "," + y))
            == FilterRequest(ctx, info, WithEncoding(y + "," + x))
  {
    SplitConcat(x, y, ',');
    SplitConcat(y, x, ',');
    var a, b := Split(x, ','), Split(y, ',');
    assert forall p :: p in a + b <==> p in b + a;
    VerdictIgnoresOrder(ctx, info, x + "," + y, y + "," + x);
  }

  /** Context and client identity never influence the verdict. */
  lemma VerdictOnlyFromHeader(c1: Context, i1: RequestInfo, c2: Context, i2: RequestInfo, req: Request)
    ensures FilterRequest(c1, i1, req) == FilterRequest(c2, i2, req)
  {
  }
}
