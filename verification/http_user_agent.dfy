/**
 The `http_user_agent` method: a request is a bot's when its User-Agent
 (`unknown` if the header is missing) matches, from its first character,
 one alternative of the `USER_AGENT` regular expression.

 The expression is a flat alternation, so it is represented here as a list
 of alternatives, each either a start-anchored sequence of pieces (a literal,
 a character class, or `.`, which matches any character but a newline), or
 the one alternative `.*PetalBot.*`, which finds `PetalBot` anywhere before
 the first newline.
 */
module HttpUserAgent {
  import opened Wrappers
  import opened Strings
  import opened RequestTypes

  datatype Piece = Lit(text: string) | Dot | OneOf(chars: string)

  datatype Alternative = Starts(pieces: seq<Piece>) | Anywhere(word: string)

  function Word(w: string): Alternative {
    Starts([Lit(w)])
  }

  /** The alternatives of `USER_AGENT`, in the source's order, in groups of ten. */
  const GROUP1: seq<Alternative> := [
    Word("unknown"),
    Starts([OneOf("Cc"), OneOf("Uu"), OneOf("Rr"), OneOf("Ll")]),
    Starts([OneOf("wW"), Lit("get")]),
    Word("Scrapy"), Word("splash"), Word("JavaFX"), Word("FeedFetcher"),
    Word("python-requests"), Word("Go-http-client"), Word("Java")]

  const GROUP2: seq<Alternative> := [
    Word("Jakarta"), Word("okhttp"), Word("HttpClient"), Word("Jersey"), Word("Python"),
    Word("libwww-perl"), Word("Ruby"), Word("SynHttpClient"), Word("UniversalFeedParser"),
    Word("Googlebot")]

  const GROUP3: seq<Alternative> := [
    Word("GoogleImageProxy"), Word("bingbot"), Word("Baiduspider"), Word("yacybot"),
    Word("YandexMobileBot"), Word("YandexBot"), Word("Yahoo! Slurp"), Word("MJ12bot"),
    Word("AhrefsBot"),
    Starts([Lit("archive"), Dot, Lit("org_bot")])]

  const GROUP4: seq<Alternative> := [
    Word("msnbot"), Word("MJ12bot"), Word("SeznamBot"), Word("linkdexbot"), Word("Netvibes"),
    Word("SMTBot"), Word("zgrab"), Word("James BOT"), Word("Sogou"), Word("Abonti")]

  /** The User-Agent of unmaintained Farside instances, matched literally
      (the source escapes it with `re.escape`). */
  const FARSIDE := "Mozilla/5.0 " + "(compatible; Farside/0.1.0; " + "+https://farside.link)"

  const GROUP5: seq<Alternative> := [
    Word("Pixray"), Word("Spinn3r"), Word("SemrushBot"), Word("Exabot"), Word("ZmEu"),
    Word("BLEXBot"), Word("bitlybot"), Word("HeadlessChrome"),
    Word(FARSIDE),
    Anywhere("PetalBot")]

  const USER_AGENT: seq<Alternative> := GROUP1 + GROUP2 + GROUP3 + GROUP4 + GROUP5

  /** The pieces match a prefix of `s`. */
  predicate PiecesMatch(ps: seq<Piece>, s: string)
    decreases |ps|
  {
    if |ps| == 0 then true
    else match ps[0]
      case Lit(t) => t <= s && PiecesMatch(ps[1..], s[|t|..])
      case Dot => |s| > 0 && s[0] != '\n' && PiecesMatch(ps[1..], s[1..])
      case OneOf(cs) => |s| > 0 && s[0] in cs && PiecesMatch(ps[1..], s[1..])
  }

  /** None of the first `i` characters of `s` is a newline. */
  predicate NoNewlineBefore(s: string, i: nat) {
    forall j | 0 <= j < i && j < |s| :: s[j] != '\n'
  }

  /** `w` occurs in `s` with no newline before it (what `.*w.*` needs at the start). */
  predicate FoundBeforeNewline(w: string, s: string) {
    exists i: nat | i <= |s| :: OccursAt(w, s, i) && NoNewlineBefore(s, i)
  }

  predicate AltMatches(a: Alternative, s: string) {
    match a
    case Starts(ps) => PiecesMatch(ps, s)
    case Anywhere(w) => FoundBeforeNewline(w, s)
  }

  /** `re.match(USER_AGENT, s)` succeeds: some alternative matches at the start. */
  predicate RegexMatches(s: string) {
    exists a | a in USER_AGENT :: AltMatches(a, s)
  }

  /** Scan `s` for `w`, giving up at the first newline. */
  function Search(w: string, s: string): (r: bool)
    ensures r <==> FoundBeforeNewline(w, s)
    decreases |s|
  {
    if w <= s then
      FoundAtStart(w, s);
      true
    else if |s| == 0 || s[0] == '\n' then
      NotFoundPastNewline(w, s);
      false
    else
      FoundShift(w, s);
      Search(w, s[1..])
  }

  lemma FoundAtStart(w: string, s: string)
    requires w <= s
    ensures FoundBeforeNewline(w, s)
  {
    assert OccursAt(w, s, 0) && NoNewlineBefore(s, 0);
  }

  /** Only an occurrence at the very start precedes a leading newline. */
  lemma NotFoundPastNewline(w: string, s: string)
    requires !(w <= s) && (|s| == 0 || s[0] == '\n')
    ensures !FoundBeforeNewline(w, s)
  {
    forall i: nat | OccursAt(w, s, i) ensures !NoNewlineBefore(s, i) {
    }
  }

  /** Past a first character that is neither a newline nor the start of `w`,
      the search goes on in the rest. */
  lemma FoundShift(w: string, s: string)
    requires |s| > 0 && s[0] != '\n' && !(w <= s)
    ensures FoundBeforeNewline(w, s) <==> FoundBeforeNewline(w, s[1..])
  {
    if FoundBeforeNewline(w, s) {
      FoundShiftDown(w, s);
    }
    if FoundBeforeNewline(w, s[1..]) {
      FoundShiftUp(w, s);
    }
  }

  lemma FoundShiftDown(w: string, s: string)
    requires |s| > 0 && !(w <= s) && FoundBeforeNewline(w, s)
    ensures FoundBeforeNewline(w, s[1..])
  {
    var i: nat :| OccursAt(w, s, i) && NoNewlineBefore(s, i);
    assert i != 0 && OccursAt(w, s, i);
    var t := s[1..];
    assert t[i - 1..i - 1 + |w|] == s[i..i + |w|];
    assert OccursAt(w, t, i - 1) && NoNewlineBefore(t, i - 1);
  }

  lemma FoundShiftUp(w: string, s: string)
    requires |s| > 0 && s[0] != '\n' && FoundBeforeNewline(w, s[1..])
    ensures FoundBeforeNewline(w, s)
  {
    var t := s[1..];
    var i: nat :| OccursAt(w, t, i) && NoNewlineBefore(t, i);
    assert OccursAt(w, t, i);
    assert s[i + 1..i + 1 + |w|] == t[i..i + |w|];
    assert OccursAt(w, s, i + 1);
    assert NoNewlineBefore(s, i + 1) by {
      forall j | 0 < j < i + 1 && j < |s| ensures s[j] != '\n' {
        assert s[j] == t[j - 1];
      }
    }
  }

  /** Try each alternative in turn. */
  function MatchAny(alts: seq<Alternative>, s: string): (r: bool)
    ensures r <==> exists a | a in alts :: AltMatches(a, s)
  {
    if |alts| == 0 then false
    else
      var hit := match alts[0]
        case Starts(ps) => PiecesMatch(ps, s)
        case Anywhere(w) => Search(w, s);
      assert hit == AltMatches(alts[0], s);
      assert forall a | a in alts :: a == alts[0] || a in alts[1..];
      hit || MatchAny(alts[1..], s)
  }

  const DEFAULT_USER_AGENT := "unknown"

  function FilterRequest(ctx: Context, info: RequestInfo, req: Request): (r: Option<Response>)
    ensures r.Some? <==> RegexMatches(Header(req, "User-Agent", DEFAULT_USER_AGENT))
    ensures r.Some? ==> r.value == TooManyRequests("bot detected, HTTP header User-Agent: "
                                                   + Header(req, "User-Agent", DEFAULT_USER_AGENT))
  {
    var userAgent := Header(req, "User-Agent", DEFAULT_USER_AGENT);
    if MatchAny(USER_AGENT, userAgent) then
      Some(TooManyRequests("bot detected, HTTP header User-Agent: " + userAgent))
    else None
  }

  function WithUserAgent(ua: string): Request {
    Request("/", map["User-Agent" := ua], true)
  }

  /** Any alternative of the expression that matches the start rejects the request. */
  lemma AlternativeRejects(ctx: Context, info: RequestInfo, a: Alternative, ua: string)
    requires a in USER_AGENT && AltMatches(a, ua)
    ensures FilterRequest(ctx, info, WithUserAgent(ua)).Some?
  {
  }

  lemma WordMatchesPrefix(w: string, s: string)
    requires w <= s
    ensures AltMatches(Word(w), s)
  {
  }

  /** A missing User-Agent is read as `unknown`, which the first alternative matches. */
  lemma MissingUserAgentRejected(ctx: Context, info: RequestInfo, req: Request)
    requires "User-Agent" !in req.headers
    ensures FilterRequest(ctx, info, req).Some?
  {
    assert USER_AGENT[0] == Word("unknown");
    WordMatchesPrefix("unknown", "unknown");
  }

  /** A User-Agent that begins with one of the literal words is rejected,
      whatever follows it; the Farside string is one of those words. */
  lemma LiteralPrefixRejected(ctx: Context, info: RequestInfo, rest: string)
    ensures FilterRequest(ctx, info, WithUserAgent("python-requests" + rest)).Some?
    ensures FilterRequest(ctx, info, WithUserAgent("Java" + rest)).Some?
    ensures FilterRequest(ctx, info, WithUserAgent("Googlebot" + rest)).Some?
    ensures FilterRequest(ctx, info, WithUserAgent(FARSIDE + rest)).Some?
  {
    assert USER_AGENT[7] == Word("python-requests");
    assert USER_AGENT[9] == Word("Java");
    assert USER_AGENT[19] == Word("Googlebot");
    assert USER_AGENT[48] == Word(FARSIDE);
    WordMatchesPrefix("python-requests", "python-requests" + rest);
    AlternativeRejects(ctx, info, Word("python-requests"), "python-requests" + rest);
    WordMatchesPrefix("Java", "Java" + rest);
    AlternativeRejects(ctx, info, Word("Java"), "Java" + rest);
    WordMatchesPrefix("Googlebot", "Googlebot" + rest);
    AlternativeRejects(ctx, info, Word("Googlebot"), "Googlebot" + rest);
    WordMatchesPrefix(FARSIDE, FARSIDE + rest);
    AlternativeRejects(ctx, info, Word(FARSIDE), FARSIDE + rest);
  }

  /** `curl` is matched in any letter case. */
  lemma CurlAnyCaseRejected(ctx: Context, info: RequestInfo, c: char, u: char, r: char, l: char, rest: string)
    requires c in "Cc" && u in "Uu" && r in "Rr" && l in "Ll"
    ensures FilterRequest(ctx, info, WithUserAgent([c, u, r, l] + rest)).Some?
  {
    var s := [c, u, r, l] + rest;
    var a := USER_AGENT[1];
    assert a == Starts([OneOf("Cc"), OneOf("Uu"), OneOf("Rr"), OneOf("Ll")]);
    assert s[1..][1..][1..][1..] == rest;
    assert AltMatches(a, s);
    AlternativeRejects(ctx, info, a, s);
  }

  /** `wget` varies only in its first letter: `Wget` is matched by the
      `[wW]get` alternative, `WGET` is not. */
  lemma WgetFirstLetterOnly(ctx: Context, info: RequestInfo, rest: string)
    ensures FilterRequest(ctx, info, WithUserAgent("Wget" + rest)).Some?
    ensures !AltMatches(Starts([OneOf("wW"), Lit("get")]), "WGET" + rest)
  {
    var a := Starts([OneOf("wW"), Lit("get")]);
    assert a == GROUP1[2] == USER_AGENT[2];
    var s := "Wget" + rest;
    assert AltMatches(a, s) by {
      assert s[1..] == "get" + rest;
    }
    AlternativeRejects(ctx, info, a, s);
    WgetUpperNotMatched(rest);
  }

  lemma WgetUpperNotMatched(rest: string)
    ensures !AltMatches(Starts([OneOf("wW"), Lit("get")]), "WGET" + rest)
  {
    assert ("WGET" + rest)[1..][0] == 'G';
  }

  /** The `.` in `archive.org_bot` is unescaped, so it matches any character:
      `archive-org_bot` is rejected as well. */
  lemma ArchiveDotMatchesAnyCharacter(ctx: Context, info: RequestInfo, rest: string)
    ensures FilterRequest(ctx, info, WithUserAgent("archive-org_bot" + rest)).Some?
  {
    var a := USER_AGENT[29];
    assert a == Starts([Lit("archive"), Dot, Lit("org_bot")]);
    var s := "archive-org_bot" + rest;
    assert s[7..] == "-org_bot" + rest;
    assert s[7..][1..] == "org_bot" + rest;
    assert AltMatches(a, s);
    AlternativeRejects(ctx, info, a, s);
  }

  /** `PetalBot` anywhere in the first line rejects the request. */
  lemma PetalBotAnywhereRejected(ctx: Context, info: RequestInfo, before: string, after: string)
    requires '\n' !in before
    ensures FilterRequest(ctx, info, WithUserAgent(before + "PetalBot" + after)).Some?
  {
    var s := before + "PetalBot" + after;
    var a := USER_AGENT[49];
    assert a == Anywhere("PetalBot");
    assert OccursAt("PetalBot", s, |before|) by {
      assert s[|before|..|before| + 8] == "PetalBot";
    }
    assert NoNewlineBefore(s, |before|) by {
      forall j | 0 <= j < |before| ensures s[j] != '\n' {
        assert s[j] == before[j];
      }
    }
    AlternativeRejects(ctx, info, a, s);
  }

  /** Characters no start-anchored alternative can begin with. */
  const NEUTRAL_LEADS := " (X"

  /** `a` cannot match an empty string, nor any string that starts with a
      neutral character. */
  predicate LeadExcluded(a: Alternative) {
    a.Starts? ==> |a.pieces| > 0 && match a.pieces[0]
      case Lit(t) => |t| > 0 && t[0] !in NEUTRAL_LEADS
      case Dot => false
      case OneOf(cs) => forall c | c in cs :: c !in NEUTRAL_LEADS
  }

  /** `a` is lead-excluded, and if it searches anywhere it searches for `PetalBot`. */
  predicate Screened(a: Alternative) {
    LeadExcluded(a) && (a.Anywhere? ==> a.word == "PetalBot")
  }

  lemma Group1Excluded() ensures forall a | a in GROUP1 :: Screened(a) {}
  lemma Group2Excluded() ensures forall a | a in GROUP2 :: Screened(a) {}
  lemma Group3Excluded() ensures forall a | a in GROUP3 :: Screened(a) {}
  lemma Group4Excluded() ensures forall a | a in GROUP4 :: Screened(a) {}
  lemma Group5Excluded() ensures forall a | a in GROUP5 :: Screened(a) {}

  lemma AllLeadsExcluded()
    ensures forall a | a in USER_AGENT :: LeadExcluded(a)
    ensures forall a | a in USER_AGENT && a.Anywhere? :: a.word == "PetalBot"
  {
    Group1Excluded();
    Group2Excluded();
    Group3Excluded();
    Group4Excluded();
    Group5Excluded();
    assert forall a | a in USER_AGENT :: Screened(a);
  }

  /** A start-anchored alternative whose first piece excludes the first
      character of `s` does not match `s`. */
  lemma ExcludedLeadFails(a: Alternative, s: string)
    requires a.Starts? && LeadExcluded(a)
    requires |s| == 0 || s[0] in NEUTRAL_LEADS
    ensures !AltMatches(a, s)
  {
  }

  /** A present but empty User-Agent matches no alternative and is accepted. */
  lemma EmptyUserAgentAccepted(ctx: Context, info: RequestInfo)
    ensures FilterRequest(ctx, info, WithUserAgent("")).None?
  {
    AllLeadsExcluded();
    forall a | a in USER_AGENT ensures !AltMatches(a, "") {
      if a.Starts? { ExcludedLeadFails(a, ""); }
    }
  }

  /** `PetalBot` after a first character other than `P` lies in the rest. */
  lemma PetalBotNotAtFirst(c: char, rest: string)
    requires c != 'P' && FoundBeforeNewline("PetalBot", [c] + rest)
    ensures FoundBeforeNewline("PetalBot", rest)
  {
    var s := [c] + rest;
    assert !("PetalBot" <= s) by {
      assert s[0] == c;
    }
    FoundShiftDown("PetalBot", s);
    assert s[1..] == rest;
  }

  /** A word whose first letter does not occur in `s` is not found in `s`. */
  lemma AbsentLetterNotFound(w: string, s: string)
    requires |w| > 0 && w[0] !in s
    ensures !FoundBeforeNewline(w, s)
  {
  }

  /** The match is anchored at the start: a User-Agent beginning with a
      neutral character is accepted, whatever bot names follow, unless it
      contains `PetalBot` in its first line. */
  lemma StartAnchored(ctx: Context, info: RequestInfo, c: char, rest: string)
    requires c in NEUTRAL_LEADS && !FoundBeforeNewline("PetalBot", rest)
    ensures FilterRequest(ctx, info, WithUserAgent([c] + rest)).None?
  {
    var s := [c] + rest;
    AllLeadsExcluded();
    assert !FoundBeforeNewline("PetalBot", s) by {
      if FoundBeforeNewline("PetalBot", s) { PetalBotNotAtFirst(c, rest); }
    }
    forall a | a in USER_AGENT ensures !AltMatches(a, s) {
      if a.Starts? { ExcludedLeadFails(a, s); }
    }
  }

  /** How every real browser's User-Agent begins. */
  const BROWSER_LEAD := "Mozilla/5.0 ("

  /** `a` cannot match a string that begins with `BROWSER_LEAD` followed by
      anything but `c`: a start-anchored alternative's first piece disagrees
      at index 0 (no `M`), at index 1 (`MJ12bot`) or at index 13 (the
      Farside string, `...(compatible`); the floating one is `PetalBot`. */
  predicate MozillaSafe(a: Alternative) {
    match a
    case Anywhere(w) => w == "PetalBot"
    case Starts(ps) =>
      |ps| > 0 && match ps[0]
        case Lit(t) =>
          || (|t| > 0 && t[0] != 'M')
          || (|t| > 1 && t[0] == 'M' && t[1] != 'o')
          || (|t| > 13 && t[..13] == BROWSER_LEAD && t[13] == 'c')
        case Dot => false
        case OneOf(cs) => 'M' !in cs
  }

  lemma Group1MozillaSafe() ensures forall a | a in GROUP1 :: MozillaSafe(a) {}
  lemma Group2MozillaSafe() ensures forall a | a in GROUP2 :: MozillaSafe(a) {}
  lemma Group3MozillaSafe() ensures forall a | a in GROUP3 :: MozillaSafe(a) {}
  lemma Group4MozillaSafe() ensures forall a | a in GROUP4 :: MozillaSafe(a) {}

  lemma Group5MozillaSafe() ensures forall a | a in GROUP5 :: MozillaSafe(a)
  {
    assert FARSIDE[..13] == BROWSER_LEAD;
  }

  lemma AllMozillaSafe()
    ensures forall a | a in USER_AGENT :: MozillaSafe(a)
  {
    Group1MozillaSafe();
    Group2MozillaSafe();
    Group3MozillaSafe();
    Group4MozillaSafe();
    Group5MozillaSafe();
  }

  /** A start-anchored `MozillaSafe` alternative does not match a browser's
      User-Agent. */
  lemma MozillaSafeFails(a: Alternative, c: char, rest: string)
    requires a.Starts? && MozillaSafe(a) && c != 'c'
    ensures !AltMatches(a, BROWSER_LEAD + [c] + rest)
  {
    var s := BROWSER_LEAD + [c] + rest;
    assert s[0] == 'M' && s[1] == 'o' && s[13] == c;
  }

  /** A browser's User-Agent is accepted: one that begins `Mozilla/5.0 (`
      is let through unless it continues with `c` (the start of the
      Farside string) or contains `PetalBot` in its first line. */
  lemma BrowserUserAgentAccepted(ctx: Context, info: RequestInfo, c: char, rest: string)
    requires c != 'c'
    requires !FoundBeforeNewline("PetalBot", BROWSER_LEAD + [c] + rest)
    ensures FilterRequest(ctx, info, WithUserAgent(BROWSER_LEAD + [c] + rest)).None?
  {
    AllMozillaSafe();
    forall a | a in USER_AGENT ensures !AltMatches(a, BROWSER_LEAD + [c] + rest) {
      if a.Starts? { MozillaSafeFails(a, c, rest); }
    }
  }

  /** Firefox on Linux is accepted. */
  lemma FirefoxAccepted(ctx: Context, info: RequestInfo)
    ensures FilterRequest(ctx, info, WithUserAgent(BROWSER_LEAD + "X11; Linux) Firefox/115.0")).None?
  {
    var rest := "11; Linux) Firefox/115.0";
    assert BROWSER_LEAD + "X11; Linux) Firefox/115.0" == BROWSER_LEAD + ['X'] + rest;
    assert 'P' !in BROWSER_LEAD && 'P' !in rest;
    AbsentLetterNotFound("PetalBot", BROWSER_LEAD + ['X'] + rest);
    BrowserUserAgentAccepted(ctx, info, 'X', rest);
  }

  /** `X Googlebot/2.1` is accepted: `Googlebot` only counts at the start. */
  lemma LateBotNameAccepted(ctx: Context, info: RequestInfo)
    ensures FilterRequest(ctx, info, WithUserAgent("X Googlebot/2.1")).None?
  {
    var rest := " Googlebot/2.1";
    AbsentLetterNotFound("PetalBot", rest);
    assert ['X'] + rest == "X Googlebot/2.1";
    StartAnchored(ctx, info, 'X', rest);
  }
}
