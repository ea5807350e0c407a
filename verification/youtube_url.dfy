/**
 * `validate_youtube_url` (and `validate_youtube_shorts_url`), identical in
 * the high-quality, simple, alternative and pytube downloaders: three
 * patterns, each matched against the whole URL.
 */
module YouTubeUrl {
  import opened Regex
  import opened UrlPatterns
  import opened PyStr

  /** `https?://(?:www\.)?` + `lead` + `([a-zA-Z0-9_-]+)(?:tail.*)?` */
  function IdPattern(lead: string, tail: string): Re {
    Cat(HttpScheme, Cat(Opt(Lit("www.")), Cat(Lit(lead), Cat(IdChars, AnyTail(tail)))))
  }

  const ShortsLead := "youtube.com/shorts/"
  const WatchLead := "youtube.com/watch?v="
  const ShortLinkLead := "youtu.be/"

  /** Shorts URLs, watch URLs (further parameters after "&"), youtu.be links. */
  const Patterns: seq<Re> := [IdPattern(ShortsLead, "?"), IdPattern(WatchLead, "&"), IdPattern(ShortLinkLead, "?")]

  /** `validate_youtube_url` */
  predicate IsValidUrl(db: UnicodeDb, url: string) {
    AnyMatchesWhole(db, Patterns, url)
  }

  /** A video URL assembled from its parts. */
  function VideoUrl(scheme: string, sub: string, lead: string, id: string, rest: string): string {
    scheme + (sub + (lead + (id + rest)))
  }

  /** The three kinds of accepted URL: what comes before the ID and what may introduce the text after it. */
  predicate IsKind(lead: string, tail: string) {
    (lead == ShortsLead && tail == "?") || (lead == WatchLead && tail == "&") || (lead == ShortLinkLead && tail == "?")
  }

  /**
   * The parts the patterns accept: http or https, an optional "www.", one of
   * the three kinds, a video ID, and then nothing or the kind's separator
   * followed by anything without a line break.
   */
  predicate VideoParts(scheme: string, sub: string, lead: string, tail: string, id: string, rest: string) {
    && (scheme == "http://" || scheme == "https://")
    && (sub == "" || sub == "www.")
    && IsKind(lead, tail)
    && IsId(id)
    && IsAnyTail(tail, rest)
  }

  /** Each of the three patterns is the ID pattern of one kind. */
  lemma PatternAt(k: nat) returns (lead: string, tail: string)
    requires k < |Patterns|
    ensures Patterns[k] == IdPattern(lead, tail) && IsKind(lead, tail)
  {
    lead := if k == 0 then ShortsLead else if k == 1 then WatchLead else ShortLinkLead;
    tail := if k == 1 then "&" else "?";
  }

  /** A URL built from accepted parts matches the pattern of its kind. */
  lemma IdPatternAccepts(db: UnicodeDb, scheme: string, sub: string, lead: string, tail: string, id: string, rest: string)
    requires VideoParts(scheme, sub, lead, tail, id, rest)
    ensures InLang(db, IdPattern(lead, tail), VideoUrl(scheme, sub, lead, id, rest))
  {
    IdCharsLang(db, id);
    AnyTailLang(db, tail, rest);
    HttpSchemeAccepts(db, scheme);
    CatIntro(db, IdChars, AnyTail(tail), id, rest);
    CatIntro(db, Lit(lead), Cat(IdChars, AnyTail(tail)), lead, id + rest);
    CatIntro(db, Opt(Lit("www.")), Cat(Lit(lead), Cat(IdChars, AnyTail(tail))), sub, lead + (id + rest));
    CatIntro(db, HttpScheme, Cat(Opt(Lit("www.")), Cat(Lit(lead), Cat(IdChars, AnyTail(tail)))), scheme, sub + (lead + (id + rest)));
  }

  /** Every URL built from accepted parts is accepted, and so is it with one trailing newline. */
  lemma VideoUrlAccepted(db: UnicodeDb, scheme: string, sub: string, lead: string, tail: string, id: string, rest: string, nl: string)
    requires VideoParts(scheme, sub, lead, tail, id, rest)
    requires nl == "" || nl == "\n"
    ensures IsValidUrl(db, VideoUrl(scheme, sub, lead, id, rest) + nl)
  {
    var k := if lead == ShortsLead then 0 else if lead == WatchLead then 1 else 2;
    assert Patterns[k] == IdPattern(lead, tail);
    IdPatternAccepts(db, scheme, sub, lead, tail, id, rest);
    InLangPassesWhole(db, Patterns, k, VideoUrl(scheme, sub, lead, id, rest), nl);
  }

  /** Every string an ID pattern matches is a URL with accepted parts of that kind. */
  lemma IdPatternShape(db: UnicodeDb, lead: string, tail: string, t: string) returns (scheme: string, sub: string, id: string, rest: string)
    requires InLang(db, IdPattern(lead, tail), t)
    ensures scheme == "http://" || scheme == "https://"
    ensures sub == "" || sub == "www."
    ensures IsId(id) && IsAnyTail(tail, rest)
    ensures t == VideoUrl(scheme, sub, lead, id, rest)
  {
    var k := CatSplit(db, HttpScheme, Cat(Opt(Lit("www.")), Cat(Lit(lead), Cat(IdChars, AnyTail(tail)))), t);
    HttpSchemeOnly(db, t[..k]);
    scheme := t[..k];
    var w;
    sub, w := OptLitThenLit(db, "www.", lead, Cat(IdChars, AnyTail(tail)), t[k..]);
    var j := CatSplit(db, IdChars, AnyTail(tail), w);
    id, rest := w[..j], w[j..];
    IdCharsLang(db, id);
    AnyTailLang(db, tail, rest);
    AppendAssoc(sub, lead, w);
  }

  /**
   * Every accepted URL is a URL with accepted parts, possibly followed by one
   * newline (which Python's `$` lets through).
   */
  lemma ValidUrlShape(db: UnicodeDb, url: string) returns (scheme: string, sub: string, lead: string, tail: string, id: string, rest: string, nl: string)
    requires IsValidUrl(db, url)
    ensures VideoParts(scheme, sub, lead, tail, id, rest)
    ensures nl == "" || nl == "\n"
    ensures url == VideoUrl(scheme, sub, lead, id, rest) + nl
  {
    var k, t;
    k, t, nl := WholeMatchSplit(db, Patterns, url);
    lead, tail := PatternAt(k);
    scheme, sub, id, rest := IdPatternShape(db, lead, tail, t);
  }

  /** Only http and https URLs are accepted. */
  lemma ValidUrlIsHttp(db: UnicodeDb, url: string)
    requires IsValidUrl(db, url)
    ensures StartsWith(url, "http://") || StartsWith(url, "https://")
  {
    forall k | 0 <= k < |Patterns| ensures Patterns[k].Cat? && Patterns[k].first == HttpScheme {
    }
    WholeAcceptsOnlyHttp(db, Patterns, url);
  }
}
