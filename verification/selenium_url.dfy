/**
 * `extract_video_id` and `validate_youtube_url` of the Selenium downloader:
 * a prefix match for shorts URLs, then `urlparse` for watch URLs and
 * youtu.be links.
 */
module SeleniumUrl {
  import opened Wrappers
  import opened PyStr
  import opened Regex
  import opened UrlPatterns
  import opened PyUrl
  import YouTubeUrl

  const ShortsLead := YouTubeUrl.ShortsLead

  /** `https?://(?:www\.)?` + `lead` + `([a-zA-Z0-9_-]+)` */
  function LeadIdPattern(lead: string): Re {
    Cat(HttpScheme, Cat(Opt(Lit("www.")), Cat(Lit(lead), IdChars)))
  }

  /** `https?://(?:www\.)?youtube\.com/shorts/([a-zA-Z0-9_-]+)`, matched without `$`. */
  const ShortsPattern: Re := LeadIdPattern(ShortsLead)

  /** The index just past "https://" or "http://", or 0 when the URL starts with neither. */
  function SchemeEnd(url: string): nat {
    if StartsWith(url, "https://") then 8 else if StartsWith(url, "http://") then 7 else 0
  }

  /**
   * Where the group of the shorts pattern starts: after the scheme, an
   * optional "www." and "youtube.com/shorts/". The optional "www." is tried
   * first, as the backtracking matcher does.
   */
  function ShortsStart(url: string): (i: Option<nat>)
    ensures i.Some? ==> i.value <= |url|
  {
    var n := SchemeEnd(url);
    if n == 0 then None
    else if IsPrefixAt("www." + ShortsLead, url, n) then Some(n + 4 + |ShortsLead|)
    else if IsPrefixAt(ShortsLead, url, n) then Some(n + |ShortsLead|)
    else None
  }

  /** The run of ID characters from `i` as the class `[a-zA-Z0-9_-]` measures it. */
  lemma IdRun(s: string, i: nat)
    requires i <= |s|
    ensures var n := Run(NoUnicode, IdClass, s, i);
      && (forall k :: i <= k < i + n ==> IsIdChar(s[k]))
      && (i + n < |s| ==> !IsIdChar(s[i + n]))
      && (n > 0 ==> IsId(s[i..i + n]) && IsPrefixAt(s[i..i + n], s, i))
  {
    var n := Run(NoUnicode, IdClass, s, i);
    forall k | i <= k < i + n ensures IsIdChar(s[k]) {
      IdClassIff(NoUnicode, s[k]);
    }
    if i + n < |s| {
      IdClassIff(NoUnicode, s[i + n]);
    }
    var id := s[i..i + n];
    assert forall k :: 0 <= k < |id| ==> id[k] == s[i + k];
  }

  /** The group `([a-zA-Z0-9_-]+)` of the shorts pattern: the longest run of ID characters after its start. */
  function ShortsId(url: string): (r: Option<string>)
    ensures r.Some? ==> ShortsStart(url).Some? && IsId(r.value) && IsPrefixAt(r.value, url, ShortsStart(url).value)
    ensures r.Some? ==> var e := ShortsStart(url).value + |r.value|; e == |url| || !IsIdChar(url[e])
    ensures r.None? <==> ShortsStart(url).None? || ShortsStart(url).value == |url| || !IsIdChar(url[ShortsStart(url).value])
  {
    match ShortsStart(url)
    case None => None
    case Some(i) =>
      IdRun(url, i);
      var n := Run(NoUnicode, IdClass, url, i);
      if n == 0 then None else Some(url[i..i + n])
  }

  /** What decides the scheme part: the scheme is the first seven or eight characters. */
  lemma SchemeEndOf(scheme: string, w: string)
    requires scheme == "http://" || scheme == "https://"
    ensures SchemeEnd(scheme + w) == |scheme|
  {
    var u := scheme + w;
    assert u[..|scheme|] == scheme;
    if scheme == "http://" {
      assert u[4] == ':';
      if |u| >= 8 {
        assert u[..8][4] == u[4];
      }
    }
  }

  /** `x` does not occur at `i` when one of its characters differs. */
  lemma Mismatch(x: string, u: string, i: nat, j: nat)
    requires j < |x| && i + j < |u| && u[i + j] != x[j]
    ensures !IsPrefixAt(x, u, i)
  {
    if i + |x| <= |u| {
      assert u[i..i + |x|][j] == u[i + j];
    }
  }

  /** Where the other leads first differ from the shorts lead. */
  lemma LeadsDiffer()
    ensures YouTubeUrl.WatchLead[12] != ShortsLead[12]
    ensures YouTubeUrl.ShortLinkLead[5] != ShortsLead[5]
    ensures ShortsLead[0] == 'y'
  {
  }

  /** On a shorts URL the group starts right after "youtube.com/shorts/". */
  lemma ShortsStartOf(scheme: string, sub: string, w: string)
    requires scheme == "http://" || scheme == "https://"
    requires sub == "" || sub == "www."
    ensures ShortsStart(scheme + sub + ShortsLead + w) == Some(|scheme| + |sub| + |ShortsLead|)
  {
    var u := scheme + sub + ShortsLead + w;
    var n := |scheme|;
    AppendRegroup(scheme, sub, ShortsLead, w);
    SchemeEndOf(scheme, sub + ShortsLead + w);
    if sub == "www." {
      AppendAssoc(scheme, "www.", ShortsLead);
      OccursAfter(scheme, "www." + ShortsLead, w);
    } else {
      assert u == scheme + ShortsLead + w;
      OccursAfter(scheme, ShortsLead, w);
      LeadsDiffer();
      assert u[n] == 'y';
      Mismatch("www." + ShortsLead, u, n, 0);
    }
  }

  /** Watch URLs and youtu.be links never reach the shorts group. */
  lemma NoShortsStart(scheme: string, sub: string, lead: string, w: string)
    requires scheme == "http://" || scheme == "https://"
    requires sub == "" || sub == "www."
    requires lead == YouTubeUrl.WatchLead || lead == YouTubeUrl.ShortLinkLead
    ensures ShortsStart(scheme + sub + lead + w).None?
  {
    var u := scheme + sub + lead + w;
    var n := |scheme|;
    AppendRegroup(scheme, sub, lead, w);
    SchemeEndOf(scheme, sub + lead + w);
    var j := if lead == YouTubeUrl.WatchLead then 12 else 5;
    LeadsDiffer();
    if sub == "www." {
      assert u[n + 4 + j] == lead[j];
      Mismatch("www." + ShortsLead, u, n, 4 + j);
      assert u[n] == 'w';
      Mismatch(ShortsLead, u, n, 0);
    } else {
      assert u[n] == lead[0] == 'y';
      Mismatch("www." + ShortsLead, u, n, 0);
      assert u[n + j] == lead[j];
      Mismatch(ShortsLead, u, n, j);
    }
  }

  /** The text before the group of a shorts URL: scheme, optional "www.", and the shorts path. */
  lemma ShortsHead(url: string) returns (scheme: string, sub: string)
    requires ShortsStart(url).Some?
    ensures scheme == "http://" || scheme == "https://"
    ensures sub == "" || sub == "www."
    ensures url[..ShortsStart(url).value] == scheme + sub + ShortsLead
  {
    var n := SchemeEnd(url);
    scheme := if n == 8 then "https://" else "http://";
    assert url[..n] == scheme;
    sub := if IsPrefixAt("www." + ShortsLead, url, n) then "www." else "";
    var i := ShortsStart(url).value;
    assert url[..i] == url[..n] + url[n..i];
  }

  /** A URL of scheme, optional "www.", `lead` and an ID matches the pattern. */
  lemma LeadIdAccepted(db: UnicodeDb, lead: string, scheme: string, sub: string, id: string)
    requires scheme == "http://" || scheme == "https://"
    requires sub == "" || sub == "www."
    requires IsId(id)
    ensures InLang(db, LeadIdPattern(lead), scheme + sub + lead + id)
  {
    IdCharsLang(db, id);
    HttpSchemeAccepts(db, scheme);
    CatIntro(db, Lit(lead), IdChars, lead, id);
    CatIntro(db, Opt(Lit("www.")), Cat(Lit(lead), IdChars), sub, lead + id);
    CatIntro(db, HttpScheme, Cat(Opt(Lit("www.")), Cat(Lit(lead), IdChars)), scheme, sub + (lead + id));
    AppendAssoc(sub, lead, id);
    AppendRegroup(scheme, sub, lead, id);
  }

  /** Everything the pattern matches is scheme, optional "www.", `lead` and an ID. */
  lemma LeadIdShape(db: UnicodeDb, lead: string, t: string) returns (scheme: string, sub: string, id: string)
    requires InLang(db, LeadIdPattern(lead), t)
    ensures scheme == "http://" || scheme == "https://"
    ensures sub == "" || sub == "www."
    ensures IsId(id) && t == scheme + sub + lead + id
  {
    var k := CatSplit(db, HttpScheme, Cat(Opt(Lit("www.")), Cat(Lit(lead), IdChars)), t);
    HttpSchemeOnly(db, t[..k]);
    scheme := t[..k];
    var w;
    sub, w := OptLitThenLit(db, "www.", lead, IdChars, t[k..]);
    id := w;
    IdCharsLang(db, id);
    AppendRegroup(scheme, sub, lead, w);
  }

  /** A lead followed by one ID character is matched. */
  lemma HeadThenIdChar(db: UnicodeDb, lead: string, url: string, i: nat, scheme: string, sub: string)
    requires scheme == "http://" || scheme == "https://"
    requires sub == "" || sub == "www."
    requires i < |url| && url[..i] == scheme + sub + lead && IsIdChar(url[i])
    ensures InLang(db, LeadIdPattern(lead), url[..i + 1])
  {
    var c := url[i];
    assert IsId([c]);
    LeadIdAccepted(db, lead, scheme, sub, [c]);
    assert url[..i + 1] == url[..i] + [c];
  }

  /** A found group comes with a match: the shorts path and the group's first character. */
  lemma ShortsIdMatches(url: string)
    requires ShortsId(url).Some?
    ensures exists k :: 0 <= k <= |url| && InLang(NoUnicode, ShortsPattern, url[..k])
  {
    var i := ShortsStart(url).value;
    var scheme, sub := ShortsHead(url);
    assert ShortsId(url).value[0] == url[i];
    HeadThenIdChar(NoUnicode, ShortsLead, url, i, scheme, sub);
  }

  /** A match has an ID character right after the shorts path, so the group is found. */
  lemma MatchGivesShortsId(url: string, k: nat)
    requires k <= |url| && InLang(NoUnicode, ShortsPattern, url[..k])
    ensures ShortsId(url).Some?
  {
    var scheme, sub, id := LeadIdShape(NoUnicode, ShortsLead, url[..k]);
    var head := scheme + sub + ShortsLead;
    SplitJoin(url, k);
    AppendAssoc(head, id, url[k..]);
    ShortsStartOf(scheme, sub, id + url[k..]);
    assert url[|head|] == id[0];
  }

  /** The computed group exists exactly when Python's `re.match` with the shorts pattern succeeds. */
  lemma ShortsIdIsMatch(url: string)
    ensures ShortsId(url).Some? <==> MatchesPrefix(NoUnicode, ShortsPattern, url)
  {
    MatchesPrefixIff(NoUnicode, ShortsPattern, url);
    if ShortsId(url).Some? {
      ShortsIdMatches(url);
    }
    if k :| 0 <= k <= |url| && InLang(NoUnicode, ShortsPattern, url[..k]) {
      MatchGivesShortsId(url, k);
    }
  }

  /** What `extract_video_id` ends with: an ID (possibly empty), `None`, or the `ValueError` of `urlparse`. */
  datatype Extracted = Found(id: string) | NotFound | Raised(message: string)

  /** The network locations of watch URLs. */
  predicate IsWatchHost(netloc: string) {
    netloc == "youtube.com" || netloc == "www.youtube.com"
  }

  /**
   * `extract_video_id`: the shorts group if the shorts pattern matches;
   * else, for a watch URL (either host, path exactly "/watch"), the first
   * non-blank `v` parameter; else, for host youtu.be, the path without its
   * leading slashes, which may be empty; else nothing.
   */
  function ExtractVideoId(url: string, lib: UrlLib): (e: Extracted)
    ensures ShortsId(url).Some? ==> e == Found(ShortsId(url).value)
    ensures e.Raised? <==> ShortsId(url).None? && UrlParse(url, lib).ValueError?
    ensures e.Found? && ShortsId(url).None? ==>
      UrlParse(url, lib).Parsed? && (IsWatchHost(UrlParse(url, lib).result.netloc) || UrlParse(url, lib).result.netloc == "youtu.be")
  {
    match ShortsId(url)
    case Some(id) => Found(id)
    case None =>
      match UrlParse(url, lib)
      case ValueError(m) => Raised(m)
      case Parsed(p) =>
        var v := QueryFirst(p.query, "v", lib);
        if IsWatchHost(p.netloc) && p.path == "/watch" && v.Some? then Found(v.value)
        else if p.netloc == "youtu.be" then Found(LStripChar(p.path, '/'))
        else NotFound
  }

  /** `validate_youtube_url`: whether an ID came back, or `None` when the exception leaves `validate` too. */
  function Validate(url: string, lib: UrlLib): (v: Option<bool>)
    ensures v.None? <==> ExtractVideoId(url, lib).Raised?
    ensures v == Some(true) <==> ExtractVideoId(url, lib).Found?
  {
    match ExtractVideoId(url, lib)
    case Raised(_) => None
    case Found(_) => Some(true)
    case NotFound => Some(false)
  }

  /** Two maximal runs of ID characters from the same place are the same run. */
  lemma MaximalRunUnique(u: string, i: nat, a: string, b: string)
    requires IsPrefixAt(a, u, i) && IsPrefixAt(b, u, i)
    requires forall k :: 0 <= k < |a| ==> IsIdChar(a[k])
    requires forall k :: 0 <= k < |b| ==> IsIdChar(b[k])
    requires i + |a| == |u| || !IsIdChar(u[i + |a|])
    requires i + |b| == |u| || !IsIdChar(u[i + |b|])
    ensures a == b
  {
    forall k | i <= k < i + |a| ensures IsIdChar(u[k]) {
      assert u[k] == u[i..i + |a|][k - i];
    }
    forall k | i <= k < i + |b| ensures IsIdChar(u[k]) {
      assert u[k] == u[i..i + |b|][k - i];
    }
    assert |a| == |b|;
  }

  /** After an accepted ID comes "?", "&", a line feed or nothing: never another ID character. */
  lemma TailStopsId(tail: string, rest: string, nl: string)
    requires |tail| == 1 && !IsIdChar(tail[0])
    requires IsAnyTail(tail, rest)
    requires nl == "" || nl == "\n"
    ensures rest + nl == [] || !IsIdChar((rest + nl)[0])
  {
    if rest != [] {
      assert rest[..1] == tail;
      assert (rest + nl)[0] == rest[0] == tail[0];
    }
  }

  /** Behind the shorts path, an ID followed by no further ID character is the group found. */
  lemma ShortsIdOf(scheme: string, sub: string, id: string, after: string)
    requires scheme == "http://" || scheme == "https://"
    requires sub == "" || sub == "www."
    requires IsId(id)
    requires after == [] || !IsIdChar(after[0])
    ensures ShortsId(scheme + sub + ShortsLead + (id + after)) == Some(id)
  {
    var head := scheme + sub + ShortsLead;
    ShortsStartOf(scheme, sub, id + after);
    OccursAfter(head, id, after);
    AppendAssoc(head, id, after);
    var url := head + (id + after);
    assert |head| + |id| == |url| || url[|head| + |id|] == after[0];
    GroupAt(url, |head|, id);
  }

  /** An ID at the group's start, followed by no further ID character, is the group found. */
  lemma GroupAt(url: string, i: nat, id: string)
    requires ShortsStart(url) == Some(i)
    requires IsId(id) && IsPrefixAt(id, url, i)
    requires i + |id| == |url| || !IsIdChar(url[i + |id|])
    ensures ShortsId(url) == Some(id)
  {
    assert url[i] == id[0] by { assert url[i..i + |id|][0] == url[i]; }
    MaximalRunUnique(url, i, ShortsId(url).value, id);
  }

  /** An accepted URL with a line feed or nothing after it, grouped as lead, ID and what follows. */
  lemma UrlRegroup(scheme: string, sub: string, lead: string, id: string, rest: string, nl: string)
    ensures YouTubeUrl.VideoUrl(scheme, sub, lead, id, rest) + nl == scheme + sub + lead + (id + (rest + nl))
  {
    AppendAssoc(id, rest, nl);
    AppendRegroup(scheme, sub, lead, id + rest);
    AppendAssoc(scheme + sub + lead, id + rest, nl);
  }

  /** A shorts URL the other downloaders accept yields its ID here too. */
  lemma ShortsFound(scheme: string, sub: string, id: string, rest: string, nl: string, lib: UrlLib)
    requires YouTubeUrl.VideoParts(scheme, sub, ShortsLead, "?", id, rest)
    requires nl == "" || nl == "\n"
    ensures ExtractVideoId(YouTubeUrl.VideoUrl(scheme, sub, ShortsLead, id, rest) + nl, lib) == Found(id)
  {
    TailStopsId("?", rest, nl);
    var url := YouTubeUrl.VideoUrl(scheme, sub, ShortsLead, id, rest) + nl;
    assert url == scheme + sub + ShortsLead + (id + (rest + nl)) by {
      UrlRegroup(scheme, sub, ShortsLead, id, rest, nl);
    }
    ShortsIdOf(scheme, sub, id, rest + nl);
  }

  /** The characters of the fixed parts of an accepted URL: the ID characters and ":/.?=". */
  predicate IsUrlChar(c: char) {
    IsIdChar(c) || c == ':' || c == '/' || c == '.' || c == '?' || c == '='
  }

  predicate UrlChars(s: string) {
    forall k :: 0 <= k < |s| ==> IsUrlChar(s[k])
  }

  lemma UrlCharsConcat(a: string, b: string)
    requires UrlChars(a) && UrlChars(b)
    ensures UrlChars(a + b)
  {
    forall k | 0 <= k < |a + b| ensures IsUrlChar((a + b)[k]) {
      if k >= |a| { assert (a + b)[k] == b[k - |a|]; }
    }
  }

  /** The scheme, the optional "www." and an ID are all made of URL characters. */
  lemma PartsUrlChars(scheme: string, sub: string, id: string)
    requires scheme == "http://" || scheme == "https://"
    requires sub == "" || sub == "www."
    requires IsId(id)
    ensures UrlChars(scheme) && UrlChars(sub) && UrlChars(id)
  {
  }

  /**
   * Cleaning a URL that starts with URL characters keeps them all: only the
   * tabs and line breaks of what follows go.
   */
  lemma CleanHead(h: string, back: string)
    requires h != [] && UrlChars(h)
    ensures Clean(h + back) == h + DropUnsafe(back)
  {
    assert (h + back)[0] == h[0];
    assert LStripC0(h + back) == h + back;
    DropUnsafeConcat(h, back);
    assert forall k :: 0 <= k < |h| ==> !IsUnsafe(h[k]) by {
      forall k | 0 <= k < |h| ensures !IsUnsafe(h[k]) {
        assert IsUrlChar(h[k]);
      }
    }
    DropUnsafeKeeps(h);
  }

  /** What follows an ID keeps its leading "?" or "&" once cleaned; a final line feed goes. */
  lemma CleanTail(t: char, rest: string, nl: string)
    requires !IsUnsafe(t)
    requires IsAnyTail([t], rest)
    requires nl == "" || nl == "\n"
    ensures var r := DropUnsafe(rest + nl); r == [] || r[0] == t
  {
    if rest == [] {
      assert rest + nl == nl;
      assert DropUnsafe(nl) == [];
    } else {
      assert rest[..1] == [t];
      assert (rest + nl)[0] == t;
    }
  }

  /** Cutting at the first '#' keeps a leading character other than '#'. */
  lemma CutKeepsLead(r: string, t: char)
    requires t != '#'
    requires r == [] || r[0] == t
    ensures var r0 := CutAt(r, '#').0; r0 == [] || r0[0] == t
  {
    var c := CutAt(r, '#');
    if c.1.Some? && r != [] {
      assert r[0] == (c.0 + ['#'] + c.1.value)[0];
    }
  }

  /** A path free of '#' followed by such a tail loses only the tail's fragment. */
  lemma PathBeforeFragment(p0: string, r: string, t: char)
    requires '#' !in p0 && t != '#'
    requires r == [] || r[0] == t
    ensures var r0 := CutAt(r, '#').0;
      CutAt(p0 + r, '#').0 == p0 + r0 && (r0 == [] || r0[0] == t)
  {
    CutAtAppend(p0, r, '#');
    CutKeepsLead(r, t);
  }

  /** The cut after an ID: with nothing or "?..." after the ID the part before '?' is just the path. */
  lemma PathBeforeQuery(p0: string, r0: string)
    requires '?' !in p0
    requires r0 == [] || r0[0] == '?'
    ensures CutAt(p0 + r0, '?').0 == p0
  {
    if r0 == [] {
      assert p0 + r0 == p0;
    } else {
      assert p0 + r0 == p0 + ['?'] + r0[1..];
      CutAtIs(p0 + r0, '?', p0, r0[1..]);
    }
  }

  /** Both hosts an accepted URL can name are plain hosts. */
  lemma HostPlain(sub: string, domain: string)
    requires sub == "" || sub == "www."
    requires domain == "youtube.com" || domain == "youtu.be"
    ensures IsPlainHost(sub + domain) && UrlChars(sub + domain)
    ensures IsWatchHost(sub + domain) <==> domain == "youtube.com"
    ensures sub + domain == "youtu.be" <==> domain == "youtu.be" && sub == ""
  {
    var h := sub + domain;
    HostPartsPlain(sub);
    HostPartsPlain(domain);
    UrlCharsConcat(sub, domain);
    forall k | 0 <= k < |h| ensures !IsNetlocEnd(h[k]) && h[k] != '[' && h[k] != ']' && h[k] as int < 128 {
      if k >= |sub| { assert h[k] == domain[k - |sub|]; } else { assert h[k] == sub[k]; }
    }
    if domain == "youtu.be" {
      assert |h| == |sub| + 8;
    } else if sub == "www." {
      assert h == "www.youtube.com";
    }
  }

  /** The pieces of an accepted host are plain hosts made of URL characters. */
  lemma HostPartsPlain(x: string)
    requires x == "" || x == "www." || x == "youtube.com" || x == "youtu.be"
    ensures IsPlainHost(x) && UrlChars(x)
  {
  }

  /** The watch lead is the host's domain and then the path up to the ID. */
  lemma WatchRegroup(scheme: string, sub: string, domain: string, path: string, id: string, t: string)
    ensures scheme + sub + (domain + path) + (id + t) == scheme + (sub + domain) + (path + id) + t
  {
    AppendAssoc(scheme, sub, domain);
    AppendRegroup(scheme + sub, domain, path, id + t);
    AppendAssoc(path, id, t);
    AppendRegroup(scheme + sub + domain, path, id, t);
  }

  /**
   * An accepted URL of host `sub + domain` whose lead continues with `path`:
   * `urlparse` accepts it, finds that host, and sees the path `path + id`
   * followed by what is left of the tail once cleaned and cut before '#'.
   */
  lemma ParsedParts(scheme: string, sub: string, domain: string, path: string, id: string, rest: string, nl: string, t: char, lib: UrlLib)
    returns (r0: string)
    requires YouTubeUrl.VideoParts(scheme, sub, domain + path, [t], id, rest)
    requires nl == "" || nl == "\n"
    requires domain == "youtube.com" || domain == "youtu.be"
    requires path != [] && path[0] == '/' && UrlChars(path) && '#' !in path
    requires t == '?' || t == '&'
    ensures r0 == [] || r0[0] == t
    ensures var url := YouTubeUrl.VideoUrl(scheme, sub, domain + path, id, rest) + nl;
      && UrlParse(url, lib).Parsed?
      && UrlParse(url, lib).result.netloc == sub + domain
      && CutAt(path + id + r0, '?') == CutAt(CutAt(path + id + DropUnsafe(rest + nl), '#').0, '?')
      && UrlParse(url, lib).result.query == CutAt(path + id + r0, '?').1.GetOr("")
      && (';' !in CutAt(path + id + r0, '?').0 ==> UrlParse(url, lib).result.path == CutAt(path + id + r0, '?').0)
  {
    var url := YouTubeUrl.VideoUrl(scheme, sub, domain + path, id, rest) + nl;
    r0 := CleanedParts(scheme, sub, domain, path, id, rest, nl, t);
    HttpParse(url, scheme, sub + domain, path + id + DropUnsafe(rest + nl), lib);
  }

  /**
   * The string half of `ParsedParts`: cleaning the URL leaves the scheme, the
   * plain host and the path, ID and cleaned tail, and cutting that before
   * '#' leaves the path, the ID and `r0`.
   */
  lemma CleanedParts(scheme: string, sub: string, domain: string, path: string, id: string, rest: string, nl: string, t: char)
    returns (r0: string)
    requires YouTubeUrl.VideoParts(scheme, sub, domain + path, [t], id, rest)
    requires nl == "" || nl == "\n"
    requires domain == "youtube.com" || domain == "youtu.be"
    requires path != [] && path[0] == '/' && UrlChars(path) && '#' !in path
    requires t == '?' || t == '&'
    ensures r0 == [] || r0[0] == t
    ensures IsPlainHost(sub + domain)
    ensures Clean(YouTubeUrl.VideoUrl(scheme, sub, domain + path, id, rest) + nl)
      == scheme + (sub + domain) + (path + id + DropUnsafe(rest + nl))
    ensures CutAt(path + id + DropUnsafe(rest + nl), '#').0 == path + id + r0
  {
    HostPlain(sub, domain);
    UrlRegroup(scheme, sub, domain + path, id, rest, nl);
    CleanedUrl(scheme, sub, domain, path, id, rest + nl);
    r0 := FragmentCut(path, id, rest, nl, t);
  }

  /** Cleaning an accepted URL keeps everything up to the ID and drops only tabs and line breaks after it. */
  lemma CleanedUrl(scheme: string, sub: string, domain: string, path: string, id: string, back: string)
    requires scheme == "http://" || scheme == "https://"
    requires sub == "" || sub == "www."
    requires domain == "youtube.com" || domain == "youtu.be"
    requires path != [] && UrlChars(path)
    requires IsId(id)
    ensures Clean(scheme + sub + (domain + path) + (id + back))
      == scheme + (sub + domain) + (path + id + DropUnsafe(back))
  {
    var head := scheme + (sub + domain) + (path + id);
    WatchRegroup(scheme, sub, domain, path, id, back);
    HeadUrlChars(scheme, sub, domain, path, id);
    CleanHead(head, back);
    AppendAssoc(scheme + (sub + domain), path + id, DropUnsafe(back));
  }

  /** Everything of an accepted URL up to the end of its ID is made of URL characters. */
  lemma HeadUrlChars(scheme: string, sub: string, domain: string, path: string, id: string)
    requires scheme == "http://" || scheme == "https://"
    requires sub == "" || sub == "www."
    requires domain == "youtube.com" || domain == "youtu.be"
    requires UrlChars(path) && IsId(id)
    ensures var head := scheme + (sub + domain) + (path + id); head != [] && UrlChars(head)
  {
    HostPlain(sub, domain);
    PartsUrlChars(scheme, sub, id);
    UrlCharsConcat(scheme, sub + domain);
    UrlCharsConcat(path, id);
    UrlCharsConcat(scheme + (sub + domain), path + id);
  }

  /** Cutting the path, the ID and the cleaned tail before '#' leaves the path, the ID and `r0`, which starts with `t`. */
  lemma FragmentCut(path: string, id: string, rest: string, nl: string, t: char) returns (r0: string)
    requires '#' !in path && IsId(id)
    requires t == '?' || t == '&'
    requires IsAnyTail([t], rest)
    requires nl == "" || nl == "\n"
    ensures r0 == [] || r0[0] == t
    ensures CutAt(path + id + DropUnsafe(rest + nl), '#').0 == path + id + r0
  {
    var p0 := path + id;
    var r := DropUnsafe(rest + nl);
    CleanTail(t, rest, nl);
    assert '#' !in id;
    assert '#' !in p0;
    PathBeforeFragment(p0, r, t);
    r0 := CutAt(r, '#').0;
  }

  /** An ID holds none of the characters that structure a URL or a query. */
  lemma IdNoSpecials(id: string)
    requires IsId(id)
    ensures '&' !in id && '+' !in id && '%' !in id && '?' !in id && '/' !in id && ';' !in id
  {
    assert forall k :: 0 <= k < |id| ==> IsIdChar(id[k]);
  }

  /** Splitting the watch path at its '?' leaves "/watch" and the `v` field with what follows. */
  lemma WatchQuery(id: string, r0: string)
    ensures CutAt("/watch?v=" + id + r0, '?') == ("/watch", Some("v=" + id + r0))
    ensures ';' !in CutAt("/watch?v=" + id + r0, '?').0
  {
    var x := "/watch";
    assert "/watch?v=" + id + r0 == x + ['?'] + ("v=" + id + r0);
    CutAtIs("/watch?v=" + id + r0, '?', x, "v=" + id + r0);
  }

  lemma VField(id: string, r0: string)
    ensures "v" + "=" + id + r0 == "v=" + id + r0
  {
    assert "v" + "=" == "v=";
  }

  /** The watch branch of `extract_video_id`, taken when the shorts pattern does not match. */
  lemma WatchBranch(url: string, lib: UrlLib, id: string)
    requires ShortsId(url).None? && UrlParse(url, lib).Parsed?
    requires var p := UrlParse(url, lib).result;
      IsWatchHost(p.netloc) && p.path == "/watch" && QueryFirst(p.query, "v", lib) == Some(id)
    ensures ExtractVideoId(url, lib) == Found(id)
  {
  }

  /** What `urlparse` and `parse_qs` find in an accepted watch URL: a watch host, "/watch" and the ID as `v`. */
  lemma WatchParsed(scheme: string, sub: string, id: string, rest: string, nl: string, lib: UrlLib)
    requires YouTubeUrl.VideoParts(scheme, sub, "youtube.com" + "/watch?v=", "&", id, rest)
    requires nl == "" || nl == "\n"
    ensures var url := YouTubeUrl.VideoUrl(scheme, sub, "youtube.com" + "/watch?v=", id, rest) + nl;
      && UrlParse(url, lib).Parsed?
      && IsWatchHost(UrlParse(url, lib).result.netloc)
      && UrlParse(url, lib).result.path == "/watch"
      && QueryFirst(UrlParse(url, lib).result.query, "v", lib) == Some(id)
  {
    var r0 := ParsedParts(scheme, sub, "youtube.com", "/watch?v=", id, rest, nl, '&', lib);
    HostPlain(sub, "youtube.com");
    WatchFields(id, r0, lib);
  }

  /** The watch path with an ID and a tail splits into "/watch" and a query whose first `v` is the ID. */
  lemma WatchFields(id: string, r0: string, lib: UrlLib)
    requires IsId(id)
    requires r0 == [] || r0[0] == '&'
    ensures CutAt("/watch?v=" + id + r0, '?') == ("/watch", Some("v=" + id + r0))
    ensures ';' !in CutAt("/watch?v=" + id + r0, '?').0
    ensures QueryFirst("v=" + id + r0, "v", lib) == Some(id)
  {
    WatchQuery(id, r0);
    IdNoSpecials(id);
    QueryFirstField("v", id, r0, lib);
    VField(id, r0);
  }

  /** A watch URL the other downloaders accept yields its ID here too. */
  lemma WatchFound(scheme: string, sub: string, id: string, rest: string, nl: string, lib: UrlLib)
    requires YouTubeUrl.VideoParts(scheme, sub, YouTubeUrl.WatchLead, "&", id, rest)
    requires nl == "" || nl == "\n"
    ensures ExtractVideoId(YouTubeUrl.VideoUrl(scheme, sub, YouTubeUrl.WatchLead, id, rest) + nl, lib) == Found(id)
  {
    assert YouTubeUrl.WatchLead == "youtube.com" + "/watch?v=";
    var url := YouTubeUrl.VideoUrl(scheme, sub, YouTubeUrl.WatchLead, id, rest) + nl;
    UrlRegroup(scheme, sub, YouTubeUrl.WatchLead, id, rest, nl);
    NoShortsStart(scheme, sub, YouTubeUrl.WatchLead, id + (rest + nl));
    WatchParsed(scheme, sub, id, rest, nl, lib);
    WatchBranch(url, lib, id);
  }

  /** The youtu.be branch of `extract_video_id`, taken when the shorts pattern does not match. */
  lemma ShortLinkBranch(url: string, lib: UrlLib)
    requires ShortsId(url).None? && UrlParse(url, lib).Parsed?
    requires UrlParse(url, lib).result.netloc == "youtu.be"
    ensures ExtractVideoId(url, lib) == Found(LStripChar(UrlParse(url, lib).result.path, '/'))
  {
    var p := UrlParse(url, lib).result;
    assert !IsWatchHost(p.netloc) by {
      assert |p.netloc| == 8;
    }
  }

  /** A path of one slash and then an ID loses just the slash. */
  lemma SlashIdStripped(id: string)
    requires IsId(id)
    ensures LStripChar("/" + id, '/') == id
  {
    assert ("/" + id)[1..] == id;
    assert id[0] != '/';
  }

  /** What `urlparse` finds in an accepted youtu.be URL: the host as written and the path "/" and the ID. */
  lemma ShortLinkParsed(scheme: string, sub: string, id: string, rest: string, nl: string, lib: UrlLib)
    requires YouTubeUrl.VideoParts(scheme, sub, "youtu.be" + "/", "?", id, rest)
    requires nl == "" || nl == "\n"
    ensures var url := YouTubeUrl.VideoUrl(scheme, sub, "youtu.be" + "/", id, rest) + nl;
      && UrlParse(url, lib).Parsed?
      && UrlParse(url, lib).result.netloc == sub + "youtu.be"
      && UrlParse(url, lib).result.path == "/" + id
  {
    var r0 := ParsedParts(scheme, sub, "youtu.be", "/", id, rest, nl, '?', lib);
    IdNoSpecials(id);
    assert '?' !in "/" + id && ';' !in "/" + id;
    PathBeforeQuery("/" + id, r0);
  }

  /** The youtu.be lead is the host and then one slash. */
  lemma ShortLinkLeadParts()
    ensures YouTubeUrl.ShortLinkLead == "youtu.be" + "/"
  {
  }

  /** A youtu.be URL without "www." that the other downloaders accept yields its ID here too. */
  lemma ShortLinkFound(scheme: string, id: string, rest: string, nl: string, lib: UrlLib)
    requires YouTubeUrl.VideoParts(scheme, "", YouTubeUrl.ShortLinkLead, "?", id, rest)
    requires nl == "" || nl == "\n"
    ensures ExtractVideoId(YouTubeUrl.VideoUrl(scheme, "", YouTubeUrl.ShortLinkLead, id, rest) + nl, lib) == Found(id)
  {
    ShortLinkLeadParts();
    var url := YouTubeUrl.VideoUrl(scheme, "", YouTubeUrl.ShortLinkLead, id, rest) + nl;
    UrlRegroup(scheme, "", YouTubeUrl.ShortLinkLead, id, rest, nl);
    NoShortsStart(scheme, "", YouTubeUrl.ShortLinkLead, id + (rest + nl));
    ShortLinkParsed(scheme, "", id, rest, nl, lib);
    assert "" + "youtu.be" == "youtu.be";
    ShortLinkBranch(url, lib);
    SlashIdStripped(id);
  }

  /**
   * A youtu.be URL with "www." that the other downloaders accept finds no ID
   * here: its host is neither a watch host nor exactly youtu.be.
   */
  lemma WwwShortLinkNotFound(scheme: string, id: string, rest: string, nl: string, lib: UrlLib)
    requires YouTubeUrl.VideoParts(scheme, "www.", YouTubeUrl.ShortLinkLead, "?", id, rest)
    requires nl == "" || nl == "\n"
    ensures ExtractVideoId(YouTubeUrl.VideoUrl(scheme, "www.", YouTubeUrl.ShortLinkLead, id, rest) + nl, lib) == NotFound
  {
    ShortLinkLeadParts();
    var url := YouTubeUrl.VideoUrl(scheme, "www.", YouTubeUrl.ShortLinkLead, id, rest) + nl;
    UrlRegroup(scheme, "www.", YouTubeUrl.ShortLinkLead, id, rest, nl);
    NoShortsStart(scheme, "www.", YouTubeUrl.ShortLinkLead, id + (rest + nl));
    ShortLinkParsed(scheme, "www.", id, rest, nl, lib);
    HostPlain("www.", "youtu.be");
  }

  /** The youtu.be link with nothing after the slash: "https://youtu.be/". */
  const EmptyShortLinkUrl := "https://" + YouTubeUrl.ShortLinkLead

  /** Appending or prepending nothing changes nothing. */
  lemma AppendEmpty(a: string)
    ensures a + "" == a && "" + a == a
  {
  }

  /** How `urlparse` reads the empty youtu.be link: host youtu.be, path "/". */
  lemma EmptyShortLinkParsed(lib: UrlLib)
    ensures UrlParse(EmptyShortLinkUrl, lib).Parsed?
    ensures UrlParse(EmptyShortLinkUrl, lib).result.netloc == "youtu.be"
    ensures UrlParse(EmptyShortLinkUrl, lib).result.path == "/"
  {
    EmptyShortLinkCleaned();
    SlashCuts();
    HttpParse(EmptyShortLinkUrl, "https://", "youtu.be", "/", lib);
  }

  /** The empty youtu.be link is already clean: scheme, the plain host youtu.be, and "/". */
  lemma EmptyShortLinkCleaned()
    ensures Clean(EmptyShortLinkUrl) == "https://" + "youtu.be" + "/"
    ensures IsPlainHost("youtu.be")
  {
    var u := EmptyShortLinkUrl;
    ShortLinkLeadParts();
    AppendAssoc("https://", "youtu.be", "/");
    HostPlain("", "youtu.be");
    AppendEmpty("youtu.be");
    UrlCharsConcat("https://", "youtu.be");
    UrlCharsConcat("https://" + "youtu.be", "/");
    CleanHead(u, []);
    AppendEmpty(u);
  }

  /** The path "/" has no fragment, no query and no ';'. */
  lemma SlashCuts()
    ensures CutAt("/", '#') == ("/", None)
    ensures CutAt("/", '?') == ("/", None)
    ensures ';' !in "/"
  {
    PathBeforeFragment("/", [], '?');
    PathBeforeQuery("/", []);
    AppendEmpty("/");
  }

  /**
   * For the youtu.be link with nothing after the slash, `extract_video_id`
   * returns the empty string rather than `None`, so `validate_youtube_url`
   * accepts it.
   */
  lemma EmptyShortLink(lib: UrlLib)
    ensures ExtractVideoId(EmptyShortLinkUrl, lib) == Found("")
    ensures Validate(EmptyShortLinkUrl, lib) == Some(true)
  {
    var u := EmptyShortLinkUrl;
    AppendEmpty("https://");
    AppendEmpty(u);
    NoShortsStart("https://", "", YouTubeUrl.ShortLinkLead, "");
    EmptyShortLinkParsed(lib);
    ShortLinkBranch(u, lib);
    assert LStripChar("/", '/') == "";
  }

  /** Every URL the other downloaders accept is longer than the empty youtu.be link, or is an http URL. */
  lemma ValidUrlLong(db: UnicodeDb, url: string)
    requires YouTubeUrl.IsValidUrl(db, url)
    ensures |url| >= 18 || (|url| > 4 && url[4] == ':')
  {
    var scheme, sub, lead, tail, id, rest, nl := YouTubeUrl.ValidUrlShape(db, url);
    assert |lead| >= 9;
    if scheme == "http://" {
      assert url[4] == scheme[4];
    }
  }

  /** The other downloaders reject the youtu.be link with nothing after the slash. */
  lemma EmptyShortLinkRejected(db: UnicodeDb)
    ensures !YouTubeUrl.IsValidUrl(db, EmptyShortLinkUrl)
  {
    if YouTubeUrl.IsValidUrl(db, EmptyShortLinkUrl) {
      ValidUrlLong(db, EmptyShortLinkUrl);
    }
  }
}
