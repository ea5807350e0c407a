/**
 * The TikTok downloader: the URL recogniser, the video-ID extraction, the
 * mobile-URL rewrite, the five yt-dlp/ffmpeg command lines and the decision
 * sequence of `download_tiktok_no_watermark`.
 */
module TikTok {
  import opened Wrappers
  import opened Regex
  import opened UrlPatterns
  import opened PyStr
  import opened Process
  import opened Listing
  import Search
  import Quality

  /** `[A-Za-z0-9]+` */
  const Alnum: Re := Many(InRanges([('A', 'Z'), ('a', 'z'), ('0', '9')]), 1)

  /** `\d+`: Unicode decimal digits, as Python's `re` reads them in a `str` pattern. */
  const Digits: Re := Many(Digit, 1)

  /** `(@[^/]+/video/\d+|[A-Za-z0-9]+/?)` */
  const PathPart: Re := Alt(Cats([Lit("@"), NonSlashes, Lit("/video/"), Digits]), Cat(Alnum, OptSlash))

  /** The three accepted shapes, tried in order, each matched at the start of the URL only. */
  const Patterns: seq<Re> := [
    PagePattern,
    MobilePattern,
    ShortLinkPattern
  ]

  /** `https?://(www\.|vm\.)?tiktok\.com/(@[^/]+/video/\d+|[A-Za-z0-9]+/?)` */
  const PagePattern: Re := Url([Opt(Alt(Lit("www."), Lit("vm."))), Lit("tiktok.com/"), PathPart])

  /** `https?://m\.tiktok\.com/v/\d+` */
  const MobilePattern: Re := Url([Lit("m.tiktok.com/v/"), Digits])

  /** `https?://(www\.)?tiktok\.com/t/[A-Za-z0-9]+/?` */
  const ShortLinkPattern: Re := Cat(HttpScheme, ShortLinkRest)

  /** `(www\.)?tiktok\.com/t/[A-Za-z0-9]+/?`, the part of the third pattern after the scheme. */
  const ShortLinkRest: Re := Cat(Opt(Lit("www.")), Cat(Lit(ShortLead), Cat(Alnum, OptSlash)))

  /** `is_valid_tiktok_url` */
  predicate IsValidUrl(db: UnicodeDb, url: string) {
    AnyMatchesPrefix(db, Patterns, url)
  }

  /** Only http and https URLs are accepted. */
  lemma ValidUrlIsHttp(db: UnicodeDb, url: string)
    requires IsValidUrl(db, url)
    ensures StartsWith(url, "http://") || StartsWith(url, "https://")
  {
    PrefixAcceptsOnlyHttp(db, Patterns, url);
  }

  /** The fixed text of a `/t/` short link after the scheme and the optional "www.". */
  const ShortLead := "tiktok.com/t/"

  /** Every string the short-link pattern's tail matches is an optional "www.", "tiktok.com/t/" and the rest. */
  lemma ShortLinkRestShape(db: UnicodeDb, u: string) returns (sub: string, w: string)
    requires InLang(db, ShortLinkRest, u)
    ensures sub == "" || sub == "www."
    ensures u == sub + ShortLead + w
  {
    sub, w := OptLitThenLit(db, "www.", ShortLead, Cat(Alnum, OptSlash), u);
  }

  /** Every string the short-link pattern matches is a scheme, an optional "www.", "tiktok.com/t/" and the rest. */
  lemma ShortLinkShape(db: UnicodeDb, t: string) returns (scheme: string, sub: string, w: string)
    requires InLang(db, ShortLinkPattern, t)
    ensures scheme == "http://" || scheme == "https://"
    ensures sub == "" || sub == "www."
    ensures t == scheme + sub + ShortLead + w
  {
    var k := CatSplit(db, HttpScheme, ShortLinkRest, t);
    HttpSchemeOnly(db, t[..k]);
    scheme := t[..k];
    sub, w := ShortLinkRestShape(db, t[k..]);
    AppendRegroup(scheme, sub, ShortLead, w);
  }

  /** "t/", the first segment of a short link's path, is a path the first pattern accepts. */
  lemma ShortSegmentIsPath(db: UnicodeDb)
    ensures InLang(db, PathPart, "t/")
  {
    assert InLang(db, Alnum, "t") by {
      assert InRangeList([('A', 'Z'), ('a', 'z'), ('0', '9')], 't') by {
        assert [('A', 'Z'), ('a', 'z'), ('0', '9')][1..] == [('a', 'z'), ('0', '9')];
      }
    }
    assert "t/"[..1] == "t" && "t/"[1..] == "/";
  }

  /** A scheme, an optional "www." and "tiktok.com/t/" are in the first pattern's language. */
  lemma ShortLinkHeadInPage(db: UnicodeDb, scheme: string, sub: string)
    requires scheme == "http://" || scheme == "https://"
    requires sub == "" || sub == "www."
    ensures InLang(db, PagePattern, scheme + sub + ShortLead)
  {
    var parts := [Opt(Alt(Lit("www."), Lit("vm."))), Lit("tiktok.com/"), PathPart];
    var ts := [sub, "tiktok.com/", "t/"];
    ShortSegmentIsPath(db);
    assert PartsMatch(db, parts, ts);
    UrlIntro(db, parts, scheme, ts);
    Concat3(sub, "tiktok.com/", "t/");
    assert "tiktok.com/" + "t/" == ShortLead;
    AppendAssoc(sub, "tiktok.com/", "t/");
    AppendAssoc(scheme, sub, ShortLead);
  }

  /** A scheme, an optional "www.", "tiktok.com/t/" and anything after it pass the first pattern. */
  lemma ShortLinkPassesFirst(db: UnicodeDb, scheme: string, sub: string, rest: string)
    requires scheme == "http://" || scheme == "https://"
    requires sub == "" || sub == "www."
    ensures MatchesPrefix(db, PagePattern, scheme + sub + ShortLead + rest)
  {
    ShortLinkHeadInPage(db, scheme, sub);
    PrefixInLangMatches(db, PagePattern, scheme + sub + ShortLead, rest);
  }

  /** Every URL the third pattern (`/t/` short links) accepts, the first pattern accepts already. */
  lemma ShortLinkPatternRedundant(db: UnicodeDb, url: string)
    requires MatchesPrefix(db, ShortLinkPattern, url)
    ensures MatchesPrefix(db, PagePattern, url)
  {
    MatchesPrefixIff(db, ShortLinkPattern, url);
    var k :| 0 <= k <= |url| && InLang(db, ShortLinkPattern, url[..k]);
    var scheme, sub, w := ShortLinkShape(db, url[..k]);
    ShortLinkPassesFirst(db, scheme, sub, w + url[k..]);
    assert url == url[..k] + url[k..];
    AppendAssoc(scheme + sub + ShortLead, w, url[k..]);
  }

  /** A URL is accepted exactly when the first or the second pattern matches it; the third adds nothing. */
  lemma IsValidUrlIff(db: UnicodeDb, url: string)
    ensures IsValidUrl(db, url) <==> MatchesPrefix(db, PagePattern, url) || MatchesPrefix(db, MobilePattern, url)
  {
    AnyMatchesPrefixIff(db, Patterns, url);
    assert Patterns[0] == PagePattern && Patterns[1] == MobilePattern && Patterns[2] == ShortLinkPattern;
    if MatchesPrefix(db, ShortLinkPattern, url) {
      ShortLinkPatternRedundant(db, url);
    }
  }

  const VideoLead := "tiktok.com/@"
  const VideoMid := "/video/"
  const MobileLead := "m.tiktok.com/v/"

  /** `tiktok\.com/@[^/]+/video/(\d+)` */
  const VideoPath: Re := Cat(Lit(VideoLead), Cat(NonSlashes, Cat(Lit(VideoMid), Digits)))

  /** `m\.tiktok\.com/v/(\d+)` */
  const MobilePath: Re := Cat(Lit(MobileLead), Digits)

  /** `@([^/]+)` */
  const UserPath: Re := Cat(Lit("@"), NonSlashes)

  /** The group of `VideoPath` when a match begins at `p`: the digits after "/video/". */
  function VideoGroupAt(db: UnicodeDb, s: string, p: nat): (g: Option<string>)
    requires p <= |s|
    ensures g.Some? ==> |g.value| > 0 && forall k :: 0 <= k < |g.value| ==> InClass(db, Digit, g.value[k])
    ensures g.Some? <==> Search.MatchesAt(db, VideoPath, s, p)
  {
    Search.SegmentGroupAtIff(db, VideoLead, VideoMid, Digit, s, p);
    Search.SegmentGroupAt(db, VideoLead, VideoMid, Digit, s, p)
  }

  /** `re.search(r'tiktok\.com/@[^/]+/video/(\d+)', s).group(1)`, or `None` when nothing matches. */
  function VideoIdIn(db: UnicodeDb, s: string): (r: Option<string>)
    ensures r.Some? <==> Search.Find(db, VideoPath, s).Some?
    ensures r.Some? ==> |r.value| > 0 && forall k :: 0 <= k < |r.value| ==> InClass(db, Digit, r.value[k])
  {
    match Search.Find(db, VideoPath, s)
    case None => None
    case Some(p) => VideoGroupAt(db, s, p)
  }

  /** `re.search(r'm\.tiktok\.com/v/(\d+)', s).group(1)`, or `None` when nothing matches. */
  function MobileIdIn(db: UnicodeDb, s: string): (r: Option<string>)
    ensures r.Some? <==> Search.Find(db, MobilePath, s).Some?
    ensures r.Some? ==> |r.value| > 0 && forall k :: 0 <= k < |r.value| ==> InClass(db, Digit, r.value[k])
  {
    match Search.Find(db, MobilePath, s)
    case None => None
    case Some(p) =>
      Search.LitThenRunAt(db, MobileLead, Digit, s, p);
      Some(Search.RunAfter(db, MobileLead, Digit, s, p))
  }

  /** `re.search(r'@([^/]+)', s).group(1)`, or `None` when no "@" is followed by a non-slash. */
  function UserIn(db: UnicodeDb, s: string): (r: Option<string>)
    ensures r.Some? <==> Search.Find(db, UserPath, s).Some?
    ensures r.Some? ==> |r.value| > 0 && '/' !in r.value
  {
    match Search.Find(db, UserPath, s)
    case None => None
    case Some(p) =>
      Search.LitThenRunAt(db, "@", NoneOf(['/']), s, p);
      var u := Search.RunAfter(db, "@", NoneOf(['/']), s, p);
      assert forall k :: 0 <= k < |u| ==> u[k] != '/';
      Some(u)
  }

  /**
   * `extract_video_id`. `redirect` is what `requests.head(url,
   * allow_redirects=True).url` gives, or `None` when that request raises; it
   * is consulted only for short links. Any exception makes the answer `None`.
   */
  function ExtractId(db: UnicodeDb, url: string, redirect: Option<string>): (r: Option<string>)
    ensures VideoIdIn(db, url).Some? ==> r == VideoIdIn(db, url)
    ensures r.Some? ==> |r.value| > 0 && forall k :: 0 <= k < |r.value| ==> InClass(db, Digit, r.value[k])
    ensures !Contains(url, "vm.tiktok.com") && !Contains(url, "/t/") && VideoIdIn(db, url).None?
      ==> r == MobileIdIn(db, url)
  {
    match VideoIdIn(db, url)
    case Some(id) => Some(id)
    case None =>
      if Contains(url, "vm.tiktok.com") || Contains(url, "/t/") then
        match redirect
        case None => None
        case Some(final) =>
          if VideoIdIn(db, final).Some? then VideoIdIn(db, final) else MobileIdIn(db, url)
      else MobileIdIn(db, url)
  }

  /** "vm.tiktok.com" contains "m.tiktok.com". */
  lemma VmHostHasMobileHost(url: string)
    requires Contains(url, "vm.tiktok.com")
    ensures Contains(url, "m.tiktok.com")
  {
    ContainsIff(url, "vm.tiktok.com");
    var j: nat :| IsPrefixAt("vm.tiktok.com", url, j);
    assert url[j + 1..j + 13] == url[j..j + 13][1..];
    assert IsPrefixAt("m.tiktok.com", url, j + 1);
    ContainsIff(url, "m.tiktok.com");
  }

  /**
   * The Method 3 rewrite. `None` stands for the `AttributeError` raised when
   * the URL has an "@" but `re.search(r'@([^/]+)', url)` finds nothing.
   */
  function MobileUrl(db: UnicodeDb, url: string): Option<string> {
    if !Contains(url, "vm.tiktok.com") && !Contains(url, "m.tiktok.com") then
      if Contains(url, "@") then
        match UserIn(db, url)
        case None => None
        case Some(user) => Some("https://m.tiktok.com/@" + user)
      else Some(Replace(url, "tiktok.com", "m.tiktok.com"))
    else Some(url)
  }

  /**
   * The rewrite fails only on a URL without "m.tiktok.com" whose every "@" is
   * followed by "/" or ends it. The "vm.tiktok.com" test is subsumed by the
   * "m.tiktok.com" one.
   */
  lemma MobileUrlNoneIff(db: UnicodeDb, url: string)
    ensures MobileUrl(db, url).None? <==>
      !Contains(url, "m.tiktok.com") && Contains(url, "@") && Search.Find(db, UserPath, url).None?
    ensures Contains(url, "m.tiktok.com") ==> MobileUrl(db, url) == Some(url)
  {
    if Contains(url, "vm.tiktok.com") {
      VmHostHasMobileHost(url);
    }
  }

  /** Whenever the rewrite succeeds on a URL that mentions "tiktok.com", the result mentions "m.tiktok.com". */
  lemma MobileUrlIsMobile(db: UnicodeDb, url: string)
    requires Contains(url, "tiktok.com")
    requires MobileUrl(db, url).Some?
    ensures Contains(MobileUrl(db, url).value, "m.tiktok.com")
  {
    var m := MobileUrl(db, url).value;
    if Contains(url, "vm.tiktok.com") {
      VmHostHasMobileHost(url);
    } else if !Contains(url, "m.tiktok.com") {
      if Contains(url, "@") {
        assert IsPrefixAt("m.tiktok.com", m, 8) by {
          assert m[8..20] == "m.tiktok.com";
        }
        ContainsIff(m, "m.tiktok.com");
      } else {
        ReplaceShowsReplacement(url, "tiktok.com", "m.tiktok.com");
      }
    }
  }

  const NoWmTemplate := "tiktok_nowm_%(id)s.%(ext)s"
  const DesktopAgent := "Mozilla/5.0 (Windows NT 10.0; Win64; x64) AppleWebKit/537.36 (KHTML, like Gecko) Chrome/91.0.4472.124 Safari/537.36"
  const PhoneAgent := "Mozilla/5.0 (iPhone; CPU iPhone OS 14_0 like Mac OS X) AppleWebKit/605.1.15 (KHTML, like Gecko) Version/14.0 Mobile/15E148 Safari/604.1"
  const Referer := "Referer:https://www.tiktok.com/"
  const CropFilter := "crop=in_w*0.9:in_h*0.9:0:0"

  /** The watermarked download Method 2 writes first. */
  function TempFile(dir: string, id: string): string {
    JoinPath(dir, "temp_watermarked_" + id + ".mp4")
  }

  /** The file the crop writes. */
  function CroppedFile(dir: string, id: string): string {
    JoinPath(dir, "tiktok_nowm_" + id + ".mp4")
  }

  /** The crop never writes over the file it reads: the two names differ in the same place for every directory and ID. */
  lemma CroppedFileIsNotTempFile(dir: string, id: string)
    ensures CroppedFile(dir, id) != TempFile(dir, id)
  {
    var a := "temp_watermarked_" + id + ".mp4";
    var b := "tiktok_nowm_" + id + ".mp4";
    assert a[1] == 'e' && b[1] == 'i';
    var sep := if dir == [] || EndsWith(dir, "/") then dir else dir + "/";
    assert TempFile(dir, id) == sep + a;
    assert CroppedFile(dir, id) == sep + b;
    assert (sep + a)[|sep| + 1] == 'e';
    assert (sep + b)[|sep| + 1] == 'i';
  }

  /** Method 1: the chosen format merged to mp4, a desktop user agent, the TikTok referer, the URL last. */
  function FirstCommand(url: string, quality: string, tools: Tools, dir: string): (cmd: seq<string>)
    ensures |cmd| == 18 && cmd[0] == tools.ytdlp && cmd[17] == url
    ensures cmd[4] == "-f" && cmd[5] == Quality.Selector(quality)
    ensures cmd[8] == "-o" && EndsWith(cmd[9], NoWmTemplate)
  {
    FirstArgs(tools.ytdlp, tools.FfmpegDir(), Quality.Selector(quality), JoinPath(dir, NoWmTemplate), url)
  }

  /** Method 1's list, its computed parts passed in. */
  function FirstArgs(ytdlp: string, ffmpegDir: string, format: string, output: string, url: string): (cmd: seq<string>)
    ensures |cmd| == 18 && cmd[0] == ytdlp && cmd[3] == ffmpegDir && cmd[17] == url
    ensures cmd[4] == "-f" && cmd[5] == format && cmd[8] == "-o" && cmd[9] == output
  {
    [ytdlp, "--no-warnings", "--ffmpeg-location", ffmpegDir,
     "-f", format, "--merge-output-format", "mp4",
     "-o", output,
     "--no-write-info-json", "--no-playlist",
     "--user-agent", DesktopAgent, "--add-header", Referer,
     "--no-check-certificate", url]
  }

  /** Method 2, first step: a plain download into the temporary file. */
  function TempCommand(url: string, tools: Tools, dir: string, id: string): (cmd: seq<string>)
    ensures |cmd| == 9 && cmd[0] == tools.ytdlp && cmd[8] == url
    ensures cmd[4] == "-o" && cmd[5] == TempFile(dir, id)
  {
    TempArgs(tools.ytdlp, tools.FfmpegDir(), TempFile(dir, id), url)
  }

  /** The temporary download's list, its computed parts passed in. */
  function TempArgs(ytdlp: string, ffmpegDir: string, output: string, url: string): (cmd: seq<string>)
    ensures |cmd| == 9 && cmd[0] == ytdlp && cmd[3] == ffmpegDir && cmd[8] == url
    ensures cmd[4] == "-o" && cmd[5] == output
  {
    [ytdlp, "--no-warnings", "--ffmpeg-location", ffmpegDir,
     "-o", output, "--no-write-info-json", "--no-playlist", url]
  }

  /** Method 3: format "best", a phone user agent, the rewritten URL. */
  function MobileCommand(mobileUrl: string, tools: Tools, dir: string): (cmd: seq<string>)
    ensures |cmd| == 16 && cmd[0] == tools.ytdlp && cmd[15] == mobileUrl
    ensures cmd[4] == "-f" && cmd[5] == "best" && cmd[11] == PhoneAgent
  {
    MobileArgs(tools.ytdlp, tools.FfmpegDir(), JoinPath(dir, NoWmTemplate), mobileUrl)
  }

  /** Method 3's list, its computed parts passed in. */
  function MobileArgs(ytdlp: string, ffmpegDir: string, output: string, url: string): (cmd: seq<string>)
    ensures |cmd| == 16 && cmd[0] == ytdlp && cmd[3] == ffmpegDir && cmd[15] == url
    ensures cmd[4] == "-f" && cmd[5] == "best" && cmd[6] == "-o" && cmd[7] == output && cmd[11] == PhoneAgent
  {
    [ytdlp, "--no-warnings", "--ffmpeg-location", ffmpegDir,
     "-f", "best", "-o", output,
     "--no-write-info-json", "--no-playlist",
     "--user-agent", PhoneAgent, "--add-header", Referer,
     "--no-check-certificate", url]
  }

  /** The final attempt: format "b" and the original URL. */
  function FinalCommand(url: string, tools: Tools, dir: string): (cmd: seq<string>)
    ensures |cmd| == 12 && cmd[0] == tools.ytdlp && cmd[11] == url
    ensures cmd[4] == "-f" && cmd[5] == "b"
  {
    FinalArgs(tools.ytdlp, tools.FfmpegDir(), JoinPath(dir, NoWmTemplate), url)
  }

  /** The final attempt's list, its computed parts passed in. */
  function FinalArgs(ytdlp: string, ffmpegDir: string, output: string, url: string): (cmd: seq<string>)
    ensures |cmd| == 12 && cmd[0] == ytdlp && cmd[3] == ffmpegDir && cmd[11] == url
    ensures cmd[4] == "-f" && cmd[5] == "b" && cmd[6] == "-o" && cmd[7] == output
  {
    [ytdlp, "--no-warnings", "--ffmpeg-location", ffmpegDir,
     "-f", "b", "-o", output,
     "--no-write-info-json", "--no-check-certificate", "--no-playlist", url]
  }

  /** The ffmpeg crop that cuts 10% off the right and the bottom of the temporary file. */
  function CropCommand(tools: Tools, dir: string, id: string): (cmd: seq<string>)
    ensures |cmd| == 9 && cmd[0] == tools.ffmpeg
    ensures cmd[1] == "-i" && cmd[2] == TempFile(dir, id)
    ensures cmd[8] == CroppedFile(dir, id) && cmd[8] != cmd[2]
  {
    CroppedFileIsNotTempFile(dir, id);
    [tools.ffmpeg, "-i", TempFile(dir, id), "-vf", CropFilter, "-c:a", "copy", "-y", CroppedFile(dir, id)]
  }

  /**
   * What one TikTok download sees from outside: the outcome of the n-th
   * subprocess, the redirect target of a short link, the download directory
   * as listed after a fallback method succeeds, the clock at that moment, and
   * whether deleting the temporary file after the crop works.
   */
  datatype Env = Env(run: Oracle, redirect: Option<string>, listing: Dir, now: real, cleanupOk: bool)

  /** The subprocesses a download can start, in the order the methods try them. */
  datatype Step =
    | First                  // Method 1: the chosen format, desktop user agent
    | Temp(id: string)       // Method 2: plain download into the temporary file
    | Crop(id: string)       // ffmpeg crop of the temporary file
    | Mobile(murl: string)   // Method 3: the rewritten mobile URL
    | Final                  // the last attempt with format "b"

  /** The command line a step runs. */
  function CommandOf(step: Step, url: string, quality: string, tools: Tools, dir: string): seq<string> {
    match step
    case First => FirstCommand(url, quality, tools, dir)
    case Temp(id) => TempCommand(url, tools, dir, id)
    case Crop(id) => CropCommand(tools, dir, id)
    case Mobile(m) => MobileCommand(m, tools, dir)
    case Final => FinalCommand(url, tools, dir)
  }

  /** The steps a download started, in order, and the verdict it returned. */
  datatype Attempts = Attempts(steps: seq<Step>, ok: bool)

  /** The command lines of the steps started, in order. */
  function Commands(a: Attempts, url: string, quality: string, tools: Tools, dir: string): (cmds: seq<seq<string>>)
    ensures |cmds| == |a.steps|
    ensures forall i :: 0 <= i < |a.steps| ==> cmds[i] == CommandOf(a.steps[i], url, quality, tools, dir)
  {
    seq(|a.steps|, i requires 0 <= i < |a.steps| => CommandOf(a.steps[i], url, quality, tools, dir))
  }

  /** Steps already started, followed by what comes after them. */
  function Then(first: Step, a: Attempts): (r: Attempts)
    ensures |r.steps| == 1 + |a.steps| && r.steps[0] == first && r.steps[1..] == a.steps && r.ok == a.ok
  {
    Attempts([first] + a.steps, a.ok)
  }

  /**
   * A True verdict of `a`, which runs after `n` subprocesses were started,
   * comes right after a subprocess that exited zero: the last one started.
   */
  predicate LastSucceeded(a: Attempts, run: Oracle, n: nat) {
    a.ok ==> n + |a.steps| > 0 && Succeeded(run(n + |a.steps| - 1))
  }

  /** A step started before `a` leaves the last-succeeded property of `a` intact. */
  lemma ThenLastSucceeded(first: Step, a: Attempts, run: Oracle, n: nat)
    requires LastSucceeded(a, run, n + 1)
    ensures LastSucceeded(Then(first, a), run, n)
  {
  }

  /** How many seconds back a file counts as just downloaded. */
  const RecentWindow: real := 30.0

  /**
   * The crop, started as subprocess `k`. The temporary file is deleted before
   * the crop's status is checked, so when the crop exits non-zero the
   * `shutil.move` of the deleted file raises and the download reports False.
   */
  function CropStep(id: string, env: Env, k: nat): (a: Attempts)
    ensures a.steps == [Crop(id)]
    ensures a.ok <==> Succeeded(env.run(k)) && env.cleanupOk
  {
    var ok := match env.run(k)
      case Raised(_) => false
      case Exited(code, _, _) => env.cleanupOk && code == 0;
    Attempts([Crop(id)], ok)
  }

  /** A recent .mp4 is listed in the download directory. */
  predicate FoundRecent(env: Env) {
    env.listing.Listed? && NewestWanted(env.listing.entries, ".mp4", env.now, RecentWindow).Some?
  }

  /**
   * After Method 3 or the final attempt exited zero (as subprocess `k`): a
   * listing error means False, a recent .mp4 in the directory means True, and
   * otherwise control falls through to the crop.
   */
  function AfterFallback(id: string, env: Env, k: nat): (a: Attempts)
    ensures env.listing.ListFailed? ==> a == Attempts([], false)
    ensures FoundRecent(env) ==> a == Attempts([], true)
    ensures env.listing.Listed? && !FoundRecent(env) ==> a == CropStep(id, env, k + 1)
    ensures a.ok <==> FoundRecent(env) || (env.listing.Listed? && Succeeded(env.run(k + 1)) && env.cleanupOk)
    ensures a.steps == [] || a.steps == [Crop(id)]
    ensures a.steps == [Crop(id)] <==> env.listing.Listed? && !FoundRecent(env)
  {
    match env.listing
    case ListFailed(_) => Attempts([], false)
    case Listed(es) =>
      if NewestWanted(es, ".mp4", env.now, RecentWindow).Some? then Attempts([], true)
      else CropStep(id, env, k + 1)
  }

  /** The final attempt (subprocess 3), after Method 3 exited non-zero. */
  function FinalStep(id: string, env: Env): (a: Attempts)
    ensures 1 <= |a.steps| <= 2 && a.steps[0] == Final
    ensures !Succeeded(env.run(3)) ==> a == Attempts([Final], false)
    ensures Succeeded(env.run(3)) ==> a == Then(Final, AfterFallback(id, env, 3))
    ensures a.ok ==> Succeeded(env.run(3))
    ensures a.ok <==>
      Succeeded(env.run(3)) && (FoundRecent(env) || (env.listing.Listed? && Succeeded(env.run(4)) && env.cleanupOk))
    ensures |a.steps| == 2 <==> Succeeded(env.run(3)) && env.listing.Listed? && !FoundRecent(env)
  {
    match env.run(3)
    case Raised(_) => Attempts([Final], false)
    case Exited(c, _, _) => if c == 0 then Then(Final, AfterFallback(id, env, 3)) else Attempts([Final], false)
  }

  /** Method 3 (subprocess 2), then the final attempt. `None` stands for a failed rewrite. */
  function Fallbacks(db: UnicodeDb, url: string, id: string, env: Env): (a: Attempts)
    ensures MobileUrl(db, url).None? ==> a == Attempts([], false)
    ensures MobileUrl(db, url).Some? ==> 1 <= |a.steps| <= 3 && a.steps[0] == Mobile(MobileUrl(db, url).value)
  {
    match MobileUrl(db, url)
    case None => Attempts([], false)
    case Some(m) =>
      match env.run(2)
      case Raised(_) => Attempts([Mobile(m)], false)
      case Exited(code, _, _) =>
        if code == 0 then Then(Mobile(m), AfterFallback(id, env, 2))
        else Then(Mobile(m), FinalStep(id, env))
  }

  /** Method 2 onwards (subprocess 1 first), after Method 1 exited non-zero. */
  function AfterFirst(db: UnicodeDb, url: string, env: Env): (a: Attempts)
    ensures ExtractId(db, url, env.redirect).None? ==> a == Attempts([], false)
    ensures ExtractId(db, url, env.redirect).Some? ==>
      1 <= |a.steps| <= 4 && a.steps[0] == Temp(ExtractId(db, url, env.redirect).value)
  {
    AfterId(db, url, ExtractId(db, url, env.redirect), env)
  }

  /** `AfterFirst` once the ID extraction has given its answer `id`. */
  function AfterId(db: UnicodeDb, url: string, id: Option<string>, env: Env): (a: Attempts)
    ensures id.None? ==> a == Attempts([], false)
    ensures id.Some? ==> 1 <= |a.steps| <= 4 && a.steps[0] == Temp(id.value)
  {
    match id
    case None => Attempts([], false)
    case Some(id) =>
      match env.run(1)
      case Raised(_) => Attempts([Temp(id)], false)
      case Exited(code, _, _) =>
        if code == 0 then Then(Temp(id), CropStep(id, env, 2))
        else Then(Temp(id), Fallbacks(db, url, id, env))
  }

  /**
   * `download_tiktok_no_watermark`: nothing runs for an invalid URL;
   * otherwise the methods run in order as the source's nested branches
   * dictate.
   */
  function Download(db: UnicodeDb, url: string, env: Env): (a: Attempts)
    ensures !IsValidUrl(db, url) ==> a == Attempts([], false)
    ensures IsValidUrl(db, url) ==> 1 <= |a.steps| <= 5 && a.steps[0] == First
  {
    if !IsValidUrl(db, url) then Attempts([], false)
    else
      match env.run(0)
      case Raised(_) => Attempts([First], false)
      case Exited(code, _, _) =>
        if code == 0 then Attempts([First], true)
        else Then(First, AfterFirst(db, url, env))
  }

  /** After the listing, a True verdict follows a zero exit of the step before it or of the crop. */
  lemma AfterFallbackLastSucceeded(id: string, env: Env, k: nat)
    requires Succeeded(env.run(k))
    ensures LastSucceeded(AfterFallback(id, env, k), env.run, k + 1)
  {
  }

  /** Every True verdict of the fallbacks comes right after a zero exit. */
  lemma FallbacksLastSucceeded(db: UnicodeDb, url: string, id: string, env: Env)
    ensures LastSucceeded(Fallbacks(db, url, id, env), env.run, 2)
  {
    if MobileUrl(db, url).Some? && Succeeded(env.run(2)) {
      AfterFallbackLastSucceeded(id, env, 2);
      ThenLastSucceeded(Mobile(MobileUrl(db, url).value), AfterFallback(id, env, 2), env.run, 2);
    } else if MobileUrl(db, url).Some? && FailedExit(env.run(2)) && Succeeded(env.run(3)) {
      AfterFallbackLastSucceeded(id, env, 3);
      ThenLastSucceeded(Final, AfterFallback(id, env, 3), env.run, 3);
      ThenLastSucceeded(Mobile(MobileUrl(db, url).value), FinalStep(id, env), env.run, 2);
    }
  }

  /** Every True verdict after Method 1 comes right after a zero exit. */
  lemma AfterFirstLastSucceeded(db: UnicodeDb, url: string, env: Env)
    ensures LastSucceeded(AfterFirst(db, url, env), env.run, 1)
  {
    AfterIdLastSucceeded(db, url, ExtractId(db, url, env.redirect), env);
  }

  /** `AfterFirstLastSucceeded` for any answer of the ID extraction. */
  lemma AfterIdLastSucceeded(db: UnicodeDb, url: string, id: Option<string>, env: Env)
    ensures LastSucceeded(AfterId(db, url, id, env), env.run, 1)
  {
    if id.Some? && FailedExit(env.run(1)) {
      FallbacksLastSucceeded(db, url, id.value, env);
      ThenLastSucceeded(Temp(id.value), Fallbacks(db, url, id.value, env), env.run, 1);
    } else if id.Some? && Succeeded(env.run(1)) {
      ThenLastSucceeded(Temp(id.value), CropStep(id.value, env, 2), env.run, 1);
    }
  }

  /**
   * Every True verdict comes right after a process that exited zero: the last
   * command the download started succeeded.
   */
  lemma DownloadLastSucceeded(db: UnicodeDb, url: string, env: Env)
    ensures LastSucceeded(Download(db, url, env), env.run, 0)
  {
    if IsValidUrl(db, url) && FailedExit(env.run(0)) {
      AfterFirstLastSucceeded(db, url, env);
      ThenLastSucceeded(First, AfterFirst(db, url, env), env.run, 0);
    }
  }

  /** Method 1 exiting zero decides the download: True, and nothing else runs. */
  lemma FirstMethodDecides(db: UnicodeDb, url: string, env: Env)
    requires IsValidUrl(db, url) && Succeeded(env.run(0))
    ensures Download(db, url, env) == Attempts([First], true)
  {
  }

  /** When Method 1 fails and no video ID can be extracted, the download is False after one command. */
  lemma NoVideoIdFails(db: UnicodeDb, url: string, env: Env)
    requires IsValidUrl(db, url) && FailedExit(env.run(0))
    requires ExtractId(db, url, env.redirect).None?
    ensures Download(db, url, env) == Attempts([First], false)
  {
  }

  /**
   * After the temporary download succeeds, the verdict is the crop's: a crop
   * that exits non-zero makes the whole download False, the watermarked file
   * is not kept.
   */
  lemma TempSuccessCrops(db: UnicodeDb, url: string, env: Env, id: string)
    requires IsValidUrl(db, url) && FailedExit(env.run(0))
    requires ExtractId(db, url, env.redirect) == Some(id)
    requires Succeeded(env.run(1))
    ensures var a := Download(db, url, env);
      && a.steps == [First, Temp(id), Crop(id)]
      && (a.ok <==> Succeeded(env.run(2)) && env.cleanupOk)
  {
  }

  /** When all four yt-dlp methods exit non-zero, the download is False after exactly four commands. */
  lemma AllMethodsFail(db: UnicodeDb, url: string, env: Env, id: string, m: string)
    requires IsValidUrl(db, url)
    requires ExtractId(db, url, env.redirect) == Some(id) && MobileUrl(db, url) == Some(m)
    requires FailedExit(env.run(0)) && FailedExit(env.run(1)) && FailedExit(env.run(2)) && FailedExit(env.run(3))
    ensures Download(db, url, env) == Attempts([First, Temp(id), Mobile(m), Final], false)
  {
  }

  /**
   * When Method 3 succeeds but no .mp4 younger than 30 seconds is listed,
   * the crop still runs (on a temporary file the failed Method 2 never
   * wrote), and the download's verdict is the crop's.
   */
  lemma MobileSuccessWithoutFileCrops(db: UnicodeDb, url: string, env: Env, id: string, m: string)
    requires IsValidUrl(db, url) && FailedExit(env.run(0)) && FailedExit(env.run(1))
    requires ExtractId(db, url, env.redirect) == Some(id) && MobileUrl(db, url) == Some(m)
    requires Succeeded(env.run(2))
    requires env.listing.Listed? && !FoundRecent(env)
    ensures var a := Download(db, url, env);
      && a.steps == [First, Temp(id), Mobile(m), Crop(id)]
      && (a.ok <==> Succeeded(env.run(3)) && env.cleanupOk)
  {
  }

  /** When Method 3 succeeds and a recent .mp4 is listed, the download is True after three commands. */
  lemma MobileSuccessWithFile(db: UnicodeDb, url: string, env: Env, id: string, m: string)
    requires IsValidUrl(db, url) && FailedExit(env.run(0)) && FailedExit(env.run(1))
    requires ExtractId(db, url, env.redirect) == Some(id) && MobileUrl(db, url) == Some(m)
    requires Succeeded(env.run(2)) && FoundRecent(env)
    ensures Download(db, url, env) == Attempts([First, Temp(id), Mobile(m)], true)
  {
  }
}
