/**
 * The Facebook downloader: the URL recogniser, the yt-dlp command lines and
 * the four-stage retry sequence of `download_facebook_video`.
 */
module Facebook {
  import opened Regex
  import opened UrlPatterns
  import opened PyStr
  import opened Argv
  import opened Process
  import Quality

  /** `(www\.|m\.|web\.)?` */
  const Sub: Re := Opt(Alt(Lit("www."), Alt(Lit("m."), Lit("web."))))

  /** The eight accepted shapes, tried in order, each matched at the start of the URL only. */
  const Patterns: seq<Re> := [
    Url([Sub, Lit("facebook.com/"), NonSlashes, Lit("/videos/"), AsciiDigits]),
    Url([Sub, Lit("facebook.com/watch?v="), AsciiDigits]),
    Url([Sub, Lit("facebook.com/"), NonSlashes, Lit("/posts/"), AsciiDigits]),
    Url([Sub, Lit("facebook.com/"), NonSlashes, Lit("/videos/"), NonSlashes, Lit("/"), AsciiDigits]),
    Url([Sub, Lit("facebook.com/watch/live/?v="), AsciiDigits]),
    Url([Sub, Lit("fb.watch/"), IdChars, OptSlash]),
    Url([Sub, Lit("facebook.com/reel/"), AsciiDigits]),
    Url([Sub, Lit("facebook.com/story.php?story_fbid="), AsciiDigits, Lit("&id="), AsciiDigits])
  ]

  /** `is_valid_facebook_url` */
  predicate IsValidUrl(url: string) {
    AnyMatchesPrefix(NoUnicode, Patterns, url)
  }

  /** A URL is accepted exactly when one of the eight shapes matches a prefix of it. */
  lemma IsValidUrlIff(url: string)
    ensures IsValidUrl(url) <==>
      exists k, j :: 0 <= k < |Patterns| && 0 <= j <= |url| && InLang(NoUnicode, Patterns[k], url[..j])
  {
    AnyMatchesPrefixIff(NoUnicode, Patterns, url);
    forall k | 0 <= k < |Patterns| {
      MatchesPrefixIff(NoUnicode, Patterns[k], url);
    }
  }

  /** Only http and https URLs are accepted. */
  lemma ValidUrlIsHttp(url: string)
    requires IsValidUrl(url)
    ensures StartsWith(url, "http://") || StartsWith(url, "https://")
  {
    PrefixAcceptsOnlyHttp(NoUnicode, Patterns, url);
  }

  lemma SubAccepts(sub: string)
    requires sub in ["", "www.", "m.", "web."]
    ensures InLang(NoUnicode, Sub, sub)
  {
  }

  /** A reel URL with a numeric ID, on any of the four host forms, is accepted whatever follows it. */
  lemma ReelUrlAccepted(scheme: string, sub: string, id: string, rest: string)
    requires scheme == "http://" || scheme == "https://"
    requires sub in ["", "www.", "m.", "web."]
    requires |id| > 0 && forall k :: 0 <= k < |id| ==> '0' <= id[k] <= '9'
    ensures IsValidUrl(scheme + sub + "facebook.com/reel/" + id + rest)
  {
    var parts := [Sub, Lit("facebook.com/reel/"), AsciiDigits];
    var ts := [sub, "facebook.com/reel/", id];
    SubAccepts(sub);
    AsciiDigitsLang(NoUnicode, id);
    assert PartsMatch(NoUnicode, parts, ts);
    UrlIntro(NoUnicode, parts, scheme, ts);
    Concat3(sub, "facebook.com/reel/", id);
    assert Patterns[6] == Url(parts);
    AppendRegroup(scheme, sub, "facebook.com/reel/", id);
    ShapeAcceptedPrefix(NoUnicode, Patterns, 6, scheme + Concat(ts), rest);
  }

  /** Output file names, relative to the download directory. */
  const DatedTemplate := "facebook_video_%(upload_date)s_%(id)s.%(ext)s"
  const IdTemplate := "facebook_video_%(id)s.mp4"

  /** The first command: chosen format, mp4 merge, dated file name, the URL last. */
  function PrimaryCommand(url: string, quality: string, tools: Tools, dir: string): (cmd: seq<string>)
    ensures |cmd| == 14 && cmd[0] == tools.ytdlp && cmd[13] == url
    ensures cmd[4] == "-f" && cmd[5] == Quality.Selector(quality)
    ensures EndsWith(cmd[9], DatedTemplate)
  {
    PrimaryArgs(tools.ytdlp, tools.FfmpegDir(), Quality.Selector(quality), JoinPath(dir, DatedTemplate), url)
  }

  /** The first command's list, its computed parts passed in. */
  function PrimaryArgs(ytdlp: string, ffmpegDir: string, format: string, output: string, url: string): (cmd: seq<string>)
    ensures |cmd| == 14 && cmd[0] == ytdlp && cmd[3] == ffmpegDir && cmd[13] == url
    ensures cmd[4] == "-f" && cmd[5] == format && cmd[8] == "-o" && cmd[9] == output
  {
    [ytdlp, "--no-warnings", "--ffmpeg-location", ffmpegDir,
     "-f", format, "--merge-output-format", "mp4",
     "-o", output,
     "--no-write-info-json", "--no-playlist", "--geo-bypass", url]
  }

  /** The second command: a copy of the first with two `insert(-1, ...)` calls. */
  function CookieCommand(cmd: seq<string>): seq<string> {
    ListInsert(ListInsert(cmd, -1, "--cookies-from-browser"), -1, "chrome")
  }

  /**
   * The cookie command is the primary command with "--cookies-from-browser",
   * "chrome" inserted just before the URL, which stays last.
   */
  lemma CookieCommandShape(url: string, quality: string, tools: Tools, dir: string)
    ensures var c := PrimaryCommand(url, quality, tools, dir);
      CookieCommand(c) == c[..13] + ["--cookies-from-browser", "chrome", url]
  {
    var c := PrimaryCommand(url, quality, tools, dir);
    InsertTwiceBeforeLast(c, "--cookies-from-browser", "chrome");
  }

  /**
   * The mobile rewrite: every "www.facebook.com" becomes "m.facebook.com";
   * only when that leaves the URL unchanged is every "facebook.com" rewritten.
   */
  function MobileUrl(url: string): string {
    var m := Replace(url, "www.facebook.com", "m.facebook.com");
    if m == url then Replace(url, "facebook.com", "m.facebook.com") else m
  }

  /** The second replacement runs exactly when the URL has no "www.facebook.com". */
  lemma MobileUrlCases(url: string)
    ensures Contains(url, "www.facebook.com") ==>
      MobileUrl(url) == Replace(url, "www.facebook.com", "m.facebook.com")
    ensures !Contains(url, "www.facebook.com") ==>
      MobileUrl(url) == Replace(url, "facebook.com", "m.facebook.com")
  {
    ReplaceUnchangedIff(url, "www.facebook.com", "m.facebook.com");
  }

  /** A URL without "facebook.com" anywhere, such as an fb.watch link, is left as it is. */
  lemma MobileUrlKeepsOtherHosts(url: string)
    requires !Contains(url, "facebook.com")
    ensures MobileUrl(url) == url
  {
    MobileUrlCases(url);
    ReplaceAbsent(url, "facebook.com", "m.facebook.com");
    NoBareNoWww(url);
  }

  /** Without "facebook.com" there is no "www.facebook.com" either. */
  lemma NoBareNoWww(url: string)
    requires !Contains(url, "facebook.com")
    ensures !Contains(url, "www.facebook.com")
  {
    ContainsIff(url, "facebook.com");
    forall j: nat ensures !IsPrefixAt("www.facebook.com", url, j) {
      WwwHoldsBare(url, j);
    }
    ContainsIff(url, "www.facebook.com");
  }

  /** An occurrence of "www.facebook.com" holds one of "facebook.com" four places on. */
  lemma WwwHoldsBare(s: string, j: nat)
    ensures IsPrefixAt("www.facebook.com", s, j) ==> IsPrefixAt("facebook.com", s, j + 4)
  {
    if j + 16 <= |s| {
      assert s[j + 4..j + 16] == s[j..j + 16][4..];
    }
  }

  /** The host part of a mobile URL. */
  const MobileHost := "https://m.facebook.com/"

  /** Its only 'f' is the one of "facebook.com", at index 10; index 6 holds a '/'. */
  lemma MobileHostChars()
    ensures |MobileHost| == 23 && MobileHost[6] == '/'
    ensures forall j :: 0 <= j < 23 && j != 10 ==> MobileHost[j] != 'f'
  {
  }

  /** In `https://m.facebook.com/...`, "facebook.com" occurs only in the host. */
  lemma MobileHostOccurrence(rest: string, j: nat)
    requires !Contains(rest, "facebook.com")
    ensures IsPrefixAt("facebook.com", "https://m.facebook.com/" + rest, j) ==> j == 10
  {
    var s := MobileHost + rest;
    ContainsIff(rest, "facebook.com");
    OccurrenceInSuffix("facebook.com", MobileHost, rest, j);
    MobileHostChars();
    if j < 23 && j + 12 <= |s| {
      assert s[j..j + 12][0] == s[j] == MobileHost[j];
    }
  }

  /** `https://m.facebook.com/...` has no "www.facebook.com" when the rest has no "facebook.com". */
  lemma MobileHostHasNoWww(rest: string)
    requires !Contains(rest, "facebook.com")
    ensures !Contains("https://m.facebook.com/" + rest, "www.facebook.com")
  {
    var s := MobileHost + rest;
    MobileHostChars();
    forall j: nat ensures !IsPrefixAt("www.facebook.com", s, j) {
      MobileHostOccurrence(rest, j + 4);
      WwwHoldsBare(s, j);
      if j == 6 && j + 16 <= |s| {
        assert s[6..22][0] == s[6] == MobileHost[6];
      }
    }
    ContainsIff(s, "www.facebook.com");
  }

  /** No occurrence of "facebook.com" in `https://m.facebook.com/...` starts inside "https://m.". */
  lemma MobileHostSchemePart(rest: string)
    requires !Contains(rest, "facebook.com")
    ensures forall j :: 0 <= j < 10 ==> !IsPrefixAt("facebook.com", "https://m." + ("facebook.com/" + rest), j)
  {
    assert "https://m." + ("facebook.com/" + rest) == MobileHost + rest;
    forall j | 0 <= j < 10 ensures !IsPrefixAt("facebook.com", MobileHost + rest, j) {
      MobileHostOccurrence(rest, j);
    }
  }

  /** Replacing "facebook.com" in `facebook.com/...` rewrites only the leading host. */
  lemma HostFirstReplace(rest: string)
    requires !Contains(rest, "facebook.com")
    ensures Replace("facebook.com/" + rest, "facebook.com", "m.facebook.com") == "m.facebook.com/" + rest
  {
    var a, b := "facebook.com", "m.facebook.com";
    MobileSpelling();
    AppendAssoc(a, "/", rest);
    ReplaceLeading(a, b, "/" + rest);
    assert ("/" + rest)[0] == '/';
    assert !IsPrefixAt(a, "/" + rest, 0) by {
      if |a| <= |"/" + rest| {
        assert ("/" + rest)[0..|a|][0] == '/';
      }
    }
    ReplaceConcat("/", rest, a, b);
    ReplaceAbsent(rest, a, b);
    AppendAssoc(b, "/", rest);
  }

  /** Replacing "facebook.com" in `https://m.facebook.com/...` touches only the host. */
  lemma MobileHostReplace(rest: string)
    requires !Contains(rest, "facebook.com")
    ensures Replace("https://m.facebook.com/" + rest, "facebook.com", "m.facebook.com")
      == "https://m.m.facebook.com/" + rest
  {
    var p, q := "https://m.", "facebook.com/" + rest;
    MobileSpelling();
    AppendAssoc(p, "facebook.com/", rest);
    AppendAssoc(p, "m.facebook.com/", rest);
    MobileHostSchemePart(rest);
    ReplaceConcat(p, q, "facebook.com", "m.facebook.com");
    HostFirstReplace(rest);
  }

  /** The mobile hosts spelled as "https://m." and the rest of the host. */
  lemma MobileSpelling()
    ensures "https://m." + "facebook.com/" == "https://m.facebook.com/"
    ensures "https://m." + "m.facebook.com/" == "https://m.m.facebook.com/"
    ensures "facebook.com" + "/" == "facebook.com/" && "m.facebook.com" + "/" == "m.facebook.com/"
  {
  }

  /** A URL already on m.facebook.com gains a second "m.": it becomes m.m.facebook.com. */
  lemma MobileUrlOfMobileHost(rest: string)
    requires !Contains(rest, "facebook.com")
    ensures MobileUrl("https://m.facebook.com/" + rest) == "https://m.m.facebook.com/" + rest
  {
    MobileHostHasNoWww(rest);
    MobileUrlCases("https://m.facebook.com/" + rest);
    MobileHostReplace(rest);
  }

  /** The last-resort command: plain "best" format, no certificate check, the mobile URL. */
  function BasicCommand(tools: Tools, dir: string, mobileUrl: string): (cmd: seq<string>)
    ensures |cmd| == 13 && cmd[0] == tools.ytdlp && cmd[12] == mobileUrl
    ensures cmd[4] == "-f" && cmd[5] == "best" && cmd[9] == "--no-check-certificate"
    ensures EndsWith(cmd[7], IdTemplate)
  {
    BasicArgs(tools.ytdlp, tools.FfmpegDir(), JoinPath(dir, IdTemplate), mobileUrl)
  }

  /** The fourth command's list, its computed parts passed in. */
  function BasicArgs(ytdlp: string, ffmpegDir: string, output: string, url: string): (cmd: seq<string>)
    ensures |cmd| == 13 && cmd[0] == ytdlp && cmd[3] == ffmpegDir && cmd[12] == url
    ensures cmd[4] == "-f" && cmd[5] == "best" && cmd[6] == "-o" && cmd[7] == output && cmd[9] == "--no-check-certificate"
  {
    [ytdlp, "--no-warnings", "--ffmpeg-location", ffmpegDir,
     "-f", "best", "-o", output,
     "--no-write-info-json", "--no-check-certificate", "--no-playlist", "--geo-bypass",
     url]
  }

  /**
   * The four commands in the order they are tried. The third one reuses the
   * list of the first, which never received the cookie flags (they went into
   * a copy), with its last element, the URL, replaced by the mobile URL.
   */
  function Stages(url: string, quality: string, tools: Tools, dir: string): (stages: seq<seq<string>>)
    ensures |stages| == 4 && |stages[0]| == 14 && stages[0][13] == url
    ensures stages[1] == stages[0][..13] + ["--cookies-from-browser", "chrome", url]
    ensures |stages[2]| == 14 && stages[2][..13] == stages[0][..13] && stages[2][13] == MobileUrl(url)
    ensures stages[3] == BasicCommand(tools, dir, MobileUrl(url))
  {
    var primary := PrimaryCommand(url, quality, tools, dir);
    var mobile := MobileUrl(url);
    StageList(primary, url, mobile, BasicCommand(tools, dir, mobile))
  }

  /** The four commands built from the primary one, the mobile URL and the last-resort command. */
  function StageList(primary: seq<string>, url: string, mobile: string, basic: seq<string>): (stages: seq<seq<string>>)
    requires |primary| == 14 && primary[13] == url
    ensures |stages| == 4 && stages[0] == primary
    ensures stages[1] == primary[..13] + ["--cookies-from-browser", "chrome", url]
    ensures |stages[2]| == 14 && stages[2][..13] == primary[..13] && stages[2][13] == mobile
    ensures stages[3] == basic
  {
    InsertTwiceBeforeLast(primary, "--cookies-from-browser", "chrome");
    [primary, CookieCommand(primary), SetLast(primary, mobile), basic]
  }

  /**
   * `download_facebook_video`: nothing runs for an invalid URL; otherwise the
   * stages run in order until one exits zero (True), one raises (False) or all
   * four exit non-zero (False). Subprocess n's outcome is `run(n)`.
   */
  function Download(url: string, quality: string, tools: Tools, dir: string, run: Oracle): (t: Trace)
    ensures !IsValidUrl(url) ==> t.commands == [] && !t.ok
    ensures IsValidUrl(url) ==> 1 <= |t.commands| <= 4
    ensures t.commands == Stages(url, quality, tools, dir)[..|t.commands|]
    ensures t.ok ==> Succeeded(run(|t.commands| - 1))
    ensures forall k :: 0 <= k < |t.commands| - 1 ==> FailedExit(run(k))
  {
    if !IsValidUrl(url) then Trace([], false)
    else RunStages(Stages(url, quality, tools, dir), run, 0)
  }

  /**
   * A valid URL's download succeeds exactly when some stage exits zero after
   * every earlier stage exited non-zero.
   */
  lemma DownloadSucceedsIff(url: string, quality: string, tools: Tools, dir: string, run: Oracle)
    requires IsValidUrl(url)
    ensures Download(url, quality, tools, dir, run).ok <==>
      exists k :: 0 <= k < 4 && Succeeded(run(k)) && forall m :: 0 <= m < k ==> FailedExit(run(m))
  {
    DownloadRunsStages(url, quality, tools, dir, run);
    FourStagesIff(Stages(url, quality, tools, dir), run);
  }

  lemma DownloadRunsStages(url: string, quality: string, tools: Tools, dir: string, run: Oracle)
    requires IsValidUrl(url)
    ensures Download(url, quality, tools, dir, run) == RunStages(Stages(url, quality, tools, dir), run, 0)
  {
  }

  lemma FourStagesIff(stages: seq<seq<string>>, run: Oracle)
    requires |stages| == 4
    ensures RunStages(stages, run, 0).ok <==>
      exists k :: 0 <= k < 4 && Succeeded(run(k)) && forall m :: 0 <= m < k ==> FailedExit(run(m))
  {
    RunStagesSucceedsIff(stages, run, 0);
  }

  /** When no subprocess raises, failure means all four stages ran and all four exited non-zero. */
  lemma DownloadFailsOnlyWhenExhausted(url: string, quality: string, tools: Tools, dir: string, run: Oracle)
    requires IsValidUrl(url)
    requires forall k :: 0 <= k < 4 ==> run(k).Exited?
    ensures !Download(url, quality, tools, dir, run).ok <==> forall k :: 0 <= k < 4 ==> FailedExit(run(k))
  {
    DownloadRunsStages(url, quality, tools, dir, run);
    RunStagesFailsIffExhausted(Stages(url, quality, tools, dir), run, 0);
  }

  /**
   * An exception while running stage k, after every earlier stage exited
   * non-zero, ends the download with False; no later stage runs.
   */
  lemma DownloadStopsOnException(url: string, quality: string, tools: Tools, dir: string, run: Oracle, k: nat)
    requires IsValidUrl(url)
    requires k < 4 && run(k).Raised?
    requires forall m :: 0 <= m < k ==> FailedExit(run(m))
    ensures var t := Download(url, quality, tools, dir, run); !t.ok && |t.commands| == k + 1
  {
    DownloadRunsStages(url, quality, tools, dir, run);
    RunStagesStopsOnRaise(Stages(url, quality, tools, dir), run, 0, k);
  }
}
