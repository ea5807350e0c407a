/**
 * The Twitter/X downloader: `validate_twitter_url`, the format choice, the
 * output template, the yt-dlp command line with its optional ffmpeg flag,
 * the message `download_twitter_video` returns, and the console quality menu.
 */
module Twitter {
  import opened Wrappers
  import opened Regex
  import opened UrlPatterns
  import opened PyStr
  import opened Process
  import opened Report
  import Quality

  /**
   * `https?://(?:sub)?host/\w+/status/\d+(?:\?.*)?`, the shape shared by the
   * four patterns, which differ only in the optional subdomain and the host.
   */
  function StatusPattern(sub: string, host: string): Re {
    Cat(HttpScheme, Cat(Opt(Lit(sub)), Cat(Lit(host + "/"), StatusPath)))
  }

  /** `\w+/status/\d+(?:\?.*)?` */
  const StatusPath: Re := Cat(Many(Word, 1), Cat(Lit("/status/"), Cat(Many(Digit, 1), OptQuery)))

  /** The four accepted shapes, each matched against the whole URL. */
  const Patterns: seq<Re> := [
    StatusPattern("www.", "twitter.com"),
    StatusPattern("www.", "x.com"),
    StatusPattern("mobile.", "twitter.com"),
    StatusPattern("mobile.", "x.com")
  ]

  /** `validate_twitter_url` */
  predicate IsValidUrl(db: UnicodeDb, url: string) {
    AnyMatchesWhole(db, Patterns, url)
  }

  /** A status URL assembled from its parts. */
  function StatusUrl(scheme: string, sub: string, host: string, user: string, id: string, query: string): string {
    scheme + (sub + ((host + "/") + (user + ("/status/" + (id + query)))))
  }

  /**
   * The parts of a status URL the patterns accept: http or https; no
   * subdomain, "www." or "mobile."; twitter.com or x.com; a user name of word
   * characters; a tweet number of decimal digits; and nothing more than an
   * optional "?" query without line breaks.
   */
  predicate StatusParts(db: UnicodeDb, scheme: string, sub: string, host: string, user: string, id: string, query: string) {
    && (scheme == "http://" || scheme == "https://")
    && (sub == "" || sub == "www." || sub == "mobile.")
    && (host == "twitter.com" || host == "x.com")
    && |user| > 0 && (forall k :: 0 <= k < |user| ==> InClass(db, Word, user[k]))
    && |id| > 0 && (forall k :: 0 <= k < |id| ==> InClass(db, Digit, id[k]))
    && IsAnyTail("?", query)
  }

  /** The user, tweet number and query part that follow the host. */
  lemma StatusPathAccepts(db: UnicodeDb, user: string, id: string, query: string)
    requires |user| > 0 && (forall k :: 0 <= k < |user| ==> InClass(db, Word, user[k]))
    requires |id| > 0 && (forall k :: 0 <= k < |id| ==> InClass(db, Digit, id[k]))
    requires IsAnyTail("?", query)
    ensures InLang(db, StatusPath, user + ("/status/" + (id + query)))
  {
    AnyTailLang(db, "?", query);
    CatIntro(db, Many(Digit, 1), OptQuery, id, query);
    CatIntro(db, Lit("/status/"), Cat(Many(Digit, 1), OptQuery), "/status/", id + query);
    CatIntro(db, Many(Word, 1), Cat(Lit("/status/"), Cat(Many(Digit, 1), OptQuery)), user, "/status/" + (id + query));
  }

  /** A scheme, an optional subdomain, the host and a status path match the pattern for that subdomain. */
  lemma StatusPatternAccepts(db: UnicodeDb, scheme: string, sub: string, s: string, host: string, path: string)
    requires scheme == "http://" || scheme == "https://"
    requires s == "" || s == sub
    requires InLang(db, StatusPath, path)
    ensures InLang(db, StatusPattern(sub, host), scheme + (s + ((host + "/") + path)))
  {
    HttpSchemeAccepts(db, scheme);
    CatIntro(db, Lit(host + "/"), StatusPath, host + "/", path);
    CatIntro(db, Opt(Lit(sub)), Cat(Lit(host + "/"), StatusPath), s, (host + "/") + path);
    CatIntro(db, HttpScheme, Cat(Opt(Lit(sub)), Cat(Lit(host + "/"), StatusPath)), scheme, s + ((host + "/") + path));
  }

  /** Every status URL built from accepted parts is accepted, and so is it with one trailing newline. */
  lemma StatusUrlAccepted(db: UnicodeDb, scheme: string, sub: string, host: string, user: string, id: string, query: string, nl: string)
    requires StatusParts(db, scheme, sub, host, user, id, query)
    requires nl == "" || nl == "\n"
    ensures IsValidUrl(db, StatusUrl(scheme, sub, host, user, id, query) + nl)
  {
    var path := user + ("/status/" + (id + query));
    StatusPathAccepts(db, user, id, query);
    var k := if sub == "mobile." then (if host == "twitter.com" then 2 else 3) else (if host == "twitter.com" then 0 else 1);
    var psub := if sub == "mobile." then "mobile." else "www.";
    assert Patterns[k] == StatusPattern(psub, host);
    StatusPatternAccepts(db, scheme, psub, sub, host, path);
    InLangPassesWhole(db, Patterns, k, StatusUrl(scheme, sub, host, user, id, query), nl);
  }

  /** Every string the status path matches splits into a user, a tweet number and a query part. */
  lemma StatusPathShape(db: UnicodeDb, t: string) returns (user: string, id: string, query: string)
    requires InLang(db, StatusPath, t)
    ensures |user| > 0 && (forall k :: 0 <= k < |user| ==> InClass(db, Word, user[k]))
    ensures |id| > 0 && (forall k :: 0 <= k < |id| ==> InClass(db, Digit, id[k]))
    ensures IsAnyTail("?", query)
    ensures t == user + ("/status/" + (id + query))
  {
    var k1 := CatSplit(db, Many(Word, 1), Cat(Lit("/status/"), Cat(Many(Digit, 1), OptQuery)), t);
    user := t[..k1];
    var v := LitThen(db, "/status/", Cat(Many(Digit, 1), OptQuery), t[k1..]);
    var k2 := CatSplit(db, Many(Digit, 1), OptQuery, v);
    id, query := v[..k2], v[k2..];
    AnyTailLang(db, "?", query);
  }

  /** Every string a status pattern matches is a status URL with accepted parts. */
  lemma StatusPatternShape(db: UnicodeDb, sub: string, host: string, t: string) returns (scheme: string, s: string, user: string, id: string, query: string)
    requires InLang(db, StatusPattern(sub, host), t)
    ensures scheme == "http://" || scheme == "https://"
    ensures s == "" || s == sub
    ensures |user| > 0 && (forall k :: 0 <= k < |user| ==> InClass(db, Word, user[k]))
    ensures |id| > 0 && (forall k :: 0 <= k < |id| ==> InClass(db, Digit, id[k]))
    ensures IsAnyTail("?", query)
    ensures t == StatusUrl(scheme, s, host, user, id, query)
  {
    var k := CatSplit(db, HttpScheme, Cat(Opt(Lit(sub)), Cat(Lit(host + "/"), StatusPath)), t);
    HttpSchemeOnly(db, t[..k]);
    scheme := t[..k];
    var w;
    s, w := OptLitThenLit(db, sub, host + "/", StatusPath, t[k..]);
    user, id, query := StatusPathShape(db, w);
    AppendAssoc(s, host + "/", w);
  }

  /** Each of the four patterns is the status pattern for one subdomain and one host. */
  lemma PatternAt(k: nat) returns (sub: string, host: string)
    requires k < |Patterns|
    ensures Patterns[k] == StatusPattern(sub, host)
    ensures (sub == "www." || sub == "mobile.") && (host == "twitter.com" || host == "x.com")
  {
    sub := if k < 2 then "www." else "mobile.";
    host := if k % 2 == 0 then "twitter.com" else "x.com";
  }

  /**
   * Every accepted URL is a status URL with accepted parts, possibly
   * followed by one newline (which Python's `$` lets through).
   */
  lemma ValidUrlShape(db: UnicodeDb, url: string) returns (scheme: string, sub: string, host: string, user: string, id: string, query: string, nl: string)
    requires IsValidUrl(db, url)
    ensures StatusParts(db, scheme, sub, host, user, id, query)
    ensures nl == "" || nl == "\n"
    ensures url == StatusUrl(scheme, sub, host, user, id, query) + nl
  {
    var k, t;
    k, t, nl := WholeMatchSplit(db, Patterns, url);
    var psub;
    psub, host := PatternAt(k);
    scheme, sub, user, id, query := StatusPatternShape(db, psub, host, t);
  }

  /** Only http and https URLs are accepted. */
  lemma ValidUrlIsHttp(db: UnicodeDb, url: string)
    requires IsValidUrl(db, url)
    ensures StartsWith(url, "http://") || StartsWith(url, "https://")
  {
    forall k | 0 <= k < |Patterns| ensures Patterns[k].Cat? && Patterns[k].first == HttpScheme {
      var sub, host := PatternAt(k);
    }
    WholeAcceptsOnlyHttp(db, Patterns, url);
  }

  /**
   * The format passed to `-f`: the ID the user typed when the video's
   * information was found and they chose to pick one; the quality name
   * itself otherwise.
   */
  function FormatChoice(quality: string, infoFound: bool, picked: Option<string>): (f: string)
    ensures infoFound && picked.Some? ==> f == picked.value
    ensures !infoFound || picked.None? ==> f == quality
  {
    if infoFound then
      match picked
      case Some(id) => id
      case None => quality
    else quality
  }

  const Template := "%(uploader)s_%(upload_date)s_%(id)s.%(ext)s"

  /** The arguments every Twitter download passes, before the optional ffmpeg flag. */
  function BaseCommand(ytdlp: string, url: string, format: string, template: string): (cmd: seq<string>)
    ensures |cmd| == 11 && cmd[0] == ytdlp && cmd[1] == url && cmd[3] == format && cmd[5] == template
  {
    [ytdlp, url, "-f", format, "-o", template,
     "--no-playlist", "--no-warnings", "--no-check-certificate", "--add-metadata", "--write-thumbnail"]
  }

  /** The download command: the base arguments, then `--ffmpeg-location` with ffmpeg's directory when ffmpeg was found. */
  function Command(ytdlp: string, ffmpeg: Option<string>, url: string, format: string, template: string): (cmd: seq<string>)
    ensures |cmd| == (if ffmpeg.Some? then 13 else 11) && cmd[..11] == BaseCommand(ytdlp, url, format, template)
    ensures ffmpeg.None? ==> cmd == BaseCommand(ytdlp, url, format, template)
    ensures ffmpeg.Some? ==> cmd[11..] == ["--ffmpeg-location", DirName(ffmpeg.value)]
  {
    var base := BaseCommand(ytdlp, url, format, template);
    match ffmpeg
    case None => base
    case Some(path) => base + ["--ffmpeg-location", DirName(path)]
  }

  /** The newest file is reported only if it is a video: its name ends in ".mp4" or ".webm". */
  predicate IsVideoName(name: string) {
    EndsWith(name, ".mp4") || EndsWith(name, ".webm")
  }

  /**
   * What one Twitter download sees from outside: whether the video's
   * information was found, how the `-F` format listing went, the format ID
   * the user typed (if they chose to), how the download went, and the disk.
   */
  datatype Env = Env(infoFound: bool, listing: RunResult, picked: Option<string>, result: RunResult, disk: Disk)

  /**
   * `download_twitter_video`. When the video's information was found the
   * format listing runs first, and if it fails to start the message is the
   * error and nothing is downloaded. Otherwise the download command runs
   * and its outcome decides the message.
   */
  function Download(url: string, outputPath: string, quality: string, ytdlp: string, ffmpeg: Option<string>, env: Env): (r: Session)
    ensures r.ran.None? <==> env.infoFound && env.listing.Raised?
    ensures r.ran.None? ==> r.message == "Error: " + env.listing.message
    ensures r.ran.Some? ==>
      && r.ran.value == Command(ytdlp, ffmpeg, url, FormatChoice(quality, env.infoFound, env.picked), OutputTemplate(outputPath, Template))
      && r.message == Outcome(env.result, outputPath, IsVideoName, env.disk, _ => "")
  {
    if env.infoFound && env.listing.Raised? then Session(None, "Error: " + env.listing.message)
    else
      var cmd := Command(ytdlp, ffmpeg, url, FormatChoice(quality, env.infoFound, env.picked), OutputTemplate(outputPath, Template));
      Session(Some(cmd), Outcome(env.result, outputPath, IsVideoName, env.disk, _ => ""))
  }

  /** The message reports success exactly when the download ran, exited zero, and no needed listing failed. */
  lemma DownloadSuccessIff(url: string, outputPath: string, quality: string, ytdlp: string, ffmpeg: Option<string>, env: Env)
    ensures var r := Download(url, outputPath, quality, ytdlp, ffmpeg, env);
      StartsWith(r.message, "Success:") <==>
        && r.ran.Some?
        && Succeeded(env.result)
        && (outputPath == [] || !FindSaved(env.result.stdout, outputPath, IsVideoName, env.disk).ListingError?)
  {
    OutcomeSuccessIff(env.result, outputPath, IsVideoName, env.disk, _ => "");
    var msg := Download(url, outputPath, quality, ytdlp, ffmpeg, env).message;
    if env.infoFound && env.listing.Raised? {
      assert msg[0] == 'E';
      assert !StartsWith(msg, "Success:") by {
        if |msg| >= 8 { assert msg[..8][0] == msg[0]; }
      }
    }
  }

  /** The console menu: "2" is medium, "3" is worst, anything else is best. */
  lemma MenuMatches(choice: string)
    ensures Quality.MenuQuality(choice) == (if choice == "2" then "medium" else if choice == "3" then "worst" else "best")
  {
  }
}
