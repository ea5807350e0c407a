/**
 * The Selenium YouTube downloader's `download_youtube_video`: the checks
 * before the browser starts, the output file name, the three download
 * methods tried in order (yt-dlp, the browser's own download, yt-dlp URL
 * extraction) and the message each path returns. The browser, the
 * subprocesses, the disk and the clock are parameters.
 */
module YouTubeSelenium {
  import opened Wrappers
  import opened PyStr
  import opened Process
  import opened Listing
  import opened PyUrl
  import opened SeleniumUrl

  const NoVideoId := "Error: Could not extract video ID from URL."
  const NoWebdriver := "Error: Could not download webdriver."
  const AllFailed := "Error: " + "Could not download the video using any method. Please try the simple version instead."

  /** The message of the `TypeError` that `os.path.join(None, name)` raises. */
  const NoneJoin := "expected str, bytes or os.PathLike object, not NoneType"

  /** What the ID check at the top of `download_youtube_video` decides. */
  datatype IdCheck = Proceed(id: string) | Stop(message: string)

  /**
   * `video_id = extract_video_id(url)` and `if not video_id`: the exception
   * of `urlparse` is caught by the outer handler; a missing or empty ID
   * stops the download.
   */
  function Identify(url: string, lib: UrlLib): (c: IdCheck)
    ensures c.Proceed? ==> ExtractVideoId(url, lib) == Found(c.id) && c.id != []
    ensures c.Stop? && ExtractVideoId(url, lib).Raised? ==> c.message == "Error: " + ExtractVideoId(url, lib).message
    ensures c.Stop? && !ExtractVideoId(url, lib).Raised? ==> c.message == NoVideoId
  {
    match ExtractVideoId(url, lib)
    case Raised(m) => Stop("Error: " + m)
    case NotFound => Stop(NoVideoId)
    case Found(id) => if id == [] then Stop(NoVideoId) else Proceed(id)
  }

  /**
   * A validator that agrees with the download: it accepts exactly the URLs
   * whose extracted ID is non-empty, and raises where `urlparse` does.
   */
  function ValidateNonEmpty(url: string, lib: UrlLib): (v: Option<bool>)
    ensures v.None? <==> ExtractVideoId(url, lib).Raised?
    ensures v == Some(true) <==> ExtractVideoId(url, lib).Found? && ExtractVideoId(url, lib).id != []
  {
    match ExtractVideoId(url, lib)
    case Raised(_) => None
    case Found(id) => Some(id != [])
    case NotFound => Some(false)
  }

  /** The corrected validator accepts a URL exactly when the download gets past its ID check. */
  lemma ValidateNonEmptyAgrees(url: string, lib: UrlLib)
    ensures ValidateNonEmpty(url, lib) == Some(true) <==> Identify(url, lib).Proceed?
  {
  }

  /**
   * `validate_youtube_url` accepts the youtu.be link with nothing after the
   * slash, but the download refuses it with the no-ID error; the corrected
   * validator refuses it too.
   */
  lemma ValidatorDisagrees(lib: UrlLib)
    ensures Validate(EmptyShortLinkUrl, lib) == Some(true)
    ensures Identify(EmptyShortLinkUrl, lib) == Stop(NoVideoId)
    ensures ValidateNonEmpty(EmptyShortLinkUrl, lib) == Some(false)
  {
    EmptyShortLink(lib);
  }

  /** The page's stripped heading, or a name made from the ID when none was found. */
  function Title(heading: Option<string>, id: string): (t: string)
    ensures heading.Some? ==> t == Strip(heading.value)
    ensures heading.None? ==> EndsWith(t, id)
  {
    match heading
    case Some(h) => Strip(h)
    case None => "YouTube_Video_" + id
  }

  /** The nine characters the title's `re.sub` replaces: backslash, slash, `*?:"<>|`. */
  predicate IsForbidden(c: char) {
    c == '\\' || c == '/' || c == '*' || c == '?' || c == ':' || c == '"' || c == '<' || c == '>' || c == '|'
  }

  /** The title with each of those characters replaced by '_'. */
  function SafeTitle(t: string): (r: string)
    ensures |r| == |t|
    ensures forall k :: 0 <= k < |r| ==> !IsForbidden(r[k])
    ensures forall k :: 0 <= k < |t| && !IsForbidden(t[k]) ==> r[k] == t[k]
    ensures forall k :: 0 <= k < |t| && IsForbidden(t[k]) ==> r[k] == '_'
  {
    seq(|t|, k requires 0 <= k < |t| => if IsForbidden(t[k]) then '_' else t[k])
  }

  /** A title without forbidden characters is kept as it is. */
  lemma SafeTitleKeepsClean(t: string)
    requires forall k :: 0 <= k < |t| ==> !IsForbidden(t[k])
    ensures SafeTitle(t) == t
  {
  }

  /** Making a title safe twice is making it safe once. */
  lemma SafeTitleIdempotent(t: string)
    ensures SafeTitle(SafeTitle(t)) == SafeTitle(t)
  {
    SafeTitleKeepsClean(SafeTitle(t));
  }

  /** `f"{safe_title}_{timestamp}.mp4"` */
  function FileName(title: string, timestamp: string): (n: string)
    ensures n == SafeTitle(title) + "_" + timestamp + ".mp4"
    ensures n != [] && n[0] != '/'
  {
    var s := SafeTitle(title);
    assert s != [] ==> !IsForbidden(s[0]);
    s + "_" + timestamp + ".mp4"
  }

  /** `os.path.join(output_path, name)`: the name never starts with '/', so it lands inside the directory. */
  function OutputFile(outputPath: string, title: string, timestamp: string): (f: string)
    ensures StartsWith(f, outputPath) && EndsWith(f, FileName(title, timestamp))
    ensures outputPath == [] ==> f == FileName(title, timestamp)
  {
    JoinPath(outputPath, FileName(title, timestamp))
  }

  /** The three download methods, in the order they are tried. */
  datatype Method = WithYtDlp | ViaBrowser | WithUrlExtraction

  const MethodOrder: seq<Method> := [WithYtDlp, ViaBrowser, WithUrlExtraction]

  /** How the success message names the method. */
  function MethodText(m: Method): string {
    match m
    case WithYtDlp => "with yt-dlp"
    case ViaBrowser => "via browser"
    case WithUrlExtraction => "with URL extraction"
  }

  const SuccessLead := "Success: Video downloaded successfully "

  /** The success message: method, title, saved path and the size in MB to two places. */
  function SuccessText(m: Method, title: string, file: string, size: string): string {
    SuccessLead + (MethodText(m) + "!\nTitle: " + title + "\nSaved to: " + file + "\nFile size: " + size + " MB")
  }

  /** The selector of the first method: merged mp4 and m4a, else the best mp4 file, else the best file. */
  const Selector := "bestvideo[ext=mp4]+bestaudio[ext=m4a]/best[ext=mp4]/best"

  /** yt-dlp writing straight to the output file. */
  function YtDlpCommand(ytdlp: string, file: string, url: string): (cmd: seq<string>)
    ensures |cmd| == 8 && cmd[0] == ytdlp && cmd[4] == file && cmd[7] == url
    ensures cmd[1..4] == ["-f", Selector, "-o"]
  {
    [ytdlp, "-f", Selector, "-o", file, "--merge-output-format", "mp4", url]
  }

  /** yt-dlp printing the media URL instead of downloading. */
  function ExtractCommand(ytdlp: string, url: string): (cmd: seq<string>)
    ensures cmd == [ytdlp] + ["-g"] + [url]
  {
    [ytdlp, "-g", url]
  }

  /** What the page script returned: a falsy or failed result, success, or an exception from the driver. */
  datatype Script = ScriptFailed | ScriptSucceeded | ScriptRaised(message: string)

  /**
   * Everything the download meets from outside: the webdriver path (or its
   * absence), an exception starting Chrome, the page heading, the
   * timestamp, whether yt-dlp.exe is there (or was fetched), the first
   * command's outcome, which paths exist afterwards, the page script, the
   * Downloads listing with the time it is read, an exception from moving
   * the found file, the URL extraction command's outcome, an exception from
   * fetching that URL, and the formatted size of a file.
   */
  datatype Env = Env(
    webdriver: Option<string>, startError: Option<string>, heading: Option<string>, timestamp: string,
    ytdlpReady: bool, first: RunResult, pathExists: string -> bool,
    script: Script, downloads: Dir, now: real, moveError: Option<string>,
    extraction: RunResult, fetchError: Option<string>, sizeText: string -> string)

  /** A recently written mp4 in the Downloads listing, as the `for ... break` loop finds it. */
  function BrowserFile(env: Env): Option<nat> {
    if env.downloads.Listed? then FirstWanted(env.downloads.entries, ".mp4", env.now, 60.0) else None
  }

  /** Whether a method delivers the file, given what it meets. */
  predicate Works(m: Method, file: string, env: Env) {
    match m
    case WithYtDlp => env.ytdlpReady && Succeeded(env.first) && env.pathExists(file)
    case ViaBrowser => env.script.ScriptSucceeded? && BrowserFile(env).Some? && env.moveError.None?
    case WithUrlExtraction => Succeeded(env.extraction) && env.fetchError.None?
  }

  /**
   * The browser method ends the whole download with an error when the
   * script raises, the listing fails or the move fails: none of these is
   * inside a handler of its own.
   */
  function BrowserError(env: Env): Option<string> {
    match env.script
    case ScriptRaised(m) => Some(m)
    case ScriptFailed => None
    case ScriptSucceeded =>
      match env.downloads
      case ListFailed(m) => Some(m)
      case Listed(_) => if BrowserFile(env).Some? then env.moveError else None
  }

  /** The methods reached, the commands started, and the message returned. */
  datatype Attempt = Attempt(tried: seq<Method>, commands: seq<seq<string>>, message: string)

  /** The three methods in order, from the output file on. */
  function Methods(url: string, ytdlp: string, title: string, file: string, env: Env): (a: Attempt)
    ensures 0 < |a.tried| <= 3 && a.tried == MethodOrder[..|a.tried|]
  {
    var first := if env.ytdlpReady then [YtDlpCommand(ytdlp, file, url)] else [];
    if Works(WithYtDlp, file, env) then
      Attempt([WithYtDlp], first, SuccessText(WithYtDlp, title, file, env.sizeText(file)))
    else if BrowserError(env).Some? then
      Attempt([WithYtDlp, ViaBrowser], first, "Error: " + BrowserError(env).value)
    else if Works(ViaBrowser, file, env) then
      Attempt([WithYtDlp, ViaBrowser], first, SuccessText(ViaBrowser, title, file, env.sizeText(file)))
    else
      var all := first + [ExtractCommand(ytdlp, url)];
      if Works(WithUrlExtraction, file, env) then
        Attempt(MethodOrder, all, SuccessText(WithUrlExtraction, title, file, env.sizeText(file)))
      else Attempt(MethodOrder, all, AllFailed)
  }

  /**
   * `download_youtube_video` of the Selenium downloader. `ytdlp` is the
   * yt-dlp.exe next to the script.
   */
  function Download(url: string, outputPath: Option<string>, ytdlp: string, lib: UrlLib, env: Env): (a: Attempt)
    ensures |a.tried| <= 3 && a.tried == MethodOrder[..|a.tried|]
    ensures Identify(url, lib).Stop? ==> a == Attempt([], [], Identify(url, lib).message)
    ensures a.tried != [] <==> Identify(url, lib).Proceed? && env.webdriver.Some? && env.startError.None? && outputPath.Some?
  {
    match Identify(url, lib)
    case Stop(m) => Attempt([], [], m)
    case Proceed(id) =>
      if env.webdriver.None? then Attempt([], [], NoWebdriver)
      else if env.startError.Some? then Attempt([], [], "Error: " + env.startError.value)
      else if outputPath.None? then Attempt([], [], "Error: " + NoneJoin)
      else
        var title := Title(env.heading, id);
        Methods(url, ytdlp, title, OutputFile(outputPath.value, title, env.timestamp), env)
  }

  /** The title and output file a download that reached the methods works with. */
  function FileFor(url: string, outputPath: Option<string>, lib: UrlLib, env: Env): (f: (string, string))
    requires Identify(url, lib).Proceed? && outputPath.Some?
    ensures EndsWith(f.1, FileName(f.0, env.timestamp))
  {
    var title := Title(env.heading, Identify(url, lib).id);
    (title, OutputFile(outputPath.value, title, env.timestamp))
  }

  /** A method is reached only after every earlier one failed to deliver, and without an error from the browser. */
  lemma EarlierMethodsFailed(url: string, ytdlp: string, title: string, file: string, env: Env)
    ensures var a := Methods(url, ytdlp, title, file, env);
      && (forall k :: 0 <= k < |a.tried| - 1 ==> !Works(a.tried[k], file, env))
      && (|a.tried| == 3 ==> BrowserError(env).None?)
  {
  }

  /** The message names the last method reached exactly when that method delivered. */
  lemma MethodsSuccessIff(url: string, ytdlp: string, title: string, file: string, env: Env)
    ensures var a := Methods(url, ytdlp, title, file, env);
      var last := a.tried[|a.tried| - 1];
      a.message == SuccessText(last, title, file, env.sizeText(file)) <==> Works(last, file, env)
  {
    var a := Methods(url, ytdlp, title, file, env);
    var last := a.tried[|a.tried| - 1];
    var s := SuccessText(last, title, file, env.sizeText(file));
    SuccessNotError(last, title, file, env.sizeText(file));
    if BrowserError(env).Some? {
      assert ("Error: " + BrowserError(env).value)[0] == 'E';
    }
  }

  /**
   * URL extraction is reached exactly when neither earlier method delivered
   * and the browser raised nothing; the all-failed message then means it
   * failed too.
   */
  lemma MethodsAllFailedIff(url: string, ytdlp: string, title: string, file: string, env: Env)
    ensures var a := Methods(url, ytdlp, title, file, env);
      && (|a.tried| == 3 <==> BrowserError(env).None? && !Works(WithYtDlp, file, env) && !Works(ViaBrowser, file, env))
      && (|a.tried| == 3 ==> (a.message == AllFailed <==> !Works(WithUrlExtraction, file, env)))
  {
    SuccessNotError(WithUrlExtraction, title, file, env.sizeText(file));
  }

  /** yt-dlp is started first, only when its executable is there; URL extraction is started only when reached. */
  lemma MethodsCommands(url: string, ytdlp: string, title: string, file: string, env: Env)
    ensures var a := Methods(url, ytdlp, title, file, env);
      a.commands == (if env.ytdlpReady then [YtDlpCommand(ytdlp, file, url)] else [])
        + (if |a.tried| == 3 then [ExtractCommand(ytdlp, url)] else [])
  {
  }

  /** A success message starts with "Success:", so it is none of the errors, which start with 'E'. */
  lemma SuccessNotError(m: Method, title: string, file: string, size: string)
    ensures StartsWith(SuccessText(m, title, file, size), "Success:")
    ensures SuccessText(m, title, file, size)[0] == 'S'
    ensures SuccessText(m, title, file, size) != AllFailed
  {
    var s := SuccessText(m, title, file, size);
    assert SuccessLead[..8] == "Success:";
    assert s[..8] == SuccessLead[..8];
    assert s[0] == s[..8][0] == 'S';
    assert AllFailed[0] == 'E';
  }

  /**
   * The whole number of `d`s in `n`, counted by repeated subtraction. For
   * the non-negative byte counts the progress hook sees, Python's `int()`
   * of the exact quotient is this number.
   */
  function Quot(n: nat, d: nat): nat
    requires d > 0
    decreases n
  {
    if n < d then 0 else 1 + Quot(n - d, d)
  }

  /** More dividend, no smaller quotient. */
  lemma {:induction false} QuotMonotone(a: nat, b: nat, d: nat)
    requires a <= b && d > 0
    ensures Quot(a, d) <= Quot(b, d)
    decreases b
  {
    if a >= d {
      QuotMonotone(a - d, b - d, d);
    }
  }

  /** `m` divisors hold exactly `m` divisors. */
  lemma {:induction false} QuotOfMultiple(m: nat, d: nat)
    requires d > 0
    ensures Quot(m * d, d) == m
    decreases m
  {
    if m > 0 {
      assert m * d - d == (m - 1) * d;
      QuotOfMultiple(m - 1, d);
    }
  }

  /** Less than `m` divisors hold fewer than `m`. */
  lemma {:induction false} QuotBelow(n: nat, d: nat, m: nat)
    requires d > 0 && n < m * d
    ensures Quot(n, d) < m
    decreases m
  {
    if n >= d {
      assert n - d < (m - 1) * d;
      QuotBelow(n - d, d, m - 1);
    }
  }

  /**
   * The percentage `report_progress` shows after `done` bytes (the block
   * number times the block size) of `total`: `min(100, int(done * 100 /
   * total))`, and nothing at all when the total is not positive.
   */
  function ProgressOf(done: nat, total: int): (p: Option<nat>)
    ensures p.Some? <==> total > 0
    ensures p.Some? ==> p.value <= 100
  {
    if total > 0 then Some(if Quot(done * 100, total) < 100 then Quot(done * 100, total) else 100) else None
  }

  /** `report_progress(block_num, block_size, total_size)` */
  function Progress(blockNum: nat, blockSize: nat, totalSize: int): Option<nat> {
    ProgressOf(blockNum * blockSize, totalSize)
  }

  /** Once all the bytes are in, the percentage is 100. */
  lemma ProgressComplete(done: nat, total: int)
    requires total > 0 && done >= total
    ensures ProgressOf(done, total) == Some(100)
  {
    QuotOfMultiple(100, total);
    QuotMonotone(100 * total, done * 100, total);
  }

  /** Before every byte is in, the percentage is below 100. */
  lemma ProgressPartial(done: nat, total: int)
    requires total > 0 && done < total
    ensures ProgressOf(done, total).value < 100
  {
    QuotBelow(done * 100, total, 100);
  }

  /** The percentage never falls as more bytes arrive. */
  lemma ProgressMonotone(done1: nat, done2: nat, total: int)
    requires done1 <= done2 && total > 0
    ensures ProgressOf(done1, total).value <= ProgressOf(done2, total).value
  {
    QuotMonotone(done1 * 100, done2 * 100, total);
  }
}
