/**
 * The alternative YouTube downloader: where it finds yt-dlp, its fixed
 * command line and the message `download_youtube_video` returns.
 */
module YouTubeAlt {
  import opened Wrappers
  import opened PyStr
  import opened Process
  import opened Report

  /**
   * `yt-dlp --version` run through `check_call`: it exits zero, exits
   * non-zero, is not installed, or fails to start for another reason
   * (which `check_command_exists` does not catch).
   */
  datatype VersionCheck = Runs | ExitsNonZero | NotInstalled | CheckRaised(message: string)

  /** Downloading the executable: it works, fails with a `URLError`, or raises something else. */
  datatype Fetch = Fetched | NetworkError(message: string) | FetchRaised(message: string)

  /**
   * How `get_yt_dlp_path` ends: with a path to run, with the program
   * exiting (status 1, which `except Exception` does not stop), or with an
   * exception that reaches the caller.
   */
  datatype Lookup = Use(path: string) | ExitProgram(status: int) | LookupRaised(message: string)

  /** The bare name, found through PATH. */
  const OnPath := "yt-dlp"

  /**
   * `get_yt_dlp_path`: "yt-dlp" from PATH when it runs; else the local copy
   * if it exists; else the downloaded local copy. `local` is the path of
   * yt-dlp.exe next to the script.
   */
  function Locate(check: VersionCheck, localExists: bool, local: string, fetch: Fetch): (l: Lookup)
    ensures check.Runs? ==> l == Use(OnPath)
    ensures check.CheckRaised? ==> l == LookupRaised(check.message)
    ensures l.ExitProgram? ==> l.status == 1
  {
    match check
    case Runs => Use(OnPath)
    case CheckRaised(m) => LookupRaised(m)
    case _ =>
      if localExists then Use(local)
      else match fetch
        case Fetched => Use(local)
        case NetworkError(_) => ExitProgram(1)
        case FetchRaised(m) => LookupRaised(m)
  }

  /** A download is attempted only when yt-dlp did not run from PATH and no local copy exists. */
  predicate Fetches(check: VersionCheck, localExists: bool) {
    (check.ExitsNonZero? || check.NotInstalled?) && !localExists
  }

  /**
   * The lookup order: whenever the lookup consults the download (its outcome
   * matters), PATH and the local copy have both come up empty; and a local
   * copy, once it exists, is used without downloading.
   */
  lemma LocateOrder(check: VersionCheck, localExists: bool, local: string, f1: Fetch, f2: Fetch)
    ensures Locate(check, localExists, local, f1) != Locate(check, localExists, local, f2) ==> Fetches(check, localExists)
    ensures (check.ExitsNonZero? || check.NotInstalled?) && localExists ==> Locate(check, localExists, local, f1) == Use(local)
  {
  }

  /** The lookup uses a binary exactly when the version check runs, or a local copy exists or is fetched. */
  lemma LocateUsesIff(check: VersionCheck, localExists: bool, local: string, fetch: Fetch)
    ensures Locate(check, localExists, local, fetch).Use? <==>
      check.Runs? || (!check.CheckRaised? && (localExists || fetch.Fetched?))
  {
  }

  /** The one selector used: merged mp4 and m4a, else the best mp4 file, else the best file. */
  const Selector := "bestvideo[ext=mp4]+bestaudio[ext=m4a]/best[ext=mp4]/best"

  const Template := "%(title)s.%(ext)s"

  /** Binary, URL, the fixed selector, `-o` template, no playlists, mp4 merge. */
  function Command(ytdlp: string, url: string, template: string): (cmd: seq<string>)
    ensures |cmd| == 9 && cmd[0] == ytdlp && cmd[1] == url
    ensures cmd[2] == "-f" && cmd[3] == Selector && cmd[4] == "-o" && cmd[5] == template
  {
    [ytdlp, url, "-f", Selector, "-o", template, "--no-playlist", "--merge-output-format", "mp4"]
  }

  /** The newest file of the directory is reported whatever its extension. */
  predicate AnyName(name: string) {
    true
  }

  /** A call either returns a message or ends the program. */
  datatype Ending = Returned(session: Session) | Exit(status: int)

  /**
   * `download_youtube_video` of the alternative downloader: the lookup's
   * exception becomes the message and its exit ends the program; otherwise
   * the command runs with the binary found and its outcome decides the
   * message.
   */
  function Download(url: string, outputPath: string, lookup: Lookup, result: RunResult, disk: Disk): (e: Ending)
    ensures lookup.ExitProgram? <==> e.Exit?
    ensures lookup.LookupRaised? ==> e == Returned(Session(None, "Error: " + lookup.message))
    ensures lookup.Use? ==> e.Returned? && e.session.ran == Some(Command(lookup.path, url, OutputTemplate(outputPath, Template)))
  {
    match lookup
    case ExitProgram(status) => Exit(status)
    case LookupRaised(m) => Returned(Session(None, "Error: " + m))
    case Use(ytdlp) =>
      Returned(Session(Some(Command(ytdlp, url, OutputTemplate(outputPath, Template))),
                       Outcome(result, outputPath, AnyName, disk, _ => "")))
  }

  /**
   * Unless the program exits, a message is returned, and it reports success
   * exactly when a binary was found, the command exited zero and no needed
   * listing failed.
   */
  lemma DownloadSuccessIff(url: string, outputPath: string, lookup: Lookup, result: RunResult, disk: Disk)
    requires !lookup.ExitProgram?
    ensures Download(url, outputPath, lookup, result, disk).Returned?
    ensures StartsWith(Download(url, outputPath, lookup, result, disk).session.message, "Success:") <==>
      lookup.Use? && Succeeded(result) && (outputPath == [] || !FindSaved(result.stdout, outputPath, AnyName, disk).ListingError?)
  {
    OutcomeSuccessIff(result, outputPath, AnyName, disk, _ => "");
    var msg := Download(url, outputPath, lookup, result, disk).session.message;
    if lookup.LookupRaised? {
      assert msg[0] == 'E';
      assert !StartsWith(msg, "Success:") by {
        if |msg| >= 8 { assert msg[..8][0] == msg[0]; }
      }
    }
  }

  /** A non-zero exit of the command is reported with its stripped stderr, or "Unknown error". */
  lemma FailedExitReported(url: string, outputPath: string, lookup: Lookup, result: RunResult, disk: Disk)
    requires lookup.Use? && FailedExit(result)
    ensures Download(url, outputPath, lookup, result, disk) ==
      Returned(Session(Some(Command(lookup.path, url, OutputTemplate(outputPath, Template))), ErrorText(result.stderr)))
  {
  }
}
