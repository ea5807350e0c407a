/**
 * The high-quality YouTube downloader: the format choice, the yt-dlp
 * command line and the message `download_youtube_video` returns.
 */
module YouTubeHq {
  import opened Wrappers
  import opened PyStr
  import opened Process
  import opened Report

  /** Best mp4 video plus best m4a audio, merged; then any best pair; then the best single file. */
  const MergeSelector := "bestvideo[ext=mp4]+bestaudio[ext=m4a]/bestvideo+bestaudio/best"

  /**
   * The format passed to `-f`. With the video's information at hand the
   * user may type a format ID; if they do not, `force` picks the merge
   * selector and its absence plain "best". Without the information the
   * merge selector is used and nobody is asked.
   */
  function FormatChoice(force: bool, infoFound: bool, picked: Option<string>): (f: string)
    ensures infoFound && picked.Some? ==> f == picked.value
    ensures !infoFound ==> f == MergeSelector
    ensures infoFound && picked.None? ==> f == (if force then MergeSelector else "best")
  {
    if infoFound then
      match picked
      case Some(id) => id
      case None => if force then MergeSelector else "best"
    else MergeSelector
  }

  /** Unless the user typed a format, forcing high quality always means the merge selector. */
  lemma ForcedIsMerge(infoFound: bool, picked: Option<string>)
    requires !(infoFound && picked.Some?)
    ensures FormatChoice(true, infoFound, picked) == MergeSelector
  {
  }

  /** Plain "best" is chosen only when the information was found, nothing was typed and high quality was not forced. */
  lemma BestOnlyUnforced(force: bool, infoFound: bool, picked: Option<string>)
    requires !(infoFound && picked.Some?)
    ensures FormatChoice(force, infoFound, picked) == "best" <==> infoFound && !force
  {
  }

  const Template := "%(title)s.%(ext)s"

  /** Binary, URL, `-f` format, `-o` template, then the fixed flags. */
  function Command(ytdlp: string, url: string, format: string, template: string): (cmd: seq<string>)
    ensures |cmd| == 14 && cmd[0] == ytdlp && cmd[1] == url
    ensures cmd[2] == "-f" && cmd[3] == format && cmd[4] == "-o" && cmd[5] == template
    ensures cmd[7..9] == ["--merge-output-format", "mp4"]
  {
    [ytdlp, url, "-f", format, "-o", template,
     "--no-playlist", "--merge-output-format", "mp4", "--no-warnings",
     "--no-check-certificate", "--prefer-ffmpeg", "--add-metadata", "--write-thumbnail"]
  }

  /** ffprobe next to ffmpeg when ffmpeg was found, the bare name otherwise. */
  function ProbeBinary(ffmpeg: Option<string>): (p: string)
    ensures ffmpeg.None? ==> p == "ffprobe"
    ensures ffmpeg.Some? ==> EndsWith(p, "ffprobe.exe")
  {
    match ffmpeg
    case None => "ffprobe"
    case Some(path) => JoinPath(DirName(path), "ffprobe.exe")
  }

  /** The ffprobe query for the first video stream's width and height, printed as `WxH`. */
  function ProbeCommand(ffmpeg: Option<string>, file: string): (cmd: seq<string>)
    ensures |cmd| == 10 && cmd[0] == ProbeBinary(ffmpeg) && cmd[9] == file
  {
    [ProbeBinary(ffmpeg), "-v", "error", "-select_streams", "v:0",
     "-show_entries", "stream=width,height", "-of", "csv=s=x:p=0", file]
  }

  /**
   * The text after the file size: the resolution when the ffprobe query
   * gives output (`probe` returns its stripped output, or None when it exits
   * non-zero or cannot start), nothing otherwise.
   */
  function Resolution(probe: seq<string> -> Option<string>, ffmpeg: Option<string>, file: string): (extra: string)
    ensures probe(ProbeCommand(ffmpeg, file)).None? <==> extra == ""
    ensures probe(ProbeCommand(ffmpeg, file)).Some? ==> extra == "\nResolution: " + probe(ProbeCommand(ffmpeg, file)).value
  {
    match probe(ProbeCommand(ffmpeg, file))
    case None => ""
    case Some(dims) => "\nResolution: " + dims
  }

  /** Only an mp4 file is reported when the directory's newest file has to stand in. */
  predicate IsMp4(name: string) {
    EndsWith(name, ".mp4")
  }

  /**
   * Everything the download meets from outside: whether `--dump-json` gave
   * the video's information, how the `-F` listing went, the format ID the
   * user typed (if they chose to), how the download went, the ffprobe
   * oracle and the disk.
   */
  datatype Env = Env(infoFound: bool, listing: RunResult, picked: Option<string>, result: RunResult,
                     probe: seq<string> -> Option<string>, disk: Disk)

  /**
   * `download_youtube_video` of the high-quality downloader. A format
   * listing that fails to start ends it with the error; otherwise the
   * download runs and its outcome decides the message, which names the
   * saved file with its size and, when ffprobe answers, its resolution.
   */
  function Download(url: string, outputPath: string, force: bool, ytdlp: string, ffmpeg: Option<string>, env: Env): (r: Session)
    ensures r.ran.None? <==> env.infoFound && env.listing.Raised?
    ensures r.ran.None? ==> r.message == "Error: " + env.listing.message
    ensures r.ran.Some? ==>
      && r.ran.value == Command(ytdlp, url, FormatChoice(force, env.infoFound, env.picked), OutputTemplate(outputPath, Template))
      && r.message == Outcome(env.result, outputPath, IsMp4, env.disk, p => Resolution(env.probe, ffmpeg, p))
  {
    if env.infoFound && env.listing.Raised? then Session(None, "Error: " + env.listing.message)
    else
      var cmd := Command(ytdlp, url, FormatChoice(force, env.infoFound, env.picked), OutputTemplate(outputPath, Template));
      Session(Some(cmd), Outcome(env.result, outputPath, IsMp4, env.disk, p => Resolution(env.probe, ffmpeg, p)))
  }

  /** The message reports success exactly when the download ran, exited zero, and no needed listing failed. */
  lemma DownloadSuccessIff(url: string, outputPath: string, force: bool, ytdlp: string, ffmpeg: Option<string>, env: Env)
    ensures var r := Download(url, outputPath, force, ytdlp, ffmpeg, env);
      StartsWith(r.message, "Success:") <==>
        && r.ran.Some?
        && Succeeded(env.result)
        && (outputPath == [] || !FindSaved(env.result.stdout, outputPath, IsMp4, env.disk).ListingError?)
  {
    OutcomeSuccessIff(env.result, outputPath, IsMp4, env.disk, p => Resolution(env.probe, ffmpeg, p));
    var msg := Download(url, outputPath, force, ytdlp, ffmpeg, env).message;
    if env.infoFound && env.listing.Raised? {
      assert msg[0] == 'E';
      assert !StartsWith(msg, "Success:") by {
        if |msg| >= 8 { assert msg[..8][0] == msg[0]; }
      }
    }
  }

  /**
   * When the reported destination exists, the message names it, gives its
   * size and then its resolution exactly as ffprobe printed it.
   */
  lemma DestinationReported(url: string, outputPath: string, force: bool, ytdlp: string, ffmpeg: Option<string>, env: Env, dims: string)
    requires !(env.infoFound && env.listing.Raised?)
    requires Succeeded(env.result) && outputPath != []
    requires DestinationOf(env.result.stdout).Some?
    requires var d := DestinationOf(env.result.stdout).value; d != [] && env.disk.pathExists(d) && env.probe(ProbeCommand(ffmpeg, d)) == Some(dims)
    ensures var d := DestinationOf(env.result.stdout).value;
      Download(url, outputPath, force, ytdlp, ffmpeg, env).message == SavedText(d, env.disk.sizeText(d), "\nResolution: " + dims)
  {
  }
}
