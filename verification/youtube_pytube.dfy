/**
 * The pytube YouTube downloader's `download_youtube_video`: the stream
 * cascade, the success and no-stream messages, and the yt-dlp fallback
 * taken when anything in the pytube part raises. pytube itself is not
 * modelled: the video's title and stream list, and the outcome of saving a
 * stream, are parameters.
 */
module YouTubePytube {
  import opened Wrappers
  import opened PyStr
  import opened Process
  import opened Report
  import YouTubeAlt

  /**
   * One stream of `yt.streams`: whether it is progressive (video with
   * audio) or adaptive, whether its file extension is mp4, the resolution
   * it reports (None, or possibly empty), and the key `order_by('resolution')`
   * sorts it by, None for a stream without a resolution.
   */
  datatype Stream = Stream(progressive: bool, adaptive: bool, mp4: bool, resolution: Option<string>, rank: Option<nat>)

  /** The four `filter` calls of the cascade. */
  datatype Filter = ProgressiveMp4 | AdaptiveMp4 | AnyMp4 | AnyStream

  predicate Passes(s: Stream, f: Filter) {
    match f
    case ProgressiveMp4 => s.progressive && s.mp4
    case AdaptiveMp4 => s.adaptive && s.mp4
    case AnyMp4 => s.mp4
    case AnyStream => true
  }

  /** A stream that passes the filter and has a sort key. */
  predicate Ranked(s: Stream, f: Filter) {
    Passes(s, f) && s.rank.Some?
  }

  /**
   * `filter(...).order_by('resolution').desc().first()`: the stable sort
   * drops the streams without a key and puts equal keys in listing order,
   * and `desc()` reverses it, so the answer is the last of the streams with
   * the greatest key.
   */
  function Highest(ss: seq<Stream>, f: Filter): (k: Option<nat>)
    ensures k.None? <==> forall j :: 0 <= j < |ss| ==> !Ranked(ss[j], f)
    ensures k.Some? ==> k.value < |ss| && Ranked(ss[k.value], f)
    ensures k.Some? ==> forall j :: 0 <= j < |ss| && Ranked(ss[j], f) ==> ss[j].rank.value <= ss[k.value].rank.value
    ensures k.Some? ==> forall j :: k.value < j < |ss| && Ranked(ss[j], f) ==> ss[j].rank.value < ss[k.value].rank.value
    decreases |ss|
  {
    if |ss| == 0 then None
    else
      var r := Highest(ss[1..], f);
      assert forall j :: 1 <= j < |ss| ==> ss[j] == ss[1..][j - 1];
      if Ranked(ss[0], f) && (r.None? || ss[0].rank.value > ss[r.value + 1].rank.value) then Some(0)
      else if r.None? then None
      else Some(r.value + 1)
  }

  /** `filter(...).first()`: the first stream that passes, in listing order. */
  function FirstPassing(ss: seq<Stream>, f: Filter): (k: Option<nat>)
    ensures k.None? <==> forall j :: 0 <= j < |ss| ==> !Passes(ss[j], f)
    ensures k.Some? ==> k.value < |ss| && Passes(ss[k.value], f)
    ensures k.Some? ==> forall j :: 0 <= j < k.value ==> !Passes(ss[j], f)
    decreases |ss|
  {
    if |ss| == 0 then None
    else if Passes(ss[0], f) then Some(0)
    else match FirstPassing(ss[1..], f)
      case None => None
      case Some(k) => Some(k + 1)
  }

  /**
   * The cascade: the highest progressive mp4, else the highest adaptive
   * mp4, else the first mp4, else the first stream of any kind.
   */
  function Choose(ss: seq<Stream>): (k: Option<nat>)
    ensures k.None? <==> |ss| == 0
    ensures k.Some? ==> k.value < |ss|
  {
    match Highest(ss, ProgressiveMp4)
    case Some(k) => Some(k)
    case None =>
      match Highest(ss, AdaptiveMp4)
      case Some(k) => Some(k)
      case None =>
        match FirstPassing(ss, AnyMp4)
        case Some(k) => Some(k)
        case None => FirstPassing(ss, AnyStream)
  }

  /** Each step is used only when the ones before it found nothing. */
  lemma ChooseOrder(ss: seq<Stream>)
    ensures Highest(ss, ProgressiveMp4).Some? ==> Choose(ss) == Highest(ss, ProgressiveMp4)
    ensures Highest(ss, ProgressiveMp4).None? && Highest(ss, AdaptiveMp4).Some? ==> Choose(ss) == Highest(ss, AdaptiveMp4)
    ensures Highest(ss, ProgressiveMp4).None? && Highest(ss, AdaptiveMp4).None? ==>
      Choose(ss) == (if FirstPassing(ss, AnyMp4).Some? then FirstPassing(ss, AnyMp4) else FirstPassing(ss, AnyStream))
  {
  }

  /**
   * With any ranked progressive mp4 stream available, the choice is one of
   * them and no progressive mp4 stream has a higher key.
   */
  lemma ChoosesBestProgressive(ss: seq<Stream>, j: nat)
    requires j < |ss| && Ranked(ss[j], ProgressiveMp4)
    ensures Choose(ss).Some? && Ranked(ss[Choose(ss).value], ProgressiveMp4)
    ensures ss[j].rank.value <= ss[Choose(ss).value].rank.value
  {
  }

  /** When some mp4 stream exists, the chosen stream is an mp4. */
  lemma ChoosesMp4WhenThere(ss: seq<Stream>, j: nat)
    requires j < |ss| && ss[j].mp4
    ensures Choose(ss).Some? && ss[Choose(ss).value].mp4
  {
    assert Passes(ss[j], AnyMp4);
  }

  /** `stream.resolution if ... and stream.resolution else "Unknown"` */
  function ResolutionText(s: Stream): (t: string)
    ensures s.resolution.Some? && s.resolution.value != [] ==> t == s.resolution.value
    ensures s.resolution.None? || s.resolution.value == [] ==> t == "Unknown"
  {
    match s.resolution
    case Some(r) => if r != [] then r else "Unknown"
    case None => "Unknown"
  }

  const NoStream := "Error: " + "No suitable stream found for this video."
  const AltSuccess := "Success: " + "Video downloaded successfully with alternative method!"

  /** What pytube gave: an exception while fetching the video, or its title and streams. */
  datatype Fetch = FetchRaised(message: string) | Fetched(title: string, streams: seq<Stream>)

  /** Saving the chosen stream: the saved path with its formatted size, or an exception. */
  datatype Save = Saved(path: string, size: string) | SaveRaised(message: string)

  /**
   * The fallback's world: whether youtube_downloader_alt.py is next to the
   * script and, if so, an exception loading it and what its
   * `download_youtube_video` meets; otherwise an exception fetching
   * yt-dlp.exe and the outcome of the direct command.
   */
  datatype Fallback = Fallback(
    altExists: bool, loadError: Option<string>, lookup: YouTubeAlt.Lookup, altResult: RunResult, disk: Disk,
    fetchError: Option<string>, direct: RunResult)

  /** A call returns a message or ends the program (the alternative downloader's `sys.exit`). */
  datatype Ending = Returned(message: string) | Exit(status: int)

  /** The pytube success message: title, path, size and resolution. */
  function PytubeSuccess(title: string, path: string, size: string, resolution: string): (msg: string)
    ensures StartsWith(msg, Downloaded)
  {
    Downloaded + ("\nTitle: " + title + "\nSaved to: " + path + "\nFile size: " + size + " MB\nResolution: " + resolution)
  }

  const AltErrorLead := "Error " + "with alternative method: "

  /** `"Error with alternative method: " + (stderr.strip() if stderr else "Unknown error")` */
  function AltErrorText(stderr: string): (msg: string)
    ensures StartsWith(msg, AltErrorLead)
    ensures msg[|AltErrorLead|..] == ErrorText(stderr)[7..]
  {
    AltErrorLead + ErrorText(stderr)[7..]
  }

  /** The fixed success text and the error text of the direct command differ from the first character. */
  lemma AltTextsDiffer(stderr: string)
    ensures AltSuccess != AltErrorText(stderr)
  {
    var e := AltErrorText(stderr);
    assert e[0] == e[..|AltErrorLead|][0] == 'E';
    assert AltSuccess[0] == 'S';
  }

  const AltTemplate := "%(title)s.%(ext)s"

  /** The direct yt-dlp command of the fallback: the alternative downloader's selector and flags. */
  function DirectCommand(ytdlp: string, url: string, template: string): (cmd: seq<string>)
    ensures cmd == YouTubeAlt.Command(ytdlp, url, template)
  {
    [ytdlp, url, "-f", YouTubeAlt.Selector, "-o", template, "--no-playlist", "--merge-output-format", "mp4"]
  }

  /** `f"Error: {e}\nAlternative method also failed: {alt_e}"` */
  function BothFailed(e: string, altE: string): (msg: string)
    ensures StartsWith(msg, "Error: " + e)
  {
    "Error: " + e + ("\nAlternative method also failed: " + altE)
  }

  /** What the call did: the direct yt-dlp command, if the fallback ran one itself, and how it ended. */
  datatype Call = Call(direct: Option<seq<string>>, ending: Ending)

  /**
   * The `except` branch, for the exception message `e`: the alternative
   * downloader when its script exists (an exception loading it joins `e` in
   * the message), otherwise yt-dlp.exe run directly (an exception fetching
   * or starting it joins `e` too). `ytdlp` is the yt-dlp.exe next to the
   * script.
   */
  function Recover(url: string, outputPath: string, ytdlp: string, e: string, fb: Fallback): (c: Call)
    ensures fb.altExists ==> c.direct.None?
    ensures fb.altExists && fb.loadError.Some? ==> c.ending == Returned(BothFailed(e, fb.loadError.value))
    ensures fb.altExists && fb.loadError.None? ==>
      (c.ending.Exit? <==> fb.lookup.ExitProgram?)
      && (c.ending.Returned? ==> c.ending.message == YouTubeAlt.Download(url, outputPath, fb.lookup, fb.altResult, fb.disk).session.message)
    ensures !fb.altExists ==> (c.direct.Some? <==> fb.fetchError.None?)
    ensures !fb.altExists && fb.fetchError.Some? ==> c.ending == Returned(BothFailed(e, fb.fetchError.value))
    ensures !fb.altExists && fb.fetchError.None? ==> c.direct == Some(DirectCommand(ytdlp, url, OutputTemplate(outputPath, AltTemplate)))
  {
    if fb.altExists then
      match fb.loadError
      case Some(m) => Call(None, Returned(BothFailed(e, m)))
      case None =>
        match YouTubeAlt.Download(url, outputPath, fb.lookup, fb.altResult, fb.disk)
        case Returned(session) => Call(None, Returned(session.message))
        case Exit(status) => Call(None, Exit(status))
    else
      match fb.fetchError
      case Some(m) => Call(None, Returned(BothFailed(e, m)))
      case None =>
        var cmd := DirectCommand(ytdlp, url, OutputTemplate(outputPath, AltTemplate));
        match fb.direct
        case Raised(m) => Call(Some(cmd), Returned(BothFailed(e, m)))
        case Exited(code, _, stderr) => Call(Some(cmd), Returned(if code == 0 then AltSuccess else AltErrorText(stderr)))
  }

  /** The direct command's message is the fixed success text exactly when it exits zero; a start failure joins both errors. */
  lemma DirectOutcome(url: string, outputPath: string, ytdlp: string, e: string, fb: Fallback)
    requires !fb.altExists && fb.fetchError.None?
    ensures fb.direct.Raised? ==> Recover(url, outputPath, ytdlp, e, fb).ending == Returned(BothFailed(e, fb.direct.message))
    ensures fb.direct.Exited? ==> (Recover(url, outputPath, ytdlp, e, fb).ending == Returned(AltSuccess) <==> Succeeded(fb.direct))
    ensures FailedExit(fb.direct) ==> Recover(url, outputPath, ytdlp, e, fb).ending == Returned(AltErrorText(fb.direct.stderr))
  {
    if fb.direct.Exited? {
      AltTextsDiffer(fb.direct.stderr);
    }
  }

  /**
   * `download_youtube_video` of the pytube downloader. `outputPath` is ""
   * for no directory (`None` and "" are treated alike).
   */
  function Download(url: string, outputPath: string, ytdlp: string, fetch: Fetch, save: Save, fb: Fallback): (c: Call)
    ensures fetch.FetchRaised? ==> c == Recover(url, outputPath, ytdlp, fetch.message, fb)
    ensures fetch.Fetched? && |fetch.streams| == 0 ==> c == Call(None, Returned(NoStream))
    ensures fetch.Fetched? && |fetch.streams| > 0 && save.SaveRaised? ==> c == Recover(url, outputPath, ytdlp, save.message, fb)
    ensures fetch.Fetched? && |fetch.streams| > 0 && save.Saved? ==>
      c == Call(None, Returned(PytubeSuccess(fetch.title, save.path, save.size, ResolutionText(fetch.streams[Choose(fetch.streams).value]))))
  {
    match fetch
    case FetchRaised(e) => Recover(url, outputPath, ytdlp, e, fb)
    case Fetched(title, ss) =>
      match Choose(ss)
      case None => Call(None, Returned(NoStream))
      case Some(k) =>
        match save
        case SaveRaised(e) => Recover(url, outputPath, ytdlp, e, fb)
        case Saved(path, size) => Call(None, Returned(PytubeSuccess(title, path, size, ResolutionText(ss[k]))))
  }

  /**
   * Without an exception in the pytube part nothing falls back: the message
   * is the no-stream error exactly when the video has no streams, and the
   * success message otherwise.
   */
  lemma NoFallbackWithoutRaise(url: string, outputPath: string, ytdlp: string, title: string, ss: seq<Stream>, path: string, size: string, fb: Fallback)
    ensures var c := Download(url, outputPath, ytdlp, Fetched(title, ss), Saved(path, size), fb);
      && c.direct.None?
      && (c.ending == Returned(NoStream) <==> |ss| == 0)
      && (|ss| > 0 ==> StartsWith(c.ending.message, Downloaded))
  {
    var c := Download(url, outputPath, ytdlp, Fetched(title, ss), Saved(path, size), fb);
    if |ss| > 0 {
      var m := c.ending.message;
      assert m[..|Downloaded|] == Downloaded;
      assert m[0] == Downloaded[0] == 'S';
      assert NoStream[0] == 'E';
    }
  }
}
