/**
 * The simple YouTube downloader: the five-entry quality table, the console
 * menu, the yt-dlp command line and the message `download_youtube_video`
 * returns.
 */
module YouTubeSimple {
  import opened Wrappers
  import opened PyStr
  import opened Process
  import opened Listing
  import opened Report

  /** mp4 video plus m4a audio, else the best mp4 file, else the best file. */
  const BestSelector := "bestvideo[ext=mp4]+bestaudio[ext=m4a]/best[ext=mp4]/best"

  /** The `[height<=h]` filter. */
  function Cap(h: string): string {
    "[height<=" + h + "]"
  }

  /**
   * The three alternatives of a capped selector: merged mp4 and m4a, a
   * single mp4 file, any single file, each no taller than `h` pixels.
   */
  function CappedAlternatives(h: string): seq<string> {
    ["bestvideo" + Cap(h) + "[ext=mp4]+bestaudio[ext=m4a]", "best" + Cap(h) + "[ext=mp4]", "best" + Cap(h)]
  }

  /** The alternatives joined by "/", yt-dlp's "else". */
  function CappedSelector(h: string): string {
    var alts := CappedAlternatives(h);
    alts[0] + "/" + alts[1] + "/" + alts[2]
  }

  /** The quality names with a height cap. */
  predicate IsCapped(quality: string) {
    quality == "1080p" || quality == "720p" || quality == "480p" || quality == "360p"
  }

  /** The name without its final "p": "720p" gives "720". */
  function HeightOf(quality: string): string
    requires |quality| > 0
  {
    quality[..|quality| - 1]
  }

  /**
   * `quality_map.get(quality, <best>)`: "best", four height-capped entries
   * ("1080p" holds `CappedSelector("1080")`, spelled out in full in the
   * table, and so on), and the best selector for every other name.
   */
  function Selector(quality: string): (f: string)
    ensures IsCapped(quality) ==> f == CappedSelector(HeightOf(quality))
    ensures !IsCapped(quality) ==> f == BestSelector
  {
    var table := map[
      "best" := BestSelector,
      "1080p" := CappedSelector("1080"),
      "720p" := CappedSelector("720"),
      "480p" := CappedSelector("480"),
      "360p" := CappedSelector("360")
    ];
    assert HeightOf("1080p") == "1080" && HeightOf("720p") == "720";
    assert HeightOf("480p") == "480" && HeightOf("360p") == "360";
    if quality in table then table[quality] else BestSelector
  }

  /** Every alternative of a capped selector carries the cap. */
  lemma CapInEveryAlternative(h: string)
    ensures forall k :: 0 <= k < 3 ==> Contains(CappedAlternatives(h)[k], Cap(h))
  {
    var alts := CappedAlternatives(h);
    var c := Cap(h);
    OccursAfter("bestvideo", c, "[ext=mp4]+bestaudio[ext=m4a]");
    OccursAfter("best", c, "[ext=mp4]");
    OccursAfter("best", c, "");
    assert "best" + c + "" == alts[2];
    ContainsIff(alts[0], c);
    ContainsIff(alts[1], c);
    ContainsIff(alts[2], c);
  }

  /** A capped selector is never the uncapped one: it is longer. */
  lemma CappedIsNotBest(h: string)
    ensures CappedSelector(h) != BestSelector
  {
    assert |CappedSelector(h)| >= 3 * |Cap(h)| + 38;
  }

  /** A quality name gets a height cap exactly when it is one of the four "Np" names. */
  lemma CappedIff(quality: string)
    ensures (exists h :: Selector(quality) == CappedSelector(h)) <==> IsCapped(quality)
  {
    if IsCapped(quality) {
      assert Selector(quality) == CappedSelector(HeightOf(quality));
    } else {
      forall h ensures Selector(quality) != CappedSelector(h) {
        CappedIsNotBest(h);
      }
    }
  }

  /** The console menu: "1".."5" pick best, 1080p, 720p, 480p and 360p; anything else picks best. */
  function MenuQuality(choice: string): (q: string)
    ensures q == "best" || IsCapped(q)
    ensures q == "best" <==> choice !in ["2", "3", "4", "5"]
    ensures choice == "2" ==> q == "1080p"
    ensures choice == "3" ==> q == "720p"
    ensures choice == "4" ==> q == "480p"
    ensures choice == "5" ==> q == "360p"
  {
    var table := map["1" := "best", "2" := "1080p", "3" := "720p", "4" := "480p", "5" := "360p"];
    if choice in table then table[choice] else "best"
  }

  /** Different menu digits give different qualities. */
  lemma MenuInjective(a: string, b: string)
    requires a in ["1", "2", "3", "4", "5"] && b in ["1", "2", "3", "4", "5"] && a != b
    ensures MenuQuality(a) != MenuQuality(b)
  {
  }

  const Template := "%(title)s.%(ext)s"

  /** Binary, URL, `-f` selector, `-o` template, then the fixed flags. */
  function Command(ytdlp: string, url: string, quality: string, template: string): (cmd: seq<string>)
    ensures |cmd| == 11 && cmd[0] == ytdlp && cmd[1] == url
    ensures cmd[2] == "-f" && cmd[3] == Selector(quality) && cmd[4] == "-o" && cmd[5] == template
  {
    [ytdlp, url, "-f", Selector(quality), "-o", template,
     "--no-playlist", "--progress", "--no-warnings", "--merge-output-format", "mp4"]
  }

  /** The newest file of the directory is reported whatever its extension. */
  predicate AnyName(name: string) {
    true
  }

  /**
   * `download_youtube_video` of the simple downloader: the command runs and
   * its outcome decides the message.
   */
  function Download(url: string, outputPath: string, quality: string, ytdlp: string, result: RunResult, disk: Disk): (r: Session)
    ensures r.ran == Some(Command(ytdlp, url, quality, OutputTemplate(outputPath, Template)))
    ensures StartsWith(r.message, "Success:") <==>
      Succeeded(result) && (outputPath == [] || !FindSaved(result.stdout, outputPath, AnyName, disk).ListingError?)
    ensures FailedExit(result) ==> r.message == ErrorText(result.stderr)
  {
    OutcomeSuccessIff(result, outputPath, AnyName, disk, _ => "");
    Session(Some(Command(ytdlp, url, quality, OutputTemplate(outputPath, Template))),
            Outcome(result, outputPath, AnyName, disk, _ => ""))
  }

  /**
   * When the reported destination is missing, the newest file of a
   * non-empty directory is reported, whatever its name.
   */
  lemma NewestAlwaysReported(url: string, outputPath: string, quality: string, ytdlp: string, result: RunResult, disk: Disk)
    requires Succeeded(result) && outputPath != []
    requires DestinationOf(result.stdout).None? || DestinationOf(result.stdout).value == [] || !disk.pathExists(DestinationOf(result.stdout).value)
    requires disk.dir.Listed? && |disk.dir.entries| > 0
    ensures var p := JoinPath(outputPath, NewestName(disk.dir));
      Download(url, outputPath, quality, ytdlp, result, disk).message == SavedText(p, disk.sizeText(p), "")
  {
  }
}
