/**
 * The decisions the tkinter front end takes before and after it calls a
 * downloader: which quality labels a platform offers, what a choice becomes
 * for YouTube and for the other platforms, when a download is refused for
 * want of a URL, and how a Twitter result is shown.
 *
 * The front end as written never gets to these decisions: its import of
 * `download_tiktok_video` (video_downloader_gui.py:18) names a function
 * tiktok_downloader.py does not define, so loading it raises `ImportError`,
 * and its YouTube call (video_downloader_gui.py:264-270) passes keyword
 * arguments `download_youtube_video` does not accept, which raises
 * `TypeError`. This module models the decisions the code states, as they
 * would run once those two calls are repaired.
 */
module Gui {
  import opened PyStr
  import Quality

  /** The five platforms the read-only platform box offers, YouTube first. */
  const Platforms: seq<string> := ["YouTube", "Facebook", "Instagram", "TikTok", "Twitter"]

  const YouTubeLabels: seq<string> := ["Maximum Quality", "High Quality", "Medium Quality"]
  const OtherLabels: seq<string> := ["Best Quality", "Medium Quality", "Worst Quality"]

  /** The quality labels a known platform offers. */
  function LabelsFor(platform: string): seq<string> {
    if platform == "YouTube" then YouTubeLabels else OtherLabels
  }

  /** The quality box: whether it is shown, the labels it offers and the one selected. */
  datatype Combo = Combo(shown: bool, values: seq<string>, selected: string)

  /** The box as the window opens: YouTube's labels, the first one selected. */
  const Initial := Combo(true, YouTubeLabels, YouTubeLabels[0])

  /**
   * `on_platform_change`: a known platform shows the box with its own three
   * labels and selects the first; any other name hides the box and leaves its
   * labels and selection alone.
   */
  function PlatformChange(platform: string, c: Combo): (r: Combo)
    ensures platform in Platforms ==> r.shown && |r.values| == 3 && r.selected == r.values[0]
    ensures platform in Platforms ==> (r.values == YouTubeLabels <==> platform == "YouTube")
    ensures platform !in Platforms ==> !r.shown && r.values == c.values && r.selected == c.selected
  {
    if platform in Platforms then
      var labels := LabelsFor(platform);
      Combo(true, labels, labels[0])
    else
      c.(shown := false)
  }

  /** Choosing the same platform twice leaves the box as the first choice left it. */
  lemma PlatformChangeIdempotent(platform: string, c: Combo)
    ensures PlatformChange(platform, PlatformChange(platform, c)) == PlatformChange(platform, c)
  {
  }

  /** Once a known platform is chosen, the box no longer depends on what it showed before. */
  lemma PlatformChangeForgets(platform: string, c: Combo, d: Combo)
    requires platform in Platforms
    ensures PlatformChange(platform, c) == PlatformChange(platform, d)
  {
  }

  /** YouTube's best: merged mp4 and m4a, else any merge, else the best single file. */
  const MaxSelector := "bestvideo[ext=mp4]+bestaudio[ext=m4a]/bestvideo+bestaudio/best"

  /**
   * `start_download`'s format string: for YouTube, the choice's entry in a
   * three-entry table, with the "Maximum Quality" entry for any other choice;
   * for every other platform, the choice itself.
   */
  function FormatString(platform: string, choice: string): (f: string)
    ensures platform != "YouTube" ==> f == choice
    ensures platform == "YouTube" ==> (f == MaxSelector || f == "best" || f == "18")
    ensures platform == "YouTube" ==> (f == "best" <==> choice == "High Quality")
    ensures platform == "YouTube" ==> (f == "18" <==> choice == "Medium Quality")
    ensures platform == "YouTube" ==> (f == MaxSelector <==> choice != "High Quality" && choice != "Medium Quality")
  {
    if platform == "YouTube" then
      var formats := map["Maximum Quality" := MaxSelector, "High Quality" := "best", "Medium Quality" := "18"];
      if choice in formats then formats[choice] else formats["Maximum Quality"]
    else
      choice
  }

  /**
   * The label tables of the Twitter, Facebook, Instagram and TikTok branches
   * (all four the same): the three labels name best, medium and worst, and
   * any other choice names best.
   */
  function LabelQuality(choice: string): (q: string)
    ensures q == "best" || q == "medium" || q == "worst"
    ensures q == "medium" <==> choice == "Medium Quality"
    ensures q == "worst" <==> choice == "Worst Quality"
  {
    var table := map["Best Quality" := "best", "Medium Quality" := "medium", "Worst Quality" := "worst"];
    if choice in table then table[choice] else "best"
  }

  /** The three labels a non-YouTube platform offers name three different qualities. */
  lemma OtherLabelsDistinct(i: nat, j: nat)
    requires i < 3 && j < 3 && i != j
    ensures LabelQuality(OtherLabels[i]) != LabelQuality(OtherLabels[j])
  {
  }

  /** The three YouTube labels give three different format strings. */
  lemma YouTubeLabelsDistinct(i: nat, j: nat)
    requires i < 3 && j < 3 && i != j
    ensures FormatString("YouTube", YouTubeLabels[i]) != FormatString("YouTube", YouTubeLabels[j])
  {
  }

  /**
   * After any platform change to a known platform, the selected choice asks
   * for that platform's best: the "Maximum Quality" selector for YouTube, the
   * quality "best" for the others.
   */
  lemma PlatformChangeSelectsBest(platform: string, c: Combo)
    requires platform in Platforms
    ensures var r := PlatformChange(platform, c);
      if platform == "YouTube" then FormatString(platform, r.selected) == MaxSelector
      else LabelQuality(FormatString(platform, r.selected)) == "best"
  {
  }

  /**
   * The whole chain for Facebook, Instagram and TikTok: the choice passes
   * through `start_download` unchanged, the branch's table names a quality,
   * and the downloader's table picks the selector. "Medium Quality" and
   * "Worst Quality" reach the medium and worst selectors, and every other
   * choice, the YouTube ones included, the best selector.
   */
  lemma LabelSelector(platform: string, choice: string)
    requires platform != "YouTube"
    ensures var f := Quality.Selector(LabelQuality(FormatString(platform, choice)));
      && (f == Quality.MediumSelector <==> choice == "Medium Quality")
      && (f == Quality.WorstSelector <==> choice == "Worst Quality")
      && (f == Quality.BestSelector <==> choice != "Medium Quality" && choice != "Worst Quality")
  {
  }

  /** What pressing the download button does: refuse with a message, or start the worker. */
  datatype Start = Refused(message: string) | Started(platform: string, url: string, format: string)

  /**
   * `start_download`: the entry is stripped; an empty result is refused
   * before anything else happens; otherwise the worker gets the platform, the
   * stripped URL and the format string of the selected choice.
   */
  function StartDownload(platform: string, entry: string, choice: string): (s: Start)
    ensures s.Refused? <==> Strip(entry) == []
    ensures s.Refused? ==> s.message == "Please enter a URL"
    ensures s.Started? ==> s.platform == platform && s.url == Strip(entry) && s.format == FormatString(platform, choice)
  {
    var url := Strip(entry);
    if url == [] then Refused("Please enter a URL")
    else Started(platform, url, FormatString(platform, choice))
  }

  /** Every character of `s` is whitespace (`str.isspace` of each one). */
  predicate AllSpace(s: string) {
    forall k :: 0 <= k < |s| ==> IsSpace(s[k])
  }

  /** `lstrip` empties exactly the all-whitespace strings. */
  lemma LStripEmptyIff(s: string)
    ensures LStrip(s) == [] <==> AllSpace(s)
  {
    var r := LStrip(s);
    if r != [] {
      assert s[|s| - |r|] == r[0];
    }
  }

  /** `rstrip` empties exactly the all-whitespace strings. */
  lemma RStripEmptyIff(s: string)
    ensures RStrip(s) == [] <==> AllSpace(s)
  {
    var r := RStrip(s);
    if r != [] {
      assert s[|r| - 1] == r[|r| - 1];
    }
  }

  /** A download is refused exactly when the entry holds nothing but whitespace (or nothing). */
  lemma RefusedIff(platform: string, entry: string, choice: string)
    ensures StartDownload(platform, entry, choice).Refused? <==> AllSpace(entry)
  {
    var l := LStrip(entry);
    LStripEmptyIff(entry);
    RStripEmptyIff(l);
    if l != [] {
      assert !IsSpace(l[0]);
    }
  }

  /** Typing the URL already stripped starts the same download. */
  lemma StartDownloadStripped(platform: string, entry: string, choice: string)
    ensures StartDownload(platform, Strip(entry), choice) == StartDownload(platform, entry, choice)
  {
    StripIdempotent(entry);
  }

  predicate IsAscii(c: char) {
    c as int < 128
  }

  /**
   * `s.encode('ascii', 'replace').decode('ascii')`: every character outside
   * ASCII becomes "?", one for one, and the others stay.
   */
  function AsciiReplace(s: string): (r: string)
    ensures |r| == |s|
    ensures forall k :: 0 <= k < |s| ==> IsAscii(r[k])
    ensures forall k :: 0 <= k < |s| ==> (if IsAscii(s[k]) then r[k] == s[k] else r[k] == '?')
  {
    seq(|s|, k requires 0 <= k < |s| => if IsAscii(s[k]) then s[k] else '?')
  }

  /** Replacing twice changes nothing more. */
  lemma AsciiReplaceIdempotent(s: string)
    ensures AsciiReplace(AsciiReplace(s)) == AsciiReplace(s)
  {
  }

  /** The replacement leaves a string alone exactly when it is all ASCII. */
  lemma AsciiReplaceKeepsIff(s: string)
    ensures AsciiReplace(s) == s <==> forall k :: 0 <= k < |s| ==> IsAscii(s[k])
  {
    if AsciiReplace(s) == s {
      forall k | 0 <= k < |s| ensures IsAscii(s[k]) {
        assert AsciiReplace(s)[k] == s[k];
      }
    }
  }

  /**
   * An ASCII text without "?" sits at the same places in a string and in its
   * replacement: a "?" put in for a non-ASCII character can match none of it.
   */
  lemma AsciiReplacePrefixAt(x: string, s: string, i: nat)
    requires forall k :: 0 <= k < |x| ==> IsAscii(x[k]) && x[k] != '?'
    ensures IsPrefixAt(x, AsciiReplace(s), i) <==> IsPrefixAt(x, s, i)
  {
    var r := AsciiReplace(s);
    if i + |x| <= |s| {
      if IsPrefixAt(x, r, i) {
        forall k | 0 <= k < |x| ensures s[i + k] == x[k] {
          assert r[i..i + |x|][k] == x[k];
        }
        assert s[i..i + |x|] == x;
      }
      if IsPrefixAt(x, s, i) {
        forall k | 0 <= k < |x| ensures r[i + k] == x[k] {
          assert s[i..i + |x|][k] == x[k];
        }
        assert r[i..i + |x|] == x;
      }
    }
  }

  /** The success word the Twitter branch looks for. */
  const SuccessWord := "Success"

  const TwitterDone := "Twitter video downloaded successfully!"

  /** A message box: an information box or an error box, each with a title and a text. */
  datatype Box = InfoBox(title: string, text: string) | ErrorBox(title: string, text: string)

  /** The status line and the box the Twitter branch shows for a returned result. */
  datatype Shown = Shown(status: string, box: Box)

  /**
   * The Twitter branch after the downloader returns: the result, with
   * non-ASCII characters replaced, goes to the status line; an information
   * box follows when it contains "Success", else an error box with the same
   * text.
   */
  function TwitterShown(result: string): (s: Shown)
    ensures s.status == AsciiReplace(result)
    ensures s.box.InfoBox? <==> Contains(AsciiReplace(result), SuccessWord)
    ensures s.box.InfoBox? ==> s.box == InfoBox("Success", TwitterDone)
    ensures s.box.ErrorBox? ==> s.box == ErrorBox("Error", AsciiReplace(result))
  {
    var shown := AsciiReplace(result);
    if Contains(shown, SuccessWord) then Shown(shown, InfoBox("Success", TwitterDone))
    else Shown(shown, ErrorBox("Error", shown))
  }

  /**
   * The replacement never changes the verdict: success is shown exactly when
   * the downloader's own result contains "Success"; in particular every
   * result that starts with "Success:" is shown as a success.
   */
  lemma TwitterSuccessIff(result: string)
    ensures TwitterShown(result).box.InfoBox? <==> Contains(result, SuccessWord)
    ensures StartsWith(result, "Success:") ==> TwitterShown(result).box.InfoBox?
  {
    var r := AsciiReplace(result);
    forall i: nat ensures IsPrefixAt(SuccessWord, r, i) <==> IsPrefixAt(SuccessWord, result, i) {
      AsciiReplacePrefixAt(SuccessWord, result, i);
    }
    ContainsIff(r, SuccessWord);
    ContainsIff(result, SuccessWord);
    if StartsWith(result, "Success:") {
      assert result[0..7] == result[..8][..7];
      assert IsPrefixAt(SuccessWord, result, 0);
    }
  }
}
