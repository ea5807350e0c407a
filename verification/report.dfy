/**
 * How the Twitter and the three yt-dlp based YouTube downloaders turn a
 * finished yt-dlp run into the message they return: the `Destination:` line
 * of the captured output, the existence check, the newest-file fallback and
 * the "Success:" / "Error:" strings.
 */
module Report {
  import opened Wrappers
  import opened PyStr
  import opened Process
  import opened Listing

  /** The index of the first line boundary at or after `i`, or `|s|` when there is none. */
  function LineEnd(s: string, i: nat): (e: nat)
    requires i <= |s|
    ensures i <= e <= |s|
    ensures forall k :: i <= k < e ==> !IsLineBoundary(s[k])
    ensures e < |s| ==> IsLineBoundary(s[e])
    decreases |s| - i
  {
    if i == |s| || IsLineBoundary(s[i]) then i else LineEnd(s, i + 1)
  }

  /** Where the next line starts after a boundary at `e`; "\r\n" is one boundary. */
  function NextLine(s: string, e: nat): (n: nat)
    requires e < |s|
    ensures e < n <= |s|
  {
    if s[e] == '\r' && e + 1 < |s| && s[e + 1] == '\n' then e + 2 else e + 1
  }

  /** Python's `s[i:].splitlines()`: no line holds a boundary, and a final boundary adds no empty line. */
  function LinesFrom(s: string, i: nat): (ls: seq<string>)
    requires i <= |s|
    ensures forall m, k :: 0 <= m < |ls| && 0 <= k < |ls[m]| ==> !IsLineBoundary(ls[m][k])
    ensures i < |s| <==> |ls| > 0
    decreases |s| - i
  {
    if i == |s| then []
    else
      var e := LineEnd(s, i);
      var line := s[i..e];
      assert forall k :: 0 <= k < |line| ==> line[k] == s[i + k];
      if e == |s| then [line] else [line] + LinesFrom(s, NextLine(s, e))
  }

  function SplitLines(s: string): seq<string> {
    LinesFrom(s, 0)
  }

  const Marker := "Destination:"

  /** A non-empty piece of text with no line boundary in it. */
  predicate OnOneLine(x: string) {
    |x| > 0 && forall k :: 0 <= k < |x| ==> !IsLineBoundary(x[k])
  }

  /** `line.split(x, 1)[1]` for a line that holds `x`: what follows its first occurrence. */
  function TextAfter(line: string, x: string): string
    requires Contains(line, x)
  {
    var p := Find(line, x).value;
    line[p + |x|..]
  }

  /** The `for line in lines: if x in line: ...; break` loop, before the strip. */
  function FirstLineWith(lines: seq<string>, x: string): Option<string> {
    if |lines| == 0 then None
    else if Contains(lines[0], x) then Some(TextAfter(lines[0], x))
    else FirstLineWith(lines[1..], x)
  }

  function StripSome(t: Option<string>): Option<string> {
    match t
    case None => None
    case Some(v) => Some(Strip(v))
  }

  /** The file name yt-dlp reported, as the downloaders read it from the captured output. */
  function DestinationOf(stdout: string): Option<string> {
    StripSome(FirstLineWith(SplitLines(stdout), Marker))
  }

  /** What follows an occurrence of `x` at `p`, up to the end of its line. */
  function RestOfLine(s: string, x: string, p: Option<nat>): Option<string>
    requires p.Some? ==> IsPrefixAt(x, s, p.value)
  {
    match p
    case None => None
    case Some(p) => Some(s[p + |x|..LineEnd(s, p + |x|)])
  }

  /**
   * A reference reading of the same rule without lines: find the first
   * "Destination:" anywhere in the output and take, stripped, what follows it
   * up to the end of its line.
   */
  function DestinationRef(stdout: string): (r: Option<string>)
    ensures r.None? <==> !Contains(stdout, Marker)
  {
    StripSome(RestOfLine(stdout, Marker, Find(stdout, Marker)))
  }

  lemma MarkerOnOneLine()
    ensures OnOneLine(Marker)
  {
  }

  /** The k-th character of an occurrence of `x` is the k-th character of `x`. */
  lemma OccurrenceChar(x: string, s: string, j: nat, k: nat)
    requires OnOneLine(x) && k < |x|
    ensures IsPrefixAt(x, s, j) ==> s[j + k] == x[k] && !IsLineBoundary(s[j + k])
  {
    if IsPrefixAt(x, s, j) {
      assert s[j..j + |x|][k] == s[j + k];
    }
  }

  /** An occurrence starting at or before a line's end lies wholly inside that line. */
  lemma OccurrenceInsideLine(x: string, s: string, i: nat, j: nat)
    requires OnOneLine(x)
    requires i <= j <= |s|
    requires j <= LineEnd(s, i)
    ensures IsPrefixAt(x, s, j) ==> j + |x| <= LineEnd(s, i)
  {
    var e := LineEnd(s, i);
    if j + |x| > e && e < |s| {
      OccurrenceChar(x, s, j, e - j);
    }
  }

  /**
   * When `s[i..e]` holds `x` and no occurrence starting in `[i, e]` runs past
   * `e`, searching `s` from `i` finds the slice's first occurrence.
   */
  lemma FindInSlice(x: string, s: string, i: nat, e: nat, p: nat)
    requires i <= e <= |s|
    requires Contains(s[i..e], x) && p == Find(s[i..e], x).value
    requires forall j: nat :: i <= j <= e && IsPrefixAt(x, s, j) ==> j + |x| <= e
    ensures FindFrom(s, x, i) == Some(i + p)
  {
    FirstInSlice(x, s, i, e, p);
    FindFromIs(x, s, i, i + p);
  }

  /** The slice's first occurrence is an occurrence in `s`, and none in `s` comes earlier from `i`. */
  lemma FirstInSlice(x: string, s: string, i: nat, e: nat, p: nat)
    requires i <= e <= |s|
    requires Contains(s[i..e], x) && p == Find(s[i..e], x).value
    requires forall j: nat :: i <= j <= e && IsPrefixAt(x, s, j) ==> j + |x| <= e
    ensures IsPrefixAt(x, s, i + p)
    ensures forall j: nat :: i <= j < i + p ==> !IsPrefixAt(x, s, j)
  {
    IsPrefixAtSlice(x, s, i, e, p);
    forall j: nat | i <= j < i + p ensures !IsPrefixAt(x, s, j) {
      if j + |x| <= e {
        IsPrefixAtSlice(x, s, i, e, j - i);
      }
    }
  }

  /** An occurrence at `k` with none in `[i, k)` is what the search from `i` finds. */
  lemma {:induction false} FindFromIs(x: string, s: string, i: nat, k: nat)
    requires i <= k && IsPrefixAt(x, s, k)
    requires forall j: nat :: i <= j < k ==> !IsPrefixAt(x, s, j)
    ensures FindFrom(s, x, i) == Some(k)
    decreases k - i
  {
    if i < k {
      FindFromIs(x, s, i + 1, k);
    }
  }

  /** No occurrence that starts within a line runs past the line's end. */
  lemma OccurrencesInsideLine(x: string, s: string, i: nat)
    requires OnOneLine(x)
    requires i <= |s|
    ensures forall j: nat :: i <= j <= LineEnd(s, i) && IsPrefixAt(x, s, j) ==> j + |x| <= LineEnd(s, i)
  {
    forall j: nat | i <= j <= LineEnd(s, i) && IsPrefixAt(x, s, j) ensures j + |x| <= LineEnd(s, i) {
      OccurrenceInsideLine(x, s, i, j);
    }
  }

  /** When a line holds `x`, searching from the line start finds its first occurrence in the line. */
  lemma FindInLine(x: string, s: string, i: nat)
    requires OnOneLine(x)
    requires i < |s|
    requires Contains(s[i..LineEnd(s, i)], x)
    ensures FindFrom(s, x, i) == Some(i + Find(s[i..LineEnd(s, i)], x).value)
  {
    OccurrencesInsideLine(x, s, i);
    FindInSlice(x, s, i, LineEnd(s, i), Find(s[i..LineEnd(s, i)], x).value);
  }

  /** When a line lacks `x`, the search from its start goes on from the next line, or finds nothing. */
  lemma FindPastLine(x: string, s: string, i: nat)
    requires OnOneLine(x)
    requires i < |s|
    requires !Contains(s[i..LineEnd(s, i)], x)
    ensures LineEnd(s, i) < |s| ==> FindFrom(s, x, i) == FindFrom(s, x, NextLine(s, LineEnd(s, i)))
    ensures LineEnd(s, i) == |s| ==> FindFrom(s, x, i).None?
  {
    var e := LineEnd(s, i);
    var line := s[i..e];
    ContainsIff(line, x);
    forall j: nat | i <= j <= e ensures !IsPrefixAt(x, s, j) {
      OccurrenceInsideLine(x, s, i, j);
      if j + |x| <= e {
        IsPrefixAtSlice(x, s, i, e, j - i);
      }
    }
    if e < |s| {
      var n := NextLine(s, e);
      if n == e + 2 {
        OccurrenceChar(x, s, e + 1, 0);
      }
      FindFromSkip(x, s, i, n);
    } else {
      FindFromNone(x, s, i);
    }
  }

  /** With no occurrence in `[i, n)`, the search from `i` and the search from `n` agree. */
  lemma {:induction false} FindFromSkip(x: string, s: string, i: nat, n: nat)
    requires i <= n <= |s|
    requires forall j: nat :: i <= j < n ==> !IsPrefixAt(x, s, j)
    ensures FindFrom(s, x, i) == FindFrom(s, x, n)
    decreases n - i
  {
    if i < n {
      FindFromSkip(x, s, i + 1, n);
    }
  }

  /** With no occurrence at or after `i`, the search from `i` finds nothing. */
  lemma FindFromNone(x: string, s: string, i: nat)
    requires i <= |s|
    requires forall j: nat :: i <= j ==> !IsPrefixAt(x, s, j)
    ensures FindFrom(s, x, i).None?
  {
  }

  /** The first line from `i` runs to the next boundary; the rest starts after that boundary. */
  lemma LinesFromHead(s: string, i: nat)
    requires i < |s|
    ensures var ls := LinesFrom(s, i); var e := LineEnd(s, i);
      && |ls| > 0 && ls[0] == s[i..e]
      && (e < |s| ==> ls[1..] == LinesFrom(s, NextLine(s, e)))
      && (e == |s| ==> ls[1..] == [])
  {
  }

  /** What follows the first occurrence in a line is the rest of the output's line after that occurrence. */
  lemma TailInLine(x: string, s: string, i: nat)
    requires OnOneLine(x)
    requires i < |s|
    requires Contains(s[i..LineEnd(s, i)], x)
    ensures var p := Find(s[i..LineEnd(s, i)], x).value; var q := i + p + |x|;
      q <= |s| && TextAfter(s[i..LineEnd(s, i)], x) == s[q..LineEnd(s, q)]
  {
    var e := LineEnd(s, i);
    var p := Find(s[i..e], x).value;
    var q := i + p + |x|;
    SliceTail(s, i, e, p + |x|);
    LineEndFrom(s, i, q);
  }

  /** The text the loop takes from a line holding `x` is the reference text for the output. */
  lemma TextAfterInLine(x: string, s: string, i: nat)
    requires OnOneLine(x)
    requires i < |s|
    requires Contains(s[i..LineEnd(s, i)], x)
    ensures RestOfLine(s, x, FindFrom(s, x, i)) == Some(TextAfter(s[i..LineEnd(s, i)], x))
  {
    FindInLine(x, s, i);
    RestOfFirstInLine(x, s, i);
  }

  /** The rest of the output's line after the line's first occurrence is the text after it in the line. */
  lemma RestOfFirstInLine(x: string, s: string, i: nat)
    requires OnOneLine(x)
    requires i < |s|
    requires Contains(s[i..LineEnd(s, i)], x)
    ensures IsPrefixAt(x, s, i + Find(s[i..LineEnd(s, i)], x).value)
    ensures RestOfLine(s, x, Some(i + Find(s[i..LineEnd(s, i)], x).value)) == Some(TextAfter(s[i..LineEnd(s, i)], x))
  {
    FirstAt(x, s, i, LineEnd(s, i), Find(s[i..LineEnd(s, i)], x).value);
  }

  /** The slice form of `RestOfFirstInLine`, with the line end and the offset named. */
  lemma FirstAt(x: string, s: string, i: nat, e: nat, p: nat)
    requires OnOneLine(x)
    requires i < |s| && e == LineEnd(s, i)
    requires Contains(s[i..e], x) && p == Find(s[i..e], x).value
    ensures IsPrefixAt(x, s, i + p)
    ensures RestOfLine(s, x, Some(i + p)) == Some(TextAfter(s[i..e], x))
  {
    FindInLine(x, s, i);
    TailInLine(x, s, i);
    RestOfLineAt(s, x, i + p, TextAfter(s[i..e], x));
  }

  lemma RestOfLineAt(s: string, x: string, g: nat, t: string)
    requires IsPrefixAt(x, s, g)
    requires t == s[g + |x|..LineEnd(s, g + |x|)]
    ensures RestOfLine(s, x, Some(g)) == Some(t)
  {
  }

  /** Line by line from `i`, the loop's answer is the reference answer for the rest of the output. */
  lemma {:induction false} LinesAgreeFrom(x: string, s: string, i: nat)
    requires OnOneLine(x)
    requires i <= |s|
    ensures FirstLineWith(LinesFrom(s, i), x) == RestOfLine(s, x, FindFrom(s, x, i))
    decreases |s| - i
  {
    if i == |s| {
      assert !IsPrefixAt(x, s, i);
    } else {
      var e := LineEnd(s, i);
      var ls := LinesFrom(s, i);
      LinesFromHead(s, i);
      if Contains(ls[0], x) {
        TextAfterInLine(x, s, i);
      } else {
        FindPastLine(x, s, i);
        if e < |s| {
          LinesAgreeFrom(x, s, NextLine(s, e));
        }
      }
    }
  }

  /** The line end seen from inside a line is that line's end. */
  lemma LineEndFrom(s: string, i: nat, j: nat)
    requires i <= |s| && i <= j <= LineEnd(s, i)
    ensures LineEnd(s, j) == LineEnd(s, i)
    decreases LineEnd(s, i) - j
  {
    if j < LineEnd(s, i) {
      LineEndFrom(s, i, j + 1);
    }
  }

  /** Reading the output line by line gives the same file name as the reference rule. */
  lemma DestinationOfIsFirstOccurrence(stdout: string)
    ensures DestinationOf(stdout) == DestinationRef(stdout)
  {
    MarkerOnOneLine();
    LinesAgreeFrom(Marker, stdout, 0);
  }

  /** `"Error: " + (stderr.strip() if stderr else "Unknown error")` */
  function ErrorText(stderr: string): (msg: string)
    ensures StartsWith(msg, "Error: ")
    ensures stderr == [] ==> msg == "Error: Unknown error"
    ensures stderr != [] ==> msg[7..] == Strip(stderr)
  {
    "Error: " + (if stderr != [] then Strip(stderr) else "Unknown error")
  }

  const Downloaded := "Success: Video downloaded successfully!"

  /** The success message that names the saved file; `extra` is appended after the size. */
  function SavedText(path: string, size: string, extra: string): (msg: string)
    ensures StartsWith(msg, Downloaded)
  {
    Downloaded + "\nSaved to: " + path + "\nFile size: " + size + " MB" + extra
  }

  /**
   * The file system as the report code consults it: whether a path exists,
   * the file size already formatted to two decimals, and the output
   * directory's listing.
   */
  datatype Disk = Disk(pathExists: string -> bool, sizeText: string -> string, dir: Dir)

  /** The name of the most recently modified entry of a non-empty listing. */
  function NewestName(d: Dir): string
    requires d.Listed? && |d.entries| > 0
  {
    d.entries[NewestIndex(d.entries)].name
  }

  /** The listing is non-empty and `accept` allows its newest name. */
  predicate NewestAccepted(d: Dir, accept: string -> bool) {
    d.Listed? && |d.entries| > 0 && accept(NewestName(d))
  }

  /** Where the reported file came from. */
  datatype Found = FromDestination(path: string) | FromNewest(path: string) | NotFound | ListingError(message: string)

  /**
   * The file the success message names: the reported destination when it is
   * non-empty and exists; otherwise the newest entry of the directory when
   * `accept` allows its name; otherwise none.
   */
  function FindSaved(stdout: string, outputPath: string, accept: string -> bool, disk: Disk): (f: Found)
    requires outputPath != []
    ensures f.FromDestination? <==> DestinationOf(stdout).Some? && DestinationOf(stdout).value != [] && disk.pathExists(DestinationOf(stdout).value)
    ensures f.FromDestination? ==> f.path == DestinationOf(stdout).value
    ensures f.FromNewest? ==> NewestAccepted(disk.dir, accept) && f.path == JoinPath(outputPath, NewestName(disk.dir))
    ensures f.ListingError? <==> !f.FromDestination? && disk.dir.ListFailed?
  {
    var d := DestinationOf(stdout);
    if d.Some? && d.value != [] && disk.pathExists(d.value) then FromDestination(d.value)
    else match disk.dir
      case ListFailed(m) => ListingError(m)
      case Listed(es) =>
        if |es| == 0 then NotFound
        else
          var latest := es[NewestIndex(es)].name;
          if accept(latest) then FromNewest(JoinPath(outputPath, latest)) else NotFound
  }

  /**
   * The message returned once the yt-dlp process has finished (or failed to
   * start). `extra(path)` is what follows the size; only the high-quality
   * downloader puts something there.
   */
  function Outcome(r: RunResult, outputPath: string, accept: string -> bool, disk: Disk, extra: string -> string): (msg: string)
    ensures r.Raised? ==> msg == "Error: " + r.message
    ensures FailedExit(r) ==> msg == ErrorText(r.stderr)
    ensures Succeeded(r) && outputPath == [] ==> msg == Downloaded
  {
    match r
    case Raised(m) => "Error: " + m
    case Exited(code, out, err) =>
      if code != 0 then ErrorText(err)
      else if outputPath == [] then Downloaded
      else match FindSaved(out, outputPath, accept, disk)
        case FromDestination(p) => SavedText(p, disk.sizeText(p), extra(p))
        case FromNewest(p) => SavedText(p, disk.sizeText(p), extra(p))
        case NotFound => Downloaded
        case ListingError(m) => "Error: " + m
  }

  /**
   * The message starts with "Success:" exactly when the process exited zero
   * and no directory listing was needed that then failed.
   */
  lemma OutcomeSuccessIff(r: RunResult, outputPath: string, accept: string -> bool, disk: Disk, extra: string -> string)
    ensures var msg := Outcome(r, outputPath, accept, disk, extra);
      StartsWith(msg, "Success:") <==>
        Succeeded(r) && (outputPath == [] || !FindSaved(r.stdout, outputPath, accept, disk).ListingError?)
  {
    var msg := Outcome(r, outputPath, accept, disk, extra);
    if r.Raised? {
      ErrorPrefixed(r.message);
      ErrorIsNotSuccess(msg);
    } else if FailedExit(r) {
      ErrorIsNotSuccess(msg);
    } else if outputPath == [] {
      DownloadedIsSuccess(msg);
    } else {
      var f := FindSaved(r.stdout, outputPath, accept, disk);
      if f.ListingError? {
        ErrorPrefixed(f.message);
        assert msg == "Error: " + f.message;
        ErrorIsNotSuccess(msg);
      } else {
        assert StartsWith(msg, Downloaded);
        DownloadedIsSuccess(msg);
      }
    }
  }

  lemma ErrorPrefixed(m: string)
    ensures StartsWith("Error: " + m, "Error: ")
  {
    assert ("Error: " + m)[..7] == "Error: ";
  }

  /** A message that begins "Error: " does not begin "Success:". */
  lemma ErrorIsNotSuccess(msg: string)
    requires StartsWith(msg, "Error: ")
    ensures !StartsWith(msg, "Success:")
  {
    assert msg[0] == msg[..7][0] == 'E';
    if |msg| >= 8 {
      assert msg[..8][0] == msg[0];
    }
  }

  /** Every message that begins with the download notice begins "Success:". */
  lemma DownloadedIsSuccess(msg: string)
    requires StartsWith(msg, Downloaded)
    ensures StartsWith(msg, "Success:")
  {
    assert msg[..8] == msg[..|Downloaded|][..8];
  }


  /** A newest file whose name `accept` refuses never reaches the message. */
  lemma RefusedNewestIsIgnored(stdout: string, outputPath: string, accept: string -> bool, disk: Disk)
    requires outputPath != []
    requires disk.dir.Listed? && |disk.dir.entries| > 0
    requires !accept(disk.dir.entries[NewestIndex(disk.dir.entries)].name)
    ensures FindSaved(stdout, outputPath, accept, disk).FromDestination? || FindSaved(stdout, outputPath, accept, disk).NotFound?
  {
  }

  /**
   * `os.path.join(output_path, template) if output_path else template`: the
   * output template inside the download directory when one is given.
   */
  function OutputTemplate(outputPath: string, template: string): (t: string)
    ensures outputPath == [] ==> t == template
    ensures |template| > 0 && template[0] != '/' ==>
      EndsWith(t, template) && (outputPath == [] <==> t == template)
  {
    if outputPath != [] then JoinPath(outputPath, template) else template
  }

  /** What a yt-dlp download function did: the download command it ran, if it got that far, and the message it returned. */
  datatype Session = Session(ran: Option<seq<string>>, message: string)
}
