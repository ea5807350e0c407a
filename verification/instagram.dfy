/**
 * The Instagram downloader: the URL recogniser, the yt-dlp command line, the
 * single download attempt and the metadata read-back that follows it.
 */
module Instagram {
  import opened Wrappers
  import opened Regex
  import opened UrlPatterns
  import opened PyStr
  import opened Process
  import opened Listing
  import Quality

  /** `(www\.)?` */
  const Www: Re := Opt(Lit("www."))

  /** `[a-zA-Z0-9_.]+`, the user name in a story URL. */
  const UserChars: Re := Many(InRanges([('a', 'z'), ('A', 'Z'), ('0', '9'), ('_', '_'), ('.', '.')]), 1)

  /** A post, reel or TV URL: `https?://(www\.)?` + `lead` + `[a-zA-Z0-9_-]+/?` */
  function PostPattern(lead: string): Re {
    Cat(HttpScheme, Cat(Www, Cat(Lit(lead), Cat(IdChars, OptSlash))))
  }

  const StoryLead := "instagram.com/stories/"

  /** `https?://(www\.)?instagram\.com/stories/[a-zA-Z0-9_.]+/[0-9]+/?` */
  const StoryPattern: Re := Cat(HttpScheme, Cat(Www, Cat(Lit(StoryLead), Cat(UserChars, Cat(Lit("/"), Cat(AsciiDigits, OptSlash))))))

  const PostLead := "instagram.com/p/"
  const ReelLead := "instagram.com/reel/"
  const TvLead := "instagram.com/tv/"
  const ShortPostLead := "instagr.am/p/"
  const ShortReelLead := "instagr.am/reel/"

  /** The six accepted shapes, tried in order, each matched at the start of the URL only. */
  const Patterns: seq<Re> := [
    PostPattern(PostLead), PostPattern(ReelLead), StoryPattern,
    PostPattern(TvLead), PostPattern(ShortPostLead), PostPattern(ShortReelLead)
  ]

  /** `is_valid_instagram_url` */
  predicate IsValidUrl(url: string) {
    AnyMatchesPrefix(NoUnicode, Patterns, url)
  }

  /** What comes between the host part and the ID in the five post-like shapes. */
  predicate IsPostLead(lead: string) {
    lead == PostLead || lead == ReelLead || lead == TvLead || lead == ShortPostLead || lead == ShortReelLead
  }

  predicate IsUserChar(c: char) {
    'a' <= c <= 'z' || 'A' <= c <= 'Z' || '0' <= c <= '9' || c == '_' || c == '.'
  }

  predicate IsUser(u: string) {
    |u| > 0 && forall k :: 0 <= k < |u| ==> IsUserChar(u[k])
  }

  predicate IsDigits(t: string) {
    |t| > 0 && forall k :: 0 <= k < |t| ==> '0' <= t[k] <= '9'
  }

  /** `[a-zA-Z0-9_.]+` matches exactly the story user names. */
  lemma UserCharsLang(db: UnicodeDb, t: string)
    ensures InLang(db, UserChars, t) <==> IsUser(t)
  {
    var rs := [('a', 'z'), ('A', 'Z'), ('0', '9'), ('_', '_'), ('.', '.')];
    forall c: char ensures InRangeList(rs, c) <==> IsUserChar(c) {
      var r1, r2, r3, r4 := rs[1..], rs[2..], rs[3..], rs[4..];
      assert r1[1..] == r2 && r2[1..] == r3 && r3[1..] == r4 && r4[1..] == [];
      assert InRangeList(r4, c) <==> c == '.';
      assert InRangeList(r3, c) <==> c == '_' || c == '.';
      assert InRangeList(r2, c) <==> '0' <= c <= '9' || c == '_' || c == '.';
      assert InRangeList(r1, c) <==> 'A' <= c <= 'Z' || '0' <= c <= '9' || c == '_' || c == '.';
    }
  }

  predicate IsScheme(scheme: string) {
    scheme == "http://" || scheme == "https://"
  }

  predicate IsSub(sub: string) {
    sub == "" || sub == "www."
  }

  function PostUrl(scheme: string, sub: string, lead: string, id: string): string {
    scheme + (sub + (lead + id))
  }

  function StoryUrl(scheme: string, sub: string, user: string, num: string): string {
    scheme + (sub + (StoryLead + (user + ("/" + num))))
  }

  /** The URL begins with a post, reel or TV link: a trailing "/" or anything else may follow. */
  ghost predicate IsPostLink(url: string) {
    exists scheme, sub, lead, id :: IsPostParts(scheme, sub, lead, id) && StartsWith(url, PostUrl(scheme, sub, lead, id))
  }

  predicate IsPostParts(scheme: string, sub: string, lead: string, id: string) {
    IsScheme(scheme) && IsSub(sub) && IsPostLead(lead) && IsId(id)
  }

  /** The URL begins with a story link: user name, "/", numeric story ID. */
  ghost predicate IsStoryLink(url: string) {
    exists scheme, sub, user, num :: IsStoryParts(scheme, sub, user, num) && StartsWith(url, StoryUrl(scheme, sub, user, num))
  }

  predicate IsStoryParts(scheme: string, sub: string, user: string, num: string) {
    IsScheme(scheme) && IsSub(sub) && IsUser(user) && IsDigits(num)
  }

  /** Each pattern other than the third is the post pattern of one post-like lead. */
  lemma PatternAt(k: nat) returns (lead: string)
    requires k < |Patterns| && k != 2
    ensures Patterns[k] == PostPattern(lead) && IsPostLead(lead)
  {
    lead := if k == 0 then PostLead else if k == 1 then ReelLead else if k == 3 then TvLead
      else if k == 4 then ShortPostLead else ShortReelLead;
  }

  lemma StoryIndex()
    ensures Patterns[2] == StoryPattern
  {
  }

  function PostIndex(lead: string): (k: nat)
    requires IsPostLead(lead)
    ensures k < |Patterns| && Patterns[k] == PostPattern(lead)
  {
    if lead == PostLead then 0 else if lead == ReelLead then 1 else if lead == TvLead then 3
    else if lead == ShortPostLead then 4 else 5
  }

  /** A post link, without the optional "/", is in the language of its pattern. */
  lemma PostPatternAccepts(scheme: string, sub: string, lead: string, id: string)
    requires IsPostParts(scheme, sub, lead, id)
    ensures InLang(NoUnicode, PostPattern(lead), PostUrl(scheme, sub, lead, id))
  {
    var db := NoUnicode;
    IdCharsLang(db, id);
    HttpSchemeAccepts(db, scheme);
    assert InLang(db, OptSlash, "");
    CatIntro(db, IdChars, OptSlash, id, "");
    assert id + "" == id;
    CatIntro(db, Lit(lead), Cat(IdChars, OptSlash), lead, id);
    CatIntro(db, Www, Cat(Lit(lead), Cat(IdChars, OptSlash)), sub, lead + id);
    CatIntro(db, HttpScheme, Cat(Www, Cat(Lit(lead), Cat(IdChars, OptSlash))), scheme, sub + (lead + id));
  }

  /** A story link, without the optional "/", is in the language of the story pattern. */
  lemma StoryPatternAccepts(scheme: string, sub: string, user: string, num: string)
    requires IsStoryParts(scheme, sub, user, num)
    ensures InLang(NoUnicode, StoryPattern, StoryUrl(scheme, sub, user, num))
  {
    var db := NoUnicode;
    UserCharsLang(db, user);
    AsciiDigitsLang(db, num);
    HttpSchemeAccepts(db, scheme);
    assert InLang(db, OptSlash, "");
    CatIntro(db, AsciiDigits, OptSlash, num, "");
    assert num + "" == num;
    CatIntro(db, Lit("/"), Cat(AsciiDigits, OptSlash), "/", num);
    CatIntro(db, UserChars, Cat(Lit("/"), Cat(AsciiDigits, OptSlash)), user, "/" + num);
    var r := Cat(UserChars, Cat(Lit("/"), Cat(AsciiDigits, OptSlash)));
    CatIntro(db, Lit(StoryLead), r, StoryLead, user + ("/" + num));
    CatIntro(db, Www, Cat(Lit(StoryLead), r), sub, StoryLead + (user + ("/" + num)));
    CatIntro(db, HttpScheme, Cat(Www, Cat(Lit(StoryLead), r)), scheme, sub + (StoryLead + (user + ("/" + num))));
  }

  /** `/?` matches nothing or a single "/". */
  lemma OptSlashOnly(db: UnicodeDb, t: string)
    requires InLang(db, OptSlash, t)
    ensures t == "" || t == "/"
  {
  }

  /** A string `t` followed by nothing or "/" starts with `t`. */
  lemma StartsBeforeSlash(t: string, slash: string)
    requires slash == "" || slash == "/"
    ensures StartsWith(t + slash, t)
  {
    assert (t + slash)[..|t|] == t;
  }

  /** Every string a post pattern matches is a post link, possibly followed by "/". */
  lemma PostPatternShape(lead: string, t: string) returns (scheme: string, sub: string, id: string)
    requires IsPostLead(lead)
    requires InLang(NoUnicode, PostPattern(lead), t)
    ensures IsPostParts(scheme, sub, lead, id)
    ensures StartsWith(t, PostUrl(scheme, sub, lead, id))
  {
    var db := NoUnicode;
    var k := CatSplit(db, HttpScheme, Cat(Www, Cat(Lit(lead), Cat(IdChars, OptSlash))), t);
    HttpSchemeOnly(db, t[..k]);
    scheme := t[..k];
    var w;
    sub, w := OptLitThenLit(db, "www.", lead, Cat(IdChars, OptSlash), t[k..]);
    var j := CatSplit(db, IdChars, OptSlash, w);
    id := w[..j];
    IdCharsLang(db, id);
    OptSlashOnly(db, w[j..]);
    AppendAssoc(sub, lead, w);
    AppendAssoc(lead, id, w[j..]);
    AppendAssoc(sub, lead + id, w[j..]);
    AppendAssoc(scheme, sub + (lead + id), w[j..]);
    StartsBeforeSlash(PostUrl(scheme, sub, lead, id), w[j..]);
  }

  /** Every string the story pattern matches is a story link, possibly followed by "/". */
  lemma StoryPatternShape(t: string) returns (scheme: string, sub: string, user: string, num: string)
    requires InLang(NoUnicode, StoryPattern, t)
    ensures IsStoryParts(scheme, sub, user, num)
    ensures StartsWith(t, StoryUrl(scheme, sub, user, num))
  {
    var db := NoUnicode;
    var r := Cat(UserChars, Cat(Lit("/"), Cat(AsciiDigits, OptSlash)));
    var k := CatSplit(db, HttpScheme, Cat(Www, Cat(Lit(StoryLead), r)), t);
    HttpSchemeOnly(db, t[..k]);
    scheme := t[..k];
    var w;
    sub, w := OptLitThenLit(db, "www.", StoryLead, r, t[k..]);
    var j := CatSplit(db, UserChars, Cat(Lit("/"), Cat(AsciiDigits, OptSlash)), w);
    user := w[..j];
    UserCharsLang(db, user);
    var v := LitThen(db, "/", Cat(AsciiDigits, OptSlash), w[j..]);
    var i := CatSplit(db, AsciiDigits, OptSlash, v);
    num := v[..i];
    AsciiDigitsLang(db, num);
    OptSlashOnly(db, v[i..]);
    StoryShapeJoin(scheme, sub, user, num, w, v, v[i..], t);
  }

  /** Reassembles the pieces the story shape proof splits off. */
  lemma StoryShapeJoin(scheme: string, sub: string, user: string, num: string, w: string, v: string, slash: string, t: string)
    requires slash == "" || slash == "/"
    requires v == num + slash
    requires w == user + ("/" + v)
    requires t == scheme + (sub + StoryLead + w)
    ensures StartsWith(t, StoryUrl(scheme, sub, user, num))
  {
    assert t == StoryUrl(scheme, sub, user, num) + slash;
    StartsBeforeSlash(StoryUrl(scheme, sub, user, num), slash);
  }

  /** A URL that starts with a match of a pattern starts with a match's whole text. */
  lemma StartsWithPrefix(url: string, j: nat, x: string)
    requires j <= |url| && StartsWith(url[..j], x)
    ensures StartsWith(url, x)
  {
    assert url[..j][..|x|] == url[..|x|];
  }

  /** A URL beginning with a post, reel or TV link is accepted, whatever follows the link. */
  lemma PostLinkAccepted(url: string, scheme: string, sub: string, lead: string, id: string)
    requires IsPostParts(scheme, sub, lead, id) && StartsWith(url, PostUrl(scheme, sub, lead, id))
    ensures IsValidUrl(url)
  {
    var t := PostUrl(scheme, sub, lead, id);
    PostPatternAccepts(scheme, sub, lead, id);
    SplitJoin(url, |t|);
    ShapeAcceptedPrefix(NoUnicode, Patterns, PostIndex(lead), t, url[|t|..]);
  }

  /** A URL beginning with a story link is accepted, whatever follows the link. */
  lemma StoryLinkAccepted(url: string, scheme: string, sub: string, user: string, num: string)
    requires IsStoryParts(scheme, sub, user, num) && StartsWith(url, StoryUrl(scheme, sub, user, num))
    ensures IsValidUrl(url)
  {
    var t := StoryUrl(scheme, sub, user, num);
    StoryPatternAccepts(scheme, sub, user, num);
    SplitJoin(url, |t|);
    StoryIndex();
    ShapeAcceptedPrefix(NoUnicode, Patterns, 2, t, url[|t|..]);
  }

  /** Some pattern is in the language of a prefix of every accepted URL. */
  lemma MatchedPrefix(url: string) returns (k: nat, j: nat)
    requires IsValidUrl(url)
    ensures k < |Patterns| && j <= |url| && InLang(NoUnicode, Patterns[k], url[..j])
  {
    AnyMatchesPrefixIff(NoUnicode, Patterns, url);
    k :| 0 <= k < |Patterns| && MatchesPrefix(NoUnicode, Patterns[k], url);
    MatchesPrefixIff(NoUnicode, Patterns[k], url);
    j :| 0 <= j <= |url| && InLang(NoUnicode, Patterns[k], url[..j]);
  }

  /** Every accepted URL begins with a post, reel or TV link or with a story link. */
  lemma ValidUrlIsLink(url: string)
    requires IsValidUrl(url)
    ensures IsPostLink(url) || IsStoryLink(url)
  {
    var k, j := MatchedPrefix(url);
    if k == 2 {
      StoryIndex();
      var scheme, sub, user, num := StoryPatternShape(url[..j]);
      StartsWithPrefix(url, j, StoryUrl(scheme, sub, user, num));
    } else {
      var lead := PatternAt(k);
      var scheme, sub, id := PostPatternShape(lead, url[..j]);
      StartsWithPrefix(url, j, PostUrl(scheme, sub, lead, id));
    }
  }

  /**
   * A URL is accepted exactly when it begins with a post, reel or TV link
   * (on instagram.com or instagr.am) or with a story link; whatever follows
   * is not looked at.
   */
  lemma IsValidUrlIff(url: string)
    ensures IsValidUrl(url) <==> IsPostLink(url) || IsStoryLink(url)
  {
    if IsValidUrl(url) {
      ValidUrlIsLink(url);
    }
    if IsPostLink(url) {
      var scheme, sub, lead, id :| IsPostParts(scheme, sub, lead, id) && StartsWith(url, PostUrl(scheme, sub, lead, id));
      PostLinkAccepted(url, scheme, sub, lead, id);
    }
    if IsStoryLink(url) {
      var scheme, sub, user, num :| IsStoryParts(scheme, sub, user, num) && StartsWith(url, StoryUrl(scheme, sub, user, num));
      StoryLinkAccepted(url, scheme, sub, user, num);
    }
  }

  /** Only http and https URLs are accepted. */
  lemma ValidUrlIsHttp(url: string)
    requires IsValidUrl(url)
    ensures StartsWith(url, "http://") || StartsWith(url, "https://")
  {
    forall k | 0 <= k < |Patterns| ensures Patterns[k].Cat? && Patterns[k].first == HttpScheme {
      PatternIsUrl(k);
    }
    PrefixAcceptsOnlyHttp(NoUnicode, Patterns, url);
  }

  /** Each of the six patterns begins with `https?://`. */
  lemma PatternIsUrl(k: nat)
    requires k < |Patterns|
    ensures Patterns[k].Cat? && Patterns[k].first == HttpScheme
  {
    if k == 2 {
      assert Patterns[k] == StoryPattern;
    } else {
      var lead := [PostLead, ReelLead, StoryLead, TvLead, ShortPostLead, ShortReelLead][k];
      assert Patterns[k] == PostPattern(lead);
    }
  }

  /** The output file name, relative to the download directory; the title is cut to 50 characters by yt-dlp. */
  const Template := "%(uploader)s_%(upload_date)s_%(title).50s.%(ext)s"

  /** The download command: chosen format, mp4 merge, an info JSON next to the video, the URL last. */
  function Command(url: string, quality: string, tools: Tools, dir: string): (cmd: seq<string>)
    ensures |cmd| == 13 && cmd[0] == tools.ytdlp && cmd[12] == url
    ensures cmd[2] == "--ffmpeg-location" && cmd[3] == DirName(tools.ffmpeg)
    ensures cmd[4] == "-f" && cmd[5] == Quality.Selector(quality)
    ensures cmd[8] == "-o" && cmd[10] == "--write-info-json"
    ensures EndsWith(cmd[9], Template)
  {
    Args(tools.ytdlp, tools.FfmpegDir(), Quality.Selector(quality), JoinPath(dir, Template), url)
  }

  /** The command's list, its computed parts passed in. */
  function Args(ytdlp: string, ffmpegDir: string, format: string, output: string, url: string): (cmd: seq<string>)
    ensures |cmd| == 13 && cmd[0] == ytdlp && cmd[2] == "--ffmpeg-location" && cmd[3] == ffmpegDir && cmd[12] == url
    ensures cmd[4] == "-f" && cmd[5] == format && cmd[8] == "-o" && cmd[9] == output && cmd[10] == "--write-info-json"
  {
    [ytdlp, "--no-warnings", "--ffmpeg-location", ffmpegDir,
     "-f", format, "--merge-output-format", "mp4",
     "-o", output, "--write-info-json", "--no-playlist", url]
  }

  /** The "description" entry of the info JSON, as `metadata.get` returns it. */
  datatype Field =
    | Absent                    // no such key: the default 'No caption' is used
    | Text(s: string)           // a JSON string
    | Other(sliceable: bool)    // a JSON array (which `[:100]` accepts) or a number, object, boolean or null

  /** Reading and parsing the info JSON: a JSON object, or the message of the exception raised. */
  datatype Metadata = Loaded(description: Field) | Unreadable(message: string)

  const CaptionLimit := 100
  const NoCaption := "No caption"

  /** `metadata.get('description', 'No caption')[:100]` when the value is a string or absent. */
  function Caption(f: Field): (c: Option<string>)
    ensures c.Some? <==> !f.Other?
    ensures f.Absent? ==> c == Some(NoCaption)
    ensures f.Text? ==> |c.value| == (if |f.s| <= CaptionLimit then |f.s| else CaptionLimit)
    ensures f.Text? ==> StartsWith(f.s, c.value)
  {
    match f
    case Absent => Some(NoCaption)
    case Text(s) => Some(if |s| <= CaptionLimit then s else s[..CaptionLimit])
    case Other(_) => None
  }

  /** A caption of at most 100 characters is shown whole, and cutting a cut caption changes nothing. */
  lemma CaptionShortIsWhole(s: string)
    ensures |s| <= CaptionLimit ==> Caption(Text(s)) == Some(s)
    ensures Caption(Text(Caption(Text(s)).value)) == Caption(Text(s))
  {
  }

  /** Slicing the description raises for everything but strings, arrays and the default. */
  predicate CaptionRaises(f: Field) {
    f.Other? && !f.sliceable
  }

  /** How long ago, in seconds, the info JSON may have been written to be picked up. */
  const InfoWindow: real := 10.0
  const InfoSuffix := ".info.json"

  /**
   * The info JSON the read-back opens: the first entry of the listing, in
   * listing order, whose name ends with ".info.json" and which was modified
   * less than ten seconds ago. A failed listing yields none.
   */
  function InfoFile(dir: string, listing: Dir, now: real): (p: Option<string>)
    ensures p.Some? ==> (listing.Listed? &&
      exists k :: 0 <= k < |listing.entries| && Wanted(listing.entries[k], InfoSuffix, now, InfoWindow) &&
        p.value == JoinPath(dir, listing.entries[k].name))
    ensures p.None? <==> (listing.ListFailed? ||
      forall k :: 0 <= k < |listing.entries| ==> !Wanted(listing.entries[k], InfoSuffix, now, InfoWindow))
  {
    match listing
    case ListFailed(_) => None
    case Listed(es) =>
      match FirstWanted(es, InfoSuffix, now, InfoWindow)
      case None => None
      case Some(k) => Some(JoinPath(dir, es[k].name))
  }

  /**
   * Everything the download meets after starting: the subprocess outcome, the
   * directory listing and clock used to find the info JSON, and what reading
   * a JSON file at a path gives.
   */
  datatype Env = Env(run: RunResult, listing: Dir, now: real, read: string -> Metadata)

  /** The command run, if any; the boolean returned; the info JSON removed after printing its fields, if any. */
  datatype Outcome = Outcome(ran: Option<seq<string>>, ok: bool, removed: Option<string>)

  /**
   * The metadata read-back: the info JSON found is removed once its fields
   * have been printed; a failed listing, an unreadable file or a description
   * that cannot be sliced skips the removal. None of these changes the result.
   */
  function Cleanup(dir: string, env: Env): (removed: Option<string>)
    ensures removed.Some? ==> InfoFile(dir, env.listing, env.now) == removed
    ensures removed.Some? <==> (InfoFile(dir, env.listing, env.now).Some? &&
      env.read(InfoFile(dir, env.listing, env.now).value).Loaded? &&
      !CaptionRaises(env.read(InfoFile(dir, env.listing, env.now).value).description))
  {
    match InfoFile(dir, env.listing, env.now)
    case None => None
    case Some(path) =>
      match env.read(path)
      case Unreadable(_) => None
      case Loaded(f) => if CaptionRaises(f) then None else Some(path)
  }

  /**
   * `download_instagram_video`: an invalid URL returns False before anything
   * runs; otherwise the one command runs, and the result is True exactly when
   * it exits zero. The metadata read-back happens only then.
   */
  function Download(url: string, quality: string, tools: Tools, dir: string, env: Env): (r: Outcome)
    ensures !IsValidUrl(url) ==> r.ran.None? && !r.ok && r.removed.None?
    ensures IsValidUrl(url) ==> r.ran == Some(Command(url, quality, tools, dir))
    ensures r.removed.Some? ==> r.ok
    ensures r.ok ==> r.removed == Cleanup(dir, env)
    ensures !r.ok ==> r.removed.None?
  {
    if !IsValidUrl(url) then Outcome(None, false, None)
    else
      var cmd := Command(url, quality, tools, dir);
      if !Succeeded(env.run) then Outcome(Some(cmd), false, None)
      else Outcome(Some(cmd), true, Cleanup(dir, env))
  }

  /**
   * The result is True exactly for a valid URL whose command exits zero:
   * neither the listing, nor the clock, nor the info JSON's contents matter.
   */
  lemma DownloadSucceedsIff(url: string, quality: string, tools: Tools, dir: string, env: Env)
    ensures Download(url, quality, tools, dir, env).ok <==> IsValidUrl(url) && Succeeded(env.run)
  {
  }

  /** Two runs with the same subprocess outcome return the same result, whatever the metadata. */
  lemma MetadataDoesNotDecide(url: string, quality: string, tools: Tools, dir: string, e1: Env, e2: Env)
    requires e1.run == e2.run
    ensures Download(url, quality, tools, dir, e1).ok == Download(url, quality, tools, dir, e2).ok
    ensures Download(url, quality, tools, dir, e1).ran == Download(url, quality, tools, dir, e2).ran
  {
  }
}
