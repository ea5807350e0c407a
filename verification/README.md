# Video downloader decision logic in Dafny

This project models the pure decision layer of a set of Python video downloaders: command-line scripts for Facebook, TikTok, Twitter/X, Instagram and YouTube, plus a tkinter front end that calls them. Each script checks a URL with regular expressions, turns a quality choice into a yt-dlp format selector, builds the `yt-dlp`/`ffmpeg` argument list, runs it (with fallback stages on some platforms), and turns the outcome into a message or a True/False verdict.

Everything outside the scripts becomes a parameter:

- Processes: each `subprocess.run` is an oracle indexed by call number, giving the exit code, stdout and stderr, or an exception.
- Clocks, directory listings (name and mtime) and file-exists tests are parameters.
- `urllib.parse` Unicode hooks and Python's Unicode character tables are oracles.

The modules follow the program:

- `Regex` is a small regular-expression language with Python's `re.match` semantics. Its end-position matcher is proved equal to the language semantics. `Search` does the same for `re.search`, and `UrlPatterns` and `YouTubeUrl` hold the shared URL patterns.
- `PyStr`, `PyUrl` and `Argv` model the Python library pieces the scripts use: `str.replace`/`strip`/`splitlines`, `os.path.join`/`dirname`, `urlsplit`/`urlparse`/`parse_qs`, and `list.insert`.
- `Quality`, `Process`, `Listing` and `Report` hold the shared tables, the stage sequencer, newest-file selection and the message construction.
- One module per downloader: `Facebook`, `TikTok`, `Twitter`, `Instagram`, `YouTubeHq`, `YouTubeSimple`, `YouTubeAlt`, `YouTubeSelenium` with `SeleniumUrl`, and `YouTubePytube`.
- `Gui` holds the front end's label tables, its empty-URL guard and its Twitter result display.

## Model

| member | source | states |
|---|---|---|
| Quality.Selector | facebook_downloader.py:143-149 | "medium" and "worst" get their own selectors and every other quality name, unknown ones included, gets the "best" selector |
| Quality.MenuQuality | facebook_downloader.py:279-286 | menu answers "2" and "3" pick medium and worst; any other answer, empty included, picks best |
| Argv.ListInsert | facebook_downloader.py:184-185 | `insert(i, x)` puts `x` at index `i` when `0 <= i <= len`, appends it past the end, puts it at `len + i` for a negative `i` down to `-len`, and first below that; the elements before it are unchanged and those after it are the old ones shifted up by one |
| Argv.SetLast | facebook_downloader.py:198 | assigning `cmd[-1]` keeps the length and every earlier element and puts the new value last |
| Argv.InsertTwiceBeforeLast | facebook_downloader.py:182-185 | two `insert(-1, ...)` calls put both items, in call order, just before the element that stays last |
| Listing.Recent | facebook_downloader.py:234-235 | the comprehension keeps exactly the listed entries with the suffix that are younger than the window |
| Listing.RecentAppend | facebook_downloader.py:234-235 | the comprehension keeps listing order: filtering two listings put together is filtering each and putting the results together |
| Listing.RecentSingle | facebook_downloader.py:234-235 | one entry survives the comprehension exactly when it has the suffix and is recent |
| Listing.NewestIndex | facebook_downloader.py:238 | `max(..., key=getmtime)` picks an entry no other entry is newer than, and the first of several equally new ones |
| Listing.FirstMaximalUnique | facebook_downloader.py:238 | only one index is the first newest one, so the choice of `max` is determined |
| Listing.Newest | facebook_downloader.py:238 | the left-to-right scan with a strict comparison returns that same first newest index |
| Listing.NewestWanted | facebook_downloader.py:234-239 | no file is reported exactly when no recent file has the suffix; otherwise the reported one is recent, has the suffix, and is no older than any other such file |
| Listing.FirstWanted | youtube_downloader_selenium.py:342-345 | the loop with `break` finds the first wanted entry in listing order, and none before it is wanted |
| Process.RunStages | facebook_downloader.py:173-222 | the commands run are a prefix of the stages; every stage before the last one run exited non-zero; the result is success exactly when the last one run exited zero; a failure after a non-zero exit means every stage ran |
| Process.RunStagesSucceedsIff | facebook_downloader.py:173-222 | the stages succeed exactly when some stage exits zero and every stage before it exited non-zero |
| Process.RunStagesStopsOnRaise | facebook_downloader.py:245-247 | an exception while starting stage k, after non-zero exits before it, is a failure and no later stage runs |
| Process.RunStagesFailsIffExhausted | facebook_downloader.py:220-222 | when no stage raises, the stages fail exactly when every one exits non-zero |
| Facebook.IsValidUrlIff | facebook_downloader.py:98-114 | a URL is accepted exactly when one of the eight patterns matches at its start |
| Regex.AnyMatchesPrefixExtend | facebook_downloader.py:111-113 | `re.match` anchors only the start, so anything appended to a URL that one of the patterns accepts keeps it accepted; the Facebook and Instagram URL checks (instagram_downloader.py:109-111 has the same loop) both inherit this |
| Facebook.ValidUrlIsHttp | facebook_downloader.py:100-109 | every accepted URL starts with "http://" or "https://" |
| Facebook.ReelUrlAccepted | facebook_downloader.py:107 | a reel URL with a numeric ID is accepted on every host form, with or without "www.", "m." or "web.", whatever follows it |
| Facebook.PrimaryCommand | facebook_downloader.py:143-166 | the first command has 14 entries, yt-dlp first and the URL last, with the format picked from the quality table and the dated file name |
| Facebook.CookieCommandShape | facebook_downloader.py:182-185 | the cookie command is the first command with "--cookies-from-browser" and "chrome" inserted before the URL, which stays last |
| Facebook.MobileUrlCases | facebook_downloader.py:194-196 | a URL holding "www.facebook.com" has only that rewritten; otherwise every "facebook.com" is rewritten |
| Facebook.MobileUrlKeepsOtherHosts | facebook_downloader.py:194-196 | a URL without "facebook.com", such as an fb.watch link, is left as it is |
| Facebook.MobileUrlOfMobileHost | facebook_downloader.py:194-196 | a URL already on m.facebook.com becomes one on m.m.facebook.com |
| Facebook.BasicCommand | facebook_downloader.py:206-217 | the last-resort command has 13 entries: the "best" format, no certificate check, the ID file name and the mobile URL last |
| Facebook.Stages | facebook_downloader.py:155-217 | the four commands tried: the first; the first with the cookie flags before the URL; the first again with its URL replaced by the mobile URL, the cookie flags having gone into a copy; the last-resort command |
| Facebook.Download | facebook_downloader.py:128-130 | an invalid URL runs nothing and fails; a valid one runs one to four of the stages in order, stops at the first zero exit, and fails on an exception |
| Facebook.DownloadSucceedsIff | facebook_downloader.py:173-243 | a valid URL's download succeeds exactly when some stage exits zero and every earlier stage exited non-zero |
| Facebook.DownloadRunsStages | facebook_downloader.py:173-222 | a valid URL's download is the retry sequence over the four stages |
| Facebook.DownloadFailsOnlyWhenExhausted | facebook_downloader.py:220-222 | when no subprocess raises, the download fails exactly when all four stages exit non-zero |
| Facebook.DownloadStopsOnException | facebook_downloader.py:245-247 | an exception in stage k ends the download with failure after exactly k + 1 commands |
| TikTok.ValidUrlIsHttp | tiktok_downloader.py:101-112 | every accepted URL starts with "http://" or "https://" |
| TikTok.ShortLinkPatternRedundant | tiktok_downloader.py:104-106 | every URL the third pattern (`/t/` short links) accepts is accepted by the first pattern already |
| TikTok.IsValidUrlIff | tiktok_downloader.py:101-112 | a URL is accepted exactly when the first or the second pattern matches at its start |
| TikTok.VideoIdIn | tiktok_downloader.py:118-120 | the search finds a group exactly when the video path occurs somewhere, and the group is a non-empty run of decimal digits |
| TikTok.MobileIdIn | tiktok_downloader.py:132-134 | the mobile search finds a group exactly when "m.tiktok.com/v/" followed by digits occurs, and the group is non-empty digits |
| TikTok.UserIn | tiktok_downloader.py:241 | `@([^/]+)` finds a group exactly when some "@" is followed by a non-slash, and the group is non-empty and slash-free |
| TikTok.ExtractId | tiktok_downloader.py:114-139 | a video ID in the URL itself wins; any answer is non-empty digits; a URL with no short-link marker and no video path gets the mobile ID or nothing, without any request |
| TikTok.VmHostHasMobileHost | tiktok_downloader.py:239 | every URL containing "vm.tiktok.com" contains "m.tiktok.com", so the first half of the Method 3 test is redundant |
| TikTok.MobileUrlNoneIff | tiktok_downloader.py:237-244 | the rewrite raises exactly when the URL lacks "m.tiktok.com", holds an "@", and no "@" is followed by a non-slash; a URL already on m.tiktok.com is kept |
| TikTok.MobileUrlIsMobile | tiktok_downloader.py:237-244 | a successful rewrite of a URL mentioning "tiktok.com" mentions "m.tiktok.com" |
| TikTok.CroppedFileIsNotTempFile | tiktok_downloader.py:216-317 | the crop's output name differs from its input name for every directory and ID |
| TikTok.FirstCommand | tiktok_downloader.py:173-199 | Method 1 has 18 entries, yt-dlp first and the URL last, the format from the quality table and the no-watermark file name |
| TikTok.TempCommand | tiktok_downloader.py:216-227 | the watermarked download has 9 entries and writes the temporary file named after the ID |
| TikTok.MobileCommand | tiktok_downloader.py:246-258 | Method 3 has 16 entries, the "best" format, the phone user agent and the rewritten URL last |
| TikTok.FinalCommand | tiktok_downloader.py:267-277 | the final attempt has 12 entries, the "b" format and the original URL last |
| TikTok.CropCommand | tiktok_downloader.py:307-318 | the crop runs ffmpeg on the temporary file and writes a different file |
| TikTok.Commands | tiktok_downloader.py:186-318 | the command lines of the started steps, one per step, in order |
| TikTok.CropStep | tiktok_downloader.py:321-335 | the crop runs, and the download succeeds exactly when it exits zero and the clean-up works: a failed crop makes `shutil.move` raise on the deleted file |
| TikTok.AfterFallback | tiktok_downloader.py:285-304 | after Method 3 or the final attempt exits zero, the result is True exactly when a recent .mp4 is listed or, with the listing readable, the crop exits zero and its cleanup works; the crop is started only when the listing was read and held no recent .mp4 |
| TikTok.FinalStep | tiktok_downloader.py:279-283 | the final attempt always runs first; True needs it to exit zero and then a recent .mp4 or a working crop (subprocess 4); a second step happens exactly when it exits zero and the readable listing has no recent .mp4 |
| TikTok.Fallbacks | tiktok_downloader.py:237-283 | a rewrite that raises fails with nothing started; otherwise Method 3 runs first, with the rewritten URL |
| TikTok.AfterId | tiktok_downloader.py:210-232 | with no video ID nothing more runs and the download fails; with one, the temporary download runs next |
| TikTok.AfterFirst | tiktok_downloader.py:205-335 | after Method 1 fails, the result depends on the ID extraction's answer as `AfterId` states |
| TikTok.Download | tiktok_downloader.py:153-155 | an invalid URL starts nothing and fails; a valid one starts Method 1 first and at most five processes in all |
| TikTok.DownloadLastSucceeded | tiktok_downloader.py:201-354 | every True verdict comes right after a process that exited zero, which is the last one started |
| TikTok.FirstMethodDecides | tiktok_downloader.py:203-205 | Method 1 exiting zero decides the download: True, and nothing else runs |
| TikTok.NoVideoIdFails | tiktok_downloader.py:210-213 | when Method 1 fails and no ID can be extracted, the download fails after one command |
| TikTok.TempSuccessCrops | tiktok_downloader.py:306-335 | after the temporary download succeeds the crop runs, and a crop that exits non-zero makes the download fail |
| TikTok.AllMethodsFail | tiktok_downloader.py:281-283 | when all four yt-dlp methods exit non-zero, the download fails after exactly those four commands |
| TikTok.MobileSuccessWithoutFileCrops | tiktok_downloader.py:285-306 | when Method 3 succeeds but no recent .mp4 is listed, control falls through to the crop of a temporary file Method 2 never wrote |
| TikTok.MobileSuccessWithFile | tiktok_downloader.py:292-301 | when Method 3 succeeds and a recent .mp4 is listed, the download succeeds after three commands |
| Twitter.StatusUrlAccepted | twitter_downloader.py:144-155 | every status URL with accepted parts is accepted, with or without one trailing newline, which `$` lets through |
| Twitter.ValidUrlShape | twitter_downloader.py:144-155 | every accepted URL is such a status URL, possibly followed by one newline: http or https, no subdomain or "www." or "mobile.", twitter.com or x.com, word-character user, digit tweet number, optional "?" query |
| Twitter.ValidUrlIsHttp | twitter_downloader.py:144-155 | every accepted URL starts with "http://" or "https://" |
| Twitter.FormatChoice | twitter_downloader.py:207-226 | the typed format ID is used when the video information was found and the user chose to pick one; the quality name otherwise |
| Twitter.BaseCommand | twitter_downloader.py:233-243 | the download command has 11 entries: yt-dlp, the URL, the format and the output template in their places |
| Twitter.Command | twitter_downloader.py:245-248 | "--ffmpeg-location" and ffmpeg's directory are appended exactly when ffmpeg was found, and nothing else changes |
| Twitter.Download | twitter_downloader.py:175-292 | nothing is downloaded exactly when the information was found and the `-F` listing raised, and the message is then that error; otherwise the download command ran |
| Twitter.DownloadSuccessIff | twitter_downloader.py:260-292 | the message starts with "Success:" exactly when the download ran, exited zero, and no directory listing was needed that then failed |
| Twitter.MenuMatches | twitter_downloader.py:342-349 | the Twitter quality menu is the same mapping as the other downloaders' menus |
| Report.LinesFrom | twitter_downloader.py:265 | `splitlines` gives lines without boundary characters, and no lines exactly for empty text |
| Report.DestinationRef | twitter_downloader.py:265-270 | the reference rule finds a name exactly when "Destination:" occurs in the output |
| Report.DestinationOfIsFirstOccurrence | twitter_downloader.py:265-270 | the line-by-line loop finds the same name as the reference rule: the stripped rest of the line after the first "Destination:" in the whole output |
| Report.LinesAgreeFrom | twitter_downloader.py:267-270 | from any line start, the loop's answer over the remaining lines is the reference answer for the remaining output |
| Report.ErrorText | twitter_downloader.py:288-289 | the error message starts with "Error: ", says "Unknown error" for empty stderr, and otherwise carries stderr stripped |
| Report.SavedText | twitter_downloader.py:274 | the message naming the saved file starts with the download notice |
| Report.FindSaved | twitter_downloader.py:263-286 | the reported destination is used exactly when it is non-empty and exists; the newest entry only when its name is accepted; a listing error only when the destination was not used and listing failed |
| Report.Outcome | twitter_downloader.py:261-292 | an exception gives "Error: " and its text; a non-zero exit gives the error text; a zero exit without an output directory gives the plain success notice |
| Report.OutcomeSuccessIff | twitter_downloader.py:261-292 | the message starts with "Success:" exactly when the process exited zero and no listing was needed that then failed |
| Report.RefusedNewestIsIgnored | twitter_downloader.py:280-284 | a newest file whose name is refused never reaches the message |
| Report.OutputTemplate | twitter_downloader.py:230 | without an output directory the template is used as it is; otherwise it is joined below the directory |
| Instagram.PostLinkAccepted | instagram_downloader.py:100-112 | a URL beginning with a post, reel or TV link on instagram.com or instagr.am is accepted, whatever follows |
| Instagram.StoryLinkAccepted | instagram_downloader.py:103 | a URL beginning with a story link is accepted, whatever follows |
| Instagram.ValidUrlIsLink | instagram_downloader.py:98-112 | every accepted URL begins with a post, reel or TV link or with a story link |
| Instagram.IsValidUrlIff | instagram_downloader.py:98-112 | a URL is accepted exactly when it begins with one of those links; what follows is not looked at |
| Instagram.ValidUrlIsHttp | instagram_downloader.py:100-107 | every accepted URL starts with "http://" or "https://" |
| Instagram.Command | instagram_downloader.py:141-163 | the command has 13 entries, yt-dlp first and the URL last, ffmpeg's directory, the format from the quality table, the title-cut file name and "--write-info-json" |
| Instagram.Caption | instagram_downloader.py:195 | a missing description shows "No caption"; a string one shows its first 100 characters, or all of it when shorter; other JSON values raise |
| Instagram.CaptionShortIsWhole | instagram_downloader.py:195 | a caption of at most 100 characters is shown whole, and cutting a cut caption changes nothing |
| Instagram.InfoFile | instagram_downloader.py:185-189 | the info JSON opened is the first listed entry ending in ".info.json" and younger than ten seconds; none when the listing fails or no entry qualifies |
| Instagram.Cleanup | instagram_downloader.py:183-203 | the info JSON is removed exactly when it was found, read, and its description could be sliced |
| Instagram.Download | instagram_downloader.py:126-209 | an invalid URL runs nothing and fails; a valid one runs the one command; on success the file removed is the one the metadata read-back removes, and on failure nothing is removed |
| Instagram.DownloadSucceedsIff | instagram_downloader.py:170-209 | the result is True exactly for a valid URL whose command exits zero |
| Instagram.MetadataDoesNotDecide | instagram_downloader.py:183-205 | two runs with the same subprocess outcome give the same result and command, whatever the listing, clock and JSON contents |
| YouTubeUrl.VideoUrlAccepted | youtube_downloader_hq.py:133-154 | every shorts, watch or youtu.be URL with an ID and an allowed tail is accepted, with or without one trailing newline |
| YouTubeUrl.ValidUrlShape | youtube_downloader_hq.py:133-154 | every accepted URL is such a URL, possibly followed by one newline, which `$` lets through |
| YouTubeUrl.IdPatternShape | youtube_downloader_hq.py:145-147 | every string a pattern matches is a scheme, an optional "www.", the pattern's lead, an ID and an allowed tail |
| YouTubeUrl.ValidUrlIsHttp | youtube_downloader_hq.py:133-154 | every accepted URL starts with "http://" or "https://" |
| YouTubeHq.FormatChoice | youtube_downloader_hq.py:204-228 | a typed format ID is used when the information was found; otherwise forcing picks the merge selector and not forcing picks "best"; without information the merge selector is used |
| YouTubeHq.ForcedIsMerge | youtube_downloader_hq.py:217-228 | unless the user typed a format, forcing high quality always means the merge selector |
| YouTubeHq.BestOnlyUnforced | youtube_downloader_hq.py:217-228 | plain "best" is chosen, when nothing was typed, exactly when the information was found and quality was not forced |
| YouTubeHq.Command | youtube_downloader_hq.py:234-246 | the command has 14 entries: yt-dlp, the URL, the format, the template and the mp4 merge flags in their places |
| YouTubeHq.ProbeBinary | youtube_downloader_hq.py:275 | the bare name "ffprobe" without ffmpeg; "ffprobe.exe" next to ffmpeg otherwise |
| YouTubeHq.ProbeCommand | youtube_downloader_hq.py:276-277 | the ffprobe query has 10 entries, the ffprobe binary first and the file last |
| YouTubeHq.Resolution | youtube_downloader_hq.py:274-283 | the text after the size is empty exactly when ffprobe gives no answer, and otherwise the resolution line with ffprobe's output |
| YouTubeHq.Download | youtube_downloader_hq.py:174-312 | nothing is downloaded exactly when the information was found and the `-F` listing raised, and the message is then that error; otherwise the download command ran |
| YouTubeHq.DownloadSuccessIff | youtube_downloader_hq.py:259-312 | the message starts with "Success:" exactly when the download ran, exited zero, and no needed listing failed |
| YouTubeHq.DestinationReported | youtube_downloader_hq.py:270-283 | when the reported destination exists, the message names it, gives its size and then the resolution as ffprobe printed it |
| YouTubeSimple.Selector | youtube_downloader_simple.py:98-106 | the four "Np" names get the selector capped at that height in every alternative, and every other name gets the uncapped best selector |
| YouTubeSimple.CapInEveryAlternative | youtube_downloader_simple.py:100-103 | each of the three alternatives of a capped selector carries the height cap |
| YouTubeSimple.CappedIsNotBest | youtube_downloader_simple.py:99-103 | no capped selector equals the best selector |
| YouTubeSimple.CappedIff | youtube_downloader_simple.py:98-106 | a quality name gets a capped selector exactly when it is one of the four "Np" names |
| YouTubeSimple.MenuQuality | youtube_downloader_simple.py:195-210 | menu answers "2", "3", "4" and "5" pick 1080p, 720p, 480p and 360p, as the printed menu lists them; any other answer, "1" included, picks best |
| YouTubeSimple.MenuInjective | youtube_downloader_simple.py:202-208 | different menu digits give different qualities |
| YouTubeSimple.Command | youtube_downloader_simple.py:112-121 | the command has 11 entries: yt-dlp, the URL, the selector for the quality and the template in their places |
| YouTubeSimple.Download | youtube_downloader_simple.py:89-164 | the command runs; the message starts with "Success:" exactly when it exited zero and no needed listing failed; a non-zero exit gives the error text |
| YouTubeSimple.NewestAlwaysReported | youtube_downloader_simple.py:149-156 | when the reported destination is missing, the newest file of a non-empty directory is reported whatever its extension |
| YouTubeAlt.Locate | youtube_downloader_alt.py:19-59 | "yt-dlp" is used when its version check runs, an exception of the check reaches the caller, and a failed download exits with status 1 |
| YouTubeAlt.LocateOrder | youtube_downloader_alt.py:22-44 | the download only matters when PATH and the local copy both came up empty, and an existing local copy is used without downloading |
| YouTubeAlt.LocateUsesIff | youtube_downloader_alt.py:19-59 | a binary is found exactly when the version check runs, or, barring a raised check, a local copy exists or is fetched |
| YouTubeAlt.Command | youtube_downloader_alt.py:107-114 | the command has 9 entries: the binary, the URL, the fixed selector and the template in their places |
| YouTubeAlt.Download | youtube_downloader_alt.py:84-156 | the program ends exactly when the lookup exits; a raised lookup becomes the error message without running anything; otherwise the command runs with the binary found |
| YouTubeAlt.DownloadSuccessIff | youtube_downloader_alt.py:126-156 | barring an exit, the message starts with "Success:" exactly when a binary was found, the command exited zero and no needed listing failed |
| YouTubeAlt.FailedExitReported | youtube_downloader_alt.py:151-153 | a non-zero exit is reported with the stripped stderr, or "Unknown error" |
| YouTubePytube.Highest | youtube_downloader.py:95 | the chosen stream passes the filter and has a key, no passing stream has a greater key, every later one has a smaller key (the last of the equal greatest after the stable sort and `desc`), and there is none exactly when no passing stream has a key |
| YouTubePytube.FirstPassing | youtube_downloader.py:103 | the first stream that passes the filter, none before it passing, and none exactly when no stream passes |
| YouTubePytube.Choose | youtube_downloader.py:95-110 | a stream is chosen exactly when the video has any stream |
| YouTubePytube.ChooseOrder | youtube_downloader.py:95-107 | the cascade: best progressive mp4, else best adaptive mp4, else the first mp4, else the first stream |
| YouTubePytube.ChoosesBestProgressive | youtube_downloader.py:95 | if any progressive mp4 stream has a resolution key, the chosen stream is such a stream and none of them has a higher key |
| YouTubePytube.ChoosesMp4WhenThere | youtube_downloader.py:95-103 | if any stream is mp4, the chosen stream is mp4 |
| YouTubePytube.ResolutionText | youtube_downloader.py:113 | the stream's resolution when it has a non-empty one, "Unknown" otherwise |
| YouTubePytube.PytubeSuccess | youtube_downloader.py:128 | the pytube success message starts with the success text |
| YouTubePytube.AltErrorText | youtube_downloader.py:178-180 | the direct command's failure message starts with its own lead and carries the stripped stderr, or "Unknown error" |
| YouTubePytube.AltTextsDiffer | youtube_downloader.py:176-180 | the direct command's success and failure messages never coincide |
| YouTubePytube.DirectCommand | youtube_downloader.py:165-172 | the direct command is the alternative downloader's command line |
| YouTubePytube.BothFailed | youtube_downloader.py:181-182 | the joint failure message starts with "Error: " and the first exception |
| YouTubePytube.Recover | youtube_downloader.py:130-182 | with the alternative script present, a load error joins both errors and otherwise its call decides, exit included; without it, the direct command runs exactly when fetching yt-dlp did not raise, and a fetch error joins both errors |
| YouTubePytube.DirectOutcome | youtube_downloader.py:174-182 | the direct command reports success exactly when it exits zero, its failure with the stderr, and a start failure with both errors |
| YouTubePytube.Download | youtube_downloader.py:66-182 | an exception while fetching or saving falls back with its message; a video without streams gives the no-stream error; a saved stream gives the success message with the chosen stream's resolution |
| YouTubePytube.NoFallbackWithoutRaise | youtube_downloader.py:86-128 | without an exception nothing falls back, and the message is the no-stream error exactly when the video has no streams and a success otherwise |
| SeleniumUrl.ShortsId | youtube_downloader_selenium.py:124-126 | the group is the maximal run of ID characters right after a shorts head, and there is none exactly when no shorts head starts the URL or no ID character follows it |
| SeleniumUrl.ShortsIdIsMatch | youtube_downloader_selenium.py:124-125 | the shorts group is found exactly when the shorts pattern matches at the start of the URL |
| SeleniumUrl.ExtractVideoId | youtube_downloader_selenium.py:121-139 | the shorts group wins; otherwise only a `ValueError` from `urlparse` raises, and an ID found another way comes from a youtube.com or youtu.be host |
| SeleniumUrl.Validate | youtube_downloader_selenium.py:141-151 | a URL is valid exactly when an ID comes back, even an empty one, and the check raises exactly when the extraction does |
| SeleniumUrl.ShortsFound | youtube_downloader_selenium.py:124-126 | every shorts URL the other downloaders accept yields its own ID |
| SeleniumUrl.WatchFound | youtube_downloader_selenium.py:129-133 | every watch URL the other downloaders accept yields its `v` value |
| SeleniumUrl.ShortLinkFound | youtube_downloader_selenium.py:136-137 | every youtu.be URL the other downloaders accept without "www." yields its ID |
| SeleniumUrl.WwwShortLinkNotFound | youtube_downloader_selenium.py:136-139 | a youtu.be URL with "www." yields no ID, since the host test is exact |
| SeleniumUrl.EmptyShortLink | youtube_downloader_selenium.py:136-151 | "https://youtu.be/" yields the empty ID and is declared valid |
| SeleniumUrl.EmptyShortLinkRejected | youtube_downloader_hq.py:133-154 | the regular-expression validators reject "https://youtu.be/" |
| YouTubeSelenium.Identify | youtube_downloader_selenium.py:166-168 | the download goes on exactly with a non-empty ID; an extraction exception becomes its message, and a missing or empty ID gives the fixed error |
| YouTubeSelenium.ValidateNonEmpty | youtube_downloader_selenium.py:141-151 | the corrected validator accepts exactly the URLs with a non-empty ID |
| YouTubeSelenium.ValidateNonEmptyAgrees | youtube_downloader_selenium.py:141-168 | the corrected validator accepts a URL exactly when the download would go on with it |
| YouTubeSelenium.ValidatorDisagrees | youtube_downloader_selenium.py:141-168 | "https://youtu.be/" passes the validator as written, the corrected one refuses it, and the download stops on it with "could not extract" |
| YouTubeSelenium.Title | youtube_downloader_selenium.py:230-237 | the stripped heading when the page shows one; otherwise a default title that ends with the ID |
| YouTubeSelenium.SafeTitle | youtube_downloader_selenium.py:240 | same length, no forbidden character left, other characters unchanged and forbidden ones replaced by "_" |
| YouTubeSelenium.SafeTitleKeepsClean | youtube_downloader_selenium.py:240 | a title without forbidden characters is unchanged |
| YouTubeSelenium.SafeTitleIdempotent | youtube_downloader_selenium.py:240 | cleaning a title twice is cleaning it once |
| YouTubeSelenium.FileName | youtube_downloader_selenium.py:241-242 | the cleaned title, "_", the timestamp and ".mp4", never empty and never absolute |
| YouTubeSelenium.OutputFile | youtube_downloader_selenium.py:242 | the output file lies under the output directory and ends with the file name; without a directory it is the file name |
| YouTubeSelenium.YtDlpCommand | youtube_downloader_selenium.py:259-265 | 8 entries: the binary, the selector, the output file and the URL last |
| YouTubeSelenium.ExtractCommand | youtube_downloader_selenium.py:358 | the binary, "-g" and the URL |
| YouTubeSelenium.Methods | youtube_downloader_selenium.py:245-383 | the methods reached are a non-empty prefix of yt-dlp, browser, URL extraction |
| YouTubeSelenium.Download | youtube_downloader_selenium.py:153-390 | the methods are reached exactly when an ID came out, a webdriver was found, Chrome started and a directory was given; a stopped identification gives its message and nothing else |
| YouTubeSelenium.FileFor | youtube_downloader_selenium.py:236-242 | the output file ends with the name made from the title and timestamp |
| YouTubeSelenium.EarlierMethodsFailed | youtube_downloader_selenium.py:268-354 | a method is reached only when every earlier one failed to deliver, and URL extraction only when the browser raised nothing |
| YouTubeSelenium.MethodsSuccessIff | youtube_downloader_selenium.py:268-383 | the message is the last method's success text exactly when that method delivered |
| YouTubeSelenium.MethodsAllFailedIff | youtube_downloader_selenium.py:268-383 | URL extraction is reached exactly when neither earlier method delivered and the browser raised nothing, and then the all-failed error means it failed too |
| YouTubeSelenium.MethodsCommands | youtube_downloader_selenium.py:252-359 | the yt-dlp command starts first when its executable is there, and the extraction command only when that method is reached |
| YouTubeSelenium.SuccessNotError | youtube_downloader_selenium.py:271-383 | every success message starts with "Success:" and is not the all-failed error |
| YouTubeSelenium.ProgressOf | youtube_downloader_selenium.py:364-368 | a percentage is shown exactly when the total size is positive, and it never exceeds 100 |
| YouTubeSelenium.ProgressComplete | youtube_downloader_selenium.py:366 | once the bytes reach the total, the percentage is 100 |
| YouTubeSelenium.ProgressPartial | youtube_downloader_selenium.py:366 | before the bytes reach the total, the percentage is below 100 |
| YouTubeSelenium.ProgressMonotone | youtube_downloader_selenium.py:366 | more bytes never show a smaller percentage |
| Gui.PlatformChange | video_downloader_gui.py:217-241 | for a known platform the box is shown with three labels and the first selected, the YouTube labels exactly for YouTube; any other platform hides the box and leaves it as it was |
| Gui.PlatformChangeIdempotent | video_downloader_gui.py:217-241 | choosing the same platform twice is choosing it once |
| Gui.PlatformChangeForgets | video_downloader_gui.py:223-238 | for a known platform, the box afterwards does not depend on what it held before |
| Gui.PlatformChangeSelectsBest | video_downloader_gui.py:238 | after a change, the selected label stands for that platform's best: the "Maximum Quality" selector for YouTube, the quality "best" elsewhere |
| Gui.FormatString | video_downloader_gui.py:619-629 | other platforms pass the label unchanged; for YouTube "High Quality" gives "best", "Medium Quality" gives "18", and every other label the maximum selector |
| Gui.LabelQuality | video_downloader_gui.py:300-304 | the label table gives "medium" and "worst" exactly for their two labels and "best" for every other label |
| Gui.OtherLabelsDistinct | video_downloader_gui.py:230-232 | the three labels shown outside YouTube map to three different qualities |
| Gui.YouTubeLabelsDistinct | video_downloader_gui.py:228 | the three YouTube labels map to three different format strings |
| Gui.LabelSelector | video_downloader_gui.py:373-377 | outside YouTube, a label reaches the downloader's medium or worst selector exactly for its own label, and the best selector for every other label |
| Gui.StartDownload | video_downloader_gui.py:595-639 | the download is refused, with "Please enter a URL", exactly when the stripped entry is empty; otherwise it starts with the stripped URL and the mapped format |
| Gui.RefusedIff | video_downloader_gui.py:598-605 | the download is refused exactly when the entry is all white space |
| Gui.LStripEmptyIff | video_downloader_gui.py:598 | stripping the left leaves nothing exactly when the text is all white space |
| Gui.RStripEmptyIff | video_downloader_gui.py:598 | stripping the right leaves nothing exactly when the text is all white space |
| Gui.StartDownloadStripped | video_downloader_gui.py:598 | stripping the entry first changes nothing |
| Gui.AsciiReplace | video_downloader_gui.py:326-330 | same length, every character ASCII, ASCII characters kept and the others replaced by "?" |
| Gui.AsciiReplaceIdempotent | video_downloader_gui.py:330 | replacing twice is replacing once |
| Gui.AsciiReplaceKeepsIff | video_downloader_gui.py:330 | the text comes back unchanged exactly when it is all ASCII |
| Gui.AsciiReplacePrefixAt | video_downloader_gui.py:330-336 | an ASCII word without "?" occurs at a place after the replacement exactly when it occurred there before |
| Gui.TwitterShown | video_downloader_gui.py:326-341 | the status shows the replaced text; the success box appears exactly when that text contains "Success", and otherwise the error box shows the text |
| Gui.TwitterSuccessIff | video_downloader_gui.py:326-341 | the success box appears exactly when the downloader's own message contains "Success", so every "Success:" message gets it |
| Regex.Run | tiktok_downloader.py:118 | a class run stays in the string, covers only class members and stops before the first non-member |
| Regex.EndsSound | facebook_downloader.py:111-113 | the set of positions where a pattern can finish from i is exactly the set of j for which s[i..j] is in the pattern's language |
| Regex.MatchesPrefixIff | facebook_downloader.py:111-113 | `re.match` without `$` accepts exactly the strings that have a prefix in the pattern's language |
| Regex.MatchesWholeIff | youtube_downloader_hq.py:145-151 | `re.match` with `$` accepts exactly the strings that are in the language, or are in it without one trailing newline |
| Regex.MatchesPrefixExtend | facebook_downloader.py:111-113 | appending text never loses a prefix match |
| Regex.AnyMatchesPrefixIff | facebook_downloader.py:111-114 | the `for pattern in patterns` loop returns True exactly when some pattern matches a prefix |
| Regex.AnyMatchesWholeIff | youtube_downloader_hq.py:150-154 | the loop over anchored patterns returns True exactly when some pattern matches the whole string |
| Regex.RunIndependentOfDb | facebook_downloader.py:100-109 | a class without `\d` or `\w` runs the same whatever the Unicode tables say |
| Regex.EndsIndependentOfDb | facebook_downloader.py:100-109 | a pattern built from ASCII classes finishes at the same places whatever the Unicode tables say |
| Search.SearchFrom | tiktok_downloader.py:118 | `re.search` finds the leftmost position where the pattern matches, and none before it |
| Search.FindIff | tiktok_downloader.py:118 | `re.search` finds a match exactly when some substring is in the pattern's language |
| Search.SegmentGroupAt | tiktok_downloader.py:118 | the group computed for `lead[^/]+mid(c+)` is non-empty and made of class members |
| Search.SegmentGroupAtIff | tiktok_downloader.py:118 | that group is computed at a position exactly when the whole pattern matches there |
| PyUrl.CutAt | youtube_downloader_selenium.py:129 | cutting at the first c gives the text before it, free of c, and the text after it; the whole comes back when they are joined |
| PyUrl.SplitUrl | youtube_downloader_selenium.py:129 | the scheme is made of scheme characters, the host holds no delimiter, the path holds no "?" or "#", and the query no "#" |
| PyUrl.SplitRoundTrip | youtube_downloader_selenium.py:129 | joining the split pieces again gives the URL back, after removing leading blanks and tabs and newlines |
| PyUrl.NetlocError | youtube_downloader_selenium.py:129 | an unbalanced bracket in the host is a `ValueError`; a plain ASCII host without brackets is not |
| PyUrl.UrlParse | youtube_downloader_selenium.py:129-137 | `urlparse` raises exactly when the host is invalid; otherwise the host and query are the split ones, and the path too when it has no ";" |
| PyUrl.HttpParse | youtube_downloader_selenium.py:129-137 | an http or https URL with a plain host parses to that host, and to the path and query before the fragment |
| PyUrl.SplitOnJoin | youtube_downloader_selenium.py:131 | splitting at a character and joining with it again gives the text back |
| PyUrl.QueryFirst | youtube_downloader_selenium.py:131-133 | a first value for a name exists exactly when some "&" field names it, and it is the decoded value of the first such field, wherever it stands in the query |
| PyUrl.QueryFirstField | youtube_downloader_selenium.py:131-133 | a query that starts with "name=value" gives that value first |
| PyStr.FindFrom | twitter_downloader.py:268 | the first occurrence at or after i, and no earlier one |
| PyStr.ContainsIff | twitter_downloader.py:268 | `x in s` holds exactly when x occurs at some position of s |
| PyStr.ReplaceAbsent | facebook_downloader.py:194 | replacing a text that does not occur changes nothing |
| PyStr.ReplaceUnchangedIff | facebook_downloader.py:194-196 | replacing by something shorter leaves the text unchanged exactly when the old text does not occur |
| PyStr.ReplaceShowsReplacement | facebook_downloader.py:194 | after replacing an occurring text, the replacement occurs |
| PyStr.ReplaceNotLonger | facebook_downloader.py:194 | replacing by something no longer never lengthens the text |
| PyStr.ReplaceShrinks | facebook_downloader.py:194 | replacing an occurring text by something shorter shortens the text |
| PyStr.LStrip | twitter_downloader.py:269 | the left strip is a suffix that starts with a non-blank, and what it drops is all blank |
| PyStr.RStrip | twitter_downloader.py:269 | the right strip is a prefix that ends with a non-blank, and what it drops is all blank |
| PyStr.StripIdempotent | twitter_downloader.py:269 | stripping twice is stripping once |
| PyStr.LStripChar | youtube_downloader_selenium.py:137 | the result is a suffix that does not start with c, and only copies of c were dropped |
| PyStr.JoinPath | facebook_downloader.py:36 | an absolute second part replaces the first; otherwise exactly one '/' is put between the parts when the first is non-empty and does not end with '/', and none otherwise |
| PyStr.DirName | facebook_downloader.py:140 | the directory is a prefix of the path, empty exactly when the path has no '/', and ends with '/' only when it is all slashes |
| PyStr.DirNameShape | facebook_downloader.py:140 | the directory stops right before the run of slashes preceding the last component: it is followed in the path by a '/' unless it is a root made only of slashes (then no '/' follows it at all), and no '/' comes after that run |
| PyStr.DirNameUnique | facebook_downloader.py:140 | any string with those properties (a prefix of the path, empty exactly when the path has no '/', a root of slashes kept whole, otherwise stopping right before the final run of slashes) is the `dirname` result, so they determine it |
| PyStr.DirNameOfJoin | facebook_downloader.py:140 | `dirname(join(d, f))` for a slash-free file name `f` and a directory `d` that is not only slashes gives back `d` without trailing slashes, so when `ffmpeg_path` is `FFMPEG_PATH`, built at line 40 by joining "ffmpeg.exe" onto `FFMPEG_DIR`, `ffmpeg_dir` is `FFMPEG_DIR` again |

## Left out

- Binary bootstrap is left out because it is network, zip and registry work: `download_ytdlp`, `get_ffmpeg_path`, `download_webdriver` and `get_chrome_version`. The yt-dlp lookup order of youtube_downloader_alt.py is kept, with its outcomes as inputs (`YouTubeAlt.Locate`).
- What yt-dlp, ffmpeg and ffprobe do is left out; only the argument lists and the exit codes, stdout and stderr given to the scripts are modelled. This includes the meaning of format selectors and of the crop filter `crop=in_w*0.9:in_h*0.9`.
- Directory creation (`os.makedirs`) is assumed to succeed; a raising `makedirs` is not modelled, although it changes the outcome. Inside the `try` of twitter_downloader.py:187-190, youtube_downloader_hq.py:187-189, youtube_downloader_simple.py:90-92, youtube_downloader_alt.py:96-98 and youtube_downloader_selenium.py:171-172 the function returns "Error: " and the message. At youtube_downloader.py:82-83 the pytube `except` runs and the alternative downloader follows. At facebook_downloader.py:133, instagram_downloader.py:131 and tiktok_downloader.py:158 the call is outside any `try`, so the exception escapes the download function. In the front end (video_downloader_gui.py:259, 286, 359, 428, 495) the download thread's handler shows "Download failed: " and the message.
- The write test in the front end and the "new files" sets are left out because their results are only logged.
- The `main()` console loops, `input()` prompts and `sys.exit` on Ctrl-C are left out: the user's answers are parameters, and the menu digit maps are modelled.
- Clocks are left out: `datetime.now()`, `time.time()` and `time.sleep` become a timestamp or `now` parameter.
- File sizes in MB are left out because they are float division and `:.2f` formatting. A `sizeText` oracle supplies the printed size.
- `os.path.getsize` and `os.path.getmtime` are taken not to raise on listed files, since a listing carries each entry's mtime.
- The pytube calls and the `InnerTube._headers` patch are left out as a foreign library. Streams are records whose sort key stands for pytube's integer reading of the resolution.
- The Selenium page navigation and the injected JavaScript download are left out as browser I/O. What the script returns, the Downloads listing and the move are inputs.
- The `requests.head` redirect in the TikTok ID extractor is left out because it is network. An `Option<string>` input stands for the final URL, with `None` for an exception.
- Parts of CPython's `urllib.parse` are left out because they rest on Unicode tables: bracketed-host validation, the NFKC netloc check and percent-decoding. They are oracles in `PyUrl.UrlLib`, and the rest of `urlsplit`/`urlparse`/`parse_qs` is modelled.
- Python's Unicode-aware `\d` and `\w` are left out for non-ASCII characters, which come from a `UnicodeDb` oracle. ASCII characters are exact, and every pattern built only from ASCII classes is proved independent of the oracle.
- `os.path.join` and `os.path.dirname` follow the POSIX rules. The Windows drive-letter rules are left out.
- JSON parsing of the `.info.json` file is left out as a library call. The parsed description is an input: missing, a string, or another value.
- tkinter widgets, styles, the progress bar, `root.after` and the worker thread are left out as UI and concurrency. Only the label tables, the format map, the empty-URL guard and the Twitter result display are modelled.
- The front end's YouTube branch is left out because it cannot run. It passes `quality=` and `non_interactive=` to `download_youtube_video`, whose signature does not accept them (video_downloader_gui.py:264-270 against youtube_downloader_hq.py:174), so the call raises `TypeError`.
- The front end's TikTok branch is left out for the same reason. The front end also imports `download_tiktok_video`, which tiktok_downloader.py does not define (it defines `download_tiktok_no_watermark`), so the front end fails with `ImportError` at load.
- The `except` branch around `result.encode('ascii', 'replace')` (video_downloader_gui.py:331-333) is left out because that encoding never raises on a string.
- The Facebook, Instagram and TikTok branches of the front end are modelled only through their label table (`Gui.LabelSelector`). They show fixed texts for True and False.
- PyStr.Replace: requires a non-empty old text, which is all the scripts pass; Python's insertion behaviour for an empty one is not modelled.
- YouTubeSelenium.ProgressOf: computes `int(n * 100 / total)` with exact integer division. Float rounding for byte counts beyond 2^53 is not modelled, and the block counts are taken as non-negative, as urllib passes them.

## Findings

| source | as written | input that shows it | evidently intended | confidence | as-written member | corrected member |
|---|---|---|---|---|---|---|
| youtube_downloader_selenium.py:136-151 | `validate_youtube_url` accepts a URL when `extract_video_id` returns anything but `None`, and on a youtu.be link with nothing after the slash that is the empty string | "https://youtu.be/" is accepted, and the download then stops with "Error: Could not extract video ID from URL." (line 167 tests `not video_id`). The other downloaders' validators reject it. | accept a URL only when the extracted ID is non-empty, as the download itself requires | not executed | SeleniumUrl.EmptyShortLink | YouTubeSelenium.ValidateNonEmptyAgrees |

The as-written side is also stated by `SeleniumUrl.Validate` and `YouTubeSelenium.ValidatorDisagrees`, and the corrected side by `YouTubeSelenium.ValidateNonEmpty`. The download itself (`YouTubeSelenium.Identify`) already behaves as the corrected validator does.

## Behaviour as the code has it

In two places the scripts' documented intent and their code differ. The model follows the code:

- When the ffmpeg crop fails, tiktok_downloader.py:321-335 does not fall back to the watermarked file. It deletes the temporary file first, so the `shutil.move` of that file raises, and the outer handler returns False (`TikTok.CropStep`, `TikTok.TempSuccessCrops`).
- When the mobile or final TikTok attempt exits zero but no recent `.mp4` is listed, control falls through to the crop of a temporary file that was never written (`TikTok.MobileSuccessWithoutFileCrops`).
