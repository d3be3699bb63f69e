# YouTube MP3 Downloader — a verified model of its core

This project models, in Dafny, the parts of the GTK YouTube-to-MP3
downloader that decide things. Everything else is GTK, subprocess and
thread glue.

- **The URL classifier** (`classify_youtube_url`). It strips the URL and
  tries four start-anchored patterns in order: watch, playlist, `youtu.be`
  and shorts. It returns the kind and the match of the first one that
  matches, or `(None, None)`.
- **The worker** (`download_thread`). It decides whether to fetch playlist
  metadata and parses that metadata into an id → title map. It builds the
  two yt-dlp command lines. It folds yt-dlp's output lines into a session:
  - the title, item index and total;
  - the success and failure counters;
  - the failure records;
  - the window's current file and current original;
  - the set of targets to clean up.

  It then picks the outcome the user is told about. Whatever happens, it
  clears the process handle and the current-file fields at the end.
- **The cleanup after a stop** (`cleanup_partial_files`). It works on a file
  system given as a map from path to size. For each snapshotted target it
  deletes the target, its `.part`, `.ytdl` and `.temp` companions, the
  `base.f*` / `base.fragment*` / `base.frag*` chunks, four thumbnails and a
  `base.mp3` under 1024 bytes. It counts the deletions and drains the
  snapshotted targets from the set.
- **The download and stop handlers of the main window**:
  - the choice among the four URL error dialogs;
  - the state reset before a launch;
  - the two flags a stop raises, and the cleanup it triggers.

Layout:
- `wrappers.dfy`: `Option`.
- `text.dfy`: Python's `strip`, `in`/`find`, `split` and `int`/`str` on
  strings.
- `paths.dfy`: `os.path.basename` and `os.path.splitext`.
- `utils.dfy`: the classifier. It is proved equal to a reference reading of
  the regular expressions, in which the optional groups may be taken or
  skipped freely.
- `window.dfy`: the window's fields that the core reads and writes, as a
  class.
- `cleanup.dfy`: `cleanup_partial_files`.
- `app_window.dfy`: the URL diagnosis, `on_download_clicked` and
  `on_stop_clicked`.
- `download_output.dfy`: the per-line state machine, as `Step` and its fold
  `Run`.
- `download.py` is modelled across two files:
  - `download_output.dfy` holds the state machine;
  - `download.dfy` holds the imperative output loop, proved equal to `Run`,
    plus the commands, the metadata parsing, the outcome and
    `download_thread`.

Where the code and its documentation disagree, the model follows the code:
- A watch URL whose id has more than eleven characters is classified as a
  video. The pattern is anchored at the start only, so the first eleven
  characters are taken (`WatchUrl`).

## Model

| member | source | states |
|---|---|---|
| Text.Strip | youtubemp3downloader/utils.py:15 | `str.strip()`: the result is no longer than the input and neither starts nor ends with whitespace |
| Text.StripIsWindow | youtubemp3downloader/utils.py:15 | the stripped text is the input with only whitespace cut from its two ends: a window of the input with all-whitespace text before and after it; with the ends of the result not being whitespace, this is exactly `str.strip()` |
| Text.StripIgnoresPadding | youtubemp3downloader/utils.py:15 | whitespace added on either side never changes the stripped text |
| Text.StripIdempotent | youtubemp3downloader/app_window.py:512 | stripping the already-stripped entry again, as the classifier does, changes nothing |
| Text.LStripEmptyIffAllSpace | youtubemp3downloader/app_window.py:512-516 | the left strip is empty exactly when the text is all whitespace |
| Text.IndexOf | youtubemp3downloader/download.py:30 | `find`: the index found is an occurrence, and no earlier occurrence exists; `None` exactly when there is no occurrence |
| Text.SplitOnce | youtubemp3downloader/download.py:31 | `split(sep, 1)`: the text is the first part, the separator and the second part, and the first part ends at the first occurrence |
| Text.SplitOnceRoundTrip | youtubemp3downloader/download.py:31 | splitting `a + sep + b` gives back `a` and `b` when `a` does not contain the separator's first character |
| Text.SecondField | youtubemp3downloader/download.py:113 | `split(marker)[1]`: the text after the first marker, up to the next marker or the end |
| Text.Split | youtubemp3downloader/download.py:29 | `split('\n')`: at least one part, and no part contains the separator |
| Text.JoinSplit | youtubemp3downloader/download.py:29 | joining the parts of a split with the separator gives back the text |
| Text.NatToStringRoundTrip | youtubemp3downloader/download.py:102-105 | the decimal text of a number reads back as that number |
| Paths.Basename | youtubemp3downloader/download.py:118 | `os.path.basename`: a suffix without `/`, preceded by `/` unless it is the whole path |
| Paths.Splitext | youtubemp3downloader/download.py:119 | `os.path.splitext`: `base + ext == path`, and the extension is empty or a dot-led final component without another dot |
| Paths.SplitextOfName | youtubemp3downloader/download.py:288 | a name that does not consist only of dots, followed by a dot-led extension, splits back into that name and extension |
| Utils.IdRun | youtubemp3downloader/utils.py:6-9 | `[\w-]+` taken greedily: a prefix of id characters followed by a non-id character or the end |
| Utils.MatchPattern | youtubemp3downloader/utils.py:5-10 | `pattern.match`: the path sits after the optional groups; the id is made of id characters, has the pattern's length (or is the whole run for `{13,}`) and follows the path; the match text is the prefix that ends with the id |
| Utils.FirstMatch | youtubemp3downloader/utils.py:16-20 | a kind is returned exactly when a match is, `(None, None)` exactly when no pattern matches, and otherwise the kind and match of the first pattern in list order that matches, every earlier one failing |
| Utils.ClassifyYouTubeUrl | youtubemp3downloader/utils.py:13-20 | the kind is present exactly when the match is |
| Utils.MatchPatternIsSound | youtubemp3downloader/utils.py:5-10 | what `MatchPattern` returns is a match of the regular expression for some choice of the optional groups |
| Utils.RegexMatchIsUnique | youtubemp3downloader/utils.py:5-10 | any match of the regular expression is the one `MatchPattern` returns |
| Utils.ClassifyIgnoresPadding | youtubemp3downloader/utils.py:15 | leading and trailing whitespace never changes the classification |
| Utils.PatternsExclusive | youtubemp3downloader/utils.py:5-10 | no string matches two of the four patterns |
| Utils.ClassifyByMatchingPattern | youtubemp3downloader/utils.py:16-19 | whichever pattern matches decides the result |
| Utils.OrderDoesNotMatter | youtubemp3downloader/utils.py:5-20 | any listing of the four patterns, in any order and with repetitions, classifies every URL the same way |
| Utils.ClassifyAcceptsRegexMatch | youtubemp3downloader/utils.py:13-20 | a regex match of pattern `q` on the stripped URL is reported with pattern `q`'s kind |
| Utils.ClassifiedIsRegexMatch | youtubemp3downloader/utils.py:13-20 | whatever is reported is a regex match of a pattern of that kind |
| Utils.FirstMatchByPath | youtubemp3downloader/utils.py:16-20 | once a pattern's path sits after the optional groups, that pattern alone decides the result |
| Utils.ShapedUrl | youtubemp3downloader/utils.py:5-20 | scheme, allowed `www.`, path and then text `t` is classified as the pattern's kind exactly when `t` starts with enough id characters; the id is the first `n` of them, or all of them for the playlist |
| Utils.WatchUrl | youtubemp3downloader/utils.py:6 | a watch URL gives Video exactly when at least 11 id characters follow `v=`, and the id is the first 11 |
| Utils.PlaylistUrl | youtubemp3downloader/utils.py:7 | a playlist URL gives Playlist exactly when at least 13 id characters follow `list=`, and the id is the whole run |
| Utils.ShortLinkUrl | youtubemp3downloader/utils.py:8 | `youtu.be/` gives Video (not Short) exactly when at least 11 id characters follow |
| Utils.ShortsUrl | youtubemp3downloader/utils.py:9 | `youtube.com/shorts/` gives Short exactly when at least 11 id characters follow |
| Utils.OtherLeadingTextRefused | youtubemp3downloader/utils.py:17 | a stripped URL that starts with something other than a scheme, `www.` or a path (e.g. `m.`, `ftp://`) gives `(None, None)` |
| Utils.ShortLinkRefusesWww | youtubemp3downloader/utils.py:8 | `www.youtu.be/...` gives `(None, None)` |
| Utils.PatternHost | youtubemp3downloader/utils.py:5-10 | the literal path of each of the four patterns starts with a YouTube host: `youtu.be` for the short link, `youtube.com` for the other three |
| Utils.MatchNamesHost | youtubemp3downloader/utils.py:5-10 | text that a pattern accepts contains the host its path starts with |
| Window.DownloaderWindow.constructor | youtubemp3downloader/app_window.py:29-44 | the folder and the authentication switch come from the configuration; no process, both flags down, no current file, no targets |
| Window.DiscardOriginal | youtubemp3downloader/download.py:125-127 | the current original leaves the target set exactly when it is truthy, and nothing else leaves |
| Cleanup.Base | youtubemp3downloader/download.py:288 | the base of a target is a prefix of it |
| Cleanup.Doomed | youtubemp3downloader/download.py:287-324 | the files cleaning a target may delete: the target and its `.part`, `.ytdl` and `.temp` files, whatever matches the three chunk wildcards of its base, the four thumbnails of its base, and `base.mp3` when it is under 1024 bytes |
| Cleanup.RemoveEach | youtubemp3downloader/download.py:296-301 | only listed, removable files go; the count is the number removed; it completes exactly when no existing listed file is protected, and then none is left; otherwise it stops at the first existing protected candidate, having removed exactly the existing candidates before it and nothing after it |
| Cleanup.RemoveGlob | youtubemp3downloader/download.py:304-309 | the same for the files matching `prefix*`, in any order |
| Cleanup.RemoveChunks | youtubemp3downloader/download.py:303-309 | the three chunk wildcards in turn: only matching files go, and when nothing stops it none is left |
| Cleanup.ChunkWildcardsNested | youtubemp3downloader/download.py:303 | `base.fragment*` and `base.frag*` match nothing that `base.f*` does not |
| Cleanup.Mp3SizeRule | youtubemp3downloader/download.py:289-324 | the target goes whatever its size; a `base.mp3` that is not the target goes exactly when it is under 1024 bytes |
| Cleanup.CleanTarget | youtubemp3downloader/download.py:287-326 | only doomed, unprotected files go; the count is the number removed; the target completes exactly when none of its doomed files is protected, and then none is left; phase by phase (`CleanedInOrder`): a failing listed candidate stops the work with exactly the earlier existing candidates removed; a failure among the chunks or thumbnails leaves the later phases untouched and every earlier phase complete |
| Cleanup.CleanupPartialFiles | youtubemp3downloader/download.py:279-335 | the target set is drained; every deleted file is doomed by some snapshotted target; the count is the number deleted; every fully removable target leaves none of its files |
| AppWindow.VIdFrom | youtubemp3downloader/app_window.py:535 | the leftmost position at or after `from` where `v=` and an id character occur |
| AppWindow.FirstVId | youtubemp3downloader/app_window.py:535-536 | `re.findall(r'v=([\w-]+)', url)[0]`: none exactly when nothing matches, otherwise the whole id run after the leftmost match |
| AppWindow.FirstVIdIsMaximalRun | youtubemp3downloader/app_window.py:535-536 | the reported id is a non-empty run of id characters that occurs after `v=` |
| AppWindow.CheckUrl | youtubemp3downloader/app_window.py:512-546 | empty exactly when blank; accepted exactly when classified; not-YouTube exactly when unclassified with no YouTube host; a bad length only for a watch URL whose first `v=` id is not 11 long; otherwise the generic error |
| AppWindow.EmptyEntryIsBlank | youtubemp3downloader/app_window.py:512-519 | the "Please enter a YouTube URL" error is chosen exactly for an all-whitespace entry |
| AppWindow.CheckIgnoresPadding | youtubemp3downloader/app_window.py:512 | whitespace around the entry never changes the diagnosis |
| AppWindow.AcceptedIsRegexMatch | youtubemp3downloader/app_window.py:522-546 | an entry is accepted exactly when one of the four regular expressions matches its stripped text |
| AppWindow.AcceptedMentionsYouTube | youtubemp3downloader/utils.py:5-10 | every URL that `YOUTUBE_PATTERNS` accepts names `youtube.com` or `youtu.be`, so "not a YouTube URL" is only reported for text that no pattern accepts |
| AppWindow.OnDownloadClicked | youtubemp3downloader/app_window.py:510-578 | a refused URL or unusable folder changes nothing; a launch records the folder, lowers both flags, clears both current-file fields and hands over URL, kind, folder and switch |
| AppWindow.ResetForLaunch | youtubemp3downloader/app_window.py:569-576 | the folder is recorded, both flags are lowered and both current-file fields are cleared; nothing else changes |
| AppWindow.OnStopClicked | youtubemp3downloader/app_window.py:455-500 | both flags are raised whether or not a process runs; without a process nothing else changes; with one, only doomed unprotected files of the active targets are deleted, every target whose doomed files are all removable is left with none, the count is the number deleted and the targets are drained |
| DownloadOutput.DigitRun | youtubemp3downloader/download.py:100 | `\d+` greedily: a prefix of digits followed by a non-digit or the end |
| DownloadOutput.SearchItemOf | youtubemp3downloader/download.py:100 | `re.search`: a result is the reading at the leftmost position that reads, no earlier position reading; none exactly when no position reads |
| DownloadOutput.NumbersOfDigits | youtubemp3downloader/download.py:100-103 | `X of Y` with digit strings reads back as their values |
| DownloadOutput.ItemOfRoundTrip | youtubemp3downloader/download.py:100-103 | `Downloading item/video X of Y` reads back as `(X, Y)` |
| DownloadOutput.ItemLineIsRead | youtubemp3downloader/download.py:98-103 | a `[download] Downloading item/video X of Y` line is found by the search and reads as `(X, Y)` |
| DownloadOutput.SearchYouTubeId | youtubemp3downloader/download.py:137 | `re.search(r'\[youtube\]\s+([A-Za-z0-9_-]+):')`: a result is the reading at the leftmost position that reads, no earlier position reading; none exactly when no position reads |
| DownloadOutput.YouTubeIdRoundTrip | youtubemp3downloader/download.py:137-139 | `[youtube]`, whitespace, an id and `:` read back as that id |
| DownloadOutput.ErrorContext | youtubemp3downloader/download.py:133-144 | the current title; else the metadata title of the `[youtube]` id; else `ID: <id>`; else `Unknown` |
| DownloadOutput.HasKeyword | youtubemp3downloader/download.py:151-162 | the line contains one of the ten unavailability keywords (`UnavailableKeywords`, in the source's order) |
| DownloadOutput.OnItem | youtubemp3downloader/download.py:98-107 | a line with a progress marker whose numbers the search finds sets the index and total to them and names an untitled video `Video #<index>`; a line without a marker, or without numbers, changes nothing; the other fields never change |
| DownloadOutput.ItemLineSetsPosition | youtubemp3downloader/download.py:98-105 | a progress line sets index X and total Y, and names an untitled video `Video #X` |
| DownloadOutput.ItemLineHasMarker | youtubemp3downloader/download.py:98 | a progress line contains one of the two markers the loop tests |
| DownloadOutput.OnDestination | youtubemp3downloader/download.py:111-121 | a destination line sets both current fields to its path, adds the path to the targets and titles the video by its file name without extension; nothing else changes |
| DownloadOutput.OnDeleting | youtubemp3downloader/download.py:123-130 | a deleting line adds exactly one success, removes exactly the truthy original from the targets (`DiscardOriginal`), clears both current fields and the title and keeps index, total and failures; any other line changes nothing |
| DownloadOutput.OnError | youtubemp3downloader/download.py:132-170 | an `ERROR:` line with a keyword adds one failure and one record (line and context), removes exactly the truthy original from the targets, clears both current fields and the title and keeps index, total and successes; any other line changes nothing |
| DownloadOutput.StepBlank | youtubemp3downloader/download.py:90-92 | a line that is blank once stripped leaves the session unchanged |
| DownloadOutput.StepTitleLine | youtubemp3downloader/download.py:94-96 | a `[TITLE]` line sets only the title, to the text after the tag |
| DownloadOutput.Step | youtubemp3downloader/download.py:89-170 | one turn of the loop: the line is stripped; a blank line is skipped; a `[TITLE]` line sets the title; any other line goes through the item, destination, deleting and error phases in that order (properties in `StepBlank`, `StepTitleLine`, `StepCounters`, `StepTargets`) |
| DownloadOutput.Run | youtubemp3downloader/download.py:89-170 | the loop over the lines read: `Step` applied to each line in turn, from the first (properties in `RunCounters`, `RunRecordLines`, `RunTargets`) |
| DownloadOutput.StepSkipped | youtubemp3downloader/download.py:89-96 | a blank or `[TITLE]` line changes at most the title, and adds no success or failure |
| DownloadOutput.PhasesCounters | youtubemp3downloader/download.py:98-170 | the phases add one success per deleting line and one failure, with its record, per failure line; earlier records are kept |
| DownloadOutput.StepCounters | youtubemp3downloader/download.py:89-170 | one line adds its success and its failure line to the counters and records, and keeps the earlier records |
| DownloadOutput.StepTargets | youtubemp3downloader/download.py:111-130 | only a destination line can add a target, and only its own path |
| DownloadOutput.LinesOf | youtubemp3downloader/download.py:146-149 | the lines of the failure records, one per record, in order |
| DownloadOutput.SuccessCount | youtubemp3downloader/download.py:123-124 | there are at most as many successes as lines |
| DownloadOutput.FailureLines | youtubemp3downloader/download.py:151-164 | every recorded failure line is an `ERROR:` line with a keyword |
| DownloadOutput.DestinationPaths | youtubemp3downloader/download.py:111-116 | every such path comes from a processed destination line |
| DownloadOutput.RunCounters | youtubemp3downloader/download.py:82-170 | over a stream, successes count the deleting lines, and failures count the failure lines and the records |
| DownloadOutput.RunKeepsRecords | youtubemp3downloader/download.py:164 | failure records are only ever appended |
| DownloadOutput.RunRecordLines | youtubemp3downloader/download.py:146-164 | the records added by a stream hold its failure lines, in order |
| DownloadOutput.RunKeepsFailureCount | youtubemp3downloader/download.py:163-164 | `failed_downloads == len(failed_videos)` is kept, and neither counter decreases |
| DownloadOutput.RunTargets | youtubemp3downloader/download.py:111-130 | the targets only grow by the paths of destination lines |
| Download.CookiesOfAuthArgs | youtubemp3downloader/download.py:23-24 | the cookie option is present exactly when authentication is on |
| Download.AuthArgs | youtubemp3downloader/download.py:23-24 | `--cookies-from-browser firefox` is passed exactly when authentication is on (the same two arguments extend the main command) |
| Download.ShouldFetchPlaylistInfo | youtubemp3downloader/download.py:13 | metadata is queried for a playlist, and for any URL when authentication is on |
| Download.InfoCommand | youtubemp3downloader/download.py:17-25 | the metadata command starts with the fixed options and format, ends with the URL and uses Firefox cookies exactly when authentication is on |
| Download.JoinPath | youtubemp3downloader/download.py:47 | `Path(folder) / name`: the name is the last component, after the folder and a separator |
| Download.BasenameOfJoinPath | youtubemp3downloader/download.py:47 | the file name of the joined template is the template |
| Download.MainBaseHasNoCookieOption | youtubemp3downloader/download.py:48-59 | the fixed options and the template never contain the cookie option |
| Download.MainCommand | youtubemp3downloader/download.py:47-67 | 13 fixed options, then the template in the folder, then the cookie option exactly when authentication is on, then the URL last |
| Download.InfoLastWins | youtubemp3downloader/download.py:35 | the last metadata line for an id gives its title |
| Download.InfoKeysComeFromLines | youtubemp3downloader/download.py:29-35 | every key comes from some metadata line |
| Download.InfoKeys | youtubemp3downloader/download.py:29-35 | the keys are exactly the ids of the metadata lines |
| Download.InfoOf | youtubemp3downloader/download.py:29-35 | the metadata lines folded into a map from id to title, a later line for an id overwriting an earlier one; at most one entry per line |
| Download.InfoEntryRoundTrip | youtubemp3downloader/download.py:21-35 | a line `id:::title` printed for a colon-free id reads back as that id and title |
| Download.ParseInfoLines | youtubemp3downloader/download.py:29-35 | the loop fills the map that `InfoOf` describes |
| Download.ParsePlaylistInfo | youtubemp3downloader/download.py:29-35 | the map of the lines of the stripped output |
| Download.FetchedInfo | youtubemp3downloader/download.py:12-40 | empty unless the kind is Playlist or authentication is on and the query exited with 0; otherwise the parsed map |
| Download.FetchPlaylistInfo | youtubemp3downloader/download.py:11-40 | the metadata query is built exactly when it should be fetched, and the metadata is `FetchedInfo` of its result |
| Download.ItemPhase | youtubemp3downloader/download.py:98-107 | the loop's item step agrees with `OnItem` |
| Download.DestinationPhase | youtubemp3downloader/download.py:111-121 | the loop's destination step on the window agrees with `OnDestination` |
| Download.DeletingPhase | youtubemp3downloader/download.py:123-130 | the loop's deleting step on the window agrees with `OnDeleting` |
| Download.ErrorPhase | youtubemp3downloader/download.py:132-170 | the loop's error step on the window agrees with `OnError` |
| Download.ProcessOutput | youtubemp3downloader/download.py:82-193 | the loop's locals and window fields at the end are `Run` of the lines from the window's starting state |
| Download.HandleLine | youtubemp3downloader/download.py:89-170 | one turn of the loop on the locals and window fields is `Step` of that line |
| Download.DecideOutcome | youtubemp3downloader/download.py:197-254 | stopped first; then any success (with warnings exactly when failures exist); then exit status 0; else an error with the exit code; exclusive and exhaustive |
| Download.WarningsListTheFailures | youtubemp3downloader/download.py:211-223 | a "completed with warnings" outcome lists as many records as failures, holding the failure lines in order |
| Download.ReadBeforeStop | youtubemp3downloader/download.py:89 | the lines read are a prefix of the output: all of it without a stop; with a stop after n lines, at most n, and fewer only when the output ends first |
| Download.DownloadThread | youtubemp3downloader/download.py:9-276 | the metadata command exactly when fetched; a cancel before launch builds no main command; a launch failure is a crash; otherwise the outcome is decided on `Run` of the lines read; without a stop the targets are those `Run` leaves and the files are untouched; after a stop both flags are raised, the targets are drained, only unprotected files doomed by a target active at the stop are deleted and every removable such target is cleaned completely; the handle and current fields are cleared at the end |
| Download.RunDownload | youtubemp3downloader/download.py:72-254 | a started download: the outcome on `Run` of the lines read, the final targets, the flags and the files deleted on a stop, as for `DownloadThread` |
| Download.EndDownload | youtubemp3downloader/download.py:195-254 | after the loop: a stop raises both flags and cleans the active targets, otherwise nothing changes; the outcome is `DecideOutcome` with the stop flag as it then stands |

## Left out

- The GTK widgets, dialogs, log buffer, progress bar, notifications, clipboard and `GLib.idle_add`. These are user interface; the model returns the outcome that decides which dialog and notification appear.
- The worker thread and `download_lock`. The model is sequential and the lock is a no-op, so a stop can only happen between two output lines.
- Launching, terminating and killing processes, and the 60 s and 2 s timeouts. The results of the two yt-dlp runs are parameters of `DownloadThread`; a run that raises is `None`.
- DownloadThread: an exception raised in the middle of the output loop is not modelled. `Crashed` covers only a process that cannot be started.
- The percentage/ETA parsing (`download.py:179-193`). It uses `float()` and `{:.1f}` formatting and only drives the progress bar.
- `config.py`, `logger.py`, `main.py`, `exceptions.py` and the entry point. These are configuration files, logging setup and bootstrap.
- OnDownloadClicked: `Path.expanduser().resolve()`, `mkdir` and `os.access` are not modelled. Their combined result is the parameter `resolvedFolder` (`None` when the folder cannot be used).
- JoinPath: pathlib's normalisation of the folder (repeated or trailing separators, `.` components) is not modelled. The contract states only that the template follows the folder and one separator.
- IsWordChar: `\w` and `\d` cover ASCII letters, digits and `_` only. Python also accepts other Unicode letters and digits there.
- GlobMatch: glob metacharacters inside the base name and hidden-file rules are not modelled. `*` matches any text without `/`, and matches are taken in any order.
- CleanTarget: when a chunk or thumbnail removal fails, the contract does not say which files of that phase went before the failure. `glob.glob` returns matches in an order the model leaves open, and the thumbnail phase is stated as a whole. The stop point is exact only for the listed candidates (`RemoveEach`).
- CleanupPartialFiles: a failing `os.remove` is modelled by the `protected` set. It ends the work on that target only, as the `except` around each target does. Log messages are not modelled.
- OnStopClicked: the log lines and progress-bar text are not modelled. A failure to terminate the process is not modelled either.
- ParsePlaylistInfo: the `except` around the metadata query is not modelled. Parsing strings cannot raise, and a query that raises is a `None` result.

