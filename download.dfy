/**
 * The download worker (`download_thread`): the optional playlist-metadata
 * query, the yt-dlp command lines, the loop over yt-dlp's output and the
 * final outcome. The two external processes are replaced by their results,
 * which the caller supplies.
 */
module Download {
  import opened Wrappers
  import opened Text
  import opened Paths
  import opened Utils
  import opened Window
  import opened Cleanup
  import opened AppWindow
  import opened DownloadOutput

  // ---------------------------------------------------------------------
  // Command lines
  // ---------------------------------------------------------------------

  /** The `--print` template of the metadata query: id, `:::`, then the
      playlist index and ` - ` when there is one, then the title. */
  const InfoFormat := "%(id)s:::%(playlist_index|)s%(playlist_index& - |)s%(title)s"

  /** The file-name template of the download, placed in the destination
      folder. */
  const OutputTemplate := "%(playlist_index|)s%(playlist_index& - |)s%(title)s.%(ext)s"

  /** The arguments that make yt-dlp read Firefox's cookies. */
  function AuthArgs(useAuth: bool): (r: seq<string>)
    ensures UsesCookies(r) <==> useAuth
  {
    if useAuth then
      var r := ["--cookies-from-browser", "firefox"];
      assert r[0] == "--cookies-from-browser" && r[1] == "firefox";
      r
    else []
  }

  /** The command line passes `--cookies-from-browser firefox`. */
  predicate UsesCookies(cmd: seq<string>)
  {
    exists i :: 0 <= i < |cmd| - 1 && cmd[i] == "--cookies-from-browser" && cmd[i + 1] == "firefox"
  }

  /** Metadata is queried for a playlist, and for anything when
      authentication is on. */
  predicate ShouldFetchPlaylistInfo(kind: UrlKind, useAuth: bool)
  {
    kind == Playlist || useAuth
  }

  /** No argument of `base` names the cookie option, so appending `tail`
      passes cookies exactly when `tail` does. */
  lemma CookiesOfAppend(base: seq<string>, tail: seq<string>)
    requires forall k :: 0 <= k < |base| ==> base[k] != "--cookies-from-browser"
    ensures UsesCookies(base + tail) <==> UsesCookies(tail)
  {
    var cmd := base + tail;
    assert forall k :: 0 <= k < |base| ==> cmd[k] == base[k];
    if UsesCookies(cmd) {
      var i :| 0 <= i < |cmd| - 1 && cmd[i] == "--cookies-from-browser" && cmd[i + 1] == "firefox";
      assert tail[i - |base|] == cmd[i] && tail[i - |base| + 1] == cmd[i + 1];
    }
    if UsesCookies(tail) {
      var i :| 0 <= i < |tail| - 1 && tail[i] == "--cookies-from-browser" && tail[i + 1] == "firefox";
      assert cmd[|base| + i] == tail[i] && cmd[|base| + i + 1] == tail[i + 1];
    }
  }

  /** The authentication arguments pass cookies exactly when they are
      there, whatever argument follows them. */
  lemma CookiesOfAuthArgs(useAuth: bool, url: string)
    ensures UsesCookies(AuthArgs(useAuth) + [url]) <==> useAuth
  {
    var cmd := AuthArgs(useAuth) + [url];
    if useAuth {
      assert cmd[0] == "--cookies-from-browser" && cmd[1] == "firefox";
    } else {
      assert cmd == [url];
    }
  }

  /** The fixed part of the metadata query. */
  const InfoBase: seq<string> := ["yt-dlp", "--flat-playlist", "--print", InfoFormat]

  /** The metadata query: the fixed part, the cookie option when
      authentication is on, and the URL last. */
  function InfoCommand(url: string, useAuth: bool): (cmd: seq<string>)
    ensures |cmd| >= 5 && cmd[..4] == InfoBase
    ensures cmd[|cmd| - 1] == url
    ensures UsesCookies(cmd) <==> useAuth
  {
    var cmd := InfoBase + (AuthArgs(useAuth) + [url]);
    assert cmd[..4] == InfoBase;
    CookiesOfAuthArgs(useAuth, url);
    CookiesOfAppend(InfoBase, AuthArgs(useAuth) + [url]);
    cmd
  }

  /** `str(Path(folder) / name)` for a folder that is empty or does not end
      in a redundant separator: the name follows the folder, with one
      separator between them. */
  function JoinPath(folder: string, name: string): (r: string)
    ensures |r| >= |name| && r[|r| - |name|..] == name
    ensures folder == "" ==> r == name
    ensures folder != "" ==> r[..|r| - |name|] == folder || r[..|r| - |name|] == folder + "/"
    ensures folder != "" ==> r[|r| - |name| - 1] == '/'
  {
    if folder == "" then name
    else if folder[|folder| - 1] == '/' then folder + name
    else folder + "/" + name
  }

  /** The file name of a joined path is the name joined. */
  lemma BasenameOfJoinPath(folder: string, name: string)
    requires '/' !in name
    ensures Basename(JoinPath(folder, name)) == name
  {
    var r := JoinPath(folder, name);
    var n := |r| - |name|;
    assert forall i :: n <= i < |r| ==> r[i] != '/' by {
      assert forall i :: n <= i < |r| ==> r[i] == name[i - n];
    }
  }

  /** The options of the download command, up to the output template. */
  const MainOptions: seq<string> := [
    "yt-dlp", "-x",
    "--audio-format", "mp3",
    "--audio-quality", "320k",
    "--postprocessor-args", "ffmpeg:-b:a 320k",
    "--embed-thumbnail",
    "--add-metadata",
    "--yes-playlist",
    "--ignore-errors",
    "-o"]

  /** No option of the download command before the URL names the cookie
      option: the output template is too long to. */
  lemma MainBaseHasNoCookieOption(template: string)
    requires |template| > |"--cookies-from-browser"|
    ensures forall k :: 0 <= k < |MainOptions + [template]| ==> (MainOptions + [template])[k] != "--cookies-from-browser"
  {
    var base := MainOptions + [template];
    forall k | 0 <= k < |base| ensures base[k] != "--cookies-from-browser" {
      if k < 13 {
        assert base[k] == MainOptions[k];
      }
    }
  }

  /** The download command: the audio options, the output template in the
      destination folder, the cookie option when authentication is on, and
      the URL last. */
  function MainCommand(folder: string, url: string, useAuth: bool): (cmd: seq<string>)
    ensures |cmd| == if useAuth then 17 else 15
    ensures cmd[..13] == MainOptions && cmd[|cmd| - 1] == url
    ensures cmd[13] == JoinPath(folder, OutputTemplate)
    ensures UsesCookies(cmd) <==> useAuth
  {
    var template := JoinPath(folder, OutputTemplate);
    var base := MainOptions + [template];
    MainBaseHasNoCookieOption(template);
    var cmd := base + (AuthArgs(useAuth) + [url]);
    assert cmd[..13] == MainOptions;
    CookiesOfAuthArgs(useAuth, url);
    CookiesOfAppend(base, AuthArgs(useAuth) + [url]);
    cmd
  }

  // ---------------------------------------------------------------------
  // Playlist metadata
  // ---------------------------------------------------------------------

  /** A metadata line holds `:::`. */
  predicate IsInfoLine(line: string)
  {
    Contains(line, ":::")
  }

  /** The id and title of a metadata line: the stripped text before and
      after its first `:::`. */
  function InfoEntry(line: string): (r: (string, string))
    requires IsInfoLine(line)
  {
    var parts := SplitOnce(line, ":::");
    (Strip(parts.0), Strip(parts.1))
  }

  /** The metadata lines folded into a map from id to title; a later line
      for the same id wins. */
  function InfoOf(lines: seq<string>): (r: map<string, string>)
    ensures |r| <= |lines|
  {
    if lines == [] then map[]
    else
      var m := InfoOf(lines[..|lines| - 1]);
      var last := lines[|lines| - 1];
      if IsInfoLine(last) then m[InfoEntry(last).0 := InfoEntry(last).1] else m
  }

  /** `InfoOf` on a non-empty list is the entry of its last line, if any,
      written over the map of the others. */
  lemma InfoOfLast(lines: seq<string>)
    requires lines != []
    ensures var m := InfoOf(lines[..|lines| - 1]);
      var last := lines[|lines| - 1];
      InfoOf(lines) == if IsInfoLine(last) then m[InfoEntry(last).0 := InfoEntry(last).1] else m
  {
  }

  /** Every id of a metadata line is a key, with the title of the last
      line that names it. */
  lemma {:induction false} InfoLastWins(lines: seq<string>, k: nat)
    requires k < |lines| && IsInfoLine(lines[k])
    requires forall j :: k < j < |lines| && IsInfoLine(lines[j]) ==> InfoEntry(lines[j]).0 != InfoEntry(lines[k]).0
    ensures InfoEntry(lines[k]).0 in InfoOf(lines)
    ensures InfoOf(lines)[InfoEntry(lines[k]).0] == InfoEntry(lines[k]).1
  {
    var init, last := lines[..|lines| - 1], lines[|lines| - 1];
    InfoOfLast(lines);
    if k < |lines| - 1 {
      assert init[k] == lines[k];
      assert forall j :: k < j < |init| ==> init[j] == lines[j];
      InfoLastWins(init, k);
      assert IsInfoLine(last) ==> InfoEntry(last).0 != InfoEntry(lines[k]).0;
    }
  }

  /** Every key of the map is the id of some metadata line. */
  lemma {:induction false} InfoKeysComeFromLines(lines: seq<string>, id: string)
    requires id in InfoOf(lines)
    ensures exists k :: 0 <= k < |lines| && IsInfoLine(lines[k]) && InfoEntry(lines[k]).0 == id
  {
    var init, last := lines[..|lines| - 1], lines[|lines| - 1];
    InfoOfLast(lines);
    if !(IsInfoLine(last) && InfoEntry(last).0 == id) {
      InfoKeysComeFromLines(init, id);
      var k :| 0 <= k < |init| && IsInfoLine(init[k]) && InfoEntry(init[k]).0 == id;
      assert lines[k] == init[k];
    }
  }

  /** The ids of the map are exactly the ids of the metadata lines. */
  lemma InfoKeys(lines: seq<string>, id: string)
    ensures id in InfoOf(lines) <==>
              exists k :: 0 <= k < |lines| && IsInfoLine(lines[k]) && InfoEntry(lines[k]).0 == id
  {
    if id in InfoOf(lines) {
      InfoKeysComeFromLines(lines, id);
    }
    if exists k :: 0 <= k < |lines| && IsInfoLine(lines[k]) && InfoEntry(lines[k]).0 == id {
      var k :| 0 <= k < |lines| && IsInfoLine(lines[k]) && InfoEntry(lines[k]).0 == id;
      while exists j :: k < j < |lines| && IsInfoLine(lines[j]) && InfoEntry(lines[j]).0 == id
        invariant 0 <= k < |lines| && IsInfoLine(lines[k]) && InfoEntry(lines[k]).0 == id
        decreases |lines| - k
      {
        var j :| k < j < |lines| && IsInfoLine(lines[j]) && InfoEntry(lines[j]).0 == id;
        k := j;
      }
      InfoLastWins(lines, k);
    }
  }

  /** A line printed by the metadata query for an id without a colon reads
      back as that id and title. */
  lemma InfoEntryRoundTrip(id: string, title: string)
    requires ':' !in id && Strip(id) == id && Strip(title) == title
    ensures IsInfoLine(id + ":::" + title) && InfoEntry(id + ":::" + title) == (id, title)
  {
    SplitOnceRoundTrip(id, ":::", title);
  }

  /** The loop over the lines of the metadata output, keeping the
      metadata lines. */
  method ParseInfoLines(lines: seq<string>) returns (info: map<string, string>)
    ensures info == InfoOf(lines)
  {
    info := map[];
    var i := 0;
    while i < |lines|
      invariant 0 <= i <= |lines|
      invariant info == InfoOf(lines[..i])
    {
      var line := lines[i];
      ghost var upTo := lines[..i + 1];
      assert upTo[..i] == lines[..i] && upTo[i] == line;
      InfoOfLast(upTo);
      if Contains(line, ":::") {
        var entry := InfoEntry(line);
        info := info[entry.0 := entry.1];
      }
      i := i + 1;
    }
    assert lines[..i] == lines;
  }

  /** `for line in stdout.strip().split('\n')`. */
  method ParsePlaylistInfo(stdout: string) returns (info: map<string, string>)
    ensures info == InfoOf(Split(Strip(stdout), '\n'))
  {
    info := ParseInfoLines(Split(Strip(stdout), '\n'));
  }

  /** The metadata the worker ends up with: `result` is the exit status
      and output of the query, or `None` when running it raised. Only a
      query that exits with status 0 is read. */
  function FetchedInfo(kind: UrlKind, useAuth: bool, result: Option<(int, string)>): (r: map<string, string>)
    ensures !ShouldFetchPlaylistInfo(kind, useAuth) || result.None? || result.value.0 != 0 ==> r == map[]
    ensures ShouldFetchPlaylistInfo(kind, useAuth) && result.Some? && result.value.0 == 0 ==>
              r == InfoOf(Split(Strip(result.value.1), '\n'))
  {
    if ShouldFetchPlaylistInfo(kind, useAuth) && result.Some? && result.value.0 == 0 then
      InfoOf(Split(Strip(result.value.1), '\n'))
    else map[]
  }

  /** The metadata step of the worker: the query is built for a playlist or
      with authentication, and its output is parsed only when it exits
      with status 0. */
  method FetchPlaylistInfo(url: string, kind: UrlKind, useAuth: bool, infoResult: Option<(int, string)>)
    returns (infoCmd: Option<seq<string>>, info: map<string, string>)
    ensures infoCmd == if ShouldFetchPlaylistInfo(kind, useAuth) then Some(InfoCommand(url, useAuth)) else None
    ensures info == FetchedInfo(kind, useAuth, infoResult)
  {
    info := map[];
    infoCmd := None;
    if ShouldFetchPlaylistInfo(kind, useAuth) {
      infoCmd := Some(InfoCommand(url, useAuth));
      if infoResult.Some? && infoResult.value.0 == 0 {
        info := ParsePlaylistInfo(infoResult.value.1);
      }
    }
  }

  // ---------------------------------------------------------------------
  // The output loop
  // ---------------------------------------------------------------------

  /** The session as the loop's locals and the window fields hold it. */
  function Snapshot(w: DownloaderWindow, title: string, index: nat, total: nat,
                    successes: nat, failures: nat, failed: seq<FailedVideo>): Session
    reads w
  {
    Session(title, index, total, successes, failures, failed,
            w.currentDownloadingFile, w.currentDownloadOriginal, w.activeTargets)
  }

  /** The progress-line phase on the loop's locals. */
  method ItemPhase(line: string, title: string, index: nat, total: nat)
    returns (title': string, index': nat, total': nat)
    ensures forall s: Session :: s.title == title && s.index == index && s.total == total ==>
              OnItem(s, line) == s.(title := title', index := index', total := total')
  {
    title', index', total' := title, index, total;
    if Contains(line, ItemMarker) || Contains(line, VideoMarker) {
      match SearchItemOf(line)
      case Some((x, y)) =>
        index', total' := x, y;
        if title' == "" {
          title' := "Video #" + NatToString(x);
        }
      case None =>
    }
  }

  /** The destination phase on the window fields and the title. */
  method DestinationPhase(w: DownloaderWindow, line: string, title: string) returns (title': string)
    modifies w`currentDownloadingFile, w`currentDownloadOriginal, w`activeTargets
    ensures forall s: Session ::
              && s.title == title && s.currentFile == old(w.currentDownloadingFile)
              && s.currentOriginal == old(w.currentDownloadOriginal) && s.targets == old(w.activeTargets)
              ==> OnDestination(s, line)
                  == s.(title := title', currentFile := w.currentDownloadingFile,
                        currentOriginal := w.currentDownloadOriginal, targets := w.activeTargets)
  {
    title' := title;
    if Contains(line, DestinationMarker) {
      w.currentDownloadingFile := Some(Strip(SecondField(line, DestinationMarker)));
      w.currentDownloadOriginal := w.currentDownloadingFile;
      w.activeTargets := w.activeTargets + {w.currentDownloadOriginal.value};
      var filename := Basename(w.currentDownloadingFile.value);
      title' := Splitext(filename).0;
    }
  }

  /** The deleting-original phase on the window fields, the title and the
      success counter. */
  method DeletingPhase(w: DownloaderWindow, line: string, title: string, successes: nat)
    returns (title': string, successes': nat)
    modifies w`currentDownloadingFile, w`currentDownloadOriginal, w`activeTargets
    ensures forall s: Session ::
              && s.title == title && s.successes == successes && s.currentFile == old(w.currentDownloadingFile)
              && s.currentOriginal == old(w.currentDownloadOriginal) && s.targets == old(w.activeTargets)
              ==> OnDeleting(s, line)
                  == s.(title := title', successes := successes', currentFile := w.currentDownloadingFile,
                        currentOriginal := w.currentDownloadOriginal, targets := w.activeTargets)
  {
    title', successes' := title, successes;
    if Contains(line, DeletingMarker) {
      successes' := successes' + 1;
      if Truthy(w.currentDownloadOriginal) {
        w.activeTargets := w.activeTargets - {w.currentDownloadOriginal.value};
      }
      w.currentDownloadingFile := None;
      w.currentDownloadOriginal := None;
      title' := "";
    }
  }

  /** The error phase on the window fields, the title, the failure counter
      and the failure records. */
  method ErrorPhase(w: DownloaderWindow, line: string, info: map<string, string>,
                    title: string, failures: nat, failed: seq<FailedVideo>)
    returns (title': string, failures': nat, failed': seq<FailedVideo>)
    modifies w`currentDownloadingFile, w`currentDownloadOriginal, w`activeTargets
    ensures forall s: Session ::
              && s.title == title && s.failures == failures && s.failed == failed
              && s.currentFile == old(w.currentDownloadingFile)
              && s.currentOriginal == old(w.currentDownloadOriginal) && s.targets == old(w.activeTargets)
              ==> OnError(s, line, info)
                  == s.(title := title', failures := failures', failed := failed',
                        currentFile := w.currentDownloadingFile,
                        currentOriginal := w.currentDownloadOriginal, targets := w.activeTargets)
  {
    title', failures', failed' := title, failures, failed;
    if Contains(line, ErrorMarker) {
      var context := ErrorContext(title, line, info);
      if HasKeyword(line) {
        failures' := failures' + 1;
        failed' := failed' + [FailedVideo(line, context)];
        if Truthy(w.currentDownloadOriginal) {
          w.activeTargets := w.activeTargets - {w.currentDownloadOriginal.value};
        }
        w.currentDownloadingFile := None;
        w.currentDownloadOriginal := None;
        title' := "";
      }
    }
  }

  /** One turn of `for line in process.stdout`: the line is stripped, a
      blank line is skipped, a `[TITLE]` line sets the title and any other
      line goes through the four phases; the locals and the window fields
      end up as `Step` says. */
  method HandleLine(w: DownloaderWindow, raw: string, info: map<string, string>,
                    title: string, index: nat, total: nat, successes: nat, failures: nat, failed: seq<FailedVideo>)
    returns (title': string, index': nat, total': nat, successes': nat, failures': nat, failed': seq<FailedVideo>)
    modifies w`currentDownloadingFile, w`currentDownloadOriginal, w`activeTargets
    ensures Snapshot(w, title', index', total', successes', failures', failed')
         == Step(old(Snapshot(w, title, index, total, successes, failures, failed)), raw, info)
  {
    ghost var before := Snapshot(w, title, index, total, successes, failures, failed);
    title', index', total', successes', failures', failed' := title, index, total, successes, failures, failed;
    var line := Strip(raw);
    if line == "" {
    } else if StartsWith(line, TitleTag) {
      title' := line[|TitleTag|..];
    } else {
      StepProcessed(before, raw, info);
      title', index', total' := ItemPhase(line, title', index', total');
      title' := DestinationPhase(w, line, title');
      title', successes' := DeletingPhase(w, line, title', successes');
      title', failures', failed' := ErrorPhase(w, line, info, title', failures', failed');
    }
  }

  /** `for line in process.stdout` over the lines read before the stream
      ends: the locals and the window fields end up as `Run` says. */
  method ProcessOutput(w: DownloaderWindow, lines: seq<string>, info: map<string, string>)
    returns (title: string, index: nat, total: nat, successes: nat, failures: nat, failed: seq<FailedVideo>)
    modifies w`currentDownloadingFile, w`currentDownloadOriginal, w`activeTargets
    ensures Snapshot(w, title, index, total, successes, failures, failed)
         == Run(Begin(old(w.currentDownloadingFile), old(w.currentDownloadOriginal), old(w.activeTargets)),
                lines, info)
  {
    ghost var s0 := Begin(w.currentDownloadingFile, w.currentDownloadOriginal, w.activeTargets);
    title, index, total, successes, failures, failed := "", 0, 0, 0, 0, [];
    var i := 0;
    while i < |lines|
      invariant 0 <= i <= |lines|
      invariant Snapshot(w, title, index, total, successes, failures, failed) == Run(s0, lines[..i], info)
    {
      title, index, total, successes, failures, failed :=
        HandleLine(w, lines[i], info, title, index, total, successes, failures, failed);
      RunNext(s0, lines, i, info);
      i := i + 1;
    }
    assert lines[..i] == lines;
  }

  // ---------------------------------------------------------------------
  // The outcome
  // ---------------------------------------------------------------------

  /** How a download ends, as the log, the dialogs and the notification
      report it. */
  datatype Outcome =
    | CancelledBeforeStart
    | Stopped(successes: nat)
    | CompletedWithWarnings(successes: nat, failures: nat, failed: seq<FailedVideo>)
    | Completed(successes: nat)
    | ProcessCompleted
    | Failed(exitCode: int)
    | Crashed

  /** How the worker reports the end of the process: a stop wins, then any success, then the exit status. */
  function DecideOutcome(stopped: bool, successes: nat, failures: nat, failed: seq<FailedVideo>, exitCode: int)
    : (r: Outcome)
    ensures r.Stopped? <==> stopped
    ensures r.Stopped? ==> r.successes == successes
    ensures r.CompletedWithWarnings? || r.Completed? <==> !stopped && successes > 0
    ensures r.CompletedWithWarnings? <==> !stopped && successes > 0 && failures > 0
    ensures r.CompletedWithWarnings? ==> r == CompletedWithWarnings(successes, failures, failed)
    ensures r.Completed? ==> r.successes == successes
    ensures r == ProcessCompleted <==> !stopped && successes == 0 && exitCode == 0
    ensures r.Failed? <==> !stopped && successes == 0 && exitCode != 0
    ensures r.Failed? ==> r.exitCode == exitCode
    ensures r != CancelledBeforeStart && r != Crashed
  {
    if stopped then Stopped(successes)
    else if successes > 0 then
      if failures > 0 then CompletedWithWarnings(successes, failures, failed) else Completed(successes)
    else if exitCode == 0 then ProcessCompleted
    else Failed(exitCode)
  }

  /** After a stream that started from zero counters, a report with
      warnings lists exactly as many failed videos as it counts, each with
      the `ERROR:` line that caused it, in the order they were read. */
  lemma WarningsListTheFailures(stopped: bool, lines: seq<string>, info: map<string, string>,
                                exitCode: int, file: Option<string>, original: Option<string>, targets: set<string>)
    ensures var r := Run(Begin(file, original, targets), lines, info);
      var o := DecideOutcome(stopped, r.successes, r.failures, r.failed, exitCode);
      o.CompletedWithWarnings? ==>
        && |o.failed| == o.failures > 0
        && LinesOf(o.failed) == FailureLines(lines)
        && o.successes == SuccessCount(lines)
  {
    var s := Begin(file, original, targets);
    RunKeepsFailureCount(s, lines, info);
    RunRecordLines(s, lines, info);
    RunCounters(s, lines, info);
    assert LinesOf(s.failed) == [];
  }

  // ---------------------------------------------------------------------
  // The worker
  // ---------------------------------------------------------------------

  /** The lines the worker reads: a prefix of the stream, all of it without
      a stop, and with a stop after `n` lines the first `n` of them, or
      fewer only when the stream ends sooner. */
  function ReadBeforeStop(lines: seq<string>, stopAfter: Option<nat>): (r: seq<string>)
    ensures |r| <= |lines| && r == lines[..|r|]
    ensures stopAfter.None? ==> |r| == |lines|
    ensures stopAfter.Some? ==> |r| <= stopAfter.value && (|r| < stopAfter.value ==> |r| == |lines|)
  {
    match stopAfter
    case None => lines
    case Some(n) => lines[..if n < |lines| then n else |lines|]
  }

  /** The download process once it has started: its output is read up to
      the end of the stream or a click on Stop after `stopAfter` lines,
      which terminates it and cleans up the partial files of the targets
      then active; the outcome follows from the counters and `exitCode`. */
  method RunDownload(w: DownloaderWindow, lines: seq<string>, exitCode: int, stopAfter: Option<nat>,
                     info: map<string, string>, fs: FileSystem, protected: set<string>)
    returns (outcome: Outcome, fs2: FileSystem)
    modifies w`hasProcess, w`currentDownloadingFile, w`currentDownloadOriginal, w`activeTargets,
             w`downloadStopped, w`cancelRequested
    ensures var r := Run(Begin(old(w.currentDownloadingFile), old(w.currentDownloadOriginal),
                               old(w.activeTargets)), ReadBeforeStop(lines, stopAfter), info);
      && outcome == DecideOutcome(old(w.downloadStopped) || stopAfter.Some?,
                                  r.successes, r.failures, r.failed, exitCode)
      && (stopAfter.None? ==> fs2 == fs && w.activeTargets == r.targets)
      && (stopAfter.Some? ==> w.activeTargets == {})
      && (forall p :: p in fs && p !in fs2 ==>
            p !in protected && exists t :: t in r.targets && Doomed(t, p, fs[p]))
      && (stopAfter.Some? ==>
            forall t, p :: t in r.targets && Removable(fs, t, protected) && p in fs2 ==> !Doomed(t, p, fs2[p]))
    ensures SubFileSystem(fs2, fs)
    ensures w.downloadStopped == (old(w.downloadStopped) || stopAfter.Some?)
    ensures w.cancelRequested == (old(w.cancelRequested) || stopAfter.Some?)
  {
    ghost var s0 := Begin(w.currentDownloadingFile, w.currentDownloadOriginal, w.activeTargets);
    w.hasProcess := true;
    var read := ReadBeforeStop(lines, stopAfter);
    var title, index, total, successes, failures, failed := ProcessOutput(w, read, info);
    ghost var r := Run(s0, read, info);
    assert r.targets == w.activeTargets && r.successes == successes && r.failures == failures && r.failed == failed;
    outcome, fs2 := EndDownload(w, stopAfter.Some?, successes, failures, failed, exitCode, fs, protected);
  }

  /** What follows the output loop: a click on Stop raises both flags and
      cleans up the partial files of the active targets; the outcome is
      decided on the counters, the stop flag and `exitCode`. */
  method EndDownload(w: DownloaderWindow, stopClicked: bool, successes: nat, failures: nat,
                     failed: seq<FailedVideo>, exitCode: int, fs: FileSystem, protected: set<string>)
    returns (outcome: Outcome, fs2: FileSystem)
    modifies w`downloadStopped, w`cancelRequested, w`activeTargets
    ensures outcome == DecideOutcome(old(w.downloadStopped) || stopClicked, successes, failures, failed, exitCode)
    ensures w.downloadStopped == (old(w.downloadStopped) || stopClicked)
    ensures w.cancelRequested == (old(w.cancelRequested) || stopClicked)
    ensures !stopClicked ==> fs2 == fs && w.activeTargets == old(w.activeTargets)
    ensures stopClicked && old(w.hasProcess) ==> w.activeTargets == {}
    ensures SubFileSystem(fs2, fs)
    ensures forall p :: p in fs && p !in fs2 ==>
              p !in protected && exists t :: t in old(w.activeTargets) && Doomed(t, p, fs[p])
    ensures stopClicked && old(w.hasProcess) ==>
              forall t, p :: t in old(w.activeTargets) && Removable(fs, t, protected) && p in fs2
                ==> !Doomed(t, p, fs2[p])
  {
    fs2 := fs;
    if stopClicked {
      var deleted;
      fs2, deleted := OnStopClicked(w, fs, protected);
    }
    outcome := DecideOutcome(w.downloadStopped, successes, failures, failed, exitCode);
  }

  /** `download_thread`. The metadata query's exit status and output, or
      `None` when running it raised, come in as `infoResult`; the lines the
      download writes and its exit status, or `None` when it could not be
      started, as `mainResult`. `stopAfter` is a click on Stop after that
      many lines, which terminates the process (the rest of the output is
      never read) and cleans up the partial files in `fs`. Whatever
      happens, the process handle and both current-file fields are cleared
      at the end. */
  method DownloadThread(w: DownloaderWindow, url: string, kind: UrlKind, folder: string, useAuth: bool,
                        infoResult: Option<(int, string)>, mainResult: Option<(seq<string>, int)>,
                        stopAfter: Option<nat>, fs: FileSystem, protected: set<string>)
    returns (infoCmd: Option<seq<string>>, mainCmd: Option<seq<string>>, info: map<string, string>,
             outcome: Outcome, fs2: FileSystem)
    modifies w`hasProcess, w`currentDownloadingFile, w`currentDownloadOriginal, w`activeTargets,
             w`downloadStopped, w`cancelRequested
    ensures infoCmd == if ShouldFetchPlaylistInfo(kind, useAuth) then Some(InfoCommand(url, useAuth)) else None
    ensures info == FetchedInfo(kind, useAuth, infoResult)
    ensures old(w.cancelRequested) ==> outcome == CancelledBeforeStart && mainCmd == None && fs2 == fs
    ensures !old(w.cancelRequested) ==> mainCmd == Some(MainCommand(folder, url, useAuth))
    ensures !old(w.cancelRequested) && mainResult.None? ==> outcome == Crashed && fs2 == fs
    ensures !old(w.cancelRequested) && mainResult.Some? ==>
              var read := ReadBeforeStop(mainResult.value.0, stopAfter);
              var r := Run(Begin(old(w.currentDownloadingFile), old(w.currentDownloadOriginal),
                                 old(w.activeTargets)), read, info);
              outcome == DecideOutcome(old(w.downloadStopped) || stopAfter.Some?,
                                       r.successes, r.failures, r.failed, mainResult.value.1)
    ensures stopAfter.None? || old(w.cancelRequested) || mainResult.None? ==> fs2 == fs
    ensures SubFileSystem(fs2, fs)
    ensures !w.hasProcess && w.currentDownloadingFile == None && w.currentDownloadOriginal == None
    ensures var stopClicked := !old(w.cancelRequested) && mainResult.Some? && stopAfter.Some?;
      && w.downloadStopped == (old(w.downloadStopped) || stopClicked)
      && w.cancelRequested == (old(w.cancelRequested) || stopClicked)
    ensures old(w.cancelRequested) || mainResult.None? ==> w.activeTargets == old(w.activeTargets)
    ensures !old(w.cancelRequested) && mainResult.Some? ==>
              var r := Run(Begin(old(w.currentDownloadingFile), old(w.currentDownloadOriginal),
                                 old(w.activeTargets)), ReadBeforeStop(mainResult.value.0, stopAfter), info);
              && (stopAfter.None? ==> w.activeTargets == r.targets)
              && (stopAfter.Some? ==> w.activeTargets == {})
              && (forall p :: p in fs && p !in fs2 ==>
                    p !in protected && exists t :: t in r.targets && Doomed(t, p, fs[p]))
              && (stopAfter.Some? ==>
                    forall t, p :: t in r.targets && Removable(fs, t, protected) && p in fs2
                      ==> !Doomed(t, p, fs2[p]))
  {
    infoCmd, info := FetchPlaylistInfo(url, kind, useAuth, infoResult);
    mainCmd := None;
    fs2 := fs;
    if w.cancelRequested {
      outcome := CancelledBeforeStart;
    } else {
      mainCmd := Some(MainCommand(folder, url, useAuth));
      if mainResult.None? {
        outcome := Crashed;
      } else {
        outcome, fs2 := RunDownload(w, mainResult.value.0, mainResult.value.1, stopAfter, info, fs, protected);
      }
    }
    w.hasProcess := false;
    w.currentDownloadingFile := None;
    w.currentDownloadOriginal := None;
  }
}
