/**
 * The main window's download and stop handlers: which error the user sees
 * for a URL that is not accepted, the state reset before a download starts
 * and the flags a stop raises.
 */
module AppWindow {
  import opened Wrappers
  import opened Text
  import opened Utils
  import opened Window
  import opened Cleanup

  // ---------------------------------------------------------------------
  // The first id of re.findall(r'v=([\w-]+)', url)
  // ---------------------------------------------------------------------

  /** `v=` followed by at least one id character starts at `i`. */
  predicate VIdAt(s: string, i: nat)
  {
    OccursAt(s, "v=", i) && IdRun(s[i + 2..]) >= 1
  }

  /** The leftmost position at or after `from` where `v=([\w-]+)` matches. */
  function VIdFrom(s: string, from: nat): (r: Option<nat>)
    decreases |s| - from
    ensures r.Some? ==> from <= r.value && VIdAt(s, r.value)
    ensures r.Some? ==> forall i :: from <= i < r.value ==> !VIdAt(s, i)
    ensures r.None? ==> forall i :: from <= i ==> !VIdAt(s, i)
  {
    if from + 2 > |s| then None
    else if VIdAt(s, from) then Some(from)
    else VIdFrom(s, from + 1)
  }

  /** The id captured by the first match of `v=([\w-]+)`: the greedy group
      takes the whole run of id characters after `v=`. */
  function FirstVId(s: string): (r: Option<string>)
    ensures r.None? <==> forall i :: !VIdAt(s, i)
    ensures r.Some? ==> exists i: nat :: VIdAt(s, i) && (forall j: nat :: j < i ==> !VIdAt(s, j))
                                  && r.value == s[i + 2..][..IdRun(s[i + 2..])]
  {
    match VIdFrom(s, 0)
    case None => None
    case Some(i) => Some(s[i + 2..][..IdRun(s[i + 2..])])
  }

  /** The id that `FirstVId` reports is a non-empty run of id characters
      that is not followed by another id character. */
  lemma FirstVIdIsMaximalRun(s: string)
    requires FirstVId(s).Some?
    ensures var id := FirstVId(s).value;
      |id| >= 1 && AllIdChars(id) && Contains(s, "v=" + id)
  {
    var i := VIdFrom(s, 0).value;
    var t := s[i + 2..];
    var id := t[..IdRun(t)];
    assert s[i..i + 2 + |id|] == "v=" + id by {
      assert s[i..i + 2] == "v=";
      assert s[i + 2..i + 2 + |id|] == id;
    }
    ContainsAt(s, "v=" + id, i);
  }

  // ---------------------------------------------------------------------
  // Diagnosis of the URL entry
  // ---------------------------------------------------------------------

  /** What the download button does with the text of the URL entry: one of
      the four error dialogs, or the URL with its kind. */
  datatype UrlCheck =
    | EmptyUrl
    | NotYouTube
    | BadIdLength(id: string, length: nat)
    | InvalidFormat
    | Accepted(url: string, kind: UrlKind)

  /** A YouTube host is named somewhere in the URL. */
  predicate MentionsYouTube(url: string)
  {
    Contains(url, "youtube.com") || Contains(url, "youtu.be")
  }

  /** The URL is stripped, then an empty URL, an accepted URL and the three
      kinds of rejected URL are told apart. */
  function CheckUrl(entry: string): (r: UrlCheck)
    ensures r == EmptyUrl <==> Strip(entry) == ""
    ensures r.Accepted? <==> Strip(entry) != "" && ClassifyYouTubeUrl(entry).0.Some?
    ensures r.Accepted? ==> r.url == Strip(entry) && ClassifyYouTubeUrl(entry).0 == Some(r.kind)
    ensures r == NotYouTube <==>
              Strip(entry) != "" && ClassifyYouTubeUrl(entry).0.None? && !MentionsYouTube(Strip(entry))
    ensures r.BadIdLength? ==>
              && ClassifyYouTubeUrl(entry).0.None?
              && MentionsYouTube(Strip(entry))
              && Contains(Strip(entry), "/watch?v=")
              && FirstVId(Strip(entry)) == Some(r.id)
              && r.length == |r.id| != 11
    ensures r == InvalidFormat ==>
              && Strip(entry) != ""
              && ClassifyYouTubeUrl(entry).0.None?
              && MentionsYouTube(Strip(entry))
              && (!Contains(Strip(entry), "/watch?v=") || FirstVId(Strip(entry)).None?
                  || |FirstVId(Strip(entry)).value| == 11)
  {
    var url := Strip(entry);
    if url == "" then EmptyUrl
    else
      StripIdempotent(entry);
      match ClassifyYouTubeUrl(url).0
      case Some(kind) => Accepted(url, kind)
      case None =>
        if !MentionsYouTube(url) then NotYouTube
        else if Contains(url, "/watch?v=") && FirstVId(url).Some? && |FirstVId(url).value| != 11 then
          BadIdLength(FirstVId(url).value, |FirstVId(url).value|)
        else InvalidFormat
  }

  /** The entry text is empty after stripping exactly when it is all
      whitespace, so a blank entry gets the "Please enter a YouTube URL"
      dialog. */
  lemma EmptyEntryIsBlank(entry: string)
    ensures CheckUrl(entry) == EmptyUrl <==> AllSpace(entry)
  {
    LStripEmptyIffAllSpace(entry);
    var l := LStrip(entry);
    if l != [] {
      assert RStrip(l) != [] by { assert !IsSpace(l[0]); }
    }
  }

  /** Whitespace around the entry changes nothing in the diagnosis. */
  lemma CheckIgnoresPadding(a: string, entry: string, b: string)
    requires AllSpace(a) && AllSpace(b)
    ensures CheckUrl(a + entry + b) == CheckUrl(entry)
  {
    StripIgnoresPadding(a, entry, b);
    ClassifyIgnoresPadding(a, entry, b);
  }

  /** Every accepted URL is a match of one of the four regular expressions,
      and every stripped entry that such a match accepts is let through. */
  lemma AcceptedIsRegexMatch(entry: string)
    ensures CheckUrl(entry).Accepted? <==>
              exists q, m :: 0 <= q < |YouTubePatterns| && RegexMatch(YouTubePatterns[q], Strip(entry), m)
  {
    var s := Strip(entry);
    if CheckUrl(entry).Accepted? {
      ClassifiedIsRegexMatch(entry);
    }
    if exists q, m :: 0 <= q < |YouTubePatterns| && RegexMatch(YouTubePatterns[q], s, m) {
      var q, m :| 0 <= q < |YouTubePatterns| && RegexMatch(YouTubePatterns[q], s, m);
      ClassifyAcceptsRegexMatch(entry, q, m);
      if s == "" {
        var i, j :| 0 <= i < |Schemes| && 0 <= j < |WwwOptions(YouTubePatterns[q])|
                    && MatchesWithLead(YouTubePatterns[q], s, Schemes[i] + WwwOptions(YouTubePatterns[q])[j], m);
        PathsStartWithY(q);
        assert false;
      }
    }
  }

  /** Every pattern's literal path begins with a YouTube host, so an
      accepted URL always names one, and "not a YouTube URL" is only ever
      reported for text that no pattern accepts. */
  lemma AcceptedMentionsYouTube(entry: string)
    requires CheckUrl(entry).Accepted?
    ensures MentionsYouTube(CheckUrl(entry).url)
  {
    var s := Strip(entry);
    assert FirstMatch(YouTubePatterns, s).0.Some?;
    var q :| 0 <= q < |YouTubePatterns| && MatchPattern(YouTubePatterns[q], s).Some?;
    var host := if q == 2 then "youtu.be" else "youtube.com";
    PatternHost(q);
    MatchNamesHost(YouTubePatterns[q], s, host);
  }

  // ---------------------------------------------------------------------
  // The handlers
  // ---------------------------------------------------------------------

  /** What a click on the download button leads to. */
  datatype Launch =
    | Refused(check: UrlCheck)
    | FolderUnusable
    | Started(url: string, kind: UrlKind, path: string, useAuth: bool)

  /** `on_download_clicked`. `resolvedFolder` is the folder the operating
      system resolves `download_path` to once it has been created, or `None`
      when it cannot be created or is not writable. A refused URL and an
      unusable folder return before anything changes; a launch records the
      folder, clears both stop flags and both current-file fields, and hands
      the URL, its kind, the folder and the authentication switch to the
      worker. */
  method OnDownloadClicked(w: DownloaderWindow, entry: string, resolvedFolder: Option<string>)
    returns (r: Launch)
    modifies w`downloadPath, w`downloadStopped, w`cancelRequested,
             w`currentDownloadingFile, w`currentDownloadOriginal
    ensures !CheckUrl(entry).Accepted? <==> r == Refused(CheckUrl(entry))
    ensures r == FolderUnusable <==> CheckUrl(entry).Accepted? && resolvedFolder.None?
    ensures !r.Started? ==> unchanged(w)
    ensures r.Started? ==> CheckUrl(entry) == Accepted(r.url, r.kind)
    ensures r.Started? ==> resolvedFolder == Some(r.path) && w.downloadPath == r.path
    ensures r.Started? ==> r.useAuth == w.useAuth && w.useAuth == old(w.useAuth)
    ensures r.Started? ==> !w.downloadStopped && !w.cancelRequested
    ensures r.Started? ==> w.currentDownloadingFile == None && w.currentDownloadOriginal == None
    ensures r.Started? ==> w.hasProcess == old(w.hasProcess) && w.activeTargets == old(w.activeTargets)
  {
    var check := CheckUrl(entry);
    if !check.Accepted? {
      return Refused(check);
    }
    if resolvedFolder.None? {
      return FolderUnusable;
    }
    r := Started(check.url, check.kind, resolvedFolder.value, w.useAuth);
    ResetForLaunch(w, resolvedFolder.value);
  }

  /** The state reset that precedes a launch. */
  method ResetForLaunch(w: DownloaderWindow, folder: string)
    modifies w`downloadPath, w`downloadStopped, w`cancelRequested,
             w`currentDownloadingFile, w`currentDownloadOriginal
    ensures w.downloadPath == folder
    ensures !w.downloadStopped && !w.cancelRequested
    ensures w.currentDownloadingFile == None && w.currentDownloadOriginal == None
    ensures w.useAuth == old(w.useAuth) && w.hasProcess == old(w.hasProcess)
    ensures w.activeTargets == old(w.activeTargets)
  {
    w.downloadPath := folder;
    w.downloadStopped := false;
    w.cancelRequested := false;
    w.currentDownloadingFile := None;
    w.currentDownloadOriginal := None;
  }

  /** `on_stop_clicked`: both flags are raised whether or not a process is
      running; with a process, the partial files are cleaned up after it has
      been terminated. */
  method OnStopClicked(w: DownloaderWindow, fs: FileSystem, protected: set<string>)
    returns (fs2: FileSystem, deleted: nat)
    modifies w`downloadStopped, w`cancelRequested, w`activeTargets
    ensures w.downloadStopped && w.cancelRequested
    ensures !old(w.hasProcess) ==> fs2 == fs && deleted == 0 && w.activeTargets == old(w.activeTargets)
    ensures old(w.hasProcess) ==> w.activeTargets == {}
    ensures SubFileSystem(fs2, fs) && deleted == |fs.Keys| - |fs2.Keys|
    ensures forall p :: p in fs && p !in fs2 ==>
              p !in protected && exists t :: t in old(w.activeTargets) && Doomed(t, p, fs[p])
    ensures old(w.hasProcess) ==>
              forall t, p :: t in old(w.activeTargets) && Removable(fs, t, protected) && p in fs2
                ==> !Doomed(t, p, fs2[p])
  {
    w.downloadStopped := true;
    w.cancelRequested := true;
    if w.hasProcess {
      fs2, deleted := CleanupPartialFiles(w, fs, protected);
    } else {
      fs2, deleted := fs, 0;
    }
  }
}
