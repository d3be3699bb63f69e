/**
 * The part of the main window's state that the download code reads and
 * updates: the destination folder, the authentication switch, whether a
 * yt-dlp process is running, the two stop flags, the file being written
 * and the set of targets that a stop has to clean up.
 */
module Window {
  import opened Wrappers

  class DownloaderWindow {
    /** `download_path`. */
    var downloadPath: string
    /** `use_youtube_auth`. */
    var useAuth: bool
    /** `current_process is not None`. */
    var hasProcess: bool
    /** `download_stopped`. */
    var downloadStopped: bool
    /** `download_cancel_requested`. */
    var cancelRequested: bool
    /** `current_downloading_file`, `None` or a path. */
    var currentDownloadingFile: Option<string>
    /** `current_download_original`, `None` or a path. */
    var currentDownloadOriginal: Option<string>
    /** `active_download_targets`. */
    var activeTargets: set<string>

    /** A fresh window: the folder and the authentication switch come from
        the saved configuration, nothing is running and nothing is pending. */
    constructor (downloadPath: string, useAuth: bool)
      ensures this.downloadPath == downloadPath && this.useAuth == useAuth
      ensures !hasProcess && !downloadStopped && !cancelRequested
      ensures currentDownloadingFile == None && currentDownloadOriginal == None
      ensures activeTargets == {}
    {
      this.downloadPath := downloadPath;
      this.useAuth := useAuth;
      hasProcess := false;
      downloadStopped := false;
      cancelRequested := false;
      currentDownloadingFile := None;
      currentDownloadOriginal := None;
      activeTargets := {};
    }
  }

  /** Python truthiness of `current_download_original`: set and non-empty. */
  predicate Truthy(o: Option<string>)
  {
    o.Some? && o.value != ""
  }

  /** `active_download_targets.discard(original)` done only when the
      original is truthy, as both the success and the failure paths do. */
  function DiscardOriginal(targets: set<string>, original: Option<string>): (r: set<string>)
    ensures r <= targets
    ensures Truthy(original) ==> original.value !in r
    ensures forall t :: t in targets && t !in r ==> Truthy(original) && t == original.value
  {
    if Truthy(original) then targets - {original.value} else targets
  }
}
