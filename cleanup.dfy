/**
 * Deleting what yt-dlp leaves behind when a download is stopped
 * (`cleanup_partial_files`). The file system is a map from path to size in
 * bytes; `protected` holds the paths whose removal fails (`os.remove`
 * raises), which ends the work on the current target only.
 */
module Cleanup {
  import opened Text
  import opened Paths
  import opened Window

  /** Path to size in bytes; a path is a key exactly when it is a file. */
  type FileSystem = map<string, int>

  /** MP3 files smaller than this many bytes count as incomplete. */
  const IncompleteMp3Limit := 1024

  /** `fs2` is `fs` with some files removed and nothing else changed. */
  predicate SubFileSystem(fs2: FileSystem, fs: FileSystem)
  {
    forall p :: p in fs2 ==> p in fs && fs2[p] == fs[p]
  }

  /** The `base` of `os.path.splitext(target)`. */
  function Base(target: string): (r: string)
    ensures StartsWith(target, r)
  {
    Splitext(target).0
  }

  /** The target and its `.part`, `.ytdl` and `.temp` companions. */
  function ListedCandidates(target: string): seq<string>
  {
    [target, target + ".part", target + ".ytdl", target + ".temp"]
  }

  /** `base.jpg`, `base.jpeg`, `base.png`, `base.webp`. */
  function ThumbnailCandidates(target: string): seq<string>
  {
    var b := Base(target);
    [b + ".jpg", b + ".jpeg", b + ".png", b + ".webp"]
  }

  /** `base.mp3`, deleted only when it is small. */
  function Mp3Candidate(target: string): string
  {
    Base(target) + ".mp3"
  }

  /** The prefixes of the three chunk wildcards `base.f*`, `base.fragment*`
      and `base.frag*`. */
  function ChunkPrefixes(target: string): seq<string>
  {
    var b := Base(target);
    [b + ".f", b + ".fragment", b + ".frag"]
  }

  /** `path` matches the wildcard `prefix*`: `*` stands for any text
      without a directory separator. */
  predicate GlobMatch(prefix: string, path: string)
  {
    StartsWith(path, prefix) && '/' !in path[|prefix|..]
  }

  /** `path` matches one of the target's chunk wildcards. */
  predicate ChunkMatch(target: string, path: string)
  {
    exists k :: 0 <= k < |ChunkPrefixes(target)| && GlobMatch(ChunkPrefixes(target)[k], path)
  }

  /** Whether cleaning `target` deletes the file `path` of the given size. */
  predicate Doomed(target: string, path: string, size: int)
  {
    || path in ListedCandidates(target)
    || ChunkMatch(target, path)
    || path in ThumbnailCandidates(target)
    || (path == Mp3Candidate(target) && size < IncompleteMp3Limit)
  }

  /** Every existing listed candidate of the target can be removed. */
  predicate ListedRemovable(fs: FileSystem, target: string, protected: set<string>)
  {
    forall p :: p in fs && p in ListedCandidates(target) ==> p !in protected
  }

  /** Every existing file the chunk wildcards match can be removed. */
  predicate ChunksRemovable(fs: FileSystem, target: string, protected: set<string>)
  {
    forall p :: p in fs && ChunkMatch(target, p) ==> p !in protected
  }

  /** Every existing thumbnail of the target can be removed. */
  predicate ThumbnailsRemovable(fs: FileSystem, target: string, protected: set<string>)
  {
    forall p :: p in fs && p in ThumbnailCandidates(target) ==> p !in protected
  }

  /** Every file the target dooms can be removed. */
  predicate Removable(fs: FileSystem, target: string, protected: set<string>)
  {
    forall p :: p in fs && Doomed(target, p, fs[p]) ==> p !in protected
  }

  /** Removing one existing file lowers the file count by one. */
  lemma RemoveOne(fs: FileSystem, p: string)
    requires p in fs
    ensures |(fs - {p}).Keys| == |fs.Keys| - 1
  {
    assert (fs - {p}).Keys == fs.Keys - {p};
  }

  /** Removing `paths` in turn stopped at `paths[i]`: that file exists and
      cannot be removed, every existing file before it could be, and of the
      files of `fs` exactly those listed before it are gone. */
  predicate StoppedAt(fs: FileSystem, fs2: FileSystem, paths: seq<string>, protected: set<string>, i: nat)
  {
    && i < |paths| && paths[i] in fs && paths[i] in protected
    && (forall j :: 0 <= j < i && paths[j] in fs ==> paths[j] !in protected)
    && (forall p :: p in fs ==> (p in fs2 <==> p !in paths[..i]))
  }

  /** The loop `for candidate in paths: if isfile: remove; count += 1`,
      stopped by the first removal that fails. */
  method RemoveEach(fs: FileSystem, paths: seq<string>, protected: set<string>)
    returns (fs2: FileSystem, n: nat, ok: bool)
    ensures SubFileSystem(fs2, fs)
    ensures forall p :: p in fs && p !in fs2 ==> p in paths && p !in protected
    ensures n == |fs.Keys| - |fs2.Keys|
    ensures ok <==> forall p :: p in fs && p in paths ==> p !in protected
    ensures ok ==> forall p :: p in paths ==> p !in fs2
    ensures !ok ==> exists i :: StoppedAt(fs, fs2, paths, protected, i)
  {
    fs2, n, ok := fs, 0, true;
    var i := 0;
    while i < |paths|
      invariant 0 <= i <= |paths|
      invariant SubFileSystem(fs2, fs)
      invariant n == |fs.Keys| - |fs2.Keys|
      invariant forall p :: p in fs ==> (p in fs2 <==> p !in paths[..i])
      invariant forall p :: p in fs && p in paths[..i] ==> p !in protected
    {
      var p := paths[i];
      if p in fs2 {
        if p in protected {
          ok := false;
          StoppedHere(fs, fs2, paths, protected, i);
          return;
        }
        RemoveOne(fs2, p);
        fs2 := fs2 - {p};
        n := n + 1;
      }
      assert paths[..i + 1] == paths[..i] + [p];
      i := i + 1;
    }
    assert paths[..i] == paths;
  }

  /** The loop's invariant at a file that cannot be removed is `StoppedAt`. */
  lemma StoppedHere(fs: FileSystem, fs2: FileSystem, paths: seq<string>, protected: set<string>, i: nat)
    requires i < |paths| && paths[i] in fs2 && paths[i] in protected && SubFileSystem(fs2, fs)
    requires forall p :: p in fs ==> (p in fs2 <==> p !in paths[..i])
    requires forall p :: p in fs && p in paths[..i] ==> p !in protected
    ensures StoppedAt(fs, fs2, paths, protected, i)
  {
    forall j | 0 <= j < i && paths[j] in fs
      ensures paths[j] !in protected
    {
      assert paths[j] == paths[..i][j];
    }
  }

  /** `for candidate in glob.glob(prefix + "*"): if isfile: remove; count += 1`.
      The order in which glob lists the matches is left open. */
  method RemoveGlob(fs: FileSystem, prefix: string, protected: set<string>)
    returns (fs2: FileSystem, n: nat, ok: bool)
    ensures SubFileSystem(fs2, fs)
    ensures forall p :: p in fs && p !in fs2 ==> GlobMatch(prefix, p) && p !in protected
    ensures n == |fs.Keys| - |fs2.Keys|
    ensures ok <==> forall p :: p in fs && GlobMatch(prefix, p) ==> p !in protected
    ensures ok ==> forall p :: p in fs2 ==> !GlobMatch(prefix, p)
  {
    var todo := set p | p in fs.Keys && GlobMatch(prefix, p);
    fs2, n, ok := fs, 0, true;
    while todo != {}
      decreases |todo|
      invariant todo <= fs2.Keys
      invariant forall p :: p in todo ==> GlobMatch(prefix, p)
      invariant SubFileSystem(fs2, fs)
      invariant forall p :: p in fs && p !in fs2 ==> GlobMatch(prefix, p) && p !in protected
      invariant forall p :: p in fs2 && GlobMatch(prefix, p) ==> p in todo
      invariant n == |fs.Keys| - |fs2.Keys|
    {
      var p :| p in todo;
      if p in protected {
        ok := false;
        return;
      }
      RemoveOne(fs2, p);
      fs2 := fs2 - {p};
      todo := todo - {p};
      n := n + 1;
    }
  }

  /** The chunk wildcards `base.fragment*` and `base.frag*` match nothing
      that `base.f*` does not already match. */
  lemma ChunkWildcardsNested(target: string, path: string, k: nat)
    requires k < 3 && GlobMatch(ChunkPrefixes(target)[k], path)
    ensures GlobMatch(ChunkPrefixes(target)[0], path)
  {
    var b := Base(target);
    var f := b + ".f";
    if k > 0 {
      var longer := ChunkPrefixes(target)[k];
      assert longer[..|f|] == f;
      assert path[..|f|] == path[..|longer|][..|f|];
      assert path[|f|..] == path[|f|..|longer|] + path[|longer|..];
      assert '/' !in path[|f|..|longer|] by {
        assert path[|f|..|longer|] == longer[|f|..];
      }
    }
  }

  /** The size rule: the target itself is deleted whatever its size, while
      `base.mp3` (when it is not the target) is deleted exactly when it is
      under 1024 bytes. */
  lemma Mp3SizeRule(target: string, size: int)
    ensures Doomed(target, target, size)
    ensures Splitext(target).1 != ".mp3" ==>
              (Doomed(target, Mp3Candidate(target), size) <==> size < IncompleteMp3Limit)
  {
    assert target in ListedCandidates(target);
    var b := Base(target);
    var e := Splitext(target).1;
    var mp3 := Mp3Candidate(target);
    if e != ".mp3" && size >= IncompleteMp3Limit {
      assert target == b + e;
      assert mp3 != target;
      assert mp3[|b| + 1] == 'm';
      assert mp3 !in ListedCandidates(target) by {
        assert |target + ".part"| > |mp3| && |target + ".ytdl"| > |mp3| && |target + ".temp"| > |mp3|
          by { assert |target| >= |b|; }
      }
      forall k | 0 <= k < |ChunkPrefixes(target)|
        ensures !GlobMatch(ChunkPrefixes(target)[k], mp3)
      {
        var pre := ChunkPrefixes(target)[k];
        assert pre[|b| + 1] == 'f';
      }
      assert mp3 !in ThumbnailCandidates(target) by {
        var th := ThumbnailCandidates(target);
        assert th[0][|b| + 1] == 'j' && th[1][|b| + 1] == 'j';
        assert th[2][|b| + 1] == 'p' && th[3][|b| + 1] == 'w';
      }
    }
  }

  /** The three chunk wildcards of a target, one after the other; the first
      removal that fails abandons the rest. */
  method RemoveChunks(fs: FileSystem, target: string, protected: set<string>)
    returns (fs2: FileSystem, n: nat, ok: bool)
    ensures SubFileSystem(fs2, fs)
    ensures forall p :: p in fs && p !in fs2 ==> ChunkMatch(target, p) && p !in protected
    ensures n == |fs.Keys| - |fs2.Keys|
    ensures ok <==> ChunksRemovable(fs, target, protected)
    ensures ok ==> forall p :: p in fs2 ==> !ChunkMatch(target, p)
  {
    var prefixes := ChunkPrefixes(target);
    fs2, n, ok := fs, 0, true;
    var k := 0;
    while k < |prefixes|
      invariant 0 <= k <= |prefixes|
      invariant SubFileSystem(fs2, fs)
      invariant forall p :: p in fs && p !in fs2 ==> ChunkMatch(target, p) && p !in protected
      invariant n == |fs.Keys| - |fs2.Keys|
      invariant forall p, j :: 0 <= j < k && p in fs && GlobMatch(prefixes[j], p) ==> p !in protected
      invariant forall p, j :: 0 <= j < k && p in fs2 ==> !GlobMatch(prefixes[j], p)
    {
      var fs3, m, ok3 := RemoveGlob(fs2, prefixes[k], protected);
      if !ok3 {
        ok := false;
        return;
      }
      fs2, n := fs3, n + m;
      k := k + 1;
    }
  }

  /** What cleaning `target` left of `fs` phase by phase: a failing listed
      candidate stops the work exactly there; otherwise all listed
      candidates are gone, and a failing chunk removal keeps every
      thumbnail and the mp3; otherwise no chunk is left, and a failing
      thumbnail removal keeps the mp3; otherwise no thumbnail is left. */
  predicate CleanedInOrder(fs: FileSystem, fs2: FileSystem, target: string, protected: set<string>)
  {
    && (!ListedRemovable(fs, target, protected) ==>
          exists i :: 0 <= i < |ListedCandidates(target)| && StoppedAt(fs, fs2, ListedCandidates(target), protected, i))
    && (ListedRemovable(fs, target, protected) ==> forall p :: p in ListedCandidates(target) ==> p !in fs2)
    && (ListedRemovable(fs, target, protected) && !ChunksRemovable(fs, target, protected) ==>
          forall p :: p in fs && p !in fs2 ==> p in ListedCandidates(target) || ChunkMatch(target, p))
    && (ListedRemovable(fs, target, protected) && ChunksRemovable(fs, target, protected) ==>
          forall p :: p in fs2 ==> !ChunkMatch(target, p))
    && (ListedRemovable(fs, target, protected) && ChunksRemovable(fs, target, protected)
        && !ThumbnailsRemovable(fs, target, protected) ==>
          forall p :: p in fs && p !in fs2 ==>
            p in ListedCandidates(target) || ChunkMatch(target, p) || p in ThumbnailCandidates(target))
    && (ListedRemovable(fs, target, protected) && ChunksRemovable(fs, target, protected)
        && ThumbnailsRemovable(fs, target, protected) ==>
          forall p :: p in ThumbnailCandidates(target) ==> p !in fs2)
  }

  /** The body of the `for target in targets` loop: the listed candidates,
      the three chunk wildcards, the thumbnails and a small `base.mp3`, in
      that order; the first removal that fails abandons the target. */
  method CleanTarget(fs: FileSystem, target: string, protected: set<string>)
    returns (fs2: FileSystem, n: nat, ok: bool)
    ensures SubFileSystem(fs2, fs)
    ensures forall p :: p in fs && p !in fs2 ==> Doomed(target, p, fs[p]) && p !in protected
    ensures n == |fs.Keys| - |fs2.Keys|
    ensures ok <==> Removable(fs, target, protected)
    ensures ok ==> forall p :: p in fs2 ==> !Doomed(target, p, fs2[p])
    ensures CleanedInOrder(fs, fs2, target, protected)
  {
    fs2, n, ok := RemoveEach(fs, ListedCandidates(target), protected);
    if !ok {
      return;
    }
    var fs3, m, ok3 := RemoveChunks(fs2, target, protected);
    fs2, n := fs3, n + m;
    if !ok3 {
      ok := false;
      return;
    }
    fs3, m, ok3 := RemoveEach(fs2, ThumbnailCandidates(target), protected);
    fs2, n := fs3, n + m;
    if !ok3 {
      ok := false;
      return;
    }
    var mp3 := Mp3Candidate(target);
    if mp3 in fs2 && fs2[mp3] < IncompleteMp3Limit {
      if mp3 in protected {
        ok := false;
        return;
      }
      RemoveOne(fs2, mp3);
      fs2 := fs2 - {mp3};
      n := n + 1;
    }
  }

  /** `cleanup_partial_files`: snapshot the targets, clean each one (a
      failure on one target does not stop the others, and the targets are
      taken in no particular order), count the files deleted and drain the
      snapshotted targets from the set. */
  method CleanupPartialFiles(w: DownloaderWindow, fs: FileSystem, protected: set<string>)
    returns (fs2: FileSystem, deleted: nat)
    modifies w`activeTargets
    ensures w.activeTargets == {}
    ensures SubFileSystem(fs2, fs)
    ensures deleted == |fs.Keys| - |fs2.Keys|
    ensures forall p :: p in fs && p !in fs2 ==>
              p !in protected && exists t :: t in old(w.activeTargets) && Doomed(t, p, fs[p])
    ensures forall t, p :: t in old(w.activeTargets) && Removable(fs, t, protected) && p in fs2
              ==> !Doomed(t, p, fs2[p])
  {
    var targets := w.activeTargets;
    var todo := targets;
    fs2, deleted := fs, 0;
    while todo != {}
      decreases |todo|
      invariant todo <= targets && w.activeTargets == targets
      invariant SubFileSystem(fs2, fs)
      invariant deleted == |fs.Keys| - |fs2.Keys|
      invariant forall p :: p in fs && p !in fs2 ==>
                  p !in protected && exists t :: t in targets && Doomed(t, p, fs[p])
      invariant forall t, p :: t in targets - todo && Removable(fs, t, protected) && p in fs2
                  ==> !Doomed(t, p, fs2[p])
    {
      var t :| t in todo;
      ghost var before := fs2;
      assert Removable(fs, t, protected) ==> Removable(before, t, protected);
      var fs3, n, ok := CleanTarget(fs2, t, protected);
      fs2, deleted := fs3, deleted + n;
      todo := todo - {t};
    }
    w.activeTargets := w.activeTargets - targets;
  }
}
