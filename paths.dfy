/**
 * The two `os.path` functions the downloader applies to file paths
 * (POSIX flavour, `/` as the only separator): `basename` and `splitext`.
 */
module Paths {

  /** `s.rfind(c)`: index of the last `c` in `s`, or -1. */
  function RFind(s: string, c: char): (r: int)
    ensures -1 <= r < |s|
    ensures r >= 0 ==> s[r] == c
    ensures forall i :: r < i < |s| ==> s[i] != c
  {
    if |s| == 0 then -1
    else if s[|s| - 1] == c then |s| - 1
    else RFind(s[..|s| - 1], c)
  }

  /** `os.path.basename(p)`: everything after the last `/`. */
  function Basename(p: string): (r: string)
    ensures '/' !in r
    ensures |r| <= |p| && r == p[|p| - |r|..]
    ensures |r| == |p| || p[|p| - |r| - 1] == '/'
  {
    var r := p[RFind(p, '/') + 1..];
    assert forall i :: 0 <= i < |r| ==> r[i] == p[RFind(p, '/') + 1 + i];
    r
  }

  /** True when the last dot of `p` ends an extension in the sense of
      `splitext`: it lies in the last path component and some character
      other than a dot precedes it within that component (so the leading
      dots of a name like `.bashrc` never start an extension). */
  predicate HasExtension(p: string)
  {
    var sep := RFind(p, '/');
    var dot := RFind(p, '.');
    dot > sep && exists i :: sep + 1 <= i < dot && p[i] != '.'
  }

  /** `os.path.splitext(p)`: `(root, ext)` where `ext` is empty or runs from
      the last dot to the end. */
  function Splitext(p: string): (r: (string, string))
    ensures r.0 + r.1 == p
    ensures r.1 == "" <==> !HasExtension(p)
    ensures r.1 != "" ==> r.1[0] == '.' && '/' !in r.1 && '.' !in r.1[1..]
  {
    if HasExtension(p) then
      var dot := RFind(p, '.');
      assert p[..dot] + p[dot..] == p;
      assert forall i :: 1 <= i < |p[dot..]| ==> p[dot..][i] == p[dot + i];
      (p[..dot], p[dot..])
    else (p, "")
  }

  /** Splitting a root and an extension that `Splitext` produced from a
      bare file name gives them back. */
  lemma {:induction false} SplitextOfName(name: string, ext: string)
    requires '/' !in name && '/' !in ext
    requires |ext| >= 1 && ext[0] == '.' && '.' !in ext[1..]
    requires exists i :: 0 <= i < |name| && name[i] != '.'
    ensures Splitext(name + ext) == (name, ext)
  {
    var p := name + ext;
    var i :| 0 <= i < |name| && name[i] != '.';
    assert p[|name|] == '.';
    assert forall k :: |name| < k < |p| ==> p[k] == ext[1..][k - |name| - 1];
    assert RFind(p, '.') == |name|;
    assert RFind(p, '/') == -1 by {
      assert forall k :: 0 <= k < |p| ==> p[k] != '/' by {
        forall k | 0 <= k < |p| ensures p[k] != '/' {
          if k < |name| { assert p[k] == name[k]; } else { assert p[k] == ext[k - |name|]; }
        }
      }
    }
    assert p[i] == name[i];
    assert HasExtension(p);
    assert p[..|name|] == name;
  }
}
