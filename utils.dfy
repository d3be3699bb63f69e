/**
 * The YouTube URL classifier (`utils.py`): four start-anchored patterns
 * tried in order on the stripped input; the first that matches decides the
 * kind of URL.
 */
module Utils {
  import opened Wrappers
  import opened Text

  /** The regex class `\w`, restricted to ASCII letters, digits and `_`. */
  predicate IsWordChar(c: char)
  {
    ('a' <= c <= 'z') || ('A' <= c <= 'Z') || ('0' <= c <= '9') || c == '_'
  }

  /** The regex class `[\w-]` used for video and playlist ids. */
  predicate IsIdChar(c: char)
  {
    IsWordChar(c) || c == '-'
  }

  predicate AllIdChars(s: string)
  {
    forall i :: 0 <= i < |s| ==> IsIdChar(s[i])
  }

  /** Length of the longest prefix of `s` made of id characters. */
  function IdRun(s: string): (r: nat)
    ensures r <= |s| && AllIdChars(s[..r])
    ensures r == |s| || !IsIdChar(s[r])
  {
    if |s| > 0 && IsIdChar(s[0]) then
      var r := 1 + IdRun(s[1..]);
      assert s[..r] == [s[0]] + s[1..][..r - 1];
      r
    else 0
  }

  /** The run of id characters of a prefix of `s`. */
  lemma {:induction false} IdRunOfPrefix(s: string, m: nat)
    requires m <= |s|
    ensures IdRun(s[..m]) == if IdRun(s) < m then IdRun(s) else m
  {
    if m > 0 && IsIdChar(s[0]) {
      assert s[..m][1..] == s[1..][..m - 1];
      IdRunOfPrefix(s[1..], m - 1);
    }
  }

  datatype UrlKind = Video | Playlist | Short

  /** How many id characters a pattern asks for: `{n}` or `{n,}`. */
  datatype IdLength = Exactly(n: nat) | AtLeast(n: nat)

  /** `(?:https?://)?` then, when `allowWww`, `(?:www\.)?`, then the literal
      `path`, then the id group `([\w-]...)`. */
  datatype UrlPattern = UrlPattern(allowWww: bool, path: string, idLength: IdLength, kind: UrlKind)

  /** The part of a `re.Match` the program can observe: `group(0)` (the
      matched prefix of the input) and `group(1)` (the id). */
  datatype UrlMatch = UrlMatch(text: string, id: string)

  /** `YOUTUBE_PATTERNS`, in order. */
  const YouTubePatterns: seq<UrlPattern> := [
    UrlPattern(true, "youtube.com/watch?v=", Exactly(11), Video),
    UrlPattern(true, "youtube.com/playlist?list=", AtLeast(13), Playlist),
    UrlPattern(false, "youtu.be/", Exactly(11), Video),
    UrlPattern(true, "youtube.com/shorts/", Exactly(11), Short)
  ]

  /** Length of the `https?://` prefix of `s`, 0 when there is none. */
  function SchemeLength(s: string): (r: nat)
    ensures r <= |s|
  {
    if StartsWith(s, "https://") then 8 else if StartsWith(s, "http://") then 7 else 0
  }

  /** Length of the optional `www.` the pattern consumes. */
  function WwwLength(p: UrlPattern, s: string): (r: nat)
    ensures r <= |s|
  {
    if p.allowWww && StartsWith(s, "www.") then 4 else 0
  }

  /** Where the literal path of `p` must begin in `s`: after the optional
      groups, each taken whenever its text is present. */
  function PathStart(p: UrlPattern, s: string): (r: nat)
    ensures r <= |s|
  {
    var lead := SchemeLength(s);
    lead + WwwLength(p, s[lead..])
  }

  /** `pattern.match(s)`: the match anchored at the start of `s`, if any. */
  function MatchPattern(p: UrlPattern, s: string): (r: Option<UrlMatch>)
    ensures r.Some? ==> StartsWith(s[PathStart(p, s)..], p.path)
    ensures r.Some? ==> StartsWith(s, r.value.text) && AllIdChars(r.value.id)
    ensures r.Some? ==> |r.value.id| >= p.idLength.n
    ensures r.Some? ==>
      var start := PathStart(p, s) + |p.path|;
      && start + |r.value.id| <= |s|
      && r.value.text == s[..start + |r.value.id|]
      && r.value.id == s[start..start + |r.value.id|]
      && (p.idLength.Exactly? ==> |r.value.id| == p.idLength.n)
      && (p.idLength.AtLeast? ==> start + |r.value.id| == |s| || !IsIdChar(s[start + |r.value.id|]))
  {
    var lead2 := PathStart(p, s);
    if !StartsWith(s[lead2..], p.path) then None
    else
      var start := lead2 + |p.path|;
      var run := IdRun(s[start..]);
      if run < p.idLength.n then None
      else
        var len := if p.idLength.Exactly? then p.idLength.n else run;
        IdSlice(s, start, len);
        Some(UrlMatch(s[..start + len], s[start..start + len]))
  }

  /** The first `len` characters of the id run that starts at `start` are
      id characters, and the whole run is followed by something else. */
  lemma IdSlice(s: string, start: nat, len: nat)
    requires start <= |s| && len <= IdRun(s[start..])
    ensures start + len <= |s| && AllIdChars(s[start..start + len])
    ensures len == IdRun(s[start..]) ==> start + len == |s| || !IsIdChar(s[start + len])
  {
    var t := s[start..];
    assert s[start..start + len] == t[..len] == t[..IdRun(t)][..len];
    assert start + len < |s| ==> s[start + len] == t[len];
  }

  /** The first pattern of `ps` that matches `s`, as the pair
      `(url_type, match)`, or `(None, None)`. */
  function FirstMatch(ps: seq<UrlPattern>, s: string): (r: (Option<UrlKind>, Option<UrlMatch>))
    ensures r.0.Some? <==> r.1.Some?
    ensures r.0.None? <==> forall k :: 0 <= k < |ps| ==> MatchPattern(ps[k], s).None?
    ensures r.0.Some? ==> exists k :: 0 <= k < |ps| && r == (Some(ps[k].kind), MatchPattern(ps[k], s))
                                    && forall k' :: 0 <= k' < k ==> MatchPattern(ps[k'], s).None?
  {
    if |ps| == 0 then (None, None)
    else
      match MatchPattern(ps[0], s)
      case Some(m) => (Some(ps[0].kind), Some(m))
      case None =>
        var r := FirstMatch(ps[1..], s);
        assert forall k :: 1 <= k < |ps| ==> ps[k] == ps[1..][k - 1];
        assert r.0.Some? ==> exists k :: 0 <= k < |ps| && r == (Some(ps[k].kind), MatchPattern(ps[k], s))
                                         && forall k' :: 0 <= k' < k ==> MatchPattern(ps[k'], s).None? by {
          if r.0.Some? {
            var k :| 0 <= k < |ps[1..]| && r == (Some(ps[1..][k].kind), MatchPattern(ps[1..][k], s))
                     && forall k' :: 0 <= k' < k ==> MatchPattern(ps[1..][k'], s).None?;
            assert ps[k + 1] == ps[1..][k];
          }
        }
        r
  }

  /** `classify_youtube_url(url)`. */
  function ClassifyYouTubeUrl(url: string): (r: (Option<UrlKind>, Option<UrlMatch>))
    ensures r.0.Some? <==> r.1.Some?
  {
    FirstMatch(YouTubePatterns, Strip(url))
  }

  // ---------------------------------------------------------------------
  // A reference reading of the regular expressions
  // ---------------------------------------------------------------------

  const Schemes: seq<string> := ["", "http://", "https://"]

  function WwwOptions(p: UrlPattern): seq<string>
  {
    if p.allowWww then ["", "www."] else [""]
  }

  /** What the regex matches when its optional groups are resolved to the
      text `lead`: the literal path, then the id (all of the id run for an
      open-ended `{n,}`, since the quantifier is greedy). */
  ghost predicate MatchesWithLead(p: UrlPattern, s: string, lead: string, m: UrlMatch)
  {
    var pre := lead + p.path;
    && StartsWith(s, pre + m.id)
    && m.text == pre + m.id
    && AllIdChars(m.id)
    && match p.idLength
       case Exactly(n) => |m.id| == n
       case AtLeast(n) => |m.id| >= n && (|pre + m.id| == |s| || !IsIdChar(s[|pre + m.id|]))
  }

  /** `m` is a match of pattern `p` at the start of `s` for some way of
      taking or skipping the optional scheme and `www.` groups. */
  ghost predicate RegexMatch(p: UrlPattern, s: string, m: UrlMatch)
  {
    exists i, j :: 0 <= i < |Schemes| && 0 <= j < |WwwOptions(p)|
                   && MatchesWithLead(p, s, Schemes[i] + WwwOptions(p)[j], m)
  }

  /** A text that differs from `p` at some position does not start with
      `p`. */
  lemma NotStartsWithAt(s: string, p: string, k: nat)
    requires k < |p| && k < |s| && s[k] != p[k]
    ensures !StartsWith(s, p)
  {
    if |p| <= |s| {
      assert s[..|p|][k] == s[k];
    }
  }

  /** Before a text that starts with `y` or `w`, the scheme group takes
      exactly the scheme that is there. */
  lemma SchemeLengthBefore(i: nat, x: string)
    requires i < |Schemes| && |x| > 0 && (x[0] == 'y' || x[0] == 'w')
    ensures SchemeLength(Schemes[i] + x) == |Schemes[i]|
  {
    var s := Schemes[i] + x;
    if i == 0 {
      assert s == x;
      NotStartsWithAt(s, "https://", 0);
      NotStartsWithAt(s, "http://", 0);
    } else if i == 1 {
      assert s[..7] == Schemes[1];
      assert s[4] == ':';
      NotStartsWithAt(s, "https://", 4);
    } else {
      assert s[..8] == Schemes[2];
    }
  }

  /** Before a text that starts with `y`, the `www.` group takes exactly
      the `www.` that is there. */
  lemma WwwLengthBefore(p: UrlPattern, j: nat, y: string)
    requires j < |WwwOptions(p)| && |y| > 0 && y[0] == 'y'
    ensures WwwLength(p, WwwOptions(p)[j] + y) == |WwwOptions(p)[j]|
  {
    var s := WwwOptions(p)[j] + y;
    if j == 0 {
      assert s == y;
      NotStartsWithAt(s, "www.", 0);
    } else {
      assert s[..4] == "www.";
    }
  }

  lemma Regroup(a: string, b: string, c: string, d: string)
    ensures a + b + c + d == a + (b + (c + d))
  {
  }

  /** For the paths of `YOUTUBE_PATTERNS`, which begin with `y`, at most one
      choice of the optional groups can be followed by the path. */
  lemma LeadIsDetermined(p: UrlPattern, s: string, i: nat, j: nat)
    requires |p.path| >= 1 && p.path[0] == 'y'
    requires i < |Schemes| && j < |WwwOptions(p)|
    requires StartsWith(s, Schemes[i] + WwwOptions(p)[j] + p.path)
    ensures PathStart(p, s) == |Schemes[i] + WwwOptions(p)[j]|
  {
    var sc, w := Schemes[i], WwwOptions(p)[j];
    var full := sc + w + p.path;
    var y := p.path + s[|full|..];
    assert s == full + s[|full|..] by {
      assert s == s[..|full|] + s[|full|..];
    }
    Regroup(sc, w, p.path, s[|full|..]);
    assert (w + y)[0] == 'y' || (w + y)[0] == 'w';
    SchemeLengthBefore(i, w + y);
    assert s[|sc|..] == w + y;
    WwwLengthBefore(p, j, y);
  }

  /** The text the optional groups consume is one of their alternatives. */
  lemma PathStartLead(p: UrlPattern, s: string) returns (i: nat, j: nat)
    ensures i < |Schemes| && j < |WwwOptions(p)|
    ensures s[..PathStart(p, s)] == Schemes[i] + WwwOptions(p)[j]
  {
    var a := SchemeLength(s);
    i := if a == 0 then 0 else if a == 7 then 1 else 2;
    j := if PathStart(p, s) == a then 0 else 1;
    assert s[..a] == Schemes[i];
    assert s[a..][..PathStart(p, s) - a] == WwwOptions(p)[j];
    assert s[..PathStart(p, s)] == s[..a] + s[a..][..PathStart(p, s) - a];
  }

  /** A prefix cut at two points is the concatenation of its three parts. */
  lemma PrefixInThree(s: string, a: nat, b: nat, n: nat)
    requires a <= b <= n <= |s|
    ensures s[..n] == s[..a] + s[a..b] + s[b..n]
  {
  }

  /** What `MatchPattern` returns is a match of the regular expression. */
  lemma MatchPatternIsSound(p: UrlPattern, s: string)
    requires MatchPattern(p, s).Some?
    ensures RegexMatch(p, s, MatchPattern(p, s).value)
  {
    var m := MatchPattern(p, s).value;
    var i, j := PathStartLead(p, s);
    var lead := Schemes[i] + WwwOptions(p)[j];
    var lead2 := PathStart(p, s);
    var start := lead2 + |p.path|;
    var n := start + |m.id|;
    assert s[lead2..start] == p.path by {
      assert s[lead2..start] == s[lead2..][..|p.path|];
    }
    PrefixInThree(s, lead2, start, n);
    assert m.text == lead + p.path + m.id;
    assert |lead + p.path + m.id| == n;
    assert MatchesWithLead(p, s, lead, m);
  }

  /** A prefix of id characters that cannot be extended is the id run. */
  lemma {:induction false} IdRunIsMaximalPrefix(t: string, k: nat)
    requires k <= |t| && AllIdChars(t[..k]) && (k == |t| || !IsIdChar(t[k]))
    ensures IdRun(t) == k
  {
    if k > 0 {
      assert t[0] == t[..k][0];
      assert t[1..][..k - 1] == t[..k][1..];
      IdRunIsMaximalPrefix(t[1..], k - 1);
    }
  }

  /** A prefix of `n` id characters makes the id run at least `n` long. */
  lemma {:induction false} IdRunCoversPrefix(t: string, n: nat)
    requires n <= |t| && AllIdChars(t[..n])
    ensures IdRun(t) >= n
  {
    if n > 0 {
      assert t[0] == t[..n][0];
      assert t[1..][..n - 1] == t[..n][1..];
      IdRunCoversPrefix(t[1..], n - 1);
    }
  }

  /** A match for a fixed resolution of the optional groups begins its
      path where `PathStart` says and carries the text after it. */
  lemma MatchWithLeadIsAtPathStart(p: UrlPattern, s: string, i: nat, j: nat, m: UrlMatch)
    requires |p.path| >= 1 && p.path[0] == 'y'
    requires i < |Schemes| && j < |WwwOptions(p)|
    requires MatchesWithLead(p, s, Schemes[i] + WwwOptions(p)[j], m)
    ensures var start := PathStart(p, s) + |p.path|;
      && StartsWith(s[PathStart(p, s)..], p.path)
      && start + |m.id| <= |s|
      && s[start..][..|m.id|] == m.id
      && m.text == s[..start + |m.id|]
  {
    var lead := Schemes[i] + WwwOptions(p)[j];
    var pre := lead + p.path;
    var full := pre + m.id;
    assert s[..|full|] == full;
    assert s[..|pre|] == pre by {
      assert s[..|pre|] == s[..|full|][..|pre|];
      assert full[..|pre|] == pre;
    }
    LeadIsDetermined(p, s, i, j);
    assert s[PathStart(p, s)..][..|p.path|] == pre[|lead|..];
    assert s[|pre|..][..|m.id|] == s[..|full|][|pre|..];
    assert full[|pre|..] == m.id;
  }

  /** `MatchPattern` succeeds when the path follows the optional groups and
      enough id characters follow the path. */
  lemma MatchPatternSucceeds(p: UrlPattern, s: string)
    requires StartsWith(s[PathStart(p, s)..], p.path)
    requires IdRun(s[PathStart(p, s) + |p.path|..]) >= p.idLength.n
    ensures MatchPattern(p, s).Some?
  {
  }

  /** Taking `n` characters after dropping `a` is slicing from `a` to `a + n`. */
  lemma SliceOfSuffix(s: string, a: nat, n: nat)
    requires a + n <= |s|
    ensures s[a..][..n] == s[a..a + n]
  {
  }

  /** An id that follows the path where `PathStart` puts it, with the
      length the pattern asks for, is what `MatchPattern` returns. */
  lemma MatchPatternFinds(p: UrlPattern, s: string, m: UrlMatch)
    requires StartsWith(s[PathStart(p, s)..], p.path)
    requires var start := PathStart(p, s) + |p.path|;
      && start + |m.id| <= |s|
      && s[start..][..|m.id|] == m.id
      && m.text == s[..start + |m.id|]
      && AllIdChars(m.id)
      && match p.idLength
         case Exactly(n) => |m.id| == n
         case AtLeast(n) => |m.id| >= n && (start + |m.id| == |s| || !IsIdChar(s[start + |m.id|]))
    ensures MatchPattern(p, s) == Some(m)
  {
    var start := PathStart(p, s) + |p.path|;
    var t := s[start..];
    assert t[..|m.id|] == m.id;
    IdRunCoversPrefix(t, |m.id|);
    if p.idLength.AtLeast? {
      assert |m.id| == |t| || t[|m.id|] == s[start + |m.id|];
      IdRunIsMaximalPrefix(t, |m.id|);
    }
    SliceOfSuffix(s, start, |m.id|);
  }

  /** A regex match is what `MatchPattern` returns, so there is only one. */
  lemma RegexMatchIsUnique(p: UrlPattern, s: string, m: UrlMatch)
    requires |p.path| >= 1 && p.path[0] == 'y'
    requires RegexMatch(p, s, m)
    ensures MatchPattern(p, s) == Some(m)
  {
    var i, j :| 0 <= i < |Schemes| && 0 <= j < |WwwOptions(p)|
                && MatchesWithLead(p, s, Schemes[i] + WwwOptions(p)[j], m);
    MatchWithLeadIsAtPathStart(p, s, i, j, m);
    var pre := Schemes[i] + WwwOptions(p)[j] + p.path;
    assert |pre| == PathStart(p, s) + |p.path|;
    MatchPatternFinds(p, s, m);
  }

  // ---------------------------------------------------------------------
  // Properties of the classifier
  // ---------------------------------------------------------------------

  /** Leading and trailing whitespace never changes the classification. */
  lemma ClassifyIgnoresPadding(a: string, url: string, b: string)
    requires AllSpace(a) && AllSpace(b)
    ensures ClassifyYouTubeUrl(a + url + b) == ClassifyYouTubeUrl(url)
  {
    StripIgnoresPadding(a, url, b);
  }

  /** Two literal paths that differ at position `k` cannot both begin `t`. */
  lemma PathsClash(t: string, x: string, y: string, k: nat)
    requires k < |x| && k < |y| && x[k] != y[k]
    ensures !(StartsWith(t, x) && StartsWith(t, y))
  {
  }

  /** No string carries the literal paths of two different patterns where
      each pattern expects its own. */
  lemma PathsExclusive(s: string, q1: nat, q2: nat)
    requires q1 < q2 < |YouTubePatterns|
    ensures !(StartsWith(s[PathStart(YouTubePatterns[q1], s)..], YouTubePatterns[q1].path)
              && StartsWith(s[PathStart(YouTubePatterns[q2], s)..], YouTubePatterns[q2].path))
  {
    var p1, p2 := YouTubePatterns[q1], YouTubePatterns[q2];
    var t1, t2 := s[PathStart(p1, s)..], s[PathStart(p2, s)..];
    if p1.allowWww == p2.allowWww {
      assert t1 == t2;
      PathsClash(t1, p1.path, p2.path, 12);
    } else if PathStart(p1, s) == PathStart(p2, s) {
      PathsClash(t1, p1.path, p2.path, 5);
    } else {
      var tw := if p1.allowWww then t2 else t1;
      var py := if p1.allowWww then p2 else p1;
      assert StartsWith(tw, "www.");
      PathsClash(tw, "www.", py.path, 0);
    }
  }

  /** The four patterns exclude each other: no string matches two of them. */
  lemma PatternsExclusive(s: string, q1: nat, q2: nat)
    requires q1 < q2 < |YouTubePatterns|
    ensures MatchPattern(YouTubePatterns[q1], s).None? || MatchPattern(YouTubePatterns[q2], s).None?
  {
    PathsExclusive(s, q1, q2);
  }

  /** When exactly one pattern of `ps` matches, `FirstMatch` reports it. */
  lemma {:induction false} FirstMatchOfOnlyMatch(ps: seq<UrlPattern>, s: string, k: nat)
    requires k < |ps| && MatchPattern(ps[k], s).Some?
    requires forall k' :: 0 <= k' < |ps| && k' != k ==> MatchPattern(ps[k'], s).None?
    ensures FirstMatch(ps, s) == (Some(ps[k].kind), MatchPattern(ps[k], s))
  {
    if k > 0 {
      assert MatchPattern(ps[0], s).None?;
      FirstMatchOfOnlyMatch(ps[1..], s, k - 1);
    }
  }

  /** Whichever pattern matches decides the result, so the order of
      `YOUTUBE_PATTERNS` never changes the answer. */
  lemma ClassifyByMatchingPattern(url: string, q: nat)
    requires q < |YouTubePatterns|
    requires MatchPattern(YouTubePatterns[q], Strip(url)).Some?
    ensures ClassifyYouTubeUrl(url) == (Some(YouTubePatterns[q].kind), MatchPattern(YouTubePatterns[q], Strip(url)))
  {
    var s := Strip(url);
    forall k | 0 <= k < |YouTubePatterns| && k != q ensures MatchPattern(YouTubePatterns[k], s).None? {
      if k < q { PatternsExclusive(s, k, q); } else { PatternsExclusive(s, q, k); }
    }
    FirstMatchOfOnlyMatch(YouTubePatterns, s, q);
  }

  /** Every path of `YOUTUBE_PATTERNS` begins with its host: `youtu.be`
      for the short link, `youtube.com` for the others. */
  lemma PatternHost(q: nat)
    requires q < |YouTubePatterns|
    ensures StartsWith(YouTubePatterns[q].path, if q == 2 then "youtu.be" else "youtube.com")
  {
  }

  /** A string that a pattern matches contains any prefix of the pattern's
      literal path. */
  lemma MatchNamesHost(p: UrlPattern, s: string, host: string)
    requires MatchPattern(p, s).Some? && StartsWith(p.path, host)
    ensures Contains(s, host)
  {
    var i := PathStart(p, s);
    var t := s[i..];
    assert t[..|host|] == t[..|p.path|][..|host|];
    assert s[i..i + |host|] == t[..|host|];
    ContainsAt(s, host, i);
  }

  /** Every path of `YOUTUBE_PATTERNS` starts with `y`. */
  lemma PathsStartWithY(q: nat)
    requires q < |YouTubePatterns|
    ensures |YouTubePatterns[q].path| >= 1 && YouTubePatterns[q].path[0] == 'y'
  {
  }

  /** When every matching entry of `ps` gives the same answer `x`, and some
      entry matches, `FirstMatch` gives `x`. */
  lemma {:induction false} FirstMatchOfAgreeingMatches(ps: seq<UrlPattern>, s: string, k: nat, x: (Option<UrlKind>, Option<UrlMatch>))
    requires k < |ps| && MatchPattern(ps[k], s).Some?
    requires forall k' :: 0 <= k' < |ps| && MatchPattern(ps[k'], s).Some?
                          ==> (Some(ps[k'].kind), MatchPattern(ps[k'], s)) == x
    ensures FirstMatch(ps, s) == x
  {
    if MatchPattern(ps[0], s).None? {
      assert forall k' :: 1 <= k' < |ps| ==> ps[k'] == ps[1..][k' - 1];
      FirstMatchOfAgreeingMatches(ps[1..], s, k - 1, x);
    }
  }

  /** Any sequence `ps` that lists the patterns of `YOUTUBE_PATTERNS` (entry
      `k` is pattern `order[k]`), each at least once, in any order and with
      any repetitions, classifies every URL as `classify_youtube_url` does. */
  lemma OrderDoesNotMatter(ps: seq<UrlPattern>, order: seq<nat>, url: string)
    requires |order| == |ps|
    requires forall k :: 0 <= k < |ps| ==> order[k] < |YouTubePatterns| && ps[k] == YouTubePatterns[order[k]]
    requires forall q :: 0 <= q < |YouTubePatterns| ==> q in order
    ensures FirstMatch(ps, Strip(url)) == ClassifyYouTubeUrl(url)
  {
    var s := Strip(url);
    if q :| 0 <= q < |YouTubePatterns| && MatchPattern(YouTubePatterns[q], s).Some? {
      ClassifyByMatchingPattern(url, q);
      ReorderedMatch(ps, order, s, q);
    } else {
      NoReorderedMatch(ps, order, s);
    }
  }

  /** When no pattern matches, no listing of the patterns matches. */
  lemma NoReorderedMatch(ps: seq<UrlPattern>, order: seq<nat>, s: string)
    requires |order| == |ps|
    requires forall k :: 0 <= k < |ps| ==> order[k] < |YouTubePatterns| && ps[k] == YouTubePatterns[order[k]]
    requires forall q :: 0 <= q < |YouTubePatterns| ==> MatchPattern(YouTubePatterns[q], s).None?
    ensures FirstMatch(ps, s) == (None, None) == FirstMatch(YouTubePatterns, s)
  {
    forall k | 0 <= k < |ps| ensures MatchPattern(ps[k], s).None? {
      assert ps[k] == YouTubePatterns[order[k]];
    }
  }

  lemma ReorderedMatch(ps: seq<UrlPattern>, order: seq<nat>, s: string, q: nat)
    requires |order| == |ps|
    requires forall k :: 0 <= k < |ps| ==> order[k] < |YouTubePatterns| && ps[k] == YouTubePatterns[order[k]]
    requires q < |YouTubePatterns| && q in order && MatchPattern(YouTubePatterns[q], s).Some?
    ensures FirstMatch(ps, s) == (Some(YouTubePatterns[q].kind), MatchPattern(YouTubePatterns[q], s))
  {
    var x := (Some(YouTubePatterns[q].kind), MatchPattern(YouTubePatterns[q], s));
    var k :| 0 <= k < |ps| && order[k] == q;
    forall k' | 0 <= k' < |ps| && MatchPattern(ps[k'], s).Some?
      ensures (Some(ps[k'].kind), MatchPattern(ps[k'], s)) == x
    {
      var q' := order[k'];
      if q' < q { PatternsExclusive(s, q', q); } else if q < q' { PatternsExclusive(s, q, q'); }
    }
    FirstMatchOfAgreeingMatches(ps, s, k, x);
  }

  /** A match of one of the four regular expressions on the stripped URL is
      what the classifier reports. */
  lemma ClassifyAcceptsRegexMatch(url: string, q: nat, m: UrlMatch)
    requires q < |YouTubePatterns|
    requires RegexMatch(YouTubePatterns[q], Strip(url), m)
    ensures ClassifyYouTubeUrl(url) == (Some(YouTubePatterns[q].kind), Some(m))
  {
    PathsStartWithY(q);
    RegexMatchIsUnique(YouTubePatterns[q], Strip(url), m);
    ClassifyByMatchingPattern(url, q);
  }

  /** Whatever the classifier reports is a match of the regular expression
      of a pattern of that kind. */
  lemma ClassifiedIsRegexMatch(url: string)
    requires ClassifyYouTubeUrl(url).0.Some?
    ensures exists q :: 0 <= q < |YouTubePatterns|
                        && ClassifyYouTubeUrl(url).0 == Some(YouTubePatterns[q].kind)
                        && RegexMatch(YouTubePatterns[q], Strip(url), ClassifyYouTubeUrl(url).1.value)
  {
    var s := Strip(url);
    var r := ClassifyYouTubeUrl(url);
    var k :| 0 <= k < |YouTubePatterns| && r == (Some(YouTubePatterns[k].kind), MatchPattern(YouTubePatterns[k], s));
    MatchPatternIsSound(YouTubePatterns[k], s);
  }

  // ---------------------------------------------------------------------
  // Which URLs are accepted
  // ---------------------------------------------------------------------

  /** When the path of pattern `q` follows the optional groups, no other
      pattern can match, so pattern `q` alone decides the classification. */
  lemma FirstMatchByPath(s: string, q: nat)
    requires q < |YouTubePatterns|
    requires StartsWith(s[PathStart(YouTubePatterns[q], s)..], YouTubePatterns[q].path)
    ensures FirstMatch(YouTubePatterns, s)
         == match MatchPattern(YouTubePatterns[q], s)
            case Some(m) => (Some(YouTubePatterns[q].kind), Some(m))
            case None => (None, None)
  {
    forall k | 0 <= k < |YouTubePatterns| && k != q ensures MatchPattern(YouTubePatterns[k], s).None? {
      if k < q { PathsExclusive(s, k, q); } else { PathsExclusive(s, q, k); }
    }
    if MatchPattern(YouTubePatterns[q], s).Some? {
      FirstMatchOfOnlyMatch(YouTubePatterns, s, q);
    } else {
      NoPatternMatches(s);
    }
  }

  /** When no pattern matches, the result is `(None, None)`. */
  lemma NoPatternMatches(s: string)
    requires forall q :: 0 <= q < |YouTubePatterns| ==> MatchPattern(YouTubePatterns[q], s).None?
    ensures FirstMatch(YouTubePatterns, s) == (None, None)
  {
  }

  /** After a scheme, a `www.` the pattern allows and the pattern's path,
      the id is read from the text that follows. */
  lemma ShapedPath(p: UrlPattern, s: string, i: nat, j: nat, t: string)
    requires |p.path| >= 1 && p.path[0] == 'y'
    requires i < |Schemes| && j < |WwwOptions(p)|
    requires s == Schemes[i] + WwwOptions(p)[j] + (p.path + t)
    ensures StartsWith(s[PathStart(p, s)..], p.path)
    ensures s[PathStart(p, s) + |p.path|..] == t
  {
    var lead := Schemes[i] + WwwOptions(p)[j];
    assert s == (lead + p.path) + t;
    assert StartsWith(s, lead + p.path) by {
      assert s[..|lead + p.path|] == lead + p.path;
    }
    LeadIsDetermined(p, s, i, j);
    assert s[|lead|..] == p.path + t;
    assert (p.path + t)[..|p.path|] == p.path;
    assert (p.path + t)[|p.path|..] == t;
  }

  /** What `MatchPattern` reads once the id text `t` is located. */
  lemma MatchPatternOnId(p: UrlPattern, s: string, t: string)
    requires StartsWith(s[PathStart(p, s)..], p.path)
    requires s[PathStart(p, s) + |p.path|..] == t
    ensures MatchPattern(p, s).Some? <==> IdRun(t) >= p.idLength.n
    ensures MatchPattern(p, s).Some? ==>
              MatchPattern(p, s).value.id == t[..if p.idLength.Exactly? then p.idLength.n else IdRun(t)]
  {
    var start := PathStart(p, s) + |p.path|;
    if MatchPattern(p, s).Some? {
      SliceOfSuffix(s, start, |MatchPattern(p, s).value.id|);
    }
  }

  /** A stripped URL made of a scheme, a `www.` where the pattern allows
      one, the literal path of pattern `q` and then `t` is classified as
      that pattern's kind exactly when `t` begins with enough id characters;
      the id is the first eleven of them for a fixed-length pattern and all
      of them for the playlist pattern. */
  lemma ShapedUrl(url: string, q: nat, i: nat, j: nat, t: string)
    requires q < |YouTubePatterns| && i < |Schemes| && j < |WwwOptions(YouTubePatterns[q])|
    requires Strip(url) == Schemes[i] + WwwOptions(YouTubePatterns[q])[j] + (YouTubePatterns[q].path + t)
    ensures var p := YouTubePatterns[q];
      ClassifyYouTubeUrl(url).0 == if IdRun(t) >= p.idLength.n then Some(p.kind) else None
    ensures var p := YouTubePatterns[q];
      IdRun(t) >= p.idLength.n ==>
        ClassifyYouTubeUrl(url).1.value.id == t[..if p.idLength.Exactly? then p.idLength.n else IdRun(t)]
  {
    var p := YouTubePatterns[q];
    var s := Strip(url);
    PathsStartWithY(q);
    ShapedPath(p, s, i, j, t);
    MatchPatternOnId(p, s, t);
    FirstMatchByPath(s, q);
  }

  /** `[https://|http://][www.]youtube.com/watch?v=` gives a video exactly
      when at least eleven id characters follow, and the id is the first
      eleven: a longer id is cut rather than refused, since the pattern is
      anchored at the start only. */
  lemma WatchUrl(url: string, i: nat, j: nat, t: string)
    requires i < |Schemes| && j < 2
    requires Strip(url) == Schemes[i] + ["", "www."][j] + ("youtube.com/watch?v=" + t)
    ensures ClassifyYouTubeUrl(url).0 == if IdRun(t) >= 11 then Some(Video) else None
    ensures IdRun(t) >= 11 ==> ClassifyYouTubeUrl(url).1.value.id == t[..11]
  {
    ShapedUrl(url, 0, i, j, t);
  }

  /** `youtube.com/playlist?list=` gives a playlist exactly when at least
      thirteen id characters follow, and the id is all of them. */
  lemma PlaylistUrl(url: string, i: nat, j: nat, t: string)
    requires i < |Schemes| && j < 2
    requires Strip(url) == Schemes[i] + ["", "www."][j] + ("youtube.com/playlist?list=" + t)
    ensures ClassifyYouTubeUrl(url).0 == if IdRun(t) >= 13 then Some(Playlist) else None
    ensures IdRun(t) >= 13 ==> ClassifyYouTubeUrl(url).1.value.id == t[..IdRun(t)]
  {
    ShapedUrl(url, 1, i, j, t);
  }

  /** The short-link pattern takes no `www.` and its literal path is
      `youtu.be/`. */
  lemma ShortLinkShape(lead: string, t: string)
    ensures WwwOptions(YouTubePatterns[2]) == [""]
    ensures lead + WwwOptions(YouTubePatterns[2])[0] + (YouTubePatterns[2].path + t) == lead + ("youtu.be/" + t)
  {
    assert lead + "" == lead;
  }

  /** `youtu.be/` gives a video (not a short) exactly when at least eleven
      id characters follow. */
  lemma ShortLinkUrl(url: string, i: nat, t: string)
    requires i < |Schemes|
    requires Strip(url) == Schemes[i] + ("youtu.be/" + t)
    ensures ClassifyYouTubeUrl(url).0 == if IdRun(t) >= 11 then Some(Video) else None
  {
    ShortLinkShape(Schemes[i], t);
    ShapedUrl(url, 2, i, 0, t);
  }

  /** `youtube.com/shorts/` gives a short exactly when at least eleven id
      characters follow. */
  lemma ShortsUrl(url: string, i: nat, j: nat, t: string)
    requires i < |Schemes| && j < 2
    requires Strip(url) == Schemes[i] + ["", "www."][j] + ("youtube.com/shorts/" + t)
    ensures ClassifyYouTubeUrl(url).0 == if IdRun(t) >= 11 then Some(Short) else None
  {
    ShapedUrl(url, 3, i, j, t);
  }

  /** Text that starts with neither `h`, `w` nor `y` leaves both optional
      groups empty and cannot start a path. */
  lemma NoLeadNoPath(p: UrlPattern, s: string)
    requires |p.path| >= 1 && p.path[0] == 'y'
    requires s != "" && s[0] != 'h' && s[0] != 'w' && s[0] != 'y'
    ensures MatchPattern(p, s).None?
  {
    NotStartsWithAt(s, "https://", 0);
    NotStartsWithAt(s, "http://", 0);
    assert SchemeLength(s) == 0;
    NotStartsWithAt(s, "www.", 0);
    assert s[PathStart(p, s)..] == s;
    NotStartsWithAt(s, p.path, 0);
  }

  /** Every match begins with `h` (a scheme), `w` (`www.`) or `y` (a path),
      so a URL that starts with anything else, such as `m.` or `ftp://`, is
      refused. */
  lemma OtherLeadingTextRefused(url: string)
    requires Strip(url) != "" && Strip(url)[0] != 'h' && Strip(url)[0] != 'w' && Strip(url)[0] != 'y'
    ensures ClassifyYouTubeUrl(url) == (None, None)
  {
    var s := Strip(url);
    forall q | 0 <= q < |YouTubePatterns| ensures MatchPattern(YouTubePatterns[q], s).None? {
      PathsStartWithY(q);
      NoLeadNoPath(YouTubePatterns[q], s);
    }
    NoPatternMatches(s);
  }

  /** Where the path has to begin after a scheme and `www.`. */
  lemma PathStartAfterWww(p: UrlPattern, s: string, i: nat, y: string)
    requires i < |Schemes| && |y| > 0 && y[0] == 'y'
    requires s == Schemes[i] + ("www." + y)
    ensures s[PathStart(p, s)..] == if p.allowWww then y else "www." + y
  {
    SchemeLengthBefore(i, "www." + y);
    assert s[|Schemes[i]|..] == "www." + y;
    assert ("www." + y)[..4] == "www.";
    assert ("www." + y)[4..] == y;
  }

  /** The patterns that allow `www.` are all on `youtube.com`. */
  lemma WwwPathsAreYoutubeCom(q: nat)
    requires q < |YouTubePatterns| && YouTubePatterns[q].allowWww
    ensures |YouTubePatterns[q].path| > 5 && YouTubePatterns[q].path[5] == 'b'
  {
  }

  /** A `youtu.be/` link behind `www.` is refused by a pattern whose path
      starts with `y` and, when it allows `www.`, names `youtube.com`. */
  lemma WwwShortLinkNoMatch(p: UrlPattern, s: string, i: nat, t: string)
    requires |p.path| > 0 && p.path[0] == 'y'
    requires p.allowWww ==> |p.path| > 5 && p.path[5] == 'b'
    requires i < |Schemes| && s == Schemes[i] + ("www." + ("youtu.be/" + t))
    ensures MatchPattern(p, s).None?
  {
    var y := "youtu.be/" + t;
    assert y[0] == 'y' && y[5] == '.';
    PathStartAfterWww(p, s, i, y);
    if p.allowWww {
      NotStartsWithAt(y, p.path, 5);
    } else {
      NotStartsWithAt("www." + y, p.path, 0);
    }
  }

  /** `youtu.be/` does not take `www.`: with it, no pattern matches. */
  lemma ShortLinkRefusesWww(url: string, i: nat, t: string)
    requires i < |Schemes|
    requires Strip(url) == Schemes[i] + ("www." + ("youtu.be/" + t))
    ensures ClassifyYouTubeUrl(url) == (None, None)
  {
    var s := Strip(url);
    forall q | 0 <= q < |YouTubePatterns| ensures MatchPattern(YouTubePatterns[q], s).None? {
      PathsStartWithY(q);
      if YouTubePatterns[q].allowWww {
        WwwPathsAreYoutubeCom(q);
      }
      WwwShortLinkNoMatch(YouTubePatterns[q], s, i, t);
    }
    NoPatternMatches(s);
  }
}
