/**
 * How the worker reads yt-dlp's output: each line is stripped and folded
 * into the session state (title, item index and total, success and failure
 * counters, the failure records, the file being written and the targets a
 * stop has to clean up). `Step` is one line, `Run` a whole stream.
 */
module DownloadOutput {
  import opened Wrappers
  import opened Text
  import opened Paths
  import opened Utils
  import opened Window

  const TitleTag := "[TITLE]"
  const ItemMarker := "[download] Downloading item"
  const VideoMarker := "[download] Downloading video"
  const DestinationMarker := "[download] Destination:"
  const DeletingMarker := "Deleting original file"
  const ErrorMarker := "ERROR:"

  /** An `ERROR:` line counts as a failed video only when it contains one of
      these. */
  const UnavailableKeywords: seq<string> := [
    "Video unavailable",
    "This video has been",
    "Private video",
    "This video is no longer available",
    "removed by the uploader",
    "account associated with this video has been terminated",
    "Video is not available",
    "Members-only",
    "Join this channel to get access",
    "This live stream recording is not available"
  ]

  /** One entry of `failed_videos`. */
  datatype FailedVideo = FailedVideo(line: string, videoContext: string)

  /** The loop's local variables together with the window fields it updates. */
  datatype Session = Session(
    title: string,
    index: nat,
    total: nat,
    successes: nat,
    failures: nat,
    failed: seq<FailedVideo>,
    currentFile: Option<string>,
    currentOriginal: Option<string>,
    targets: set<string>)

  /** The state before the first line: the counters at zero and the window
      fields as they are. */
  function Begin(currentFile: Option<string>, currentOriginal: Option<string>, targets: set<string>): Session
  {
    Session("", 0, 0, 0, 0, [], currentFile, currentOriginal, targets)
  }

  // ---------------------------------------------------------------------
  // re.search(r'Downloading (?:item|video) (\d+) of (\d+)', line)
  // ---------------------------------------------------------------------

  /** Length of the run of digits that starts `s`. */
  function DigitRun(s: string): (r: nat)
    ensures r <= |s| && forall i :: 0 <= i < r ==> IsDigit(s[i])
    ensures r == |s| || !IsDigit(s[r])
  {
    if |s| == 0 || !IsDigit(s[0]) then 0
    else 1 + DigitRun(s[1..])
  }

  lemma {:induction false} DigitRunOfDigits(d: string, rest: string)
    requires AllDigits(d) && (rest == [] || !IsDigit(rest[0]))
    ensures DigitRun(d + rest) == |d|
    ensures (d + rest)[..|d|] == d && (d + rest)[|d|..] == rest
  {
    if |d| > 0 {
      assert (d + rest)[1..] == d[1..] + rest;
      DigitRunOfDigits(d[1..], rest);
    } else {
      assert d + rest == rest;
    }
  }

  /** Where the numbers start after `Downloading item ` or
      `Downloading video ` at the start of `t`; 0 when neither is there. */
  function ItemWordEnd(t: string): nat
  {
    if StartsWith(t, "Downloading item ") then 17
    else if StartsWith(t, "Downloading video ") then 18
    else 0
  }

  /** `(\d+) of (\d+)` at the start of `u`. Both digit groups are greedy
      and followed by a non-digit or the end, so at most one reading
      exists. */
  function NumbersAt(u: string): Option<(nat, nat)>
  {
    var d1 := DigitRun(u);
    if d1 == 0 || !StartsWith(u[d1..], " of ") then None
    else
      var v := u[d1 + 4..];
      var d2 := DigitRun(v);
      if d2 == 0 then None
      else Some((DigitsValue(u[..d1]), DigitsValue(v[..d2])))
  }

  /** The numbers of `Downloading item X of Y` (or `video`) at the start of
      `t`. */
  function ItemOfAt(t: string): Option<(nat, nat)>
  {
    var k := ItemWordEnd(t);
    if k == 0 then None else NumbersAt(t[k..])
  }

  /** A leftmost match in `t[1..]` is the leftmost match in `t` when none
      starts at the first character. */
  lemma ItemSearchShift(t: string, r: Option<(nat, nat)>)
    requires |t| > 0 && ItemOfAt(t).None?
    requires exists i :: 0 <= i < |t[1..]| && ItemOfAt(t[1..][i..]) == r
                         && forall j :: 0 <= j < i ==> ItemOfAt(t[1..][j..]).None?
    ensures exists i :: 0 <= i < |t| && ItemOfAt(t[i..]) == r
                        && forall j :: 0 <= j < i ==> ItemOfAt(t[j..]).None?
  {
    var i :| 0 <= i < |t[1..]| && ItemOfAt(t[1..][i..]) == r
             && forall j :: 0 <= j < i ==> ItemOfAt(t[1..][j..]).None?;
    assert t[i + 1..] == t[1..][i..];
    forall j | 0 <= j < i + 1
      ensures ItemOfAt(t[j..]).None?
    {
      if j == 0 {
        assert t[0..] == t;
      } else {
        assert t[j..] == t[1..][j - 1..];
      }
    }
  }

  /** The leftmost match in `t`. */
  function SearchItemOf(t: string): (r: Option<(nat, nat)>)
    ensures r.Some? ==> exists i :: 0 <= i < |t| && ItemOfAt(t[i..]) == r
                                    && forall j :: 0 <= j < i ==> ItemOfAt(t[j..]).None?
    ensures r.None? <==> forall i :: 0 <= i < |t| ==> ItemOfAt(t[i..]).None?
  {
    if |t| == 0 then None
    else if ItemOfAt(t).Some? then
      assert t[0..] == t;
      ItemOfAt(t)
    else
      var r := SearchItemOf(t[1..]);
      assert forall i :: 1 <= i < |t| ==> t[i..] == t[1..][i - 1..];
      assert t[0..] == t;
      if r.Some? then ItemSearchShift(t, r); r else r
  }

  function ItemWord(isItem: bool): string
  {
    if isItem then "Downloading item " else "Downloading video "
  }

  lemma ItemWordIsRecognised(isItem: bool, rest: string)
    ensures ItemWordEnd(ItemWord(isItem) + rest) == |ItemWord(isItem)|
  {
    var word := ItemWord(isItem);
    var t := word + rest;
    assert t[..|word|] == word;
    if !isItem {
      assert t[12] == 'v';
    }
  }

  /** Two digit runs separated by ` of ` read back as their values. */
  lemma NumbersOfDigits(dx: string, dy: string, post: string)
    requires |dx| >= 1 && AllDigits(dx) && |dy| >= 1 && AllDigits(dy)
    requires post == [] || !IsDigit(post[0])
    ensures NumbersAt(dx + (" of " + (dy + post))) == Some((DigitsValue(dx), DigitsValue(dy)))
  {
    var tail := " of " + (dy + post);
    DigitRunOfDigits(dx, tail);
    assert tail[..4] == " of ";
    assert tail[4..] == dy + post;
    DigitRunOfDigits(dy, post);
  }

  /** The text yt-dlp prints for item `x` of `y`, after `[download] `. */
  function ItemText(isItem: bool, x: nat, y: nat, post: string): string
  {
    ItemWord(isItem) + (NatToString(x) + (" of " + (NatToString(y) + post)))
  }

  /** `Downloading item X of Y` reads back as `(X, Y)`. */
  lemma ItemOfRoundTrip(isItem: bool, x: nat, y: nat, post: string)
    requires post == [] || !IsDigit(post[0])
    ensures ItemOfAt(ItemText(isItem, x, y, post)) == Some((x, y))
  {
    var word := ItemWord(isItem);
    var dx, dy := NatToString(x), NatToString(y);
    var rest := dx + (" of " + (dy + post));
    ItemWordIsRecognised(isItem, rest);
    assert (word + rest)[|word|..] == rest;
    NumbersOfDigits(dx, dy, post);
    NatToStringRoundTrip(x);
    NatToStringRoundTrip(y);
  }

  /** No match can begin at a character other than `D`, so text without a
      `D` in front of a line does not change what the search finds. */
  lemma {:induction false} SearchSkipsPrefix(pre: string, t: string)
    requires 'D' !in pre
    ensures SearchItemOf(pre + t) == SearchItemOf(t)
  {
    if |pre| > 0 {
      var s := pre + t;
      assert s[0] == pre[0];
      assert !StartsWith(s, "Downloading item ") && !StartsWith(s, "Downloading video ") by {
        assert s[0] != 'D';
      }
      assert s[1..] == pre[1..] + t;
      SearchSkipsPrefix(pre[1..], t);
    } else {
      assert pre + t == t;
    }
  }

  /** A match at the very start is the one the search reports. */
  lemma SearchFindsAtStart(t: string)
    requires ItemOfAt(t).Some?
    ensures SearchItemOf(t) == ItemOfAt(t)
  {
  }

  /** The `[download] ` tag in front of a line is skipped by the search. */
  lemma DownloadTagSkipped(t: string)
    ensures SearchItemOf("[download] " + t) == SearchItemOf(t)
  {
    SearchSkipsPrefix("[download] ", t);
  }

  /** The search finds the numbers of a progress text. */
  lemma SearchFindsItemText(isItem: bool, x: nat, y: nat, post: string)
    requires post == [] || !IsDigit(post[0])
    ensures SearchItemOf(ItemText(isItem, x, y, post)) == Some((x, y))
  {
    ItemOfRoundTrip(isItem, x, y, post);
    SearchFindsAtStart(ItemText(isItem, x, y, post));
  }

  /** The progress line `[download] Downloading item X of Y` is read as
      item `X` of `Y`. */
  lemma ItemLineIsRead(isItem: bool, x: nat, y: nat, post: string)
    requires post == [] || !IsDigit(post[0])
    ensures SearchItemOf("[download] " + ItemText(isItem, x, y, post)) == Some((x, y))
  {
    SearchFindsItemText(isItem, x, y, post);
    DownloadTagSkipped(ItemText(isItem, x, y, post));
  }

  // ---------------------------------------------------------------------
  // re.search(r'\[youtube\]\s+([A-Za-z0-9_-]+):', line)
  // ---------------------------------------------------------------------

  /** `\s+([A-Za-z0-9_-]+):` at the start of `u`. The whitespace and id
      runs are disjoint from each other and from `:`, so backtracking cannot
      give another reading. */
  function SpacedIdAt(u: string): Option<string>
  {
    var v := LStrip(u);
    if |v| == |u| then None
    else
      var k := IdRun(v);
      if k == 0 || k == |v| || v[k] != ':' then None else Some(v[..k])
  }

  /** The id of `[youtube]`, whitespace, an id and a colon at the start of
      `t`. */
  function YouTubeIdAt(t: string): Option<string>
  {
    if !StartsWith(t, "[youtube]") then None else SpacedIdAt(t[9..])
  }

  /** A leftmost match in `t[1..]` is the leftmost match in `t` when none
      starts at the first character. */
  lemma YouTubeIdSearchShift(t: string, r: Option<string>)
    requires |t| > 0 && YouTubeIdAt(t).None?
    requires exists i :: 0 <= i < |t[1..]| && YouTubeIdAt(t[1..][i..]) == r
                         && forall j :: 0 <= j < i ==> YouTubeIdAt(t[1..][j..]).None?
    ensures exists i :: 0 <= i < |t| && YouTubeIdAt(t[i..]) == r
                        && forall j :: 0 <= j < i ==> YouTubeIdAt(t[j..]).None?
  {
    var i :| 0 <= i < |t[1..]| && YouTubeIdAt(t[1..][i..]) == r
             && forall j :: 0 <= j < i ==> YouTubeIdAt(t[1..][j..]).None?;
    assert t[i + 1..] == t[1..][i..];
    forall j | 0 <= j < i + 1
      ensures YouTubeIdAt(t[j..]).None?
    {
      if j == 0 {
        assert t[0..] == t;
      } else {
        assert t[j..] == t[1..][j - 1..];
      }
    }
  }

  /** The leftmost match in `t`. */
  function SearchYouTubeId(t: string): (r: Option<string>)
    ensures r.Some? ==> exists i :: 0 <= i < |t| && YouTubeIdAt(t[i..]) == r
                                    && forall j :: 0 <= j < i ==> YouTubeIdAt(t[j..]).None?
    ensures r.None? <==> forall i :: 0 <= i < |t| ==> YouTubeIdAt(t[i..]).None?
  {
    if |t| == 0 then None
    else if YouTubeIdAt(t).Some? then
      assert t[0..] == t;
      YouTubeIdAt(t)
    else
      var r := SearchYouTubeId(t[1..]);
      assert forall i :: 1 <= i < |t| ==> t[i..] == t[1..][i - 1..];
      assert t[0..] == t;
      if r.Some? then YouTubeIdSearchShift(t, r); r else r
  }

  /** Whitespace, an id and a colon read back as the id. */
  lemma SpacedIdRoundTrip(ws: string, id: string, post: string)
    requires |ws| >= 1 && AllSpace(ws)
    requires |id| >= 1 && AllIdChars(id)
    ensures SpacedIdAt(ws + (id + (":" + post))) == Some(id)
  {
    var rest := id + (":" + post);
    LStripSkipsSpace(ws, rest);
    assert rest[0] == id[0];
    assert LStrip(rest) == rest;
    assert rest[..|id|] == id;
    IdRunIsMaximalPrefix(rest, |id|);
  }

  /** `[youtube] <id>:` reads back as `<id>`. */
  lemma YouTubeIdRoundTrip(ws: string, id: string, post: string)
    requires |ws| >= 1 && AllSpace(ws)
    requires |id| >= 1 && AllIdChars(id)
    ensures YouTubeIdAt("[youtube]" + (ws + (id + (":" + post)))) == Some(id)
  {
    var u := ws + (id + (":" + post));
    SpacedIdRoundTrip(ws, id, post);
    assert ("[youtube]" + u)[..9] == "[youtube]";
    assert ("[youtube]" + u)[9..] == u;
  }

  // ---------------------------------------------------------------------
  // The phases of one line
  // ---------------------------------------------------------------------

  /** Some unavailable-content keyword occurs in the line. */
  predicate HasKeyword(line: string)
  {
    exists k :: 0 <= k < |UnavailableKeywords| && Contains(line, UnavailableKeywords[k])
  }

  /** The `video_context` of a failure: the current title, else the title
      the playlist metadata gives for the `[youtube] <id>:` id, else
      `ID: <id>`, else `Unknown`. */
  function ErrorContext(title: string, line: string, info: map<string, string>): (r: string)
    ensures title != "" ==> r == title
    ensures title == "" && SearchYouTubeId(line).None? ==> r == "Unknown"
    ensures title == "" && SearchYouTubeId(line).Some? ==>
              var id := SearchYouTubeId(line).value;
              r == if id in info then info[id] else "ID: " + id
  {
    if title != "" then title
    else match SearchYouTubeId(line)
      case Some(id) => if id in info then info[id] else "ID: " + id
      case None => "Unknown"
  }

  /** A line with one of the two progress markers whose numbers the search
      finds sets the index and total, and names an untitled video after its
      index; every other line changes nothing. */
  function OnItem(s: Session, line: string): (r: Session)
    ensures r.successes == s.successes && r.failures == s.failures && r.failed == s.failed
    ensures r.currentFile == s.currentFile && r.currentOriginal == s.currentOriginal
    ensures r.targets == s.targets
    ensures s.title != "" ==> r.title == s.title
    ensures !(Contains(line, ItemMarker) || Contains(line, VideoMarker)) || SearchItemOf(line).None? ==> r == s
    ensures (Contains(line, ItemMarker) || Contains(line, VideoMarker)) && SearchItemOf(line).Some? ==>
              var (x, y) := SearchItemOf(line).value;
              && r.index == x && r.total == y
              && r.title == (if s.title == "" then "Video #" + NatToString(x) else s.title)
  {
    if Contains(line, ItemMarker) || Contains(line, VideoMarker) then
      match SearchItemOf(line)
      case Some((x, y)) =>
        s.(index := x, total := y, title := if s.title == "" then "Video #" + NatToString(x) else s.title)
      case None => s
    else s
  }

  /** The path named by a `[download] Destination:` line. */
  function DestinationPath(line: string): string
    requires Contains(line, DestinationMarker)
  {
    Strip(SecondField(line, DestinationMarker))
  }

  /** A destination line records the path as the current file and original, adds it to the targets and takes the file name
      without its extension as the title. */
  function OnDestination(s: Session, line: string): (r: Session)
    ensures !Contains(line, DestinationMarker) ==> r == s
    ensures Contains(line, DestinationMarker) ==>
              var path := DestinationPath(line);
              && r.currentFile == Some(path) && r.currentOriginal == Some(path)
              && r.targets == s.targets + {path}
              && r.title + Splitext(Basename(path)).1 == Basename(path)
              && r.index == s.index && r.total == s.total
              && r.successes == s.successes && r.failures == s.failures && r.failed == s.failed
  {
    if Contains(line, DestinationMarker) then
      var path := DestinationPath(line);
      s.(currentFile := Some(path), currentOriginal := Some(path), targets := s.targets + {path},
         title := Splitext(Basename(path)).0)
    else s
  }

  /** The post-processor deleting the original marks one more success,
      drops the current original from the targets and forgets the current
      file. */
  function OnDeleting(s: Session, line: string): (r: Session)
    ensures !Contains(line, DeletingMarker) ==> r == s
    ensures Contains(line, DeletingMarker) ==>
              && r.successes == s.successes + 1
              && r.targets == DiscardOriginal(s.targets, s.currentOriginal)
              && r.targets <= s.targets
              && (Truthy(s.currentOriginal) ==> s.currentOriginal.value !in r.targets)
              && r.currentFile == None && r.currentOriginal == None && r.title == ""
              && r.index == s.index && r.total == s.total
              && r.failures == s.failures && r.failed == s.failed
  {
    if Contains(line, DeletingMarker) then
      s.(successes := s.successes + 1, targets := DiscardOriginal(s.targets, s.currentOriginal),
         currentFile := None, currentOriginal := None, title := "")
    else s
  }

  /** An `ERROR:` line with an unavailable-content keyword records a
      failure, drops the current original from the targets and forgets the current file; any other line,
      including an `ERROR:` line without a keyword, changes nothing. */
  function OnError(s: Session, line: string, info: map<string, string>): (r: Session)
    ensures !(Contains(line, ErrorMarker) && HasKeyword(line)) ==> r == s
    ensures Contains(line, ErrorMarker) && HasKeyword(line) ==>
              && r.failures == s.failures + 1
              && r.failed == s.failed + [FailedVideo(line, ErrorContext(s.title, line, info))]
              && r.targets == DiscardOriginal(s.targets, s.currentOriginal)
              && r.targets <= s.targets
              && (Truthy(s.currentOriginal) ==> s.currentOriginal.value !in r.targets)
              && r.currentFile == None && r.currentOriginal == None && r.title == ""
              && r.index == s.index && r.total == s.total
              && r.successes == s.successes
  {
    if Contains(line, ErrorMarker) && HasKeyword(line) then
      s.(failures := s.failures + 1,
         failed := s.failed + [FailedVideo(line, ErrorContext(s.title, line, info))],
         targets := DiscardOriginal(s.targets, s.currentOriginal),
         currentFile := None, currentOriginal := None, title := "")
    else s
  }

  /** The line as the loop sees it, and whether it reaches the phases. */
  predicate IsProcessed(raw: string)
  {
    var line := Strip(raw);
    line != "" && !StartsWith(line, TitleTag)
  }

  /** One turn of `for line in process.stdout`. */
  function Step(s: Session, raw: string, info: map<string, string>): Session
  {
    var line := Strip(raw);
    if line == "" then s
    else if StartsWith(line, TitleTag) then s.(title := line[|TitleTag|..])
    else OnError(OnDeleting(OnDestination(OnItem(s, line), line), line), line, info)
  }

  /** The whole loop over the lines read so far. */
  function Run(s: Session, lines: seq<string>, info: map<string, string>): Session
  {
    if lines == [] then s
    else Step(Run(s, lines[..|lines| - 1], info), lines[|lines| - 1], info)
  }

  // ---------------------------------------------------------------------
  // What one line does
  // ---------------------------------------------------------------------

  /** An `ERROR:` line that is recorded as a failed video. */
  predicate IsFailureLine(line: string)
  {
    Contains(line, ErrorMarker) && HasKeyword(line)
  }

  /** The stripped line reaches the phases and contains `marker`. */
  predicate ProcessedWith(raw: string, marker: string)
  {
    IsProcessed(raw) && Contains(Strip(raw), marker)
  }

  /** A line that is blank once stripped is skipped. */
  lemma StepBlank(s: Session, raw: string, info: map<string, string>)
    requires AllSpace(raw)
    ensures Step(s, raw, info) == s
  {
    LStripEmptyIffAllSpace(raw);
  }

  /** A `[TITLE]` line sets the title to the text after the tag and
      changes nothing else. */
  lemma StepTitleLine(s: Session, t: string, info: map<string, string>)
    requires t == [] || !IsSpace(t[|t| - 1])
    ensures Step(s, TitleTag + t, info) == s.(title := t)
  {
    var line := TitleTag + t;
    assert line[0] == '[';
    assert !IsSpace(line[|line| - 1]);
    assert LStrip(line) == line;
    assert RStrip(line) == line;
    assert line[..|TitleTag|] == TitleTag;
    assert line[|TitleTag|..] == t;
  }

  /** A progress line carries one of the two markers the loop looks for. */
  lemma ItemLineHasMarker(isItem: bool, rest: string)
    ensures Contains("[download] " + (ItemWord(isItem) + rest), if isItem then ItemMarker else VideoMarker)
  {
    var word := if isItem then "Downloading item" else "Downloading video";
    var marker := "[download] " + word;
    assert ItemWord(isItem) == word + " " && marker == if isItem then ItemMarker else VideoMarker;
    MarkerStartsLine(word, rest);
    StartsWithContains("[download] " + (ItemWord(isItem) + rest), marker);
  }

  /** The line `[download] <word> <rest>` begins with `[download] <word>`. */
  lemma MarkerStartsLine(word: string, rest: string)
    ensures StartsWith("[download] " + ((word + " ") + rest), "[download] " + word)
  {
    var marker := "[download] " + word;
    assert "[download] " + ((word + " ") + rest) == marker + (" " + rest);
    assert (marker + (" " + rest))[..|marker|] == marker;
  }

  /** A progress line `[download] Downloading item X of Y` sets the index
      and the total, and names a still untitled video `Video #X`. */
  lemma ItemLineSetsPosition(s: Session, isItem: bool, x: nat, y: nat, post: string)
    requires post == [] || !IsDigit(post[0])
    ensures var r := OnItem(s, "[download] " + ItemText(isItem, x, y, post));
      && r.index == x && r.total == y
      && r.title == (if s.title == "" then "Video #" + NatToString(x) else s.title)
  {
    ItemLineIsRead(isItem, x, y, post);
    ItemLineHasMarker(isItem, NatToString(x) + (" of " + (NatToString(y) + post)));
  }

  /** The failure records' lines, in order. */
  function LinesOf(failed: seq<FailedVideo>): (r: seq<string>)
    ensures |r| == |failed| && forall k :: 0 <= k < |r| ==> r[k] == failed[k].line
  {
    if failed == [] then [] else LinesOf(failed[..|failed| - 1]) + [failed[|failed| - 1].line]
  }

  /** What one line adds to the success count. */
  function SuccessOf(raw: string): nat
  {
    if ProcessedWith(raw, DeletingMarker) then 1 else 0
  }

  /** What one line adds to the failure records' lines. */
  function FailureOf(raw: string): seq<string>
  {
    if IsProcessed(raw) && IsFailureLine(Strip(raw)) then [Strip(raw)] else []
  }

  lemma LinesOfAppend(failed: seq<FailedVideo>, v: FailedVideo)
    ensures LinesOf(failed + [v]) == LinesOf(failed) + [v.line]
  {
    assert (failed + [v])[..|failed|] == failed;
  }

  /** The phases of a processed line, seen from the counters. */
  lemma PhasesCounters(s: Session, line: string, info: map<string, string>)
    ensures var r := OnError(OnDeleting(OnDestination(OnItem(s, line), line), line), line, info);
      && r.successes == s.successes + (if Contains(line, DeletingMarker) then 1 else 0)
      && r.failures == s.failures + (if IsFailureLine(line) then 1 else 0)
      && r.failed[..|s.failed|] == s.failed
      && LinesOf(r.failed) == LinesOf(s.failed) + (if IsFailureLine(line) then [line] else [])
  {
    var c := OnDeleting(OnDestination(OnItem(s, line), line), line);
    assert c.failed == s.failed;
    if IsFailureLine(line) {
      var v := FailedVideo(line, ErrorContext(c.title, line, info));
      assert OnError(c, line, info).failed == s.failed + [v];
      LinesOfAppend(s.failed, v);
    } else {
      assert OnError(c, line, info) == c;
    }
  }

  /** A line that does not reach the phases can change the title only. */
  lemma StepSkipped(s: Session, raw: string, info: map<string, string>)
    requires !IsProcessed(raw)
    ensures Step(s, raw, info) == s.(title := Step(s, raw, info).title)
    ensures SuccessOf(raw) == 0 && FailureOf(raw) == []
  {
  }

  /** A line that reaches the phases goes through all four in order. */
  lemma StepProcessed(s: Session, raw: string, info: map<string, string>)
    requires IsProcessed(raw)
    ensures var line := Strip(raw);
      Step(s, raw, info) == OnError(OnDeleting(OnDestination(OnItem(s, line), line), line), line, info)
  {
  }

  /** The effect of one line on the counters and the failure records. */
  lemma StepCounters(s: Session, raw: string, info: map<string, string>)
    ensures var r := Step(s, raw, info);
      && r.successes == s.successes + SuccessOf(raw)
      && r.failures == s.failures + |FailureOf(raw)|
      && |r.failed| == |s.failed| + |FailureOf(raw)|
      && r.failed[..|s.failed|] == s.failed
      && LinesOf(r.failed) == LinesOf(s.failed) + FailureOf(raw)
  {
    if IsProcessed(raw) {
      StepProcessed(s, raw, info);
      PhasesCounters(s, Strip(raw), info);
    } else {
      StepSkipped(s, raw, info);
      assert s.failed[..|s.failed|] == s.failed;
      assert LinesOf(s.failed) + [] == LinesOf(s.failed);
    }
  }

  /** Only a destination line can add a target, and only its own path. */
  lemma StepTargets(s: Session, raw: string, info: map<string, string>)
    ensures var r := Step(s, raw, info);
      && (!ProcessedWith(raw, DestinationMarker) ==> r.targets <= s.targets)
      && (ProcessedWith(raw, DestinationMarker) ==> r.targets <= s.targets + {DestinationPath(Strip(raw))})
  {
    if IsProcessed(raw) {
      StepProcessed(s, raw, info);
    } else {
      StepSkipped(s, raw, info);
    }
  }


  // ---------------------------------------------------------------------
  // What a stream of lines does
  // ---------------------------------------------------------------------

  /** The number of processed lines that mention the deleted original. */
  function SuccessCount(lines: seq<string>): (r: nat)
    ensures r <= |lines|
  {
    if lines == [] then 0 else SuccessCount(lines[..|lines| - 1]) + SuccessOf(lines[|lines| - 1])
  }

  /** The stripped processed lines that record a failed video, in order. */
  function FailureLines(lines: seq<string>): (r: seq<string>)
    ensures |r| <= |lines|
    ensures forall k :: 0 <= k < |r| ==> IsFailureLine(r[k])
  {
    if lines == [] then []
    else FailureLines(lines[..|lines| - 1]) + FailureOf(lines[|lines| - 1])
  }

  /** The paths named by the processed destination lines. */
  function DestinationPaths(lines: seq<string>): (r: set<string>)
    ensures forall p :: p in r ==> exists k :: 0 <= k < |lines| && ProcessedWith(lines[k], DestinationMarker)
                                                && p == DestinationPath(Strip(lines[k]))
  {
    if lines == [] then {}
    else
      var init := lines[..|lines| - 1];
      var last := lines[|lines| - 1];
      var r := DestinationPaths(init) + if ProcessedWith(last, DestinationMarker) then {DestinationPath(Strip(last))} else {};
      assert forall k :: 0 <= k < |init| ==> init[k] == lines[k];
      r
  }

  /** `Run` on a non-empty stream is `Step` on the result for all but its
      last line. */
  lemma RunLast(s: Session, lines: seq<string>, info: map<string, string>)
    requires lines != []
    ensures Run(s, lines, info) == Step(Run(s, lines[..|lines| - 1], info), lines[|lines| - 1], info)
  {
  }

  /** Reading one more line of a stream is one more `Step`. */
  lemma RunNext(s: Session, lines: seq<string>, i: nat, info: map<string, string>)
    requires i < |lines|
    ensures Run(s, lines[..i + 1], info) == Step(Run(s, lines[..i], info), lines[i], info)
  {
    assert lines[..i + 1][..i] == lines[..i];
    RunLast(s, lines[..i + 1], info);
  }

  /** The success counter counts the deleted originals and the failure
      counter the failure lines. */
  lemma {:induction false} RunCounters(s: Session, lines: seq<string>, info: map<string, string>)
    ensures var r := Run(s, lines, info);
      && r.successes == s.successes + SuccessCount(lines)
      && r.failures == s.failures + |FailureLines(lines)|
      && |r.failed| == |s.failed| + |FailureLines(lines)|
  {
    if lines != [] {
      var init, last := lines[..|lines| - 1], lines[|lines| - 1];
      RunLast(s, lines, info);
      RunCounters(s, init, info);
      StepCounters(Run(s, init, info), last, info);
    }
  }

  /** Failure records are only ever appended. */
  lemma {:induction false} RunKeepsRecords(s: Session, lines: seq<string>, info: map<string, string>)
    ensures var r := Run(s, lines, info);
      |s.failed| <= |r.failed| && r.failed[..|s.failed|] == s.failed
  {
    if lines != [] {
      var init, last := lines[..|lines| - 1], lines[|lines| - 1];
      var before := Run(s, init, info);
      var r := Run(s, lines, info);
      RunLast(s, lines, info);
      RunKeepsRecords(s, init, info);
      StepCounters(before, last, info);
      PrefixOfPrefix(r.failed, before.failed, s.failed);
    } else {
      assert s.failed[..|s.failed|] == s.failed;
    }
  }

  /** A prefix of a prefix is a prefix. */
  lemma PrefixOfPrefix(a: seq<FailedVideo>, b: seq<FailedVideo>, c: seq<FailedVideo>)
    requires |c| <= |b| <= |a| && a[..|b|] == b && b[..|c|] == c
    ensures a[..|c|] == c
  {
    assert a[..|c|] == a[..|b|][..|c|];
  }

  lemma AppendAssoc(a: seq<string>, b: seq<string>, c: seq<string>)
    ensures a + b + c == a + (b + c)
  {
  }

  /** The last line of a stream adds its own failure line, if any. */
  lemma RunRecordLinesLast(s: Session, lines: seq<string>, info: map<string, string>)
    requires lines != []
    ensures LinesOf(Run(s, lines, info).failed)
         == LinesOf(Run(s, lines[..|lines| - 1], info).failed) + FailureOf(lines[|lines| - 1])
  {
    RunLast(s, lines, info);
    StepCounters(Run(s, lines[..|lines| - 1], info), lines[|lines| - 1], info);
  }

  /** The failure records added by a stream hold its failure lines, in
      order. */
  lemma {:induction false} RunRecordLines(s: Session, lines: seq<string>, info: map<string, string>)
    ensures LinesOf(Run(s, lines, info).failed) == LinesOf(s.failed) + FailureLines(lines)
  {
    if lines != [] {
      var init, last := lines[..|lines| - 1], lines[|lines| - 1];
      RunRecordLinesLast(s, lines, info);
      RunRecordLines(s, init, info);
      assert FailureLines(lines) == FailureLines(init) + FailureOf(last);
      AppendAssoc(LinesOf(s.failed), FailureLines(init), FailureOf(last));
    } else {
      assert LinesOf(s.failed) + [] == LinesOf(s.failed);
    }
  }

  /** The counters never decrease, and the failure counter stays equal to
      the number of failure records. */
  lemma RunKeepsFailureCount(s: Session, lines: seq<string>, info: map<string, string>)
    requires s.failures == |s.failed|
    ensures var r := Run(s, lines, info);
      r.failures == |r.failed| && r.successes >= s.successes && r.failures >= s.failures
  {
    RunCounters(s, lines, info);
  }

  /** Targets are added only by destination lines, and only their paths. */
  lemma {:induction false} RunTargets(s: Session, lines: seq<string>, info: map<string, string>)
    ensures Run(s, lines, info).targets <= s.targets + DestinationPaths(lines)
  {
    if lines != [] {
      var init := lines[..|lines| - 1];
      RunLast(s, lines, info);
      RunTargets(s, init, info);
      StepTargets(Run(s, init, info), lines[|lines| - 1], info);
    }
  }
}
