/**
 * The pieces of Python's `str` behaviour the downloader relies on:
 * `strip()`, `in`, `startswith`, `find`, `split`, `int()` on a run of
 * digits and `str()` of a non-negative integer.
 */
module Text {
  import opened Wrappers

  // ---------------------------------------------------------------------
  // Whitespace and strip()
  // ---------------------------------------------------------------------

  /** The characters for which Python's `str.isspace()` holds; `strip()`
      and the regex class `\s` use the same set. */
  predicate IsSpace(c: char)
  {
    c == ' ' || ('\t' <= c <= '\r') || ('\U{1C}' <= c <= '\U{1F}')
    || c == '\U{85}' || c == '\U{A0}' || c == '\U{1680}'
    || ('\U{2000}' <= c <= '\U{200A}') || c == '\U{2028}' || c == '\U{2029}'
    || c == '\U{202F}' || c == '\U{205F}' || c == '\U{3000}'
  }

  predicate AllSpace(s: string)
  {
    forall i :: 0 <= i < |s| ==> IsSpace(s[i])
  }

  /** `s.lstrip()`: drops the longest all-whitespace prefix. */
  function LStrip(s: string): (r: string)
    ensures |r| <= |s| && r == s[|s| - |r|..]
    ensures AllSpace(s[..|s| - |r|])
    ensures r == [] || !IsSpace(r[0])
  {
    if |s| > 0 && IsSpace(s[0]) then
      var r := LStrip(s[1..]);
      assert s[..|s| - |r|] == [s[0]] + s[1..][..|s| - 1 - |r|];
      r
    else s
  }

  /** `s.rstrip()`: drops the longest all-whitespace suffix. */
  function RStrip(s: string): (r: string)
    ensures |r| <= |s| && r == s[..|r|]
    ensures AllSpace(s[|r|..])
    ensures r == [] || !IsSpace(r[|r| - 1])
  {
    if |s| > 0 && IsSpace(s[|s| - 1]) then
      var r := RStrip(s[..|s| - 1]);
      assert s[|r|..] == s[..|s| - 1][|r|..] + [s[|s| - 1]];
      r
    else s
  }

  /** `s.strip()`. */
  function Strip(s: string): (r: string)
    ensures |r| <= |s|
    ensures r == [] || (!IsSpace(r[0]) && !IsSpace(r[|r| - 1]))
  {
    RStrip(LStrip(s))
  }

  /** `strip()` returns the input with whitespace dropped from both ends:
      a window of `s` with only whitespace before and after it. With the
      ends of the result not being whitespace, this fixes the result. */
  lemma {:induction false} StripIsWindow(s: string)
    ensures var r := Strip(s);
      exists i :: 0 <= i <= |s| - |r| && r == s[i..i + |r|] && AllSpace(s[..i]) && AllSpace(s[i + |r|..])
  {
    var l := LStrip(s);
    var r := RStrip(l);
    var i := |s| - |l|;
    assert s[i..i + |r|] == l[..|r|];
    assert s[i + |r|..] == l[|r|..];
    assert r == s[i..i + |r|] && AllSpace(s[..i]) && AllSpace(s[i + |r|..]);
  }

  lemma {:induction false} LStripEmptyIffAllSpace(s: string)
    ensures LStrip(s) == [] <==> AllSpace(s)
  {
    if |s| > 0 && IsSpace(s[0]) {
      LStripEmptyIffAllSpace(s[1..]);
      assert AllSpace(s) <==> AllSpace(s[1..]) by {
        assert forall i :: 0 < i < |s| ==> s[i] == s[1..][i - 1];
      }
    }
  }

  lemma {:induction false} LStripSkipsSpace(a: string, s: string)
    requires AllSpace(a)
    ensures LStrip(a + s) == LStrip(s)
  {
    if |a| > 0 {
      assert IsSpace(a[0]) && (a + s)[0] == a[0] && (a + s)[1..] == a[1..] + s;
      assert AllSpace(a[1..]) by {
        assert forall i :: 0 <= i < |a| - 1 ==> a[1..][i] == a[i + 1];
      }
      LStripSkipsSpace(a[1..], s);
      assert LStrip(a + s) == LStrip((a + s)[1..]);
    } else {
      assert a + s == s;
    }
  }

  lemma {:induction false} LStripAppend(s: string, b: string)
    requires LStrip(s) != []
    ensures LStrip(s + b) == LStrip(s) + b
  {
    if |s| > 0 && IsSpace(s[0]) {
      assert (s + b)[1..] == s[1..] + b;
      LStripAppend(s[1..], b);
    } else if |s| == 0 {
      assert false;
    }
  }

  lemma {:induction false} RStripSkipsSpace(x: string, b: string)
    requires AllSpace(b)
    ensures RStrip(x + b) == RStrip(x)
  {
    if |b| > 0 {
      assert IsSpace(b[|b| - 1]) && (x + b)[|x + b| - 1] == b[|b| - 1];
      assert AllSpace(b[..|b| - 1]);
      assert (x + b)[..|x + b| - 1] == x + b[..|b| - 1];
      RStripSkipsSpace(x, b[..|b| - 1]);
      assert RStrip(x + b) == RStrip((x + b)[..|x + b| - 1]);
    } else {
      assert x + b == x;
    }
  }

  /** Surrounding whitespace never changes what `strip()` returns. */
  lemma StripIgnoresPadding(a: string, s: string, b: string)
    requires AllSpace(a) && AllSpace(b)
    ensures Strip(a + s + b) == Strip(s)
  {
    assert a + s + b == a + (s + b);
    LStripSkipsSpace(a, s + b);
    if AllSpace(s) {
      assert AllSpace(s + b);
      LStripEmptyIffAllSpace(s + b);
      LStripEmptyIffAllSpace(s);
    } else {
      LStripEmptyIffAllSpace(s);
      LStripAppend(s, b);
      RStripSkipsSpace(LStrip(s), b);
    }
  }

  /** `strip()` is idempotent. */
  lemma StripIdempotent(s: string)
    ensures Strip(Strip(s)) == Strip(s)
  {
    var r := Strip(s);
    if r != [] {
      assert LStrip(r) == r;
      assert RStrip(r) == r;
    }
  }

  /** When `s` starts with a non-space character, `strip()` keeps a prefix
      of `s` that reaches at least to the last non-space character. */
  lemma StripKeepsPrefix(s: string, k: nat)
    requires 0 < k <= |s| && !IsSpace(s[0]) && !IsSpace(s[k - 1])
    ensures k <= |Strip(s)| && Strip(s) == s[..|Strip(s)|]
  {
    assert LStrip(s) == s;
  }

  // ---------------------------------------------------------------------
  // Prefixes and substrings
  // ---------------------------------------------------------------------

  /** `s.startswith(p)`. */
  predicate StartsWith(s: string, p: string)
  {
    |p| <= |s| && s[..|p|] == p
  }

  predicate OccursAt(s: string, sub: string, i: nat)
  {
    i + |sub| <= |s| && s[i..i + |sub|] == sub
  }

  /** Leftmost occurrence of `sub` in `s` at or after `from`. */
  function IndexFrom(s: string, sub: string, from: nat): (r: Option<nat>)
    decreases |s| - from
    ensures r.Some? ==> from <= r.value && OccursAt(s, sub, r.value)
    ensures r.Some? ==> forall i :: from <= i < r.value ==> !OccursAt(s, sub, i)
    ensures r.None? ==> forall i :: from <= i ==> !OccursAt(s, sub, i)
  {
    if from + |sub| > |s| then None
    else if s[from..from + |sub|] == sub then Some(from)
    else IndexFrom(s, sub, from + 1)
  }

  /** `s.find(sub)`, with `None` for Python's `-1`. */
  function IndexOf(s: string, sub: string): (r: Option<nat>)
    ensures r.Some? ==> OccursAt(s, sub, r.value)
    ensures r.Some? ==> forall i :: 0 <= i < r.value ==> !OccursAt(s, sub, i)
    ensures r.None? <==> forall i :: 0 <= i ==> !OccursAt(s, sub, i)
  {
    IndexFrom(s, sub, 0)
  }

  /** Python's `sub in s`. */
  predicate Contains(s: string, sub: string)
  {
    IndexOf(s, sub).Some?
  }

  lemma ContainsAt(s: string, sub: string, i: nat)
    requires OccursAt(s, sub, i)
    ensures Contains(s, sub)
  {
  }

  lemma StartsWithContains(s: string, p: string)
    requires StartsWith(s, p)
    ensures Contains(s, p) && IndexOf(s, p) == Some(0)
  {
    assert OccursAt(s, p, 0);
  }

  /** `s.split(sep)[1]` for a string known to contain `sep`: the text
      after the first occurrence, up to the second occurrence or the end. */
  function SecondField(s: string, sep: string): (r: string)
    requires Contains(s, sep)
    ensures var rest := s[IndexOf(s, sep).value + |sep|..];
      && StartsWith(rest, r)
      && (r == rest || OccursAt(rest, sep, |r|))
      && forall i :: 0 <= i < |r| ==> !OccursAt(rest, sep, i)
  {
    var rest := s[IndexOf(s, sep).value + |sep|..];
    match IndexOf(rest, sep)
    case None => rest
    case Some(j) => rest[..j]
  }

  /** `s.split(sep, 1)` for a string that contains `sep`: the text before
      and after the first occurrence. */
  function SplitOnce(s: string, sep: string): (r: (string, string))
    requires Contains(s, sep)
    ensures s == r.0 + sep + r.1
    ensures IndexOf(s, sep) == Some(|r.0|)
  {
    var i := IndexOf(s, sep).value;
    assert s == s[..i] + sep + s[i + |sep|..];
    (s[..i], s[i + |sep|..])
  }

  /** The first occurrence of a separator whose first character does not
      occur in `a` is the one right after `a`. */
  lemma {:induction false} IndexAfterFree(a: string, sep: string, b: string)
    requires sep != [] && sep[0] !in a
    ensures IndexOf(a + sep + b, sep) == Some(|a|)
  {
    var s := a + sep + b;
    assert OccursAt(s, sep, |a|) by {
      assert s[|a|..|a| + |sep|] == sep;
    }
    forall i | 0 <= i < |a|
      ensures !OccursAt(s, sep, i)
    {
      assert s[i] == a[i];
    }
  }

  /** Splitting `a + sep + b` once gives back `a` and `b` when `a` does not
      hold the separator's first character. */
  lemma SplitOnceRoundTrip(a: string, sep: string, b: string)
    requires sep != [] && sep[0] !in a
    ensures Contains(a + sep + b, sep) && SplitOnce(a + sep + b, sep) == (a, b)
  {
    var s := a + sep + b;
    IndexAfterFree(a, sep, b);
    var r := SplitOnce(s, sep);
    assert r.0 == s[..|a|] == a;
    assert r.1 == s[|a| + |sep|..] == b;
  }

  // ---------------------------------------------------------------------
  // split() on one character, and its inverse
  // ---------------------------------------------------------------------

  /** `s.split(sep)` for a one-character separator. */
  function Split(s: string, sep: char): (r: seq<string>)
    ensures |r| >= 1
    ensures forall k :: 0 <= k < |r| ==> sep !in r[k]
  {
    if |s| == 0 then [""]
    else
      var tail := Split(s[1..], sep);
      if s[0] == sep then [""] + tail else [[s[0]] + tail[0]] + tail[1..]
  }

  /** `sep.join(parts)`. */
  function Join(parts: seq<string>, sep: char): string
    requires |parts| >= 1
  {
    if |parts| == 1 then parts[0] else parts[0] + [sep] + Join(parts[1..], sep)
  }

  /** Splitting and re-joining with the same separator gives back the text. */
  lemma {:induction false} JoinSplit(s: string, sep: char)
    ensures Join(Split(s, sep), sep) == s
  {
    if |s| > 0 {
      var tail := Split(s[1..], sep);
      JoinSplit(s[1..], sep);
      if s[0] == sep {
        assert Split(s, sep)[1..] == tail;
      } else {
        var r := Split(s, sep);
        if |tail| == 1 {
          assert r == [[s[0]] + tail[0]];
        } else {
          assert r[1..] == tail[1..];
          assert Join(r, sep) == [s[0]] + tail[0] + [sep] + Join(tail[1..], sep);
        }
      }
    }
  }

  // ---------------------------------------------------------------------
  // Decimal numbers
  // ---------------------------------------------------------------------

  /** The regex class `\d`, restricted to ASCII digits. */
  predicate IsDigit(c: char)
  {
    '0' <= c <= '9'
  }

  predicate AllDigits(s: string)
  {
    forall i :: 0 <= i < |s| ==> IsDigit(s[i])
  }

  /** `int(s)` for a run of digits (leading zeros allowed). */
  function DigitsValue(s: string): nat
    requires AllDigits(s)
  {
    if |s| == 0 then 0
    else DigitsValue(s[..|s| - 1]) * 10 + (s[|s| - 1] as int - '0' as int)
  }

  /** `str(n)` for a non-negative integer. */
  function NatToString(n: nat): (r: string)
    ensures |r| >= 1 && AllDigits(r)
  {
    var d := ['0' + (n % 10) as char];
    if n < 10 then d else NatToString(n / 10) + d
  }

  /** `int(str(n)) == n`. */
  lemma {:induction false} NatToStringRoundTrip(n: nat)
    ensures DigitsValue(NatToString(n)) == n
  {
    if n >= 10 {
      NatToStringRoundTrip(n / 10);
      var s := NatToString(n);
      assert s[..|s| - 1] == NatToString(n / 10);
    }
  }
}
