/** The pieces of Rust's `str` API that the crate relies on: `trim`,
    `trim_matches`, `split`, `len` (a byte count) and the character
    classes behind `char::is_whitespace`, `char::is_numeric` and
    `char::is_alphabetic`. */
module Strings {

  /** `char::is_whitespace`: the Unicode White_Space property. */
  predicate IsWhitespace(c: char) {
    || ('\t' <= c <= '\r') || c == ' ' || c == '\U{0085}' || c == '\U{00A0}'
    || c == '\U{1680}' || ('\U{2000}' <= c <= '\U{200A}') || c == '\U{2028}'
    || c == '\U{2029}' || c == '\U{202F}' || c == '\U{205F}' || c == '\U{3000}'
  }

  /** `char::is_numeric` (general categories Nd, Nl, No), exact below U+0100. */
  predicate IsNumeric(c: char) {
    || ('0' <= c <= '9') || c == '\U{00B2}' || c == '\U{00B3}' || c == '\U{00B9}'
    || ('\U{00BC}' <= c <= '\U{00BE}')
  }

  /** `char::is_alphabetic` (the Alphabetic property), exact below U+0100. */
  predicate IsAlphabetic(c: char) {
    || ('A' <= c <= 'Z') || ('a' <= c <= 'z') || c == '\U{00AA}' || c == '\U{00B5}'
    || c == '\U{00BA}' || ('\U{00C0}' <= c <= '\U{00D6}') || ('\U{00D8}' <= c <= '\U{00F6}')
    || ('\U{00F8}' <= c <= '\U{00FF}')
  }

  /** Number of bytes the UTF-8 encoding of `c` takes. */
  function Utf8Width(c: char): (w: nat)
    ensures 1 <= w <= 4
    ensures w == 1 <==> c as int < 0x80
  {
    if c as int < 0x80 then 1
    else if c as int < 0x800 then 2
    else if c as int < 0x10000 then 3
    else 4
  }

  /** `str::len`: the length of the UTF-8 encoding, in bytes. */
  function Utf8Len(s: string): nat {
    if |s| == 0 then 0 else Utf8Width(s[0]) + Utf8Len(s[1..])
  }

  /** A `str::len` is never less than the character count, never more than
      four times it, and equals it exactly when every character is ASCII. */
  lemma {:induction false} Utf8LenBounds(s: string)
    ensures |s| <= Utf8Len(s) <= 4 * |s|
    ensures Utf8Len(s) == |s| <==> forall i :: 0 <= i < |s| ==> s[i] as int < 0x80
  {
    if |s| > 0 {
      Utf8LenBounds(s[1..]);
      if Utf8Len(s) == |s| {
        forall i | 0 <= i < |s| ensures s[i] as int < 0x80 {
          if i > 0 { assert s[i] == s[1..][i - 1]; }
        }
      }
      if forall i :: 0 <= i < |s| ==> s[i] as int < 0x80 {
        assert forall i :: 0 <= i < |s[1..]| ==> s[1..][i] as int < 0x80 by {
          forall i | 0 <= i < |s[1..]| ensures s[1..][i] as int < 0x80 {
            assert s[1..][i] == s[i + 1];
          }
        }
      }
    }
  }

  /** `str::trim_start_matches` with a character predicate. */
  function TrimStart(s: string, p: char -> bool): (r: string)
    ensures |r| <= |s| && r == s[|s| - |r|..]
    ensures |r| == 0 || !p(r[0])
    ensures forall i :: 0 <= i < |s| - |r| ==> p(s[i])
  {
    if |s| > 0 && p(s[0]) then
      var r := TrimStart(s[1..], p);
      assert s[1..][|s| - 1 - |r|..] == s[|s| - |r|..];
      assert forall i :: 1 <= i < |s| - |r| ==> s[i] == s[1..][i - 1];
      r
    else s
  }

  /** `str::trim_end_matches` with a character predicate. */
  function TrimEnd(s: string, p: char -> bool): (r: string)
    ensures |r| <= |s| && r == s[..|r|]
    ensures |r| == 0 || !p(r[|r| - 1])
    ensures forall i :: |r| <= i < |s| ==> p(s[i])
  {
    if |s| > 0 && p(s[|s| - 1]) then TrimEnd(s[..|s| - 1], p) else s
  }

  /** `r` is the stretch of `s` that starts at `a`, and every character of
      `s` before or after it satisfies `p`. */
  ghost predicate MiddleAt(r: string, s: string, p: char -> bool, a: int) {
    && 0 <= a <= |s| - |r| && r == s[a..a + |r|]
    && (forall i :: 0 <= i < a ==> p(s[i]))
    && (forall i :: a + |r| <= i < |s| ==> p(s[i]))
  }

  /** `r` is what is left of `s` once some characters satisfying `p` are
      dropped from its two ends. */
  ghost predicate MiddleOf(r: string, s: string, p: char -> bool) {
    exists a :: MiddleAt(r, s, p, a)
  }

  /** `str::trim_matches`: drop every leading and trailing character that
      satisfies `p`; what is left is the middle of `s` and starts and ends
      with characters that do not. */
  function TrimMatches(s: string, p: char -> bool): (r: string)
    ensures |r| == 0 || (!p(r[0]) && !p(r[|r| - 1]))
    ensures |r| <= |s|
  {
    TrimEnd(TrimStart(s, p), p)
  }

  /** What `trim_matches` leaves is the middle of `s`: a contiguous stretch
      with only characters satisfying `p` dropped around it. */
  lemma {:induction false} TrimMatchesIsMiddle(s: string, p: char -> bool)
    ensures MiddleOf(TrimMatches(s, p), s, p)
  {
    TrimBothMiddle(s, p);
  }

  /** Trimming the start and then the end leaves the stretch of `s` after
      its leading run of characters satisfying `p`, cut before its trailing
      run. */
  lemma {:induction false} TrimBothMiddle(s: string, p: char -> bool)
    ensures MiddleAt(TrimEnd(TrimStart(s, p), p), s, p, |s| - |TrimStart(s, p)|)
  {
    var t := TrimStart(s, p);
    MiddleOfParts(s, t, TrimEnd(t, p), p);
  }

  /** A prefix `r` of a suffix `t` of `s`, with only characters satisfying
      `p` cut off around it, is a middle of `s`. */
  lemma {:induction false} MiddleOfParts(s: string, t: string, r: string, p: char -> bool)
    requires |t| <= |s| && t == s[|s| - |t|..]
    requires forall i :: 0 <= i < |s| - |t| ==> p(s[i])
    requires |r| <= |t| && r == t[..|r|]
    requires forall i :: |r| <= i < |t| ==> p(t[i])
    ensures MiddleAt(r, s, p, |s| - |t|)
  {
    var a := |s| - |t|;
    assert r == s[a..a + |r|];
    forall i | a + |r| <= i < |s| ensures p(s[i]) {
      assert s[i] == t[i - a];
    }
  }

  /** Neither end of `s` is whitespace. */
  predicate Trimmed(s: string) {
    |s| == 0 || (!IsWhitespace(s[0]) && !IsWhitespace(s[|s| - 1]))
  }

  /** `str::trim`. */
  function Trim(s: string): (r: string)
    ensures Trimmed(r)
    ensures |r| <= |s|
  {
    TrimMatches(s, IsWhitespace)
  }

  /** What `trim` leaves is the middle of `s`: a contiguous stretch with
      only whitespace dropped around it. */
  lemma {:induction false} TrimIsMiddle(s: string)
    ensures MiddleOf(Trim(s), s, IsWhitespace)
  {
    TrimMatchesIsMiddle(s, IsWhitespace);
  }

  /** A string with no whitespace at either end trims to itself. */
  lemma TrimOfTrimmed(s: string)
    requires Trimmed(s)
    ensures Trim(s) == s
  {
    if |s| > 0 {
      assert TrimStart(s, IsWhitespace) == s;
      assert TrimEnd(s, IsWhitespace) == s;
    }
  }

  /** Trimming twice is trimming once. */
  lemma TrimIdempotent(s: string)
    ensures Trim(Trim(s)) == Trim(s)
  {
    TrimOfTrimmed(Trim(s));
  }

  /** Appending a trimmed character after `s` adds it after what
      trimming the start of `s` leaves, if anything is left. */
  lemma {:induction false} TrimStartAppend(s: string, x: char, p: char -> bool)
    requires p(x)
    ensures TrimStart(s + [x], p) == if |TrimStart(s, p)| == 0 then [] else TrimStart(s, p) + [x]
  {
    if |s| > 0 && p(s[0]) {
      assert (s + [x])[1..] == s[1..] + [x];
      TrimStartAppend(s[1..], x, p);
    }
  }

  /** A trailing line feed is the first thing `trim_end` drops. */
  lemma TrimEndNewline(t: string)
    ensures TrimEnd(t + "\n", IsWhitespace) == TrimEnd(t, IsWhitespace)
  {
    var u := t + "\n";
    assert u[|u| - 1] == '\n' && IsWhitespace('\n');
    assert u[..|u| - 1] == t;
  }

  /** A trailing line feed makes no difference to `trim`. */
  lemma TrimDropsNewline(s: string)
    ensures Trim(s + "\n") == Trim(s)
  {
    assert IsWhitespace('\n');
    TrimStartAppend(s, '\n', IsWhitespace);
    var t := TrimStart(s, IsWhitespace);
    if |t| > 0 {
      TrimEndNewline(t);
    }
  }

  /** `[a, b, c].join(sep)`. */
  function Join(xs: seq<string>, sep: string): string {
    if |xs| == 0 then ""
    else if |xs| == 1 then xs[0]
    else xs[0] + sep + Join(xs[1..], sep)
  }

  /** `str::split(sep)` on a single character, collected: there is always at
      least one piece, no piece holds the separator, and joining the pieces
      with the separator gives back the input. */
  function Split(s: string, sep: char): (r: seq<string>)
    ensures |r| >= 1
    ensures forall i :: 0 <= i < |r| ==> sep !in r[i]
    ensures Join(r, [sep]) == s
  {
    if |s| == 0 then [""]
    else if s[0] == sep then
      var tail := Split(s[1..], sep);
      assert Join([""] + tail, [sep]) == [sep] + Join(tail, [sep]) by {
        assert ([""] + tail)[1..] == tail;
      }
      [""] + tail
    else
      var tail := Split(s[1..], sep);
      var r := [[s[0]] + tail[0]] + tail[1..];
      assert r[1..] == tail[1..];
      assert Join(r, [sep]) == [s[0]] + Join(tail, [sep]);
      r
  }

  /** Splitting a joined list gives the list back, provided no element holds
      the separator. */
  lemma {:induction false} SplitJoin(xs: seq<string>, sep: char)
    requires |xs| >= 1
    requires forall i :: 0 <= i < |xs| ==> sep !in xs[i]
    ensures Split(Join(xs, [sep]), sep) == xs
  {
    if |xs| == 1 {
      SplitNoSeparator(xs[0], sep);
    } else {
      SplitJoin(xs[1..], sep);
      SplitAfterPiece(xs[0], sep, Join(xs[1..], [sep]));
    }
  }

  /** A string without the separator is a single piece. */
  lemma {:induction false} SplitNoSeparator(s: string, sep: char)
    requires sep !in s
    ensures Split(s, sep) == [s]
  {
    if |s| > 0 {
      SplitNoSeparator(s[1..], sep);
    }
  }

  /** Splitting `x + sep + rest`, where `x` has no separator, yields `x`
      followed by the pieces of `rest`. */
  lemma {:induction false} SplitAfterPiece(x: string, sep: char, rest: string)
    requires sep !in x
    ensures Split(x + [sep] + rest, sep) == [x] + Split(rest, sep)
  {
    if |x| == 0 {
      assert ([sep] + rest)[1..] == rest;
    } else {
      var s := x + [sep] + rest;
      assert s[0] == x[0] != sep;
      assert s[1..] == x[1..] + [sep] + rest;
      SplitAfterPiece(x[1..], sep, rest);
      assert [x[0]] + x[1..] == x;
    }
  }

  /** Each string with a space in front. */
  function SpaceEach(xs: seq<string>): (r: seq<string>)
    ensures |r| == |xs| && forall k :: 0 <= k < |xs| ==> r[k] == " " + xs[k]
  {
    if |xs| == 0 then [] else [" " + xs[0]] + SpaceEach(xs[1..])
  }

  /** The pieces of a ", "-joined list as a split on ',' sees them: every
      piece after the first keeps the space in front. */
  function Spaced(xs: seq<string>): (r: seq<string>)
    ensures |r| == |xs|
    ensures forall k :: 0 <= k < |xs| ==> r[k] == if k == 0 then xs[0] else " " + xs[k]
  {
    if |xs| == 0 then [] else [xs[0]] + SpaceEach(xs[1..])
  }

  /** Joining strings that each carry a leading space with "," is joining
      the bare strings with ", " after one leading space. */
  lemma {:induction false} JoinSpaceEach(ys: seq<string>)
    requires |ys| >= 1
    ensures Join(SpaceEach(ys), ",") == " " + Join(ys, ", ")
  {
    if |ys| >= 2 {
      JoinSpaceEach(ys[1..]);
      assert SpaceEach(ys)[1..] == SpaceEach(ys[1..]);
      assert Join(SpaceEach(ys), ",") == (" " + ys[0]) + "," + (" " + Join(ys[1..], ", "));
    }
  }

  /** Joining with ", " is joining the spaced pieces with ",". */
  lemma JoinCommaSpace(xs: seq<string>)
    ensures Join(xs, ", ") == Join(Spaced(xs), ",")
  {
    if |xs| >= 2 {
      JoinSpaceEach(xs[1..]);
      assert Spaced(xs)[1..] == SpaceEach(xs[1..]);
      assert Join(Spaced(xs), ",") == xs[0] + "," + (" " + Join(xs[1..], ", "));
    }
  }

  /** A join of non-empty pieces starts with the first piece's first
      character and ends with the last piece's last. */
  lemma {:induction false} JoinEnds(xs: seq<string>, sep: string)
    requires |xs| >= 1 && forall k :: 0 <= k < |xs| ==> |xs[k]| > 0
    ensures var j := Join(xs, sep);
      |j| > 0 && j[0] == xs[0][0] && j[|j| - 1] == xs[|xs| - 1][|xs[|xs| - 1]| - 1]
  {
    if |xs| >= 2 {
      JoinEnds(xs[1..], sep);
    }
  }

  /** Trimming a text between two trimmed characters gives the text back
      when its own ends are not trimmed. */
  lemma TrimMatchesSurrounded(j: string, open: char, close: char, p: char -> bool)
    requires p(open) && p(close)
    requires |j| > 0 && !p(j[0]) && !p(j[|j| - 1])
    ensures TrimMatches([open] + j + [close], p) == j
  {
    var s := [open] + j + [close];
    assert s[1..] == j + [close];
    assert (j + [close])[..|j|] == j;
  }

  /** A leading trimmed character makes no difference to trimming. */
  lemma TrimMatchesDropsFirst(x: char, d: string, p: char -> bool)
    requires p(x)
    ensures TrimMatches([x] + d, p) == TrimMatches(d, p)
  {
    assert ([x] + d)[1..] == d;
  }
}
