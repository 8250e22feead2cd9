/** The string operations the Rust client and the Python services rely on:
    substring and suffix tests, Rust's `trim`/`trim_end_matches`, Python's
    `strip`, `join` and `split(":", 1)`, and upper-casing. */
module Text {
  import opened Wrappers

  predicate StartsWith(s: string, p: string) {
    |p| <= |s| && s[..|p|] == p
  }

  predicate EndsWith(s: string, x: string) {
    |x| <= |s| && s[|s| - |x|..] == x
  }

  /** The pieces of a concatenation can be read back from it. */
  lemma Framed(a: string, b: string, c: string)
    ensures StartsWith(a + b + c, a) && EndsWith(a + b + c, c)
    ensures (a + b + c)[|a|..|a| + |b|] == b
  {
    var s := a + b + c;
    assert s[..|a|] == a;
    assert s[|s| - |c|..] == c;
  }

  /** `t` occurs in `s` starting at index `i`. */
  predicate OccursAt(s: string, t: string, i: int) {
    0 <= i <= |s| - |t| && s[i..i + |t|] == t
  }

  /** `s.contains(t)` in Rust, `t in s` in Python. */
  predicate Contains(s: string, t: string) {
    exists i | 0 <= i <= |s| - |t| :: OccursAt(s, t, i)
  }

  lemma EndsWithContains(s: string, x: string)
    requires EndsWith(s, x)
    ensures Contains(s, x)
  {
    assert OccursAt(s, x, |s| - |x|);
  }

  /** A string containing `t` contains every prefix of `t`. */
  lemma ContainsPrefix(s: string, t: string, k: nat)
    requires Contains(s, t) && k <= |t|
    ensures Contains(s, t[..k])
  {
    var i: int :| 0 <= i <= |s| - |t| && OccursAt(s, t, i);
    assert s[i..i + k] == s[i..i + |t|][..k];
    assert OccursAt(s, t[..k], i);
  }

  /** A string ending in `x + y` ends in `y`, and what precedes that `y` ends in `x`. */
  lemma EndsWithSplit(s: string, x: string, y: string)
    requires EndsWith(s, x + y)
    ensures EndsWith(s, y) && EndsWith(s[..|s| - |y|], x)
  {
    var t := s[..|s| - |y|];
    var tail := s[|s| - |x + y|..];
    assert s[|s| - |y|..] == tail[|x|..];
    assert t[|t| - |x|..] == tail[..|x|];
  }

  /** Two suffixes that end in different characters exclude each other. */
  lemma EndsWithDistinctLast(s: string, x: string, y: string)
    requires x != [] && y != [] && x[|x| - 1] != y[|y| - 1]
    ensures !(EndsWith(s, x) && EndsWith(s, y))
  {
  }

  // ---------------------------------------------------------------- Whitespace

  /** Rust's `char::is_whitespace`: the Unicode White_Space property. */
  predicate IsRustWhitespace(c: char) {
    || ('\t' <= c <= '\r')
    || c == ' '
    || c == '\U{0085}'
    || c == '\U{00A0}'
    || c == '\U{1680}'
    || ('\U{2000}' <= c <= '\U{200A}')
    || c == '\U{2028}'
    || c == '\U{2029}'
    || c == '\U{202F}'
    || c == '\U{205F}'
    || c == '\U{3000}'
  }

  /** Python's `str.isspace` on one character: White_Space plus the four
      information separators U+001C..U+001F. */
  predicate IsPythonWhitespace(c: char) {
    IsRustWhitespace(c) || ('\U{001C}' <= c <= '\U{001F}')
  }

  /** Drops the leading characters that satisfy `ws`. */
  function TrimStart(s: string, ws: char -> bool): (r: string)
    ensures |r| <= |s|
    ensures r == [] || !ws(r[0])
  {
    if s != [] && ws(s[0]) then TrimStart(s[1..], ws) else s
  }

  /** Drops the trailing characters that satisfy `ws`. */
  function TrimEnd(s: string, ws: char -> bool): (r: string)
    ensures |r| <= |s|
    ensures r == [] || !ws(r[|r| - 1])
  {
    if s != [] && ws(s[|s| - 1]) then TrimEnd(s[..|s| - 1], ws) else s
  }
  /** `TrimStart` keeps a suffix of its input. */
  lemma {:induction false} TrimStartSuffix(s: string, ws: char -> bool)
    ensures TrimStart(s, ws) == s[|s| - |TrimStart(s, ws)|..]
    decreases |s|
  {
    if s != [] && ws(s[0]) {
      TrimStartSuffix(s[1..], ws);
    }
  }

  /** `TrimEnd` keeps a prefix of its input. */
  lemma {:induction false} TrimEndPrefix(s: string, ws: char -> bool)
    ensures TrimEnd(s, ws) == s[..|TrimEnd(s, ws)|]
    decreases |s|
  {
    if s != [] && ws(s[|s| - 1]) {
      TrimEndPrefix(s[..|s| - 1], ws);
    }
  }

  /** Everything `TrimStart` drops is whitespace. */
  lemma {:induction false} TrimStartDrops(s: string, ws: char -> bool)
    ensures forall i :: 0 <= i < |s| - |TrimStart(s, ws)| ==> ws(s[i])
    decreases |s|
  {
    if s != [] && ws(s[0]) {
      TrimStartDrops(s[1..], ws);
      assert forall i :: 1 <= i < |s| ==> s[i] == s[1..][i - 1];
    }
  }

  /** Everything `TrimEnd` drops is whitespace. */
  lemma {:induction false} TrimEndDrops(s: string, ws: char -> bool)
    ensures forall i :: |TrimEnd(s, ws)| <= i < |s| ==> ws(s[i])
    decreases |s|
  {
    if s != [] && ws(s[|s| - 1]) {
      TrimEndDrops(s[..|s| - 1], ws);
      assert forall i :: 0 <= i < |s| - 1 ==> s[i] == s[..|s| - 1][i];
    }
  }


  function Trim(s: string, ws: char -> bool): string {
    TrimEnd(TrimStart(s, ws), ws)
  }

  /** Rust `str::trim`. */
  function RustTrim(s: string): string {
    Trim(s, IsRustWhitespace)
  }

  /** Python `str.strip()` with no argument. */
  function PyStrip(s: string): string {
    Trim(s, IsPythonWhitespace)
  }

  /** Leading characters that `ws` drops do not change what `TrimStart` keeps. */
  lemma {:induction false} TrimStartSkip(pre: string, rest: string, ws: char -> bool)
    requires forall i :: 0 <= i < |pre| ==> ws(pre[i])
    ensures TrimStart(pre + rest, ws) == TrimStart(rest, ws)
    decreases |pre|
  {
    if pre != [] {
      var s := pre + rest;
      assert ws(s[0]) by { assert s[0] == pre[0]; }
      assert s[1..] == pre[1..] + rest;
      TrimStartSkip(pre[1..], rest, ws);
    } else {
      assert pre + rest == rest;
    }
  }

  /** Trailing characters that `ws` drops do not change what `TrimEnd` keeps. */
  lemma {:induction false} TrimEndSkip(rest: string, post: string, ws: char -> bool)
    requires forall i :: 0 <= i < |post| ==> ws(post[i])
    ensures TrimEnd(rest + post, ws) == TrimEnd(rest, ws)
    decreases |post|
  {
    if post != [] {
      var s := rest + post;
      assert s[|s| - 1] == post[|post| - 1];
      assert s[..|s| - 1] == rest + post[..|post| - 1];
      TrimEndSkip(rest, post[..|post| - 1], ws);
    } else {
      assert rest + post == rest;
    }
  }

  /** What trimming promises: the result is the unique slice of `s` that
      neither starts nor ends with whitespace and is surrounded only by
      whitespace. */
  lemma TrimPadded(pre: string, core: string, post: string, ws: char -> bool)
    requires forall i :: 0 <= i < |pre| ==> ws(pre[i])
    requires forall i :: 0 <= i < |post| ==> ws(post[i])
    requires core == [] || (!ws(core[0]) && !ws(core[|core| - 1]))
    ensures Trim(pre + core + post, ws) == core
  {
    assert pre + core + post == pre + (core + post);
    TrimStartSkip(pre, core + post, ws);
    if core == [] {
      assert core + post == post;
      TrimStartSkip(post, [], ws);
      assert post + [] == post;
      assert TrimStart(core + post, ws) == [];
    } else {
      assert (core + post)[0] == core[0];
      assert TrimStart(core + post, ws) == core + post;
      TrimEndSkip(core, post, ws);
      assert TrimEnd(core, ws) == core;
    }
  }

  lemma TrimIdempotent(s: string, ws: char -> bool)
    ensures Trim(Trim(s, ws), ws) == Trim(s, ws)
  {
    var t := Trim(s, ws);
    TrimEndPrefix(TrimStart(s, ws), ws);
    TrimPadded([], t, [], ws);
    assert [] + t + [] == t;
  }

  /** A character that `ws` rejects survives `TrimStart`. */
  lemma TrimStartKeeps(s: string, ws: char -> bool, x: char)
    requires !ws(x)
    ensures x in TrimStart(s, ws) <==> x in s
  {
    var r := TrimStart(s, ws);
    var k := |s| - |r|;
    TrimStartDrops(s, ws);
    TrimStartSuffix(s, ws);
    if x in s {
      var i :| 0 <= i < |s| && s[i] == x;
      if i < k {
        assert false;
      }
      assert r[i - k] == x;
    }
  }

  /** A character that `ws` rejects survives `TrimEnd`. */
  lemma TrimEndKeeps(s: string, ws: char -> bool, x: char)
    requires !ws(x)
    ensures x in TrimEnd(s, ws) <==> x in s
  {
    var r := TrimEnd(s, ws);
    TrimEndDrops(s, ws);
    TrimEndPrefix(s, ws);
    if x in s {
      var i :| 0 <= i < |s| && s[i] == x;
      if i >= |r| {
        assert false;
      }
      assert r[i] == x;
    }
  }

  /** A character that `ws` rejects is in the trimmed text exactly when it is in the text. */
  lemma TrimKeeps(s: string, ws: char -> bool, x: char)
    requires !ws(x)
    ensures x in Trim(s, ws) <==> x in s
  {
    TrimStartKeeps(s, ws, x);
    TrimEndKeeps(TrimStart(s, ws), ws, x);
  }

  /** `TrimStart` of a concatenation: it runs into the second part only when
      the first is all whitespace. */
  lemma {:induction false} TrimStartAppend(a: string, b: string, ws: char -> bool)
    ensures TrimStart(a + b, ws) == if TrimStart(a, ws) != [] then TrimStart(a, ws) + b else TrimStart(b, ws)
    decreases |a|
  {
    if a == [] {
      assert a + b == b;
    } else if ws(a[0]) {
      assert (a + b)[1..] == a[1..] + b;
      TrimStartAppend(a[1..], b, ws);
    }
  }

  /** `TrimEnd` stops at a kept character, whatever precedes it. */
  lemma {:induction false} TrimEndAfter(a: string, b: string, ws: char -> bool)
    requires a != [] && !ws(a[|a| - 1])
    ensures TrimEnd(a + b, ws) == a + TrimEnd(b, ws)
    decreases |b|
  {
    if b == [] {
      assert a + b == a;
    } else if ws(b[|b| - 1]) {
      assert (a + b)[..|a + b| - 1] == a + b[..|b| - 1];
      TrimEndAfter(a, b[..|b| - 1], ws);
    }
  }

  /** A trailing character that `ws` accepts does not change the trim. */
  lemma TrimDropsLast(s: string, ws: char -> bool)
    requires s != [] && ws(s[|s| - 1])
    ensures Trim(s, ws) == Trim(s[..|s| - 1], ws)
  {
    var init, last := s[..|s| - 1], s[|s| - 1..];
    assert s == init + last;
    TrimStartAppend(init, last, ws);
    var t := TrimStart(init, ws);
    if t != [] {
      assert (t + last)[..|t + last| - 1] == t;
    } else {
      assert TrimStart(last, ws) == TrimStart(last[1..], ws);
    }
  }

  /** Trimming the end first changes nothing about the full trim. */
  lemma {:induction false} TrimAfterTrimEnd(s: string, ws: char -> bool)
    ensures Trim(TrimEnd(s, ws), ws) == Trim(s, ws)
    decreases |s|
  {
    if s != [] && ws(s[|s| - 1]) {
      TrimAfterTrimEnd(s[..|s| - 1], ws);
      TrimDropsLast(s, ws);
    }
  }

  /** Trimming text around a kept separator trims only the outer ends. */
  lemma TrimAround(a: string, c: char, b: string, ws: char -> bool)
    requires !ws(c)
    ensures Trim(a + [c] + b, ws) == TrimStart(a, ws) + [c] + TrimEnd(b, ws)
  {
    var t := TrimStart(a, ws);
    TrimStartAround(a, c, b, ws);
    assert (t + [c])[|t + [c]| - 1] == c;
    TrimEndAfter(t + [c], b, ws);
  }

  /** `TrimStart` stops at the kept separator at the latest. */
  lemma {:induction false} TrimStartAround(a: string, c: char, b: string, ws: char -> bool)
    requires !ws(c)
    ensures TrimStart(a + [c] + b, ws) == TrimStart(a, ws) + [c] + b
    decreases |a|
  {
    if a == [] {
      assert a + [c] + b == [c] + b;
    } else if ws(a[0]) {
      assert (a + [c] + b)[0] == a[0];
      assert (a + [c] + b)[1..] == a[1..] + [c] + b;
      TrimStartAround(a[1..], c, b, ws);
    }
  }

  /** Trimming the start first changes nothing about the full trim. */
  lemma TrimAfterTrimStart(s: string, ws: char -> bool)
    ensures Trim(TrimStart(s, ws), ws) == Trim(s, ws)
  {
    var t := TrimStart(s, ws);
    assert TrimStart(t, ws) == t;
  }

  /** `s.trim() == w` in Rust, decided one end at a time. */
  predicate TrimsTo(s: string, w: string)
    decreases |s|
  {
    if s != [] && IsRustWhitespace(s[0]) then TrimsTo(s[1..], w)
    else if s != [] && IsRustWhitespace(s[|s| - 1]) then TrimsTo(s[..|s| - 1], w)
    else s == w
  }

  lemma {:induction false} TrimsToTrim(s: string, w: string)
    ensures TrimsTo(s, w) <==> RustTrim(s) == w
    decreases |s|
  {
    if s != [] && IsRustWhitespace(s[0]) {
      TrimsToTrim(s[1..], w);
    } else if s != [] && IsRustWhitespace(s[|s| - 1]) {
      TrimsToTrim(s[..|s| - 1], w);
      TrimDropsLast(s, IsRustWhitespace);
    }
  }

  /** A line trims to at most one word. */
  lemma TrimsToUnique(s: string, a: string, b: string)
    requires TrimsTo(s, a) && TrimsTo(s, b)
    ensures a == b
  {
    TrimsToTrim(s, a);
    TrimsToTrim(s, b);
  }


  // ---------------------------------------------------------------- Suffix stripping

  /** `s` is zero or more copies of `pat`. */
  predicate Repeats(s: string, pat: string)
    requires pat != []
    decreases |s|
  {
    s == [] || (EndsWith(s, pat) && Repeats(s[..|s| - |pat|], pat))
  }

  /** Rust `str::trim_end_matches` with a string pattern: removes `pat` from
      the end as long as the string still ends with it. */
  function TrimEndMatches(s: string, pat: string): (r: string)
    requires pat != []
    ensures |r| <= |s|
    ensures !EndsWith(r, pat)
    decreases |s|
  {
    if EndsWith(s, pat) then TrimEndMatches(s[..|s| - |pat|], pat) else s
  }

  /** Dropping `a` characters and then `b` drops `a + b`. */
  lemma DropDrop(s: string, a: nat, b: nat)
    requires a + b <= |s|
    ensures s[a..][b..] == s[a + b..]
  {
  }

  /** `trim_end_matches` keeps a prefix of its input and removes only
      copies of the pattern. */
  lemma {:induction false} TrimEndMatchesStrips(s: string, pat: string)
    requires pat != []
    ensures var r := TrimEndMatches(s, pat); r == s[..|r|] && Repeats(s[|r|..], pat)
    decreases |s|
  {
    if EndsWith(s, pat) {
      var s' := s[..|s| - |pat|];
      var r := TrimEndMatches(s', pat);
      assert TrimEndMatches(s, pat) == r;
      TrimEndMatchesStrips(s', pat);
      assert r == s[..|r|] by {
        assert s'[..|r|] == s[..|r|];
      }
      var t := s[|r|..];
      assert t[..|t| - |pat|] == s'[|r|..];
      assert EndsWith(t, pat) by {
        assert |t| == |s| - |r|;
        DropDrop(s, |r|, |t| - |pat|);
      }
    } else {
      assert s[|s|..] == [];
    }
  }

  // ---------------------------------------------------------------- Join and split

  /** Python `sep.join(parts)`. */
  function JoinStrings(parts: seq<string>, sep: string): string
    decreases |parts|
  {
    if |parts| == 0 then ""
    else if |parts| == 1 then parts[0]
    else parts[0] + sep + JoinStrings(parts[1..], sep)
  }

  /** Joining is appending one part at a time, left to right. */
  lemma {:induction false} JoinAppend(parts: seq<string>, x: string, sep: string)
    requires parts != []
    ensures JoinStrings(parts + [x], sep) == JoinStrings(parts, sep) + sep + x
    decreases |parts|
  {
    if |parts| == 1 {
      assert (parts + [x])[1..] == [x];
    } else {
      assert (parts + [x])[1..] == parts[1..] + [x];
      JoinAppend(parts[1..], x, sep);
    }
  }

  /** Index of the first occurrence of `c`, if any. */
  function FirstIndex(s: string, c: char): (r: Option<nat>)
    ensures r.None? ==> c !in s
    ensures r.Some? ==> r.value < |s| && s[r.value] == c && c !in s[..r.value]
    decreases |s|
  {
    if s == [] then None
    else if s[0] == c then Some(0)
    else match FirstIndex(s[1..], c)
      case None => None
      case Some(i) => Some(i + 1)
  }

  /** Python `s.split(sep, 1)` for a one-character separator that occurs:
      the text before the first `sep` and everything after it; `None` when
      `sep` does not occur (where Python returns the one-element list). */
  function SplitOnce(s: string, sep: char): (r: Option<(string, string)>)
    ensures r.None? <==> sep !in s
    ensures r.Some? ==> s == r.value.0 + [sep] + r.value.1 && sep !in r.value.0
  {
    match FirstIndex(s, sep)
    case None => None
    case Some(i) =>
      assert s == s[..i] + [sep] + s[i + 1..];
      Some((s[..i], s[i + 1..]))
  }

  /** The first `sep` of `a + [sep] + b` is the one after `a` when `a` is free of it. */
  lemma {:induction false} FirstIndexAfter(a: string, sep: char, b: string)
    requires sep !in a
    ensures FirstIndex(a + [sep] + b, sep) == Some(|a|)
    decreases |a|
  {
    var s := a + [sep] + b;
    if a != [] {
      assert s[0] == a[0];
      assert s[1..] == a[1..] + [sep] + b;
      FirstIndexAfter(a[1..], sep, b);
    }
  }

  /** Splitting undoes joining with the separator when the head is free of it. */
  lemma SplitOnceJoin(a: string, sep: char, b: string)
    requires sep !in a
    ensures SplitOnce(a + [sep] + b, sep) == Some((a, b))
  {
    var s := a + [sep] + b;
    FirstIndexAfter(a, sep, b);
    assert s[..|a|] == a;
    assert s[|a| + 1..] == b;
  }

  // ---------------------------------------------------------------- Upper case

  /** Upper-cases ASCII letters and leaves every other character alone. */
  function UpperChar(c: char): char {
    if 'a' <= c <= 'z' then (c as int - 32) as char else c
  }

  function ToUpper(s: string): (r: string)
    ensures |r| == |s|
  {
    seq(|s|, i requires 0 <= i < |s| => UpperChar(s[i]))
  }

  lemma ToUpperIdempotent(s: string)
    ensures ToUpper(ToUpper(s)) == ToUpper(s)
  {
  }

  /** Matching after upper-casing both sides is case-insensitive: a string
      that contains `t` in any casing contains `t`'s upper-cased form
      once upper-cased. */
  lemma ContainsToUpper(s: string, t: string)
    requires Contains(s, t)
    ensures Contains(ToUpper(s), ToUpper(t))
  {
    var i: int :| 0 <= i <= |s| - |t| && OccursAt(s, t, i);
    assert ToUpper(s)[i..i + |t|] == ToUpper(t);
    assert OccursAt(ToUpper(s), ToUpper(t), i);
  }
}
