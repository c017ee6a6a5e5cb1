/**
 * The JavaScript string operations the progress watcher relies on:
 * `String.prototype.split` with a string separator, `trim`, `startsWith`,
 * `substring` with one argument, and `toUpperCase` restricted to ASCII.
 * Strings are sequences of Unicode scalar values; every character the
 * model inspects lies in the Basic Multilingual Plane, where that agrees
 * with JavaScript's UTF-16 code units.
 */
module Text {

  /** The characters `trim` removes: ECMAScript WhiteSpace and LineTerminator. */
  const SpaceChars: set<char> := {
    '\t', '\n', '\U{B}', '\U{C}', '\r', ' ', '\U{A0}', '\U{1680}',
    '\U{2000}', '\U{2001}', '\U{2002}', '\U{2003}', '\U{2004}', '\U{2005}',
    '\U{2006}', '\U{2007}', '\U{2008}', '\U{2009}', '\U{200A}',
    '\U{2028}', '\U{2029}', '\U{202F}', '\U{205F}', '\U{3000}', '\U{FEFF}'
  }

  predicate IsSpace(c: char) {
    c in SpaceChars
  }

  predicate AllSpace(s: string) {
    forall i :: 0 <= i < |s| ==> IsSpace(s[i])
  }

  /** `s.trimStart()`: `s` without its leading white space. */
  function TrimStart(s: string): string {
    if s != [] && IsSpace(s[0]) then TrimStart(s[1..]) else s
  }

  /** `s.trimEnd()`: `s` without its trailing white space. */
  function TrimEnd(s: string): string {
    if s != [] && IsSpace(s[|s| - 1]) then TrimEnd(s[..|s| - 1]) else s
  }

  /** `trimStart` removes a prefix of white space and stops at the first other character. */
  lemma {:induction false} TrimStartWindow(s: string)
    ensures var r := TrimStart(s);
      && |r| <= |s| && r == s[|s| - |r|..]
      && AllSpace(s[..|s| - |r|])
      && (r != [] ==> !IsSpace(r[0]))
  {
    if s != [] && IsSpace(s[0]) {
      var tail := s[1..];
      TrimStartWindow(tail);
      var r := TrimStart(tail);
      assert r == TrimStart(s);
      assert tail[|tail| - |r|..] == s[|s| - |r|..];
      forall i | 0 <= i < |s| - |r| ensures IsSpace(s[i]) {
        if i > 0 {
          assert s[i] == tail[..|tail| - |r|][i - 1];
        }
      }
    }
  }

  /** `trimEnd` removes a suffix of white space and stops at the last other character. */
  lemma {:induction false} TrimEndWindow(s: string)
    ensures var r := TrimEnd(s);
      && |r| <= |s| && r == s[..|r|]
      && AllSpace(s[|r|..])
      && (r != [] ==> !IsSpace(r[|r| - 1]))
  {
    if s != [] && IsSpace(s[|s| - 1]) {
      var init := s[..|s| - 1];
      TrimEndWindow(init);
      var r := TrimEnd(init);
      assert r == TrimEnd(s);
      assert init[..|r|] == s[..|r|];
      forall i | |r| <= i < |s| ensures IsSpace(s[i]) {
        if i < |s| - 1 {
          assert s[i] == init[|r|..][i - |r|];
        }
      }
      assert forall i :: 0 <= i < |s[|r|..]| ==> s[|r|..][i] == s[|r| + i];
    }
  }

  /** `s.trim()`: `s` without its leading and trailing white space. */
  function Trim(s: string): string {
    TrimEnd(TrimStart(s))
  }

  /**
   * What `trim` leaves is a window of `s`: everything outside it is white
   * space, it neither starts nor ends with white space, and it is empty
   * exactly when `s` is all white space.
   */
  lemma TrimIsWindow(s: string)
    ensures var r, lo := Trim(s), |s| - |TrimStart(s)|;
      && 0 <= lo <= lo + |r| <= |s| && r == s[lo..lo + |r|]
      && AllSpace(s[..lo]) && AllSpace(s[lo + |r|..])
      && (r != [] ==> !IsSpace(r[0]) && !IsSpace(r[|r| - 1]))
      && (r == [] <==> AllSpace(s))
  {
    TrimStartWindow(s);
    TrimEndWindow(TrimStart(s));
    SuffixPrefixWindow(s, TrimStart(s), Trim(s));
    TrimEmptyIff(s);
  }

  /** A prefix `r` of a suffix `t` of `s` is the window of `s` it occupies. */
  lemma SuffixPrefixWindow(s: string, t: string, r: string)
    requires |r| <= |t| <= |s| && t == s[|s| - |t|..] && r == t[..|r|]
    requires AllSpace(t[|r|..]) && (t != [] ==> !IsSpace(t[0]))
    ensures var lo := |s| - |t|;
      && r == s[lo..lo + |r|]
      && AllSpace(s[lo + |r|..])
      && (r != [] ==> !IsSpace(r[0]))
  {
    var lo := |s| - |t|;
    assert s[lo..][..|r|] == s[lo..lo + |r|];
    assert t[|r|..] == s[lo + |r|..];
    assert r != [] ==> r[0] == t[0];
  }

  /** Helper for `Trim`: the window is empty exactly when `s` is all white space. */
  lemma TrimEmptyIff(s: string)
    ensures TrimEnd(TrimStart(s)) == [] <==> AllSpace(s)
  {
    var t := TrimStart(s);
    var r := TrimEnd(t);
    var lo := |s| - |t|;
    TrimStartWindow(s);
    TrimEndWindow(t);
    if r == [] {
      assert t[|r|..] == t;
      assert lo == |s|;
      forall i | 0 <= i < |s| ensures IsSpace(s[i]) {
        assert s[i] == s[..lo][i];
      }
    } else {
      assert !IsSpace(s[lo]) by { assert s[lo] == t[0]; }
    }
  }

  /** White space before and after a word is all `trim` removes: `Trim` is determined by its window. */
  lemma TrimOf(pre: string, w: string, post: string)
    requires AllSpace(pre) && AllSpace(post)
    requires w != [] ==> !IsSpace(w[0]) && !IsSpace(w[|w| - 1])
    ensures Trim(pre + w + post) == w
  {
    if w != [] {
      assert pre + w + post == pre + (w + post);
      TrimStartOf(pre, w + post);
      TrimEndOf(w, post);
    } else {
      assert AllSpace(pre + w + post);
      TrimEmptyIff(pre + w + post);
    }
  }

  lemma {:induction false} TrimStartOf(pre: string, t: string)
    requires AllSpace(pre) && (t == [] || !IsSpace(t[0]))
    ensures TrimStart(pre + t) == t
  {
    if pre != [] {
      assert (pre + t)[1..] == pre[1..] + t;
      TrimStartOf(pre[1..], t);
    } else {
      assert pre + t == t;
    }
  }

  lemma {:induction false} TrimEndOf(t: string, post: string)
    requires AllSpace(post) && (t == [] || !IsSpace(t[|t| - 1]))
    ensures TrimEnd(t + post) == t
  {
    if post != [] {
      assert (t + post)[..|t + post| - 1] == t + post[..|post| - 1];
      TrimEndOf(t, post[..|post| - 1]);
    } else {
      assert t + post == t;
    }
  }

  /** `s.startsWith(p)`. */
  predicate StartsWith(s: string, p: string) {
    |p| <= |s| && s[..|p|] == p
  }

  /** A text that differs from `p` at some position of `p` does not start with `p`. */
  lemma DiffersFrom(s: string, p: string, i: nat)
    requires i < |p| && i < |s| && s[i] != p[i]
    ensures !StartsWith(s, p)
  {
  }

  /** `s.substring(start)` for a non-negative `start`. */
  function Substring(s: string, start: nat): string {
    if start <= |s| then s[start..] else ""
  }

  /** `p` occurs somewhere in `t`. */
  predicate Contains(t: string, p: string) {
    exists k :: 0 <= k <= |t| && StartsWith(t[k..], p)
  }

  /** `parts.join(sep)`. */
  function Join(parts: seq<string>, sep: string): string {
    if parts == [] then ""
    else if |parts| == 1 then parts[0]
    else parts[0] + sep + Join(parts[1..], sep)
  }

  /**
   * `s.split(sep)` for a non-empty separator string: the text is cut at
   * each occurrence of `sep`, scanning from the left, so there is always
   * at least one piece.
   */
  function Split(s: string, sep: string): (r: seq<string>)
    requires sep != ""
    ensures |r| >= 1
    decreases |s|
  {
    if StartsWith(s, sep) then [""] + Split(s[|sep|..], sep)
    else if s == [] then [""]
    else
      var rest := Split(s[1..], sep);
      [[s[0]] + rest[0]] + rest[1..]
  }

  /** Joining the pieces of `s.split(sep)` with `sep` gives `s` back; the first piece is a prefix of `s`. */
  lemma {:induction false} SplitJoin(s: string, sep: string)
    requires sep != ""
    ensures Join(Split(s, sep), sep) == s && Split(s, sep)[0] <= s
    decreases |s|
  {
    if StartsWith(s, sep) {
      SplitJoin(s[|sep|..], sep);
      assert s == sep + s[|sep|..];
    } else if s != [] {
      var rest := Split(s[1..], sep);
      SplitJoin(s[1..], sep);
      JoinAfterFirst(rest, sep, s[0]);
    }
  }

  /** No piece of `s.split(sep)` contains `sep`. */
  lemma {:induction false} SplitPiecesFree(s: string, sep: string)
    requires sep != ""
    ensures forall i :: 0 <= i < |Split(s, sep)| ==> !Contains(Split(s, sep)[i], sep)
    decreases |s|
  {
    assert !Contains("", sep);
    if StartsWith(s, sep) {
      SplitPiecesFree(s[|sep|..], sep);
    } else if s != [] {
      var rest := Split(s[1..], sep);
      SplitPiecesFree(s[1..], sep);
      SplitJoin(s[1..], sep);
      NoSeparatorAtFront(s, sep, rest[0]);
    }
  }

  /**
   * When no separator starts inside the piece `a`, splitting `a + sep + rest`
   * yields `a` followed by the pieces of `rest`.
   */
  lemma {:induction false} SplitAfterPiece(a: string, sep: string, rest: string)
    requires sep != ""
    requires forall k :: 0 <= k < |a| ==> !StartsWith((a + sep + rest)[k..], sep)
    ensures Split(a + sep + rest, sep) == [a] + Split(rest, sep)
  {
    var s := a + sep + rest;
    if a == [] {
      assert s == sep + rest;
      assert s[|sep|..] == rest;
    } else {
      assert !StartsWith(s[0..], sep);
      assert s[0..] == s;
      assert s[1..] == a[1..] + sep + rest;
      forall k | 0 <= k < |a[1..]| ensures !StartsWith((a[1..] + sep + rest)[k..], sep) {
        assert (a[1..] + sep + rest)[k..] == s[k + 1..];
      }
      SplitAfterPiece(a[1..], sep, rest);
      assert [a[0]] + a[1..] == a;
    }
  }

  /** The text after the last separator is split no further when it holds no separator. */
  lemma {:induction false} SplitWithoutSeparator(s: string, sep: string)
    requires sep != ""
    requires forall k :: 0 <= k < |s| ==> !StartsWith(s[k..], sep)
    ensures Split(s, sep) == [s]
  {
    if s != [] {
      assert s[0..] == s;
      forall k | 0 <= k < |s[1..]| ensures !StartsWith(s[1..][k..], sep) {
        assert s[1..][k..] == s[k + 1..];
      }
      SplitWithoutSeparator(s[1..], sep);
      assert [s[0]] + s[1..] == s;
    }
  }

  /** Helper for `SplitPiecesFree`: a piece that starts where no separator starts holds none. */
  lemma NoSeparatorAtFront(s: string, sep: string, tail: string)
    requires sep != "" && s != [] && !StartsWith(s, sep)
    requires tail <= s[1..] && !Contains(tail, sep)
    ensures !Contains([s[0]] + tail, sep)
  {
    var first := [s[0]] + tail;
    assert first <= s;
    forall k | 0 <= k <= |first| ensures !StartsWith(first[k..], sep) {
      if k == 0 {
        if |sep| <= |first| {
          assert first[..|sep|] == s[..|sep|];
        }
      } else {
        assert first[k..] == tail[k - 1..];
      }
    }
  }

  /** Helper for `SplitJoin`: prepending a character to the first piece prepends it to the join. */
  lemma JoinAfterFirst(parts: seq<string>, sep: string, c: char)
    requires |parts| >= 1
    ensures Join([[c] + parts[0]] + parts[1..], sep) == [c] + Join(parts, sep)
  {
    var moved := [[c] + parts[0]] + parts[1..];
    assert moved[1..] == parts[1..];
  }

  /** `s.split('\n')`. */
  function Lines(s: string): seq<string> {
    Split(s, "\n")
  }

  /** A line without a line feed, followed by one, is the first line of the text. */
  lemma LinesAfterLine(line: string, rest: string)
    requires '\n' !in line
    ensures Lines(line + "\n" + rest) == [line] + Lines(rest)
  {
    var s := line + "\n" + rest;
    forall k | 0 <= k < |line| ensures !StartsWith(s[k..], "\n") {
      assert s[k..][0] == line[k];
    }
    SplitAfterPiece(line, "\n", rest);
  }

  /** Text without a line feed is a single line. */
  lemma LinesOfOneLine(line: string)
    requires '\n' !in line
    ensures Lines(line) == [line]
  {
    forall k | 0 <= k < |line| ensures !StartsWith(line[k..], "\n") {
      assert line[k..][0] == line[k];
    }
    SplitWithoutSeparator(line, "\n");
  }

  /** Lines each followed by a line feed, as a writer appending lines produces them. */
  function Terminated(ls: seq<string>): string {
    if ls == [] then "" else ls[0] + "\n" + Terminated(ls[1..])
  }

  /** Splitting line-feed-terminated lines gives the lines back, then the empty text after the last feed. */
  lemma {:induction false} LinesOfTerminated(ls: seq<string>)
    requires forall i :: 0 <= i < |ls| ==> '\n' !in ls[i]
    ensures Lines(Terminated(ls)) == ls + [""]
  {
    if ls == [] {
      LinesOfOneLine("");
    } else {
      LinesAfterLine(ls[0], Terminated(ls[1..]));
      LinesOfTerminated(ls[1..]);
      assert [ls[0]] + (ls[1..] + [""]) == ls + [""];
    }
  }

  /** `toUpperCase` on one character, for ASCII letters only. */
  function UpperChar(c: char): char {
    if 'a' <= c <= 'z' then (c as int - 32) as char else c
  }

  /** `s.toUpperCase()` under the ASCII restriction. */
  function Upper(s: string): (r: string)
    ensures |r| == |s|
  {
    seq(|s|, i requires 0 <= i < |s| => UpperChar(s[i]))
  }

  /** An ASCII upper-case word such as `SUCCESS`. */
  predicate IsUpperWord(w: string) {
    forall i :: 0 <= i < |w| ==> 'A' <= w[i] <= 'Z'
  }

  /** `s` spells `w` letter by letter, each letter in either case. */
  predicate SpellsIgnoringCase(s: string, w: string)
    requires IsUpperWord(w)
  {
    |s| == |w| && forall i :: 0 <= i < |s| ==> s[i] == w[i] || s[i] == (w[i] as int + 32) as char
  }

  /** Upper-casing `s` gives the word `w` exactly when `s` spells `w` in any mix of cases. */
  lemma UpperIsWordIff(s: string, w: string)
    requires IsUpperWord(w)
    ensures Upper(s) == w <==> SpellsIgnoringCase(s, w)
  {
    if Upper(s) == w {
      forall i | 0 <= i < |s| ensures s[i] == w[i] || s[i] == (w[i] as int + 32) as char {
        assert UpperChar(s[i]) == w[i];
      }
    }
    if SpellsIgnoringCase(s, w) {
      forall i | 0 <= i < |s| ensures Upper(s)[i] == w[i] {
        assert UpperChar(s[i]) == w[i];
      }
    }
  }
}
