/** The handful of Python string and regular-expression operations the
    scraper applies to captured text: whitespace, `str.strip`,
    `re.split(..., maxsplit=1)[0]`, `re.sub(r'\s+', ' ', ...)` and ASCII case
    mapping. */
module Text {

  /** A character Python counts as whitespace, both for `str.strip()` and for
      the `\s` class of a `str` pattern. */
  predicate IsSpace(c: char) {
    || c == ' '
    || '\t' <= c <= '\r'
    || '\U{1c}' <= c <= '\U{1f}'
    || c == '\U{85}' || c == '\U{a0}' || c == '\U{1680}'
    || '\U{2000}' <= c <= '\U{200a}'
    || c == '\U{2028}' || c == '\U{2029}' || c == '\U{202f}' || c == '\U{205f}' || c == '\U{3000}'
  }

  predicate IsAsciiUpper(c: char) { 'A' <= c <= 'Z' }
  predicate IsAsciiLower(c: char) { 'a' <= c <= 'z' }
  predicate IsAsciiLetter(c: char) { IsAsciiUpper(c) || IsAsciiLower(c) }
  predicate IsDigit(c: char) { '0' <= c <= '9' }

  /** The `\w` class, restricted to ASCII. */
  predicate IsWordChar(c: char) { IsAsciiLetter(c) || IsDigit(c) || c == '_' }

  /** Python's `str.isalpha()`, restricted to ASCII letters. */
  predicate IsAlpha(s: string) {
    |s| > 0 && forall i | 0 <= i < |s| :: IsAsciiLetter(s[i])
  }

  function ToUpper(c: char): (u: char)
    ensures IsAsciiLower(c) ==> IsAsciiUpper(u) && u as int == c as int - 32
    ensures !IsAsciiLower(c) ==> u == c
  {
    if IsAsciiLower(c) then (c as int - 32) as char else c
  }

  function ToLower(c: char): (l: char)
    ensures IsAsciiUpper(c) ==> IsAsciiLower(l) && l as int == c as int + 32
    ensures !IsAsciiUpper(c) ==> l == c
  {
    if IsAsciiUpper(c) then (c as int + 32) as char else c
  }

  /** `str.upper()`: every lower-case ASCII letter mapped to its capital. */
  function Upper(s: string): (r: string)
    ensures |r| == |s|
    ensures forall i | 0 <= i < |s| :: r[i] == ToUpper(s[i])
    ensures forall i | 0 <= i < |r| :: !IsAsciiLower(r[i])
  {
    if s == [] then [] else [ToUpper(s[0])] + Upper(s[1..])
  }

  /** `str.lower()`: every capital ASCII letter mapped to its lower case. */
  function Lower(s: string): (r: string)
    ensures |r| == |s|
    ensures forall i | 0 <= i < |s| :: r[i] == ToLower(s[i])
    ensures forall i | 0 <= i < |r| :: !IsAsciiUpper(r[i])
  {
    if s == [] then [] else [ToLower(s[0])] + Lower(s[1..])
  }

  /** `w` occurs in `s` starting at index `i`. */
  predicate WordAt(s: string, i: nat, w: string) {
    i + |w| <= |s| && s[i..i + |w|] == w
  }

  /** Python's `w in s`. */
  predicate Contains(s: string, w: string) {
    exists i | 0 <= i <= |s| :: WordAt(s, i, w)
  }

  /** `s` neither starts nor ends with whitespace. */
  predicate Trimmed(s: string) {
    s == [] || (!IsSpace(s[0]) && !IsSpace(s[|s| - 1]))
  }

  /** The length of the whitespace run `s` starts with. */
  function LeadingSpaces(s: string): (n: nat)
    ensures n <= |s|
    ensures forall k | 0 <= k < n :: IsSpace(s[k])
    ensures n < |s| ==> !IsSpace(s[n])
  {
    if s == [] || !IsSpace(s[0]) then 0 else 1 + LeadingSpaces(s[1..])
  }

  /** The length of the whitespace run `s` ends with. */
  function TrailingSpaces(s: string): (n: nat)
    ensures n <= |s|
    ensures forall k | |s| - n <= k < |s| :: IsSpace(s[k])
    ensures n < |s| ==> !IsSpace(s[|s| - 1 - n])
  {
    if s == [] || !IsSpace(s[|s| - 1]) then 0 else 1 + TrailingSpaces(s[..|s| - 1])
  }

  /** `str.strip()`: `s` without its leading and trailing whitespace. The
      result is the slice of `s` that starts after the leading run, and
      everything cut off on either side is whitespace. */
  function Strip(s: string): (r: string)
    ensures Trimmed(r)
    ensures LeadingSpaces(s) + |r| <= |s| && r == s[LeadingSpaces(s)..LeadingSpaces(s) + |r|]
    ensures forall k | LeadingSpaces(s) + |r| <= k < |s| :: IsSpace(s[k])
  {
    var t := s[LeadingSpaces(s)..];
    t[..|t| - TrailingSpaces(t)]
  }

  /** Stripping leaves nothing exactly when `s` is all whitespace. */
  lemma StripEmpty(s: string)
    ensures Strip(s) == [] <==> forall k | 0 <= k < |s| :: IsSpace(s[k])
  {
    if Strip(s) != [] {
      assert !IsSpace(s[LeadingSpaces(s)]);
    }
  }

  lemma StripOfTrimmed(s: string)
    requires Trimmed(s)
    ensures Strip(s) == s
  {
  }

  /** Stripping twice is stripping once. */
  lemma StripIdempotent(s: string)
    ensures Strip(Strip(s)) == Strip(s)
  {
    StripOfTrimmed(Strip(s));
  }

  // ---------------------------------------------------------------------------
  // re.split(pattern, s, maxsplit=1)[0]
  // ---------------------------------------------------------------------------

  /** A run of `n` (at least one) whitespace characters starts at `i`: the
      `\s{n,}` alternative of a boundary pattern. */
  predicate SpaceRunAt(s: string, i: nat, n: nat) {
    n > 0 && i + n <= |s| && forall k | i <= k < i + n :: IsSpace(s[k])
  }

  /** The pattern `w1|w2|...|\s{run,}` matches at index `i` of `s`; a `run`
      of 0 stands for a pattern without the whitespace alternative. */
  predicate BoundaryAt(s: string, i: nat, words: seq<string>, run: nat) {
    (exists w | w in words :: WordAt(s, i, w)) || SpaceRunAt(s, i, run)
  }

  /** The pattern matches nowhere in `s`. */
  predicate BoundaryFree(s: string, words: seq<string>, run: nat) {
    forall i | 0 <= i < |s| :: !BoundaryAt(s, i, words, run)
  }

  /** The leftmost index at or after `from` where the pattern matches, or
      `|s|` when there is none. */
  function BoundaryIndex(s: string, words: seq<string>, run: nat, from: nat): (k: nat)
    requires from <= |s|
    ensures from <= k <= |s|
    ensures k < |s| ==> BoundaryAt(s, k, words, run)
    ensures forall j | from <= j < k :: !BoundaryAt(s, j, words, run)
    decreases |s| - from
  {
    if from == |s| then |s|
    else if BoundaryAt(s, from, words, run) then from
    else BoundaryIndex(s, words, run, from + 1)
  }

  /** A match of the pattern inside the slice `s[a..b]` is a match in `s`. */
  lemma BoundaryInSlice(s: string, a: nat, b: nat, j: nat, words: seq<string>, run: nat)
    requires a <= b <= |s| && j < b - a
    requires BoundaryAt(s[a..b], j, words, run)
    ensures BoundaryAt(s, a + j, words, run)
  {
    var t := s[a..b];
    if w :| w in words && WordAt(t, j, w) {
      assert a + j + |w| <= b;
      forall k | 0 <= k < |w| ensures s[a + j..a + j + |w|][k] == w[k] {
        assert w[k] == t[j..j + |w|][k];
      }
      assert WordAt(s, a + j, w);
    } else {
      forall k | a + j <= k < a + j + run ensures IsSpace(s[k]) {
        assert s[k] == t[k - a];
      }
    }
  }

  /** A slice of a string the pattern never matches is never matched either. */
  lemma BoundaryFreeSlice(s: string, a: nat, b: nat, words: seq<string>, run: nat)
    requires a <= b <= |s|
    requires forall i | a <= i < b :: !BoundaryAt(s, i, words, run)
    ensures BoundaryFree(s[a..b], words, run)
  {
    forall j | 0 <= j < b - a ensures !BoundaryAt(s[a..b], j, words, run) {
      if BoundaryAt(s[a..b], j, words, run) {
        BoundaryInSlice(s, a, b, j, words, run);
      }
    }
  }

  /** `re.split(w1|...|\s{run,}, s, maxsplit=1)[0]`: the part of `s` before
      the leftmost match of the pattern, or all of `s` when it never matches. */
  function BeforeBoundary(s: string, words: seq<string>, run: nat): (r: string)
    ensures |r| <= |s| && r == s[..|r|]
    ensures |r| < |s| ==> BoundaryAt(s, |r|, words, run)
    ensures forall j | 0 <= j < |r| :: !BoundaryAt(s, j, words, run)
    ensures BoundaryFree(r, words, run)
  {
    var k := BoundaryIndex(s, words, run, 0);
    BoundaryFreeSlice(s, 0, k, words, run);
    s[..k]
  }

  /** Stripping a string the pattern never matches leaves one it never matches. */
  lemma StripKeepsBoundaryFree(s: string, words: seq<string>, run: nat)
    requires BoundaryFree(s, words, run)
    ensures BoundaryFree(Strip(s), words, run)
  {
    var a := LeadingSpaces(s);
    var r := Strip(s);
    forall i | a <= i < a + |r| ensures !BoundaryAt(s, i, words, run) {
    }
    BoundaryFreeSlice(s, a, a + |r|, words, run);
  }

  /** A string the pattern never matches contains none of its words and no
      run of `run` whitespace characters. */
  lemma BoundaryFreeMeans(s: string, words: seq<string>, run: nat)
    requires BoundaryFree(s, words, run)
    requires forall w | w in words :: w != []
    ensures forall w | w in words :: !Contains(s, w)
    ensures forall i | 0 <= i <= |s| :: !SpaceRunAt(s, i, run)
  {
    forall w | w in words ensures !Contains(s, w) {
      if i :| 0 <= i <= |s| && WordAt(s, i, w) {
        assert i < |s|;
        assert BoundaryAt(s, i, words, run);
      }
    }
    forall i | 0 <= i <= |s| ensures !SpaceRunAt(s, i, run) {
      if SpaceRunAt(s, i, run) {
        assert BoundaryAt(s, i, words, run);
      }
    }
  }

  /** In particular, any one word of the pattern occurs nowhere in it. */
  lemma BoundaryFreeExcludes(s: string, words: seq<string>, run: nat, w: string)
    requires BoundaryFree(s, words, run)
    requires w in words && w != []
    ensures !Contains(s, w)
  {
    if i :| 0 <= i <= |s| && WordAt(s, i, w) {
      assert i < |s|;
      assert BoundaryAt(s, i, words, run);
    }
  }

  // ---------------------------------------------------------------------------
  // re.sub(r'\s+', ' ', s)
  // ---------------------------------------------------------------------------

  /** Every whitespace character is a plain space and no two are adjacent. */
  predicate SingleSpaced(s: string) {
    && (forall i | 0 <= i < |s| :: IsSpace(s[i]) ==> s[i] == ' ')
    && (forall i | 0 <= i < |s| - 1 :: !(IsSpace(s[i]) && IsSpace(s[i + 1])))
  }

  /** `re.sub(r'\s+', ' ', s)`: every maximal whitespace run replaced by one
      space. */
  function Collapse(s: string): (r: string)
    ensures |r| <= |s|
    decreases |s|
  {
    if s == [] then []
    else if IsSpace(s[0]) then [' '] + Collapse(s[LeadingSpaces(s)..])
    else [s[0]] + Collapse(s[1..])
  }

  /** Collapsing leaves no whitespace but single plain spaces. */
  lemma {:induction false} CollapseSingleSpaced(s: string)
    ensures SingleSpaced(Collapse(s))
    decreases |s|
  {
    if s != [] {
      var n := CollapseSkip(s);
      var rest := s[n..];
      CollapseSingleSpaced(rest);
      CollapseEnds(rest);
      CollapseStep(s);
      var c, tail := Collapse(s), Collapse(rest);
      assert c == [c[0]] + tail;
      forall i | 0 <= i < |c| ensures IsSpace(c[i]) ==> c[i] == ' ' {
        if i > 0 { assert c[i] == tail[i - 1]; }
      }
      forall i | 0 <= i < |c| - 1 ensures !(IsSpace(c[i]) && IsSpace(c[i + 1])) {
        if i > 0 {
          assert c[i] == tail[i - 1] && c[i + 1] == tail[i];
        } else if IsSpace(s[0]) {
          assert !IsSpace(rest[0]);
        }
      }
    }
  }

  /** A collapsed string is empty only for an empty input, and starts and ends
      with whitespace exactly when the input does; so trimmed input gives
      trimmed output. */
  lemma {:induction false} CollapseEnds(s: string)
    ensures Collapse(s) == [] <==> s == []
    ensures Collapse(s) != [] ==> (IsSpace(Collapse(s)[0]) <==> IsSpace(s[0]))
    ensures Collapse(s) != [] ==> (IsSpace(Collapse(s)[|Collapse(s)| - 1]) <==> IsSpace(s[|s| - 1]))
    ensures Trimmed(s) ==> Trimmed(Collapse(s))
    decreases |s|
  {
    if s != [] {
      var n := CollapseSkip(s);
      var rest := s[n..];
      CollapseEnds(rest);
      CollapseStep(s);
      var c, tail := Collapse(s), Collapse(rest);
      assert c == [c[0]] + tail;
      if rest != [] {
        assert s[|s| - 1] == rest[|rest| - 1];
        assert c[|c| - 1] == tail[|tail| - 1];
      } else {
        assert n == |s|;
        assert IsSpace(s[0]) ==> IsSpace(s[|s| - 1]);
      }
    }
  }

  /** `s` with every whitespace character deleted. */
  function NoSpaces(s: string): (r: string)
    ensures |r| <= |s|
    ensures forall i | 0 <= i < |r| :: !IsSpace(r[i])
  {
    if s == [] then [] else (if IsSpace(s[0]) then [] else [s[0]]) + NoSpaces(s[1..])
  }

  /** Deleting whitespace ignores a leading whitespace run. */
  lemma {:induction false} NoSpacesSkip(s: string, k: nat)
    requires k <= |s| && forall i | 0 <= i < k :: IsSpace(s[i])
    ensures NoSpaces(s) == NoSpaces(s[k..])
  {
    if k > 0 {
      assert IsSpace(s[0]);
      assert s[1..][k - 1..] == s[k..];
      NoSpacesSkip(s[1..], k - 1);
    }
  }

  /** Collapsing changes whitespace only: the text between the runs is kept,
      in order. */
  lemma {:induction false} CollapseKeepsText(s: string)
    ensures NoSpaces(Collapse(s)) == NoSpaces(s)
    decreases |s|
  {
    if s != [] {
      var n := CollapseSkip(s);
      CollapseKeepsText(s[n..]);
      CollapseStep(s);
      var c := Collapse(s);
      assert c[1..] == Collapse(s[n..]);
      if IsSpace(s[0]) {
        NoSpacesSkip(s, n);
      } else {
        assert s[1..] == s[n..];
      }
    }
  }

  /** Text that is already single-spaced is left as it is. */
  lemma {:induction false} CollapseOfSingleSpaced(s: string)
    requires SingleSpaced(s)
    ensures Collapse(s) == s
    decreases |s|
  {
    if s != [] {
      var t := s[1..];
      assert SingleSpaced(t) by {
        forall i | 0 <= i < |t| ensures IsSpace(t[i]) ==> t[i] == ' ' {
          assert t[i] == s[i + 1];
        }
        forall i | 0 <= i < |t| - 1 ensures !(IsSpace(t[i]) && IsSpace(t[i + 1])) {
          assert t[i] == s[i + 1] && t[i + 1] == s[i + 2];
        }
      }
      CollapseOfSingleSpaced(t);
      if IsSpace(s[0]) {
        assert LeadingSpaces(s) == 1 by {
          if |s| > 1 { assert !IsSpace(s[1]); }
        }
      }
    }
  }

  /** A whitespace run between two non-whitespace characters becomes exactly
      one space, and the text on either side is collapsed on its own. */
  lemma CollapseJoin(a: string, ws: string, b: string)
    requires a != [] ==> !IsSpace(a[|a| - 1])
    requires ws != [] && forall i | 0 <= i < |ws| :: IsSpace(ws[i])
    requires b != [] ==> !IsSpace(b[0])
    ensures Collapse(a + ws + b) == Collapse(a) + " " + Collapse(b)
  {
    var t := ws + b;
    Regroup(a, ws, b);
    CollapseAppend(a, t);
    CollapseRunThen(ws, b);
    Regroup(Collapse(a), " ", Collapse(b));
  }

  /** Concatenation is associative. */
  lemma Regroup(x: string, y: string, z: string)
    ensures x + y + z == x + (y + z)
  {
  }

  /** Text that ends with no whitespace collapses independently of what
      follows it. */
  lemma {:induction false} CollapseAppend(a: string, t: string)
    requires a != [] ==> !IsSpace(a[|a| - 1])
    ensures Collapse(a + t) == Collapse(a) + Collapse(t)
    decreases |a|
  {
    if a == [] {
      assert a + t == t;
    } else {
      var n := CollapseSkip(a);
      var c := [if IsSpace(a[0]) then ' ' else a[0]];
      var rest := a[n..];
      CollapseFirstStep(a, t);
      assert rest != [] ==> rest[|rest| - 1] == a[|a| - 1];
      CollapseAppend(rest, t);
      assert c + (Collapse(rest) + Collapse(t)) == (c + Collapse(rest)) + Collapse(t);
    }
  }

  /** A whitespace run followed by text that starts with no whitespace
      collapses to one space. */
  lemma CollapseRunThen(ws: string, b: string)
    requires ws != [] && forall i | 0 <= i < |ws| :: IsSpace(ws[i])
    requires b != [] ==> !IsSpace(b[0])
    ensures Collapse(ws + b) == " " + Collapse(b)
  {
    var s := ws + b;
    LeadingSpacesAt(s, |ws|);
    assert s[|ws|..] == b;
    CollapseStep(s);
  }

  /** The first step of collapsing `a + t` is the first step on `a` when `a`
      ends with no whitespace. */
  lemma SkipOfPrefix(a: string, t: string)
    requires a != [] && !IsSpace(a[|a| - 1])
    ensures CollapseSkip(a) < |a| || !IsSpace(a[0])
    ensures CollapseSkip(a + t) == CollapseSkip(a)
    ensures (a + t)[0] == a[0]
  {
    if IsSpace(a[0]) {
      var n := LeadingSpaces(a);
      assert n < |a|;
      LeadingSpacesAt(a + t, n);
    }
  }

  /** When `a` ends with no whitespace, the first step of collapsing `a + t`
      is the first step on `a`. */
  lemma CollapseFirstStep(a: string, t: string)
    requires a != [] && !IsSpace(a[|a| - 1])
    ensures CollapseSkip(a) <= |a|
    ensures var n, c := CollapseSkip(a), [if IsSpace(a[0]) then ' ' else a[0]];
      && Collapse(a + t) == c + Collapse(a[n..] + t)
      && Collapse(a) == c + Collapse(a[n..])
  {
    var n := CollapseSkip(a);
    SkipOfPrefix(a, t);
    CollapseStep(a + t);
    assert (a + t)[n..] == a[n..] + t;
    CollapseStep(a);
  }

  /** The leading whitespace run is exactly the first `n` characters when
      they are whitespace and the next one is not. */
  lemma LeadingSpacesAt(s: string, n: nat)
    requires n <= |s| && forall i | 0 <= i < n :: IsSpace(s[i])
    requires n < |s| ==> !IsSpace(s[n])
    ensures LeadingSpaces(s) == n
  {
  }

  /** How many characters of `s` the first step of `Collapse` consumes. */
  function CollapseSkip(s: string): (n: nat)
    requires s != []
    ensures 1 <= n <= |s|
  {
    if IsSpace(s[0]) then LeadingSpaces(s) else 1
  }

  /** One step of `Collapse`: the first character (a space for a whitespace
      run) followed by the collapse of what remains. */
  lemma CollapseStep(s: string)
    requires s != []
    ensures Collapse(s) == [if IsSpace(s[0]) then ' ' else s[0]] + Collapse(s[CollapseSkip(s)..])
  {
  }

  /** Collapsing leaves a leading word free of whitespace as it is. */
  lemma {:induction false} CollapseKeepsWord(w: string, s: string)
    requires forall k | 0 <= k < |w| :: !IsSpace(w[k])
    ensures Collapse(w + s) == w + Collapse(s)
    decreases |w|
  {
    if w != [] {
      var ws := w + s;
      assert ws[0] == w[0] && !IsSpace(ws[0]);
      assert CollapseSkip(ws) == 1;
      CollapseStep(ws);
      assert ws[1..] == w[1..] + s;
      CollapseKeepsWord(w[1..], s);
      calc {
        Collapse(ws);
        [w[0]] + Collapse(w[1..] + s);
        [w[0]] + (w[1..] + Collapse(s));
        { assert w == [w[0]] + w[1..]; }
        w + Collapse(s);
      }
    } else {
      assert w + s == s;
    }
  }

  /** A word without whitespace found at the start of `Collapse(s)` is found at
      the start of `s`. */
  lemma {:induction false} CollapsePrefixWord(s: string, w: string)
    requires forall k | 0 <= k < |w| :: !IsSpace(w[k])
    requires WordAt(Collapse(s), 0, w)
    ensures WordAt(s, 0, w)
    decreases |w|
  {
    if w != [] {
      var c := Collapse(s);
      assert c[0] == w[0];
      CollapseStep(s);
      assert !IsSpace(s[0]);
      var tail := Collapse(s[1..]);
      assert c == [s[0]] + tail;
      assert WordAt(tail, 0, w[1..]) by {
        assert tail[0..|w| - 1] == c[1..|w|];
      }
      CollapsePrefixWord(s[1..], w[1..]);
      assert s[1..][0..|w| - 1] == s[1..|w|];
      assert s[0..|w|] == [s[0]] + s[1..|w|];
    }
  }

  /** Collapsing whitespace never creates a word that has no whitespace in it. */
  lemma {:induction false} CollapseCreatesNoWord(s: string, w: string, j: nat)
    requires w != [] && forall k | 0 <= k < |w| :: !IsSpace(w[k])
    requires WordAt(Collapse(s), j, w)
    ensures Contains(s, w)
    decreases |s|
  {
    if j == 0 {
      CollapsePrefixWord(s, w);
      assert WordAt(s, 0, w);
    } else {
      var n := CollapseShift(s, w, j);
      CollapseCreatesNoWord(s[n..], w, j - 1);
      ContainsInSuffix(s, n, w);
    }
  }

  /** A word past the first character of `Collapse(s)` sits one place earlier
      in the collapse of what follows the first step. */
  lemma CollapseShift(s: string, w: string, j: nat) returns (n: nat)
    requires j > 0 && WordAt(Collapse(s), j, w)
    ensures s != [] && n == CollapseSkip(s)
    ensures WordAt(Collapse(s[n..]), j - 1, w)
  {
    var c := Collapse(s);
    assert s != [];
    CollapseStep(s);
    n := CollapseSkip(s);
    var tail := Collapse(s[n..]);
    assert c == [c[0]] + tail;
    assert tail[j - 1..j - 1 + |w|] == c[j..j + |w|];
  }

  /** What a suffix contains, the whole string contains. */
  lemma ContainsInSuffix(s: string, n: nat, w: string)
    requires n <= |s| && Contains(s[n..], w)
    ensures Contains(s, w)
  {
    var rest := s[n..];
    var i :| 0 <= i <= |rest| && WordAt(rest, i, w);
    assert rest[i..i + |w|] == s[n + i..n + i + |w|];
    assert WordAt(s, n + i, w);
  }

  /** A word free of whitespace that `s` does not contain is not contained in
      `Collapse(s)` either. */
  lemma CollapseKeepsWordOut(s: string, w: string)
    requires w != [] && forall k | 0 <= k < |w| :: !IsSpace(w[k])
    requires !Contains(s, w)
    ensures !Contains(Collapse(s), w)
  {
    if j :| 0 <= j <= |Collapse(s)| && WordAt(Collapse(s), j, w) {
      CollapseCreatesNoWord(s, w, j);
    }
  }

  // ---------------------------------------------------------------------------
  // str.removesuffix
  // ---------------------------------------------------------------------------

  predicate EndsWith(s: string, suffix: string) {
    |suffix| <= |s| && s[|s| - |suffix|..] == suffix
  }

  /** `s.removesuffix(suffix)`: `s` without `suffix` if it ends with it. */
  function RemoveSuffix(s: string, suffix: string): (r: string)
    ensures EndsWith(s, suffix) ==> r + suffix == s
    ensures !EndsWith(s, suffix) ==> r == s
  {
    if EndsWith(s, suffix) then s[..|s| - |suffix|] else s
  }
}
