/**
 * The JavaScript string operations the search route relies on: character classes of
 * its regular expressions, `toLowerCase`, `includes`, `endsWith`, `replace(/\s+/g, …)`,
 * `trim` and `split(' ')[0]`. A string is a sequence of characters.
 */
module Text {

  predicate IsAsciiUpper(c: char) { 'A' <= c <= 'Z' }

  predicate IsAsciiLower(c: char) { 'a' <= c <= 'z' }

  /** `[A-Za-z]`; also what `[A-Z]` matches under the `i` flag (non-Unicode mode folds only ASCII onto ASCII). */
  predicate IsAsciiLetter(c: char) { IsAsciiUpper(c) || IsAsciiLower(c) }

  /** `\d` */
  predicate IsDigit(c: char) { '0' <= c <= '9' }

  /** `[a-zA-Z0-9]` */
  predicate IsAsciiAlnum(c: char) { IsAsciiLetter(c) || IsDigit(c) }

  /** `\w`, the characters that decide where `\b` holds. */
  predicate IsWordChar(c: char) { IsAsciiAlnum(c) || c == '_' }

  /** `\s`, and what `trim` strips: the WhiteSpace and LineTerminator characters of ECMAScript. */
  predicate IsWhitespace(c: char) {
    c == '\t' || c == '\n' || c == '\U{0B}' || c == '\U{0C}' || c == '\r' || c == ' '
    || c == '\U{A0}' || c == '\U{1680}' || ('\U{2000}' <= c <= '\U{200A}')
    || c == '\U{2028}' || c == '\U{2029}' || c == '\U{202F}' || c == '\U{205F}'
    || c == '\U{3000}' || c == '\U{FEFF}'
  }

  /** `toLowerCase` on one character, for the ASCII range. */
  function LowerChar(c: char): (r: char)
    ensures IsAsciiUpper(c) ==> IsAsciiLower(r) && r as int == c as int + 32
    ensures !IsAsciiUpper(c) ==> r == c
  {
    if IsAsciiUpper(c) then (c as int + 32) as char else c
  }

  /** `s.toLowerCase()` for ASCII upper case letters; every other character is kept. */
  function Lower(s: string): (r: string)
    ensures |r| == |s|
    ensures forall i :: 0 <= i < |s| ==> r[i] == LowerChar(s[i])
    decreases |s|
  {
    if s == [] then [] else Lower(s[..|s| - 1]) + [LowerChar(s[|s| - 1])]
  }

  /** `hay.includes(needle)` */
  predicate Includes(hay: string, needle: string) {
    exists i :: 0 <= i <= |hay| && needle <= hay[i..]
  }

  /** `hay.endsWith(suffix)` */
  predicate EndsWith(hay: string, suffix: string) {
    |suffix| <= |hay| && hay[|hay| - |suffix|..] == suffix
  }

  predicate NoWhitespace(s: string) {
    forall i :: 0 <= i < |s| ==> !IsWhitespace(s[i])
  }

  /** Every whitespace character is a plain space, and no two whitespace characters are adjacent. */
  predicate SingleSpaced(s: string) {
    (forall i :: 0 <= i < |s| && IsWhitespace(s[i]) ==> s[i] == ' ')
    && (forall i :: 0 <= i < |s| - 1 && IsWhitespace(s[i]) ==> !IsWhitespace(s[i + 1]))
  }

  /** Neither the first nor the last character is whitespace. */
  predicate Trimmed(s: string) {
    s == [] || (!IsWhitespace(s[0]) && !IsWhitespace(s[|s| - 1]))
  }

  /** The end of the run of characters of class `cls` that starts at `i`. */
  function RunEnd(s: string, i: nat, cls: char -> bool): (j: nat)
    requires i <= |s|
    ensures i <= j <= |s|
    ensures forall k :: i <= k < j ==> cls(s[k])
    ensures j == |s| || !cls(s[j])
    decreases |s| - i
  {
    if i < |s| && cls(s[i]) then RunEnd(s, i + 1, cls) else i
  }

  /** A run that ends where the class stops is the one `RunEnd` finds. */
  lemma {:induction false} RunEndAt(s: string, i: nat, j: nat, cls: char -> bool)
    requires i <= j <= |s|
    requires forall k :: i <= k < j ==> cls(s[k])
    requires j == |s| || !cls(s[j])
    ensures RunEnd(s, i, cls) == j
    decreases j - i
  {
    if i < j {
      RunEndAt(s, i + 1, j, cls);
    }
  }

  /** `s.replace(/\s+/g, rep)`: every maximal run of whitespace becomes `rep`. */
  function ReplaceWhitespaceRuns(s: string, rep: string): string
    decreases |s|
  {
    if s == [] then []
    else if IsWhitespace(s[0]) then rep + ReplaceWhitespaceRuns(s[RunEnd(s, 0, IsWhitespace)..], rep)
    else [s[0]] + ReplaceWhitespaceRuns(s[1..], rep)
  }

  /** The characters of `s` that are not whitespace, in order. */
  function DropWhitespace(s: string): (r: string)
    ensures NoWhitespace(r)
    decreases |s|
  {
    if s == [] then []
    else if IsWhitespace(s[0]) then DropWhitespace(s[1..])
    else [s[0]] + DropWhitespace(s[1..])
  }

  /** `s.trim()` */
  function Trim(s: string): string {
    TrimEnd(s[RunEnd(s, 0, IsWhitespace)..])
  }

  function TrimEnd(s: string): (r: string)
    ensures r <= s
    ensures r == [] || !IsWhitespace(r[|r| - 1])
    ensures forall k :: |r| <= k < |s| ==> IsWhitespace(s[k])
    decreases |s|
  {
    if s != [] && IsWhitespace(s[|s| - 1]) then TrimEnd(s[..|s| - 1]) else s
  }

  /** `s.split(' ')[0]`: everything before the first plain space. */
  function BeforeFirstSpace(s: string): (r: string)
    ensures r <= s
    ensures ' ' !in r
    ensures |r| < |s| ==> s[|r|] == ' '
    decreases |s|
  {
    if s == [] || s[0] == ' ' then [] else [s[0]] + BeforeFirstSpace(s[1..])
  }

  lemma {:induction false} DropWhitespaceAppend(s: string, t: string)
    ensures DropWhitespace(s + t) == DropWhitespace(s) + DropWhitespace(t)
    decreases |s|
  {
    if s == [] {
      assert s + t == t;
    } else {
      DropWhitespaceAppend(s[1..], t);
      assert (s + t)[1..] == s[1..] + t;
    }
  }

  lemma {:induction false} DropWhitespaceOfWhitespace(s: string)
    requires forall k :: 0 <= k < |s| ==> IsWhitespace(s[k])
    ensures DropWhitespace(s) == []
    decreases |s|
  {
    if s != [] {
      DropWhitespaceOfWhitespace(s[1..]);
    }
  }

  lemma DropWhitespaceOfSpace()
    ensures DropWhitespace(" ") == []
  {
    DropWhitespaceOfWhitespace(" ");
  }

  /** Replacing the runs by nothing (the no-space variant) is dropping all whitespace. */
  lemma {:induction false} ReplaceByNothingDropsWhitespace(s: string)
    ensures ReplaceWhitespaceRuns(s, "") == DropWhitespace(s)
    decreases |s|
  {
    if s != [] {
      if IsWhitespace(s[0]) {
        var j := RunEnd(s, 0, IsWhitespace);
        ReplaceByNothingDropsWhitespace(s[j..]);
        DropWhitespaceOfWhitespace(s[..j]);
        DropWhitespaceAppend(s[..j], s[j..]);
        assert s == s[..j] + s[j..];
        assert "" + ReplaceWhitespaceRuns(s[j..], "") == ReplaceWhitespaceRuns(s[j..], "");
      } else {
        ReplaceByNothingDropsWhitespace(s[1..]);
      }
    }
  }

  /** Replacing whitespace runs by a string free of whitespace leaves no whitespace at all. */
  lemma {:induction false} ReplaceRemovesWhitespace(s: string, rep: string)
    requires NoWhitespace(rep)
    ensures NoWhitespace(ReplaceWhitespaceRuns(s, rep))
    decreases |s|
  {
    if s != [] {
      if IsWhitespace(s[0]) {
        ReplaceRemovesWhitespace(s[RunEnd(s, 0, IsWhitespace)..], rep);
      } else {
        ReplaceRemovesWhitespace(s[1..], rep);
      }
    }
  }

  /** The result of a replacement starts with the first character of the input when that is not whitespace. */
  lemma ReplaceKeepsHead(s: string, rep: string)
    requires s != [] && !IsWhitespace(s[0])
    ensures ReplaceWhitespaceRuns(s, rep) == [s[0]] + ReplaceWhitespaceRuns(s[1..], rep)
  {
  }

  /** Collapsing every whitespace run to one space gives a single-spaced string. */
  lemma {:induction false} CollapseSingleSpaced(s: string)
    ensures SingleSpaced(ReplaceWhitespaceRuns(s, " "))
    decreases |s|
  {
    if s != [] {
      var r := ReplaceWhitespaceRuns(s, " ");
      if IsWhitespace(s[0]) {
        var j := RunEnd(s, 0, IsWhitespace);
        var rest := ReplaceWhitespaceRuns(s[j..], " ");
        CollapseSingleSpaced(s[j..]);
        assert r == " " + rest;
        if rest != [] {
          assert s[j..] != [] && !IsWhitespace(s[j..][0]);
          ReplaceKeepsHead(s[j..], " ");
          assert !IsWhitespace(rest[0]);
        }
        forall i | 0 <= i < |r| - 1 && IsWhitespace(r[i]) ensures !IsWhitespace(r[i + 1]) {
          if i > 0 {
            assert r[i] == rest[i - 1] && r[i + 1] == rest[i];
          }
        }
        forall i | 0 <= i < |r| && IsWhitespace(r[i]) ensures r[i] == ' ' {
          if i > 0 {
            assert r[i] == rest[i - 1];
          }
        }
      } else {
        var rest := ReplaceWhitespaceRuns(s[1..], " ");
        CollapseSingleSpaced(s[1..]);
        assert r == [s[0]] + rest;
        forall i | 0 <= i < |r| - 1 && IsWhitespace(r[i]) ensures !IsWhitespace(r[i + 1]) {
          assert i > 0;
          assert r[i] == rest[i - 1] && r[i + 1] == rest[i];
        }
        forall i | 0 <= i < |r| && IsWhitespace(r[i]) ensures r[i] == ' ' {
          assert r[i] == rest[i - 1];
        }
      }
    }
  }

  /** Collapsing whitespace runs keeps every other character, in order. */
  lemma {:induction false} CollapseKeepsText(s: string)
    ensures DropWhitespace(ReplaceWhitespaceRuns(s, " ")) == DropWhitespace(s)
    decreases |s|
  {
    if s != [] {
      if IsWhitespace(s[0]) {
        var j := RunEnd(s, 0, IsWhitespace);
        var rest := ReplaceWhitespaceRuns(s[j..], " ");
        CollapseKeepsText(s[j..]);
        DropWhitespaceOfSpace();
        DropWhitespaceAppend(" ", rest);
        DropWhitespaceOfWhitespace(s[..j]);
        DropWhitespaceAppend(s[..j], s[j..]);
        assert s == s[..j] + s[j..];
      } else {
        CollapseKeepsText(s[1..]);
      }
    }
  }

  /** A replacement leaves text without whitespace in front of the rest unchanged. */
  lemma {:induction false} ReplaceAfterText(x: string, t: string, rep: string)
    requires NoWhitespace(x)
    ensures ReplaceWhitespaceRuns(x + t, rep) == x + ReplaceWhitespaceRuns(t, rep)
    decreases |x|
  {
    if x != [] {
      var s := x + t;
      assert s[1..] == x[1..] + t;
      ReplaceAfterText(x[1..], t, rep);
    } else {
      assert x + t == t;
    }
  }

  /** A whole run of whitespace in front of non-whitespace text (or the end) becomes one `rep`. */
  lemma ReplaceRun(w: string, t: string, rep: string)
    requires w != [] && forall k :: 0 <= k < |w| ==> IsWhitespace(w[k])
    requires t == [] || !IsWhitespace(t[0])
    ensures ReplaceWhitespaceRuns(w + t, rep) == rep + ReplaceWhitespaceRuns(t, rep)
  {
    var s := w + t;
    RunEndAt(s, 0, |w|, IsWhitespace);
    assert s[|w|..] == t;
  }

  /**
   * `x + w + y` with `w` a run of whitespace between text without whitespace: the run
   * becomes exactly one `rep`, and the text on either side is kept.
   */
  lemma ReplaceOneRun(x: string, w: string, y: string, rep: string)
    requires NoWhitespace(x) && NoWhitespace(y)
    requires w != [] && forall k :: 0 <= k < |w| ==> IsWhitespace(w[k])
    ensures ReplaceWhitespaceRuns(x + w + y, rep) == x + rep + y
  {
    ReplaceAfterText(x, w + y, rep);
    ReplaceRun(w, y, rep);
    ReplaceAfterText(y, [], rep);
    assert x + w + y == x + (w + y) && y + [] == y;
  }

  /**
   * `(x + w + y).replace(/\s+/g, ' ').trim()` for non-empty text `x` and `y` without whitespace
   * around a (possibly empty) whitespace run `w`: one space stands where the run was.
   */
  lemma CollapseAndTrim(x: string, w: string, y: string)
    requires x != [] && y != [] && NoWhitespace(x) && NoWhitespace(y)
    requires forall k :: 0 <= k < |w| ==> IsWhitespace(w[k])
    ensures Trim(ReplaceWhitespaceRuns(x + w + y, " ")) == x + (if w != [] then " " else "") + y
  {
    var n := x + (if w != [] then " " else "") + y;
    if w != [] {
      ReplaceOneRun(x, w, y, " ");
    } else {
      assert x + w + y == (x + y) + [];
      assert NoWhitespace(x + y);
      ReplaceAfterText(x + y, [], " ");
    }
    assert n[0] == x[0] && n[|n| - 1] == y[|y| - 1];
    TrimOfTrimmed(n);
  }

  /** `split(' ')[0]` of text without a space, followed by a space or nothing, is that text. */
  lemma {:induction false} BeforeFirstSpaceOf(x: string, y: string)
    requires ' ' !in x
    requires y == [] || y[0] == ' '
    ensures BeforeFirstSpace(x + y) == x
    decreases |x|
  {
    if x != [] {
      assert (x + y)[1..] == x[1..] + y;
      BeforeFirstSpaceOf(x[1..], y);
    } else {
      assert x + y == y;
    }
  }

  /** `split(' ')[0]` of two texts without whitespace, joined by a space or by nothing. */
  lemma BeforeSpaceJoined(x: string, spaced: bool, y: string)
    requires NoWhitespace(x) && NoWhitespace(y)
    ensures BeforeFirstSpace(x + (if spaced then " " else "") + y) == if spaced then x else x + y
  {
    assert ' ' !in x by {
      forall k | 0 <= k < |x| ensures x[k] != ' ' { assert !IsWhitespace(x[k]); }
    }
    if spaced {
      assert x + " " + y == x + (" " + y);
      BeforeFirstSpaceOf(x, " " + y);
    } else {
      assert ' ' !in y by {
        forall k | 0 <= k < |y| ensures y[k] != ' ' { assert !IsWhitespace(y[k]); }
      }
      assert ' ' !in x + y;
      assert x + "" + y == (x + y) + [];
      BeforeFirstSpaceOf(x + y, []);
    }
  }

  /** A string without whitespace at either end is its own `trim`. */
  lemma TrimOfTrimmed(s: string)
    requires Trimmed(s)
    ensures Trim(s) == s
  {
    RunEndAt(s, 0, 0, IsWhitespace);
    assert s[0..] == s;
  }

  /** `trim` keeps a contiguous slice with no whitespace at either end, and drops only whitespace. */
  lemma TrimSlice(s: string) returns (i: nat, j: nat)
    ensures i <= j <= |s| && Trim(s) == s[i..j]
    ensures Trimmed(Trim(s))
    ensures forall k :: 0 <= k < i ==> IsWhitespace(s[k])
    ensures forall k :: j <= k < |s| ==> IsWhitespace(s[k])
  {
    i := RunEnd(s, 0, IsWhitespace);
    var t := TrimEnd(s[i..]);
    j := i + |t|;
    assert t == s[i..j];
    if t != [] {
      assert t[0] == s[i];
    }
  }

  /** A slice of a single-spaced string is single-spaced. */
  lemma SingleSpacedSlice(s: string, i: nat, j: nat)
    requires i <= j <= |s| && SingleSpaced(s)
    ensures SingleSpaced(s[i..j])
  {
    var t := s[i..j];
    forall k | 0 <= k < |t| - 1 && IsWhitespace(t[k]) ensures !IsWhitespace(t[k + 1]) {
      assert t[k] == s[i + k] && t[k + 1] == s[i + k + 1];
    }
  }

  /** Trimming drops nothing but whitespace. */
  lemma TrimKeepsText(s: string)
    ensures DropWhitespace(Trim(s)) == DropWhitespace(s)
  {
    var i, j := TrimSlice(s);
    assert s == s[..i] + s[i..j] + s[j..];
    DropWhitespaceAppend(s[..i] + s[i..j], s[j..]);
    DropWhitespaceAppend(s[..i], s[i..j]);
    DropWhitespaceOfWhitespace(s[..i]);
    DropWhitespaceOfWhitespace(s[j..]);
  }
}
