/**
 * The three regular expressions of the query extractor, written as explicit scanners:
 *   - the course-code pattern `\b[A-Z]{2,6}\s*\d+[A-Z]?\b` with flags `gi`,
 *   - the course-number pattern `\b\d+[A-Z]?\b` with flag `g` (case-sensitive),
 *   - the per-prefix test `new RegExp('\\b' + prefix + '\\b', 'gi').test(prompt)`.
 * `\b` holds between a word character (`[A-Za-z0-9_]`) and a non-word character, the
 * ends of the string counting as non-word. Each pattern also has a declarative reading
 * (a predicate on the positions that split the match into its parts), and the scanners
 * are proved to return exactly the matches that reading admits.
 */
module Patterns {
  import opened Wrappers
  import opened Seqs
  import opened Text

  /** A word character at position i; positions outside s are not word characters. */
  predicate WordAt(s: string, i: int) {
    0 <= i < |s| && IsWordChar(s[i])
  }

  /** `\b` holds at position i. */
  predicate Boundary(s: string, i: int) {
    WordAt(s, i - 1) != WordAt(s, i)
  }

  /** Every character of s[i..j] is in class `cls`. */
  predicate AllIn(s: string, i: int, j: int, cls: char -> bool) {
    forall k :: i <= k < j ==> 0 <= k < |s| && cls(s[k])
  }

  // ---------------------------------------------------------------- course codes

  /**
   * `\b[A-Z]{2,6}\s*\d+[A-Z]?\b` (flag i) matches s[p..e] with its letters at s[p..a],
   * its whitespace at s[a..b], its digits at s[b..c] and, when e == c + 1, a final letter.
   */
  predicate CodeToken(s: string, p: int, a: int, b: int, c: int, e: int) {
    0 <= p && p + 2 <= a <= p + 6 && a <= b < c && (e == c || e == c + 1) && e <= |s|
    && Boundary(s, p) && AllIn(s, p, a, IsAsciiLetter) && AllIn(s, a, b, IsWhitespace)
    && AllIn(s, b, c, IsDigit) && (e == c + 1 ==> IsAsciiLetter(s[c])) && Boundary(s, e)
  }

  ghost predicate IsCodeMatch(s: string, p: int, e: int) {
    exists a, b, c :: CodeToken(s, p, a, b, c, e)
  }

  /**
   * The end of the match of the course-code pattern attempted at position p, if any.
   * Backtracking never helps: giving back a letter, a space or a digit leaves a letter,
   * a space or a digit where the next part (or `\b` between two word characters) fails,
   * so only the maximal runs can match.
   */
  function CodeMatchAt(s: string, p: nat): (r: Option<nat>)
  {
    if p < |s| && Boundary(s, p) then
      var a := RunEnd(s, p, IsAsciiLetter);
      if 2 <= a - p <= 6 then
        var b := RunEnd(s, a, IsWhitespace);
        var c := RunEnd(s, b, IsDigit);
        if b < c then
          if c < |s| && IsAsciiLetter(s[c]) && Boundary(s, c + 1) then Some(c + 1)
          else if Boundary(s, c) then Some(c)
          else None
        else None
      else None
    else None
  }

  lemma CodeMatchAtSound(s: string, p: nat, e: nat)
    requires CodeMatchAt(s, p) == Some(e)
    ensures p < e <= |s|
    ensures CodeToken(s, p, RunEnd(s, p, IsAsciiLetter), RunEnd(s, RunEnd(s, p, IsAsciiLetter), IsWhitespace),
                      RunEnd(s, RunEnd(s, RunEnd(s, p, IsAsciiLetter), IsWhitespace), IsDigit), e)
  {
  }

  /** Every match the declarative reading admits is the one the scanner finds at that position. */
  lemma CodeMatchAtComplete(s: string, p: nat, a: int, b: int, c: int, e: int)
    requires CodeToken(s, p, a, b, c, e)
    ensures CodeMatchAt(s, p) == Some(e)
  {
    assert !IsAsciiLetter(s[a]);
    RunEndAt(s, p, a, IsAsciiLetter);
    RunEndAt(s, a, b, IsWhitespace);
    if e == c {
      assert !WordAt(s, c);
    }
    RunEndAt(s, b, c, IsDigit);
  }

  // ---------------------------------------------------------------- course numbers

  /** `\b\d+[A-Z]?\b` (no i flag) matches s[p..e] with its digits at s[p..c]. */
  predicate NumberToken(s: string, p: int, c: int, e: int) {
    0 <= p < c && (e == c || e == c + 1) && e <= |s|
    && Boundary(s, p) && AllIn(s, p, c, IsDigit) && (e == c + 1 ==> IsAsciiUpper(s[c])) && Boundary(s, e)
  }

  ghost predicate IsNumberMatch(s: string, p: int, e: int) {
    exists c :: NumberToken(s, p, c, e)
  }

  /** The end of the match of the course-number pattern attempted at position p, if any. */
  function NumberMatchAt(s: string, p: nat): (r: Option<nat>)
  {
    if p < |s| && Boundary(s, p) then
      var c := RunEnd(s, p, IsDigit);
      if p < c then
        if c < |s| && IsAsciiUpper(s[c]) && Boundary(s, c + 1) then Some(c + 1)
        else if Boundary(s, c) then Some(c)
        else None
      else None
    else None
  }

  lemma NumberMatchAtSound(s: string, p: nat, e: nat)
    requires NumberMatchAt(s, p) == Some(e)
    ensures p < e <= |s|
    ensures NumberToken(s, p, RunEnd(s, p, IsDigit), e)
  {
  }

  lemma NumberMatchAtComplete(s: string, p: nat, c: int, e: int)
    requires NumberToken(s, p, c, e)
    ensures NumberMatchAt(s, p) == Some(e)
  {
    if e == c {
      assert !WordAt(s, c);
    }
    RunEndAt(s, p, c, IsDigit);
  }

  // ---------------------------------------------------------------- global matching

  /** A match attempted at p ends after p and inside s. */
  predicate Progressive(s: string, matchAt: (string, nat) -> Option<nat>) {
    forall p: nat :: p < |s| && matchAt(s, p).Some? ==> p < matchAt(s, p).value <= |s|
  }

  /** No match can start strictly inside another match. */
  ghost predicate NoStartInside(s: string, matchAt: (string, nat) -> Option<nat>) {
    forall q: nat, p: nat :: q < p < |s| && matchAt(s, q).Some? && p < matchAt(s, q).value ==> matchAt(s, p).None?
  }

  /**
   * The spans [p, e) of the matches `s.match(re)` returns for a global pattern, scanning
   * from `from`: after a match the scan resumes at its end, after a failed attempt one
   * position further on.
   */
  function Spans(s: string, from: nat, matchAt: (string, nat) -> Option<nat>): (r: seq<(nat, nat)>)
    requires Progressive(s, matchAt)
    ensures forall i :: 0 <= i < |r| ==> from <= r[i].0 < r[i].1 <= |s| && matchAt(s, r[i].0) == Some(r[i].1)
    decreases |s| - from
  {
    if from >= |s| then []
    else
      match matchAt(s, from)
      case Some(e) => [(from, e)] + Spans(s, e, matchAt)
      case None => Spans(s, from + 1, matchAt)
  }

  /** When matches cannot overlap, the global scan finds every match there is. */
  lemma {:induction false} SpansComplete(s: string, from: nat, matchAt: (string, nat) -> Option<nat>, p: nat)
    requires Progressive(s, matchAt) && NoStartInside(s, matchAt)
    requires from <= p < |s| && matchAt(s, p).Some?
    ensures (p, matchAt(s, p).value) in Spans(s, from, matchAt)
    decreases |s| - from
  {
    if from < p {
      match matchAt(s, from)
      case Some(e) =>
        assert e <= p;
        SpansComplete(s, e, matchAt, p);
      case None =>
        SpansComplete(s, from + 1, matchAt, p);
    }
  }

  lemma CodeProgressive(s: string)
    ensures Progressive(s, CodeMatchAt)
  {
    forall p: nat | p < |s| && CodeMatchAt(s, p).Some? ensures p < CodeMatchAt(s, p).value <= |s| {
      CodeMatchAtSound(s, p, CodeMatchAt(s, p).value);
    }
  }

  lemma NumberProgressive(s: string)
    ensures Progressive(s, NumberMatchAt)
  {
    forall p: nat | p < |s| && NumberMatchAt(s, p).Some? ensures p < NumberMatchAt(s, p).value <= |s| {
      NumberMatchAtSound(s, p, NumberMatchAt(s, p).value);
    }
  }

  /** A course code starts with a letter after a non-word character; inside a code only its spaces are
      non-word, and each is followed by a space or a digit. */
  lemma CodeNoStartInside(s: string)
    ensures NoStartInside(s, CodeMatchAt)
  {
    forall q: nat, p: nat | q < p < |s| && CodeMatchAt(s, q).Some? && p < CodeMatchAt(s, q).value
      ensures CodeMatchAt(s, p).None?
    {
      CodeMatchAtSound(s, q, CodeMatchAt(s, q).value);
      assert !(IsAsciiLetter(s[p]) && !WordAt(s, p - 1));
    }
  }

  /** Inside a number every character is a word character, so `\b` cannot hold there. */
  lemma NumberNoStartInside(s: string)
    ensures NoStartInside(s, NumberMatchAt)
  {
    forall q: nat, p: nat | q < p < |s| && NumberMatchAt(s, q).Some? && p < NumberMatchAt(s, q).value
      ensures NumberMatchAt(s, p).None?
    {
      NumberMatchAtSound(s, q, NumberMatchAt(s, q).value);
      assert WordAt(s, p - 1) && WordAt(s, p);
    }
  }

  /** The matched texts s[p..e] of a list of spans. */
  function Slices(s: string, spans: seq<(nat, nat)>): (r: seq<string>)
    requires forall i :: 0 <= i < |spans| ==> spans[i].0 <= spans[i].1 <= |s|
    ensures |r| == |spans|
    ensures forall i :: 0 <= i < |spans| ==> r[i] == s[spans[i].0..spans[i].1]
    decreases |spans|
  {
    if spans == [] then [] else Slices(s, spans[..|spans| - 1]) + [s[spans[|spans| - 1].0..spans[|spans| - 1].1]]
  }

  /** `prompt.match(/\b[A-Z]{2,6}\s*\d+[A-Z]?\b/gi)`, an empty list standing for `null`. */
  function CodeMatches(s: string): seq<string> {
    CodeProgressive(s);
    Slices(s, Spans(s, 0, CodeMatchAt))
  }

  /** `prompt.match(/\b\d+[A-Z]?\b/g)`, an empty list standing for `null`. */
  function NumberMatches(s: string): seq<string> {
    NumberProgressive(s);
    Slices(s, Spans(s, 0, NumberMatchAt))
  }

  /** Every course-code match is a text the pattern admits. */
  lemma CodeMatchesSound(s: string, t: string)
    requires t in CodeMatches(s)
    ensures exists p: nat, e: nat :: IsCodeMatch(s, p, e) && t == s[p..e]
  {
    CodeProgressive(s);
    var spans := Spans(s, 0, CodeMatchAt);
    var i :| 0 <= i < |spans| && t == s[spans[i].0..spans[i].1];
    var p, e := spans[i].0, spans[i].1;
    CodeMatchAtSound(s, p, e);
    assert IsCodeMatch(s, p, e);
  }

  /** Every text the course-code pattern admits is among the matches. */
  lemma CodeMatchesComplete(s: string, p: nat, a: int, b: int, c: int, e: int)
    requires CodeToken(s, p, a, b, c, e)
    ensures s[p..e] in CodeMatches(s)
  {
    CodeProgressive(s);
    var spans := Spans(s, 0, CodeMatchAt);
    CodeMatchAtComplete(s, p, a, b, c, e);
    CodeNoStartInside(s);
    SpansComplete(s, 0, CodeMatchAt, p);
    var i :| 0 <= i < |spans| && spans[i] == (p, e);
    assert CodeMatches(s)[i] == s[p..e];
  }

  /** Every course-number match is a text the pattern admits. */
  lemma NumberMatchesSound(s: string, t: string)
    requires t in NumberMatches(s)
    ensures exists p: nat, e: nat :: IsNumberMatch(s, p, e) && t == s[p..e]
  {
    NumberProgressive(s);
    var spans := Spans(s, 0, NumberMatchAt);
    var i :| 0 <= i < |spans| && t == s[spans[i].0..spans[i].1];
    var p, e := spans[i].0, spans[i].1;
    NumberMatchAtSound(s, p, e);
    assert IsNumberMatch(s, p, e);
  }

  /** Every text the course-number pattern admits is among the matches. */
  lemma NumberMatchesComplete(s: string, p: nat, c: int, e: int)
    requires NumberToken(s, p, c, e)
    ensures s[p..e] in NumberMatches(s)
  {
    NumberProgressive(s);
    var spans := Spans(s, 0, NumberMatchAt);
    NumberMatchAtComplete(s, p, c, e);
    NumberNoStartInside(s);
    SpansComplete(s, 0, NumberMatchAt, p);
    var i :| 0 <= i < |spans| && spans[i] == (p, e);
    assert NumberMatches(s)[i] == s[p..e];
  }

  // ---------------------------------------------------------------- whole-word test

  /** `\b<w>\b` (flag i) matches s at position p; w is read literally (the prefix keys are letters only). */
  predicate WordMatchAt(s: string, w: string, p: int) {
    0 <= p && p + |w| <= |s| && Boundary(s, p) && Lower(s[p..p + |w|]) == Lower(w) && Boundary(s, p + |w|)
  }

  /** `new RegExp('\\b' + w + '\\b', 'gi').test(s)`, trying the positions from `from` on. */
  function WordTest(s: string, w: string, from: nat): bool
    decreases |s| + 1 - from
  {
    if from > |s| then false else WordMatchAt(s, w, from) || WordTest(s, w, from + 1)
  }

  /** The test succeeds exactly when `w` occurs as a whole word (ignoring ASCII case) at or after `from`. */
  lemma {:induction false} WordTestExactly(s: string, w: string, from: nat)
    ensures WordTest(s, w, from) <==> exists p: int :: from <= p && WordMatchAt(s, w, p)
    decreases |s| + 1 - from
  {
    if from <= |s| {
      WordTestExactly(s, w, from + 1);
      if exists p: int :: from <= p && WordMatchAt(s, w, p) {
        var p: int :| from <= p && WordMatchAt(s, w, p);
        assert p == from || from + 1 <= p;
      }
    }
  }
}
