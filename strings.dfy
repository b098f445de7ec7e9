/** The string operations the widgets call, from JavaScript's String.prototype and Python's
    str, over ASCII text. A string is a sequence of characters. */
module Strings {

  /** The six ASCII whitespace characters that JavaScript's trim() and \s and Python's
      str.split() and \s all treat as whitespace. Python also counts \x1c-\x1f; those are not
      whitespace here. */
  predicate IsSpace(c: char) {
    c == ' ' || c == '\t' || c == '\n' || c == '\r' || c == '\U{0B}' || c == '\U{0C}'
  }

  /** The sentence terminators of both generators' patterns, the class [.!?]. */
  predicate IsSentenceEnd(c: char) {
    c == '.' || c == '!' || c == '?'
  }

  predicate IsLetter(c: char) {
    ('a' <= c <= 'z') || ('A' <= c <= 'Z')
  }

  function LowerChar(c: char): char {
    if 'A' <= c <= 'Z' then (c as int + 32) as char else c
  }

  /** JavaScript's toLowerCase() and Python's lower(). */
  function Lower(s: string): (r: string)
    ensures |r| == |s|
    ensures forall i :: 0 <= i < |s| ==> r[i] == LowerChar(s[i])
  {
    seq(|s|, i requires 0 <= i < |s| => LowerChar(s[i]))
  }

  /** Lower-casing twice is lower-casing once. */
  lemma LowerIdempotent(s: string)
    ensures Lower(Lower(s)) == Lower(s)
  {
  }

  /** Python's s.isalpha(): non-empty and made of letters only. */
  predicate IsAlpha(s: string) {
    |s| > 0 && forall i :: 0 <= i < |s| ==> IsLetter(s[i])
  }

  /** `pat` stands in `s` starting at index i. */
  ghost predicate OccursAt(s: string, pat: string, i: int) {
    0 <= i && i + |pat| <= |s| && s[i..i + |pat|] == pat
  }

  /** JavaScript's s.includes(pat) and Python's `pat in s`: some slice of `s` is `pat`. */
  function Contains(s: string, pat: string): (r: bool)
    ensures r <==> exists i :: OccursAt(s, pat, i)
    decreases |s|
  {
    if |pat| > |s| then false
    else if s[..|pat|] == pat then assert OccursAt(s, pat, 0); true
    else
      var rest := Contains(s[1..], pat);
      ContainsShift(s, pat);
      rest
  }

  /** An occurrence in s[1..] is an occurrence in s one place later, and an occurrence in s
      past index 0 is one in s[1..]. */
  lemma ContainsShift(s: string, pat: string)
    requires |s| > 0
    ensures (exists i :: OccursAt(s[1..], pat, i)) ==> exists i :: OccursAt(s, pat, i)
    ensures (exists i :: OccursAt(s, pat, i) && i > 0) ==> exists i :: OccursAt(s[1..], pat, i)
  {
    if i :| OccursAt(s[1..], pat, i) {
      assert s[i + 1..i + 1 + |pat|] == s[1..][i..i + |pat|];
      assert OccursAt(s, pat, i + 1);
    }
    if i :| OccursAt(s, pat, i) && i > 0 {
      assert s[1..][i - 1..i - 1 + |pat|] == s[i..i + |pat|];
      assert OccursAt(s[1..], pat, i - 1);
    }
  }

  /** Text placed around a pattern contains it. */
  lemma ContainsInfix(a: string, pat: string, b: string)
    ensures Contains(a + pat + b, pat)
  {
    assert (a + pat + b)[|a|..|a| + |pat|] == pat;
    assert OccursAt(a + pat + b, pat, |a|);
  }

  /** The end of the run of characters satisfying `inRun` that starts at index i. */
  function RunEnd(s: string, i: nat, inRun: char -> bool): (j: nat)
    requires i <= |s|
    ensures i <= j <= |s|
    ensures forall k :: i <= k < j ==> inRun(s[k])
    ensures j < |s| ==> !inRun(s[j])
    decreases |s| - i
  {
    if i == |s| || !inRun(s[i]) then i else RunEnd(s, i + 1, inRun)
  }

  /** The start of the run of characters satisfying `inRun` that ends just before index j and
      begins no earlier than `lo`. */
  function RunStart(s: string, lo: nat, j: nat, inRun: char -> bool): (i: nat)
    requires lo <= j <= |s|
    ensures lo <= i <= j
    ensures forall k :: i <= k < j ==> inRun(s[k])
    ensures i > lo ==> !inRun(s[i - 1])
    decreases j
  {
    if j == lo || !inRun(s[j - 1]) then j else RunStart(s, lo, j - 1, inRun)
  }

  /** Python's s.strip(chars) when `strip` tests membership in chars, and JavaScript's trim()
      when `strip` is IsSpace: the slice left once the longest run of stripped characters at
      each end is removed. */
  function StripBy(s: string, strip: char -> bool): (r: string)
    ensures exists i, j :: 0 <= i <= j <= |s| && r == s[i..j]
                        && (forall k :: 0 <= k < i ==> strip(s[k]))
                        && (forall k :: j <= k < |s| ==> strip(s[k]))
    ensures r == [] || (!strip(r[0]) && !strip(r[|r| - 1]))
  {
    var i := RunEnd(s, 0, strip);
    var j := RunStart(s, i, |s|, strip);
    s[i..j]
  }

  /** JavaScript's trim(). */
  function Trim(s: string): (r: string)
    ensures |r| <= |s|
    ensures r == [] || (!IsSpace(r[0]) && !IsSpace(r[|r| - 1]))
  {
    StripBy(s, IsSpace)
  }

  /** Removes every character satisfying `drop`: JavaScript's s.replace(/[...]/g, ''). */
  function RemoveAll(s: string, drop: char -> bool): (r: string)
    ensures |r| <= |s|
    ensures forall k :: 0 <= k < |r| ==> !drop(r[k])
    ensures (forall k :: 0 <= k < |s| ==> !drop(s[k])) ==> r == s
  {
    if s == [] then []
    else (if drop(s[0]) then [] else [s[0]]) + RemoveAll(s[1..], drop)
  }

  /** The pieces of a JavaScript split rejoined with the separator. */
  function Join(pieces: seq<string>, sep: char): string {
    if pieces == [] then []
    else if |pieces| == 1 then pieces[0]
    else pieces[0] + [sep] + Join(pieces[1..], sep)
  }

  /** JavaScript's s.split(sep) for a one-character separator: every piece between two
      separators, empty pieces included; rejoining the pieces gives `s` back. */
  function SplitOn(s: string, sep: char): (r: seq<string>)
    ensures |r| >= 1
    ensures forall k :: 0 <= k < |r| ==> sep !in r[k]
    ensures Join(r, sep) == s
    decreases |s|
  {
    var i := RunEnd(s, 0, c => c != sep);
    if i == |s| then [s]
    else
      var rest := SplitOn(s[i + 1..], sep);
      assert s == s[..i] + [sep] + s[i + 1..];
      [s[..i]] + rest
  }

  /** A word of Python's str.split(): non-empty, without whitespace. */
  predicate IsWord(w: string) {
    |w| > 0 && forall i :: 0 <= i < |w| ==> !IsSpace(w[i])
  }

  /** The characters of `s` that are not whitespace, in order. */
  function NonSpace(s: string): string {
    if s == [] then [] else (if IsSpace(s[0]) then [] else [s[0]]) + NonSpace(s[1..])
  }

  function Concat(ws: seq<string>): string {
    if ws == [] then [] else ws[0] + Concat(ws[1..])
  }

  /** Python's s.split() with no separator: the maximal runs of non-whitespace, in order. */
  function Words(s: string): (r: seq<string>)
    ensures forall k :: 0 <= k < |r| ==> IsWord(r[k])
    decreases |s|
  {
    if s == [] then []
    else if IsSpace(s[0]) then Words(s[1..])
    else
      var j := RunEnd(s, 0, c => !IsSpace(c));
      [s[..j]] + Words(s[j..])
  }

  lemma {:induction false} NonSpaceAppend(a: string, b: string)
    ensures NonSpace(a + b) == NonSpace(a) + NonSpace(b)
    decreases |a|
  {
    if a == [] {
      assert a + b == b;
    } else {
      assert (a + b)[0] == a[0] && (a + b)[1..] == a[1..] + b;
      NonSpaceAppend(a[1..], b);
    }
  }

  lemma {:induction false} NonSpaceOfWord(w: string)
    requires forall i :: 0 <= i < |w| ==> !IsSpace(w[i])
    ensures NonSpace(w) == w
    decreases |w|
  {
    if w != [] {
      NonSpaceOfWord(w[1..]);
    }
  }

  /** The words of `s`, put together, are the non-whitespace characters of `s`: splitting loses
      nothing but whitespace. */
  lemma {:induction false} WordsCoverText(s: string)
    ensures Concat(Words(s)) == NonSpace(s)
    decreases |s|
  {
    if s == [] {
    } else if IsSpace(s[0]) {
      WordsCoverText(s[1..]);
    } else {
      var j := RunEnd(s, 0, c => !IsSpace(c));
      WordsCoverText(s[j..]);
      assert s == s[..j] + s[j..];
      NonSpaceAppend(s[..j], s[j..]);
      NonSpaceOfWord(s[..j]);
      assert Words(s) == [s[..j]] + Words(s[j..]);
    }
  }
}
