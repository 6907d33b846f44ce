/**
 * The string primitives the check-in widget relies on, as JavaScript defines
 * them: `String.prototype.trim`, lower-casing, `includes` and `Array.prototype.join`.
 * A JavaScript string is modelled as a `seq<char>`.
 */
module Text {

  /** The code points `trim` removes: ECMAScript WhiteSpace and LineTerminator. */
  predicate IsSpace(c: char) {
    c == '\t' || c == '\n' || c == '\U{000B}' || c == '\U{000C}' || c == '\r' || c == ' '
    || c == '\U{00A0}' || c == '\U{1680}' || ('\U{2000}' <= c <= '\U{200A}')
    || c == '\U{2028}' || c == '\U{2029}' || c == '\U{202F}' || c == '\U{205F}'
    || c == '\U{3000}' || c == '\U{FEFF}'
  }

  predicate AllSpace(s: string) {
    forall i :: 0 <= i < |s| ==> IsSpace(s[i])
  }

  /** Drops leading white space: the result is the longest suffix that does not start with a space. */
  function TrimStart(s: string): (r: string)
    ensures |r| <= |s| && r == s[|s| - |r|..]
    ensures forall k :: 0 <= k < |s| - |r| ==> IsSpace(s[k])
    ensures r == [] || !IsSpace(r[0])
  {
    if |s| > 0 && IsSpace(s[0]) then TrimStart(s[1..]) else s
  }

  /** Drops trailing white space: the result is the longest prefix that does not end with a space. */
  function TrimEnd(s: string): (r: string)
    ensures |r| <= |s| && r == s[..|r|]
    ensures forall k :: |r| <= k < |s| ==> IsSpace(s[k])
    ensures r == [] || !IsSpace(r[|r| - 1])
  {
    if |s| > 0 && IsSpace(s[|s| - 1]) then TrimEnd(s[..|s| - 1]) else s
  }

  /**
   * `r` is the slice of `s` starting at `i`, and everything in `s` before
   * and after that slice is white space.
   */
  ghost predicate SpaceAround(s: string, r: string, i: int)
  {
    0 <= i <= |s| - |r| && r == s[i..i + |r|]
    && (forall k :: 0 <= k < i ==> IsSpace(s[k]))
    && (forall k :: i + |r| <= k < |s| ==> IsSpace(s[k]))
  }

  /**
   * `s.trim()`: the result is the slice of `s` left between its leading and
   * its trailing white space; it neither starts nor ends with white space,
   * and it is empty exactly when `s` holds nothing but white space.
   */
  function Trim(s: string): (r: string)
    ensures |r| <= |s|
    ensures exists i :: SpaceAround(s, r, i)
    ensures r == [] || (!IsSpace(r[0]) && !IsSpace(r[|r| - 1]))
    ensures r == [] <==> AllSpace(s)
  {
    var front := TrimStart(s);
    var r := TrimEnd(front);
    TrimBothEnds(s, front, r);
    r
  }

  /**
   * Cutting leading white space off `s` (leaving `front`) and then trailing
   * white space off `front` (leaving `r`) leaves a slice of `s` with only
   * white space around it, and nothing exactly when `s` is all white space.
   */
  lemma TrimBothEnds(s: string, front: string, r: string)
    requires |front| <= |s| && front == s[|s| - |front|..]
    requires forall k :: 0 <= k < |s| - |front| ==> IsSpace(s[k])
    requires |r| <= |front| && r == front[..|r|]
    requires forall k :: |r| <= k < |front| ==> IsSpace(front[k])
    requires r == [] || !IsSpace(r[0])
    ensures SpaceAround(s, r, |s| - |front|)
    ensures r == [] <==> AllSpace(s)
  {
    var i := |s| - |front|;
    assert r == s[i..i + |r|];
    assert forall k :: i <= k < |s| ==> s[k] == front[k - i];
    if r != [] {
      assert s[i] == r[0];
    }
  }

  /** ASCII lower-casing of one character. */
  function LowerChar(c: char): (d: char)
    ensures 'A' <= c <= 'Z' ==> 'a' <= d <= 'z' && d as int - c as int == 32
    ensures !('A' <= c <= 'Z') ==> d == c
  {
    if 'A' <= c <= 'Z' then (c as int + 32) as char else c
  }

  /** `s.toLowerCase()` restricted to ASCII letters; every other character is kept. */
  function Lower(s: string): (r: string)
    ensures |r| == |s| && forall i :: 0 <= i < |s| ==> r[i] == LowerChar(s[i])
  {
    if s == [] then [] else [LowerChar(s[0])] + Lower(s[1..])
  }

  /** `w` occurs in `s` starting at position `i`. */
  ghost predicate OccursAt(s: string, w: string, i: nat)
    requires i <= |s|
  {
    w <= s[i..]
  }

  /** `s.includes(w)`: true exactly when `w` occurs somewhere in `s`. */
  function Includes(s: string, w: string): (b: bool)
    ensures b <==> exists i: nat :: i <= |s| && OccursAt(s, w, i)
  {
    if w <= s then
      assert OccursAt(s, w, 0);
      true
    else if |s| == 0 then
      false
    else
      var b := Includes(s[1..], w);
      assert b ==> exists i: nat :: i <= |s| && OccursAt(s, w, i) by {
        if b {
          var j: nat :| j <= |s[1..]| && OccursAt(s[1..], w, j);
          assert s[1..][j..] == s[j + 1..];
          assert OccursAt(s, w, j + 1);
        }
      }
      assert (exists i: nat :: i <= |s| && OccursAt(s, w, i)) ==> b by {
        if exists i: nat :: i <= |s| && OccursAt(s, w, i) {
          var i: nat :| i <= |s| && OccursAt(s, w, i);
          assert i != 0;
          assert s[1..][i - 1..] == s[i..];
          assert OccursAt(s[1..], w, i - 1);
        }
      }
      b
  }

  /** `parts.join(sep)`: the parts in order, with `sep` between neighbours only. */
  function Join(parts: seq<string>, sep: string): (r: string)
    ensures |parts| == 0 ==> r == ""
    ensures |parts| == 1 ==> r == parts[0]
    ensures |parts| >= 2 ==> r == parts[0] + sep + Join(parts[1..], sep)
    ensures |parts| >= 1 ==> parts[0] <= r
  {
    if |parts| == 0 then ""
    else if |parts| == 1 then parts[0]
    else parts[0] + sep + Join(parts[1..], sep)
  }

  /**
   * `join` builds its result left to right, appending the separator and then
   * the next part to what it has so far.
   */
  lemma {:induction false} JoinSnoc(parts: seq<string>, p: string, sep: string)
    requires parts != []
    ensures Join(parts + [p], sep) == Join(parts, sep) + sep + p
  {
    if |parts| == 1 {
      assert parts + [p] == [parts[0], p];
      assert [parts[0], p][1..] == [p];
    } else {
      assert (parts + [p])[1..] == parts[1..] + [p];
      JoinSnoc(parts[1..], p, sep);
    }
  }

  /** A nonempty word without white space. */
  predicate IsWord(w: string) {
    w != [] && forall i :: 0 <= i < |w| ==> !IsSpace(w[i])
  }

  /** Leading white space never hides or creates an occurrence of a word. */
  lemma {:induction false} IncludesTrimStart(s: string, w: string)
    requires IsWord(w)
    ensures Includes(TrimStart(s), w) == Includes(s, w)
  {
    if |s| > 0 && IsSpace(s[0]) {
      assert !(w <= s);
      IncludesTrimStart(s[1..], w);
    }
  }

  /** Appending one white-space character never creates an occurrence of a word. */
  lemma {:induction false} IncludesSpaceAppended(s: string, c: char, w: string)
    requires IsWord(w) && IsSpace(c)
    ensures Includes(s + [c], w) == Includes(s, w)
  {
    var t := s + [c];
    if |w| <= |s| {
      assert t[..|w|] == s[..|w|];
    } else if |w| == |t| {
      assert w[|w| - 1] != t[|w| - 1];
    }
    assert (w <= t) == (w <= s);
    if |s| > 0 {
      assert t[1..] == s[1..] + [c];
      IncludesSpaceAppended(s[1..], c, w);
    } else {
      assert !(w <= t);
    }
  }

  /** Trailing white space never hides or creates an occurrence of a word. */
  lemma {:induction false} IncludesTrimEnd(s: string, w: string)
    requires IsWord(w)
    ensures Includes(TrimEnd(s), w) == Includes(s, w)
  {
    if |s| > 0 && IsSpace(s[|s| - 1]) {
      assert s == s[..|s| - 1] + [s[|s| - 1]];
      IncludesSpaceAppended(s[..|s| - 1], s[|s| - 1], w);
      IncludesTrimEnd(s[..|s| - 1], w);
    }
  }

  /** Trimming never changes whether a word occurs. */
  lemma IncludesTrim(s: string, w: string)
    requires IsWord(w)
    ensures Includes(Trim(s), w) == Includes(s, w)
  {
    IncludesTrimStart(s, w);
    IncludesTrimEnd(TrimStart(s), w);
  }
}
