/**
 * `escapeHtml`: five `replaceAll` passes, for `&`, `<`, `>`, `"` and `'`,
 * in that order. Because `&` goes first, the entities the later passes
 * insert are not escaped a second time.
 */
module Escape {

  /** The five characters the escaper rewrites. */
  predicate IsSpecial(c: char) {
    c == '&' || c == '<' || c == '>' || c == '"' || c == '\''
  }

  /** `s.replaceAll(c, rep)` for a one-character pattern `c`. */
  function ReplaceAll(s: string, c: char, rep: string): (r: string)
    ensures c !in s ==> r == s
    ensures c !in rep ==> c !in r
    ensures forall x :: x in r ==> (x in s && x != c) || x in rep
    ensures forall x :: x in s && x != c ==> x in r
  {
    if s == [] then [] else (if s[0] == c then rep else [s[0]]) + ReplaceAll(s[1..], c, rep)
  }

  /** The five `replaceAll` passes of `escapeHtml`, in the order they run. */
  const EscapePasses: seq<(char, string)> :=
    [('&', "&amp;"), ('<', "&lt;"), ('>', "&gt;"), ('"', "&quot;"), ('\'', "&#039;")]

  /** Runs the passes `ps` one after the other, each on the output of the previous one. */
  function ReplaceEach(s: string, ps: seq<(char, string)>): string
    decreases |ps|
  {
    if ps == [] then s else ReplaceEach(ReplaceAll(s, ps[0].0, ps[0].1), ps[1..])
  }

  /** The entity one character becomes; every other character is kept. */
  function EscapeChar(c: char): string {
    if c == '&' then "&amp;"
    else if c == '<' then "&lt;"
    else if c == '>' then "&gt;"
    else if c == '"' then "&quot;"
    else if c == '\'' then "&#039;"
    else [c]
  }

  /** Escaping one character at a time, left to right: the reference definition. */
  function EscapeEach(s: string): string {
    if s == [] then [] else EscapeChar(s[0]) + EscapeEach(s[1..])
  }

  /** No character that opens a tag, closes one or delimits an attribute value. */
  predicate NoMarkup(r: string) {
    forall i :: 0 <= i < |r| ==> r[i] != '<' && r[i] != '>' && r[i] != '"' && r[i] != '\''
  }

  predicate StartsEntity(t: string) {
    "&amp;" <= t || "&lt;" <= t || "&gt;" <= t || "&quot;" <= t || "&#039;" <= t
  }

  /** Every `&` begins one of the five entities. */
  predicate AmpersandsStartEntities(r: string) {
    forall i :: 0 <= i < |r| && r[i] == '&' ==> StartsEntity(r[i..])
  }

  /** `escapeHtml`: the result holds no `<`, `>`, `"` or `'`. */
  function EscapeHtml(s: string): (r: string)
    ensures NoMarkup(r)
  {
    PassesIsEachChar(s);
    EscapeEachNoMarkup(s);
    ReplaceEach(s, EscapePasses)
  }

  /** Because `&` is replaced first, every `&` of the result starts one of the five entities. */
  lemma EscapeHtmlAmpersands(s: string)
    ensures AmpersandsStartEntities(EscapeHtml(s))
  {
    PassesIsEachChar(s);
    EscapeEachAmpersands(s);
  }

  /** Text without any of the five characters comes back unchanged. */
  lemma EscapeHtmlPlain(s: string)
    requires forall i :: 0 <= i < |s| ==> !IsSpecial(s[i])
    ensures EscapeHtml(s) == s
  {
    PassesIsEachChar(s);
    EscapeEachPlain(s);
  }

  lemma {:induction false} ReplaceAllConcat(a: string, b: string, c: char, rep: string)
    ensures ReplaceAll(a + b, c, rep) == ReplaceAll(a, c, rep) + ReplaceAll(b, c, rep)
  {
    if a == [] {
      assert a + b == b;
    } else {
      assert (a + b)[0] == a[0];
      assert (a + b)[1..] == a[1..] + b;
      ReplaceAllConcat(a[1..], b, c, rep);
    }
  }

  lemma {:induction false} ReplaceEachConcat(a: string, b: string, ps: seq<(char, string)>)
    ensures ReplaceEach(a + b, ps) == ReplaceEach(a, ps) + ReplaceEach(b, ps)
    decreases |ps|
  {
    if ps != [] {
      ReplaceAllConcat(a, b, ps[0].0, ps[0].1);
      ReplaceEachConcat(ReplaceAll(a, ps[0].0, ps[0].1), ReplaceAll(b, ps[0].0, ps[0].1), ps[1..]);
    }
  }

  /** Passes whose patterns do not occur leave the text alone. */
  lemma {:induction false} ReplaceEachAbsent(s: string, ps: seq<(char, string)>)
    requires forall k :: 0 <= k < |ps| ==> ps[k].0 !in s
    ensures ReplaceEach(s, ps) == s
    decreases |ps|
  {
    if ps != [] {
      ReplaceEachAbsent(s, ps[1..]);
    }
  }

  lemma ReplaceAllOne(c: char, p: char, rep: string)
    ensures ReplaceAll([c], p, rep) == if c == p then rep else [c]
  {
    assert [c][1..] == [];
  }

  /** The passes from position `k` on, applied to one character. */
  lemma {:induction false} PassesFrom(c: char, k: nat)
    requires k <= 5
    ensures ReplaceEach([c], EscapePasses[k..])
         == if exists j :: k <= j < 5 && EscapePasses[j].0 == c then EscapeChar(c) else [c]
    decreases 5 - k
  {
    var ps := EscapePasses[k..];
    if k < 5 {
      ReplaceAllOne(c, ps[0].0, ps[0].1);
      assert ps[1..] == EscapePasses[k + 1..];
      if c == ps[0].0 {
        var rep := ps[0].1;
        assert rep == EscapeChar(c);
        forall j | 0 <= j < |ps[1..]| ensures ps[1..][j].0 !in rep {
        }
        ReplaceEachAbsent(rep, ps[1..]);
      } else {
        PassesFrom(c, k + 1);
      }
    } else {
      assert ps == [];
    }
  }

  lemma PassesOneChar(c: char)
    ensures ReplaceEach([c], EscapePasses) == EscapeChar(c)
  {
    PassesFrom(c, 0);
    assert EscapePasses[0..] == EscapePasses;
    if IsSpecial(c) {
      assert exists j :: 0 <= j < 5 && EscapePasses[j].0 == c by {
        if c == '&' { assert EscapePasses[0].0 == c; }
        else if c == '<' { assert EscapePasses[1].0 == c; }
        else if c == '>' { assert EscapePasses[2].0 == c; }
        else if c == '"' { assert EscapePasses[3].0 == c; }
        else { assert EscapePasses[4].0 == c; }
      }
    }
  }

  /** The five passes escape each character on its own: the entity one pass inserts is never rewritten by a later one. */
  lemma {:induction false} PassesIsEachChar(s: string)
    ensures ReplaceEach(s, EscapePasses) == EscapeEach(s)
  {
    if s != [] {
      assert s == [s[0]] + s[1..];
      ReplaceEachConcat([s[0]], s[1..], EscapePasses);
      PassesOneChar(s[0]);
      PassesIsEachChar(s[1..]);
    }
  }

  lemma {:induction false} EscapeEachNoMarkup(s: string)
    ensures NoMarkup(EscapeEach(s))
  {
    if s != [] {
      EscapeEachNoMarkup(s[1..]);
      var head, tail := EscapeChar(s[0]), EscapeEach(s[1..]);
      assert NoMarkup(head);
      assert forall i :: |head| <= i < |head + tail| ==> (head + tail)[i] == tail[i - |head|];
    }
  }

  lemma {:induction false} EscapeEachAmpersands(s: string)
    ensures AmpersandsStartEntities(EscapeEach(s))
  {
    if s != [] {
      EscapeEachAmpersands(s[1..]);
      var head, tail := EscapeChar(s[0]), EscapeEach(s[1..]);
      var r := head + tail;
      assert r == EscapeEach(s);
      forall i | 0 <= i < |r| && r[i] == '&' ensures StartsEntity(r[i..]) {
        if i < |head| {
          assert head[i] == '&';
          assert i == 0;
          assert r[i..] == head + tail;
        } else {
          assert r[i..] == tail[i - |head|..];
          assert tail[i - |head|] == '&';
        }
      }
    }
  }

  lemma {:induction false} EscapeEachPlain(s: string)
    requires forall i :: 0 <= i < |s| ==> !IsSpecial(s[i])
    ensures EscapeEach(s) == s
  {
    if s != [] {
      assert !IsSpecial(s[0]);
      EscapeEachPlain(s[1..]);
      assert s == [s[0]] + s[1..];
    }
  }

  /** Decoding the five entities back to their characters: the inverse of escaping. */
  function Unescape(r: string): string
    decreases |r|
  {
    if r == [] then []
    else if "&amp;" <= r then "&" + Unescape(r[5..])
    else if "&lt;" <= r then "<" + Unescape(r[4..])
    else if "&gt;" <= r then ">" + Unescape(r[4..])
    else if "&quot;" <= r then "\"" + Unescape(r[6..])
    else if "&#039;" <= r then "'" + Unescape(r[6..])
    else [r[0]] + Unescape(r[1..])
  }

  lemma UnescapeEscapeChar(c: char, rest: string)
    ensures Unescape(EscapeChar(c) + rest) == [c] + Unescape(rest)
  {
    var t := EscapeChar(c) + rest;
    if c == '&' {
      assert "&amp;" <= t;
      assert t[5..] == rest;
    } else if c == '<' {
      assert t[1] == 'l';
      assert !("&amp;" <= t);
      assert "&lt;" <= t;
      assert t[4..] == rest;
    } else if c == '>' {
      assert t[1] == 'g';
      assert !("&amp;" <= t) && !("&lt;" <= t);
      assert "&gt;" <= t;
      assert t[4..] == rest;
    } else if c == '"' {
      assert t[1] == 'q';
      assert !("&amp;" <= t) && !("&lt;" <= t) && !("&gt;" <= t);
      assert "&quot;" <= t;
      assert t[6..] == rest;
    } else if c == '\'' {
      assert t[1] == '#';
      assert !("&amp;" <= t) && !("&lt;" <= t) && !("&gt;" <= t) && !("&quot;" <= t);
      assert "&#039;" <= t;
      assert t[6..] == rest;
    } else {
      assert t[0] == c;
      assert t[1..] == rest;
    }
  }

  /** Escaping loses nothing: decoding the entities gives back the original text. */
  lemma {:induction false} UnescapeEscapeHtml(s: string)
    ensures Unescape(EscapeHtml(s)) == s
  {
    PassesIsEachChar(s);
    EscapeEachInverse(s);
  }

  lemma {:induction false} EscapeEachInverse(s: string)
    ensures Unescape(EscapeEach(s)) == s
  {
    if s != [] {
      UnescapeEscapeChar(s[0], EscapeEach(s[1..]));
      EscapeEachInverse(s[1..]);
    }
  }
}
