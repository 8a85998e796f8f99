/**
 * The handful of `java.lang.String` operations the item registry relies on:
 * `startsWith`, `contains`, an ASCII-only `toLowerCase` and `trim`.
 * Each executable function is paired with a reference definition written
 * with slices and quantifiers, and the lemmas connect the two.
 */
module Strings {

  /** `p` is a prefix of `s`. */
  ghost predicate IsPrefix(p: string, s: string) {
    |p| <= |s| && s[..|p|] == p
  }

  /** `p` occurs in `s` starting at index `i`. */
  ghost predicate OccursAt(p: string, s: string, i: int) {
    0 <= i && i + |p| <= |s| && s[i..i + |p|] == p
  }

  /** `p` occurs somewhere in `s`. */
  ghost predicate Occurs(p: string, s: string) {
    exists i :: OccursAt(p, s, i)
  }

  /** `String.startsWith`, compared character by character. */
  function StartsWith(s: string, p: string): (r: bool)
    ensures r <==> IsPrefix(p, s)
  {
    if p == [] then true
    else if s == [] then false
    else
      PrefixStep(p, s);
      s[0] == p[0] && StartsWith(s[1..], p[1..])
  }

  /** A non-empty prefix is its first character followed by a prefix of the tail. */
  lemma PrefixStep(p: string, s: string)
    requires p != [] && s != []
    ensures IsPrefix(p, s) <==> s[0] == p[0] && IsPrefix(p[1..], s[1..])
  {
    if |p| <= |s| {
      assert s[..|p|] == [s[0]] + s[1..][..|p| - 1];
      assert p == [p[0]] + p[1..];
    }
  }

  /** `String.contains`: try every starting position from the left. */
  function Contains(s: string, p: string): (r: bool)
    ensures r <==> Occurs(p, s)
    decreases |s|
  {
    if StartsWith(s, p) then
      assert OccursAt(p, s, 0);
      true
    else if s == [] then
      false
    else
      OccursPastHead(p, s);
      Contains(s[1..], p)
  }

  /** An occurrence in the tail of `s` is an occurrence in `s`, one position later. */
  lemma OccursInTail(p: string, s: string, i: int)
    requires s != [] && 0 <= i
    ensures OccursAt(p, s[1..], i) <==> OccursAt(p, s, i + 1)
  {
    if 0 <= i && i + |p| <= |s| - 1 {
      assert s[1..][i..i + |p|] == s[i + 1..i + 1 + |p|];
    }
  }

  /** When `p` is not a prefix of `s`, it occurs in `s` exactly when it occurs in the tail. */
  lemma OccursPastHead(p: string, s: string)
    requires s != [] && !IsPrefix(p, s)
    ensures Occurs(p, s) <==> Occurs(p, s[1..])
  {
    if Occurs(p, s[1..]) {
      var i :| OccursAt(p, s[1..], i);
      OccursInTail(p, s, i);
    }
    if Occurs(p, s) {
      var i :| OccursAt(p, s, i);
      assert i != 0;
      OccursInTail(p, s, i - 1);
    }
  }

  /** Every character of a pattern that occurs in `s` is a character of `s`. */
  lemma OccursHasChar(p: string, s: string, k: int)
    requires Occurs(p, s) && 0 <= k < |p|
    ensures p[k] in s
  {
    var i :| OccursAt(p, s, i);
    assert s[i + k] == s[i..i + |p|][k];
  }

  /** A pattern with a character that `s` lacks does not occur in `s`. */
  lemma MissingCharRulesOut(p: string, s: string, k: int)
    requires 0 <= k < |p| && p[k] !in s
    ensures !Occurs(p, s)
  {
    if Occurs(p, s) {
      OccursHasChar(p, s, k);
    }
  }

  /** `Character.toLowerCase` restricted to ASCII letters. */
  function LowerChar(c: char): char {
    if 'A' <= c <= 'Z' then (c as int + ('a' as int - 'A' as int)) as char else c
  }

  /**
   * `String.toLowerCase` restricted to ASCII letters: no ASCII capital is
   * left, each capital becomes its small letter, and every other character stays.
   */
  function LowerAscii(s: string): (r: string)
    ensures |r| == |s|
    ensures forall i :: 0 <= i < |r| ==> !('A' <= r[i] <= 'Z')
    ensures forall i :: 0 <= i < |s| && !('A' <= s[i] <= 'Z') ==> r[i] == s[i]
    ensures forall i :: 0 <= i < |s| && 'A' <= s[i] <= 'Z' ==> r[i] as int == s[i] as int + 32
  {
    seq(|s|, i requires 0 <= i < |s| => LowerChar(s[i]))
  }

  /**
   * Lower-casing cannot destroy an occurrence of a pattern that is already
   * lower case: the lowered window is the lowered pattern, which is the pattern.
   */
  lemma OccursLowered(p: string, s: string)
    requires Occurs(p, s) && LowerAscii(p) == p
    ensures Occurs(p, LowerAscii(s))
  {
    var i :| OccursAt(p, s, i);
    var t := LowerAscii(s);
    forall k | 0 <= k < |p|
      ensures t[i..i + |p|][k] == p[k]
    {
      assert s[i..i + |p|][k] == p[k];
      assert LowerAscii(p)[k] == LowerChar(p[k]);
    }
    assert OccursAt(p, t, i);
  }

  /** The characters `String.trim` strips: every code point up to and including space. */
  predicate IsBlank(c: char) {
    c <= ' '
  }

  ghost predicate AllBlank(s: string) {
    forall k :: 0 <= k < |s| ==> IsBlank(s[k])
  }

  /** Neither end of `s` is blank, so `trim` leaves it alone. */
  ghost predicate IsTrimmed(s: string) {
    s == [] || (!IsBlank(s[0]) && !IsBlank(s[|s| - 1]))
  }

  function TrimStart(s: string): string {
    if s != [] && IsBlank(s[0]) then TrimStart(s[1..]) else s
  }

  function TrimEnd(s: string): string {
    if s != [] && IsBlank(s[|s| - 1]) then TrimEnd(s[..|s| - 1]) else s
  }

  /** `String.trim`: drop the blank characters at both ends. */
  function Trim(s: string): (r: string)
    ensures IsTrimmed(r)
    ensures |r| <= |s|
  {
    TrimStartKeepsEnd(s);
    TrimEndIsTrimmed(TrimStart(s));
    TrimEnd(TrimStart(s))
  }

  lemma {:induction false} TrimStartKeepsEnd(s: string)
    ensures |TrimStart(s)| <= |s|
    ensures TrimStart(s) == [] || !IsBlank(TrimStart(s)[0])
    ensures TrimStart(s) != [] ==> TrimStart(s)[|TrimStart(s)| - 1] == s[|s| - 1]
  {
    if s != [] && IsBlank(s[0]) {
      TrimStartKeepsEnd(s[1..]);
    }
  }

  lemma {:induction false} TrimEndIsTrimmed(s: string)
    requires s == [] || !IsBlank(s[0])
    ensures IsTrimmed(TrimEnd(s))
    ensures |TrimEnd(s)| <= |s|
  {
    if s != [] && IsBlank(s[|s| - 1]) {
      TrimEndIsTrimmed(s[..|s| - 1]);
    }
  }

  lemma {:induction false} TrimStartPadded(pre: string, rest: string)
    requires AllBlank(pre)
    requires rest == [] || !IsBlank(rest[0])
    ensures TrimStart(pre + rest) == rest
  {
    if pre == [] {
      assert pre + rest == rest;
    } else {
      assert (pre + rest)[1..] == pre[1..] + rest;
      TrimStartPadded(pre[1..], rest);
    }
  }

  lemma {:induction false} TrimEndPadded(rest: string, post: string)
    requires AllBlank(post)
    requires rest == [] || !IsBlank(rest[|rest| - 1])
    ensures TrimEnd(rest + post) == rest
  {
    if post == [] {
      assert rest + post == rest;
    } else {
      var n := |post| - 1;
      assert (rest + post)[..|rest + post| - 1] == rest + post[..n];
      TrimEndPadded(rest, post[..n]);
    }
  }

  /**
   * `trim` removes exactly the blank padding around a trimmed core, whatever
   * that padding is.
   */
  lemma TrimPadded(pre: string, core: string, post: string)
    requires AllBlank(pre) && AllBlank(post) && IsTrimmed(core)
    ensures Trim(pre + core + post) == core
  {
    if core == [] {
      assert pre + core + post == pre + post;
      TrimStartPadded(pre + post, []);
      assert pre + post + [] == pre + post;
    } else {
      assert pre + core + post == pre + (core + post);
      TrimStartPadded(pre, core + post);
      TrimEndPadded(core, post);
    }
  }
}
