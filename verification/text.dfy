/** The handful of Python `str` operations the loaders rely on: `isspace`,
    `strip`, `isdigit`, `replace` and the substring test `needle in hay`. */
module PyText {

  /** A character Python's `str.isspace()` accepts: `strip()` removes exactly
      these at either end. */
  predicate IsSpace(c: char) {
    || c == ' '
    || ('\t' <= c <= '\r')
    || ('\U{1c}' <= c <= '\U{1f}')
    || c == '\U{85}' || c == '\U{a0}' || c == '\U{1680}'
    || ('\U{2000}' <= c <= '\U{200a}')
    || c == '\U{2028}' || c == '\U{2029}' || c == '\U{202f}'
    || c == '\U{205f}' || c == '\U{3000}'
  }

  ghost predicate AllSpace(s: string) {
    forall k :: 0 <= k < |s| ==> IsSpace(s[k])
  }

  /** An ASCII decimal digit. */
  predicate IsDigit(c: char) {
    '0' <= c <= '9'
  }

  predicate AllDigits(s: string) {
    forall k :: 0 <= k < |s| ==> IsDigit(s[k])
  }

  /** Python's `s.isdigit()` on ASCII text: non-empty and digits only. */
  predicate IsDigitString(s: string) {
    |s| > 0 && AllDigits(s)
  }

  /** The position of the first character of `s` at or after `i` that `cut`
      does not accept (`|s|` if there is none). */
  function SkipWhile(cut: char -> bool, s: string, i: nat): (a: nat)
    requires i <= |s|
    ensures i <= a <= |s|
    ensures forall k :: i <= k < a ==> cut(s[k])
    ensures a < |s| ==> !cut(s[a])
    decreases |s| - i
  {
    if i < |s| && cut(s[i]) then SkipWhile(cut, s, i + 1) else i
  }

  /** The end of `s[..j]` once the trailing characters `cut` accepts are
      dropped, never going below `a`. */
  function BackWhile(cut: char -> bool, s: string, a: nat, j: nat): (b: nat)
    requires a <= j <= |s|
    ensures a <= b <= j
    ensures forall k :: b <= k < j ==> cut(s[k])
    ensures b > a ==> !cut(s[b - 1])
    decreases j
  {
    if j > a && cut(s[j - 1]) then BackWhile(cut, s, a, j - 1) else j
  }

  /** `r` is `s` with characters `cut` accepts cut away before position `i`
      and after `r`. */
  ghost predicate CutAt(cut: char -> bool, s: string, i: nat, r: string) {
    && i + |r| <= |s|
    && r == s[i..i + |r|]
    && (forall k :: 0 <= k < i ==> cut(s[k]))
    && (forall k :: i + |r| <= k < |s| ==> cut(s[k]))
  }

  /** A character `cut` rejects survives the cut, at its shifted position. */
  lemma CutKeeps(cut: char -> bool, s: string, i: nat, r: string, k: nat)
    requires CutAt(cut, s, i, r) && k < |s| && !cut(s[k])
    ensures i <= k < i + |r| && r[k - i] == s[k]
  {
    assert r[k - i] == s[i..i + |r|][k - i];
  }

  /** The middle slice of `s` left once the characters `cut` accepts are
      removed at both ends. It is empty exactly when `cut` accepts every
      character, and it leaves text whose end characters `cut` rejects
      untouched. */
  function StripWith(cut: char -> bool, s: string): (r: string)
    ensures exists i :: CutAt(cut, s, i, r)
    ensures r == [] || (!cut(r[0]) && !cut(r[|r| - 1]))
    ensures r == [] <==> forall k :: 0 <= k < |s| ==> cut(s[k])
    ensures |s| > 0 && !cut(s[0]) && !cut(s[|s| - 1]) ==> r == s
  {
    var a := SkipWhile(cut, s, 0);
    var b := BackWhile(cut, s, a, |s|);
    assert CutAt(cut, s, a, s[a..b]);
    assert s[a..b] == [] ==> a == |s|;
    s[a..b]
  }

  /** Python's `s.strip()`: whitespace removed at both ends. The result is
      empty exactly when `s` is all whitespace, and text with no whitespace at
      its ends is left untouched. */
  function Strip(s: string): (r: string)
    ensures exists i :: CutAt(IsSpace, s, i, r)
    ensures r == [] || (!IsSpace(r[0]) && !IsSpace(r[|r| - 1]))
    ensures r == [] <==> AllSpace(s)
    ensures |s| > 0 && !IsSpace(s[0]) && !IsSpace(s[|s| - 1]) ==> r == s
  {
    var a := SkipWhile(IsSpace, s, 0);
    var b := BackWhile(IsSpace, s, a, |s|);
    assert CutAt(IsSpace, s, a, s[a..b]);
    assert s[a..b] == [] ==> a == |s|;
    s[a..b]
  }

  /** `s.replace(a, b)` for single characters. */
  function Replace(s: string, a: char, b: char): (r: string)
    ensures |r| == |s|
    ensures forall k :: 0 <= k < |s| ==> r[k] == (if s[k] == a then b else s[k])
  {
    seq(|s|, k requires 0 <= k < |s| => if s[k] == a then b else s[k])
  }

  /** `s.replace(c, '')`: the characters of `s` other than `c`, each as
      often as in `s`; `RemoveAppend` adds that they keep their order. */
  function Remove(s: string, c: char): (r: string)
    ensures forall x :: x in r <==> x in s && x != c
    ensures multiset(r) == multiset(s)[c := 0]
    decreases |s|
  {
    if |s| == 0 then []
    else
      var rest := Remove(s[1..], c);
      assert forall x :: x in s <==> x == s[0] || x in s[1..];
      assert s == [s[0]] + s[1..];
      if s[0] == c then rest else [s[0]] + rest
  }

  /** Removing distributes over concatenation, so what is left of `a` comes
      before what is left of `b`: the kept characters stay in order. */
  lemma {:induction false} RemoveAppend(a: string, b: string, c: char)
    ensures Remove(a + b, c) == Remove(a, c) + Remove(b, c)
    decreases |a|
  {
    if |a| == 0 {
      assert a + b == b;
    } else {
      assert (a + b)[0] == a[0];
      assert (a + b)[1..] == a[1..] + b;
      RemoveAppend(a[1..], b, c);
    }
  }

  /** `needle` occurs in `hay` starting at position `i`. */
  ghost predicate OccursAt(hay: string, needle: string, i: nat) {
    i + |needle| <= |hay| && hay[i..i + |needle|] == needle
  }

  /** Python's `needle in hay`: `needle` occurs as a contiguous slice of `hay`
      (the empty string occurs in every string). */
  function Contains(hay: string, needle: string): (b: bool)
    ensures b <==> exists i :: OccursAt(hay, needle, i)
    decreases |hay|
  {
    if |needle| <= |hay| && hay[..|needle|] == needle then
      assert OccursAt(hay, needle, 0);
      true
    else if |hay| == 0 then
      false
    else
      var b := Contains(hay[1..], needle);
      ContainsTail(hay, needle);
      b
  }

  lemma ContainsTail(hay: string, needle: string)
    requires |hay| > 0 && !(|needle| <= |hay| && hay[..|needle|] == needle)
    ensures (exists i :: OccursAt(hay, needle, i)) <==> (exists i :: OccursAt(hay[1..], needle, i))
  {
    if exists i :: OccursAt(hay[1..], needle, i) {
      var i: nat :| OccursAt(hay[1..], needle, i);
      assert OccursAt(hay, needle, i + 1);
    }
    if exists i :: OccursAt(hay, needle, i) {
      var i: nat :| OccursAt(hay, needle, i);
      assert i > 0;
      assert OccursAt(hay[1..], needle, i - 1);
    }
  }

  /** A string that contains `needle` contains every slice of `needle`. */
  lemma ContainsSlice(hay: string, needle: string, a: nat, b: nat)
    requires a <= b <= |needle|
    requires Contains(hay, needle)
    ensures Contains(hay, needle[a..b])
  {
    var i: nat :| OccursAt(hay, needle, i);
    forall k | 0 <= k < b - a
      ensures hay[i + a..i + a + (b - a)][k] == needle[a..b][k]
    {
      assert hay[i + a + k] == hay[i..i + |needle|][a + k];
    }
    assert OccursAt(hay, needle[a..b], i + a);
  }
}
