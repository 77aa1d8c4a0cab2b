/**
 The string operations the program applies before comparing text:
 lower-casing, stripping surrounding whitespace, and Python's ordering of
 strings by code point.
 */
module Text {

  /** Lower-cases one character; only the ASCII letters A-Z change. */
  function LowerChar(c: char): (d: char)
    ensures 'A' <= c <= 'Z' ==> d as int == c as int + 32
    ensures !('A' <= c <= 'Z') ==> d == c
    ensures !('A' <= d <= 'Z')
  {
    if 'A' <= c <= 'Z' then (c as int + 32) as char else c
  }

  /** Lower-cases a string character by character. */
  function ToLower(s: string): (r: string)
    ensures |r| == |s|
    decreases |s|
  {
    if |s| == 0 then "" else [LowerChar(s[0])] + ToLower(s[1..])
  }

  /** Lower-casing works position by position. */
  lemma {:induction false} ToLowerAt(s: string)
    ensures forall i :: 0 <= i < |s| ==> ToLower(s)[i] == LowerChar(s[i])
    decreases |s|
  {
    if |s| > 0 {
      ToLowerAt(s[1..]);
    }
  }

  /** Lower-casing twice is the same as lower-casing once. */
  lemma {:induction false} ToLowerIdempotent(s: string)
    ensures ToLower(ToLower(s)) == ToLower(s)
  {
    var t := ToLower(s);
    var u := ToLower(t);
    ToLowerAt(s);
    ToLowerAt(t);
    assert forall i :: 0 <= i < |s| ==> u[i] == t[i];
  }

  /**
   Python's str.isspace(): the characters whose bidirectional class is WS, B
   or S, or whose general category is Zs.
   */
  predicate IsSpace(c: char) {
    var n := c as int;
    || 0x09 <= n <= 0x0D
    || 0x1C <= n <= 0x20
    || n == 0x85 || n == 0xA0 || n == 0x1680
    || 0x2000 <= n <= 0x200A
    || n == 0x2028 || n == 0x2029 || n == 0x202F || n == 0x205F || n == 0x3000
  }

  /** The first position at or after `lo` that holds no whitespace, or |s|. */
  function StartOf(s: string, lo: nat): (k: nat)
    requires lo <= |s|
    ensures lo <= k <= |s|
    ensures forall i :: lo <= i < k ==> IsSpace(s[i])
    ensures k < |s| ==> !IsSpace(s[k])
    decreases |s| - lo
  {
    if lo < |s| && IsSpace(s[lo]) then StartOf(s, lo + 1) else lo
  }

  /** The end of `s[lo..hi]` once its trailing whitespace is dropped. */
  function EndOf(s: string, lo: nat, hi: nat): (k: nat)
    requires lo <= hi <= |s|
    ensures lo <= k <= hi
    ensures forall i :: k <= i < hi ==> IsSpace(s[i])
    ensures k > lo ==> !IsSpace(s[k - 1])
    decreases hi
  {
    if hi > lo && IsSpace(s[hi - 1]) then EndOf(s, lo, hi - 1) else hi
  }

  /**
   Python's str.strip() with no argument: the result is the infix of `s`
   that remains once every leading and trailing whitespace character is
   removed, so it neither starts nor ends with whitespace.
   */
  function Strip(s: string): (r: string)
    ensures exists lo, hi ::
              && 0 <= lo <= hi <= |s| && r == s[lo..hi]
              && (forall i :: 0 <= i < lo ==> IsSpace(s[i]))
              && (forall i :: hi <= i < |s| ==> IsSpace(s[i]))
    ensures |r| > 0 ==> !IsSpace(r[0]) && !IsSpace(r[|r| - 1])
  {
    var lo := StartOf(s, 0);
    var hi := EndOf(s, lo, |s|);
    s[lo..hi]
  }

  /** Python's `a <= b` on strings: lexicographic by code point. */
  predicate LexLe(a: string, b: string)
    decreases |a|
  {
    if |a| == 0 then true
    else if |b| == 0 then false
    else if a[0] != b[0] then a[0] < b[0]
    else LexLe(a[1..], b[1..])
  }

  lemma {:induction false} LexLeReflexive(a: string)
    ensures LexLe(a, a)
    decreases |a|
  {
    if |a| > 0 {
      LexLeReflexive(a[1..]);
    }
  }

  /** Strings that are not in order are distinct. */
  lemma NotLexLeDistinct(a: string, b: string)
    requires !LexLe(a, b)
    ensures a != b
  {
    LexLeReflexive(a);
  }

  /** Any two strings are comparable. */
  lemma {:induction false} LexLeTotal(a: string, b: string)
    ensures LexLe(a, b) || LexLe(b, a)
    decreases |a|
  {
    if |a| > 0 && |b| > 0 && a[0] == b[0] {
      LexLeTotal(a[1..], b[1..]);
    }
  }

  lemma {:induction false} LexLeTransitive(a: string, b: string, c: string)
    requires LexLe(a, b) && LexLe(b, c)
    ensures LexLe(a, c)
    decreases |a|
  {
    if |a| > 0 && |b| > 0 && |c| > 0 && a[0] == b[0] && b[0] == c[0] {
      LexLeTransitive(a[1..], b[1..], c[1..]);
    }
  }

  /** `p` occurs in `s` as a contiguous substring (Python's `p in s`). */
  predicate Contains(s: string, p: string) {
    exists i :: 0 <= i <= |s| - |p| && OccursAt(s, p, i)
  }

  /** `p` occurs in `s` starting at position `i`. */
  predicate OccursAt(s: string, p: string, i: int) {
    0 <= i <= |s| - |p| && s[i..i + |p|] == p
  }
}
