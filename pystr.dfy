/**
  The few Python string operations the chat bots rely on: `str.isspace`,
  `str.strip()` with no argument, the substring test `needle in haystack`,
  and the truthiness of an optional string.
 */
module PyStr {
  import opened Options

  /** `c.isspace()`: the characters `str.strip()` removes by default. */
  predicate IsSpace(c: char) {
    || ('\t' <= c <= '\r')          // \t \n \x0b \x0c \r
    || ('\U{1C}' <= c <= ' ')       // \x1c..\x1f and the space
    || c == '\U{85}' || c == '\U{A0}' || c == '\U{1680}'
    || ('\U{2000}' <= c <= '\U{200A}')
    || c == '\U{2028}' || c == '\U{2029}' || c == '\U{202F}' || c == '\U{205F}'
    || c == '\U{3000}'
  }

  /** `s == s.strip()`: no whitespace at either end. */
  predicate Stripped(s: string) {
    s == [] || (!IsSpace(s[0]) && !IsSpace(s[|s| - 1]))
  }

  /** Number of whitespace characters at the start of `s`. */
  function LeadingSpaces(s: string): (n: nat)
    ensures n <= |s|
    ensures forall i :: 0 <= i < n ==> IsSpace(s[i])
    ensures n < |s| ==> !IsSpace(s[n])
  {
    if s != [] && IsSpace(s[0]) then 1 + LeadingSpaces(s[1..]) else 0
  }

  /** Number of whitespace characters at the end of `s`. */
  function TrailingSpaces(s: string): (n: nat)
    ensures n <= |s|
    ensures forall i :: |s| - n <= i < |s| ==> IsSpace(s[i])
    ensures n < |s| ==> !IsSpace(s[|s| - 1 - n])
  {
    if s != [] && IsSpace(s[|s| - 1]) then 1 + TrailingSpaces(s[..|s| - 1]) else 0
  }

  /** `s.strip()` */
  function Strip(s: string): (r: string)
    ensures Stripped(r)
    ensures |r| <= |s|
    ensures Stripped(s) ==> r == s
  {
    var t := s[LeadingSpaces(s)..];
    t[..|t| - TrailingSpaces(t)]
  }

  /** `r` is the part of `s` from `lo` on, with only whitespace before and after it. */
  predicate StrippedAt(s: string, lo: nat, r: string) {
    && lo + |r| <= |s|
    && r == s[lo..lo + |r|]
    && (forall i :: 0 <= i < lo ==> IsSpace(s[i]))
    && (forall i :: lo + |r| <= i < |s| ==> IsSpace(s[i]))
  }

  /** `strip()` cuts whitespace from the two ends and nothing else. */
  lemma StripCutsOnlyEnds(s: string)
    ensures exists lo: nat :: lo <= |s| && StrippedAt(s, lo, Strip(s))
  {
    var lo := LeadingSpaces(s);
    var t := s[lo..];
    assert Strip(s) == s[lo..lo + |t| - TrailingSpaces(t)];
    assert StrippedAt(s, lo, Strip(s));
  }

  /** Stripping twice is stripping once. */
  lemma StripIdempotent(s: string)
    ensures Strip(Strip(s)) == Strip(s)
  {
  }

  /**
    An f-string `f"{a} {b}"` of two stripped parts, stripped again, is the
    two parts joined by exactly one space, or `a` alone when `b` is empty.
   */
  lemma {:induction false} StripSpaceJoin(a: string, b: string)
    requires a != [] && Stripped(a) && Stripped(b)
    ensures Strip(a + " " + b) == if b == [] then a else a + " " + b
  {
    var x := a + " " + b;
    assert x[0] == a[0];
    assert LeadingSpaces(x) == 0;
    if b == [] {
      assert x[..|x| - 1] == a;
      assert TrailingSpaces(a) == 0;
      assert TrailingSpaces(x) == 1;
    } else {
      assert x[|x| - 1] == b[|b| - 1];
      assert TrailingSpaces(x) == 0;
    }
  }

  /** `needle` occurs in `haystack` starting at index `i`. */
  predicate OccursAt(haystack: string, needle: string, i: nat) {
    i + |needle| <= |haystack| && haystack[i..i + |needle|] == needle
  }

  /** Python's `needle in haystack` for two strings: a substring test. */
  predicate Contains(haystack: string, needle: string) {
    exists i: nat :: i <= |haystack| && OccursAt(haystack, needle, i)
  }

  /** `needle in haystack` holds exactly when `haystack` is `needle` with something before and after it. */
  lemma ContainsIsInfix(haystack: string, needle: string)
    ensures Contains(haystack, needle) <==> exists p: string, q: string :: haystack == p + needle + q
  {
    if Contains(haystack, needle) {
      var i: nat :| i <= |haystack| && OccursAt(haystack, needle, i);
      assert haystack == haystack[..i] + needle + haystack[i + |needle|..];
    }
    forall p: string, q: string | haystack == p + needle + q ensures Contains(haystack, needle) {
      assert OccursAt(haystack, needle, |p|);
    }
  }

  /** `any(w in haystack for w in needles)` */
  predicate ContainsAny(haystack: string, needles: seq<string>) {
    exists k :: 0 <= k < |needles| && Contains(haystack, needles[k])
  }

  /** No non-empty word occurs in the empty message. */
  lemma {:induction false} EmptyContainsNoWord(needles: seq<string>)
    requires forall k :: 0 <= k < |needles| ==> needles[k] != []
    ensures !ContainsAny([], needles)
  {
  }

  /** Python truthiness of an optional string: `None` and `""` are falsy. */
  predicate Truthy(s: Option<string>) {
    s.Some? && s.value != []
  }
}
