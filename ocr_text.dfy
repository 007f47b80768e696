/**
  The Java string handling of TransController.java: the two character
  filters (`replaceAll` with a negated class, then `trim()`), `split("\\s+")`
  and `String.join(" ", ...)`.
 */
module OcrText {

  /** Java regex `\s` (without UNICODE_CHARACTER_CLASS): space, \t, \n, \x0B, \f, \r. */
  predicate IsRegexSpace(c: char) {
    c == ' ' || ('\t' <= c <= '\r')
  }

  predicate IsAsciiLetter(c: char) { ('a' <= c <= 'z') || ('A' <= c <= 'Z') }

  predicate IsAsciiDigit(c: char) { '0' <= c <= '9' }

  /** The regex range `가-힣`: the precomposed Hangul syllables. */
  predicate IsHangulSyllable(c: char) { '가' <= c <= '힣' }

  /** The character classes the controller keeps. */
  datatype CharClass =
    | LettersDigitsHangul   // [a-zA-Z0-9가-힣\s]
    | HangulDigits          // [가-힣0-9\s]
    | NonSpace              // [^\s]

  predicate InClass(cls: CharClass, c: char) {
    match cls
    case LettersDigitsHangul => IsAsciiLetter(c) || IsAsciiDigit(c) || IsHangulSyllable(c) || IsRegexSpace(c)
    case HangulDigits => IsHangulSyllable(c) || IsAsciiDigit(c) || IsRegexSpace(c)
    case NonSpace => !IsRegexSpace(c)
  }

  predicate AllInClass(cls: CharClass, s: string) {
    forall i :: 0 <= i < |s| ==> InClass(cls, s[i])
  }

  /** `a` is `b` with some elements left out, the others kept in order. */
  ghost predicate IsSubsequence<T>(a: seq<T>, b: seq<T>)
    decreases |b|
  {
    a == [] || (b != [] && ((a[0] == b[0] && IsSubsequence(a[1..], b[1..])) || IsSubsequence(a, b[1..])))
  }

  lemma {:induction false} SubsequenceTransitive<T>(a: seq<T>, b: seq<T>, c: seq<T>)
    requires IsSubsequence(a, b) && IsSubsequence(b, c)
    ensures IsSubsequence(a, c)
    decreases |c|
  {
    if a != [] {
      if b[0] == c[0] && IsSubsequence(b[1..], c[1..]) {
        if a[0] == b[0] && IsSubsequence(a[1..], b[1..]) {
          SubsequenceTransitive(a[1..], b[1..], c[1..]);
        } else {
          SubsequenceTransitive(a, b[1..], c[1..]);
        }
      } else {
        SubsequenceTransitive(a, b, c[1..]);
      }
    }
  }

  lemma {:induction false} SliceIsSubsequence<T>(s: seq<T>, i: nat, j: nat)
    requires i <= j <= |s|
    ensures IsSubsequence(s[i..j], s)
    decreases |s|
  {
    if i > 0 {
      SliceIsSubsequence(s[1..], i - 1, j - 1);
      assert s[1..][i - 1..j - 1] == s[i..j];
    } else if j > 0 {
      SliceIsSubsequence(s[1..], 0, j - 1);
      assert s[1..][..j - 1] == s[..j][1..];
    }
  }

  /** `replaceAll("[^class]", "")`: the characters of the class, in order. */
  function Keep(cls: CharClass, s: string): (r: string)
    ensures AllInClass(cls, r)
    ensures AllInClass(cls, s) ==> r == s
    decreases |s|
  {
    if s == [] then []
    else (if InClass(cls, s[0]) then [s[0]] else []) + Keep(cls, s[1..])
  }

  /** `Keep` keeps the order of the characters it keeps ... */
  lemma {:induction false} KeepIsSubsequence(cls: CharClass, s: string)
    ensures IsSubsequence(Keep(cls, s), s)
    decreases |s|
  {
    if s != [] {
      KeepIsSubsequence(cls, s[1..]);
      var k := Keep(cls, s);
      if InClass(cls, s[0]) {
        assert k[0] == s[0] && k[1..] == Keep(cls, s[1..]);
      } else {
        assert k == Keep(cls, s[1..]);
      }
    }
  }

  /** ... and drops no occurrence of a character of the class. */
  lemma {:induction false} KeepCountsClass(cls: CharClass, s: string)
    ensures forall c :: InClass(cls, c) ==> multiset(Keep(cls, s))[c] == multiset(s)[c]
    decreases |s|
  {
    if s != [] {
      KeepCountsClass(cls, s[1..]);
      assert s == [s[0]] + s[1..];
      assert multiset(s) == multiset{s[0]} + multiset(s[1..]);
      assert multiset(Keep(cls, s)) == multiset(if InClass(cls, s[0]) then [s[0]] else []) + multiset(Keep(cls, s[1..]));
    }
  }

  /**
    Nothing of the class is dropped and nothing outside it is kept: `Keep`
    is the subsequence of exactly the class's characters.
   */
  lemma KeepIsClassSubsequence(cls: CharClass, s: string)
    ensures IsSubsequence(Keep(cls, s), s)
    ensures forall c :: InClass(cls, c) ==> multiset(Keep(cls, s))[c] == multiset(s)[c]
  {
    KeepIsSubsequence(cls, s);
    KeepCountsClass(cls, s);
  }

  /** The characters `String.trim()` removes from either end: U+0000..U+0020. */
  predicate IsTrimmable(c: char) { c <= ' ' }

  /** `s.trim() == s` */
  predicate IsTrimmed(s: string) {
    s == [] || (!IsTrimmable(s[0]) && !IsTrimmable(s[|s| - 1]))
  }

  function LeadingTrimmable(s: string): (n: nat)
    ensures n <= |s|
    ensures forall i :: 0 <= i < n ==> IsTrimmable(s[i])
    ensures n < |s| ==> !IsTrimmable(s[n])
  {
    if s != [] && IsTrimmable(s[0]) then 1 + LeadingTrimmable(s[1..]) else 0
  }

  function TrailingTrimmable(s: string): (n: nat)
    ensures n <= |s|
    ensures forall i :: |s| - n <= i < |s| ==> IsTrimmable(s[i])
    ensures n < |s| ==> !IsTrimmable(s[|s| - 1 - n])
  {
    if s != [] && IsTrimmable(s[|s| - 1]) then 1 + TrailingTrimmable(s[..|s| - 1]) else 0
  }

  /** `r` is the part of `s` from `lo` on, with only trimmable characters before and after it. */
  predicate CutAt(s: string, lo: nat, r: string) {
    && lo + |r| <= |s|
    && r == s[lo..lo + |r|]
    && (forall i :: 0 <= i < lo ==> IsTrimmable(s[i]))
    && (forall i :: lo + |r| <= i < |s| ==> IsTrimmable(s[i]))
  }

  /** `r` is `s` with only trimmable characters cut from its two ends. */
  predicate CutFromEnds(r: string, s: string) {
    exists lo: nat :: lo <= |s| && CutAt(s, lo, r)
  }

  /**
    `s.trim()`: `s` without its leading and trailing characters up to U+0020.
    Every other character survives, and nothing changes when there is nothing to trim.
   */
  function Trim(s: string): (r: string)
    ensures IsTrimmed(r)
    ensures IsSubsequence(r, s)
    ensures forall c :: !IsTrimmable(c) ==> multiset(r)[c] == multiset(s)[c]
    ensures forall c :: c in r ==> c in s
    ensures IsTrimmed(s) ==> r == s
  {
    var lo := LeadingTrimmable(s);
    var t := s[lo..];
    var hi := lo + |t| - TrailingTrimmable(t);
    TrimmedEndsCount(s, lo, hi);
    SliceIsSubsequence(s, lo, hi);
    s[lo..hi]
  }

  /** `trim()` cuts characters up to U+0020 from the two ends and nothing else. */
  lemma TrimCutsOnlyEnds(s: string)
    ensures CutFromEnds(Trim(s), s)
  {
    var lo := LeadingTrimmable(s);
    var hi := lo + |s[lo..]| - TrailingTrimmable(s[lo..]);
    assert Trim(s) == s[lo..hi];
    assert CutAt(s, lo, Trim(s));
  }

  /** Cutting only trimmable characters off the ends keeps every other character. */
  lemma TrimmedEndsCount(s: string, lo: nat, hi: nat)
    requires lo <= hi <= |s|
    requires forall i :: 0 <= i < lo ==> IsTrimmable(s[i])
    requires forall i :: hi <= i < |s| ==> IsTrimmable(s[i])
    ensures forall c :: !IsTrimmable(c) ==> multiset(s[lo..hi])[c] == multiset(s)[c]
  {
    assert s == s[..lo] + s[lo..hi] + s[hi..];
    assert forall c :: !IsTrimmable(c) ==> c !in s[..lo] && c !in s[hi..];
  }

  /** The filter followed by `trim()` that both helpers perform. */
  function Clean(cls: CharClass, text: string): (r: string)
    ensures AllInClass(cls, r)
    ensures IsTrimmed(r)
    ensures IsSubsequence(r, text)
    ensures forall c :: InClass(cls, c) && !IsTrimmable(c) ==> multiset(r)[c] == multiset(text)[c]
  {
    var k := Keep(cls, text);
    KeepIsClassSubsequence(cls, text);
    SubsequenceTransitive(Trim(k), k, text);
    Trim(k)
  }

  /**
    `removeSpecialCharacters`: only ASCII letters and digits, Hangul syllables
    and whitespace remain; none at either end; every letter, digit and
    syllable of the input survives, in order.
   */
  function RemoveSpecialCharacters(text: string): (r: string)
    ensures forall i :: 0 <= i < |r| ==>
      IsAsciiLetter(r[i]) || IsAsciiDigit(r[i]) || IsHangulSyllable(r[i]) || IsRegexSpace(r[i])
    ensures r == [] || (!IsRegexSpace(r[0]) && !IsRegexSpace(r[|r| - 1]))
    ensures IsSubsequence(r, text)
    ensures forall c :: IsAsciiLetter(c) || IsAsciiDigit(c) || IsHangulSyllable(c) ==>
      multiset(r)[c] == multiset(text)[c]
  {
    Clean(LettersDigitsHangul, text)
  }

  /**
    `extractHangulAndNumbers`: only Hangul syllables, digits and whitespace
    remain; none at either end; every syllable and digit survives, in order.
   */
  function ExtractHangulAndNumbers(text: string): (r: string)
    ensures forall i :: 0 <= i < |r| ==> IsHangulSyllable(r[i]) || IsAsciiDigit(r[i]) || IsRegexSpace(r[i])
    ensures r == [] || (!IsRegexSpace(r[0]) && !IsRegexSpace(r[|r| - 1]))
    ensures IsSubsequence(r, text)
    ensures forall c :: IsAsciiDigit(c) || IsHangulSyllable(c) ==> multiset(r)[c] == multiset(text)[c]
  {
    Clean(HangulDigits, text)
  }

  /**
    Both filters delete exactly the characters outside their class and then
    cut only characters up to U+0020 from the two ends: whitespace inside the
    text is kept.
   */
  lemma FiltersCutOnlyEnds(text: string)
    ensures CutFromEnds(RemoveSpecialCharacters(text), Keep(LettersDigitsHangul, text))
    ensures CutFromEnds(ExtractHangulAndNumbers(text), Keep(HangulDigits, text))
  {
    TrimCutsOnlyEnds(Keep(LettersDigitsHangul, text));
    TrimCutsOnlyEnds(Keep(HangulDigits, text));
  }

  /** Whitespace inside the text is kept: "가 나!" loses only the '!'. */
  lemma InnerSpaceIsKept()
    ensures RemoveSpecialCharacters("가 나!") == "가 나"
  {
    assert Keep(LettersDigitsHangul, "!") == [];
    assert Keep(LettersDigitsHangul, "나!") == "나";
    assert Keep(LettersDigitsHangul, " 나!") == " 나";
    assert Keep(LettersDigitsHangul, "가 나!") == "가 나";
    assert IsTrimmed("가 나");
  }

  /** Extracting twice gives what extracting once gives. */
  lemma ExtractIsIdempotent(text: string)
    ensures ExtractHangulAndNumbers(ExtractHangulAndNumbers(text)) == ExtractHangulAndNumbers(text)
  {
  }

  /** Length of the run of non-whitespace characters that `s` starts with. */
  function WordLength(s: string): (n: nat)
    ensures n <= |s|
    ensures forall i :: 0 <= i < n ==> !IsRegexSpace(s[i])
    ensures n < |s| ==> IsRegexSpace(s[n])
  {
    if s == [] || IsRegexSpace(s[0]) then 0 else 1 + WordLength(s[1..])
  }

  /** The maximal runs of non-whitespace characters of `s`, in order. */
  function Words(s: string): (r: seq<string>)
    ensures forall k :: 0 <= k < |r| ==> r[k] != [] && AllInClass(NonSpace, r[k])
    decreases |s|
  {
    if s == [] then []
    else if IsRegexSpace(s[0]) then Words(s[1..])
    else
      var n := WordLength(s);
      [s[..n]] + Words(s[n..])
  }

  /**
    `s.split("\\s+")`: an empty string gives one empty word; a leading run of
    whitespace gives a leading empty word (unless nothing else is there); the
    trailing empty words Java drops are never produced.
   */
  function Split(s: string): (r: seq<string>)
    ensures s == [] ==> r == [""]
    ensures s != [] && !IsRegexSpace(s[0]) ==> |r| > 0 && forall k :: 0 <= k < |r| ==> r[k] != []
    ensures s != [] && IsRegexSpace(s[0]) ==> r == [] || r[0] == []
    ensures forall k :: 0 < k < |r| ==> r[k] != []
    ensures forall k :: 0 <= k < |r| ==> AllInClass(NonSpace, r[k])
  {
    if s == [] then [""]
    else if IsRegexSpace(s[0]) && Words(s) != [] then [""] + Words(s)
    else Words(s)
  }

  predicate AllSpace(s: string) {
    forall i :: 0 <= i < |s| ==> IsRegexSpace(s[i])
  }

  /** `gaps[0] + words[0] + gaps[1] + ... + words[n - 1] + gaps[n]` */
  function Interleave(gaps: seq<string>, words: seq<string>): string
    requires |gaps| == |words| + 1
    decreases |words|
  {
    if words == [] then gaps[0] else gaps[0] + words[0] + Interleave(gaps[1..], words[1..])
  }

  /**
    `s` is `words` separated by the whitespace runs `gaps`: a run (possibly
    empty) before the first word and after the last, a non-empty run between
    two words.
   */
  predicate SeparatedBy(s: string, words: seq<string>, gaps: seq<string>) {
    && |gaps| == |words| + 1
    && s == Interleave(gaps, words)
    && (forall k :: 0 <= k < |gaps| ==> AllSpace(gaps[k]))
    && (forall k :: 0 < k < |words| ==> gaps[k] != [])
  }

  /** The whitespace runs around and between the words of `s`. */
  function Gaps(s: string): (g: seq<string>)
    ensures |g| == |Words(s)| + 1
    decreases |s|
  {
    if s == [] then [""]
    else if IsRegexSpace(s[0]) then
      var g := Gaps(s[1..]);
      [[s[0]] + g[0]] + g[1..]
    else [""] + Gaps(s[WordLength(s)..])
  }

  /** A whitespace character in front of `s` joins the first gap. */
  lemma InterleaveSpace(c: char, gaps: seq<string>, words: seq<string>)
    requires |gaps| == |words| + 1
    ensures Interleave([[c] + gaps[0]] + gaps[1..], words) == [c] + Interleave(gaps, words)
  {
    var g := [[c] + gaps[0]] + gaps[1..];
    assert g[1..] == gaps[1..];
  }

  /** `Words(s)` are exactly the maximal runs of non-whitespace characters of `s`. */
  lemma {:induction false} WordsSeparate(s: string)
    ensures SeparatedBy(s, Words(s), Gaps(s))
    decreases |s|
  {
    if s != [] {
      if IsRegexSpace(s[0]) {
        WordsSeparate(s[1..]);
        var g := Gaps(s[1..]);
        InterleaveSpace(s[0], g, Words(s[1..]));
        assert s == [s[0]] + s[1..];
        assert AllSpace([s[0]] + g[0]);
      } else {
        var n := WordLength(s);
        var t := s[n..];
        WordsSeparate(t);
        var g := [""] + Gaps(t);
        assert g[1..] == Gaps(t);
        assert s == s[..n] + t;
        assert Interleave(g, Words(s)) == s[..n] + Interleave(Gaps(t), Words(t));
        if Words(t) != [] {
          assert t != [] && IsRegexSpace(t[0]);
          assert Gaps(t)[0] != [];
        }
      }
    }
  }

  /** The gaps `Split` leaves: Java's leading empty word has an empty gap before it. */
  function SplitGaps(s: string): (g: seq<string>)
    ensures |g| == |Split(s)| + 1
  {
    if s == [] then ["", ""]
    else if IsRegexSpace(s[0]) && Words(s) != [] then [""] + Gaps(s)
    else Gaps(s)
  }

  /**
    `split("\\s+")` cuts `s` exactly at its whitespace runs: the words with
    whitespace between them rebuild `s`, and no word holds whitespace.
   */
  lemma SplitRebuildsText(s: string)
    ensures SeparatedBy(s, Split(s), SplitGaps(s))
  {
    WordsSeparate(s);
    if s != [] && IsRegexSpace(s[0]) && Words(s) != [] {
      var g := SplitGaps(s);
      assert g[1..] == Gaps(s);
      assert Split(s)[1..] == Words(s);
      assert Gaps(s)[0] != [];
    }
  }

  /** Every word `Words` produces keeps the class of the text it came from. */
  lemma {:induction false} WordsStayInClass(cls: CharClass, s: string)
    requires AllInClass(cls, s)
    ensures forall k :: 0 <= k < |Words(s)| ==> AllInClass(cls, Words(s)[k])
    decreases |s|
  {
    if s != [] {
      if IsRegexSpace(s[0]) {
        WordsStayInClass(cls, s[1..]);
      } else {
        var n := WordLength(s);
        WordsStayInClass(cls, s[n..]);
      }
    }
  }

  lemma SplitStaysInClass(cls: CharClass, s: string)
    requires AllInClass(cls, s)
    ensures forall k :: 0 <= k < |Split(s)| ==> AllInClass(cls, Split(s)[k])
  {
    WordsStayInClass(cls, s);
  }

  /** `String.join(" ", words)` */
  function Join(words: seq<string>): (r: string)
    ensures |words| == 1 ==> r == words[0]
    decreases |words|
  {
    if words == [] then ""
    else if |words| == 1 then words[0]
    else words[0] + " " + Join(words[1..])
  }

  /** Joining words of a class that holds the space stays in the class. */
  lemma {:induction false} JoinStaysInClass(cls: CharClass, words: seq<string>)
    requires InClass(cls, ' ')
    requires forall k :: 0 <= k < |words| ==> AllInClass(cls, words[k])
    ensures AllInClass(cls, Join(words))
    decreases |words|
  {
    if |words| > 1 {
      JoinStaysInClass(cls, words[1..]);
    }
  }

  /** Splitting what `Join` built from non-empty words without whitespace gives the words back. */
  lemma {:induction false} SplitJoinRoundTrip(words: seq<string>)
    requires words != []
    requires forall k :: 0 <= k < |words| ==> words[k] != [] && AllInClass(NonSpace, words[k])
    ensures Split(Join(words)) == words
    decreases |words|
  {
    var w := words[0];
    assert WordLength(w) == |w|;
    assert w[..|w|] == w && w[|w|..] == [];
    if |words| == 1 {
      assert Words(w) == [w] + Words([]);
    } else {
      var rest := Join(words[1..]);
      var x := w + " " + rest;
      assert x[0] == w[0];
      assert WordLength(x) == |w| by {
        assert forall i :: 0 <= i < |w| ==> x[i] == w[i];
        assert IsRegexSpace(x[|w|]);
      }
      assert x[..|w|] == w;
      assert x[|w|..] == [' '] + rest;
      assert Words(x[|w|..]) == Words(rest);
      SplitJoinRoundTrip(words[1..]);
      assert rest != [] && !IsRegexSpace(rest[0]);
    }
  }
}
