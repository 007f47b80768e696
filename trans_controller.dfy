/**
  What `detectTextFromImage` (TransController.java) does with the text
  blocks the Vision API found: the first block is the full text, the others
  are single blocks. If any block is transit vocabulary, every single block's
  Hangul and digits are kept; otherwise the largest block (when it is more
  than twice the second) or the three largest are read left to right, top to
  bottom, and their words are combined without repetition.
 */
module TransController {
  import opened OcrText
  import opened Annotations
  import opened StableSort

  const NoTextFound := "No text found."

  /** `SPECIAL_TERMS` */
  const SpecialTerms: set<string> := {"호선", "출입구", "지하철"}

  /** `text.endsWith(suffix)` */
  predicate EndsWith(text: string, suffix: string) {
    |suffix| <= |text| && text[|text| - |suffix|..] == suffix
  }

  /** A text ends with a suffix exactly when it is some prefix followed by the suffix. */
  lemma EndsWithIsSuffix(text: string, suffix: string)
    ensures EndsWith(text, suffix) <==> exists prefix: string :: text == prefix + suffix
  {
    if EndsWith(text, suffix) {
      assert text == text[..|text| - |suffix|] + suffix;
    }
    forall prefix: string | text == prefix + suffix ensures EndsWith(text, suffix) {
      assert text[|prefix|..] == suffix;
    }
  }

  /** `SPECIAL_TERMS.contains(text) || text.endsWith("역")` */
  predicate IsTransitText(text: string): (r: bool)
    ensures r ==> text != []
  {
    text in SpecialTerms || EndsWith(text, "역")
  }

  /** `specialCondition`: over all blocks, the full-text block included. */
  predicate SpecialCondition(textAnnotations: seq<Annotation>): (r: bool)
    ensures r ==> textAnnotations != []
  {
    exists i :: 0 <= i < |textAnnotations| && IsTransitText(textAnnotations[i].description)
  }

  /** Whole terms or a station name count; a line that merely mentions one does not. */
  lemma TransitTextExamples()
    ensures IsTransitText("지하철") && IsTransitText("강남역")
    ensures !IsTransitText("2호선") && !IsTransitText("역삼동")
  {
    assert "2호선" != "호선" && "2호선" != "출입구" && "2호선" != "지하철";
  }

  /** The full-text block alone can switch the special path on. */
  lemma FullTextBlockCounts(textAnnotations: seq<Annotation>)
    requires |textAnnotations| > 0 && IsTransitText(textAnnotations[0].description)
    ensures SpecialCondition(textAnnotations)
  {
  }

  /** `largestArea`: the first area of the sorted blocks, 0 when there is none. */
  function LargestArea(sorted: seq<Annotation>): (r: int)
    ensures sorted == [] ==> r == 0
    ensures sorted != [] ==> exists i :: 0 <= i < |sorted| && r == Area(sorted[i])
    ensures Sorted(Comparator(ByAreaDescending), sorted) ==> forall i :: 0 <= i < |sorted| ==> Area(sorted[i]) <= r
  {
    if |sorted| > 0 then Area(sorted[0]) else 0
  }

  /** `secondLargestArea`: the second area of the sorted blocks, 0 when there is none. */
  function SecondLargestArea(sorted: seq<Annotation>): (r: int)
    ensures |sorted| < 2 ==> r == 0
    ensures |sorted| >= 2 ==> exists i :: 1 <= i < |sorted| && r == Area(sorted[i])
    ensures Sorted(Comparator(ByAreaDescending), sorted) ==> forall i :: 1 <= i < |sorted| ==> Area(sorted[i]) <= r
    ensures Sorted(Comparator(ByAreaDescending), sorted) && |sorted| >= 2 ==> r <= LargestArea(sorted)
  {
    if |sorted| > 1 then Area(sorted[1]) else 0
  }

  /** `secondLargestArea > 0 && largestArea / secondLargestArea > 2` */
  predicate LargestDominates(sorted: seq<Annotation>): (r: bool)
    ensures r ==> |sorted| >= 2 && Area(sorted[0]) > Area(sorted[1]) > 0
  {
    SecondLargestArea(sorted) > 0 && LargestArea(sorted) > 2 * SecondLargestArea(sorted)
  }

  function Min(a: int, b: int): int { if a <= b then a else b }

  /** `selectedAnnotations`: the largest block alone, or up to three from the front. */
  function SelectAnnotations(sorted: seq<Annotation>): (r: seq<Annotation>)
    ensures |r| == if LargestDominates(sorted) then 1 else Min(3, |sorted|)
    ensures r == sorted[..|r|]
  {
    if LargestDominates(sorted) then [sorted[0]] else sorted[..Min(3, |sorted|)]
  }

  /** Sorted by the area comparator means ordered by non-increasing area. */
  lemma SortedByAreaIsDescending(sorted: seq<Annotation>)
    requires Sorted(Comparator(ByAreaDescending), sorted)
    ensures forall i, j :: 0 <= i < j < |sorted| ==> Area(sorted[i]) >= Area(sorted[j])
  {
    forall i, j | 0 <= i < j < |sorted| ensures Area(sorted[i]) >= Area(sorted[j]) {
      assert Precedes(ByAreaDescending, sorted[i], sorted[j]);
    }
  }

  /**
    From blocks ordered by non-increasing area, no unselected block is larger
    than a selected one, and a single block is selected exactly when its area
    is more than twice that of every other block and the second is positive;
    otherwise up to three are.
   */
  lemma SelectionIsLargestFirst(sorted: seq<Annotation>)
    requires forall i, j :: 0 <= i < j < |sorted| ==> Area(sorted[i]) >= Area(sorted[j])
    ensures var selected := SelectAnnotations(sorted);
      && (forall i, j :: 0 <= i < |selected| <= j < |sorted| ==> Area(selected[i]) >= Area(sorted[j]))
      && (LargestDominates(sorted) ==>
            |selected| == 1 && forall j :: 1 <= j < |sorted| ==> Area(selected[0]) > 2 * Area(sorted[j]))
      && (!LargestDominates(sorted) ==> |selected| == Min(3, |sorted|))
  {
    var selected := SelectAnnotations(sorted);
    assert forall i :: 0 <= i < |selected| ==> selected[i] == sorted[i];
    if LargestDominates(sorted) {
      forall j | 1 <= j < |sorted| ensures Area(selected[0]) > 2 * Area(sorted[j]) {
        assert Area(sorted[1]) >= Area(sorted[j]);
      }
    }
  }

  /** The selection is made of blocks after the first, each at most as often as there. */
  lemma SelectionIsFromBlocks(rest: seq<Annotation>)
    ensures multiset(SelectAnnotations(SortBy(ByAreaDescending, rest))) <= multiset(rest)
  {
    var sorted := SortBy(ByAreaDescending, rest);
    PrefixIsSubMultiset(sorted, |SelectAnnotations(sorted)|);
  }

  lemma PrefixIsSubMultiset(s: seq<Annotation>, n: nat)
    requires n <= |s|
    ensures multiset(s[..n]) <= multiset(s)
  {
    assert s == s[..n] + s[n..];
    assert multiset(s) == multiset(s[..n]) + multiset(s[n..]);
  }

  /** With no dominant block, three blocks are taken whenever there are three. */
  lemma ThreeSelectedWithoutDominance(sorted: seq<Annotation>)
    requires |sorted| >= 3 && !LargestDominates(sorted)
    ensures |SelectAnnotations(sorted)| == 3
  {
  }

  /** The blocks after the full-text one, sorted by descending area. */
  lemma AreaSortIsPermutation(textAnnotations: seq<Annotation>)
    requires |textAnnotations| > 0
    ensures var sorted := SortBy(ByAreaDescending, textAnnotations[1..]);
      && multiset(sorted) == multiset(textAnnotations[1..])
      && forall i, j :: 0 <= i < j < |sorted| ==> Area(sorted[i]) >= Area(sorted[j])
  {
    SortByIsSorted(ByAreaDescending, textAnnotations[1..]);
    SortedByAreaIsDescending(SortBy(ByAreaDescending, textAnnotations[1..]));
  }

  /** The extracted text of each block, in order. */
  function Extracted(blocks: seq<Annotation>): (r: seq<string>)
    ensures |r| == |blocks|
    ensures forall i :: 0 <= i < |blocks| ==> r[i] == ExtractHangulAndNumbers(blocks[i].description)
    decreases |blocks|
  {
    if blocks == [] then [] else [ExtractHangulAndNumbers(blocks[0].description)] + Extracted(blocks[1..])
  }

  /** The non-empty texts, in order. */
  function NonEmptyTexts(texts: seq<string>): (r: seq<string>)
    ensures forall k :: 0 <= k < |r| ==> r[k] != [] && r[k] in texts
    decreases |texts|
  {
    if texts == [] then []
    else (if texts[0] == [] then [] else [texts[0]]) + NonEmptyTexts(texts[1..])
  }

  /** The special path's list: the non-empty extracted texts, in block order. */
  function TransitWords(blocks: seq<Annotation>): (r: seq<string>)
    ensures forall k :: 0 <= k < |r| ==> r[k] != [] && AllInClass(HangulDigits, r[k])
  {
    NonEmptyTexts(Extracted(blocks))
  }

  /** No non-empty text is left out and none is made up. */
  lemma {:induction false} NonEmptyTextsAreTheNonEmpty(texts: seq<string>)
    ensures forall w :: w in NonEmptyTexts(texts) <==> w in texts && w != []
    decreases |texts|
  {
    if texts != [] {
      NonEmptyTextsAreTheNonEmpty(texts[1..]);
      assert texts == [texts[0]] + texts[1..];
    }
  }

  /** Repeated texts are all kept: the filter does not de-duplicate. */
  lemma {:induction false} NonEmptyTextsKeepEveryCopy(texts: seq<string>)
    ensures forall w :: w != [] ==> multiset(NonEmptyTexts(texts))[w] == multiset(texts)[w]
    decreases |texts|
  {
    if texts != [] {
      NonEmptyTextsKeepEveryCopy(texts[1..]);
      assert texts == [texts[0]] + texts[1..];
      assert multiset(texts) == multiset{texts[0]} + multiset(texts[1..]);
      if texts[0] != [] {
        assert NonEmptyTexts(texts) == [texts[0]] + NonEmptyTexts(texts[1..]);
        assert multiset(NonEmptyTexts(texts)) == multiset{texts[0]} + multiset(NonEmptyTexts(texts[1..]));
      }
    }
  }

  /** ... and their order is kept. */
  lemma {:induction false} NonEmptyTextsKeepOrder(texts: seq<string>)
    ensures IsSubsequence(NonEmptyTexts(texts), texts)
    decreases |texts|
  {
    if texts != [] {
      NonEmptyTextsKeepOrder(texts[1..]);
      var t := NonEmptyTexts(texts);
      if texts[0] == [] {
        assert t == NonEmptyTexts(texts[1..]);
      } else {
        assert t[0] == texts[0] && t[1..] == NonEmptyTexts(texts[1..]);
      }
    }
  }

  predicate NoDuplicates(words: seq<string>) {
    forall i, j :: 0 <= i < j < |words| ==> words[i] != words[j]
  }

  /** The contents of a LinkedHashSet after adding `words` in order to an empty one. */
  function Dedup(words: seq<string>): (r: seq<string>)
    ensures forall w :: w in r <==> w in words
    ensures NoDuplicates(r)
    decreases |words|
  {
    if words == [] then []
    else
      var d := Dedup(words[..|words| - 1]);
      var w := words[|words| - 1];
      assert words == words[..|words| - 1] + [w];
      if w in d then d else d + [w]
  }

  lemma DedupAppend(words: seq<string>, w: string)
    ensures Dedup(words + [w]) == if w in Dedup(words) then Dedup(words) else Dedup(words) + [w]
  {
    assert (words + [w])[..|words|] == words;
  }

  /** Where `w` first occurs in `words`. */
  function FirstIndex(words: seq<string>, w: string): (i: nat)
    requires w in words
    ensures i < |words| && words[i] == w && w !in words[..i]
  {
    if words[0] == w then 0
    else
      assert words == [words[0]] + words[1..];
      1 + FirstIndex(words[1..], w)
  }

  lemma FirstIndexIsUnique(words: seq<string>, w: string, k: nat)
    requires k < |words| && words[k] == w && w !in words[..k]
    ensures FirstIndex(words, w) == k
  {
  }

  /** The de-duplicated words follow the order of the words' first occurrences. */
  lemma {:induction false} DedupFollowsFirstOccurrences(words: seq<string>)
    ensures var r := Dedup(words);
      forall i, j :: 0 <= i < j < |r| ==> FirstIndex(words, r[i]) < FirstIndex(words, r[j])
    decreases |words|
  {
    if words != [] {
      var front, w := words[..|words| - 1], words[|words| - 1];
      assert words == front + [w];
      DedupFollowsFirstOccurrences(front);
      DedupAppend(front, w);
      var d := Dedup(front);
      forall v | v in front
        ensures FirstIndex(words, v) == FirstIndex(front, v)
      {
        var k := FirstIndex(front, v);
        assert words[..k] == front[..k];
        FirstIndexIsUnique(words, v, k);
      }
      if w !in d {
        assert words[..|front|] == front;
        FirstIndexIsUnique(words, w, |front|);
        var r := d + [w];
        forall i, j | 0 <= i < j < |r|
          ensures FirstIndex(words, r[i]) < FirstIndex(words, r[j])
        {
          assert r[i] == d[i] && d[i] in front;
          var fi := FirstIndex(words, d[i]);
          assert fi == FirstIndex(front, d[i]);
          if j < |d| {
            assert r[j] == d[j] && d[j] in front;
            assert FirstIndex(words, d[j]) == FirstIndex(front, d[j]);
          } else {
            assert r[j] == w;
            assert fi < |front|;
          }
        }
      }
    }
  }

  /** The words `removeSpecialCharacters(description).split("\\s+")` of one block. */
  function BlockWords(a: Annotation): (r: seq<string>)
    ensures |r| > 0
  {
    Split(RemoveSpecialCharacters(a.description))
  }

  /** The words of all blocks, block after block. */
  function AllWords(blocks: seq<Annotation>): (r: seq<string>)
    ensures |r| >= |blocks|
    decreases |blocks|
  {
    if blocks == [] then [] else AllWords(blocks[..|blocks| - 1]) + BlockWords(blocks[|blocks| - 1])
  }

  lemma AllWordsStep(blocks: seq<Annotation>, i: nat)
    requires i < |blocks|
    ensures AllWords(blocks[..i + 1]) == AllWords(blocks[..i]) + BlockWords(blocks[i])
  {
    assert blocks[..i + 1][..i] == blocks[..i];
  }

  /**
    The loop that `Collections.addAll`s each block's words into a
    LinkedHashSet; the set is the sequence `uniqueWords` in insertion order.
   */
  method UniqueWords(blocks: seq<Annotation>) returns (uniqueWords: seq<string>)
    ensures uniqueWords == Dedup(AllWords(blocks))
  {
    uniqueWords := [];
    assert AllWords(blocks[..0]) == [];
    for i := 0 to |blocks|
      invariant uniqueWords == Dedup(AllWords(blocks[..i]))
    {
      ghost var before := AllWords(blocks[..i]);
      uniqueWords := AddAll(uniqueWords, BlockWords(blocks[i]), before);
      AllWordsStep(blocks, i);
    }
    assert blocks[..|blocks|] == blocks;
  }

  /** `uniqueWords.add(w)` on a LinkedHashSet that holds the de-duplicated `before`. */
  method AddOne(uniqueWords: seq<string>, w: string, ghost before: seq<string>) returns (r: seq<string>)
    requires uniqueWords == Dedup(before)
    ensures r == Dedup(before + [w])
  {
    DedupAppend(before, w);
    r := uniqueWords;
    if w !in r {
      r := r + [w];
    }
  }

  /**
    `Collections.addAll(uniqueWords, words)` on a LinkedHashSet that holds the
    de-duplicated `before`: each word not yet present is added at the end.
   */
  method AddAll(uniqueWords: seq<string>, words: seq<string>, ghost before: seq<string>) returns (r: seq<string>)
    requires uniqueWords == Dedup(before)
    ensures r == Dedup(before + words)
  {
    r := uniqueWords;
    assert before + words[..0] == before;
    for j := 0 to |words|
      invariant r == Dedup(before + words[..j])
    {
      r := AddOne(r, words[j], before + words[..j]);
      assert before + words[..j + 1] == before + words[..j] + [words[j]];
    }
    assert words[..|words|] == words;
  }

  /** `sortedSelectedAnnotations`: the selected blocks, left to right, then top to bottom. */
  function ReadingOrder(textAnnotations: seq<Annotation>): (r: seq<Annotation>)
    requires |textAnnotations| > 0
    ensures |r| <= 3
    ensures multiset(r) == multiset(SelectAnnotations(SortBy(ByAreaDescending, textAnnotations[1..])))
    ensures multiset(r) <= multiset(textAnnotations[1..])
    ensures Sorted(Comparator(ByLeftThenTop), r)
  {
    SelectionIsFromBlocks(textAnnotations[1..]);
    SortByIsSorted(ByLeftThenTop, SelectAnnotations(SortBy(ByAreaDescending, textAnnotations[1..])));
    SortBy(ByLeftThenTop, SelectAnnotations(SortBy(ByAreaDescending, textAnnotations[1..])))
  }

  /** `finalText` for a non-empty list of blocks. */
  function FinalText(textAnnotations: seq<Annotation>): (r: seq<string>)
    requires |textAnnotations| > 0
    ensures SpecialCondition(textAnnotations) ==> forall k :: 0 <= k < |r| ==> r[k] != []
    ensures !SpecialCondition(textAnnotations) ==> NoDuplicates(r)
  {
    if SpecialCondition(textAnnotations) then TransitWords(textAnnotations[1..])
    else Dedup(AllWords(ReadingOrder(textAnnotations)))
  }

  /** Every word of the non-special path is made of letters, digits and syllables. */
  lemma {:induction false} AllWordsInClass(blocks: seq<Annotation>)
    ensures forall k :: 0 <= k < |AllWords(blocks)| ==> AllInClass(LettersDigitsHangul, AllWords(blocks)[k])
    decreases |blocks|
  {
    if blocks != [] {
      AllWordsInClass(blocks[..|blocks| - 1]);
      SplitStaysInClass(LettersDigitsHangul, RemoveSpecialCharacters(blocks[|blocks| - 1].description));
    }
  }

  /**
    The text handed back for blocks is made of ASCII letters and digits,
    Hangul syllables and whitespace only, so it is never "No text found.".
   */
  lemma FinalTextInClass(textAnnotations: seq<Annotation>)
    requires |textAnnotations| > 0
    ensures AllInClass(LettersDigitsHangul, Join(FinalText(textAnnotations)))
    ensures Join(FinalText(textAnnotations)) != NoTextFound
  {
    var words := FinalText(textAnnotations);
    if SpecialCondition(textAnnotations) {
      forall k | 0 <= k < |words| ensures AllInClass(LettersDigitsHangul, words[k]) {
        assert AllInClass(HangulDigits, words[k]);
      }
    } else {
      var all := AllWords(ReadingOrder(textAnnotations));
      AllWordsInClass(ReadingOrder(textAnnotations));
      forall k | 0 <= k < |words| ensures AllInClass(LettersDigitsHangul, words[k]) {
        assert words[k] in all;
      }
    }
    JoinStaysInClass(LettersDigitsHangul, words);
    assert !InClass(LettersDigitsHangul, NoTextFound[13]);
  }

  /**
    Outside the special path the words are unique, are exactly the words of
    the selected blocks, and keep their first-occurrence order over the
    selected blocks read left to right, top to bottom.
   */
  lemma WordsAreUniqueInReadingOrder(textAnnotations: seq<Annotation>)
    requires |textAnnotations| > 0 && !SpecialCondition(textAnnotations)
    ensures var all := AllWords(ReadingOrder(textAnnotations));
      && FinalText(textAnnotations) == Dedup(all)
      && NoDuplicates(Dedup(all))
      && (forall w :: w in Dedup(all) <==> w in all)
      && (forall i, j :: 0 <= i < j < |Dedup(all)| ==> FirstIndex(all, Dedup(all)[i]) < FirstIndex(all, Dedup(all)[j]))
  {
    DedupFollowsFirstOccurrences(AllWords(ReadingOrder(textAnnotations)));
  }

  /** Every word of the non-special path is free of whitespace. */
  lemma {:induction false} AllWordsHaveNoSpace(blocks: seq<Annotation>)
    ensures forall k :: 0 <= k < |AllWords(blocks)| ==> AllInClass(NonSpace, AllWords(blocks)[k])
    decreases |blocks|
  {
    if blocks != [] {
      AllWordsHaveNoSpace(blocks[..|blocks| - 1]);
    }
  }

  /**
    Outside the special path, when no empty word was collected, splitting the
    returned text at whitespace gives back exactly the collected words.
   */
  lemma TextSplitsIntoWords(textAnnotations: seq<Annotation>)
    requires |textAnnotations| > 0 && !SpecialCondition(textAnnotations)
    requires FinalText(textAnnotations) != [] && "" !in FinalText(textAnnotations)
    ensures Split(Join(FinalText(textAnnotations))) == FinalText(textAnnotations)
  {
    var all := AllWords(ReadingOrder(textAnnotations));
    var words := FinalText(textAnnotations);
    AllWordsHaveNoSpace(ReadingOrder(textAnnotations));
    forall k | 0 <= k < |words| ensures words[k] != [] && AllInClass(NonSpace, words[k]) {
      assert words[k] in all;
    }
    SplitJoinRoundTrip(words);
  }

  /**
    A selected block with no letter, digit or syllable still adds a word, the
    empty one, because splitting an empty string gives one empty string ...
   */
  lemma BlankBlockGivesEmptyWord(vertices: seq<Vertex>)
    ensures BlockWords(Annotation("!?", vertices)) == [""]
  {
    assert Keep(LettersDigitsHangul, "!?"[1..]) == [];
    assert Keep(LettersDigitsHangul, "!?") == [];
  }

  /** ... so the returned text gets a stray space: ["가나", ""] is joined into "가나 ". */
  lemma EmptyWordLeavesStraySpace()
    ensures Join(["가나", ""]) == "가나 "
  {
    assert ["가나", ""][1..] == [""];
  }

  /**
    On the special path the list is the non-empty extracted text of every
    block after the first, in block order.
   */
  lemma TransitPathTakesEveryBlock(textAnnotations: seq<Annotation>)
    requires |textAnnotations| > 0 && SpecialCondition(textAnnotations)
    ensures var words := FinalText(textAnnotations);
      var extracted := Extracted(textAnnotations[1..]);
      && (forall k :: 0 <= k < |words| ==> words[k] != [])
      && IsSubsequence(words, extracted)
      && (forall w :: w in words <==> w in extracted && w != [])
      && (forall w :: w != [] ==> multiset(words)[w] == multiset(extracted)[w])
  {
    NonEmptyTextsKeepOrder(Extracted(textAnnotations[1..]));
    NonEmptyTextsAreTheNonEmpty(Extracted(textAnnotations[1..]));
    NonEmptyTextsKeepEveryCopy(Extracted(textAnnotations[1..]));
  }

  /**
    `detectTextFromImage` after the Vision call: "No text found." for no
    blocks, otherwise the final words joined by single spaces.
   */
  method DetectText(textAnnotations: seq<Annotation>) returns (text: string)
    ensures textAnnotations == [] ==> text == NoTextFound
    ensures textAnnotations != [] ==> text == Join(FinalText(textAnnotations))
    ensures textAnnotations != [] ==> AllInClass(LettersDigitsHangul, text) && text != NoTextFound
  {
    if textAnnotations == [] {
      return NoTextFound;
    }
    var sortedTextAnnotations := SortBy(ByAreaDescending, textAnnotations[1..]);
    var specialCondition := SpecialCondition(textAnnotations);
    var finalText: seq<string>;
    if specialCondition {
      finalText := TransitWords(textAnnotations[1..]);
    } else {
      var selectedAnnotations := SelectAnnotations(sortedTextAnnotations);
      var sortedSelectedAnnotations := SortBy(ByLeftThenTop, selectedAnnotations);
      finalText := UniqueWords(sortedSelectedAnnotations);
    }
    text := Join(finalText);
    FinalTextInClass(textAnnotations);
  }
}
