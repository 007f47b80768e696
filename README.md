# AllTaxi destination dialogue and sign reading, in Dafny

AllTaxi lets a passenger tell a taxi service where to go, by voice, in
Korean. Two parts of it decide what the destination is:

- the **destination chat bot** (`model.py`, class `TaxiChatBot`): a small
  dialogue that takes the passenger's first utterance, has a language model
  normalise it into a place name, asks for the branch when the name is a
  chain store (Starbucks, CU, GS25, ...), and then asks "is this right?"
  until a yes-word confirms it (the destination and branch are then handed
  on) or a no-word starts over. An earlier version of the same bot
  (`destination-chat-model.py`) has no branch question, takes the utterance
  as it is and classifies yes/no with fewer words;
- the **sign reader** (`TransController.java`, `detectTextFromImage`): given
  the text blocks Google Vision found on a photo of a sign, it either keeps
  the Hangul and digits of every block after the full-text one, dropping
  those that come out empty (when some block is a transit word
  such as "호선", "출입구", "지하철" or ends in "역", station), or picks the
  largest block, or the three largest when none dominates, orders them left
  to right and top to bottom, splits them into words, drops repeated words
  and joins the rest with spaces.

The project models both.

| file | module | models |
|---|---|---|
| `options.dfy` | `Options` | Python's `None` / a value |
| `pystr.dfy` | `PyStr` | Python's `str.isspace`, `strip`, substring `in` and truthiness |
| `chat_model.dfy` | `ChatModel` | `model.py`'s `TaxiChatBot` |
| `early_chat_model.dfy` | `EarlyChatModel` | `destination-chat-model.py`'s `TaxiChatBot` |
| `ocr_text.dfy` | `OcrText` | the controller's character filters, Java's `trim`, `split("\\s+")` and `String.join(" ", ...)` |
| `stable_sort.dfy` | `StableSort` | Java's stable `Stream.sorted` over any comparator |
| `annotations.dfy` | `Annotations` | Vision text blocks, bounding-box area, left and top, the two comparators |
| `trans_controller.dfy` | `TransController` | the selection, transit path and de-duplication of `detectTextFromImage` |

Each chat bot is written twice: as a pure transition function `Turn` from a
`Session` value (the bot's fields) and a message to the next session and the
reply, about which every property is proved, and as a `class TaxiChatBot`
whose fields `ProcessMessage` updates in place, proved to make exactly the
step `Turn` describes. The language model that corrects the destination is a
parameter `correct: string -> string`; the earlier bot's
`conversation.predict` answer is a parameter `response`. Vision coordinates
are integers, areas are exact integers.

## Model

| member | source | states |
|---|---|---|
| `ChatModel.TaxiChatBot.constructor` | model.py:85-93 | a new bot has no destination, no branch, is not asking for a branch and is not confirmed (the reachable-session invariant holds) |
| `ChatModel.InitialIsConsistent` | model.py:85-93 | the initial session satisfies the reachable-session invariant `Consistent` |
| `ChatModel.IsChainStore` | model.py:134-135 | a chain store name is non-empty and carries no surrounding whitespace |
| `ChatModel.ChainStoreIsExactMembership` | model.py:134-135 | membership is exact list membership: "스타벅스" is a chain store, "스타벅스 강남역점" contains it but is not one |
| `ChatModel.CorrectDestination` | model.py:95-97 | whatever the language model answers, the corrected destination has no leading or trailing whitespace |
| `PyStr.IsSpace` | model.py:96 | definition of `str.isspace()` over the characters Python treats as whitespace, the set `strip()` removes; `Strip` and `StripCutsOnlyEnds` are stated in its terms |
| `PyStr.Contains` | model.py:117 | definition of `needle in message` for strings: `needle` occurs at some index; `ContainsIsInfix` characterises it |
| `PyStr.ContainsIsInfix` | model.py:117 | a string contains another if and only if it is that string with something before and something after it |
| `PyStr.ContainsAny` | model.py:117-123 | definition of `any(w in message for w in words)`: some word of the list occurs in the message; `EmptyContainsNoWord`, `PositiveWinsOverNegative` and `YesBeforeNo` state its effect |
| `PyStr.Truthy` | model.py:100 | definition of the truthiness that `if not self.destination` tests: `None` and `""` are falsy, every other string truthy; `EmptyDestinationIsReplaced` shows the `""` case |
| `PyStr.Strip` | model.py:96 | the result has no surrounding whitespace, is no longer than the input, and a stripped input is returned unchanged |
| `PyStr.StripCutsOnlyEnds` | model.py:96 | `strip` removes whitespace from the two ends only: the result is a contiguous slice of the input with nothing but whitespace before and after it |
| `PyStr.StripIdempotent` | model.py:101-102 | stripping the already stripped correction again changes nothing |
| `PyStr.StripSpaceJoin` | model.py:120 | stripping "destination + space + branch" gives the destination alone when the branch is empty, otherwise both joined by one space |
| `ChatModel.Turn` | model.py:99-132 | a turn is done exactly when it hands on a final destination; a done turn is the one that confirms an unconfirmed session; a confirmed session stays confirmed |
| `ChatModel.TaxiChatBot.ProcessMessage` | model.py:99-132 | one call makes exactly the transition `Turn` describes on the bot's fields and returns its reply, final destination and done flag; it keeps the invariant |
| `ChatModel.TurnPreservesConsistent` | model.py:99-132 | every turn keeps the invariant: destination and branch stripped, no branch or confirmation without a destination, no branch question after confirmation, a final destination exactly when confirmed |
| `ChatModel.DestinationTurn` | model.py:100-108 | with no (or an empty) destination the new session is the old one with the stripped correction of the message as destination and, when it is a chain store, the branch question set (a pending branch question stays); nothing else changes and the turn is never done |
| `ChatModel.BranchTurn` | model.py:109-112 | while a branch is asked for, the stripped message becomes the branch and the question stops; nothing else changes and the turn is not done |
| `ChatModel.DoneExactlyOnConfirmation` | model.py:113-122 | a turn is done if and only if confirmation was awaited and the message contains a positive word; then the final destination is destination and branch assembled, the session becomes confirmed and nothing else changes; every other turn hands on nothing |
| `ChatModel.PositiveWinsOverNegative` | model.py:117-123 | a message with both a positive and a negative word confirms, because the positive words are checked first |
| `ChatModel.WrongIsTakenAsYes` | model.py:114-118 | "아니 틀렸어" (no, wrong) confirms, since "어" is a positive word and occurs inside "틀렸어" |
| `ChatModel.NegativeResets` | model.py:123-126 | a message with a negative word and no positive word clears destination and branch, leaves the bot collecting a destination again and asks again |
| `ChatModel.UnrecognisedReplyKeepsSession` | model.py:127-128 | a message with neither kind of word leaves the session unchanged and asks for yes or no |
| `ChatModel.EmptyReplyKeepsSession` | model.py:113-128 | an empty message while confirmation is awaited changes nothing |
| `ChatModel.Assemble` | model.py:120 | `f"{destination} {branch_info}".strip()`: the result has no surrounding whitespace; its exact shape is `FinalDestinationShape` |
| `ChatModel.FinalDestinationShape` | model.py:120 | the final destination is the destination alone when no branch was given, else destination, one space, branch |
| `ChatModel.SeoulStationIsConfirmed` | model.py:113-122 | with destination "서울역" and no branch, "네" hands on exactly "서울역" and announces the search |
| `ChatModel.ConfirmedTurnIsInert` | model.py:129-132 | once confirmed, a turn changes nothing, hands on nothing and is not done |
| `ChatModel.Run` | model.py:99-132 | a sequence of `process_message` calls with one normaliser; a confirmed session stays confirmed through the whole run (`ConfirmedSessionIsFrozen` proves it unchanged) |
| `ChatModel.ConfirmedSessionIsFrozen` | model.py:129-130 | once confirmed, any sequence of turns leaves the session as it was |
| `ChatModel.RejectThenRestate` | model.py:100-126 | after a rejection, the next message's correction becomes the new destination with no branch and no confirmation, and a branch is asked for exactly when it is a chain store |
| `EarlyChatModel.TaxiChatBot.constructor` | destination-chat-model.py:43-46 | a new bot has no destination and is not confirmed |
| `EarlyChatModel.Turn` | destination-chat-model.py:48-65 | a confirmed session stays confirmed; a turn that confirms keeps the destination, which is non-empty |
| `EarlyChatModel.TaxiChatBot.ProcessMessage` | destination-chat-model.py:48-65 | one call makes exactly the transition `Turn` describes; a confirmed bot stays confirmed with the same destination |
| `EarlyChatModel.TurnPreservesConsistent` | destination-chat-model.py:48-65 | no turn confirms a session that has no destination |
| `EarlyChatModel.UnsetDestinationTakesMessage` | destination-chat-model.py:51-53 | with no destination the message itself, unstripped and uncorrected, becomes the destination and the reply is the oracle's answer, a newline and the question |
| `EarlyChatModel.EmptyDestinationIsReplaced` | destination-chat-model.py:51-52 | an empty message is stored, but counts as no destination, so the next message replaces it |
| `EarlyChatModel.SaysYes` | destination-chat-model.py:56 | the inline yes test holds only of a non-empty message; `YesConfirms` and `YesBeforeNo` give its effect |
| `EarlyChatModel.SaysNo` | destination-chat-model.py:59 | the inline no test holds only of a message of two or more characters; `NoRejects` gives its effect |
| `EarlyChatModel.YesConfirms` | destination-chat-model.py:55-58 | a message containing "네", "맞아" or "응" confirms the destination and announces the search |
| `EarlyChatModel.NoRejects` | destination-chat-model.py:59-61 | a message containing "아니" and no yes-word clears the destination and asks again |
| `EarlyChatModel.YesBeforeNo` | destination-chat-model.py:56-61 | "아니 맞아" confirms, because the yes-words are checked first |
| `EarlyChatModel.NeitherKeepsSession` | destination-chat-model.py:62-63 | a message with neither kind of word changes nothing and asks for yes or no |
| `EarlyChatModel.ConfirmedTurnEchoesResponse` | destination-chat-model.py:65 | once confirmed, a turn changes nothing and returns the oracle's answer |
| `EarlyChatModel.Run` | destination-chat-model.py:48-65 | a sequence of `process_message` calls, the chain answering each in turn; a confirmed session stays confirmed through the whole run (`ConfirmationIsPermanent` proves it unchanged) |
| `EarlyChatModel.ConfirmationIsPermanent` | destination-chat-model.py:55-65 | once confirmed, any sequence of turns leaves the session as it was |
| `EarlyChatModel.RejectThenRestate` | destination-chat-model.py:51-61 | after a rejection the next message becomes the new, unconfirmed destination |
| `OcrText.IsRegexSpace` | TransController.java:205 | definition of the regex class `\s`: the space and tab through carriage return |
| `OcrText.IsAsciiLetter` | TransController.java:205 | definition of the regex ranges `a-zA-Z` |
| `OcrText.IsAsciiDigit` | TransController.java:205 | definition of the regex range `0-9` (also at `TransController.java:210`) |
| `OcrText.IsHangulSyllable` | TransController.java:205 | definition of the regex range `가-힣` (also at `TransController.java:210`) |
| `OcrText.IsTrimmable` | TransController.java:205 | definition of what `trim()` removes: every character at or below U+0020 |
| `OcrText.Keep` | TransController.java:205 | deleting the characters outside a class leaves only class characters and leaves a text of class characters unchanged |
| `OcrText.KeepIsSubsequence` | TransController.java:205 | the deletion keeps the order of the characters it keeps |
| `OcrText.KeepCountsClass` | TransController.java:205 | the deletion drops no occurrence of a character of the class |
| `OcrText.KeepIsClassSubsequence` | TransController.java:205 | the deletion keeps the input's order and every occurrence of every class character |
| `OcrText.Trim` | TransController.java:205 | `trim()` leaves no character at or below the space at either end, keeps order and every other character, and changes nothing on a trimmed text (that only the ends are cut is `TrimCutsOnlyEnds`) |
| `OcrText.TrimCutsOnlyEnds` | TransController.java:205 | `trim()` cuts characters at or below the space from the two ends only: the result is a contiguous slice of the input with only such characters around it |
| `OcrText.TrimmedEndsCount` | TransController.java:205 | cutting only characters at or below the space off the ends keeps every other character |
| `OcrText.Clean` | TransController.java:204-211 | filter then trim gives class characters only, trimmed, in input order, with every class character that `trim()` cannot remove (above U+0020) kept |
| `OcrText.RemoveSpecialCharacters` | TransController.java:204-206 | only ASCII letters, digits, Hangul syllables and regex whitespace remain, none of that whitespace at either end, in input order, and every letter, digit and syllable of the input is kept |
| `OcrText.ExtractHangulAndNumbers` | TransController.java:209-211 | only Hangul syllables, digits and regex whitespace remain, no whitespace at either end, in input order, with every syllable and digit kept |
| `OcrText.FiltersCutOnlyEnds` | TransController.java:204-211 | each filter's result is the class characters of the input, in order, with whitespace cut from the two ends only, never from inside |
| `OcrText.InnerSpaceIsKept` | TransController.java:204-206 | "가 나!" becomes "가 나": the inner space survives, the "!" goes |
| `OcrText.ExtractIsIdempotent` | TransController.java:209-211 | extracting twice gives the same as once |
| `OcrText.Split` | TransController.java:154 | `split("\\s+")` of an empty text is one empty word; of a text not starting with whitespace, non-empty words; of a text starting with whitespace, nothing or a leading empty word; only the first word may be empty; no word holds whitespace |
| `OcrText.WordsSeparate` | TransController.java:154 | the maximal whitespace-free runs of a text, put back between its whitespace runs (all but the outer two non-empty), rebuild the text exactly |
| `OcrText.SplitRebuildsText` | TransController.java:154 | the words `split` returns, interleaved with whitespace runs that are non-empty between words, rebuild the input exactly: no character is lost, added or moved |
| `OcrText.SplitStaysInClass` | TransController.java:154 | the words of a text are in every character class the text is in |
| `OcrText.Join` | TransController.java:161 | joining a single word gives the word itself |
| `OcrText.JoinStaysInClass` | TransController.java:161 | joining words of a class that contains the space stays in the class |
| `OcrText.SplitJoinRoundTrip` | TransController.java:154-161 | splitting the join of non-empty, whitespace-free words gives back the words |
| `Annotations.BoundingBoxToRectangle` | TransController.java:179-187 | the rectangle's corner is vertex 0 and its opposite corner vertex 2 |
| `Annotations.Area` | TransController.java:169-176 | a box with fewer than four vertices has area 0; otherwise the area is the product of the x and y differences between vertex 2 and vertex 0 |
| `Annotations.AreaPositive` | TransController.java:169-176 | the area is positive if and only if there are four vertices and vertex 2 lies strictly below-right or strictly above-left of vertex 0 |
| `Annotations.MinCoordinate` | TransController.java:193 | the minimum is no larger than the coordinate of any vertex |
| `Annotations.Left` | TransController.java:190-194 | left is 0 without vertices and otherwise no larger than any vertex's x |
| `Annotations.Top` | TransController.java:197-201 | top is 0 without vertices and otherwise no larger than any vertex's y |
| `Annotations.MinCoordinateIsLeast` | TransController.java:193 | the minimum is the coordinate of some vertex and no vertex has a smaller one |
| `Annotations.LeftTopAreLeast` | TransController.java:190-201 | left and top are 0 without vertices, otherwise the least x and the least y, each attained by some vertex |
| `Annotations.Precedes` | TransController.java:114-148 | `compare(a, b) <= 0` of either comparator, defined by its body exactly as the Java comparators compare; the ensures states only the reflexive and total halves (every block may come before itself; when `a` may not come before `b`, `b` comes strictly first); transitivity is `ComparatorIsTotalPreorder` |
| `Annotations.Comparator` | TransController.java:114-148 | definition: `Precedes` as the function value the stable sort takes; `ComparatorIsTotalPreorder` proves it total and transitive |
| `Annotations.ComparatorIsTotalPreorder` | TransController.java:114-148 | both comparators (area descending; left, then top) are total and transitive, as `Comparator` requires |
| `StableSort.Insert` | TransController.java:112-115 | inserting adds exactly the one element |
| `StableSort.Sort` | TransController.java:112-115 | sorting permutes the elements |
| `StableSort.InsertKeepsSorted` | TransController.java:112-115 | inserting into a sorted list under a total, transitive comparator keeps it sorted |
| `StableSort.SortIsSorted` | TransController.java:112-115 | the result is ordered by any total, transitive comparator |
| `StableSort.InsertIsStable` | TransController.java:146-149 | inserting keeps the relative order of the elements tied with any element, the inserted one going first |
| `StableSort.SortIsStable` | TransController.java:146-149 | the sort is stable: the elements tied with any element keep their input order |
| `Annotations.SortBy` | TransController.java:112-115 | sorting the blocks permutes them |
| `Annotations.SortByIsSorted` | TransController.java:114 | the sorted blocks are ordered by the comparator: each block may come before every later one |
| `Annotations.SortByIsStable` | TransController.java:146-149 | blocks with equal keys (equal area; equal left and top) keep their input order |
| `TransController.IsTransitText` | TransController.java:124 | only a non-empty description can be a transit word |
| `TransController.SpecialCondition` | TransController.java:122-124 | the transit path needs at least one block |
| `TransController.EndsWith` | TransController.java:124 | definition of `text.endsWith(suffix)`; `EndsWithIsSuffix` characterises it |
| `TransController.EndsWithIsSuffix` | TransController.java:124 | a text ends with a suffix if and only if it is some prefix followed by that suffix |
| `TransController.TransitTextExamples` | TransController.java:47 | "지하철" and "강남역" are transit words, "2호선" and "역삼동" are not (membership is exact, only the suffix "역" counts) |
| `TransController.FullTextBlockCounts` | TransController.java:122-124 | a transit word as the first, whole-image block is enough to take the transit path |
| `TransController.LargestDominates` | TransController.java:118-137 | defined by its body as `secondLargestArea > 0 && largestArea / secondLargestArea > 2` on exact areas; the ensures states one direction only: dominance needs two blocks, the second of positive area and the first strictly larger |
| `TransController.LargestArea` | TransController.java:118 | `largestArea` is 0 for no blocks and otherwise the area of some block; on blocks sorted by the area comparator no block's area exceeds it, so it is the largest area |
| `TransController.SecondLargestArea` | TransController.java:119 | `secondLargestArea` is 0 for fewer than two blocks and otherwise the area of some block after the first; on blocks sorted by the area comparator it bounds every block after the first and is at most `largestArea` |
| `TransController.SelectAnnotations` | TransController.java:137-143 | one block is chosen when the largest dominates, otherwise the first three (or fewer), always a prefix of the sorted blocks |
| `TransController.SortedByAreaIsDescending` | TransController.java:112-115 | sorted by the area comparator, areas never increase |
| `TransController.SelectionIsLargestFirst` | TransController.java:137-143 | no chosen block is smaller than an unchosen one; a lone chosen block has more than twice the area of every other block |
| `TransController.SelectionIsFromBlocks` | TransController.java:112-142 | the chosen blocks are among the blocks after the whole-image block |
| `TransController.ThreeSelectedWithoutDominance` | TransController.java:142 | with at least three blocks and no dominant block, exactly three are chosen |
| `TransController.AreaSortIsPermutation` | TransController.java:112-115 | the area sort drops the first block only, and orders the rest by non-increasing area |
| `TransController.Extracted` | TransController.java:130-131 | each block's description is filtered to Hangul and digits, one per block |
| `TransController.NonEmptyTexts` | TransController.java:132 | the filter keeps only non-empty texts, each taken from its input |
| `TransController.NonEmptyTextsAreTheNonEmpty` | TransController.java:132 | a text is kept if and only if it is a non-empty text of the input |
| `TransController.NonEmptyTextsKeepEveryCopy` | TransController.java:132-133 | each non-empty text is kept as many times as it occurs: the list is not de-duplicated |
| `TransController.NonEmptyTextsKeepOrder` | TransController.java:132-133 | the kept texts stay in input order |
| `TransController.TransitWords` | TransController.java:128-133 | the transit path yields only non-empty words of Hangul, digits and whitespace |
| `TransController.TransitPathTakesEveryBlock` | TransController.java:127-133 | on the transit path the words are exactly the non-empty filtered texts of every block after the first, in block order, each as many times as it occurs |
| `TransController.ReadingOrder` | TransController.java:137-149 | exactly the selected blocks (a permutation of the selection), hence at most three and all taken from the blocks after the full-text one, ordered by left, then top |
| `TransController.FinalText` | TransController.java:126-157 | on the transit path no word is empty; otherwise no word is repeated |
| `TransController.Dedup` | TransController.java:152-157 | the distinct words hold exactly the words given, each once |
| `TransController.DedupAppend` | TransController.java:155 | adding a word keeps the list when it is already present and appends it otherwise |
| `TransController.FirstIndex` | TransController.java:155 | the index found is the first occurrence of the word |
| `TransController.FirstIndexIsUnique` | TransController.java:155 | an index with no earlier occurrence is the first index |
| `TransController.DedupFollowsFirstOccurrences` | TransController.java:152-157 | the distinct words come in the order of their first occurrence |
| `TransController.BlockWords` | TransController.java:154 | `removeSpecialCharacters(description).split("\\s+")` gives every block at least one word, since the filtered text never starts with whitespace |
| `TransController.AllWords` | TransController.java:152-156 | the words of all blocks, block after block, at least one per block |
| `TransController.AllWordsStep` | TransController.java:153-156 | each block's words are added after those of the earlier blocks |
| `TransController.UniqueWords` | TransController.java:152-157 | the loop over the ordered blocks produces the de-duplicated list of all their words |
| `TransController.AddOne` | TransController.java:155 | adding one word to the set that holds the de-duplicated words seen so far gives the de-duplication of those words and the new one |
| `TransController.AddAll` | TransController.java:155 | adding a block's words keeps the collected list equal to the de-duplication of everything seen |
| `TransController.AllWordsInClass` | TransController.java:153-156 | every collected word holds only characters of the filter's class (letters, digits, Hangul and whitespace); `AllWordsHaveNoSpace` rules the whitespace out |
| `TransController.AllWordsHaveNoSpace` | TransController.java:154 | no collected word holds whitespace |
| `TransController.WordsAreUniqueInReadingOrder` | TransController.java:145-157 | outside the transit path the words are the distinct words of the chosen blocks in reading order, each once, in first-occurrence order |
| `TransController.TextSplitsIntoWords` | TransController.java:152-161 | when no collected word is empty, splitting the returned text gives back exactly the distinct words |
| `TransController.BlankBlockGivesEmptyWord` | TransController.java:154 | a block with no letter, digit or syllable ("!?") still adds a word, the empty one |
| `TransController.EmptyWordLeavesStraySpace` | TransController.java:161 | an empty word leaves a stray space: ["가나", ""] is returned as "가나 " |
| `TransController.FinalTextInClass` | TransController.java:126-161 | the returned text holds only letters, digits, Hangul and whitespace, so it is never "No text found." |
| `TransController.DetectText` | TransController.java:105-161 | no blocks give "No text found."; otherwise the final words joined by single spaces, which is never "No text found." |

## Left out

- Speech to text (`/STT`), the Vision client, its credentials, the image upload and the `IOException` path of `detectTextFromImage`: I/O; the model starts from the list of text blocks Vision returns.
- The language-model prompts and chains (`correction_chain`, `main_chain`, `conversation.predict`): foreign calls; their answers are parameters.
- The Flask and Socket.IO handlers and the per-client session table of `model.py`, and the console loop (`destination-chat-model.py:68-81`) and the package installation line (`destination-chat-model.py:1`): I/O around the bot, not its logic.
- `chat_history` and `main_chain` of `model.py`'s bot: set in the constructor and never read by `process_message`.
- `ChatModel.Run`: one normaliser is used for every turn, while the real language model may answer the same text differently at different times.
- `Annotations.Area`: Vision coordinates are 32-bit integers and the areas Java doubles; the model uses exact integers, so three things are not modelled: rounding of very large areas; the 32-bit wrap-around of `getX() - getX()` and `getY() - getY()` (`TransController.java:184-185`) for coordinates far apart; and signed zero. A four-vertex box with vertex 2 at the same x as vertex 0 and above it has area `0.0 * negative = -0.0`, and `Comparator.comparingDouble(..).reversed()` puts a `+0.0` block (fewer than four vertices, `TransController.java:171-172`) before it, while the model ties them. For blocks [full text, A, B, C, D] with A, B, C such `-0.0` boxes and D a `+0.0` one, Java's `limit(3)` selects D, A, B and the model A, B, C.
- `TransController.SelectAnnotations`: `largestArea / secondLargestArea > 2` on doubles with a positive divisor is modelled as `largest > 2 * second` on integers, which agrees for every pair of exact areas.
- The Java regular expression engine is not modelled; the classes `[^a-zA-Z0-9가-힣\s]` and `[^가-힣0-9\s]` are written out character by character, with `\s` as space and tab through carriage return.
- The comment at `TransController.java:141` speaks of the two largest blocks; the code takes up to three, and the model follows the code.
- Subway line, exit or "no station" sentinel handling beyond the transit-word test is not part of the code and so not of the model.
- `TransController.DetectText`: a block whose description has no letter, digit or syllable contributes the empty word and so a stray space (`BlankBlockGivesEmptyWord`, `EmptyWordLeavesStraySpace`); this is modelled as written, without a corrected variant.
