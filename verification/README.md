# FriBidi and cJSON: a Dafny model

Two libraries that are kept under `3rd/` hold the algorithms of this repository.

**FriBidi** is the Unicode Bidirectional Algorithm (Unicode Standard Annex #9). The model follows a paragraph from
its character types to the visual order: run-length encoding (`RunList`), the paragraph direction (`BaseDirection`),
the explicit codes with their stack in an array and its counters (`Explicit`), weak and neutral types, bracket pairs
and implicit levels (`Marks`, `Resolve`, `Brackets`, `Neutrals`), the overlay that brings the removed codes back and
the resetting of white space (`Paragraph`), the reordering of a line by reversals in place (`Reorder`), Arabic
joining (`Joining`), and the call that puts the stages together (`Log2Vis`). A run list is the sequence of its
nodes, the sentinel first; methods change it in place. `TypeMasks` has the bits behind the character types.

Next to what the program does stands what the standard says, and the proof of where the two agree. `ExplicitRules`
and `ExplicitText` hold rules X1 to X8, character by character; `IsolateLevels` the isolates of BD9; `Sequences` the
isolating run sequences of BD13 with the boundaries of X10; `WeakRules` W3 to W7 as five passes; `PairRules` BD16
and N0; `NeutralRules` N1 and N2 for whole stretches. `Nesting` shows that the list after the explicit pass nests as
the text does if the text rejects no isolate, `Shallow` that texts with few codes are such texts, and
`ParagraphRules` that for them the stages of the program are these rules, list by list. `Links` has the links
between the runs of an isolate, and when isolate levels index their arrays. `JoiningRules` says which letters join,
without a pass over the text.

**cJSON** is a parser and a printer of JSON, JSON Pointer (RFC 6901), JSON Patch (RFC 6902) and JSON Merge Patch
(RFC 7396). The model has escapes and UTF-8 (`Unicode`, `JsonStrings`), the text of values and the two buffers
(`JsonText`, `ParseCode`, `PrintCode`), the merge sort on a doubly linked list of the heap (`SortList`), pointers
(`Pointer`, `PointerEval`, `Decoding`), the difference of two trees and its application (`Members`, `TreePatch`,
`TreeDiff`, `Patch`, `Requests`, `PatchStatus`, `PatchPlaces`, `NameCase`, `PatchCode`), and merge patches (`MergePatch`).
`JsonLiterals` and `JsonGrammar` hold the grammar of RFC 8259 as syntax trees and the proof that all of it is
parsed, `JsonAccepted` that little else is, and `JsonRoundTrip` that a printed value is a text of it. `Json` has the
trees and the values they stand for, in which the members of an object are a map. Characters are bytes; a C string
is a sequence without the terminator, and a buffer that is parsed ends with it.

## Where the code parts from its standards

The program is modelled as it is. Each of these is a lemma with an input that shows it, or the exact condition.

- X5, X6a and X7 next to rejected codes: `ExplicitRules.StepAgrees` and four texts in `ExplicitText`.
- The look-ahead of an FSI does not stop at the matching PDI: `BaseDirection.FirstStrongExact`.
- A PDI is never overridden: `ExplicitText.PdiOverride`.
- The isolate level can fall to -1, which is then an index: `IsolateLevels.IndexedIff`,
  `IsolateLevels.IsolateLevelBelowZero`. The model stops there.
- W1 gives a mark behind an initiator or a PDI the type of that character, a neutral other than ON:
  `ParagraphRules.MarksByRule`, `ParagraphRules.MarkedByRule`.
- A bracket right behind a mark of type ON is taken into its run and is no bracket any more:
  `ParagraphRules.BracketStands`, `ParagraphRules.BracketBehindMark`.
- Isolates of one depth share a stack of brackets, so that a bracket of one may close one of another:
  `PairRules.PairsFollowRule`, `PairRules.PairAcrossIsolates`. A full stack ends the search for the whole paragraph,
  not for the sequence.
- The stacks of the first 16 isolate levels lie in rows of 16 entries, one behind the other, and hold up to 63: with
  more than 16 openers in one of them another may be written over: `Brackets.FindPairs`, `Brackets.OverlapOverwrites`.
- N0 takes the last strong type of the isolate for the context of a pair, at whatever level, where the sequence has
  none: `PairRules.PairTypeIsRule`, `PairRules.ContextFromEmbedding`.
- More is taken for JSON than RFC 8259 allows: every byte up to 32 is white space, strings may hold control characters, four
  characters that are no digits are the code unit 0, which may even hide a closing quote: `JsonAccepted.ValueSound`,
  `JsonLiterals.DecodedTokens`.
- JSON Pointer escaping writes `~1` for `~`, and leaves a byte as it was for `/`: `Pointer.EncodeExact`.
- Undoing an escape in place loses the text behind it: `Decoding.DecodesExactly`, `Decoding.DecodeLosesText`.
- More is taken for an array index than RFC 6901 allows: `Pointer.IndexAccepted`, `Pointer.LaxIndices`,
  `Requests.EmptyNameIsIndex`.
- A pointer that does not begin with a slash leads to the root: `PointerEval.FindLeads`.
- Removing a member ignores case, whatever the caller asked for: `Patch.DetachIgnoresCase`.
- A value may be moved into itself, nothing can be copied or moved to the root, and removing the root leaves an
  invalid node: `Requests.MoveIntoItself`, `Requests.CopyToRoot`, `Requests.RemoveRoot`.
- A move whose "from" is no string reads through a null pointer: the status `Patch.CRASH`.
- A merge patch cannot put a null member: `MergePatch.GenerateThenMerge`, `MergePatch.NullIsLost`.

## Model

| member | source | states |
|---|---|---|
| TypeMasks.ValuesDiffer | 3rd/fribidi/fribidi-bidi-types.h:94-177 | the bits of the types tell them apart |
| TypeMasks.QueriesTestMasks | 3rd/fribidi/fribidi-bidi-types.h:265-288 | letters, strong, neutral and right-to-left types, numbers and their separators are those whose bits the header tests |
| TypeMasks.CodeQueriesTestMasks | 3rd/fribidi/fribidi-bidi-types.h:289-332 | and so are explicit codes, overrides, isolate characters, separators and the compounds of these with BN, NSM and WS |
| TypeMasks.ConversionsAre | 3rd/fribidi/fribidi-bidi-types.h:252-347 | the level of a direction, the direction of a level, numbers as R, and the direction that an override forces |
| BaseDirection.FindBase | 3rd/fribidi/fribidi-bidi.c:538-567 | the counter over the runs finds the first L, R or AL that, by matching initiators and PDIs (BD9), no isolate holds; then the base level is 1 and the direction RTL for an R or AL, 0 and LTR for an L; a direction of the caller stays if it is strong or nothing is found, with level 1 for RTL and the weak RTL only |
| BaseDirection.OpenIsolatesAre | 3rd/fribidi/fribidi-bidi.c:673-763 | the isolates that count towards isolate levels are the initiators that BD9 leaves without a matching PDI |
| BaseDirection.FirstStrongExact | 3rd/fribidi/fribidi-bidi.c:715-738 | the look-ahead of an FSI finds the direction of X5c if and only if not this: its isolate has no letter of its own, and the first letter behind the PDI at which one more initiator than PDIs has been met is right to left |
| BaseDirection.FsiDiffers | 3rd/fribidi/fribidi-bidi.c:715-738 | in a paragraph that is also when the program and X5c give an FSI different directions |
| RunList.EncodeBidiTypes | 3rd/fribidi/fribidi-run.c:105-168 | the runs tile the text, each of one type and bracket, isolates and brackets alone |
| RunList.MergeFits | 3rd/fribidi/fribidi-bidi.c:70-91 | a merge loses no character, whatever codes are out of the list |
| RunList.MergeKeeps | 3rd/fribidi/fribidi-bidi.c:93-132 | under the conditions of the two compactions every character keeps its level, and its type up to neutrality |
| RunList.RunList.CompactList | 3rd/fribidi/fribidi-bidi.c:93-108 | no character changes or is lost, and no two neighbours could still be joined |
| RunList.RunList.CompactNeutrals | 3rd/fribidi/fribidi-bidi.c:110-132 | no level changes, and no two neighbours could still be joined |
| RunList.TextConserved | 3rd/fribidi/fribidi-bidi.c:665-671 | the lengths of the main list and of the removed codes add up to the length of the text |
| RunList.RunList.Shadow | 3rd/fribidi/fribidi-run.c:189-306 | after the overlay the runs tile the text; a character under a run of the overlay has its type and level, any other one keeps what it had; both forms |
| ExplicitRules.StepAgrees | 3rd/fribidi/fribidi-bidi.c:624-782 | one character changes the directional status as X2 to X8 ask if and only if none of the listed guards is met |
| ExplicitRules.LeastAboveComputed | 3rd/fribidi/fribidi-bidi.c:645-714 | the mask and the remainders compute the level that X2 to X5c ask for |
| ExplicitRules.LeastAboveIsLeast | 3rd/fribidi/fribidi-bidi.c:645-714 | that level is the least one above of its parity |
| ExplicitRules.CodeStepBounded | 3rd/fribidi/fribidi-bidi.c:321-360 | the levels on the stack rise strictly and stay at most 125 through every step |
| ExplicitRules.StackBound | 3rd/fribidi/fribidi-bidi.c:586-592 | such a stack has at most 127 entries, so the array of saved statuses never overflows |
| ExplicitText.CodeStatusBounded | 3rd/fribidi/fribidi-bidi.c:615-783 | for every text and position the stack of the program is bounded |
| ExplicitText.FollowsRulesIff | 3rd/fribidi/fribidi-bidi.c:615-783 | the program has the status of the rules at every position if and only if no character departs |
| ExplicitText.ExplicitLevels | 3rd/fribidi/fribidi-bidi.c:664-782 | without a departure each retained character gets the level of the rules, and each that is no PDI the type |
| ExplicitText.IsolateAfterOverflow | 3rd/fribidi/fribidi-bidi.c:755-762 | a text on which an initiator behind a rejected one gets another level than the rules give |
| ExplicitText.PdfInIsolateAfterOverflow | 3rd/fribidi/fribidi-bidi.c:655-660 | a text on which a PDF inside an isolate leaves a rejected embedding open |
| ExplicitText.PdfInRejectedIsolate | 3rd/fribidi/fribidi-bidi.c:655-660 | a text on which a PDF inside a rejected isolate closes an embedding |
| ExplicitText.FsiLooksBehindPdi | 3rd/fribidi/fribidi-bidi.c:723-739 | a text on which an FSI takes its direction from behind its PDI |
| ExplicitText.PdiOverride | 3rd/fribidi/fribidi-bidi.c:673-704 | a PDI stays a neutral; by X6a it does so just where no override is in force |
| Shallow.ShallowIsRegular | 3rd/fribidi/fribidi-bidi.c:624-763 | a paragraph with at most 61 embeddings, overrides and initiators rejects no isolate, however they nest |
| Shallow.ShallowFollowsRules | 3rd/fribidi/fribidi-bidi.c:624-782 | in such a paragraph the statuses are those of X1 to X8 at every character, if no FSI is misled |
| IsolateLevels.IndexedIff | 3rd/fribidi/fribidi-bidi.c:676-763 | the isolate levels of a text are indices of their arrays if and only if no PDI closes an isolate that was accepted but never pushed while level 0 lies below all statuses |
| IsolateLevels.IsolateLevelBelowZero | 3rd/fribidi/fribidi-bidi.c:684-697 | a text whose last PDI gets isolate level -1 |
| IsolateLevels.IsolateLevelIsDepth | 3rd/fribidi/fribidi-bidi.c:684-762 | if no isolate is rejected, the isolate level of a character is the number of isolates that it is in by BD9 |
| IsolateLevels.Inside | 3rd/fribidi/fribidi-bidi.c:684-762 | then every character behind an initiator that is still open has a higher isolate level and a higher level than the initiator |
| IsolateLevels.ClosesAt | 3rd/fribidi/fribidi-bidi.c:684-697 | and a PDI that closes an isolate has the status and the isolate level of the initiator |
| Explicit.StatusStack.Push | 3rd/fribidi/fribidi-bidi.c:324-340 | the push on array and counters is the push on the status they stand for |
| Explicit.StatusStack.Pop | 3rd/fribidi/fribidi-bidi.c:345-360 | the pop on array and counters is the pop on the status they stand for |
| Explicit.StatusStack.CloseIsolate | 3rd/fribidi/fribidi-bidi.c:673-705 | what a PDI does to array, counters and isolate level is X6a on the status, by the rules of the program |
| Explicit.StatusStack.OpenIsolate | 3rd/fribidi/fribidi-bidi.c:706-763 | what an initiator does to array, counters and isolate level is one step of the status |
| Explicit.FirstStrong | 3rd/fribidi/fribidi-bidi.c:716-740 | the look-ahead over runs is the look-ahead over characters |
| Explicit.ExplicitPass | 3rd/fribidi/fribidi-bidi.c:615-783 | the pass over the runs removes just the codes of the paragraph, loses nothing, and gives every other character the type, the level and the isolate level that the text-wise rules give it, and the bracket it came with |
| Links.LinkRuns | 3rd/fribidi/fribidi-bidi.c:790-812 | each run is linked to the last one before and the next one behind that its isolate has, and the loop stays within its array if and only if every isolate level is an index |
| Links.RunsIndexed | 3rd/fribidi/fribidi-bidi.c:790-812 | that is so if and only if no PDI of the text lets the isolate level fall below zero; then the levels also index the stacks of brackets |
| Nesting.MainNested | 3rd/fribidi/fribidi-bidi.c:624-782 | if the text rejects no isolate and a separator only ends it, the isolates of the list nest: each opens behind its initiator, and its PDI goes on where the initiator left off |
| Nesting.MainRising | 3rd/fribidi/fribidi-bidi.c:624-782 | and the text of each has higher levels than what is around it |
| Sequences.SequenceLinks | 3rd/fribidi/fribidi-bidi.c:138-178 | BD13: neighbours in an isolating run sequence are neighbours in the list, or the run of an initiator and the one of its PDI with nothing but the isolate between |
| Sequences.LeftIs | 3rd/fribidi/fribidi-bidi.c:138-178 | what the walk backwards and the level of its sentinel give is the type before in the sequence, or sos by X10 |
| Brackets.FindPairs | 3rd/fribidi/fribidi-bidi.c:1036-1109 | the memory of the stacks with its overlapping rows: until the openers that wait make one row run into another, each closing bracket is paired with the nearest opener of its isolate level that can still be matched, there are no other pairs, and the search stops early only with 63 openers waiting; every pair is an opening and a later closing bracket in any case |
| Brackets.CrowdedIsDeep | 3rd/fribidi/fribidi-bidi.c:1038-1058 | rows overlap only with more than 16 openers waiting at one of the first levels |
| Brackets.OverlapOverwrites | 3rd/fribidi/fribidi-bidi.c:1038-1086 | and then a push to the one stack changes an entry of the other |
| PairRules.RulePairsAre | 3rd/fribidi/fribidi-bidi.c:1060-1109 | the pairs of BD16 over isolating run sequences, by a definition of their own, exist |
| PairRules.RulePairsOnly | 3rd/fribidi/fribidi-bidi.c:1060-1109 | and are unique |
| PairRules.PairsFollowRule | 3rd/fribidi/fribidi-bidi.c:1060-1109 | the stacks yield the pairs of BD16 if and only if no closing bracket that BD16 leaves over meets an opener on the stack of its isolate level |
| PairRules.StraysFar | 3rd/fribidi/fribidi-bidi.c:1060-1109 | such an opener is of another isolating run sequence |
| PairRules.PairAcrossIsolates | 3rd/fribidi/fribidi-bidi.c:1069-1105 | a list on which a bracket of one isolate closes a bracket of another |
| Brackets.PairingUnique | 3rd/fribidi/fribidi-bidi.c:1060-1108 | these conditions leave only one set of pairs |
| Brackets.SortPairs | 3rd/fribidi/fribidi-bidi.c:420-485 | the merge sort gives the same pairs in ascending order |
| Brackets.SortKeepsPairs | 3rd/fribidi/fribidi-bidi.c:473-485 | the sorted pairs still nest, and their openers ascend strictly |
| Marks.ResolveMarks | 3rd/fribidi/fribidi-bidi.c:831-912 | one loop that merges runs while it goes gives every character the type of W1 and W2, one after the other, its level, its isolate level, and the bracket of the run it has become part of, where each mark follows its run directly; in any list no character is lost or gets another level |
| Sequences.NestedMarksFollow | 3rd/fribidi/fribidi-bidi.c:831-912 | in a list whose isolates nest each mark follows its run directly |
| ParagraphRules.MarkedByRule | 3rd/fribidi/fribidi-bidi.c:838-902 | there a mark gets the type of the run before it in its isolating run sequence, or sos |
| ParagraphRules.StrongByRule | 3rd/fribidi/fribidi-bidi.c:861-912 | and a number looks back to the first strong type of its sequence, or sos |
| ParagraphRules.MarksByRule | 3rd/fribidi/fribidi-bidi.c:831-912 | together: each run gets the type of W1 and W2, stated over the isolating run sequence alone; only where W1 makes a mark ON behind an initiator or a PDI it gets the type of that character, a neutral too |
| ParagraphRules.BracketStands | 3rd/fribidi/fribidi-bidi.c:896-900 | a bracket stays a run of its own if and only if no mark before it takes it in |
| ParagraphRules.BracketBehindMark | 3rd/fribidi/fribidi-bidi.c:896-900 | a list on which a mark takes in a bracket |
| Marks.NextJoins | 3rd/fribidi/fribidi-bidi.c:896-900 | a run that is merged behind a mark, and so is never looked at, has the type the rules give it |
| Marks.NextPreset | 3rd/fribidi/fribidi-bidi.c:904-913 | a mark that is changed before the loop reaches it has the type the rules give it |
| Resolve.ResolveNumbers | 3rd/fribidi/fribidi-bidi.c:927-1018 | one pass with three variables computes WeakType for every run |
| WeakRules.PassIsRules | 3rd/fribidi/fribidi-bidi.c:927-1018 | in a list whose isolates nest, that is the composition of W3, W4, W5, W6 and W7, each a pass of its own over the isolating run sequences with sos and eos by X10 |
| Resolve.Settled | 3rd/fribidi/fribidi-bidi.c:969-1013 | no AL, separator or terminator is left |
| Resolve.NoNumberAfterLeft | 3rd/fribidi/fribidi-bidi.c:979-1011 | a run that W4 changes is never changed again by W7 |
| Neutrals.ResolvePair | 3rd/fribidi/fribidi-bidi.c:1120-1178 | the walks between and before the brackets compute PairType |
| PairRules.PairTypeIsRule | 3rd/fribidi/fribidi-bidi.c:1120-1178 | for a pair of one isolating run sequence that is the type of N0, with its context up to sos, if and only if no context is needed or the walk backwards does not take something else for sos |
| PairRules.StrongTypes | 3rd/fribidi/fribidi-bidi.c:1120-1178 | N0 takes L, R, AL, EN and AN for strong, all but L for R, and a type for one of the embedding direction just if it is |
| PairRules.ContextFromEmbedding | 3rd/fribidi/fribidi-bidi.c:1146-1160 | a list on which the walk takes the direction of an embedding for sos |
| Neutrals.ResolveBrackets | 3rd/fribidi/fribidi-bidi.c:1026-1184 | every pair that the stacks yield, in the order of the text, gets the type of the walks, seen from what the pairs before it have left, and nothing else changes |
| Neutrals.ResolveNeutrals | 3rd/fribidi/fribidi-bidi.c:1213-1242 | the run-wise loop computes NeutralType for every run |
| NeutralRules.LoopAgrees | 3rd/fribidi/fribidi-bidi.c:1213-1242 | in a list whose isolates nest, that is the type of N1 and N2 for the whole stretch of neutrals in the isolating run sequence: the direction of both ends, numbers being R, sos and eos at the edges, or that of the embedding |
| NeutralRules.OneStretch | 3rd/fribidi/fribidi-bidi.c:1213-1242 | all runs of a stretch see the same ends |
| Neutrals.NoNeutralLeft | 3rd/fribidi/fribidi-bidi.c:1236-1241 | no neutral type survives |
| Neutrals.ImplicitParity | 3rd/fribidi/fribidi-bidi.c:1268-1275 | numbers get an even level above their embedding, other types the least level of the parity of their direction; none exceeds 126 |
| Neutrals.ResolveTypes | 3rd/fribidi/fribidi-bidi.c:823-1282 | the stages in their order, each list being computed from the one before: compactions exactly, brackets and isolate levels included, the rules by their functions; after them each character of the list has a settled type and the level that type asks for, and the maximum is one that occurs |
| ParagraphRules.StagesFollowRules | 3rd/fribidi/fribidi-bidi.c:823-1242 | for every text that rejects no isolate, with a separator only at its end and brackets on other neutrals: W1 and W2 hold for every character, W3 to W7 are their composition, pairs and their types are those of BD16 and N0 under the exact conditions, and N1 and N2 hold for every stretch |
| ParagraphRules.Standing | 3rd/fribidi/fribidi-bidi.c:823-1026 | for such a text each character, when brackets are paired, has the bracket it came with, unless a mark has taken it in, and the number of its isolates |
| Paragraph.Reinsert | 3rd/fribidi/fribidi-bidi.c:1294-1315 | the codes come back with the level of the character before them; nothing else changes |
| Paragraph.TrailingAre | 3rd/fribidi/fribidi-bidi.c:1336-1350 | what the program resets is BS, SS, WS, isolate characters, explicit codes and BN, and it resets in front of BS and SS |
| Paragraph.TrailingRuns | 3rd/fribidi/fribidi-bidi.c:1332-1380 | the backward state machine covers a character if and only if from it on there are only separators, white space, codes and isolates up to a separator or the end |
| Paragraph.WriteLevels | 3rd/fribidi/fribidi-bidi.c:1390-1401 | it writes one level for each character and nothing behind the text |
| Paragraph.GetParEmbeddingLevels | 3rd/fribidi/fribidi-bidi.c:496-1414 | the whole of it: the base level and direction of P2 and P3; isolate levels are indices exactly under the condition of IndexedIff; then every level is the base level where L1 resets it, else that of the stages in their order, or of the character before a code, the stages starting from the list in which every character has its type, level, isolate level and bracket; all are below the result, which is at most 127; for a text that rejects no isolate the stages are the rules of UAX #9, W1 and W2 included |
| Reorder.ReverseRange | 3rd/fribidi/fribidi-bidi.c:1417-1451 | the reversal in place |
| Reorder.OrderAfterPasses | 3rd/fribidi/fribidi-bidi.c:1537-1555 | after the reversals down to a level, the order of two characters depends on the lowest level between them only |
| Reorder.ReorderClosedForm | 3rd/fribidi/fribidi-bidi.c:1490-1555 | of two characters of the line the first is shown first if and only if the lowest level from one to the other is even, or a mark of an odd level stands at or behind the second such that from the first to it all levels are equal and all types behind the first are marks, explicit codes or BN |
| Reorder.ClustersAre | 3rd/fribidi/fribidi-bidi.c:1502-1528 | the scan of L3 finds just these clusters, whole ones, however many marks they hold |
| Reorder.MarksOrder | 3rd/fribidi/fribidi-bidi.c:1502-1528 | L3 swaps two characters if and only if they are of one such cluster |
| Reorder.NoMarksNoChange | 3rd/fribidi/fribidi-bidi.c:1502-1528 | on a line without a mark of an odd level L3 changes nothing |
| Reorder.ReorderIsPermutation | 3rd/fribidi/fribidi-bidi.c:1490-1555 | the order is a permutation of the line and moves nothing outside it |
| Reorder.ResetTrailingExact | 3rd/fribidi/fribidi-bidi.c:1484-1492 | the levels that L1 resets at the end of the line, and no other |
| Reorder.ReorderMarks | 3rd/fribidi/fribidi-bidi.c:1502-1528 | L3 in place: each cluster, as ClustersAre and MarksOrder characterise them, is turned around where it stands |
| Reorder.ReorderLine | 3rd/fribidi/fribidi-bidi.c:1454-1563 | both arrays end in the order of the closed form, the levels are reset, the result is one more than the greatest level |
| Reorder.MaxLevelReached | 3rd/fribidi/fribidi-bidi.c:1533-1535 | which is a level of the line, or 0 |
| Joining.JoinArabic | 3rd/fribidi/fribidi-joining.c:70-182 | the pass in place gives every character what its neighbours ask for |
| Joining.JoinsAreMutual | 3rd/fribidi/fribidi-joining.c:102-169 | of two neighbours that shape, one keeps its join just where the other does: where both had it and no level mismatch lies between |
| Joining.EdgesDoNotJoin | 3rd/fribidi/fribidi-joining.c:128-132 | nothing joins outwards at the edges of the text |
| Joining.JoiningIsIdempotent | 3rd/fribidi/fribidi-joining.c:70-182 | a second pass changes nothing |
| JoiningRules.JoinsByRule | 3rd/fribidi/fribidi-joining.c:70-182 | the outcome by rules that mention no pass: a letter that shapes keeps the bit of a side if and only if the next letter on that side and it can join, at levels that all match between; other letters keep their bits; what stands between two that join gets the bits of both; right-to-left text joins back on the right |
| JoiningRules.JoiningUnique | 3rd/fribidi/fribidi-joining.c:70-182 | those rules leave only one outcome |
| Log2Vis.Log2Vis | 3rd/fribidi/fribidi.c:138-291 | from the levels of the paragraph, all that is promised of them included, the visual string shows at every place the character of its source, shaped with joining properties that obey the rules of joining; the maps are filled, and inverse to each other |
| Log2Vis.InvertMap | 3rd/fribidi/fribidi.c:268-274 | the second map is the inverse of the first |
| Log2Vis.MapsAreInverse | 3rd/fribidi/fribidi.c:231-274 | both maps are permutations of 0 to len - 1, each the inverse of the other |
| Log2Vis.OrderOfMap | 3rd/fribidi/fribidi.c:262-274 | the order of the map is that of L2 and L3 in closed form |
| CStrings.CompareTransitive | 3rd/cjson/cJSON_Utils.c:81-107 | the comparison of keys is transitive, with and without case |
| CStrings.CompareExact | 3rd/cjson/cJSON_Utils.c:81-107 | a key compares as less if and only if at the first place where they differ, capitals folded if case does not count, it has the lower byte or has ended; as equal if and only if there is none |
| SortList.Merge | 3rd/cjson/cJSON_Utils.c:517-582 | the nodes of both lists, linked both ways, in the order of their keys |
| SortList.Sort | 3rd/cjson/cJSON_Utils.c:476-585 | it ends with the same nodes, next and prev consistent, in the order of their keys if all have one; a head that stays the head keeps its prev |
| Pointer.ComparePointersExact | 3rd/cjson/cJSON_Utils.c:117-151 | a name matches a pointer if and only if it is the first token with its escapes undone |
| PointerEval.ComparePointersBoth | 3rd/cjson/cJSON_Utils.c:117-151 | the same where case may not count: then name and token agree but for capitals |
| Pointer.IndexRoundTrip | 3rd/cjson/cJSON_Utils.c:270-295 | a printed index is read back, whatever token follows |
| Pointer.IndexAccepted | 3rd/cjson/cJSON_Utils.c:270-295 | exactly which tokens are taken for an index |
| Pointer.LaxIndices | 3rd/cjson/cJSON_Utils.c:280-284 | two tokens that are no indices and are taken for one |
| Pointer.EncodeStringAsPointer | 3rd/cjson/cJSON_Utils.c:169-191 | what the memory holds afterwards, as a function of what it held |
| Pointer.EncodeExact | 3rd/cjson/cJSON_Utils.c:169-191 | the escaping is that of RFC 6901, for any memory, if and only if nothing needs an escape |
| Pointer.FindLoop | 3rd/cjson/cJSON_Utils.c:297-342 | the walk finds the node that the tokens lead to |
| PointerEval.FindLeads | 3rd/cjson/cJSON_Utils.c:297-342 | in any tree, whatever its names, a pointer leads to a node if and only if each token picks the next child: the item of its index, or the first member whose name is the token with its escapes undone, case counting or not as asked |
| PointerEval.FindNothing | 3rd/cjson/cJSON_Utils.c:297-342 | and to nothing if and only if the tokens lead nowhere |
| Pointer.FindPointerTo | 3rd/cjson/cJSON_Utils.c:194-255 | the search returns the pointer to the node, or nothing if it is not in the tree |
| Pointer.PointerInversion | 3rd/cjson/cJSON_Utils.c:194-342 | for every node of a plain tree, looking up its pointer leads to that very node |
| Members.SortedPlain | 3rd/cjson/cJSON_Utils.c:587-594 | sorting members changes their order only |
| Members.SortObject | 3rd/cjson/cJSON_Utils.c:587-594 | the merge sort on the nodes of a plain object leaves its members in the order that the comparison and the difference of trees take |
| Members.CompareJsonExact | 3rd/cjson/cJSON_Utils.c:596-682 | compare_json of plain trees is equality as maps |
| TreePatch.DiffUndone | 3rd/cjson/cJSON_Utils.c:1131-1269 | the operations of the difference, in the sense of RFC 6902, turn the one tree into the other |
| TreeDiff.DiffApt | 3rd/cjson/cJSON_Utils.c:1131-1269 | each operation stands where the trees differ: a replacement only for another value, of another kind if it is an array or object; a name is added or removed only if one object lacks it, an item only at the end of the longer array |
| TreeDiff.DiffEmpty | 3rd/cjson/cJSON_Utils.c:1131-1269 | there is no operation if and only if the trees are equal |
| TreeDiff.DiffChanges | 3rd/cjson/cJSON_Utils.c:1131-1269 | each operation changes the tree that it is applied to |
| Patch.FindRefines | 3rd/cjson/cJSON_Utils.c:297-342 | the pointer of a path leads to the node that stands for that part, and changing the node changes that part only |
| Patch.ApplyRefines | 3rd/cjson/cJSON_Utils.c:799-1026 | apply_patch returns 0 and does what RFC 6902 says about add, remove and replace, whenever that is possible, whatever the order of the members of the patch |
| Requests.ApplyExact | 3rd/cjson/cJSON_Utils.c:799-1026 | for all six operations: if the paths fit the kinds they meet, apply_patch returns 0 if and only if RFC 6902 lets the operation be done, and has then done it |
| PatchStatus.StatusExact | 3rd/cjson/cJSON_Utils.c:799-1026 | and otherwise the status is 1 for a failed test, 5 without the value to move or copy, 13 without the value to remove or replace, 10 for a place behind the end of an array, 9 without an array or object to add to |
| PatchStatus.Malformed | 3rd/cjson/cJSON_Utils.c:809-822 | 2 for a patch without a path, 3 for one without one of the six operations |
| PatchPlaces.TestsWhereLed | 3rd/cjson/cJSON_Utils.c:823-828 | in any tree, with any pointer: a test succeeds if and only if its path leads to a node equal to the value, case counting or not as asked |
| PatchPlaces.AddsWhereLed | 3rd/cjson/cJSON_Utils.c:944-1010 | an addition ends with status 9 if and only if its path, up to the last token, leads to no array or object |
| PatchPlaces.DetachesWhereLed | 3rd/cjson/cJSON_Utils.c:422-473 | what is removed is taken from where the path leads up to the last token |
| PatchPlaces.CopiesWhereLed | 3rd/cjson/cJSON_Utils.c:898-927 | a copy comes from where its "from" leads, and ends with status 5 if that is nowhere |
| NameCase.FoundIsFirst | 3rd/cjson/cJSON.c:1788-1817 | looking up a member finds the first one whose name agrees, capitals folded if case does not count |
| NameCase.AddsMember | 3rd/cjson/cJSON_Utils.c:1000-1012 | adding a member of any name takes the place of that one and goes behind the others |
| NameCase.OrderOfMembers | 3rd/cjson/cJSON_Utils.c:476-585 | a sorted object has capitals before small letters if and only if case counts |
| NameCase.ComparesNames | 3rd/cjson/cJSON_Utils.c:596-682 | two objects whose names differ in case are equal, and without a difference, if and only if case does not count |
| NameCase.ComparesNamesBelow | 3rd/cjson/cJSON_Utils.c:596-682 | and so are arrays and objects that hold them |
| NameCase.MergesNames | 3rd/cjson/cJSON_Utils.c:1311-1368 | merging replaces such a name if and only if case does not count |
| Requests.MoveDoes | 3rd/cjson/cJSON_Utils.c:897-1010 | a move is a removal followed by an addition, and succeeds if and only if both are possible |
| Requests.EmptyNameIsIndex | 3rd/cjson/cJSON_Utils.c:270-295 | a path that does not fit: the empty name removes the first item of an array |
| Requests.MoveIntoItself | 3rd/cjson/cJSON_Utils.c:897-1010 | an item is moved into the one that takes its place, which RFC 6902 forbids |
| Requests.CopyToRoot | 3rd/cjson/cJSON_Utils.c:953-970 | copying to the root, which RFC 6902 allows, ends with status 9 |
| Requests.RemoveRoot | 3rd/cjson/cJSON_Utils.c:830-841 | removing the root leaves an invalid node with status 0 |
| Patch.PatchesUndoDiff | 3rd/cjson/cJSON_Utils.c:1028-1269 | for all plain trees, the patches for two of them are accepted by any tree equal to the first and leave one equal to the second |
| Patch.DetachIgnoresCase | 3rd/cjson/cJSON_Utils.c:458-458 | for every name, present or not: removing takes the member of that name, or nothing if there is none, if and only if no name that differs from it only in case comes first |
| Patch.DetachTakesOtherCase | 3rd/cjson/cJSON_Utils.c:458-458 | an object from which another member is removed |
| Decoding.DecodesExactly | 3rd/cjson/cJSON_Utils.c:355-386 | a token with valid escapes is decoded as RFC 6901 says if and only if it has no ~1 and each plain character with k escapes before it equals the one k places before it |
| Decoding.DecodeLosesText | 3rd/cjson/cJSON_Utils.c:355-386 | two tokens that are not decoded as RFC 6901 says |
| Decoding.DecodesTrailing | 3rd/cjson/cJSON_Utils.c:355-386 | a token with an escape that is |
| PatchCode.DecodeLoop | 3rd/cjson/cJSON_Utils.c:355-386 | the loop in place over two cursors |
| PatchCode.Document.Detach | 3rd/cjson/cJSON_Utils.c:422-473 | what is removed, and what is left |
| PatchCode.Document.Apply | 3rd/cjson/cJSON_Utils.c:799-1026 | all branches and status codes of apply_patch; the status CRASH stands for a read through a null pointer |
| PatchCode.Document.ApplyAll | 3rd/cjson/cJSON_Utils.c:1028-1084 | patches are applied until one fails |
| PatchCode.CreatePatches | 3rd/cjson/cJSON_Utils.c:1131-1269 | it appends the patches of the difference, and none if and only if the trees are equal; both trees keep their values while their members are sorted |
| PatchCode.DiffAndApply | 3rd/cjson/cJSON_Utils.c:1028-1299 | generating patches and applying them to the document they were generated from makes it equal to the other one, with status 0; there are none if and only if the documents were equal |
| MergePatch.MergeRefines | 3rd/cjson/cJSON_Utils.c:1311-1368 | merge_patch computes the MergePatch function of RFC 7396 on values |
| MergePatch.MergePatchLoop | 3rd/cjson/cJSON_Utils.c:1311-1368 | the loop over the members of the patch |
| MergePatch.GenerateDescribes | 3rd/cjson/cJSON_Utils.c:1403-1447 | the patch names a member if and only if the trees differ in it, and says what becomes of it |
| MergePatch.GenerateThenMerge | 3rd/cjson/cJSON_Utils.c:1380-1456 | merging the generated patch gives the second tree if and only if no null stands where the patch would have to put it; without a patch the trees are equal |
| MergePatch.NullIsLost | 3rd/cjson/cJSON_Utils.c:1329-1340 | a tree that the generated patch does not lead to |
| MergePatch.GenerateMergePatch | 3rd/cjson/cJSON_Utils.c:1380-1456 | the two cursors over the sorted members |
| Unicode.EncodesScalar | 3rd/cjson/cJSON.c:649-699 | every scalar value is encoded as RFC 3629 says: decoding gives it back |
| Unicode.LiteralBecomesUtf8 | 3rd/cjson/cJSON.c:593-711 | every scalar value, written as one unit or as a surrogate pair with digits of either case, becomes its encoding, of 6 or 12 characters |
| Unicode.SurrogatesMustPair | 3rd/cjson/cJSON.c:610-647 | exactly which literals are accepted |
| Unicode.Utf16LiteralToUtf8 | 3rd/cjson/cJSON.c:593-711 | the bytes are written behind what was there |
| JsonStrings.DecodedFitsMemory | 3rd/cjson/cJSON.c:727-818 | what is decoded never exceeds the tokens that the sizing scan counted, however the two scans differ |
| JsonStrings.CountIsExact | 3rd/cjson/cJSON.c:865-903 | the counting pass finds the length of what the writing pass writes |
| JsonLiterals.ShortDecodes | 3rd/cjson/cJSON.c:780-799 | each of the eight short escapes of section 7 of RFC 8259 is decoded to its byte, followed by what stands behind it |
| JsonLiterals.BadEscapeRefused | 3rd/cjson/cJSON.c:780-812 | behind any tokens, a backslash before another character, u excepted, has the literal refused |
| JsonLiterals.LiteralParsed | 3rd/cjson/cJSON.c:714-840 | every literal of section 7, in any mixture of bare characters, short escapes, code units and surrogate pairs, with digits of either case, is parsed to the string it stands for and ends at its quote |
| JsonLiterals.DecodedTokens | 3rd/cjson/cJSON.c:755-812 | what is decoded consists of such tokens, apart from bare control characters and four characters that are no digits, which count as the unit 0 |
| JsonLiterals.EscapedIfNeeded | 3rd/cjson/cJSON.c:905-957 | printing escapes control characters, quotes and backslashes only, in two characters where that is possible |
| JsonLiterals.StringRoundTrip | 3rd/cjson/cJSON.c:714-962 | a printed string is parsed to itself and ends at its closing quote, whatever is around it |
| ParseCode.ParseBuffer.SkipWhitespace | 3rd/cjson/cJSON.c:979-997 | white space is skipped, at the end back to the terminator |
| ParseCode.ParseBuffer.ParseString | 3rd/cjson/cJSON.c:714-840 | the decoded string and where it ends, or nothing, as LiteralParsed, BadEscapeRefused and DecodedTokens say; every write is inside the memory of the sizing scan |
| ParseCode.ParseBuffer.Parse | 3rd/cjson/cJSON.c:1228-1280 | the value at the offset and where it ends; depth is restored |
| ParseCode.ParseBuffer.ParseArray | 3rd/cjson/cJSON.c:1357-1450 | the same for an array |
| ParseCode.ParseBuffer.ParseObject | 3rd/cjson/cJSON.c:1513-1620 | the same for an object |
| ParseCode.ParseDocument | 3rd/cjson/cJSON.c:1000-1099 | what a text is parsed to, with and without the demand to end there, as DocumentParsed and DocumentSound say |
| JsonGrammar.ValueParsed | 3rd/cjson/cJSON.c:1228-1620 | every value of the grammar of RFC 8259, with its white space and spelling anywhere in a text, is parsed to what it means and up to its end if containers are nested at most 1000 deep, and refused if they are deeper |
| JsonGrammar.DocumentParsed | 3rd/cjson/cJSON.c:1000-1099 | the same for whole documents, with or without a byte order mark |
| JsonGrammar.NumbersAreNumeric | 3rd/cjson/cJSON.c:276-330 | the numbers of section 6 are made of the characters that parse_number copies |
| JsonAccepted.ValueSound | 3rd/cjson/cJSON.c:1228-1620 | whatever is parsed is such a value, at most 1000 deep, but for control characters taken for white space, numbers that strtod takes, and the liberties of string literals |
| JsonAccepted.DocumentSound | 3rd/cjson/cJSON.c:1000-1099 | and a text that is parsed to its end holds nothing besides |
| JsonRoundTrip.PrintedText | 3rd/cjson/cJSON.c:1283-1733 | a printed value is a text of the grammar that means the value |
| JsonRoundTrip.PrintedLayout | 3rd/cjson/cJSON.c:1451-1733 | unformatted it has no white space; formatted, each member stands on its own line, one tab deeper than its object, a tab behind the colon, the brace on its own line, a blank behind the commas of an array |
| JsonRoundTrip.TextRoundTrip | 3rd/cjson/cJSON.c:1228-1733 | parsing the text of a tree, formatted or not, gives the tree if it is nested at most 1000 deep, and nothing if it is deeper |
| PrintCode.PrintBuffer.Ensure | 3rd/cjson/cJSON.c:383-466 | exactly when it succeeds; then there is room and what was written is kept, else nothing changes |
| PrintCode.PrintBuffer.UpdateOffset | 3rd/cjson/cJSON.c:469-481 | the offset goes to the end of what was printed |
| PrintCode.PrintBuffer.PrintStringPtr | 3rd/cjson/cJSON.c:843-962 | on success the literal stands behind what was there |
| PrintCode.PrintBuffer.PrintArray | 3rd/cjson/cJSON.c:1451-1510 | the same for an array; it succeeds if the buffer may grow and the text is not too long |
| PrintCode.PrintBuffer.PrintObject | 3rd/cjson/cJSON.c:1622-1733 | the same for an object, with its indentation |
| PrintCode.PrintBuffer.Print | 3rd/cjson/cJSON.c:1283-1354 | on success the text of the value stands behind what was there; it succeeds for a value without an invalid node if the buffer may grow and the text is not too long |
| PrintCode.PrintText | 3rd/cjson/cJSON.c:1103-1206 | the whole text with its terminator; it succeeds for every tree without an invalid node whose text is not too long for an int |

## Left out

FriBidi:

- The links of a run list: it is a sequence, and relinking is building another one. Links between the runs of an isolate are looked up where they are needed; with isolates nested beyond the limits the program may merge runs of different isolates and leave such a link behind, which the model does not have.
- GetParEmbeddingLevels: what the program does once an isolate level is no index; the model returns without levels.
- StagesFollowRules: texts that reject an isolate, where sequences of the program and of BD13 need not be the same; for them the stages are stated by their functions.
- Log2Vis: tables of characters, mirroring and the shapes of Arabic letters are parameters, and so is the result of shaping.
- GetParEmbeddingLevels: a block separator inside the text ends the explicit pass, as in the program; splitting a text into paragraphs is the caller's.
- fribidi_remove_bidi_marks, debugging output and the deprecated wrappers.
- Failure of memory allocation, in both libraries.

cJSON:

- Numbers: they are integers, and their text is a pair of functions that are inverse to each other (`JsonText.Inverse`); the tolerance of compare_double is not modelled.
- Names: the theorems on patches are for trees whose names are unique and hold no `~`, `/` or upper-case letter (`Json.Plain`).
- CreatePatches: only for such trees, because the memory into which a `/` is escaped is not initialised.
- CompareJson: the order in which it leaves the members of the objects it compares; the test operation and generate_merge_patch sort them on the way.
- The links of the children of an array or object, except in SortList; a child's name in an array.
- Null pointers where a tree is expected, raw items, references, cJSON_Minify, constructors and type tests, and where a parse error is reported.
- The demos, scripts and build files, and `src/awtk_global.c`.
