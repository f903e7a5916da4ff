# sfg_audiobook core in Dafny

This project models the core of `sfg_audiobook`, a pipeline that turns a book
into an audiobook with one voice per character. A book's text is split into
text parts: narration parts and quote parts, and each quote part names the
character who says it. The model covers these pieces:

- **Quotation evaluation.** A component scores a predicted segmentation
  against a ground-truth one. Both are concatenated into a character string,
  with a per-character quote-id mask and text-part-id mask. The predicted
  masks are projected onto the ground-truth text through a Levenshtein edit
  script. The component then computes:
  - the relative edit distance;
  - the quotation IoU (intersection over union of the two quote masks);
  - the positions where the masks disagree;
  - the attribution accuracy in both directions.
- **Segment utilities.** These merge neighbouring parts of the same type and
  speaker, and turn a list of positions into ranges.
- **PDNC loader.** It reads the character table (identifiers, aliases, the
  alias-to-character map). It then cuts the novel into narration and quote
  parts at the annotated byte spans.
- **LitBank loader.** It parses the `QUOTE` and `ATTRIB` annotation lines and
  spreads each quote over its sentences. A state machine then walks the
  sentences and emits the parts.
- **Component layer:**
  - the component registry and the component-string parser (`name[k=v,...]`);
  - the print component's attribute selection;
  - the dummy quotation attributor;
  - the dummy and LLM character-to-voice matchers;
  - the Azure text-to-speech component's configuration, voice setup, SSML
    voice elements and batching.

Code made of expressions is modelled as functions. Loops are modelled as
methods with invariants, and each is proved equal to a specification
function. `PipelineData`, which components update in place, is a class whose
methods state their whole new state. The component registry is also a class.
Text parts and characters are values.

Python behaviour is written out explicitly:

- `str.strip`, `str.split`, slicing with clamped bounds, `int()` parsing,
  and chunking by list comprehension are in `PyStrings`;
- `np.sort`, `np.unique` and `sorted(key=...)` are in `Sorting`;
- a dictionary's insertion order is modelled where iteration order matters.

Errors that the source raises become `Err` values:

- `KeyError`, `ValueError`, `IndexError`, `AssertionError`;
- `ComponentParserError`.

`array_to_ranges` (`sfg_audiobook/common/utils.py:62` and `:66`) builds every
range before the last with an exclusive end (`arr[end] + 1`). It builds the
last range with an inclusive end (`arr[-1]`). The model keeps both, as
`RangeBeforeSplit` and `RangeAfterSplits` state. The docstring calls all
ranges inclusive. The only caller uses the ranges for printing.

## Model

| member | source | states |
|---|---|---|
| QuotationEvaluation.TextPartsToTextAndMask | sfg_audiobook/components/evaluation/QuotationExtractionAndAttributionEvaluationComponent.py:24-36 | the full text is the concatenation of the part texts; the quote mask holds each quote part's id over its characters and 0 over narration; the id mask holds every part's id over its characters |
| QuotationEvaluation.FillPart | sfg_audiobook/components/evaluation/QuotationExtractionAndAttributionEvaluationComponent.py:31-34 | filling one part's slice of the two arrays extends both masks by that part's label run and leaves the prefix unchanged |
| QuotationEvaluation.Fill | sfg_audiobook/components/evaluation/QuotationExtractionAndAttributionEvaluationComponent.py:32-33 | the slice assignment sets exactly positions start..end to the value and keeps every other position |
| QuotationEvaluation.Labels | sfg_audiobook/components/evaluation/QuotationExtractionAndAttributionEvaluationComponent.py:26-34 | a mask has one entry per character of the full text |
| QuotationEvaluation.LabelsAppend | sfg_audiobook/components/evaluation/QuotationExtractionAndAttributionEvaluationComponent.py:30-34 | the mask of two part lists in a row is the first mask followed by the second |
| QuotationEvaluation.PartText | sfg_audiobook/components/evaluation/QuotationExtractionAndAttributionEvaluationComponent.py:29-34 | part k occupies the characters between offsets k and k+1 of the full text, and those characters are its text |
| QuotationEvaluation.PartLabels | sfg_audiobook/components/evaluation/QuotationExtractionAndAttributionEvaluationComponent.py:31-33 | every mask position inside part k's offsets holds part k's label |
| QuotationEvaluation.LabelsIdsKnown | sfg_audiobook/components/evaluation/QuotationExtractionAndAttributionEvaluationComponent.py:134-142 | every non-zero label in a mask is the id of one of the parts, so the lookup of a matched quote cannot fail for masks built this way |
| EditScripts.ExtendLabels | sfg_audiobook/components/evaluation/QuotationExtractionAndAttributionEvaluationComponent.py:76-87 | replaying the edit script backwards on both masks succeeds exactly when the projection succeeds, and gives the projected quote mask and id mask |
| EditScripts.ProjectLength | sfg_audiobook/components/evaluation/QuotationExtractionAndAttributionEvaluationComponent.py:78-87 | the projected mask is as long as the original less the deletes plus the inserts |
| EditScripts.ProjectValues | sfg_audiobook/components/evaluation/QuotationExtractionAndAttributionEvaluationComponent.py:83-85 | the projected mask holds only 0 (inserted characters) and labels of the original mask |
| EditScripts.ProjectReplaceOnly | sfg_audiobook/components/evaluation/QuotationExtractionAndAttributionEvaluationComponent.py:86-87 | a script of replacements only leaves the mask unchanged |
| EditScripts.ProjectDefinedBelow | sfg_audiobook/components/evaluation/QuotationExtractionAndAttributionEvaluationComponent.py:78-85 | a script with in-range, ascending positions never indexes outside the array |
| EditScripts.ProjectDefined | sfg_audiobook/components/evaluation/QuotationExtractionAndAttributionEvaluationComponent.py:66-85 | a well-formed edit script projects without error |
| EditScripts.ProjectFollowsReplay | sfg_audiobook/components/evaluation/QuotationExtractionAndAttributionEvaluationComponent.py:66-85 | when the script replays on the predicted text, the mask projection succeeds and has the replayed text's length |
| EditScripts.ValidScriptProjects | sfg_audiobook/components/evaluation/QuotationExtractionAndAttributionEvaluationComponent.py:66-91 | for an edit script that turns the predicted text into the ground-truth text, the projected mask has exactly the ground-truth text's length |
| QuotationEvaluation.CountsRelate | sfg_audiobook/components/evaluation/QuotationExtractionAndAttributionEvaluationComponent.py:93-98 | intersection <= union <= length, xor count = union - intersection, and both counts are symmetric |
| QuotationEvaluation.IoUBounds | sfg_audiobook/components/evaluation/QuotationExtractionAndAttributionEvaluationComponent.py:90-95 | the IoU lies in [0, 1], is symmetric, and is 1 exactly when the union is non-empty and the masks agree everywhere |
| QuotationEvaluation.RatioBounds | sfg_audiobook/components/evaluation/QuotationExtractionAndAttributionEvaluationComponent.py:95 | a count over a larger positive total lies in [0, 1] and is 1 exactly when the counts are equal |
| QuotationEvaluation.MistakePositions | sfg_audiobook/components/evaluation/QuotationExtractionAndAttributionEvaluationComponent.py:98-99 | there are as many mistake positions as the xor count, all of them in range |
| QuotationEvaluation.MistakePositionsSpec | sfg_audiobook/components/evaluation/QuotationExtractionAndAttributionEvaluationComponent.py:98-99 | a position is listed exactly when one mask marks it as quote and the other does not; the list is strictly ascending |
| QuotationEvaluation.FirstWithId | sfg_audiobook/components/evaluation/QuotationExtractionAndAttributionEvaluationComponent.py:134 | `next(...)` finds nothing exactly when no part has the id; otherwise it finds the first part with that id |
| QuotationEvaluation.NonZero | sfg_audiobook/components/evaluation/QuotationExtractionAndAttributionEvaluationComponent.py:133 | the skipped ids are exactly the zeros |
| QuotationEvaluation.MatchedQuoteStats | sfg_audiobook/components/evaluation/QuotationExtractionAndAttributionEvaluationComponent.py:132-142 | the loop over matched ids builds the stats of the specification and raises ValueError at the first id with no part |
| QuotationEvaluation.QuoteAttributionStats | sfg_audiobook/components/evaluation/QuotationExtractionAndAttributionEvaluationComponent.py:120-142 | one quote's stats: a "no match" stat when no id is found, else one stat per matched non-zero id |
| QuotationEvaluation.AttributionStats | sfg_audiobook/components/evaluation/QuotationExtractionAndAttributionEvaluationComponent.py:118-143 | the loop over all parts computes the stats list of the specification, and stops at the first error |
| QuotationEvaluation.MatchStatsStep | sfg_audiobook/components/evaluation/QuotationExtractionAndAttributionEvaluationComponent.py:132-142 | one more matched id skips a zero, fails on an unknown id, or appends the stat with correctness = same speaker |
| QuotationEvaluation.AllStatsStep | sfg_audiobook/components/evaluation/QuotationExtractionAndAttributionEvaluationComponent.py:119-142 | one more part skips narration and appends the quote's stats |
| QuotationEvaluation.AllStatsErrSticks | sfg_audiobook/components/evaluation/QuotationExtractionAndAttributionEvaluationComponent.py:142 | once the stats raise, later parts do not change the error |
| QuotationEvaluation.MatchStatsErrSticks | sfg_audiobook/components/evaluation/QuotationExtractionAndAttributionEvaluationComponent.py:142 | once the id loop raises, later ids do not change the error |
| QuotationEvaluation.AllStatsErrAt | sfg_audiobook/components/evaluation/QuotationExtractionAndAttributionEvaluationComponent.py:142 | an error raised at part k is the error of the whole loop |
| QuotationEvaluation.MatchStatsShape | sfg_audiobook/components/evaluation/QuotationExtractionAndAttributionEvaluationComponent.py:132-140 | one stat per non-zero id, each pairing the quote with the other side's part of that id, correct exactly when the speakers agree |
| QuotationEvaluation.MatchStatsOk | sfg_audiobook/components/evaluation/QuotationExtractionAndAttributionEvaluationComponent.py:134-142 | when every non-zero id names a part, the id loop does not raise |
| QuotationEvaluation.NonZeroAscending | sfg_audiobook/components/evaluation/QuotationExtractionAndAttributionEvaluationComponent.py:123-133 | dropping zeros from an ascending unique list keeps it strictly ascending |
| QuotationEvaluation.MatchedIds | sfg_audiobook/components/evaluation/QuotationExtractionAndAttributionEvaluationComponent.py:121-123 | the matched ids are strictly ascending; an id is matched exactly when it is non-zero and overlaps the quote somewhere; the unique list is empty only for empty masks |
| QuotationEvaluation.AllStatsOk | sfg_audiobook/components/evaluation/QuotationExtractionAndAttributionEvaluationComponent.py:141-142 | with masks built from the other side's parts, the ValueError branch is unreachable |
| QuotationEvaluation.AllStatsCorrect | sfg_audiobook/components/evaluation/QuotationExtractionAndAttributionEvaluationComponent.py:119-143 | every stat's quote is a quote part of its side, its match is a part of the other side, and correct means same speaker |
| QuotationEvaluation.CorrectCount | sfg_audiobook/components/evaluation/QuotationExtractionAndAttributionEvaluationComponent.py:144 | the number of correct stats never exceeds the number of stats |
| QuotationEvaluation.Accuracy | sfg_audiobook/components/evaluation/QuotationExtractionAndAttributionEvaluationComponent.py:144-146 | the accuracy lies in [0, 1] and is 1 exactly when there are stats and all are correct (0 for no stats) |
| QuotationEvaluation.FilterKeepsAll | sfg_audiobook/components/evaluation/QuotationExtractionAndAttributionEvaluationComponent.py:54-55 | the filter `part.text.strip() + " "` is always truthy, so it removes no part |
| QuotationEvaluation.ScoreMerged | sfg_audiobook/components/evaluation/QuotationExtractionAndAttributionEvaluationComponent.py:62-181 | the scoring of merged parts computes the specification's four scores or its error |
| QuotationEvaluation.Run | sfg_audiobook/components/evaluation/QuotationExtractionAndAttributionEvaluationComponent.py:38-181 | `run` (empty sides, filter, merge, scoring) computes the specification's result |
| QuotationEvaluation.EvaluationKeys | sfg_audiobook/components/evaluation/QuotationExtractionAndAttributionEvaluationComponent.py:43-51 | only an empty side writes `iou_quotation_score` (1.0 when both sides are empty, else 0.0); otherwise the four scores are written |
| QuotationEvaluation.MergedScoresBounded | sfg_audiobook/components/evaluation/QuotationExtractionAndAttributionEvaluationComponent.py:67-181 | the result has exactly the four score keys; the edit distance is non-negative, and the IoU and both accuracies lie in [0, 1] |
| QuotationEvaluation.MergedScoresFailOnlyOnEmptyTexts | sfg_audiobook/components/evaluation/QuotationExtractionAndAttributionEvaluationComponent.py:68 | given a correct edit script, scoring fails exactly when both texts are empty (division by zero) |
| QuotationEvaluation.EvaluationFailsOnlyOnEmptyTexts | sfg_audiobook/components/evaluation/QuotationExtractionAndAttributionEvaluationComponent.py:43-68 | the component fails exactly when both sides have parts but both cleaned texts are empty |
| SegmentUtils.MergeNeighbouringTextParts | sfg_audiobook/common/utils.py:6-29 | the loop computes the merge of its specification |
| SegmentUtils.RunsPartition | sfg_audiobook/common/utils.py:16-24 | the runs of equal type and speaker partition the parts, in order |
| SegmentUtils.MergedIsRuns | sfg_audiobook/common/utils.py:16-27 | there is one merged part per run, with the run's header and its texts joined by the separator |
| SegmentUtils.MergedNoAdjacentSameRun | sfg_audiobook/common/utils.py:19-24 | no two neighbouring merged parts share type and speaker, and there are no more merged parts than parts |
| SegmentUtils.MergedKeepsText | sfg_audiobook/common/utils.py:21 | with the empty separator, merging keeps the concatenated text |
| SegmentUtils.MergeFromHead | sfg_audiobook/common/utils.py:17-18 | the first merged part carries the first part's id, type and speaker |
| SegmentUtils.JoinAppend | sfg_audiobook/common/utils.py:21 | appending one more text joins it after the separator |
| SegmentUtils.SplitIndices | sfg_audiobook/common/utils.py:51-52 | every split index is followed by a gap greater than 1 |
| SegmentUtils.SplitIndicesExact | sfg_audiobook/common/utils.py:51-52 | an index is a split index exactly when the next element exceeds it by more than 1 |
| SegmentUtils.SplitIndicesAscending | sfg_audiobook/common/utils.py:52 | split indices are strictly ascending |
| SegmentUtils.Ranges | sfg_audiobook/common/utils.py:43-66 | no ranges for an empty array, else one more range than split indices |
| SegmentUtils.ArrayToRanges | sfg_audiobook/common/utils.py:32-68 | the function returns the ranges of the sorted array |
| SegmentUtils.WalkSplits | sfg_audiobook/common/utils.py:58-66 | the loop over split indices builds exactly the specification's ranges |
| SegmentUtils.RangeBeforeSplit | sfg_audiobook/common/utils.py:62 | a range closed at a split ends one past its last element |
| SegmentUtils.RangeAfterSplits | sfg_audiobook/common/utils.py:66 | the last range ends at the array's last element itself |
| SegmentUtils.RangesOrdered | sfg_audiobook/common/utils.py:43-66 | over a sorted array the ranges start at the first element, end at the last, and are ordered and separated |
| SegmentUtils.RangeAt | sfg_audiobook/common/utils.py:61-66 | each range starts no later than it ends and before the next one starts |
| SegmentUtils.RangeValuesGap | sfg_audiobook/common/utils.py:51-63 | between two ranges lies a value absent from the array |
| SegmentUtils.DuplicatesDoNotSplit | sfg_audiobook/common/utils.py:51-52 | repeated values never start a new range |
| Sorting.SortBy | sfg_audiobook/common/utils.py:47 | sorting gives a sorted permutation of the input, and it is stable: the elements of any one key keep their input order, as Python's `sorted` guarantees |
| Sorting.InsertKeyRun | sfg_audiobook/common/utils.py:47 | inserting an element places it after no element of its own key, so the elements of each key keep their order |
| Sorting.InsertSorted | sfg_audiobook/common/utils.py:47 | inserting into a sorted list keeps it sorted |
| Sorting.InsertPermutes | sfg_audiobook/common/utils.py:47 | insertion adds exactly the element to the multiset |
| Sorting.SortedByIntKey | sfg_audiobook/common/utils.py:47 | sorted by the identity key means ascending |
| Sorting.Unique | sfg_audiobook/components/evaluation/QuotationExtractionAndAttributionEvaluationComponent.py:123 | `np.unique` is strictly ascending with exactly the input's elements |
| Sorting.Dedup | sfg_audiobook/components/evaluation/QuotationExtractionAndAttributionEvaluationComponent.py:123 | removing repeats of a sorted list keeps its elements and its first element |
| TextParts.ConcatTextsAppend | sfg_audiobook/components/evaluation/QuotationExtractionAndAttributionEvaluationComponent.py:25 | the text of two part lists is the first text followed by the second |
| TextParts.RemoveNewlines | sfg_audiobook/sfg_types/TextPart.py:20-22 | the text keeps its length, has no newline, and keeps every other character |
| TextParts.RemoveNewlinesIdempotent | sfg_audiobook/sfg_types/TextPart.py:20-22 | removing newlines twice is removing them once |
| PdncLoader.CharacterIdentifier | sfg_audiobook/components/datasets/LoadPDNCGroundtruthComponent.py:75-86 | the identifier is as long as the name without dots plus `_` and the id, ends in `_` + id, and its stem has no space, dot or lower-case ASCII letter |
| PdncLoader.CharacterIdentifierStem | sfg_audiobook/components/datasets/LoadPDNCGroundtruthComponent.py:86 | the identifier is the name read character by character (dots dropped, spaces turned into underscores, letters capitalised), then `_` and the id |
| PdncLoader.ParseAliases | sfg_audiobook/components/datasets/LoadPDNCGroundtruthComponent.py:89-110 | the loop computes the alias list of the specification |
| PdncLoader.AliasesShape | sfg_audiobook/components/datasets/LoadPDNCGroundtruthComponent.py:103-108 | there is one alias per comma-separated piece, and no alias contains a comma |
| PdncLoader.EmptyAliasList | sfg_audiobook/components/datasets/LoadPDNCGroundtruthComponent.py:103-108 | the cell `[]` yields one empty alias, not an empty list |
| PdncLoader.RowCharacter | sfg_audiobook/components/datasets/LoadPDNCGroundtruthComponent.py:131-137 | a row converts exactly when its category and gender codes are known; the character keeps the main name, has the identifier built from the name and the id, the category's type and the gender code's gender, the personality `Also called: ` followed by the aliases joined with `, `, and no speaker or voice |
| PdncLoader.RowEntry | sfg_audiobook/components/datasets/LoadPDNCGroundtruthComponent.py:130-137 | a row fails with KeyError exactly when a code is unknown |
| PdncLoader.EntryAt | sfg_audiobook/components/datasets/LoadPDNCGroundtruthComponent.py:129-141 | entry k is the conversion of row k |
| PdncLoader.CollectOk | sfg_audiobook/components/datasets/LoadPDNCGroundtruthComponent.py:129-141 | collecting succeeds exactly when every row converts |
| PdncLoader.CharacterTableOk | sfg_audiobook/components/datasets/LoadPDNCGroundtruthComponent.py:113-143 | loading succeeds exactly when all codes are known, and otherwise fails with KeyError |
| PdncLoader.LoadPdncCharacters | sfg_audiobook/components/datasets/LoadPDNCGroundtruthComponent.py:113-143 | the row loop computes the character table of the specification |
| PdncLoader.PutNames | sfg_audiobook/components/datasets/LoadPDNCGroundtruthComponent.py:139-141 | the name and then every lower-cased alias map to the character |
| PdncLoader.CharacterTableRows | sfg_audiobook/components/datasets/LoadPDNCGroundtruthComponent.py:131-138 | there is one character per row, in row order |
| PdncLoader.PutAllLookup | sfg_audiobook/components/datasets/LoadPDNCGroundtruthComponent.py:139-141 | after the puts a key is mapped exactly when it was mapped before or is put, and a put key maps to the character |
| PdncLoader.AliasMapLookup | sfg_audiobook/components/datasets/LoadPDNCGroundtruthComponent.py:126-141 | a key is in the alias map exactly when it is some row's name or lower-cased alias, and it maps to the last such row's character |
| PdncTextParts.LoadPdncTextParts | sfg_audiobook/components/datasets/LoadPDNCGroundtruthComponent.py:146-203 | the row and span loops, the trailing part and the final check compute the specification's parts |
| PdncTextParts.EmitRow | sfg_audiobook/components/datasets/LoadPDNCGroundtruthComponent.py:165-188 | the span loop of one row runs that row's spans |
| PdncTextParts.EmitSpan | sfg_audiobook/components/datasets/LoadPDNCGroundtruthComponent.py:166-188 | one span adds its gap part and its quote part, or fails on an unknown speaker |
| PdncTextParts.GapParts | sfg_audiobook/components/datasets/LoadPDNCGroundtruthComponent.py:169-178 | at most one narration part precedes a quote |
| PdncTextParts.EmitCompose | sfg_audiobook/components/datasets/LoadPDNCGroundtruthComponent.py:164-188 | running spans a then b is running a + b |
| PdncTextParts.EmitErr | sfg_audiobook/components/datasets/LoadPDNCGroundtruthComponent.py:186 | the only error of the span loops is KeyError |
| PdncTextParts.EmitNumbered | sfg_audiobook/components/datasets/LoadPDNCGroundtruthComponent.py:171-188 | the counter equals the number of parts, parts are numbered from 1, and exactly the quotes carry a speaker |
| PdncTextParts.EmitQuotes | sfg_audiobook/components/datasets/LoadPDNCGroundtruthComponent.py:180-188 | the quote parts are the widened spans with their speakers' identifiers, in order |
| PdncTextParts.EmitSpelled | sfg_audiobook/components/datasets/LoadPDNCGroundtruthComponent.py:164-188 | for ordered, non-overlapping spans the parts spell the text up to the last quote, with no empty narration |
| PdncTextParts.FinishSpelled | sfg_audiobook/components/datasets/LoadPDNCGroundtruthComponent.py:190-198 | the trailing part completes the text |
| PdncTextParts.PdncTextPartsWellFormed | sfg_audiobook/components/datasets/LoadPDNCGroundtruthComponent.py:146-203 | for well-formed spans the final assert holds, the parts spell the text, narration is non-empty, ids run from 1, and the quotes are the widened spans with their speakers |
| PdncTextParts.PdncTextPartsQuotes | sfg_audiobook/components/datasets/LoadPDNCGroundtruthComponent.py:181-202 | whenever loading succeeds, the parts spell the text, are numbered from 1, and the quotes are the widened spans with their speakers |
| LitbankAnnotations.Put | sfg_audiobook/components/datasets/LoadLitbankBookGroundtruthComponent.py:253-267 | dictionary assignment: a new key goes to the end of the order, an old key keeps its place, and validity is kept |
| LitbankAnnotations.Field | sfg_audiobook/components/datasets/LoadLitbankBookGroundtruthComponent.py:253-271 | a column read fails (IndexError) exactly when the column is missing |
| LitbankAnnotations.IntField | sfg_audiobook/components/datasets/LoadLitbankBookGroundtruthComponent.py:256-263 | an integer column succeeds exactly when present and an integer literal |
| LitbankAnnotations.QuoteLine | sfg_audiobook/components/datasets/LoadLitbankBookGroundtruthComponent.py:253-267 | a `QUOTE` line parses exactly when it has 7 columns with integers in columns 2-5, keeping id, text and positions |
| LitbankAnnotations.ParseAnnotations | sfg_audiobook/components/datasets/LoadLitbankBookGroundtruthComponent.py:235-273 | the line loop computes the parsed dictionaries of the specification |
| LitbankAnnotations.LineStepFails | sfg_audiobook/components/datasets/LoadLitbankBookGroundtruthComponent.py:248-271 | a line raises exactly when it is a malformed `QUOTE` or `ATTRIB` line |
| LitbankAnnotations.ParseLinesOk | sfg_audiobook/components/datasets/LoadLitbankBookGroundtruthComponent.py:248-271 | the file parses exactly when no line raises |
| LitbankAnnotations.ParseLinesErr | sfg_audiobook/components/datasets/LoadLitbankBookGroundtruthComponent.py:248-271 | the first failing line decides the error |
| LitbankAnnotations.ParseLinesValid | sfg_audiobook/components/datasets/LoadLitbankBookGroundtruthComponent.py:253-267 | the quote dictionary lists each key once, and exactly its keys |
| LitbankAnnotations.LineStepQuote | sfg_audiobook/components/datasets/LoadLitbankBookGroundtruthComponent.py:253-267 | a line sets the quote of an id exactly when it is a well-formed `QUOTE` line for that id |
| LitbankAnnotations.LineStepSpeaker | sfg_audiobook/components/datasets/LoadLitbankBookGroundtruthComponent.py:268-271 | a line sets the speaker of an id exactly when it is a well-formed `ATTRIB` line for that id |
| LitbankAnnotations.ParseLinesLastQuote | sfg_audiobook/components/datasets/LoadLitbankBookGroundtruthComponent.py:253-267 | each id maps to the quote of its last `QUOTE` line |
| LitbankAnnotations.ParseLinesLastSpeaker | sfg_audiobook/components/datasets/LoadLitbankBookGroundtruthComponent.py:268-271 | each id maps to the speaker of its last `ATTRIB` line |
| LitbankAnnotations.AttributedQuotes | sfg_audiobook/components/datasets/LoadLitbankBookGroundtruthComponent.py:96-106 | only quotes with a truthy attribution are kept, in key order, with their text, id and speaker |
| LitbankAnnotations.AttributedQuotesComplete | sfg_audiobook/components/datasets/LoadLitbankBookGroundtruthComponent.py:96-106 | every key with a truthy attribution yields a quote |
| LitbankAnnotations.CollectQuotes | sfg_audiobook/components/datasets/LoadLitbankBookGroundtruthComponent.py:96-106 | the loop yields the attributed quotes, and the characters are exactly their speakers |
| LitbankAnnotations.SpeakersAppend | sfg_audiobook/components/datasets/LoadLitbankBookGroundtruthComponent.py:104-106 | one more quote adds its speaker to the set |
| LitbankAnnotations.FragmentEnd | sfg_audiobook/components/datasets/LoadLitbankBookGroundtruthComponent.py:118-124 | the end token fails (IndexError) exactly when a non-final sentence is missing |
| LitbankAnnotations.SpanEnd | sfg_audiobook/components/datasets/LoadLitbankBookGroundtruthComponent.py:117 | the sentence range never ends before it starts |
| LitbankAnnotations.BuildQuoteRanges | sfg_audiobook/components/datasets/LoadLitbankBookGroundtruthComponent.py:112-127 | the loop over quotes builds the per-sentence fragment table of the specification |
| LitbankAnnotations.SpreadQuote | sfg_audiobook/components/datasets/LoadLitbankBookGroundtruthComponent.py:117-127 | the loop over one quote's sentences appends one fragment to each sentence |
| LitbankAnnotations.SpreadFails | sfg_audiobook/components/datasets/LoadLitbankBookGroundtruthComponent.py:118-124 | spreading fails exactly when a sentence before the last one does not exist |
| LitbankAnnotations.SpreadOutside | sfg_audiobook/components/datasets/LoadLitbankBookGroundtruthComponent.py:117-127 | sentences outside the quote's range are untouched |
| LitbankAnnotations.SpreadInside | sfg_audiobook/components/datasets/LoadLitbankBookGroundtruthComponent.py:117-127 | each sentence inside the range gains exactly the quote's fragment, with the start and end tokens for that sentence |
| LitbankAnnotations.QuoteRangesErr | sfg_audiobook/components/datasets/LoadLitbankBookGroundtruthComponent.py:112-127 | an error at one quote ends the loop with that error |
| LitbankParts.LitbankTextParts | sfg_audiobook/components/datasets/LoadLitbankBookGroundtruthComponent.py:130-225 | the sentence loop and the final flush compute the parts of the state machine |
| LitbankParts.QuotedSentence | sfg_audiobook/components/datasets/LoadLitbankBookGroundtruthComponent.py:138-200 | a sentence with fragments runs the sorted fragments and then the rest of the sentence |
| LitbankParts.QuoteFragments | sfg_audiobook/components/datasets/LoadLitbankBookGroundtruthComponent.py:142-181 | the fragment loop runs the fragments in the given order and ends after the last fragment's end token |
| LitbankParts.QuoteFragment | sfg_audiobook/components/datasets/LoadLitbankBookGroundtruthComponent.py:145-181 | one fragment emits the text before it and then the quote |
| LitbankParts.SameSpeakerMerges | sfg_audiobook/components/datasets/LoadLitbankBookGroundtruthComponent.py:164-172 | a fragment continuing an open quote of the same speaker is appended to it |
| LitbankParts.OtherSpeakerStarts | sfg_audiobook/components/datasets/LoadLitbankBookGroundtruthComponent.py:173-181 | any other fragment closes the open part and opens a quote of its own speaker |
| LitbankParts.WalkExtends | sfg_audiobook/components/datasets/LoadLitbankBookGroundtruthComponent.py:135-217 | sentences are processed in order: later parts only ever extend earlier ones |
| LitbankParts.SentenceStepExtends | sfg_audiobook/components/datasets/LoadLitbankBookGroundtruthComponent.py:135-217 | one sentence only appends parts |
| LitbankParts.SortedSpeakers | sfg_audiobook/components/datasets/LoadLitbankBookGroundtruthComponent.py:140 | sorting the fragments by start token keeps their speakers |
| LitbankParts.BookPartsTagged | sfg_audiobook/components/datasets/LoadLitbankBookGroundtruthComponent.py:130-225 | every emitted part is stripped; narration has no speaker and a quote has one of the fragments' speakers |
| LitbankParts.QuoteRangesFrom | sfg_audiobook/components/datasets/LoadLitbankBookGroundtruthComponent.py:112-127 | every fragment carries the attribution of a quote of the dictionary |
| LitbankParts.LoadLitbankBook | sfg_audiobook/components/datasets/LoadLitbankBookGroundtruthComponent.py:81-232 | the loader computes the book of its specification, or the first parse error |
| LitbankParts.BookWellFormed | sfg_audiobook/components/datasets/LoadLitbankBookGroundtruthComponent.py:81-232 | a loaded book keeps the raw text, its characters are exactly its quotes' speakers, and its parts are tagged with annotation speakers |
| PipelineTypes.NewCharacter | sfg_audiobook/sfg_types/Character.py:6-31 | a new character has the given name, identifier and type, and the defaults for every other field |
| ComponentsRegistry.ComponentsRegister.RegisterComponent | sfg_audiobook/components/ComponentsRegister.py:12-23 | registration fails, changing nothing, exactly when the class is not a component or the name is taken; otherwise only that name is added |
| ComponentsRegistry.ComponentsRegister.GetComponent | sfg_audiobook/components/ComponentsRegister.py:26-32 | the lookup returns the registered class exactly when the name is registered |
| ComponentsRegistry.ComponentsRegister.GetAllComponents | sfg_audiobook/components/ComponentsRegister.py:35-40 | the table has exactly the names that the lookup finds, with the same classes |
| ComponentsRegistry.RegisterKeepsOnlyComponents | sfg_audiobook/components/ComponentsRegister.py:19-23 | registration keeps the invariant that every registered class is a component |
| ComponentParsing.ParseComponentString | sfg_audiobook/components/ComponentParser.py:8-30 | parsing succeeds exactly when the string splits and its name is registered, giving that name, its arguments and its class |
| ComponentParsing.IndexOf | sfg_audiobook/components/ComponentParser.py:13 | the split happens at the first `[` |
| ComponentParsing.ArgPair | sfg_audiobook/components/ComponentParser.py:16 | an argument unpacks exactly when it holds one `=` |
| ComponentParsing.PlainName | sfg_audiobook/components/ComponentParser.py:20-22 | without both brackets the whole string is the name and there are no arguments |
| ComponentParsing.BracketName | sfg_audiobook/components/ComponentParser.py:12-14 | with both brackets the name is the text before the first `[` and contains no `[` |
| ComponentParsing.BracketForm | sfg_audiobook/components/ComponentParser.py:12-19 | `name[args` parses to that name and the arguments of the text after the bracket, with `]` stripped |
| ComponentParsing.ArgsFromOk | sfg_audiobook/components/ComponentParser.py:15-19 | the arguments parse exactly when every comma-separated piece holds one `=` |
| ComponentParsing.ArgsFromKeys | sfg_audiobook/components/ComponentParser.py:16 | the keys are exactly the pieces' keys |
| ComponentParsing.ArgsFromLast | sfg_audiobook/components/ComponentParser.py:16 | a repeated key takes the value of its last piece |
| ComponentParsing.EmptyArgsFail | sfg_audiobook/components/ComponentParser.py:14-19 | `name[]` is a ComponentParserError (the one empty piece has no `=`) |
| ComponentParsing.FormatParse | sfg_audiobook/components/ComponentParser.py:12-19 | round trip: parsing `name[k1=v1,...]` gives back the name and the pairs as a dictionary |
| ComponentParsing.PiecesParse | sfg_audiobook/components/ComponentParser.py:16 | the pieces `k=v` parse back to the pairs' dictionary |
| ComponentParsing.StripClosingBracket | sfg_audiobook/components/ComponentParser.py:14 | right-stripping `]` removes exactly the closing bracket of bracket-free arguments |
| PrintSelection.SelectAttributes | sfg_audiobook/components/io_components/PrintDataToStdoutComponent.py:13-33 | a selection is always a subset of the record's attributes |
| PrintSelection.NoAttrsSelectsAll | sfg_audiobook/components/io_components/PrintDataToStdoutComponent.py:15-16 | with no `attrs` every attribute is printed |
| PrintSelection.SelectOk | sfg_audiobook/components/io_components/PrintDataToStdoutComponent.py:24-29 | a list is accepted exactly when it names at least one attribute and only known ones |
| PrintSelection.SelectListed | sfg_audiobook/components/io_components/PrintDataToStdoutComponent.py:20-33 | an accepted list selects its names, or after `!` exactly the others |
| PrintSelection.AttributeNames | sfg_audiobook/components/io_components/PrintDataToStdoutComponent.py:24 | the names are non-empty and contain no `;` |
| PrintSelection.ListedNames | sfg_audiobook/components/io_components/PrintDataToStdoutComponent.py:24 | round trip: joining names with `;` and splitting again gives the names back |
| PrintSelection.NonEmpty | sfg_audiobook/components/io_components/PrintDataToStdoutComponent.py:24 | the filter keeps exactly the non-empty strings |
| DummyQuotationAttribution.Run | sfg_audiobook/components/quotation_attributors/DummyQuotationAttributorComponent.py:19-30 | the text parts become the dummy parts with the first character on every quote; the other fields are unchanged |
| DummyQuotationAttribution.DummyPartsShape | sfg_audiobook/components/quotation_attributors/DummyQuotationAttributorComponent.py:21-25 | parts alternate between narration and quote, starting with narration; each holds 1 to 8 words, and all but the last hold exactly 8 |
| DummyQuotationAttribution.DummyPartsCount | sfg_audiobook/components/quotation_attributors/DummyQuotationAttributorComponent.py:22-23 | there are no parts exactly when there are no words, and just enough parts of 8 words to hold every word |
| DummyQuotationAttribution.PartWords | sfg_audiobook/components/quotation_attributors/DummyQuotationAttributorComponent.py:24-25 | each part's words are its chunk of the text's words |
| DummyQuotationAttribution.NoWordDropped | sfg_audiobook/components/quotation_attributors/DummyQuotationAttributorComponent.py:21-25 | the parts' words, in order, are exactly the text's words |
| DummyQuotationAttribution.QuoteSpeaker | sfg_audiobook/components/quotation_attributors/DummyQuotationAttributorComponent.py:28-30 | the speaker is the first character's identifier, or none when there are no characters |
| DummyQuotationAttribution.AttributedSpeakers | sfg_audiobook/components/quotation_attributors/DummyQuotationAttributorComponent.py:28-30 | quote parts get the speaker and narration parts get none |
| DummyQuotationAttribution.AttributedTexts | sfg_audiobook/components/quotation_attributors/DummyQuotationAttributorComponent.py:28-30 | assigning speakers keeps the concatenated text |
| SpeakerMatchers.DummyMatch | sfg_audiobook/components/character_to_speaker_matchers/DummyCharacterToSpeakerMatcherComponent.py:18-21 | every character gets the fallback speaker per its specification; the other fields are unchanged |
| SpeakerMatchers.FallbackSpeaker | sfg_audiobook/components/character_to_speaker_matchers/DummyCharacterToSpeakerMatcherComponent.py:18-21 | the first available speaker's id, or the default id when there is none |
| SpeakerMatchers.DummyMatchAssigns | sfg_audiobook/components/character_to_speaker_matchers/DummyCharacterToSpeakerMatcherComponent.py:18-21 | afterwards every character has a speaker; an assigned speaker is kept and an unassigned character gets the fallback |
| SpeakerMatchers.DummyMatchIdempotent | sfg_audiobook/components/character_to_speaker_matchers/DummyCharacterToSpeakerMatcherComponent.py:18-21 | matching twice is matching once |
| SpeakerMatchers.LlmMatch | sfg_audiobook/components/character_to_speaker_matchers/LLMCharacterToSpeakerMatcherComponent.py:35-63 | fails exactly without voices (nothing changed) or without an answer (narrator already added); otherwise it adds the narrator and assigns the matched voices |
| SpeakerMatchers.AddNarrator | sfg_audiobook/components/character_to_speaker_matchers/LLMCharacterToSpeakerMatcherComponent.py:38-40 | the characters become the narrator-extended list; the other fields are unchanged |
| SpeakerMatchers.AssignVoices | sfg_audiobook/components/character_to_speaker_matchers/LLMCharacterToSpeakerMatcherComponent.py:46-57 | the loop gives each character the voice of its first match when that voice is available, else none |
| SpeakerMatchers.WithNarratorSpec | sfg_audiobook/components/character_to_speaker_matchers/LLMCharacterToSpeakerMatcherComponent.py:38-40 | afterwards a narrator exists; the old characters are kept, and one is appended only when there was none |
| SpeakerMatchers.DefaultNarrator | sfg_audiobook/components/character_to_speaker_matchers/LLMCharacterToSpeakerMatcherComponent.py:39-40 | the added character is a narrator with identifier `NARRATOR` |
| SpeakerMatchers.FirstMatch | sfg_audiobook/components/character_to_speaker_matchers/LLMCharacterToSpeakerMatcherComponent.py:48 | `next(...)` finds nothing exactly when no match names the character; otherwise it finds the first match |
| SpeakerMatchers.FirstIsUnique | sfg_audiobook/components/character_to_speaker_matchers/LLMCharacterToSpeakerMatcherComponent.py:48 | the first match of a character is unique |
| SpeakerMatchers.VoicesAvailable | sfg_audiobook/components/character_to_speaker_matchers/LLMCharacterToSpeakerMatcherComponent.py:49-54 | every assigned voice is an available voice |
| SpeakerMatchers.MatchedVoiceFirst | sfg_audiobook/components/character_to_speaker_matchers/LLMCharacterToSpeakerMatcherComponent.py:48-54 | the first match decides: its voice if available, else none |
| SpeakerMatchers.UnmatchedHasNoVoice | sfg_audiobook/components/character_to_speaker_matchers/LLMCharacterToSpeakerMatcherComponent.py:55-57 | an unmatched character gets no voice |
| SpeakerMatchers.WithVoices | sfg_audiobook/components/character_to_speaker_matchers/LLMCharacterToSpeakerMatcherComponent.py:47-57 | one character per character, each with its matched voice |
| AzureTts.Configure | sfg_audiobook/components/text_to_speeches/AzureTTSComponent.py:24-32 | configuration fails exactly when `out_file` is missing or empty; `lang` defaults to `en-US`; the voices are `VoiceList` of the `voices` parameter, whose meaning `StrippedPiecesMembers`, `StrippedPiecesAppend` and `VoiceListJoin` state |
| AzureTts.VoiceList | sfg_audiobook/components/text_to_speeches/AzureTTSComponent.py:31-32 | the selected voices are non-empty and stripped |
| AzureTts.VoiceListJoin | sfg_audiobook/components/text_to_speeches/AzureTTSComponent.py:31-32 | names that are non-empty, stripped and free of `;`, joined with `;`, read back as the same names in the same order |
| AzureTts.StrippedPieces | sfg_audiobook/components/text_to_speeches/AzureTTSComponent.py:32 | stripped pieces are non-empty and no more than the pieces |
| AzureTts.StrippedPiecesMembers | sfg_audiobook/components/text_to_speeches/AzureTTSComponent.py:32 | a voice is selected exactly when it is the non-empty stripped text of some `;`-piece |
| AzureTts.StrippedPiecesAppend | sfg_audiobook/components/text_to_speeches/AzureTTSComponent.py:32 | the voices of two runs of pieces are the first run's followed by the second run's, so the pieces' order is kept |
| AzureTts.PickedVoices | sfg_audiobook/components/text_to_speeches/AzureTTSComponent.py:90 | a voice is picked exactly when it is listed and selected, and it is picked as many times as the service lists it (the count that line 91 compares) |
| AzureTts.PickedVoicesAppend | sfg_audiobook/components/text_to_speeches/AzureTTSComponent.py:90 | the voices picked from two runs of the service's list are the first run's followed by the second run's, so the service's order is kept |
| AzureTts.DuplicatePickRefused | sfg_audiobook/components/text_to_speeches/AzureTTSComponent.py:88-94 | the length comparison as written refuses a selection naming one available voice twice |
| AzureTts.PickedCheck | sfg_audiobook/components/text_to_speeches/AzureTTSComponent.py:88-94 | the check passes exactly when every selected name has a voice, and then gives the picked voices |
| AzureTts.PickedCheckCovers | sfg_audiobook/components/text_to_speeches/AzureTTSComponent.py:88-94 | after the check every selected name is among the picked voices |
| AzureTts.LanguageVoices | sfg_audiobook/components/text_to_speeches/AzureTTSComponent.py:102-106 | a voice is kept exactly when its locale starts with the language, as many times as the service lists it |
| AzureTts.LanguageVoicesAppend | sfg_audiobook/components/text_to_speeches/AzureTTSComponent.py:102-106 | the language's voices of two runs of the service's list are the first run's followed by the second run's, so the service's order is kept |
| AzureTts.Setup | sfg_audiobook/components/text_to_speeches/AzureTTSComponent.py:85-116 | setup fails exactly as its specification does, sets the voices only for a non-empty language match, and changes no other field; with selected voices it applies the corrected check `PickedCheck` (see Findings), so a name selected twice is accepted where line 91 raises |
| AzureTts.SetupLanguage | sfg_audiobook/components/text_to_speeches/AzureTTSComponent.py:96-115 | with no selection the voices are the language's voices in the service's order, one per voice whose locale starts with the language, with its service name, gender and locale, and its description from the table or an empty one |
| PipelineTypes.VoiceIds | sfg_audiobook/components/text_to_speeches/AzureTTSComponent.py:124 | the ids of the available voices, one per voice, in order |
| AzureTts.NarratorVoice | sfg_audiobook/components/text_to_speeches/AzureTTSComponent.py:129 | no narrator voice exactly when no character is a narrator; otherwise it is the voice of a narrator before which no character is a narrator |
| AzureTts.ToSsmlElements | sfg_audiobook/components/text_to_speeches/AzureTTSComponent.py:119-156 | the element loop computes the specification's elements or its error |
| AzureTts.AllVoicesAvailable | sfg_audiobook/components/text_to_speeches/AzureTTSComponent.py:125-126 | the loop decides whether every character's voice is available |
| AzureTts.AnyWithoutVoice | sfg_audiobook/components/text_to_speeches/AzureTTSComponent.py:125-127 | the loop decides whether some character has no voice at all |
| AzureTts.PartElements | sfg_audiobook/components/text_to_speeches/AzureTTSComponent.py:135-154 | the loop yields one element per part |
| AzureTts.ElementsOf | sfg_audiobook/components/text_to_speeches/AzureTTSComponent.py:136-154 | element k is the element of part k |
| AzureTts.SsmlElementsFail | sfg_audiobook/components/text_to_speeches/AzureTTSComponent.py:125-131 | conversion fails exactly when some voice is unavailable or the narrator voice is missing or empty; the failure is the `TypeError` of building the message exactly when some character has no voice |
| AzureTts.NarratorUsable | sfg_audiobook/components/text_to_speeches/AzureTTSComponent.py:129-131 | the narrator check rejects exactly a missing or empty narrator voice |
| AzureTts.SsmlElementsVoices | sfg_audiobook/components/text_to_speeches/AzureTTSComponent.py:133-154 | narration is voiced by the narrator; a quote by the voice of the last character with its identifier, or none |
| AzureTts.VoiceByIdentifierLast | sfg_audiobook/components/text_to_speeches/AzureTTSComponent.py:133 | the mapping has exactly the identifiers, and a repeated identifier keeps its last character's voice |
| AzureTts.SsmlElementsText | sfg_audiobook/components/text_to_speeches/AzureTTSComponent.py:136-154 | the elements' texts spell the parts' texts |
| AzureTts.ElementsTextOf | sfg_audiobook/components/text_to_speeches/AzureTTSComponent.py:141-145 | elements with their parts' texts spell the concatenated text |
| AzureTts.BatchesSpec | sfg_audiobook/components/text_to_speeches/AzureTTSComponent.py:196 | each batch holds 1 to 50 elements, all but the last exactly 50, the batches together are the elements in order, and there are none only for no elements |
| PyStrings.ChunksCount | sfg_audiobook/components/text_to_speeches/AzureTTSComponent.py:196 | chunking gives no chunks exactly for the empty list, and just enough chunks to hold every element |
| PyStrings.ChunksSizes | sfg_audiobook/components/quotation_attributors/DummyQuotationAttributorComponent.py:22-23 | every chunk is non-empty and at most the size, and all but the last are full |
| PyStrings.ChunksFlatten | sfg_audiobook/components/quotation_attributors/DummyQuotationAttributorComponent.py:22-23 | the chunks together are the list |
| PyStrings.ChunksAreSlices | sfg_audiobook/components/text_to_speeches/AzureTTSComponent.py:196 | the chunks are the comprehension's slices `s[i:i+size]` for `i` in `range(0, len, size)` |
| PyStrings.SplitJoin | sfg_audiobook/components/datasets/LoadPDNCGroundtruthComponent.py:104 | joining the pieces of a split with the separator gives the string back |
| PyStrings.JoinSplit | sfg_audiobook/components/io_components/PrintDataToStdoutComponent.py:24 | splitting a join of separator-free pieces gives the pieces back |
| PyStrings.SplitCount | sfg_audiobook/components/datasets/LoadPDNCGroundtruthComponent.py:104 | a split gives one more piece than separators |
| PyStrings.WordsJoin | sfg_audiobook/components/quotation_attributors/DummyQuotationAttributorComponent.py:21-25 | the words of space-joined words are those words |
| PyStrings.StripIsStripped | sfg_audiobook/components/datasets/LoadPDNCGroundtruthComponent.py:103-107 | a stripped string has no surrounding whitespace |
| PyStrings.LStripSpec | sfg_audiobook/components/datasets/LoadPDNCGroundtruthComponent.py:103 | left-stripping drops exactly the leading whitespace |
| PyStrings.RStripSpec | sfg_audiobook/components/datasets/LoadPDNCGroundtruthComponent.py:103 | right-stripping drops exactly the trailing whitespace |
| PyStrings.Lookup | sfg_audiobook/components/datasets/LoadLitbankBookGroundtruthComponent.py:96-106 | `dict.get` finds a value exactly when the key is present |

## Left out

- The Levenshtein library: `Levenshtein.editops` is not part of this model. The edit script is an input. A correct script is characterised by `ValidScript`: well-formed positions whose replay turns the predicted text into the ground-truth text. The minimality of the script is not modelled.
- `remove_duplicate_spaces` is not part of this model. It is a parameter of `Evaluation`. The theorems hold for any such function.
- File, CSV and JSON reading, `print` output and the mistake-range printing of the evaluation component. The loaders take the already-read texts and rows.
- The Azure Speech SDK, the synthesis, the pydub concatenation and the serialization of voice elements to an SSML string. Voices are given as a list, and an element is a name, a text and the 200 ms break.
- The `SPEECH_KEY` and `SPEECH_REGION` environment variables (external state).
- The LLM calls. The LLM's answer is a parameter (`None` for a failed prediction). Token statistics are also left out.
- The `Pipeline`, the command-line interface and the module-import side effect that registers each component.
- Instantiating a component class with its arguments. The parser returns the class and the arguments instead.
- The `run` methods of the PDNC loader (`LoadPDNCGroundtruthComponent.py:35-53`) and of the LitBank loader (`LoadLitbankBookGroundtruthComponent.py:49-59`). They only read files and write `additional_attributes`.
- `additional_attributes` is not a field of `PipelineData`. It is a free-form dictionary that the source writes and reads.
- `availableVoices`, a narrator character type and a character's assigned voice are added to the types. The matcher and the Azure component use them, but `PipelineData.py` and `Character.py` do not declare them.
- Case mapping (`upper`, `lower`) covers ASCII letters only. Full Unicode case mapping is left out.
- Text parts and characters are values. `remove_newlines` returns the updated part instead of mutating it, and aliasing between shared part objects is not modelled.
- `LitbankParts.BookParts` and `DummyQuotationAttribution.DummyParts` give their parts the placeholder id 0. The source builds these parts without the `id` that `TextPart.py:15` requires.
- The LitBank loader's characters are a set. The order of `list(set(...))` is unspecified in Python.
- The Azure component's branch for an unsupported part type (`AzureTTSComponent.py:146-147`) cannot occur, because part types are a two-valued datatype.
- The print component's `run`, which only prints the selected attributes.
- The dummy attributor's docstring says some words may be omitted. The code keeps all of them, and the model follows the code (`NoWordDropped`).
- AzureTts.Setup: with selected voices it applies the corrected check `PickedCheck`, not the length comparison at `AzureTTSComponent.py:91`. For a selection that names an available voice twice, the source raises `ValueError` and the model returns `Ok`. The check as written is `PickedCheckAsWritten`, and the Findings table records the difference.
- LitbankAnnotations.IntField: `int()` is modelled on ASCII digits, with a sign, surrounding whitespace and single underscores between digits. Python also accepts the decimal digits of other scripts (for example `"٣"`). The model rejects those where the source parses them.
- NumPy array semantics are modelled on sequences: `np.insert`, `np.delete`, `np.unique`, `np.where`, boolean masks. Numeric scores are exact reals rather than floats.

## Findings

| source | as written | input that shows it | evidently intended | confidence | as-written member | corrected member |
|---|---|---|---|---|---|---|
| sfg_audiobook/components/text_to_speeches/AzureTTSComponent.py:90-94 | the check compares the number of picked voices with the number of selected names | available voices `[en-US-AvaNeural]`, `voices` parameter `en-US-AvaNeural;en-US-AvaNeural`: one voice is picked for two names, so `ValueError` is raised although no voice is missing | raise only when some selected voice is not available | high; not executed | AzureTts.DuplicatePickRefused | AzureTts.PickedCheck |
