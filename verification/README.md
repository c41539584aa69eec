# Taxonomy navigator, modelled in Dafny

The taxonomy navigator classifies a product description into one leaf
category of a product taxonomy. It asks an AI model a short series of
questions, narrowing the choice at each stage:

1. **Summary.** A one-call product summary. If the call fails, the
   description itself is used, cut to 400 characters.
2. **Stage 1.** One call picks at most two L1 (top-level) categories. The
   answer is checked against the taxonomy, de-duplicated ignoring case, and
   matched back to the taxonomy's own spelling. If the call fails, the
   first two L1 categories are used.
3. **Stage 2A and 2B.** The leaves under the first and then the second
   chosen L1 are offered in numbered batches of 100, one call per batch.
   Each number in a reply that names a position of its batch picks that
   leaf. 2B excludes what 2A picked.
4. **Stage 3.** When more than one leaf is left, one call picks the final
   one by number.
5. **Lookup.** The first leaf path whose last segment is that leaf is
   returned.

The batch tester turns a product line into a title and a leaf-name answer.
The configuration module validates and looks up the API key.

The project models:

* the taxonomy scan and tree of `src/taxonomy_navigator_engine.py`;
* every stage of `TaxonomyNavigator`;
* the title and answer logic of `simple_batch_tester.py`. The copy
  `tests/simple_batch_tester.py` is identical line for line.
* the key checks of `src/config.py`.

**How the AI model is represented.** It is a scripted `Oracle.Client`. The
client holds the sequence of replies still to come, and each call takes the
next one. A reply is one of three things:

* `Content(text)`;
* `NoContent`, the message's `None` content;
* `CallFailed`, the call raised.

Every pipeline stage is a pure function from the remaining replies to its
result and the number of calls it made. The `TaxonomyNavigator` methods are
proved against those functions: each method's `ensures` ties its result
and the client's call counter to the function. The lemmas state what the
source promises about the functions.

Modules (one file each, in dependency order):

* `Lists` and `Text`: Python list and string behaviour. This covers
  `strip`, `split`, `lower`, `re.findall(r'\d+')` over ASCII digits, and
  ASCII `int()`.
* `Oracle`: the scripted AI client.
* `Taxonomy`: the line scan and leaf detection.
* `Tree`: `_add_to_tree` and `TaxonomyTree`.
* `Lookups`: leaf lists, dictionaries and path lookup.
* `L1Selection`: Stage 1 and category validation.
* `LeafSelection`: Stage 2 batching and reply parsing.
* `FinalSelection`: Stage 3, number parsing and the summary.
* `Navigator`: the whole run as functions.
* `Engine`: the `TaxonomyNavigator` class.
* `BatchTester`: the tester's logic.
* `Config`: the API-key checks.

**Fallbacks.** Four failures do not stop a classification:

* A failed summary call yields the description itself, cut to 400
  characters with `...` appended when longer
  (src/taxonomy_navigator_engine.py:286; `FinalSelection.ProductSummary`).
* A batch whose call raises is skipped and the remaining batches still run
  (src/taxonomy_navigator_engine.py:709-711; `LeafSelection.BatchPicks`).
* A Stage 3 answer that holds no usable number, is not empty and is not one
  of the meaningless words selects option 0, the first one
  (src/taxonomy_navigator_engine.py:1138-1140; `FinalSelection.ParseFailsExactly`).
* A failed Stage 1 call yields the first two L1 categories
  (src/taxonomy_navigator_engine.py:532-539; `L1Selection.Stage1FallbackNonEmpty`).

## Model

| member | source | states |
|---|---|---|
| Engine.TaxonomyNavigator.constructor | src/taxonomy_navigator_engine.py:201-230 | `all_paths` and `leaf_markers` are the scan of the taxonomy lines. The tree holds the paths as `_build_taxonomy_tree` inserts them. |
| Taxonomy.FindLaterChild | src/taxonomy_navigator_engine.py:339-346 | The inner scan loop finds a child exactly when some later body line, stripped and non-empty, starts with the line followed by ` > `. |
| Taxonomy.KeptIndicesExact | src/taxonomy_navigator_engine.py:330-335 | The kept lines are exactly the non-blank lines after the header, in increasing order. |
| Taxonomy.NothingKeptAfterLast | src/taxonomy_navigator_engine.py:330-333 | No non-blank line follows the last kept one. |
| Taxonomy.KeptLengths | src/taxonomy_navigator_engine.py:335-348 | One path and one marker are appended per kept line. |
| Taxonomy.ScanLengths | src/taxonomy_navigator_engine.py:326-353 | `all_paths` and `leaf_markers` have equal length. |
| Taxonomy.KeptPathsAreLines | src/taxonomy_navigator_engine.py:330-335 | Each stored path is its line stripped, in file order. |
| Taxonomy.KeptPathsStripped | src/taxonomy_navigator_engine.py:331-335 | No stored path is empty or has surrounding whitespace. |
| Taxonomy.KeptMarkersAreLeaves | src/taxonomy_navigator_engine.py:339-348 | A path is marked a leaf if and only if no later line names a child of it. |
| Taxonomy.LastKeptIsLeaf | src/taxonomy_navigator_engine.py:339-348 | The last path of the file is always a leaf. |
| Taxonomy.Body | src/taxonomy_navigator_engine.py:330 | `lines[1:]`: the header is skipped, with an empty file giving nothing. |
| Taxonomy.SegmentsShape | src/taxonomy_navigator_engine.py:617-618 | Splitting on ` > ` gives at least one segment. Joining the segments gives the path back, and no segment holds the separator. |
| Taxonomy.SegmentsOfTwoLevels | src/taxonomy_navigator_engine.py:617-618 | Two separator-free names joined by ` > ` split back into those two names, unless the first ends in ` >`. |
| Taxonomy.L1OfShape | src/taxonomy_navigator_engine.py:449 | The L1 of a path is the text before the first ` > `, or the whole path. |
| Taxonomy.LeafOfShape | src/taxonomy_navigator_engine.py:617 | The leaf name ends the path and holds no separator. |
| Tree.TaxonomyTree.constructor | src/taxonomy_navigator_engine.py:319 | The tree starts empty. |
| Tree.TaxonomyTree.AddPath | src/taxonomy_navigator_engine.py:366-417 | The tree afterwards is the old tree with the path inserted. |
| Tree.TreeKey | src/taxonomy_navigator_engine.py:383-391 | A path without `>` is a single top-level key. Otherwise it is split into at least two stripped parts. |
| Tree.StripEach | src/taxonomy_navigator_engine.py:391 | Each part is stripped, with count and order kept. |
| Tree.InsertedShape | src/taxonomy_navigator_engine.py:383-417 | Insertion leaves a chain of nodes from the root for every part. The last node carries the leaf flag. Nodes it creates above that are non-leaves. Every other node keeps its flag, and no other node is added. |
| Tree.InsertedPrefixClosed | src/taxonomy_navigator_engine.py:395-417 | Insertion keeps every node's parent in the tree. |
| Tree.TreeOfPrefixClosed | src/taxonomy_navigator_engine.py:326-349 | The built tree holds every node's parent. |
| Tree.TreeOfHoldsPaths | src/taxonomy_navigator_engine.py:326-349 | The built tree holds the whole chain of every taxonomy line, whatever later lines insert. |
| Tree.InsertedGrows | src/taxonomy_navigator_engine.py:398-417 | Insertion never removes a node and always leaves the inserted chain. |
| Lookups.LeafFieldsOfLeafPaths | src/taxonomy_navigator_engine.py:945-950 | The leaf names (and L1, L2 fields) are the fields of the leaf paths, position by position. |
| Lookups.LeafPathsMembers | src/taxonomy_navigator_engine.py:945-947 | The leaf-path list holds exactly the paths marked leaves. |
| Engine.TaxonomyNavigator.ExtractLeafNodes | src/taxonomy_navigator_engine.py:931-953 | The method returns the leaf paths and leaf names in file order. |
| Lookups.L1ListMembers | src/taxonomy_navigator_engine.py:446-451 | The L1 list holds no duplicates and is exactly the L1s of the leaf paths. |
| Engine.TaxonomyNavigator.ExtractL1Categories | src/taxonomy_navigator_engine.py:446-451 | The loop computes that L1 list. |
| Lookups.LeafMapKeys | src/taxonomy_navigator_engine.py:962-967 | A leaf-keyed dictionary's keys are exactly the leaf names. |
| Lookups.LeafMapLastWins | src/taxonomy_navigator_engine.py:994-998 | For a repeated leaf name, the last leaf path with that name supplies the value. |
| Engine.TaxonomyNavigator.LeafMapping | src/taxonomy_navigator_engine.py:955-999 | The shared loop of the three leaf dictionaries computes that dictionary. |
| Engine.TaxonomyNavigator.CreateLeafToL1Mapping | src/taxonomy_navigator_engine.py:955-968 | Maps leaf names to L1 categories. |
| Engine.TaxonomyNavigator.CreateLeafToL2Mapping | src/taxonomy_navigator_engine.py:970-985 | Maps leaf names to the second segment, or to the L1 for a one-segment path. |
| Engine.TaxonomyNavigator.CreateLeafToPathMapping | src/taxonomy_navigator_engine.py:987-999 | Maps leaf names to full paths. |
| Lookups.ConvertLeavesMembers | src/taxonomy_navigator_engine.py:1012-1023 | Unknown leaves are skipped. Every converted path is the split path of a selected leaf, and every selected leaf the dictionary knows contributes its split path. There are at most as many paths as leaves. |
| Lookups.ConvertLeavesConcat | src/taxonomy_navigator_engine.py:1012-1023 | Converting a concatenation converts each part in turn, so the paths follow the order of the selected leaves. |
| Lookups.ConvertLeavesAllKnown | src/taxonomy_navigator_engine.py:1012-1023 | When every selected leaf is known, the k-th path is the split path of the k-th selected leaf. |
| Engine.TaxonomyNavigator.ConvertLeavesToPaths | src/taxonomy_navigator_engine.py:1001-1023 | The loop computes that conversion. |
| Lists.DedupShape | src/taxonomy_navigator_engine.py:714-719 | De-duplication keeps exactly the input's elements, each once. |
| Lists.DedupFirstSeenOrder | src/taxonomy_navigator_engine.py:714-719 | Kept elements are in the order of their first occurrence. |
| Lists.DedupOfDistinct | src/taxonomy_navigator_engine.py:714-719 | A list without duplicates is unchanged. |
| Lists.RemoveDuplicates | src/taxonomy_navigator_engine.py:714-719 | The `seen`-set loop computes that de-duplication. |
| L1Selection.KnownOnlyMembers | src/taxonomy_navigator_engine.py:492-500 | An answer is kept if and only if it is an L1 category, spelt exactly. |
| L1Selection.KnownOnlyConcat | src/taxonomy_navigator_engine.py:492-500 | Filtering a concatenation filters each part in turn, so the kept answers stay in reply order. |
| L1Selection.KnownOnlyNone | src/taxonomy_navigator_engine.py:492-500 | When no answer is an L1 category, nothing is kept. |
| L1Selection.KnownOnlyFirst | src/taxonomy_navigator_engine.py:492-500 | The first kept answer is the first answer line that is an L1 category. |
| L1Selection.CaselessDedupShape | src/taxonomy_navigator_engine.py:506-513 | The case-insensitive de-duplication keeps only input entries, no two equal ignoring case. Every input entry is represented. |
| L1Selection.CaselessDedupOpeners | src/taxonomy_navigator_engine.py:506-513 | The de-duplication keeps an entry exactly when no earlier entry equals it ignoring case, in input order. |
| L1Selection.GroupOpenersHead | src/taxonomy_navigator_engine.py:506-513 | The first entry is always kept, and it comes first. |
| L1Selection.RemoveCaseDuplicates | src/taxonomy_navigator_engine.py:506-513 | The loop computes that de-duplication. |
| L1Selection.FirstMatchFrom | src/taxonomy_navigator_engine.py:1160-1169 | The result is the first matching position at or after the start, or -1 when none matches. |
| L1Selection.FirstMatch | src/taxonomy_navigator_engine.py:1160-1169 | The result is the first matching position, or -1 if and only if none matches. |
| L1Selection.FindMatch | src/taxonomy_navigator_engine.py:1160-1169 | The search loop returns that first match. |
| L1Selection.ExactIsPartial | src/taxonomy_navigator_engine.py:1161-1167 | A case-insensitive exact match is also a substring match. |
| L1Selection.ValidateCategory | src/taxonomy_navigator_engine.py:1147-1174 | The first exact case-insensitive match wins, else the first substring match either way. The result is -1 if and only if nothing matches. |
| L1Selection.Resolve | src/taxonomy_navigator_engine.py:1044-1068 | An answer that matches some category, even partially, becomes an available category. An answer nothing matches is kept as given. |
| L1Selection.ResolveKnown | src/taxonomy_navigator_engine.py:1044-1050 | An available answer resolves to an available category equal to it ignoring case, and to itself when categories are case-distinct. |
| L1Selection.ValidatedShape | src/taxonomy_navigator_engine.py:1039-1070 | Validation returns no more than it was given, never two equal ignoring case. Each result is available or was answered. |
| L1Selection.ValidatedKnown | src/taxonomy_navigator_engine.py:1039-1070 | Distinct, available answers are all kept, position by position, ignoring case. |
| L1Selection.ValidateCategories | src/taxonomy_navigator_engine.py:1025-1070 | The loop computes that validation. |
| L1Selection.Stage1PicksShape | src/taxonomy_navigator_engine.py:484-516 | The kept answers are the first two answer lines that are L1 categories and open their case group, in reply order. So they are case-distinct, each an answered line and an L1 category. When some answer line is an L1 category, the first such line is the first pick. |
| L1Selection.Stage1ResultShape | src/taxonomy_navigator_engine.py:484-539 | Stage 1 returns at most two distinct L1 categories. With content, they are the kept answers up to case. Without content, they are the first two categories. |
| L1Selection.Stage1FallbackNonEmpty | src/taxonomy_navigator_engine.py:532-539 | A failed Stage 1 call still selects the first L1 category when there is one. |
| Engine.TaxonomyNavigator.Stage1L1Selection | src/taxonomy_navigator_engine.py:419-539 | Returns the Stage 1 result and uses one call, or none when there are no L1 categories. |
| Lookups.FilteredMembers | src/taxonomy_navigator_engine.py:612-622 | Candidates are exactly the leaf names under a selected L1 that are not excluded. |
| Lookups.FilteredBound | src/taxonomy_navigator_engine.py:612-622 | There are never more candidates than leaf paths. |
| Lookups.FilteredAvoidsExcluded | src/taxonomy_navigator_engine.py:621 | No excluded leaf is a candidate. |
| Engine.TaxonomyNavigator.CandidateLeaves | src/taxonomy_navigator_engine.py:612-622 | The filter loop computes those candidates. |
| LeafSelection.BatchCount | src/taxonomy_navigator_engine.py:631-634 | `range(0, n, 100)` has just enough steps to cover `n` candidates, and none for zero. |
| LeafSelection.Batch | src/taxonomy_navigator_engine.py:634-636 | A batch holds 1 to 100 consecutive candidates. |
| LeafSelection.BatchesCover | src/taxonomy_navigator_engine.py:634-636 | Every candidate is in batch `i / 100`, at position `i % 100`. |
| LeafSelection.NumberPicksMembers | src/taxonomy_navigator_engine.py:698-704 | A leaf is picked if and only if one of the numbers, between 1 and the batch size, is its position. Nothing outside the batch is picked. |
| LeafSelection.LinesPicksMembers | src/taxonomy_navigator_engine.py:694-704 | A leaf is picked by the lines if and only if the numbers of one line name it. Nothing outside the batch is picked. |
| LeafSelection.BatchPicksMembers | src/taxonomy_navigator_engine.py:688-711 | A batch picks a leaf if and only if its reply has content that is not `NONE` and a number on one of its lines names the leaf. |
| LeafSelection.BatchPicksInBatch | src/taxonomy_navigator_engine.py:689-711 | A reply, a missing content or a failed call picks only leaves of its batch. |
| LeafSelection.PicksOfLine | src/taxonomy_navigator_engine.py:698-704 | The loop over a line's numbers computes its picks. |
| LeafSelection.PicksOfReply | src/taxonomy_navigator_engine.py:689-704 | The loop over a reply's lines computes its picks. A `NONE` reply picks nothing. |
| LeafSelection.CollectedPicksAreCandidates | src/taxonomy_navigator_engine.py:634-711 | All batches together pick only candidates. |
| LeafSelection.CollectedPicksMembers | src/taxonomy_navigator_engine.py:634-711 | The batches together pick a leaf if and only if the reply to one batch picks it. A failed batch adds nothing and the other batches still count. |
| LeafSelection.SelectedLeavesShape | src/taxonomy_navigator_engine.py:714-724 | Stage 2 returns distinct candidates only, and nothing without candidates. |
| LeafSelection.SelectedLeavesMembers | src/taxonomy_navigator_engine.py:634-724 | Stage 2 returns a leaf if and only if the reply to some batch picks it, whatever the other replies were. |
| LeafSelection.NumberOnReplySelects | src/taxonomy_navigator_engine.py:691-711 | A number `d` on a line of batch `b`'s reply that is not `NONE` selects the `d`-th leaf of that batch. |
| LeafSelection.NoneReplyPicksNothing | src/taxonomy_navigator_engine.py:688-691 | A reply whose stripped content is `NONE` in any case picks nothing. |
| LeafSelection.NoneSpelledAnyCase | src/taxonomy_navigator_engine.py:688-691 | The reply `None` picks nothing. |
| LeafSelection.AllNoneSelectsNothing | src/taxonomy_navigator_engine.py:688-711 | Replies that each fail, have no content or say `NONE` pick nothing across all batches. |
| Engine.TaxonomyNavigator.CollectBatchPicks | src/taxonomy_navigator_engine.py:634-711 | The batch loop collects every batch's picks, one call per batch. |
| Engine.TaxonomyNavigator.LeafSelectionHelper | src/taxonomy_navigator_engine.py:590-728 | `_leaf_selection_helper` returns the de-duplicated picks of the candidates' batches, using one call per batch. |
| Engine.TaxonomyNavigator.Stage2AFirstLeafSelection | src/taxonomy_navigator_engine.py:541-558 | Returns Stage 2A's leaves for the first selected L1. |
| Engine.TaxonomyNavigator.Stage2BSecondLeafSelection | src/taxonomy_navigator_engine.py:560-579 | Returns Stage 2B's leaves for the second selected L1, excluding 2A's, or nothing with fewer than two L1s. |
| Navigator.LeafStageShape | src/taxonomy_navigator_engine.py:590-728 | One leaf stage returns distinct leaves that lie under a selected L1 and are not excluded. |
| Navigator.Stage2Shape | src/taxonomy_navigator_engine.py:856-879 | The combined 2A and 2B leaves are distinct, 2B adds only leaves 2A lacked, and all lie under a selected L1. 2B is empty with fewer than two L1s. |
| Engine.TaxonomyNavigator.SelectLeaves | src/taxonomy_navigator_engine.py:856-879 | Returns the combined Stage 2 leaves and their calls. |
| FinalSelection.ParseAndValidateNumber | src/taxonomy_navigator_engine.py:1072-1145 | The index is never below -1 and always names an option (`< max`). |
| FinalSelection.ParseFailsExactly | src/taxonomy_navigator_engine.py:1098-1136 | -1 if and only if the cleaned reply is empty or a meaningless word. A `None` reply gives 0 through the exception handler. |
| FinalSelection.ParseTakesFirstNumber | src/taxonomy_navigator_engine.py:1103-1116 | When the first number in the reply names an option, that option is chosen. |
| FinalSelection.CleanedDigitRuns | src/taxonomy_navigator_engine.py:1094-1105 | Stripping and lower-casing do not change the numbers found. |
| FinalSelection.DirectParseRedundant | src/taxonomy_navigator_engine.py:1121-1129 | Without `_`, the direct `int()` branch never changes the answer. |
| FinalSelection.UnderscoreReachesDirectParse | src/taxonomy_navigator_engine.py:1121-1127 | `0_5` is rejected by the first-number rule but read as 5 by `int()`. |
| FinalSelection.ParseExamples | src/taxonomy_navigator_engine.py:1103-1145 | `2` gives index 1. A `None` content gives 0 through the exception handler. |
| FinalSelection.ParseFailureExamples | src/taxonomy_navigator_engine.py:1098-1136 | An empty reply and the reply `none` give -1. |
| FinalSelection.ParseNumberWithDot | src/taxonomy_navigator_engine.py:1076 | `1.` gives index 0. |
| FinalSelection.ParseOptionNumber | src/taxonomy_navigator_engine.py:1076 | `Option 1` gives index 0. |
| FinalSelection.FinalIndex | src/taxonomy_navigator_engine.py:749-794 | Stage 3's index is -1 or a position of the candidates. |
| FinalSelection.FinalIndexFails | src/taxonomy_navigator_engine.py:749-794 | Stage 3 fails exactly without candidates, or when it asks and the call raises or the reply is empty or meaningless. |
| Engine.TaxonomyNavigator.Stage3FinalSelection | src/taxonomy_navigator_engine.py:730-794 | Returns that index, calling only with two or more candidates. |
| FinalSelection.FallbackSummary | src/taxonomy_navigator_engine.py:284-286 | The fallback is the description when it has at most 400 characters. Otherwise it is its first 400 characters and `...`. |
| FinalSelection.ProductSummary | src/taxonomy_navigator_engine.py:276-286 | A reply with content gives its text stripped. A failed call or a missing content gives the fallback, the description cut to 400 characters plus `...`, so at most 403 characters. |
| Engine.TaxonomyNavigator.GenerateProductSummary | src/taxonomy_navigator_engine.py:232-286 | Returns that summary after one call. |
| Lookups.EndsInLeafIsLeafName | src/taxonomy_navigator_engine.py:910-913 | The `endswith` test followed by the last-segment test is the same as "marked a leaf with that leaf name". |
| Lookups.PathsForFirst | src/taxonomy_navigator_engine.py:908-914 | The lookup finds something exactly when some leaf has that name, and its first entry is the first such path in file order. |
| Engine.TaxonomyNavigator.FullPathsFor | src/taxonomy_navigator_engine.py:908-914 | The lookup loop computes those paths. |
| Navigator.OutcomeOf | src/taxonomy_navigator_engine.py:916-929 | Every result is a one-path list with index 0: the found path, or `["False"]`. |
| Navigator.ChosenIndex | src/taxonomy_navigator_engine.py:886-899 | The chosen position is 0 for a single leaf, else Stage 3's answer. It is -1 or a position of the leaves. |
| Navigator.ConcludeFindsPath | src/taxonomy_navigator_engine.py:886-925 | Stage 3 is called only with two or more leaves. The run fails exactly when Stage 3 fails. Otherwise it returns the first path in file order whose leaf name is the leaf at the chosen index. |
| Engine.TaxonomyNavigator.FinishNavigation | src/taxonomy_navigator_engine.py:886-925 | Stage 3 and the lookup give that outcome. |
| Navigator.FromStage2Shape | src/taxonomy_navigator_engine.py:856-925 | From Stage 2 on, the run fails exactly when no leaf is selected or Stage 3 fails. Otherwise it returns the first path in file order whose leaf name is the Stage 2 leaf at the chosen index, a leaf under a chosen L1. |
| Engine.TaxonomyNavigator.NavigateFromStage2 | src/taxonomy_navigator_engine.py:856-925 | The method returns that outcome and uses that many calls. |
| Navigator.NavigateShape | src/taxonomy_navigator_engine.py:796-929 | `navigate_taxonomy` fails exactly when Stage 1 selects nothing, Stage 2 selects no leaf, or Stage 3 fails. Otherwise it returns the first leaf path, in file order, whose leaf name is the Stage 2 leaf at the chosen index, a leaf under a Stage 1 category. |
| Navigator.NavigateCalls | src/taxonomy_navigator_engine.py:835-899 | A taxonomy without leaves costs one call. No run costs more than 3 calls plus two per batch of leaf paths. |
| Navigator.LookupByNameOnly | src/taxonomy_navigator_engine.py:908-925 | For any taxonomy `a > x` then `b > x` with distinct separator-free L1 names, `x` is a leaf of `b`, yet the lookup finds `[a, x]`, under the other L1. |
| Navigator.LookupIgnoresL1 | src/taxonomy_navigator_engine.py:908-925 | With `A > X` and `B > X` and `X` chosen under `B`, the answer is `A > X`. |
| Engine.TaxonomyNavigator.NavigateTaxonomy | src/taxonomy_navigator_engine.py:796-929 | `navigate_taxonomy` returns the outcome of the whole run, using exactly the run's calls. |
| Oracle.Client.Complete | src/taxonomy_navigator_engine.py:264-276 | Each call answers with the next scripted reply and counts one call. |
| Oracle.Client.constructor | src/taxonomy_navigator_engine.py:223-228 | A new client has made no call. |
| BatchTester.ExtractProductTitle | simple_batch_tester.py:141-146 | A line without `:` gives the line stripped. |
| BatchTester.TitleBeforeFirstColon | simple_batch_tester.py:141-143 | With a colon, the title is the text before the first one, stripped. |
| BatchTester.TitleShape | simple_batch_tester.py:120-146 | A title holds no colon and no surrounding whitespace, so taking the title again changes nothing. |
| BatchTester.TitleOfLine | tests/simple_batch_tester.py:141-143 | A clean title followed by `:` and anything is read back as that title. |
| BatchTester.TitleExample | simple_batch_tester.py:128-135 | `iPhone 14 Pro: Smartphone with camera` gives `iPhone 14 Pro`. |
| BatchTester.ErrorAnswer | simple_batch_tester.py:279-281 | The error answer starts with `Error: `, ends with `...`, and has at most 40 characters. |
| BatchTester.QuietAnswer | simple_batch_tester.py:270-277 | Quiet mode answers `False` when the run fails. Otherwise it answers the Stage 2 leaf at the chosen index, which names a leaf path under a Stage 1 category. It never answers an error. |
| BatchTester.VerboseAnswer | tests/simple_batch_tester.py:221-268 | Verbose mode answers `False` without leaves or when Stage 3 fails. It answers the only leaf without calling Stage 3, and otherwise always one of the leaves. |
| BatchTester.VerboseAsWrittenFailsOnEmptyStage1 | simple_batch_tester.py:179-198 | As written, verbose mode answers the error text exactly when Stage 1 selects nothing, and otherwise as the corrected version does. |
| BatchTester.VerboseAsWrittenCounterexample | simple_batch_tester.py:196-198 | With an empty taxonomy, verbose mode as written answers `Error: list index out of range...` while quiet mode answers `False`. |
| BatchTester.LookupEndsInLeaf | simple_batch_tester.py:233-240 | The lookup of a leaf selected under a chosen L1 finds a path, and it ends in that leaf. |
| BatchTester.FromStage2Agrees | simple_batch_tester.py:221-277 | From Stage 2 on, quiet mode's lookup answers the same leaf verbose mode returns. |
| BatchTester.VerboseAgreesWithQuiet | simple_batch_tester.py:160-277 | The corrected verbose mode and quiet mode give the same answer for every taxonomy and every sequence of replies. |
| Config.ValidateApiKeyFormat | src/config.py:106-134 | A key is valid if and only if it is a string of at least 20 characters starting with `sk-`. |
| Config.RejectsFalsyAndNonStrings | src/config.py:124-125 | `None`, the empty string and non-strings are rejected. |
| Config.AcceptsPrefixedKeys | src/config.py:128-134 | `sk-` followed by 17 or more characters of any kind is accepted. |
| Config.ValidationBoundaries | src/config.py:128-132 | A wrong prefix or 19 characters is rejected. 20 characters is accepted. |
| Config.FileKey | src/config.py:74-95 | The file supplies its stripped content when that is non-empty, else nothing. A missing or unreadable file supplies nothing. |
| Config.GetApiKey | src/config.py:19-104 | The answer is `None` or a truthy value. |
| Config.GetApiKeyFirstSource | src/config.py:57-104 | The answer is the first source, in the order argument, environment, file, that supplies a key. |
| Config.GetApiKeyPrecedence | src/config.py:59-104 | `None` if and only if no source supplies a key. A truthy argument wins, then a non-empty environment value. |
| Config.SetupApiKeyFile | src/config.py:136-183 | An invalid key raises `ValueError`, and an existing file without `overwrite` raises `FileExistsError`, both leaving the file as it was. `True` is returned exactly when the key is valid, writing is allowed and the write succeeds, and then the file holds the key. The file changes only then. |
| Config.SetupThenGet | src/config.py:170-183 | A key written by setup is what `get_api_key` then reads from the file, stripped. A key without trailing whitespace is read back unchanged and valid. |
| Config.PaddedKeyReadsBackInvalid | src/config.py:84-88 | `sk-` followed by 17 spaces is accepted when stored but read back as `sk-`, which is rejected. |

## Left out

- The AI client's transport, prompts, model names, token limits and sampling settings. The model keeps only each call's reply, in order, as `Oracle.Client`'s script.
- Logging, timing and the console output of both the navigator and the tester.
- Reading the taxonomy file. The constructor takes its lines. A missing or unreadable file raises in the source, and that case is not modelled.
- The API key lookup and the creation of the AI client in `__init__`.
- `stage2c_third_leaf_selection` is deprecated and always returns an empty list. It is not called by `navigate_taxonomy` and is not modelled.
- `leaf_to_l1` in `_leaf_selection_helper` is used only for prompt text and is not modelled.
- `interactive_interface.py`, the tester's `read_products_file` and `main`, and the `textwrap` display are not part of this model.
- Text.DigitRuns: finds runs of ASCII digits only. Python's `\d` also matches other Unicode decimal digits, so a reply numbering leaves in such digits picks nothing in the model.
- `Text.Lower` and `Text.Upper` fold ASCII letters only. Python's full Unicode case mapping is not modelled.
- `int()` is modelled for ASCII digits, an optional sign and single underscores between digits. Unicode digits and surrounding whitespace inside the cleaned text are not modelled.
- Exceptions other than the modelled ones are not modelled. The modelled ones are a failed call, a `None` message content, and the verbose tester's `IndexError`. An exception anywhere else in `navigate_taxonomy` would give `[["False"]], 0`.
- Config.SetupApiKeyFile: the directory creation and the file write are one success flag. A write that fails after truncating the file is modelled as leaving the file unchanged.
- Config.GetApiKey: the environment and the file are passed in as values, and their reading is not modelled.
- `tests/unit_tests.py` calls methods the engine no longer has (`stage1_leaf_matching`, `_parse_selection_number` and others), so its expectations are not modelled. Its fixture taxonomy is covered by the general scan lemmas instead.
- Navigator.NavigateCalls: states an upper bound on calls. The exact count for each run is what `Navigate` computes and `Engine.TaxonomyNavigator.NavigateTaxonomy` ensures.

## Findings

| source | as written | input that shows it | evidently intended | confidence | as-written member | corrected member |
|---|---|---|---|---|---|---|
| simple_batch_tester.py:198 (also tests/simple_batch_tester.py:198) | When Stage 2A finds nothing, the verbose message indexes `selected_l1s[0]`. That raises `IndexError` when Stage 1 selected nothing, and the product is answered `Error: list index out of range...`. | A taxonomy with no leaves (or a Stage 1 reply naming no L1 category) in verbose mode | Guard the message as the Stage 2A heading at line 185 already does, and answer `False` as quiet mode does | not executed | BatchTester.ClassifyVerboseAsWritten (shown by BatchTester.VerboseAsWrittenCounterexample and BatchTester.VerboseAsWrittenFailsOnEmptyStage1) | BatchTester.ClassifyVerbose (proved by BatchTester.VerboseAgreesWithQuiet) |
