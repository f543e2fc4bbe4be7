# YandexCupBackend 2021 solutions — a Dafny model

This project models the logic of five contest solutions from the YandexCupBackend repository
and proves properties of that logic. The network, console and file code around them is not modelled.

- **Warehouse interval consolidation** (`Tasks/E/TaskE.cs`, modules `Products`, `Text`, `Sorting`).
  - A product record holds a warehouse, a product type (KGT, COLD, OTHER or NULL) and a closed interval of dates.
  - The line parser and the renderer are modelled.
  - A record of unknown (NULL) type is expanded into one record per concrete type.
  - Each record is then folded, left to right, over the records of its (warehouse, type) group. The fold glues together intervals that intersect.
  - Exact duplicates are removed, keeping the first of each.
  - The records are sorted by warehouse, type and start date, then rendered one per line.
- **Pallet deliverability** (`Tasks/B/TaskB.cs`, module `Pallets`).
  - Boxes form a forest through parent links.
  - A flag array starts as "the box's delivery id is not missing".
  - The flags are cleared in place by walking up from every undeliverable box.
  - The result is the 1-based numbers of the pallets still flagged.
  - `Boxes` is a class whose flags are an `array<bool>`.
- **Checkers capture** (`Tasks/C/TaskC.cs`, module `Checkers`). The side to move can capture when one of its checkers has a diagonally adjacent enemy and the square beyond is on the board and empty.
- **Contest standings** (`Tasks/D/TaskD.cs`, module `Standings`).
  - The field rules of a submission are modelled.
  - A solved problem's fine is its first accepted timestamp plus 20 per WA, TL or RE submission no later than it; compile errors (CE) never count. The participant's total fine is the sum over solved problems.
  - The completed count counts accepted submissions.
  - The winners have the largest completed count and, among those, the smallest fine. They are printed in ordinal order.
- **Value deduction** (`Tasks/A/TaskA.cs`, module `Deduction`). Four hidden values are recovered from three unordered answers: about the second and third variables, the second and fourth, and the first, third and fourth.

Shared modules:
- `Wrappers` holds `Option` and `Result`.
- `Seqs` covers duplicate removal in first-occurrence order, counting and first index.
- `Text` covers 32-bit integer text, zero-padded digits, splitting on separators, joining, and ASCII case folding.
- `Sorting` holds an insertion sort proved sorted and a permutation for any total preorder.

Dates are `(year, month, day)` triples. They are compared through a day number, the days elapsed since 0001-01-01 in the proleptic Gregorian calendar. A date's tick count is this number times 864 000 000 000.

Three behaviours of the consolidation code are worth knowing:
- **Unknown type token.** An unknown type token does not fail. The result of the case-insensitive enum parse is ignored, so the type stays at its default, KGT (`Products.ParseType`, `Products.ParseLine`).
- **Merging.** Merging is one fold per record, so overlapping records can remain (`Products.OnePassMergeExample`). The model proves that the covered days of every group are preserved (`Products.UniteIntersectsCoverage`), not that the output is disjoint.
- **Sort order.** The comparison is not a total order; see Findings.

## Model

| member | source | states |
|---|---|---|
| Products.ParseType | YandexCupBackend/Tasks/E/TaskE.cs:35 | a token equal to a type name, ignoring case and the white space around it, gives that type; any other token gives KGT, because the parse result is ignored |
| Products.ParseTypePadded | YandexCupBackend/Tasks/E/TaskE.cs:35 | a type name surrounded by any white space still parses to its type |
| Products.ParseTypeName | YandexCupBackend/Tasks/E/TaskE.cs:35 | every type name parses back to its type |
| Products.DateTextRoundTrip | YandexCupBackend/Tasks/E/TaskE.cs:36-37 | exact "yyyy-MM-dd" parsing gives back every rendered calendar date |
| Text.ParseInt32 | YandexCupBackend/Tasks/E/TaskE.cs:34 | an integer parse fails on empty text, on a bare sign, and on any non-digit other than a leading sign; a digit string, bare or after '+', parses to its value when that is at most 2^31−1 and fails otherwise; a digit string after '-' parses to its negation when that is at least −2^31 and fails otherwise |
| Text.IntTextRoundTrip | YandexCupBackend/Tasks/E/TaskE.cs:105 | the decimal text of any 32-bit integer parses back to it |
| Products.FromString | YandexCupBackend/Tasks/E/TaskE.cs:30-39 | a bad warehouse field is an error; on success the record is representable and its type is parsed from the LAST comma/space-separated field |
| Products.ParseLine | YandexCupBackend/Tasks/E/TaskE.cs:30-39 | a well-formed line with any last token parses to the record whose type is what that token names, KGT when it names no type |
| Products.RenderRoundTrip | YandexCupBackend/Tasks/E/TaskE.cs:103-106 | parsing the rendered "warehouse,start end,TYPE" line gives back the record |
| Products.ExpandNull | YandexCupBackend/Tasks/E/TaskE.cs:41-56 | a NULL record becomes COLD, KGT, OTHER in that order with the same warehouse and dates; any other record becomes [itself] |
| Products.ExpandedAll | YandexCupBackend/Tasks/E/TaskE.cs:58-74 | the expansion holds no NULL record and has (non-NULL count) + 3 × (NULL count) records |
| Products.ExpandedAllAppend | YandexCupBackend/Tasks/E/TaskE.cs:58-74 | expansion distributes over concatenation, so input order is kept |
| Products.ExpandedAllIdempotent | YandexCupBackend/Tasks/E/TaskE.cs:58-74 | expanding twice equals expanding once |
| Products.ExpandAll | YandexCupBackend/Tasks/E/TaskE.cs:152-167 | the append loop over the input builds exactly the expansion |
| Products.IsInInterval | YandexCupBackend/Tasks/E/TaskE.cs:76 | only a non-reversed interval holds a date, and a non-reversed interval holds both its end points |
| Products.IsIntervalIntersect | YandexCupBackend/Tasks/E/TaskE.cs:76-82 | for non-reversed intervals the end-point test equals "neither ends before the other starts", so touching intervals intersect |
| Products.IntersectSymmetric | YandexCupBackend/Tasks/E/TaskE.cs:77-82 | the intersection test is symmetric |
| Products.TryUnite | YandexCupBackend/Tasks/E/TaskE.cs:84-98 | it fails exactly when warehouse or type differ or the intervals do not intersect; a glued record keeps warehouse and type, has the earlier start and later end, and covers both records |
| Products.GlueStepSelf | YandexCupBackend/Tasks/E/TaskE.cs:87 | gluing a record onto itself returns it, so skipping the same object changes no value |
| Products.TryUniteWithinUnion | YandexCupBackend/Tasks/E/TaskE.cs:84-98 | every day of a glued record lies in one of the two records, reversed records included |
| Products.GlueAll | YandexCupBackend/Tasks/E/TaskE.cs:116-129 | the fold keeps the record's warehouse and type, its interval contains the record's, and it stays representable |
| Products.GlueAllWithinUnion | YandexCupBackend/Tasks/E/TaskE.cs:116-129 | every day of the folded record is covered by the record or by a member of the group, reversed records included |
| Products.TryUniteWithGroup | YandexCupBackend/Tasks/E/TaskE.cs:116-129 | the loop always reports success and returns the left-to-right fold over the group |
| Products.GroupKeyInjective | YandexCupBackend/Tasks/E/TaskE.cs:132-133 | warehouse*10 + type index is equal for two records exactly when their warehouse and type are equal |
| Products.GroupOf | YandexCupBackend/Tasks/E/TaskE.cs:132 | a group holds exactly the input records of that warehouse and type |
| Products.GroupOfAppend | YandexCupBackend/Tasks/E/TaskE.cs:132-133 | the group of a concatenation is the concatenation of the groups, so grouping keeps input order and repeats |
| Products.GroupOfOne | YandexCupBackend/Tasks/E/TaskE.cs:132-133 | a single record forms its own group when warehouse and type match, and an empty one otherwise |
| Products.GroupTable | YandexCupBackend/Tasks/E/TaskE.cs:132-133 | every record's key maps to its group |
| Products.GluedAll | YandexCupBackend/Tasks/E/TaskE.cs:135-138 | record i becomes its fold over the group its key selects; the length is unchanged |
| Products.UniteIntersects | YandexCupBackend/Tasks/E/TaskE.cs:130-151 | no two output records are equal; the output is no longer than the input, holds exactly the folded records, and lists them in first-occurrence order |
| Products.UniteIntersectsCoverage | YandexCupBackend/Tasks/E/TaskE.cs:130-151 | for every input, reversed records included, and every (warehouse, type) group, a day is covered by some merged record exactly when it is covered by some input record |
| Products.UniteIntersectsRepresentable | YandexCupBackend/Tasks/E/TaskE.cs:130-151 | merged records stay representable when the input records are |
| Products.GlueAllFromGroup | YandexCupBackend/Tasks/E/TaskE.cs:94-96 | the folded record's start and end are each taken from the record or from a member of its group |
| Products.UniteIntersectsFromInputs | YandexCupBackend/Tasks/E/TaskE.cs:130-151 | merging creates no new value: each merged record's warehouse and type, start, and end occur in input records |
| Products.OnePassMergeExample | YandexCupBackend/Tasks/E/TaskE.cs:116-142 | for a group with days 0..2, 4..6 and 1..5 the merge yields 0..5, 1..6 and 0..6, and the first two still intersect |
| Products.TruncateToInt32 | YandexCupBackend/Tasks/E/TaskE.cs:178 | the 32-bit conversion lands in the 32-bit range and agrees with its argument modulo 2^32 |
| Products.CompareAsWritten | YandexCupBackend/Tasks/E/TaskE.cs:171-179 | across groups, the comparison as written is negative exactly when the first record's key is smaller, and is never zero |
| Products.CompareAsWrittenMisorders | YandexCupBackend/Tasks/E/TaskE.cs:177-178 | in one group, a record starting 4 days later compares as smaller |
| Products.CompareAsWrittenCycle | YandexCupBackend/Tasks/E/TaskE.cs:171-179 | starts at days 0, 4 and 8 of one group form a cycle under the comparison as written |
| Products.CompareAsWrittenCycleExample | YandexCupBackend/Tasks/E/TaskE.cs:171-179 | the cycle for starts 2020-01-01, 2020-01-05 and 2020-01-09 |
| Products.Compare | YandexCupBackend/Tasks/E/TaskE.cs:171-179 | the corrected comparison is negative, zero or positive exactly when the (warehouse, type, start) key is smaller, equal or larger |
| Products.KeyLeIsTotalPreorder | YandexCupBackend/Tasks/E/TaskE.cs:169-180 | the corrected order is total and transitive |
| Products.ProductInfos.constructor | YandexCupBackend/Tasks/E/TaskE.cs:112-115 | the values are the merge of the expanded input, all representable |
| Products.ProductInfos.Sort | YandexCupBackend/Tasks/E/TaskE.cs:169-180 | the values become sorted by (warehouse, type, start) and are a permutation of the old values |
| Products.RenderAllRoundTrip | YandexCupBackend/Tasks/E/TaskE.cs:182-185 | the newline-joined output splits into one line per record, and each line parses back to its record |
| Products.ProductInfos.ToString | YandexCupBackend/Tasks/E/TaskE.cs:182-185 | the output text has one line per value, each parsing back to that value |
| Sorting.InsertionSort | YandexCupBackend/Tasks/D/TaskD.cs:187 | for any total preorder, the result is sorted and a permutation of the input |
| Pallets.InitialFlags | YandexCupBackend/Tasks/B/TaskB.cs:14 | flag i is set exactly when delivery id i is not missing |
| Pallets.Boxes.constructor | YandexCupBackend/Tasks/B/TaskB.cs:9-15 | the lists are stored, the missing ids become a set, and a fresh flag array holds the initial flags |
| Pallets.Boxes.IsPallet | YandexCupBackend/Tasks/B/TaskB.cs:47 | a box with parent -1 has no ancestor, and the parent of any other box is its ancestor, so pallets are exactly the boxes no box contains |
| Pallets.ClearUp | YandexCupBackend/Tasks/B/TaskB.cs:49-59 | the walk only clears flags, only on the box and its ancestors; it clears the parent, or the box when it is a pallet; every flag it clears has a cleared parent |
| Pallets.ClearUpStops | YandexCupBackend/Tasks/B/TaskB.cs:54-55 | the walk stops at the first ancestor already cleared: that ancestor and every box above it keep their flags |
| Pallets.AncestorRank | YandexCupBackend/Tasks/B/TaskB.cs:51-53 | an ancestor has a smaller rank, so the walk up the parent links ends |
| Pallets.Boxes.SetParentsFalse | YandexCupBackend/Tasks/B/TaskB.cs:49-59 | the while loop leaves exactly the flags of the walk up from the box |
| Pallets.NotDeliverableUpwards | YandexCupBackend/Tasks/B/TaskB.cs:32-41 | every ancestor of an undeliverable box is undeliverable |
| Pallets.LoopResult | YandexCupBackend/Tasks/B/TaskB.cs:32-41 | flags that were only cleared, are closed upwards and sound are exactly the deliverable boxes |
| Pallets.Boxes.CalculatePossibleToDeliverBoxIds | YandexCupBackend/Tasks/B/TaskB.cs:32-41 | afterwards a box is flagged exactly when it was flagged and so was every box inside it |
| Pallets.Boxes.GetPossibleToDeliverPalletIds | YandexCupBackend/Tasks/B/TaskB.cs:20-31 | the result is exactly the 1-based numbers of flagged pallets, strictly increasing |
| Pallets.Boxes.CalculatePossibleToDeliverPalletIds | YandexCupBackend/Tasks/B/TaskB.cs:42-46 | the reported pallets are exactly those whose own delivery id and the ids of every box inside them are present, in increasing order |
| Checkers.IsNeighboringChecker | YandexCupBackend/Tasks/C/TaskC.cs:26-33 | two squares are neighbours exactly when they differ by 1 in both coordinates |
| Checkers.IsEmpty | YandexCupBackend/Tasks/C/TaskC.cs:34-37 | a square is empty exactly when no white and no black checker stands on it |
| Checkers.IsInDesk | YandexCupBackend/Tasks/C/TaskC.cs:38-42 | a square is on the board exactly when 1 ≤ x ≤ width and 1 ≤ y ≤ height |
| Checkers.Landing | YandexCupBackend/Tasks/C/TaskC.cs:45-46 | the landing square beyond a neighbour touches the neighbour diagonally and is 2 away from the jumper on both axes |
| Checkers.CanBeatTarget | YandexCupBackend/Tasks/C/TaskC.cs:43-48 | a jump is possible exactly when (2t.x−c.x, 2t.y−c.y) is on the board and empty |
| Checkers.HasCheckerTarget | YandexCupBackend/Tasks/C/TaskC.cs:73-80 | a checker has a target exactly when some enemy is its neighbour and can be jumped |
| Checkers.AnyHasTarget | YandexCupBackend/Tasks/C/TaskC.cs:87 | some checker of the list has a target exactly when one of them does |
| Checkers.HasTarget | YandexCupBackend/Tasks/C/TaskC.cs:81-89 | the side to move can capture exactly when one of its checkers has a neighbouring enemy with a free landing square on the board |
| Checkers.MirrorCanBeat | YandexCupBackend/Tasks/C/TaskC.cs:83-86 | swapping the colours together with the side to move does not change the answer |
| Checkers.NoCheckersNoCapture | YandexCupBackend/Tasks/C/TaskC.cs:90-93 | a side with no checkers cannot capture |
| Checkers.SampleBoard | YandexCupBackend/Tasks/C/TaskC.cs:145-154 | on the sample 8×8 board, white to move, no capture is possible |
| Standings.ParseVerdict | YandexCupBackend/Tasks/D/TaskD.cs:28 | a verdict parses exactly when it equals a verdict name, ignoring case and the white space around it |
| Standings.ParseVerdictPadded | YandexCupBackend/Tasks/D/TaskD.cs:28 | a verdict name surrounded by any white space still parses to its verdict |
| Standings.FirstLetterIndex | YandexCupBackend/Tasks/D/TaskD.cs:27 | the index found is that of the first character in 'A'..'Z' |
| Standings.FromFields | YandexCupBackend/Tasks/D/TaskD.cs:24-33 | a bad timestamp and a missing letter are errors in that order; success exactly when all three fields parse; the problem is the first capital letter and the verdict matches ignoring case and surrounding white space |
| Standings.FirstOk | YandexCupBackend/Tasks/D/TaskD.cs:66 | present exactly when the problem was accepted, and then the earliest accepted timestamp |
| Standings.ProblemFine | YandexCupBackend/Tasks/D/TaskD.cs:64-69 | the fine is the first OK timestamp plus 20 × the WA/TL/RE submissions for the problem no later than it; CE never counts |
| Standings.SolvedProblems | YandexCupBackend/Tasks/D/TaskD.cs:73-77 | the groups summed are the solved problems, each once |
| Standings.ComputeFine | YandexCupBackend/Tasks/D/TaskD.cs:71-81 | a participant with no accepted submission has fine 0 |
| Standings.ComputeFineAnyOrder | YandexCupBackend/Tasks/D/TaskD.cs:71-81 | the total fine is the sum of the problem fines over any repeat-free listing of the solved problems |
| Standings.SumFinesPermutation | YandexCupBackend/Tasks/D/TaskD.cs:76-79 | the sum of fines does not depend on the order of the problems |
| Standings.ComputeResult | YandexCupBackend/Tasks/D/TaskD.cs:83-88 | the completed count is the number of accepted submissions, repeats included; the fine is the total fine; the participant is kept |
| Standings.MaxCompleted | YandexCupBackend/Tasks/D/TaskD.cs:168 | the largest completed count, attained by some standing |
| Standings.MinFine | YandexCupBackend/Tasks/D/TaskD.cs:173 | the smallest fine, attained by some standing |
| Standings.WithCompleted | YandexCupBackend/Tasks/D/TaskD.cs:169-172 | keeps exactly the standings with the given count |
| Standings.WithFineAtMost | YandexCupBackend/Tasks/D/TaskD.cs:174 | keeps exactly the standings with a fine no larger than the bound |
| Standings.WinnerFilters | YandexCupBackend/Tasks/D/TaskD.cs:163-180 | passing both filters is the same as having the most completed submissions and the least fine among those |
| Standings.GetWinners | YandexCupBackend/Tasks/D/TaskD.cs:163-180 | for a non-empty list, the winners are the logins of exactly the best standings in participant order, and there is at least one |
| Standings.OrdinalLeIsTotalPreorder | YandexCupBackend/Tasks/D/TaskD.cs:187 | ordinal text order is total and transitive |
| Standings.SortedWinners | YandexCupBackend/Tasks/D/TaskD.cs:185-187 | the printed winners are the winners, sorted ordinally |
| Deduction.Intersect | YandexCupBackend/Tasks/A/TaskA.cs:37 | the intersection is repeat-free and holds exactly the values in both answers |
| Deduction.FirstOther | YandexCupBackend/Tasks/A/TaskA.cs:45-46 | the first value other than the given one, or the fallback when every value equals it |
| Deduction.FirstRepeated | YandexCupBackend/Tasks/A/TaskA.cs:41-43 | none exactly when no value repeats; otherwise a repeated value, the first in group order |
| Deduction.Counts | YandexCupBackend/Tasks/A/TaskA.cs:53-54 | the keys are exactly the values, each mapped to its number of occurrences |
| Deduction.TakeAwayIsRemaining | YandexCupBackend/Tasks/A/TaskA.cs:55-56 | the two decrements leave each value's count minus its occurrences as third and as fourth |
| Deduction.FirstFromCounts | YandexCupBackend/Tasks/A/TaskA.cs:53-57 | a missing key is a ValueNotCounted error, no positive count left a NoValueLeft error; otherwise the result is the earliest value whose remaining count is positive |
| Deduction.GetVariablesValues | YandexCupBackend/Tasks/A/TaskA.cs:34-60 | four values on success; with a unique common value it is the second, third and fourth are the first others, and the first is the earliest value left, failing with ValueNotCounted for a missing count and NoValueLeft when no count stays positive; otherwise third = fourth is the first repeated value in group order, failing with NoRepeatedValue when none repeats |

## Left out

- Console, file and network input/output are not part of this model. That covers the readers of every task, the HTTP clients, the windows-1251 transcoding and XML parsing. Submissions are built from their three attribute texts.
- List.Sort's introsort is not modelled. Sorting is an insertion sort proved sorted and a permutation. Its result is not claimed to be the same permutation as the library's, and the library is unstable.
- Products.ProductInfos.Sort: sorts by the corrected comparison (`Products.Compare`), not the truncating comparison of the source. With that comparison the source sort has no well-defined result (see Findings).
- Products.FromString: its contract names only the warehouse error. A missing field and a malformed date are errors in its body, with no ensures of their own. Their successful counterpart is stated by `Products.ParseLine`.
- Products.ProductInfos.constructor: requires representable records, which every record `Products.FromString` returns is.
- Pallets.Boxes.constructor: requires equal list lengths, without which the source indexes out of range. It also requires a ghost rank that witnesses that the parent links are acyclic, i.e. that every box nests in a pallet. This is an assumption about the input. On cyclic links the source's walk still ends, because each pass either returns or clears a set flag, but the model does not cover such input.
- Standings.GetWinners: requires a non-empty participant list. The source throws on an empty one.
- Checkers.CanBeat carries no contract of its own; it is `Checkers.HasTarget`.
- Pallets.Boxes.IsPossibleToDeliver carries no contract of its own; it reads one flag of the array, and the methods that use it state the flags outright.
- Deduction.GetVariablesValues: the exceptions of the source are `Result` failures: no repeated value, a value missing from the count table, and no count left.
- The dictionary enumeration order that picks the first value in TaskA is taken to be insertion order, i.e. first occurrence.
- Integer overflow is not modelled:
  - `WarehouseId*10` in the group key;
  - the subtractions of the comparison;
  - the sum of fines;
  - `2t − c` for the landing square.
  Integers are unbounded. The one narrowing that matters, the 32-bit conversion of a tick count, is modelled.
- Text:
  - `int.Parse` accepting surrounding whitespace is not modelled;
  - `Enum.TryParse` numeric and comma-combined tokens are not modelled;
  - `DateTime.ParseExact` leniencies are not modelled;
  - case folding is ASCII only;
  - the line separator is taken to be "\n".
- Dates are rendered in the Gregorian "yyyy-MM-dd" form. The source renders with the current culture and parses with the invariant culture. `Products.RenderRoundTrip` assumes a culture whose calendar is Gregorian.
- Ordinal string order compares Unicode scalar values, not UTF-16 code units. The two differ only for characters outside the Basic Multilingual Plane.
- Object identity (`info == this`) is replaced by value equality, which `Products.GlueStepSelf` justifies.
- Commented-out code is not modelled.

## Findings

| source | as written | input that shows it | evidently intended | confidence | as-written member | corrected member |
|---|---|---|---|---|---|---|
| YandexCupBackend/Tasks/E/TaskE.cs:177-178 | the start-date tiebreak returns the tick difference converted to a 32-bit int, which keeps only the low 32 bits | warehouse 4, COLD, starts 2020-01-01, 2020-01-05 and 2020-01-09: each record compares below the one four days before it, and the first compares below the last, a cycle | order by start date: the sign of the start difference | not executed | Products.CompareAsWrittenCycle | Products.Compare |
