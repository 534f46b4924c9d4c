# Proofs about the decision engines in `scripts/` and `eval/`

The repository's scripts decide things that people then rely on: whether an extraction is right,
whether a backup can be restored, whether a change may be merged without a person looking, whether
every test ran. This project models those engines in Dafny and proves what they promise. Each module
models one program, with its branches, constants and error cases. Code that computes a value is a
function; code that works step by step is a method, proved against a specification that does not
repeat its steps. The lemmas then prove what the specification means.

| module | program | what is proved |
|---|---|---|
| `RowMatching`, `PageMatching`, `ExtractionScore` | `scripts/eval_extraction.py` | the page matching is one-to-one, stable and complete; the scores conserve rows |
| `AnswerScoring` | `scripts/datasheet_bench.py` | greedy scoring is at least half of the best possible, and exactly when it is the best |
| `GoldSheet` | `scripts/gold_score.py` | each list holds the rows of its fate; nothing is lost if and only if the sheet is contained in the store |
| `TypeText`, `ContractTypes` | `scripts/gen_contract_types.py` | which values the generated types admit, exactly; they print unambiguously |
| `DataBackup`, `Retention`, `PruneRuns` | `scripts/backup_data.py` | restore gives back what was backed up; the drill catches every change; pruning is path-independent exactly when no two backups have one stamp |
| `NameReservation` | `scripts/backup_db.py` | concurrent callers get names of their own, in every interleaving |
| `KnownData`, `DiffLines`, `DiffScan` | `scripts/check_client_identifiers.py`, `scripts/build_client_data_list.py` | builder and scanner agree; which diffs read back; hits are reported where they start |
| `AutoLabel`, `LabelRuns` | `scripts/auto_label.py` | what one evaluation decides; in which orders of pushes and evaluations a set label means what it says |
| `ShardProof` | `scripts/ci_test_ids.py` | the verdict is good exactly when the shards partition the collected tests |
| `ImportGraph` | `scripts/check_unused_modules.py` | the walk finds exactly the reachable modules |
| `ChunkSampler` | `eval/refusal_calibration.py` | the draw is exact in number and fair |

`Sequences`, `Decimals` and `LineBreaks` hold facts about lists, numerals and Python's `splitlines` that
several modules use.

## What turned out not to hold

The models keep the code as it is. Where a comment, a docstring or a natural expectation is not met,
a lemma gives the input, and another says exactly when the code does meet it.

- `gold_score.py` prefers a row that agrees on the operator so that two limits cannot be paired into a
  false disagreement, but only among the rows still left. A gold row without an agreeing row takes the
  row a later one needed (`GoldSheet.StolenMatch`); nothing is flipped or missed if and only if the
  sheet is contained in the store (`GoldSheet.CleanIffContained`). Units are not part of the choice, so
  equal sheets in another order are scored as wrong units (`GoldSheet.UnitOrderMatters`); all are found
  if and only if the units of each key agree in order (`GoldSheet.AllFoundIff`).
- `datasheet_bench.py` scores first come, first served; it can find one answer fewer than are there
  (`AnswerScoring.GreedyCanMiss`), never less than half (`AnswerScoring.AtLeastHalf`). It finds the
  most there are in every selection of the values and the answers, whatever their order, if and only
  if any two values have the same answers or none in common
  (`AnswerScoring.MaximumOnEverySelectionIff`).
- `added_lines` does not read every diff back. It loses an added line that begins with "++ ", and
  possibly the rest of its hunk (`DiffLines.HiddenHunk`), and what stands in an added line after a form
  feed or another of the separators of `splitlines` (`DiffLines.CutShort`); in no diff are such lines
  read back (`DiffLines.HiddenIsLost`). git writes a tab after a name that holds a space, and the tab
  becomes part of the path (`DiffLines.SpacedName`); a file whose name git puts in quotes is skipped
  (`DiffLines.QuotedName`). A removed line or a hunk's heading with such a separator can pass for a name
  line and move the added lines to another file (`DiffLines.InjectedName`). Those that cannot disturb
  any line added after them are exactly the quiet ones, of which no part after a separator begins with
  "+" or "@@" (`DiffLines.QuietIff`); and over quiet lines a diff is read back if and only if none of
  its added lines is of the two lost kinds and every file with added lines has a plain name: after
  the prefix `b/`, without quotes, spaces or separators (`DiffLines.ReadsBackIff`).
- `auto_label.py` says that an approval can never carry over a later push. That holds of the sentence
  (`AutoLabel.NoCarryOver`) but not of the label: an evaluation that has decided to add the label
  before a push may write it after the push's own evaluation, on a head that no comment approves
  (`LabelRuns.OverlapLabelsAnUnapprovedHead`, `LabelRuns.OverlapHappens`). The workflow's concurrency
  group does not prevent this for `workflow_run` events, which are grouped by head and not by pull
  request. Which orders of pushes, readings and writings are free of it is decided exactly, for every
  language (what the script's patterns find in a text) in which some comment can approve some head: all
  runs of an order end with an earned label or none if and only if, after each write of an evaluation
  that read before the last push, some push's evaluation has read and written
  (`LabelRuns.HonestIffCovered`); after every write if and only if that holds at every write
  (`LabelRuns.HonestAtWritesIff`). It does when no evaluation that read before a push writes after it
  and each push's own evaluation writes before the others since that push
  (`LabelRuns.PushFirstIsCovered`), and, with evaluations one at a time, once the push's own evaluation
  has written (`LabelRuns.OneAtATimeIsCovered`).
- `auto_label.py` reads only the oldest thousand comments, so the newest one may go unseen
  (`AutoLabel.LateWithdrawalUnseen`, `AutoLabel.WithdrawalIgnored`). They decide as all do if and only if
  the comment that decides is among them or decides the same (`AutoLabel.OldestThousandDecide`).
- `prune` orders backups of one stamp as the folder happens to list them. Then it can be the listing that
  decides which of them stays (`PruneRuns.TieMatters`), and pruning twice need not be pruning once; it is,
  whatever the listings and the policy, if and only if no two backups have one stamp
  (`PruneRuns.TwoRunsAreOneIff`, `PruneRuns.AnyHistory`).
- The generated types do not admit exactly the values of the schema. With `sent_defaults` a field with a
  default is declared as required, so a value that leaves it out meets the schema and not the type
  (`ContractTypes.SentDefaultsMustBeSent`). A hand-written type is narrower than its schema, so a value can
  meet the schema and not the type although it leaves nothing out (`ContractTypes.HandTypeIsNarrower`). A
  value that the schema accepts fails its interface if and only if it, or a value nested in it, leaves a
  default out that the server sends, or stands where a hand-written type is and is not of that type
  (`ContractTypes.FailsIffMisses`); a value that is right wherever types are written by hand fails exactly
  when it leaves a default out (`ContractTypes.FailsIffDefaultLeftOut`). `integer` becomes `number`
  (`ContractTypes.IntegerWidens`) and a closed model becomes an open interface
  (`ContractTypes.ClosedModelWidens`); but for these two, and where no keyword beside the one the
  generator goes by narrows a node's values, an interface admits exactly the values that its model
  accepts with the defaults sent and hand-written types in place of the schemas they replace
  (`ContractTypes.InterfaceIsExact`). None of this assumes anything of the hand-written types.
- `backup` fails when the data folder has a file `MANIFEST.json` at its root, and then leaves its folder
  behind; `DataBackup.Backup` says exactly when it succeeds and what stays behind when it fails. `drill`
  ignores any file of that name at any depth (`DataBackup.DrillCatches`).
- `find_present_items` asked for no item returns one when it finds one (`ChunkSampler.AtMostTarget`).

## Model

| member | source | states |
|---|---|---|
| RowMatching.MateOneToOne | scripts/eval_extraction.py:368-440 | two reported pairs share a gold row exactly when they share an extracted row |
| RowMatching.ExactPairsInOrder | scripts/eval_extraction.py:380-392 | a name's exact pairs on a page are its first min(gold, extracted) rows of either side, in order |
| RowMatching.FuzzyOnlyAfterExact | scripts/eval_extraction.py:380-394 | a row paired fuzzily has no row of its own name on the other side that the exact pass left over |
| RowMatching.WhyUnpaired | scripts/eval_extraction.py:395-440 | an unpaired extracted row is ambiguous, near no gold row, or lost its clear best gold row to a row scoring at least as high |
| RowMatching.TopClaimant | scripts/eval_extraction.py:420-427 | among the claimants of a gold row there is one that outbids every other, the first of equals |
| PageMatching.FillBuckets | scripts/eval_extraction.py:380-383 | the buckets hold each normalised name's gold rows of the page, in order |
| PageMatching.ExactPass | scripts/eval_extraction.py:384-391 | popping from the buckets pairs exactly the rows in the same place among the rows of their name |
| PageMatching.GoldLeft | scripts/eval_extraction.py:392 | what is left in the buckets is each leftover gold row of the page, once |
| PageMatching.TopTwo | scripts/eval_extraction.py:397-407 | the best ratio, a gold row that reaches it, and the second best ratio |
| PageMatching.Claims | scripts/eval_extraction.py:396-418 | a leftover row claims a gold row exactly when that row is its clear best; exactly the near ties are logged |
| PageMatching.TakeGreedily | scripts/eval_extraction.py:420-433 | walking the claims by descending score takes exactly the first claim for each gold row |
| PageMatching.FirstClaimWins | scripts/eval_extraction.py:420-428 | the first claim for a gold row is its one fuzzy mate |
| PageMatching.MatchPage | scripts/eval_extraction.py:368-440 | exactly the mates of the page are paired, every other row is listed unmatched once, and exactly the ambiguous rows are logged |
| PageMatching.SettlesTogether | scripts/eval_extraction.py:443-455 | settling two disjoint groups of pages apart settles them together |
| PageMatching.MatchAll | scripts/eval_extraction.py:443-455 | over all pages every mate is paired once and every other row is listed once |
| ExtractionScore.RowsOnce | scripts/eval_extraction.py:443-455 | paired and unmatched rows together list every row of either side exactly once |
| ExtractionScore.F1IsDice | scripts/eval_extraction.py:611-614 | F1 from precision and recall equals 2TP/(gold + extracted), and 0 when nothing is right |
| ExtractionScore.Score | scripts/eval_extraction.py:566-637 | hits are exactly the pairs whose values agree; every other gold row is one miss and every other extracted row one false extraction, listed alone when it is in no pair and with its pair when the values differ; the counts conserve both sides |
| ExtractionScore.TallyPairs | scripts/eval_extraction.py:710-719 | the loop over the pairs counts each paired gold row in its category |
| ExtractionScore.TallyAbsent | scripts/eval_extraction.py:720-722 | the loop over the rest counts each unpaired gold row as not extracted |
| ExtractionScore.CategoriesPartition | scripts/eval_extraction.py:696-722 | the three fates of the filled slots sum to the filled slots, and likewise the blank ones |
| ExtractionScore.CountExtra | scripts/eval_extraction.py:724-731 | every unpaired extracted row is a duplicate or spurious, one spurious row for each identity that no paired row carries |
| ExtractionScore.BreakDown | scripts/eval_extraction.py:680-732 | each category has its exact size; matched, duplicates and spurious sum to the extracted rows; spurious counts the identities (page, normalised name, folded value and unit, blankness) that only unpaired rows carry |
| AnswerScoring.PlainLabel | scripts/datasheet_bench.py:218-226 | a label without the separator, whatever it is, has its own key as its only form, or none if that key is empty |
| AnswerScoring.RowLabel | scripts/datasheet_bench.py:218-226 | a label with the separator has its own key and the key of what comes before the last separator, unless that is only white space; empty keys are dropped |
| AnswerScoring.GivenOneToOne | scripts/datasheet_bench.py:307-312 | each expected answer is used at most once, by a value that matches it |
| AnswerScoring.LeftOver | scripts/datasheet_bench.py:307-312 | a value left without an answer finds all its answers used |
| AnswerScoring.AtLeastHalf | scripts/datasheet_bench.py:296-312 | `correct` is at least half of any one-to-one matching of values to answers |
| AnswerScoring.GreedyIsMaximum | scripts/datasheet_bench.py:296-312 | `correct` is the maximum when any two values have the same answers or none in common |
| AnswerScoring.GreedyCanMiss | scripts/datasheet_bench.py:296-312 | an input for which a better matching exists |
| AnswerScoring.MaximumOnEverySelectionIff | scripts/datasheet_bench.py:296-312 | `correct` is the maximum on every selection of the values and the answers, in any order, if and only if any two values have the same answers or none in common; two values and two answers already decide it |
| AnswerScoring.RightMeansCorrectOrDuplicate | scripts/datasheet_bench.py:307-319 | a value is `correct` or `duplicate` exactly when it gives some answer of the key |
| AnswerScoring.OtherwiseMeans | scripts/datasheet_bench.py:313-327 | a value that gives no answer is `ignored` exactly when it bears a label to ignore, else `forbidden` exactly when it bears a forbidden one, else `wrong_value` exactly when it bears the name or an alias of an expected answer, else `extra` |
| AnswerScoring.GiveAnswer | scripts/datasheet_bench.py:308-312 | the inner loop gives a value the first unused answer it matches and marks only that one used |
| AnswerScoring.GiveAnswers | scripts/datasheet_bench.py:307-312 | pass 1 fills `used` and `outcome` exactly as first come, first served says |
| AnswerScoring.JudgeRest | scripts/datasheet_bench.py:313-327 | pass 2 gives every other value its outcome, the cases tried in order |
| AnswerScoring.NonBlankListed | scripts/datasheet_bench.py:301 | the values scored are the reported values that are not blank, in their order |
| AnswerScoring.ScoreFile | scripts/datasheet_bench.py:296-346 | the values scored are the reported ones that are not blank, in order and as often as reported, and `blanks` is the number of the others; outcomes, counts, missed answers, the list of errors, recall and precision with their empty cases; found plus missed equals expected |
| AnswerScoring.OutcomesAddUp | scripts/datasheet_bench.py:328-329 | the six outcomes sum to the values scored |
| GoldSheet.StoredConserved | scripts/gold_score.py:158-181 | every stored limit is used up once or left as spurious |
| GoldSheet.GoldConserved | scripts/gold_score.py:158-181 | whatever lists hold the gold limits by fate, the rows found, flipped, of wrong unit and missed are together the gold limits, as multisets |
| GoldSheet.SortedMeans | scripts/gold_score.py:161-180 | the flipped and missed lists are empty exactly when no fate is of these kinds, and the found list is the sheet's limits exactly when every fate is `Found` |
| GoldSheet.CleanIffContained | scripts/gold_score.py:158-181 | nothing is flipped or missed, in any order, if and only if the gold multiset of (clause, value, operator) is contained in the stored one |
| GoldSheet.AllFoundIff | scripts/gold_score.py:158-181 | every limit is found if and only if, besides, the k-th gold unit of each key is empty or the k-th stored unit |
| GoldSheet.StolenMatch | scripts/gold_score.py:158-181 | the sheet ">= 5, <= 5" against the store "<= 5" loses both gold rows |
| GoldSheet.UnitOrderMatters | scripts/gold_score.py:170-180 | equal sheets in another order are scored as wrong units |
| GoldSheet.Take | scripts/gold_score.py:164-180 | a gold limit takes the first row left of its clause, value and operator, else the first of its clause and value; exactly that row goes; the fate says which it was and whether the units agree |
| GoldSheet.TakenIsPicked | scripts/gold_score.py:164-180 | the row so described is the one the run over all limits picks, with the same fate |
| GoldSheet.ScoreLimits | scripts/gold_score.py:158-181 | each of the four lists holds, in the sheet's order, the gold limits with its fate in the specified run: found; flipped; wrong unit; missed with or without a stored row; and the rows left are those of the run |
| GoldSheet.ScoreStandard | scripts/gold_score.py:155-196 | the limits of both sides are the rows of these kinds, in order; the four lists hold the gold limits by fate and together all of them; nothing is flipped or missed if and only if the sheet is contained in the store; the found list is the sheet's limits if and only if the units of every key agree in order; the other gold rows are counted right exactly when a stored row of their clause has a matching kind |
| TypeText.ParseShow | scripts/gen_contract_types.py:241-275 | a printed union parses back as that union, postfix `[]` binding tighter than the bar, and names of a declaration's field (`Name["field"]`) included |
| ContractTypes.Printed | scripts/gen_contract_types.py:241-275 | the generator prints exactly the type meant, hand-written types on any node included, and refuses exactly when none is meant |
| ContractTypes.TextParsesBack | scripts/gen_contract_types.py:241-275 | the printed text of any node parses back as the type meant, repeated members dropped |
| ContractTypes.Preserved | scripts/gen_contract_types.py:241-275 | every JSON value that a node accepts, its schema or on a node with a hand-written type that type, belongs to the type meant, through nullable unions, references, arrays, records and named unions |
| ContractTypes.PreservedModel | scripts/gen_contract_types.py:277-298 | every value so accepted by a registered model belongs to its interface, recursive models and any hand-written types included |
| ContractTypes.TextIsSound | scripts/gen_contract_types.py:241-298 | the same for the text that the generated file holds for a field |
| ContractTypes.FieldParsesBack | scripts/gen_contract_types.py:241-298 | the printed text of any field of a registered model, hand-written or not, parses as the type meant |
| ContractTypes.LineReads | scripts/gen_contract_types.py:291-296 | a printed line reads as its name, its question mark and the type its text parses as |
| ContractTypes.AfterLastSlash | scripts/gen_contract_types.py:250 | a reference names what follows its last slash, or itself when it has none |
| ContractTypes.HandWrittenTakes | scripts/gen_contract_types.py:242-245 | the printed type of a node with a hand-written one takes that type's values, and null exactly where the schema names null |
| ContractTypes.NothingAdded | scripts/gen_contract_types.py:241-275 | when the schemas use nothing TypeScript cannot say, every value of the type is so accepted too |
| ContractTypes.NothingAddedModel | scripts/gen_contract_types.py:277-298 | the same for interfaces |
| ContractTypes.InterfaceIsExact | scripts/gen_contract_types.py:241-298 | a value belongs to an interface if and only if its model accepts it with the defaults sent, each hand-written type in place of its schema, any number for an integer and further fields in a closed model |
| ContractTypes.SentModelIff | scripts/gen_contract_types.py:280-285 | a model accepts a value with the defaults sent exactly when it accepts it and the value leaves out no defaulted field, at any depth, hand-written types judged or not |
| ContractTypes.FailsIffDefaultLeftOut | scripts/gen_contract_types.py:277-298 | with `sent_defaults` a value that the model accepts, hand-written types judged in place of their schemas, fails the interface exactly when it, or a value nested in it, leaves a defaulted field out |
| ContractTypes.FailsIffMisses | scripts/gen_contract_types.py:241-298 | a value that the plain schema accepts, to the letter or read widely, fails the interface exactly when it, or a value nested in it, leaves out a default that the server sends or is not of a hand-written type where it stands |
| ContractTypes.FailsOnlyByMissing | scripts/gen_contract_types.py:241-298 | whatever keywords the schemas use together, nothing else makes an accepted value fail |
| ContractTypes.HandTypeIsNarrower | scripts/gen_contract_types.py:134-163 | a value that meets the schema, leaves nothing out and does not belong to the interface, because an object lacks a field of the hand-written type |
| ContractTypes.IntegerWidens | scripts/gen_contract_types.py:262-263 | an integer field gets a type with values its schema rejects |
| ContractTypes.ClosedModelWidens | scripts/gen_contract_types.py:277-298 | a model closed to further fields gets an interface with values its schema rejects |
| ContractTypes.SentDefaultsMustBeSent | scripts/gen_contract_types.py:280-285 | in a module with `sent_defaults` and a hand-written type, a value without a defaulted field meets the schema but not the interface |
| ContractTypes.InterfaceLines | scripts/gen_contract_types.py:277-298 | the declaration has one line for each field, in order, and is refused exactly when some field has no type; read back, each line gives its field's name, whether it may be left out, and the type meant |
| ContractTypes.UnionValuesIff | scripts/gen_contract_types.py:300-310 | a named union is refused unless all parts of its field but one are null and that one is a `Literal`; then it has that literal's values |
| ContractTypes.UnionHolds | scripts/gen_contract_types.py:300-310 | a string that a named union's field accepts is one of the union's values |
| DataBackup.Drill | scripts/backup_data.py:205-228 | passes exactly when every listed file is there with its hash, no other file is except manifests, and the row counts agree; else names a real difference |
| DataBackup.RecordedMeans | scripts/backup_data.py:104-146 | a backup holds exactly the files that are no sidecar, lock file or derived index; a database that has tables comes with its rows and an empty journal, everything else as it is |
| DataBackup.CopyAll | scripts/backup_data.py:163-179 | the copy holds exactly the wanted files, the manifest describes it, and names exactly the derived indexes as not backed up |
| DataBackup.Backup | scripts/backup_data.py:149-188 | succeeds exactly when the folders are there, the new one is outside the source and not taken, there is a file to copy, the databases are sound and no wanted file sits where the manifest goes; it names which of these is missing; when copying or the drill fails the new folder stays behind, else nothing does |
| DataBackup.BackupPasses | scripts/backup_data.py:180-188 | a fresh backup passes its drill unless a wanted file sits where the manifest goes, and then it cannot |
| DataBackup.DrillCatches | scripts/backup_data.py:205-228 | against a backup's manifest a folder passes exactly when it is the backup, up to files named as the manifest |
| DataBackup.Folder.Restore | scripts/backup_data.py:231-245 | writes exactly the listed files into an empty folder; a refusal says why, one before copying leaves the folder untouched, and a failure later leaves only listed files, each as in the backup |
| DataBackup.Folder.OffDisk | scripts/backup_data.py:292-306 | copies the whole folder to a new one on another device if it passes, and only then; else it says whether the manifest, the device or the place is at fault |
| DataBackup.RestoreGivesBack | scripts/backup_data.py:149-245 | a successful backup restores into any empty folder exactly the wanted source files with the contents recorded |
| DataBackup.BackUpAndRestore | scripts/backup_data.py:149-245 | backing up and restoring, run one after the other, give back the wanted source files, whenever the backup succeeds and the target is not the live folder; no database with tables comes back with rows in its journal |
| Retention.LastMonthsStay | scripts/backup_data.py:275-281 | each of the last `keep_monthly` months present keeps its newest backup |
| Retention.PathIndependent | scripts/backup_data.py:268-285 | the policy on ranks: keeping, adding and keeping again keeps what one final choice keeps |
| Retention.AnySchedule | scripts/backup_data.py:268-285 | the policy on ranks: however often it was applied before, the next time it keeps what a single choice among everything ever made keeps |
| Retention.KeepBounds | scripts/backup_data.py:268-285 | at most `keep_daily + keep_monthly` backups stay, the newest among them |
| Retention.KeepList | scripts/backup_data.py:273-281 | the loop over the newest-first list keeps exactly what the policy on sets keeps |
| Retention.RankMeans | scripts/backup_data.py:248-265 | sorting puts later stamps first and leaves equal stamps as listed; the month is that of the stamp |
| Retention.RanksAre | scripts/backup_data.py:252-265 | the backups of a listing are exactly the folders with a stamp of this tool and a readable manifest, each ranked by its own stamp and place |
| Retention.BackupRoot.Backups | scripts/backup_data.py:252-265 | lists this tool's readable backups, newest first, in whatever order the folder lists its entries |
| Retention.BackupRoot.Prune | scripts/backup_data.py:268-285 | refuses a policy that could drop the newest; otherwise deletes exactly the backups outside the policy, newest first, returns their names, and changes nothing else; nothing goes that is no folder, has no stamp or no readable manifest |
| PruneRuns.KeepRenamed | scripts/backup_data.py:268-285 | what the policy keeps depends on the order and the months of the ranks alone |
| PruneRuns.LeftIsByStamp | scripts/backup_data.py:252-285 | when no two backups have one stamp, what a run leaves does not depend on the order in which the folder lists its entries |
| PruneRuns.AnyHistory | scripts/backup_data.py:252-285 | then, however often and whenever `prune` ran and however it found the entries listed, the next run leaves the entries that a single run over everything ever added would leave |
| PruneRuns.TwoRunsAreOneIff | scripts/backup_data.py:252-285 | pruning, adding entries and pruning again leaves what one prune at the end leaves, for every policy and all listings, if and only if no two backups have one stamp |
| PruneRuns.TieMatters | scripts/backup_data.py:252-285 | for any two backups of one stamp there is a policy under which the listing decides which of them stays |
| NameReservation.CandidatesDiffer | scripts/backup_db.py:103-105 | different attempts ask for different names |
| NameReservation.Directory.ReserveName | scripts/backup_db.py:93-113 | one caller creates the first free name and nothing else, or finds all taken |
| NameReservation.EveryRunKeepsInv | scripts/backup_db.py:93-113 | every interleaving keeps: old files unchanged, names owned once, skipped names taken |
| NameReservation.NamesAreOwn | scripts/backup_db.py:93-113 | in every interleaving the names differ and no earlier file is returned or altered |
| NameReservation.WritesStay | scripts/backup_db.py:93-113 | in every interleaving the file of a caller that has its name holds what this caller wrote last, whatever the others write |
| NameReservation.EachCallerFinishes | scripts/backup_db.py:103-113 | a caller that has been scheduled often enough has returned or raised, whatever the others do |
| NameReservation.AllReturnIffRoom | scripts/backup_db.py:103-113 | all callers get a name if and only if the names taken before and the callers fit in the bound |
| Decimals.ReadBack | scripts/check_client_identifiers.py:96-98 | a printed number reads back as itself |
| KnownData.ReadWords | scripts/check_client_identifiers.py:134-141 | the loop lists the words of each line with its number |
| KnownData.TagsInOrder | scripts/check_client_identifiers.py:138-141 | every word is a word of its line, and line numbers never decrease |
| KnownData.WordsOfWritten | scripts/check_client_identifiers.py:134-141 | a line reads as its words in lower case, however they are separated |
| KnownData.WordsOfJoined | scripts/check_client_identifiers.py:134-141 | joined lines read as the words of each line with its place |
| KnownData.SeparatorsDoNotMatter | scripts/check_client_identifiers.py:134-141 | whole texts read as their words and lines whatever separates the words |
| KnownData.SameWordsSameHits | scripts/check_client_identifiers.py:157-171 | other separators and other ASCII case leave every hit unchanged |
| KnownData.DigestsDiffer | scripts/check_client_identifiers.py:128-131 | different runs of words are digested from different texts |
| KnownData.KnownList.Find | scripts/check_client_identifiers.py:157-171 | returns the hits of the reported windows, size by size and in order |
| KnownData.HitIn | scripts/check_client_identifiers.py:157-171 | a hit is returned exactly when a window of a listed size is reported on its line |
| KnownData.ListedMeans | scripts/build_client_data_list.py:37-85 | listed are exactly the words of each token that has any, and the runs of eight words that stand in a client text, in no standard and no allowed phrase, with at least three words of two letters or more |
| KnownData.BuiltLengths | scripts/build_client_data_list.py:86 | the lengths written are the lengths of the listed runs, ascending, none zero |
| KnownData.DigestListed | scripts/build_client_data_list.py:84-87 | a run has a listed digest exactly when it is listed |
| KnownData.BuilderScannerAgree | scripts/build_client_data_list.py:76-87 | over a built list, a hit is found exactly when a window there is a listed run, not excepted, and long enough or all on one line |
| KnownData.ScanRows | scripts/check_client_identifiers.py:223-227 | the hits in the joined added lines of a file, each moved to the number of the line it starts on |
| KnownData.ReportedWhereItStarts | scripts/check_client_identifiers.py:223-227 | the reports are exactly the reported windows, at the new-file line where the first word stands |
| LineBreaks.CutText | scripts/check_client_identifiers.py:91 | `splitlines` of printed lines gives the pieces of each line, one line after the other |
| LineBreaks.CutAsText | scripts/check_client_identifiers.py:68-74 | reading the output as text, which changes line ends, changes no line |
| DiffLines.AddedLines | scripts/check_client_identifiers.py:85-102 | from the output of git on, the loop with `path` and `lineno` yields what the line-by-line reading says |
| DiffLines.FirstPlusNumber | scripts/check_client_identifiers.py:96-98 | the number of a line is the whole numeral after the first plus sign that a digit follows |
| DiffLines.NumberOfHeader | scripts/check_client_identifiers.py:96-98 | the number read from a hunk header is the new file's first line, whatever the heading after it |
| DiffLines.PlainNameIff | scripts/check_client_identifiers.py:92-94 | the path read from a name line is the file's own if and only if git's prefix is `b/` and the name needs no quotes, holds no space and no line separator |
| DiffLines.NameIsQuiet | scripts/check_client_identifiers.py:87-94 | where git quotes names beyond ASCII, as it does unless told otherwise, no name line is cut |
| DiffLines.ReadHunk | scripts/check_client_identifiers.py:92-102 | a quiet hunk of visible lines reads as its added lines numbered from its start |
| DiffLines.HiddenIsLost | scripts/check_client_identifiers.py:91-101 | no diff is read back that adds a line with a separator inside or one that begins with "++ " |
| DiffLines.ReadsBackIff | scripts/check_client_identifiers.py:85-102 | over quiet lines the text of a diff reads back as exactly its added lines, under their files' real names, if and only if every added line is visible and every file with added lines has a plain name |
| DiffLines.QuietIff | scripts/check_client_identifiers.py:91-101 | removed lines and a heading are quiet if and only if, for every file name, number and visible line, a diff that adds the line after them is read back |
| DiffLines.HiddenHunk | scripts/check_client_identifiers.py:92-95 | an added line "++ ..." hides itself and the rest of its hunk |
| DiffLines.SpacedName | scripts/check_client_identifiers.py:92-94 | the lines of a file whose name holds a space are read under that name and a tab |
| DiffLines.QuotedName | scripts/check_client_identifiers.py:92-94 | the lines of a file whose name stands in quotes are not read |
| DiffLines.CutShort | scripts/check_client_identifiers.py:91-101 | what stands in an added line after a form feed is not read |
| DiffLines.InjectedName | scripts/check_client_identifiers.py:91-94 | a removed line with a name line after a form feed moves the added line to that file |
| DiffScan.RowsAreOne | scripts/check_client_identifiers.py:214-218 | the rows of a path are its added lines, all of them and in order, each with its number and its text, and nothing else is |
| DiffScan.GroupByPath | scripts/check_client_identifiers.py:214-218 | the map holds each file that is not skipped and has added lines, with these lines in order, each with its number and text |
| DiffScan.ScanDiff | scripts/check_client_identifiers.py:214-228 | the findings are exactly the reports made of the added lines of each file that is not skipped |
| DiffScan.DiffScanIsExact | scripts/check_client_identifiers.py:202-228 | from diff to report, over quiet lines, visible added lines and plain names: with the file's added lines in order, the file is reported at a line number exactly when a known run starts with a word of the added line of that number |
| AutoLabel.GreenIff | scripts/auto_label.py:119-133 | green means that every required check has a run that counts and all runs that count succeeded |
| AutoLabel.RedIff | scripts/auto_label.py:119-133 | red means that some run that counts concluded badly, or that every required check has a run, all runs that count are completed and one did not succeed |
| AutoLabel.ReadApproval | scripts/auto_label.py:136-149 | the newest trusted comment that approves or withdraws this head approves it |
| AutoLabel.NewestComment | scripts/auto_label.py:94-149 | one comment more decides if it is trusted and has an unhedged sentence that approves the head, or names the head and hedges; otherwise what the others say stays |
| AutoLabel.NoCarryOver | scripts/auto_label.py:94-106 | a sentence that approves a head approves no head whose first eight characters differ |
| AutoLabel.Pages | scripts/auto_label.py:216-227 | the page loop returns everything up to a thousand items, and the first thousand beyond |
| AutoLabel.OldestThousandDecide | scripts/auto_label.py:136-149 | the oldest thousand comments decide as all do if and only if the comment that decides among all is one of them or decides the same |
| AutoLabel.LateWithdrawalUnseen | scripts/auto_label.py:216-241 | a withdrawal after a thousand comments changes nothing |
| AutoLabel.WithdrawalIgnored | scripts/auto_label.py:216-241 | in every language: comments made of an approval of a head and a withdrawal of it, on which the oldest thousand approve the head that all together do not |
| AutoLabel.Decide | scripts/auto_label.py:152-170 | the decision from what was read |
| AutoLabel.EvaluationMeans | scripts/auto_label.py:152-170 | an undisturbed evaluation leaves the label on exactly when it is no push, the head has not failed as `RedIff` says it, and the label was on or all checks succeeded and the newest deciding comment approves; nothing else changes, so a withdrawal removes nothing |
| AutoLabel.BadRunUnlabels | scripts/auto_label.py:124-169 | a run that counts and concluded badly leaves the label off, whatever the event and the comments |
| AutoLabel.Repository.Run | scripts/auto_label.py:230-250 | every open pull request of the event is evaluated once, in order, others stay as they were; the list returned names what was done to each |
| LabelRuns.CoveredIsHonest | scripts/auto_label.py:152-250 | every run whose order is covered ends with a label only if it was earned since the last push, for any rule that adds only what is earned and clears on a push |
| LabelRuns.UncoveredIsDishonest | scripts/auto_label.py:152-250 | in every language, given a comment that approves a head and not another: every order that is not covered has a run that ends with the label on that other head, which no comment approves |
| LabelRuns.HonestIffCovered | scripts/auto_label.py:230-250 | in every language in which some comment approves some head: all runs of an order of pushes, readings and writings end honest if and only if after each write that read before the last push some push's evaluation has read and written |
| LabelRuns.HonestAtWritesIff | scripts/auto_label.py:230-250 | in every such language the label is honest after every write of every run of an order if and only if the order is covered at every write |
| LabelRuns.PushFirstIsCovered | scripts/auto_label.py:230-250 | that holds when nothing writes across a push and each push's own evaluation writes before the others since that push |
| LabelRuns.OneAtATimeIsCovered | scripts/auto_label.py:230-250 | evaluations that do not overlap are covered as soon as the last push's own evaluation has written, pushes between reading and writing included |
| LabelRuns.LabelMeans | scripts/auto_label.py:152-250 | a set label at the end of a covered run: since the last push an evaluation read, on the very head that is current, first comments whose newest deciding one approves it and later checks that are all successful, each at a moment of its own |
| LabelRuns.OverlapLabelsAnUnapprovedHead | scripts/auto_label.py:230-250 | from any unlabelled pull request that has earned its label, and for any head that no trusted comment approves, an evaluation that reads before a push and writes after the push's own ends with the label on that head |
| LabelRuns.OverlapHappens | scripts/auto_label.py:230-250 | such a pull request exists in every language in which some comment approves one head and not the other |
| ShardProof.LoggedIff | scripts/ci_test_ids.py:52-62 | logged are exactly the tests of which a call is reported or a setup that failed or skipped |
| ShardProof.LoggedPerRun | scripts/ci_test_ids.py:52-62 | however reports are interleaved, a test is logged once for each of its complete runs |
| ShardProof.SessionLog | scripts/ci_test_ids.py:52-62 | a session's log holds each test that ran exactly once |
| ShardProof.Compare | scripts/ci_test_ids.py:73-95 | the four lists are exact; OK if and only if the collection is not empty, repeats nothing and equals the shards' lists as a multiset |
| ShardProof.OkIffPartition | scripts/ci_test_ids.py:52-95 | over complete sessions, OK if and only if the collected tests are split among the shards, each to exactly one |
| ShardProof.MergeDurations | scripts/ci_test_ids.py:98-110 | refuses exactly when a test that ran has no stored duration; else gives every test that ran the duration of the last shard that ran it |
| ImportGraph.Reachable | scripts/check_unused_modules.py:72-83 | terminates on every graph and returns exactly the modules some chain of imports reaches |
| ImportGraph.Unused | scripts/check_unused_modules.py:86-87 | exactly the modules that no chain reaches |
| ImportGraph.DeletingUnusedIsEnough | scripts/check_unused_modules.py:86-87 | deleting all unused modules leaves every other module reached |
| ChunkSampler.SampleChunks | eval/refusal_calibration.py:294-309 | the loop gives the chunks of the round-robin order, cut at `n` |
| ChunkSampler.PickedAre | eval/refusal_calibration.py:294-309 | the i-th chunk picked is the one at the i-th draw's place in its document's bucket |
| ChunkSampler.DrawsAsMany | eval/refusal_calibration.py:279-309 | exactly min(n, total) draws, none for a negative n |
| ChunkSampler.Fair | eval/refusal_calibration.py:279-309 | each document gives a first part of its bucket in order, and counts differ by at most one unless the smaller document is used up |
| ChunkSampler.DrawnOnce | eval/refusal_calibration.py:279-309 | nothing is drawn twice |
| ChunkSampler.PickedOnce | eval/refusal_calibration.py:279-309 | no chunk is picked twice when the buckets hold none twice |
| ChunkSampler.FindPresentItems | eval/refusal_calibration.py:312-327 | the items of the first chunks, up to the one that completes the target |
| ChunkSampler.AtMostTarget | eval/refusal_calibration.py:312-327 | no more items than asked for, if and only if at least one is asked for or there is none |

## Left out

- `difflib`'s ratio, `values_agree`, `value_matches`, `field_key` and unit normalisation: functions without assumptions; their code is, or rests on, `backend/app`, which is not part of this model.
- Floating point: scores, ratios and values are exact reals, so rounding for print is not modelled.
- SHA-256 and blake2b: taken as free of collisions; the six-byte digest of the scanner is not.
- The file system, SQLite, git, HTTP and the GitHub API: maps, sequences and event lists; a directory that stands where a file should go, permissions and partial writes are not modelled.
- Retention.BackupRoot.Prune: a folder lists fewer than 10^18 entries; a backup that cannot be deleted is not modelled.
- ContractTypes.InterfaceLines: the comment lines and the import line are left out.
- ContractTypes.HandWrittenTakes: what a hand-written type's names mean is declared in other files; in the model a declaration from outside is any set of values, and a hand-written text is a type as the generator itself would print it.
- ContractTypes.Preserved: enum and const values are strings that need no escape between quotes, which is what `_literal` prints correctly.
- KnownData.ReadWords: lower-casing is a function per character, so the one context rule of `str.lower` (final sigma) is not modelled.
- DiffLines.AddedLines: git's output is characters; how bytes that are not UTF-8 are replaced is not modelled, and how git spells a name in quotes is a parameter.
- DiffLines.ReadsBackIff: lines that are not quiet can cancel one another, so for them only `HiddenIsLost` and, hunk by hunk, `QuietIff` are stated; the lines before a file's name are given as they are printed.
- DiffScan.ScanDiff: the shape patterns, masking and file-name reports of `scan` are left out.
- AutoLabel.Decide: the regular expressions are predicates on text.
- AutoLabel.Repository.Run: the payload's number lists are inputs; printing is left out.
- LabelRuns.HonestIffCovered: the pull request, all pages of its comments and all pages of its checks are read in one step each; an evaluation that finds the pull request closed does nothing and is no step.
- ImportGraph.Reachable: the names each file imports are the input; reading them from the syntax tree is left out.
- ShardProof.Compare: sorting and printing of the lists is left out; `drop_flagged` would be an easy filter.
- ChunkSampler.SampleChunks: the shuffles are arbitrary buckets and an arbitrary document order.
- `offdisk`, `restore` and `backup` dates, byte counts and the reasons that the manifest gives for derived indexes.
- `eval_extraction.compare`, `datasheet_bench.totals`: sums and one comparison, easy to read off.
