# A verified model of the bot's record keeping and answer shaping

This Dafny 4.11 project models the parts of the repository whose guarantees are easy to state and
hard to keep, and proves those guarantees. `dafny verify dfyconfig.toml` checks all of it.

| files | component |
|---|---|
| `Text`, `Digits`, `AuditDrain`, `AuditDisorder`, `AuditProtocol`, `AuditLines`, `AuditOnce`, `AuditRuns`, `AuditReading` | the audit log: locked appends, spilled entries, the drain that may die anywhere, the retention pass (`src/tybot/audit.py`) |
| `Backfill`, `BackfillPages` | the resumable history backfill with its checkpoint (`scripts/backfill_channel_history.py`) |
| `Decimals`, `DecimalText`, `WrittenNumbers`, `Money`, `MoneyText`, `Percent`, `PercentCheck`, `PercentText`, `Dates`, `DatesFacts`, `DatesNumbers`, `DatesText`, `PeriodsText`, `TableRows`, `TableText`, `Harness`, `HarnessFacts`, `HarnessColumns`, `HarnessPasses`, `HarnessAnswer` | the table harness: one format per column, every cell checked against its text (`src/tybot/canvas_harness.py`) |
| `Markdown`, `TableSplitter` | splitting tables under the Canvas cell limit (`src/tybot/canvas_answer.py`) |
| `Snapshot`, `Layouts`, `PfParser` | the snapshot fingerprint, the two archive layouts and the channel parser (`scripts/archive_layout_convert.py`) |
| `Retired`, `Reconcile`, `RetiredFrames` | the registry of archived and deleted channels (`src/tybot/channel_lifecycle.py`) |
| `Evidence` | grouping found lines and packing them into the evidence budget (`src/tybot/answer.py`) |
| `Basics`, `Sorting`, `StringOrder`, `Joining` | shared definitions |

Code that changes things step by step is a class or a method with loops, proved against a function
of its inputs or its old state; the lemmas are about those functions. Python strings are `string`;
in the audit log and the snapshot one `char` is one byte.

## What is assumed

- The audit lock is held by one process at a time; taking it succeeds or times out. A live locked
  append is one whole line, and a file rename is one step.
- JSON: an entry's rows are given as the text of their members; adding the identity member appends
  it as the last one. No row holds a line separator.
- In the theorems that count lines, every entry name is given once, and neither a row written
  directly nor a line from before ends with the identity of an entry of the run.
- Slack's history is a fixed finite list, newest first; `conversations.history` answers with the
  newest 15 messages strictly below the bound. The archive is a set: ingesting again adds nothing.
  A run stops when the process dies or when an exception leaves the channel; in the second case the
  save of a later channel also writes this channel's state as it is in memory.
- A channel's day files are read in name order. No two of the hashed file contents share a hash.
- The retention pass drops a line only when every finished record that ends on it has expired.

## Where code and documentation differ

The model follows the code. Where a lemma says so, it is named.

- `spill_entries` promises the order in which entries were made, and `_ends_with` that an entry
  appended but not unlinked is recognised, because whoever takes the lock next drains first and the
  tail stays. But a name is taken before the rename, so an entry can appear in front of one that a
  dead drain already appended. Then that one's row is appended again (`AppendedAgainUnlessFirst`,
  `LateNameIsDoubled`) or, torn, blocks every later drain (`TornRowBlocksUnlessShared`,
  `LateNameBlocks`). Each record is there exactly once if and only if no drain ever starts while the
  row of a listed entry that is not the first ends the file, and the last disk heals
  (`ExactlyOnceIff` for drains as single events, `OnceIff` and `AllOnceIff` for every interleaving);
  while names appear in order that never happens (`InOrderNothingIsOvertaken`).
- A drain that raises is swallowed, and the row that follows is glued to the torn tail
  (`LiveRowIsALineIff`, `GluedRow`).
- `_filter_jsonl` of `src/tybot/retention.py` says writers take no lock; they do, and it takes the
  same one and drains first, which is the step modelled.
- The retry loop empties the pending list before working through it, so a stop between its saves
  forgets the threads not yet tried (`RetryDeathKeepsThreadsIff`, `RetryDeathLosesAThread`). The
  messages do not suffer from it (`ChainCovers`), and a run that starts over brings the threads back
  (`ChainKeepsThreads`).
- `parse_money` promises the amount as written; beyond 28 significant digits it is rounded
  (`ParsedExactlyIff`, `TwentyNineDigits`). `_exact_in` promises "without rounding", which every unit gives; what it
  tests is two places, and an amount written with more never passes by that half (`ExactInMeans`, `ThreePlaces`).
- `percent_decimals` promises the most precise cell's places. A cell signed with U+2212 does not
  count, and is shown with its own places unless another cell has as many (`ColumnPlacesIff`,
  `LonelyOddMinus`).
- `format_date` promises to change the notation only. Digits written without a gap, as in
  `202608월말`, are cut into two numbers; the check of the cell then sends the whole table back
  (`DateKeepsNumbersIff`, `GluedMonthEnd`).
- `_split_large_tables` splits and joins lines, so on texts it is idempotent except that a last
  blank line behind other lines is lost (`TextIdempotentIff`, `LosesBlankLine`).
- `emit_b` moves undated messages to the front and sorts by day, so it keeps `emit_a`'s order only
  for input already in that order (`LayoutsAgreeIff`, `LayoutsDiffer`).
- `reconcile` on two known channels of one name loses the first record (`SharedNameLosesTheFirst`);
  an archived channel keeps its record iff no turn that acts on another one matches it
  (`ArchivedIsKeptIff`).
- `_with_seed` says duplicates are merged; without attached lines the hits are passed on as they
  are, and attached lines are not merged among themselves (`MergedOnceIff`, `RepeatsStay`).

## Model

| member | source | states |
|---|---|---|
| AuditDrain.AuditFile.DrainSpill | src/tybot/audit.py:138-166 | the loop over the listed entries, dying at any byte or before any unlink, leaves exactly the disk and outcome of the drain function, and reports the non-blank lines it appended |
| AuditDrain.MergedLinesCount | src/tybot/audit.py:145-166 | a complete drain reports one line for each listed entry, less one if a drain that died had written the first entry's row to its last brace |
| AuditDrain.AuditFile.AppendLocked | src/tybot/audit.py:189-199 | with the lock: drain first, swallow its error, then one whole row |
| AuditDrain.AuditFile.Publish | src/tybot/audit.py:205-225 | a finished entry takes its place in the sorted listing |
| AuditDrain.AppendingEndsWith | src/tybot/audit.py:113-163 | torn tail or not, after its turn the file ends with the entry's bytes |
| AuditDrain.DrainSettles | src/tybot/audit.py:138-166 | any drain keeps a file that is whole lines plus a beginning of the first entry's row; what it merged moved in order, nothing was lost, a complete one empties the listing |
| AuditDrain.EveryRecordOnceInOrder | src/tybot/audit.py:113-166 | one-row entries published in name order, drains dying anywhere any number of times: one complete drain leaves the old lines and then every record as one whole line, in order |
| AuditDisorder.DrainWhole | src/tybot/audit.py:138-166 | a drain of a whole file and a listing in any state appends every listed row in order, and leaves out only the first one's if it ends the file already |
| AuditDisorder.AppendedAgainUnlessFirst | src/tybot/audit.py:113-166 | so every listed entry's identity is on one line more than before, except the first one's when its row ends the file |
| AuditDisorder.EachOnceAfterIff | src/tybot/audit.py:113-166 | after a drain of a whole file every listed entry is there once iff before it none was, but for the first one if its row ended the file, which was there once |
| AuditDisorder.TornRowBlocksUnlessShared | src/tybot/audit.py:151-159 | on any file with a torn last row: the drain goes on iff the torn bytes could begin the first entry's row, and then appends every listed row; else it raises and changes nothing |
| AuditDisorder.LateNameIsDoubled | src/tybot/audit.py:205-225 | a run in which an earlier name appears after a drain died between append and unlink: the later row ends up twice in the file |
| AuditDisorder.LateNameBlocks | src/tybot/audit.py:151-159 | the same with the row torn where the two rows differ: every later drain raises |
| AuditDisorder.LiveRowIsALineIff | src/tybot/audit.py:113-121 | a lock holder's row is a line of its own iff the file it found was whole, or its first entry that is not blank can be read and begins with the torn row |
| AuditDisorder.GluedRow | src/tybot/audit.py:195-199 | on the blocked disk of such a run the next row is glued to the torn one |
| AuditProtocol.NoRecordIsLost | src/tybot/audit.py:138-225 | every step of every process keeps, whatever the rows, names and shapes of entries: each finished, unexpired record has the bytes of its row and the line break in the main file or is in a published entry, and an entry about to be unlinked has its bytes at the file's end |
| AuditProtocol.NoRecordIsLostFromStart | src/tybot/audit.py:40-53 | so no such record's bytes are ever lost, in every interleaving of lock holders, timed-out writers, drains, retention passes and deaths from an empty log |
| AuditProtocol.RewriteKeeps | src/tybot/retention.py:608-664 | filtering lines and replacing the file keeps the bytes of every record that has not expired |
| AuditProtocol.UnlinkedOnlyWhenWritten | src/tybot/audit.py:145-165 | an entry disappears only by the holder's unlink and only when the file ends with its bytes |
| AuditProtocol.PublishedDuringDrainSurvives | src/tybot/audit.py:64-94 | an entry that is not in the running drain's listing survives that drain |
| AuditProtocol.StepsRefineDrain | src/tybot/audit.py:138-166 | taken without interruption the protocol's steps give the drain function's result, whether the holder gets through, meets an entry it cannot merge, or dies |
| AuditLines.EveryRecordIsALine | src/tybot/audit.py:97-225 | in every interleaving, entries of any shape and names in any order: a finished, unexpired record is a line of its own, or in a published entry, or was written directly behind a torn row |
| AuditLines.EveryLineIsARecord | src/tybot/audit.py:97-225 | and every line before the last break is one from before, a record's own, or ends with a row written behind a torn one |
| AuditOnce.OnceIff | src/tybot/audit.py:97-166 | in every interleaving of one-row entries, names in any order, with deaths, direct rows, retention passes and publications at any moment: a record that is no longer listed is a line of its own, and its identity is on no other line iff no drain ever started while its row ended the file and another entry came first |
| AuditRuns.AllOnceIff | src/tybot/audit.py:97-166 | one more drain gets through to whole lines with every unexpired entry's identity on exactly one of them iff the disk heals and no such entry was ever overtaken in that way |
| AuditRuns.InOrderNothingIsOvertaken | src/tybot/audit.py:83-94 | while names appear in order nothing is overtaken, no drain raises, and no row is written behind a torn one |
| AuditRuns.ExactlyOnceInOrder | src/tybot/audit.py:64-94 | so then one more drain always leaves each record as a line of its own, exactly once, every line being one from before or a record's |
| AuditRuns.ExactlyOnceIff | src/tybot/audit.py:138-199 | for runs of publications in any order, locked appends and drains that die at any byte: the last drain gets through, the file is whole and each published entry is on one line iff the disk it meets heals and no drain started on a disk whose last row was that of a listed entry that is not first |
| AuditReading.LineSaysRecord | src/tybot/audit.py:97-110 | from the line of any record its row can be read back, and from an entry's also the entry's name and the row's number in it |
| AuditReading.SameLineSameRecord | src/tybot/audit.py:97-110 | two direct rows, or two entries' rows, share a line only if they are the same record |
| AuditReading.LiveRowsDiffer | src/tybot/audit.py:348-349 | two locked appends leave the same file iff they wrote the same row |
| AuditReading.LogReadsBack | src/tybot/audit.py:113-166 | with names in order and drains dying anywhere, the log read line by line after one complete drain gives the old lines and then every record, row for row, in order |
| AuditReading.EveryRecordIsRead | src/tybot/audit.py:97-225 | in every interleaving of entries of any shape and order: a finished, unexpired record can be read from a line of the file, or is in a published entry, or was written directly behind a torn row |
| AuditReading.NothingIsLost | src/tybot/audit.py:40-53 | with no assumption on rows and names: it can be read from bytes of the file that end at a line break, or is in a published entry |
| AuditReading.OwedIsRead | src/tybot/audit.py:64-94 | with names in order, after one more drain every record owed can be read from a line, and every line is an old one or says a record |
| Backfill.ChannelBackfill.Save | scripts/backfill_channel_history.py:132-139 | the checkpoint on disk is replaced as a whole or not at all; after a failing save another channel's may write the state in memory |
| Backfill.ChannelBackfill.Ingest | scripts/backfill_channel_history.py:186-222 | all events are archived, or a death leaves only some of them |
| Backfill.ChannelBackfill.ThreadMessages | scripts/backfill_channel_history.py:160-183 | page by page exactly the accepted replies other than the parent |
| Backfill.ChannelBackfill.RetryPending | scripts/backfill_channel_history.py:360-373 | from any saved state, with threads that cannot be read, ingests that raise half-way and are retried later, and stops: how many retries are on disk, which threads are archived, which stay pending, and that nothing but replies of pending threads was added |
| Backfill.ChannelBackfill.CollectPage | scripts/backfill_channel_history.py:396-407 | a page brings in its accepted messages and readable threads and leaves the others pending |
| Backfill.ChannelBackfill.Turn | scripts/backfill_channel_history.py:375-417 | from any saved state: one whole turn - the page archived, the bound moved behind it, the unreadable threads pending - or a stop before its save |
| Backfill.ChannelBackfill.HistoryLoop | scripts/backfill_channel_history.py:375-417 | the loop terminates and does whole turns, the last one possibly stopped; its counter is the number of pages read, and it ends only with the history complete, at `max_pages`, or when the process stops |
| Backfill.ChannelBackfill.Run | scripts/backfill_channel_history.py:356-417 | from any saved state and stopping anywhere, a session of the model with just the threads and ingests failing that were said to; not stopped, it goes as far as its page limit allows, and counts as failures what it leaves pending |
| Backfill.NextStart | scripts/backfill_channel_history.py:376-382 | the bound saved after a page stands exactly behind that page |
| Backfill.TurnKeepsMessages | scripts/backfill_channel_history.py:391-417 | moving the bound behind an archived page keeps every accepted message in range archived, whatever became of threads before |
| Backfill.TurnKeepsThreads | scripts/backfill_channel_history.py:398-417 | and, where that held, every thread in range archived or pending |
| Backfill.RunGoesFurther | scripts/backfill_channel_history.py:375-417 | no session moves the checkpoint back |
| BackfillPages.SessionReads | scripts/backfill_channel_history.py:375-417 | a session that is not stopped completes the history iff the messages below the bound fit its pages of fifteen, else moves the bound behind exactly fifteen times its page limit of them; the pages counted are those read |
| BackfillPages.StagesComplete | scripts/backfill_channel_history.py:375-417 | repeated with the same page limit, the session in which the pages allowed come to the length of the history completes it, and none before |
| BackfillPages.OnlyPeopleAreArchived | scripts/backfill_channel_history.py:155-157 | whatever stopped and however often: only what people wrote, shared files included, is archived, and once the history is complete all of it that stands at top level |
| BackfillPages.RetriedInOrder | scripts/backfill_channel_history.py:360-362 | pending parents are retried once each, in the order in which they were recorded first |
| Backfill.ChainCovers | scripts/backfill_channel_history.py:356-417 | after any sequence of sessions and restarts, stopped anywhere, in the retry loop too: every accepted message at or above the saved bound is archived and nothing foreign is |
| Backfill.RunKeepsThreadsIff | scripts/backfill_channel_history.py:356-417 | a session keeps account of every thread iff it did not stop among the retries, or the threads not yet retried were archived anyway |
| Backfill.ChainKeepsThreads | scripts/backfill_channel_history.py:356-417 | from the first or any restarted session on, sessions without such a loss leave every thread in range archived or pending |
| Backfill.ChainKeepsThreadsIff | scripts/backfill_channel_history.py:356-417 | all checkpoints of a chain account for every thread iff no session of it lost any |
| Backfill.CompleteMeansAllMessages | scripts/backfill_channel_history.py:375-417 | once `history_complete` is saved the archive holds exactly the accepted messages of the history |
| Backfill.SameAsOnePass | scripts/backfill_channel_history.py:375-417 | and so the same ones as any other complete run, one uninterrupted pass included |
| Backfill.NothingPendingMeansEverything | scripts/backfill_channel_history.py:360-417 | complete with nothing pending and no loss since the start or a restart: messages and threads are all there, and nothing else |
| Backfill.RetryDeathKeepsThreadsIff | scripts/backfill_channel_history.py:360-373 | after a stop in the retry loop the threads are still covered iff those not yet retried were archived already |
| Backfill.RetryDeathLosesAThread | scripts/backfill_channel_history.py:360-373 | a session that loses a thread that way |
| TableSplitter.SplitLargeTables | src/tybot/canvas_answer.py:125-154 | the index and cursor loop computes: parse into tables and lines, split each table, write out |
| TableSplitter.EmitChunks | src/tybot/canvas_answer.py:149-152 | the inner loop writes the chunks with header, separator and a blank line between |
| TableSplitter.ParseFaithful | src/tybot/canvas_answer.py:129-141 | the blocks found are the text, and each reads back as itself |
| TableSplitter.OutputParses | src/tybot/canvas_answer.py:149-152 | the output parses into exactly the tables that were written |
| TableSplitter.EveryTableWithinLimit | src/tybot/canvas_answer.py:142-152 | every table in the output with at most 150 columns has (rows + 1) * columns at most 300 |
| TableSplitter.NoTableTooMany | src/tybot/canvas_answer.py:142-152 | a table is left alone iff it fits or has more than 150 columns, and of the tables made of another each but the last is full: one more row would exceed 300 cells |
| TableSplitter.ChunksKeepRows | src/tybot/canvas_answer.py:149-152 | the chunks' rows concatenate to the table's rows, under the same header and separator |
| TableSplitter.EveryBlockKept | src/tybot/canvas_answer.py:125-154 | lines outside tables are verbatim, a table's rows are all there in order, and everything keeps its place |
| TableSplitter.Idempotent | src/tybot/canvas_answer.py:125-154 | a second pass over the lines changes nothing |
| TableSplitter.TextIdempotentIff | src/tybot/canvas_answer.py:127-154 | on whole texts, cut at every break `splitlines` knows, it changes nothing iff the text does not end in a blank line behind another line |
| TableSplitter.SplitAtBreak | src/tybot/canvas_answer.py:127-127 | a break ends a line: one character, or a carriage return with its line feed |
| TableSplitter.LosesBlankLine | src/tybot/canvas_answer.py:127-154 | a text of two blank line ends that loses one the second time |
| Decimals.RoundedExactIff | src/tybot/canvas_harness.py:216-219 | the context's rounding is exact iff the digits before the trailing zeros number at most 28 |
| Decimals.RoundedIsNearest | src/tybot/canvas_harness.py:216-219 | what it drops is at most half a unit of the last of 28 digits, the sign stays, and a number of 28 digits is not touched |
| Decimals.HalfEvenNearest | src/tybot/canvas_harness.py:216-219 | the nearest multiple of the unit, and of two the one with an even digit |
| Decimals.OverIs | src/tybot/canvas_harness.py:225-228 | the division algorithm's quotient by a unit is the amount's own coefficient, shorn of up to as many zeros as the unit has |
| DecimalText.StrReadsBack | src/tybot/canvas_harness.py:269-276 | `Decimal(str(d))` is `d`, exponent notation included |
| DecimalText.GroupedInThrees | src/tybot/canvas_harness.py:252-253 | a comma before every third digit from the right and nowhere else |
| Money.ParsedExactlyIff | src/tybot/canvas_harness.py:213-219 | the conversion to won is exact iff the number has at most 28 significant digits |
| Money.TwentyNineDigits | src/tybot/canvas_harness.py:213-219 | an amount of twenty-nine digits is read as another one |
| Money.ExactInMeans | src/tybot/canvas_harness.py:225-228 | `_exact_in` holds iff the amount is a whole number of units, or was written with at most two places and is a whole number of hundredths |
| Money.ThreePlaces | src/tybot/canvas_harness.py:225-228 | an amount with three places is exact in no unit |
| MoneyText.ReadIffWritten | src/tybot/canvas_harness.py:183-222 | a text is an amount iff without its spaces it is a sign, a number with a digit in it, and one of eight units; the amount is all its digits, as many places as are written, times 1 to 100,000,000 won, negated by either minus sign, rounded to 28 digits |
| MoneyText.SignNegates | src/tybot/canvas_harness.py:220-221 | a minus sign in front negates what the rest reads as |
| MoneyText.PrintedIsRead | src/tybot/canvas_harness.py:194-253 | an amount printed in any unit and read again is the same amount, negative or not, with places or without |
| MoneyText.CheckAcceptsIff | src/tybot/canvas_harness.py:317-322 | the check accepts the display of an amount for a text iff the text states that amount |
| Money.SmallerIsExactToo | src/tybot/canvas_harness.py:231-244 | smaller units are exact whenever a larger one is |
| Money.CommonUnitIsLargest | src/tybot/canvas_harness.py:231-244 | without a usable preference: the largest unit exact for every value, or won when no unit is |
| Money.MoneyRoundTrip | src/tybot/canvas_harness.py:247-253 | the text without commas times the unit is the amount again, exactly and as the context computes it, for every amount of 28 digits and every unit |
| Money.ExactShowsTwoPlaces | src/tybot/canvas_harness.py:225-253 | an amount exact in its unit is shown with at most two places |
| Percent.PercentDecimals | src/tybot/canvas_harness.py:280-291 | the loop finds the column's places |
| Percent.MaxPlacesIsMax | src/tybot/canvas_harness.py:280-291 | they bound every readable cell's and are one cell's |
| Percent.PercentKeepsValue | src/tybot/canvas_harness.py:260-277 | a percent cell is shown with the value it was written with, whatever the column's places |
| PercentText.PercentIffWritten | src/tybot/canvas_harness.py:257-277 | a cell is a readable percentage iff its words are a sign, a number with a digit in it, and a percent sign, and it stands for all its digits, negated by either minus sign |
| PercentText.ShownIsStated | src/tybot/canvas_harness.py:260-277 | what is shown for it, whatever the column's places, reads as that number |
| PercentText.PercentStatusIs | src/tybot/canvas_harness.py:260-277 | a percentage counts as converted iff zeros were added, and is marked iff it has no digit |
| PercentText.OtherTextIsKept | src/tybot/canvas_harness.py:260-267 | any other text is kept, or shown as a dash if it is empty |
| Percent.ColumnPlacesIff | src/tybot/canvas_harness.py:260-291 | all percentages of a column are shown with the column's places iff every U+2212 cell with places is matched by a cell not signed so with at least as many |
| Percent.LonelyOddMinus | src/tybot/canvas_harness.py:280-291 | a column of one such cell gets no places while its cell has one |
| PercentCheck.PercentPassesIff | src/tybot/canvas_harness.py:341-346 | a readable percent cell passes `verify` iff it is not shown with an exponent and its number has no zero too many in front, or is zero throughout |
| TableRows.RowReadsBack | src/tybot/canvas_harness.py:359-362 | a rendered row reads back as exactly the cells it was rendered from, escaped pipes included |
| TableRows.CellsAreClean | src/tybot/canvas_harness.py:359-362 | the cells read from any line hold no bare pipe and no outer space |
| TableText.BareRowReads | src/tybot/canvas_harness.py:359-362 | a row reads as its cells with its outer bars or without, and with any spaces around it |
| TableText.OuterBarsDoNotCount | src/tybot/canvas_harness.py:359-362 | all the bars at both ends are passed over, however many |
| TableText.RowIffPipe | src/tybot/canvas_answer.py:136-139 | a line continues a table iff it has a pipe |
| TableText.SeparatorCellIs | src/tybot/canvas_harness.py:355-355 | a separator's cell is three or more dashes with a colon before or behind them or not |
| TableText.WordsJoined | src/tybot/canvas_harness.py:205-206 | joining the words of a text leaves one space between them and none outside |
| Harness.SameNumberMeans | src/tybot/canvas_harness.py:317-322 | the comparison of decimals is equality of the numbers |
| Harness.FormatColumn | src/tybot/canvas_harness.py:395-443 | the heading and, cell by cell, the cells of the column's plan |
| Harness.ApplyTable | src/tybot/canvas_harness.py:446-480 | no problem iff every row is as wide as the header and every cell verifies; then the formatted table and its counts, else the lines unchanged |
| HarnessFacts.MoneyCellVerifies | src/tybot/canvas_harness.py:299-322 | every cell of a money column passes `verify` |
| HarnessFacts.MoneyPlanHasUnit | src/tybot/canvas_harness.py:402-407 | a money column always finds a unit, so its early return is never taken |
| HarnessFacts.HeadingNamesUnit | src/tybot/canvas_harness.py:416-418 | the heading of a money column names its unit |
| HarnessColumns.HeadingsReadBack | src/tybot/canvas_harness.py:416-418 | read back, a heading of a rewritten table is the old one, with the unit behind it if it is a money column's and did not name it |
| HarnessColumns.KindIs | src/tybot/canvas_harness.py:370-392 | a column is of the first of the four kinds that more than half of its filled cells are of, else text |
| HarnessColumns.ColumnUnitIs | src/tybot/canvas_harness.py:402-407 | a money column is shown in the unit asked for if all its amounts are exact in it, else in the largest unit of which that is true, else in won |
| HarnessColumns.CountsAreCells | src/tybot/canvas_harness.py:474-480 | the counts of a rewritten table are the numbers of its cells with that status |
| HarnessColumns.CellStatusIs | src/tybot/canvas_harness.py:395-443 | a money cell is converted iff its amount could be read; a cell of another column has its formatter's status |
| HarnessFacts.FallbackOnlyFrom | src/tybot/canvas_harness.py:446-480 | a table falls back only for a ragged row or a percent, date or period cell |
| HarnessPasses.TablePassesIff | src/tybot/canvas_harness.py:446-480 | with the module's own formats a table is rewritten iff every row is as wide as the header, every readable percent cell is shown without an exponent and was written without an extra zero in front, and every date and period cell keeps its numbers |
| HarnessFacts.VerifiedCellSaysTheSame | src/tybot/canvas_harness.py:299-347 | a verified cell has the same amount, percentage or numbers as its text, or the same text |
| HarnessFacts.RowsReadBack | src/tybot/canvas_harness.py:477-480 | each rewritten row reads back as the cells that were rendered |
| HarnessFacts.TableKeepsFacts | src/tybot/canvas_harness.py:446-480 | a rewritten table keeps its lines, columns and separator, and each cell read back says the same as the cell that was there |
| HarnessAnswer.Apply | src/tybot/canvas_harness.py:483-535 | the loop terminates and gives the lines with each table replaced by its result, the sums of the counts, one note per failing table, and the footer |
| HarnessAnswer.OtherLinesVerbatim | src/tybot/canvas_harness.py:489-520 | the line count is kept; lines outside tables, and all lines without a pipe, are verbatim on their own line numbers |
| HarnessAnswer.FooterTells | src/tybot/canvas_harness.py:521-535 | the footer gives the number of unresolved cells if there are any, and the note on conversion if a unit was asked for |
| Dates.SeparatorAt | src/tybot/canvas_harness.py:135-139 | a period separator stays within the text and does not end in a backslash |
| DatesFacts.DateIsClean | src/tybot/canvas_harness.py:99-129 | a formatted date is not empty and holds no bare pipe and no outer space |
| DatesFacts.PeriodIsClean | src/tybot/canvas_harness.py:142-166 | neither does a formatted period |
| DatesFacts.FullDateIsIso | src/tybot/canvas_harness.py:110-126 | a full date, or a short one whose century is known, is shown as `yyyy-mm-dd` |
| DatesText.FullDateIsShown | src/tybot/canvas_harness.py:88-112 | year, month and day with any of their separators and spaces are shown as the year and two digits each |
| DatesText.ShortDateIsShown | src/tybot/canvas_harness.py:91-129 | a two-digit year is completed from a hint of four digits that ends in it, and otherwise the text is kept and marked |
| DatesText.MonthEndIsShown | src/tybot/canvas_harness.py:94-117 | the end of a month keeps its word |
| DatesText.WeekIsShown | src/tybot/canvas_harness.py:95-119 | a week of a month keeps its number and its word |
| DatesText.MonthIsShown | src/tybot/canvas_harness.py:96-121 | a month alone gets no day |
| DatesText.DayShapeIsWritten | src/tybot/canvas_harness.py:88-93 | and no other text is taken for a day |
| DatesText.EndShapeIsWritten | src/tybot/canvas_harness.py:94-94 | nor for the end of a month |
| DatesText.WeekShapeIsWritten | src/tybot/canvas_harness.py:95-95 | nor for a week |
| DatesText.MonthShapeIsWritten | src/tybot/canvas_harness.py:96-96 | nor for a month |
| DatesText.ShortYearIff | src/tybot/canvas_harness.py:431-436 | the mark of a short year is two digits with no third in front and a date separator right behind |
| DatesText.CenturyMarkIff | src/tybot/canvas_harness.py:428-442 | a cell is taken for one whose century was added iff there is a hint, a conversion, such a mark in the text, and the hint in what is shown |
| PeriodsText.PeriodIsShown | src/tybot/canvas_harness.py:135-166 | two dates with a tilde, a dash, a word or a hyphen between them are shown one after the other, joined in one way; hyphens inside a date do not count |
| PeriodsText.ConditionIsKept | src/tybot/canvas_harness.py:142-166 | a condition in brackets behind them is kept as it is |
| PeriodsText.ThreeParts | src/tybot/canvas_harness.py:135-166 | three dates with words between them are three parts and no period |
| PeriodsText.MissingSideIsKept | src/tybot/canvas_harness.py:142-166 | a side that is missing is not filled in: the text is kept and marked |
| DatesFacts.FormatsKeepClean | src/tybot/canvas_harness.py:99-166 | so the module's formatters meet what the table theorems ask of formatters |
| DatesNumbers.DateKeepsNumbersIff | src/tybot/canvas_harness.py:99-129 | a converted date shows its text's numbers one for one, a two-digit year with its century, iff no two were written without a gap |
| DatesNumbers.DateCellPassesIff | src/tybot/canvas_harness.py:324-347 | a date cell passes `verify` iff it is not converted, or no two numbers were written without a gap and, for a two-digit year, some number of two digits alone stands right before a separator or the century adds nothing |
| DatesNumbers.PeriodIsItsDates | src/tybot/canvas_harness.py:142-166 | a converted period has the numbers of its two parts and its condition, in the text and, through the two dates, in what is shown |
| DatesNumbers.PeriodCellPassesIff | src/tybot/canvas_harness.py:324-347 | a period cell passes `verify` iff it is not converted, or neither date ran two numbers together and, if a year was given its century, some number of two digits alone stands right before a separator anywhere in the text - one mark for both dates - or the centuries add nothing |
| DatesNumbers.GluedMonthEnd | src/tybot/canvas_harness.py:95-115 | `202608월말` is converted, and its cell fails |
| Snapshot.SnapshotDigest | scripts/archive_layout_convert.py:374-381 | the loop feeds the hash the encoding of the sorted files |
| Snapshot.EncodingDecodes | scripts/archive_layout_convert.py:377-381 | the bytes decode to the paths and file hashes they were made from |
| Snapshot.PathsAscend | scripts/archive_layout_convert.py:374-376 | the files are fed in the order of their paths |
| Snapshot.SnapshotPinned | scripts/archive_layout_convert.py:351-381 | two sets of files give the same bytes iff they are the same files, in whatever order they are given |
| Layouts.EmitB | scripts/archive_layout_convert.py:639-667 | one file for each day with messages, in order, undated ones in front of the earliest, the header counting its lines; the epoch when no message has a day |
| Layouts.LayoutIsStableSort | scripts/archive_layout_convert.py:639-667 | each message is in one file, and the files in date order are the stable sort by day, undated first |
| Layouts.StableSortIsUnique | scripts/archive_layout_convert.py:646-658 | there is only one such order |
| Layouts.LayoutsAgreeIff | scripts/archive_layout_convert.py:619-667 | it is the one-file layout's order iff the messages already were in it |
| Layouts.LayoutsDiffer | scripts/archive_layout_convert.py:619-667 | two messages in the wrong order, which the two layouts keep in different orders |
| Layouts.CountsAddUp | scripts/archive_layout_convert.py:486-516 | the counts in the headers add up to the number of messages, and the messages are the same multiset |
| Layouts.CheckUniqueIds | scripts/archive_layout_convert.py:677-703 | one clash for every channel whose place an earlier one has, naming the place, the first channel there and this one |
| Layouts.GateOpensIff | scripts/archive_layout_convert.py:677-703 | the gate lets a batch through iff no two of its channels share workspace and ID |
| PfParser.Parse | scripts/archive_layout_convert.py:389-459 | the line loop gives the messages, the dropped count and the name that the document's lines define |
| PfParser.OneMessagePerHeader | scripts/archive_layout_convert.py:434-441 | one message for each header outside derived sections, with strictly increasing source lines |
| PfParser.MessageIsItsLines | scripts/archive_layout_convert.py:442-451 | a message's body and attachments are its own lines in order, each in one of the two |
| PfParser.TextIsItsLines | scripts/archive_layout_convert.py:399-413 | in every message the parser returns, the text is all its text lines, trimmed, in order, one space between them and nothing else, and the attachments are all the files its lines name |
| PfParser.EveryLineInOneMessage | scripts/archive_layout_convert.py:418-459 | message by message these are all the kept lines of the document in order: each goes into exactly one message |
| PfParser.OnlyOneOpen | scripts/archive_layout_convert.py:400-416 | at most one message is open at a line |
| PfParser.DerivedIsNotKept | scripts/archive_layout_convert.py:422-432 | no line of a derived section reaches any message |
| Retired.RetiredChannels.Read | src/tybot/channel_lifecycle.py:130-152 | the cached rows are the file's rows |
| Retired.RetiredChannels.Write | src/tybot/channel_lifecycle.py:178-192 | the file is replaced or left, and the cache never goes stale, even if the file's stamp does not change |
| Retired.RetiredChannels.Mark | src/tybot/channel_lifecycle.py:195-217 | an unknown reason is an error; otherwise the rows matching the channel are replaced by the new one at the end, when the arguments are acceptable and the disk takes it |
| Retired.RetiredChannels.Restore | src/tybot/channel_lifecycle.py:220-229 | exactly the matching rows go; true iff some did and the disk took it |
| Retired.RetiredChannels.ReadRegistry | src/tybot/channel_lifecycle.py:155-175 | both indexes, filled row by row |
| Retired.HistoriesAreUnique | src/tybot/channel_lifecycle.py:195-237 | over any history of marks and restores no two rows of a workspace share a non-empty ID or name |
| Retired.RowsAreSurvivors | src/tybot/channel_lifecycle.py:195-237 | the rows are exactly the marks that no later operation has matched |
| Retired.ByIdIs | src/tybot/channel_lifecycle.py:155-175 | the ID index answers for exactly the IDs that have a row, with such a row |
| Retired.FoundIffStillMarked | src/tybot/channel_lifecycle.py:103-115 | `find` on a real ID succeeds iff some mark of it has no later operation matching that ID or that mark's name |
| RetiredFrames.FindGives | src/tybot/channel_lifecycle.py:103-115 | after any history a lookup gives a row iff it is the mark of that ID - or, for a channel without a Slack ID, of that name - that nothing later has touched |
| RetiredFrames.OtherWorkspaceUnchanged | src/tybot/channel_lifecycle.py:195-237 | an operation changes no row of another workspace |
| RetiredFrames.OwnWorkspaceAfter | src/tybot/channel_lifecycle.py:195-237 | in its own it removes exactly the rows that share its ID or its name, and a mark adds its row |
| RetiredFrames.WorkspacesAreApart | src/tybot/channel_lifecycle.py:195-237 | each workspace's rows are what its own operations alone would have left |
| RetiredFrames.ReasonIsKept | src/tybot/channel_lifecycle.py:195-205 | the two known reasons are recorded as given, and no other is taken |
| Retired.AllListsEachRowOnce | src/tybot/channel_lifecycle.py:117-123 | the listing holds every row of the workspace once |
| Reconcile.RunReconcile | src/tybot/channel_lifecycle.py:268-305 | the loop over the known channels and its report; nothing changes when Slack does not answer |
| Reconcile.RowsAfterReconcile | src/tybot/channel_lifecycle.py:287-304 | the rows afterwards are those of the start and those a turn recorded that no later acting turn matched; whether a turn acts depends on the registry at the start |
| Reconcile.FoundAfterIff | src/tybot/channel_lifecycle.py:287-304 | so a real ID is found iff such a row of it exists, whatever names are shared and whichever writes fail |
| Reconcile.ArchivedIsKeptIff | src/tybot/channel_lifecycle.py:232-303 | a channel archived in Slack is recorded afterwards iff no acting turn matched the record it had, or, if it had none, one of its turns wrote one that none matched later |
| Reconcile.LiveIsCleared | src/tybot/channel_lifecycle.py:302-304 | a channel live in Slack has no record afterwards, shared names or not |
| Reconcile.ReconcileSettles | src/tybot/channel_lifecycle.py:268-305 | with distinct real IDs and names, no shared names and writes that succeed: a channel in the list is retired iff archived, an absent one as before |
| Reconcile.NeverAddsDeleted | src/tybot/channel_lifecycle.py:275-301 | whatever happens, a row it adds is an archived one of a known channel |
| RetiredFrames.ReconcileKeepsOthers | src/tybot/channel_lifecycle.py:287-304 | a reconciliation changes no row of another workspace |
| Reconcile.RepeatDoesNothing | src/tybot/channel_lifecycle.py:268-305 | repeated with the same list it changes and reports nothing |
| Reconcile.SharedNameLosesTheFirst | src/tybot/channel_lifecycle.py:232-237 | two known channels of one name: the second mark removes the first |
| Evidence.HitsSorted | src/tybot/answer.py:930-930 | a group's order: by stamp and line, every hit kept, tied hits as they were |
| Evidence.BlocksFromHits | src/tybot/answer.py:916-953 | the loop builds one part per channel in order of first appearance, all their citations, and the number of lines |
| Evidence.PartHoldsItsChannel | src/tybot/answer.py:924-930 | a part holds exactly its channel's hits, as often as given, in order |
| Evidence.EveryHitInOnePart | src/tybot/answer.py:916-953 | every hit is in exactly one part and the count is the number of hits |
| Evidence.CitedOnce | src/tybot/answer.py:938-951 | each citation of a part is given once, and every hit's is among them |
| Evidence.CitationsNameHits | src/tybot/answer.py:938-951 | a citation names a hit's channel, file and day, and its workspace if that is another one; every hit is named |
| Evidence.BlockShowsHits | src/tybot/answer.py:931-935 | the block of a part names its channel and then has a line for every hit of the part, in order, and nothing else |
| Evidence.JoinHasBlocks | src/tybot/answer.py:1435-1445 | the blocks sent stand in order with a blank line between them, and nothing else does |
| Evidence.Pack | src/tybot/answer.py:1428-1451 | the running length is the length of the joined blocks; blocks, hits and citations are exactly those of the chosen parts |
| Evidence.WithinBudget | src/tybot/answer.py:1435-1445 | what is sent is an in-order subsequence and never exceeds the budget |
| Evidence.SentOrOmitted | src/tybot/answer.py:1435-1445 | every part is sent or counted as omitted, never both |
| Evidence.OmittedDoesNotFit | src/tybot/answer.py:1437-1440 | an omitted part did not fit when considered, nor would it at the end |
| Evidence.WithSeed | src/tybot/answer.py:1967-1979 | attached lines in front, one hit for each place not there yet; without attached lines the hits as they are |
| Evidence.MergedKeepsAll | src/tybot/answer.py:1967-1979 | attached lines come first, every hit's place is there, and no added line repeats one |
| Evidence.MergedIs | src/tybot/answer.py:1967-1979 | behind the attached lines come exactly the hits whose file and line number no attached line and no earlier hit has, in their order |
| Evidence.MergedOnceIff | src/tybot/answer.py:1967-1979 | the result is free of repeats iff the attached lines are or, without any, the hits |
| Evidence.RepeatsStay | src/tybot/answer.py:1967-1979 | one line found twice and one attached twice stay twice |

## Left out

- I/O plumbing: Slack, PostgreSQL, HTTP, model calls, the command lines, the console and logging.
- JSON encoding of spilled rows.
- Entries of several rows are outside the theorems that count lines, though not those of `AuditLines`; both writers write one row (src/tybot/audit.py:348-349, src/tybot/feedback.py:104-105).
- AuditProtocol.NoRecordIsLost: promises the bytes of the row, which may stand behind a torn row. That they are a line of their own is `AuditLines.EveryRecordIsALine`, which needs names given once and rows that do not end like an entry's.
- AuditProtocol.NoRecordIsLostFromStart: the same.
- AuditProtocol.RewriteKeeps: the same.
- The backfill's canvas and file lists, pacing and rate limits, the retention-limit flag and the statistics; time stamps are numbers, where the code compares their strings.
- Digits are the ASCII ones, though `\d` and `Decimal` also take other scripts' digits; the exponent limits of `Decimal` and the interpreter's limit on very long integers are not modelled.
- Cells of the harness do not hold the marker characters that stand in for an escaped pipe.
- `HarnessCell` keeps neither the field name nor the source ID, and `apply` takes the century hint and the lines as given, not the body they come from.
- The patterns that give a line of the channel parser its shape; they exclude one another, and the model starts from the shapes. Trimming of titles and speakers belongs to them.
- The file text of the layouts (front matter, rendered lines), path names and slugs, provenance sidecars, `tally` and `verify`, which compare what another reader gives back.
- Display order of the registry listing; concurrent marks and restores, which nothing serialises; `_live_channels`.
- An unreadable registry file counts as an empty one, as in the code, so a mark then replaces it; rows whose reason is not known, which the registry skips, are not in the model.
- `_with_omitted`, `_with_coverage` and the attachment links added to the citations are text assembly.
- Coverage and attachment notes are appended after packing, so the text the specialist gets can be longer than the budget; its adapter cuts it.
