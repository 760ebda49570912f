# SF6 battle-log scraper: verified model of its core

The scraper downloads the battle log of one Street Fighter 6 player (identified
by their `short_id`, the "player SID"). It turns every replay on every page that
downloaded successfully into one row about the main player (the one whose SID
was asked for) and their opponent. Then it merges those rows into the saved
match table: the table and the batch are concatenated, duplicate rows are
dropped, the rows are sorted by upload time, newest first, and the number of
new matches is reported.

The model has five modules:

- `Records` (`records.dfy`): the replay as the battle-log JSON delivers it
  (`Player`, `PlayerInfo`, `Replay`), and the normalised row (`Side`, `Row`).
  Optional JSON keys read with `.get(..., None)` are `Option<int>`.
- `Normalizer` (`normalizer.dfy`): the per-replay normaliser. The score is the
  number of rounds with a positive result. The main player is participant 1
  exactly when participant 1's `short_id` equals the SID. `match_won` and
  `left_side` are stored as 0/1 integers. The opposite side's
  `mr_ranking` and `league_rank` are copied from the MAIN participant, as
  the code does.
- `Accumulator` (`accumulator.dfy`): the loop over pages and replays that
  appends one cell per column to 25 parallel column lists. A page whose
  response is not ok (`None`) is skipped. `Frame` models building the data
  frame from those lists by reading the columns back into rows. Like
  `pd.DataFrame`, it fails when the lists have different lengths. It also
  fails when a column is missing or a cell has the wrong kind. Those two
  cases come from the model's typed decoding of cells: pandas would build
  fewer columns or an object column instead. `CollectMatches` never produces
  such a table (`Accumulator.FrameOfTabulate`).
- `Merger` (`merger.dfy`): concatenating the saved table with the batch,
  `drop_duplicates` (keep the first copy), sorting on `uploaded_at` in
  descending order, and `new_match_retrieved = len(merged) - len(saved)`.
- `Pipeline` (`pipeline.dfy`): the whole run, from pages to the merged table
  and the new-match count.

`Wrappers` (`wrappers.dfy`) holds the `Option` type.

## Behaviour of the code the model keeps

- The column dictionary has 25 keys: 10 for each side plus 5 shared ones
  (lines 97-125). `Accumulator.ColumnCount` states the number.
- Only a response that is not ok is skipped (lines 140-143). A body that is
  not valid JSON raises (line 146). A page is therefore either a list of
  replays or a failed response.
- When neither participant has the requested SID, the code does not fail: the
  main player is participant 2 (lines 155-158). The model does the same. The
  "main player is the requested player" guarantee in
  `Normalizer.NormalizeMeaning` is therefore stated only when exactly one
  participant matches.

## Model

| member | source | states |
|---|---|---|
| Normalizer.Score | sf6_match_collection.py:160-161 | a side's score never exceeds the number of rounds played |
| Normalizer.Normalize | sf6_match_collection.py:152-190 | the row of one replay; its contract is carried by `Normalizer.NormalizeMeaning` and `Normalizer.SwappingParticipantsFlipsOnlyLeftSide` |
| Normalizer.ScoreCountsWonRounds | sf6_match_collection.py:160-161 | the score equals the number of round indices whose result is positive |
| Normalizer.ScoreExtremes | sf6_match_collection.py:160-161 | the score is 0 exactly when no round result is positive, and equals the round count exactly when every result is positive |
| Normalizer.ScoreExamples | sf6_match_collection.py:160-161 | rounds [1,0,1] score 2 and rounds [0,0] score 0 |
| Normalizer.NormalizeMeaning | sf6_match_collection.py:152-218 | left_side is 1 iff participant 1 has the requested SID. The main side describes that participant and the opposite side the other one (name, SID, character, won-round count, MR, LP, input type, platform). With exactly one matching participant, main has the requested SID and the opponent does not. match_won is 1 iff main scored strictly more rounds. Both sides carry the main participant's MR ranking and league rank. Time, replay id and battle type are copied |
| Normalizer.SwappingParticipantsFlipsOnlyLeftSide | sf6_match_collection.py:155-158 | when exactly one participant is the requested player, swapping participants 1 and 2 changes only left_side, to 1 minus its old value |
| Accumulator.EmptyTable | sf6_match_collection.py:97-125 | the initial table has every one of the 25 columns, each empty |
| Accumulator.ColumnCount | sf6_match_collection.py:97-125 | the column dictionary has exactly 25 keys |
| Accumulator.AppendRow | sf6_match_collection.py:192-218 | appends one cell per column for a row; its contract is carried by `Accumulator.TabulateColumns` |
| Accumulator.Tabulate | sf6_match_collection.py:192-218 | the columns after appending a list of rows; its contract is carried by `Accumulator.TabulateColumns` and `Accumulator.FrameOfTabulate` |
| Accumulator.TabulateColumns | sf6_match_collection.py:192-218 | after appending n rows, every column holds n cells, and cell i of each column is row i's value for that column |
| Accumulator.SuccessfulReplays | sf6_match_collection.py:132-151 | the replays of the pages whose response was ok, in page order; its contract is carried by `Accumulator.SuccessfulReplaysAppend`, `Accumulator.FailedPageContributesNothing` and `Accumulator.AllPagesFailed` |
| Accumulator.FailedPageContributesNothing | sf6_match_collection.py:140-143 | inserting a failed page anywhere in the page list leaves the collected replays unchanged |
| Accumulator.AllPagesFailed | sf6_match_collection.py:132-143 | when every page fails, no replay is collected |
| Accumulator.SuccessfulReplaysAppend | sf6_match_collection.py:132-151 | replays are collected page by page in page order: the replays of two page lists joined are the two collections joined |
| Accumulator.NormalizeAll | sf6_match_collection.py:151-218 | one row per replay, in replay order, each the normalisation of its replay |
| Accumulator.NormalizeAllMembers | sf6_match_collection.py:151-218 | every replay's row is among the rows, and every row is the row of some replay |
| Accumulator.CollectMatches | sf6_match_collection.py:132-218 | the nested page/replay loop yields the column table of the rows of all successful pages' replays in order, with all columns of equal length |
| Accumulator.Frame | sf6_match_collection.py:220 | the data frame built from the columns; its contract is carried by `Accumulator.FrameOfTabulate` |
| Accumulator.FrameOfTabulate | sf6_match_collection.py:220 | building the data frame from the accumulated columns succeeds and gives back exactly the collected rows |
| Merger.DropDuplicates | sf6_match_collection.py:231 | the result has no repeated row and holds exactly the rows of the input |
| Merger.DropDuplicatesOfDistinct | sf6_match_collection.py:231 | a table that already has no repeated row is left unchanged |
| Merger.SortByUploadedAt | sf6_match_collection.py:231 | the result is ordered by uploaded_at, newest first, and is a permutation of the input |
| Merger.InsertByUploadedAt | sf6_match_collection.py:231 | inserting a row into a newest-first table keeps it newest first and adds exactly that row |
| Merger.DistinctCounts | sf6_match_collection.py:231 | a table has no repeated row iff each row occurs at most once in its multiset |
| Merger.Prior | sf6_match_collection.py:226 | the saved table, or the empty table when there is no saved file; its contract is carried by `Merger.Merge` |
| Merger.Merge | sf6_match_collection.py:226-233 | the merged table holds exactly the rows of the saved table and of the batch, without repeats, newest first. The new-match count is its length minus the saved table's |
| Merger.MergeAbsorbed | sf6_match_collection.py:226-233 | when every batch row is already in a repeat-free saved table, no new match is reported and the table keeps the same rows |
| Merger.RerunAddsNothing | sf6_match_collection.py:226-233 | merging the same batch a second time into the result reports zero new matches and keeps the same rows |
| Merger.MergeWithItself | sf6_match_collection.py:228-233 | merging a repeat-free table with itself reports zero new matches |
| Merger.MergeOrderIndependent | sf6_match_collection.py:228-231 | the merged rows do not depend on which of the two tables is the saved one |
| Pipeline.ScrapeMatches | sf6_match_collection.py:97-233 | the saved rows and the row of every replay on every successful page are in the final table. Every final row is a saved row or the row of such a replay. The table has no repeats and is newest first. The count is the growth of the table. Table and count are those of `Merger.Merge` applied to the saved table and the collected rows |
| Pipeline.AllPagesFailedKeepsTable | sf6_match_collection.py:132-233 | when every page fails, no new match is reported and the saved rows are kept |

## Left out

- Networking: the URL, the `headers.json` file, the session and the HTTP
  status (lines 89-94, 131-143) become the input list of pages. A failed
  response is `None`. The fixed range of ten pages (line 132) becomes a page
  list of any length.
- Body decoding: the ASCII decode, the removal of `[t]` and `json.loads`
  (lines 146-148). The model starts from parsed replays. A body that does not
  parse raises in the code, and that crash is not modelled.
- Timestamp conversion with `datetime.datetime.fromtimestamp` (line 223):
  `uploaded_at` stays the integer epoch time, and the model sorts and
  compares epoch integers. The code uses naive local time, which agrees
  except inside a repeated hour at a daylight-saving change. There an earlier
  epoch can map to a later wall-clock time, and two epochs an hour apart can
  map to equal values.
- The Excel file: its existence check, `read_excel` and `to_excel` (lines 83,
  86-87, 226, 236-239). The saved table is an input, `Option<seq<Row>>`,
  where `None` means no file. Type changes from an Excel round trip (dates,
  NaN for missing values, integer columns read as floats) are not modelled.
  A row read back from Excel is assumed to equal the row that was written.
- The prompt (`input`), the progress bar (`tqdm`) and the messages (`print`)
  at lines 87, 129, 132, 141-142 and 241-243.
- The `__main__` entry point and its hard-coded player SID.
- Merger.SortByUploadedAt: the order of rows with equal `uploaded_at` is not
  stated. `sort_values` uses an unstable sort by default, so the code does
  not fix that order either.
- Merger.Merge: because of that tie order, the contract fixes the merged
  table up to the order of equal timestamps, not position by position.
- Merger.DropDuplicates: the keep-first order of the surviving rows is not
  stated in its contract. The next step sorts the table, and
  `Merger.DropDuplicatesOfDistinct` covers the case where the order is kept.
