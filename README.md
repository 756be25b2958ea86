# Baseball scorebook: the at-bat scoring engine

This project models the batting-side scoring engine of a small baseball
scorebook web application (`app.py`) and proves properties of it. A game has
three parts:

- a log of at-bats, each with a store id, the batter, the batting slot
  (`order`), a result code, the inning, RBIs, a position and a note. Recording
  appends one at-bat; undo deletes the newest at-bat of one slot and inning,
  wherever it sits in the log;
- a batting order, with slots numbered from 0;
- a nullable team score.

The route handlers change this state one step at a time.

The model keeps that shape. `Scorebook.Game` is a class whose fields are the
log, the next fresh id, the lineup and the score. Its methods are:

- `SetBattingOrder` (set_batting_order);
- `RecordAtBat` (record_atbat, POST);
- `UndoAtBat` (undo_atbat);
- `SwitchPlayer` (switch_player, POST).

Each method returns the position (slot, inning) the handler redirects to.
`Game.Valid` is the invariant the methods keep:

- ids increase along the log and stay below the next fresh id;
- slot numbers are not negative;
- the lineup is numbered 0..n-1;
- the team score equals the sum of the positive RBI values in the log.

The pure parts are functions over sequences. Each has lemmas about it:

- the result→outs table and the outs of an inning (`Results`, `AtBatLog`);
- the current inning (`Innings`);
- the sort and renumbering of the batting order (`Lineup`);
- the box score (`BoxScore`).

The two loops of the source that fill a dictionary are `method`s with loop
invariants, each proved equal to its specification function:

- `Innings.CurrentInning` proves equal to `CurrentInningOf`;
- `BoxScore.StatsTable` proves equal to `StatsOf`.

Result codes are the datatype `Results.Result`. It covers the fourteen codes
the recording screen offers plus `Other(code)` for any other string, so an
unknown result counts no outs, no hit and one at-bat, as in the source.

Modules:

| file | module | models |
|---|---|---|
| options.dfy | Options | `Option` for nullable values and "no row" answers |
| results.dfy | Results | result codes, `OUT_RESULTS`, the box-score result classes |
| log.dfy | AtBatLog | at-bat and lineup records, sums over the log, "newest matching at-bat" |
| innings.dfy | Innings | `get_current_inning` |
| lineup.dfy | Lineup | the collecting, sorting and renumbering in `set_batting_order` |
| game.dfy | Scorebook, ScorebookClient | the game state and the four handlers; record-then-undo |
| boxscore.dfy | BoxScore | `get_stats_table` |

## Notes on the source's behaviour

- The box score falls back to 9 columns only when the log is empty. Otherwise
  it has exactly as many columns as the highest logged inning, which may be
  fewer than 9.
- Reaching 3 outs only moves the scorer to `inning + 1`, at the next slot.
- Innings and undo's slot reach the engine through integer URL segments,
  which cannot be negative, so they are `nat`. Record's slot also comes
  from a URL segment, but the model takes any integer there, so its clamp
  below zero is covered too. switch_player reads its slot from a form or query
  field with `int(...)`, which can be negative, and clamps it to 0.
- Inning 0 is still reachable by typing a URL. Then:
  - the current inning can be 0, so it is not always at least 1
    (`CurrentInningOf` says exactly when it is 0);
  - the box score puts inning 0 in the last column, through Python's negative
    index;
  - if every at-bat is in inning 0, the box score raises an index error.
    `StatsOf` answers `None` there, and `StatsShape` proves that this is the
    only way to get `None`.
- The box score adds every non-zero RBI value, negative ones included. The team
  score takes only positive ones. The two agree when no value is negative
  (`BoxScore.RbiTotalIsScore`).

## Model

| member | source | states |
|---|---|---|
| Results.FromCode | app.py:136 | Decoding a stored result string loses nothing: `Code(FromCode(s)) == s`. The result is canonical. It is `Other` exactly when the string is none of the fourteen codes. |
| Results.FromCodeOfCode | app.py:136 | Encoding a canonical result and decoding it gives the same result back. |
| Results.OutsOf | app.py:10-14 | `OUT_RESULTS.get(result, 0)`: a result makes outs exactly when its text is a key of the out table, and never more than 2. |
| Results.CountsAsAtBat | app.py:237 | For a canonical result: an official at-bat exactly when it is not a walk, a hit-by-pitch or a sacrifice. Unknown text counts. |
| Results.IsHit | app.py:240 | For a canonical result: a hit exactly when it is an infield hit, a single, a double, a triple or a home run. |
| Results.IsHomeRun | app.py:243 | For a canonical result: a home run exactly when it is 全壘. |
| Results.OutsOfOutcome | app.py:10 | The out table: 雙殺 makes 2 outs. 三振, 外飛, 內滾, 內飛 and 犧牲 make exactly 1. Every other result makes 0, unknown strings included. No result makes more than 2. |
| Results.HitClassesNested | app.py:237-245 | A home run is a hit, and a hit counts as an at-bat. |
| AtBatLog.Outs | app.py:12-15 | The outs of an inning, summed over its at-bats: 0 when no at-bat is in that inning, and at most 2 per at-bat. |
| AtBatLog.OutsMonotone | app.py:12-15 | Appending at-bats never lowers the outs of any inning. The count is unchanged when none of the new at-bats is in that inning. |
| AtBatLog.HitTalliesOrdered | app.py:237-245 | Over any list of at-bats, 0 ≤ home runs ≤ hits ≤ at-bats. |
| AtBatLog.RbiSumsAgree | app.py:246-248 | When no RBI value is negative, the box score's RBI sum equals the sum of positive RBIs the score takes. |
| AtBatLog.Newest | app.py:176-179 | "Filter, order by id descending, first": the answer is a matching at-bat whose id is at least that of every matching at-bat. It is `None` exactly when nothing matches. |
| AtBatLog.NewestIsAppended | app.py:176-179 | An at-bat appended with a fresh id is the newest match for every query it matches. |
| AtBatLog.RemoveKeepsIdsIncreasing | app.py:184 | Deleting one at-bat keeps the ids increasing along the log. |
| AtBatLog.SumRemove | app.py:183-184 | Deleting the at-bat at position i takes exactly its weight off any sum over the log. |
| Innings.MaxInning | app.py:25 | The highest inning is at least every logged inning and is the inning of some at-bat. |
| Innings.MaxKey | app.py:25 | `max(inning_outs.keys())`: the answer is a key of the map and no key is larger. `MaxKeyIsMaxInning` shows it is the highest logged inning. |
| Innings.CurrentInningOf | app.py:17-28 | The empty log gives 1. Otherwise the result is the highest inning while that inning has fewer than 3 outs, and the next inning once it has 3 or more. It is at least every logged inning, and it is 0 only when every at-bat is in inning 0. |
| Innings.CurrentInning | app.py:17-28 | The dictionary loop returns `CurrentInningOf(log)`. Its invariant says the dictionary holds exactly the logged innings, each mapped to its outs so far. |
| Innings.CurrentInningMonotone | app.py:17-28 | Appending an at-bat never moves the current inning backwards (except a first at-bat logged in inning 0). |
| Lineup.Collected | app.py:93-98 | The pairs collected from the form: no more than there are form rows, and each is (entered number − 1, player id) for a player whose field was filled in. |
| Lineup.Sort | app.py:99 | The collected (number−1, player id) pairs come out in tuple order, as a permutation of the input. |
| Lineup.InsertSorted | app.py:99 | Inserting a pair into a sorted list keeps it sorted. |
| Lineup.BuildLineup | app.py:91-104 | The new lineup is numbered 0..n-1 with no gaps. It has one slot per filled-in entry, in sorted pair order. Its player ids are a permutation of the ids whose field was filled in. |
| Lineup.LineupIsPermutationOfEntries | app.py:95-103 | A lineup that takes its player ids slot by slot from the sorted pairs holds every entered player exactly once, and no one else. |
| Lineup.PlayerIds | app.py:101-102 | The player ids of a lineup are listed slot by slot. |
| Scorebook.ClampSlot | app.py:131-134 | The clamped slot lies in [0, total) when the lineup is not empty. A slot already in range is kept. One past the end becomes total−1. A negative one becomes 0. |
| Scorebook.RecordInning | app.py:117-118 | The inning recorded in is the requested one. With none requested it is the current inning: 1 on an empty log, and never below a logged inning. |
| Scorebook.DefaultSlot | app.py:121-129 | The default slot is in [0, total). It is 0 in inning 1 or below, and when the previous inning has no at-bat. |
| Scorebook.RecordSlot | app.py:121-134 | The slot record_atbat bats always lies inside the lineup. |
| Scorebook.NextSlot | app.py:159-162 | The next slot is the following one, wrapping from the last slot to 0. It always lies inside the lineup. |
| Scorebook.PreviousSlot | app.py:186-189 | Undo goes back to order−1, or to the last slot (total−1) from slot 0. When order ≤ total, the result lies in [−1, total). |
| Scorebook.Game.Valid | app.py:144-156 | The invariant the handlers keep: ids increase and stay below the next fresh id, slots are numbered 0..n-1, and the score is the sum of the positive RBIs, so it is never negative. |
| Scorebook.Game.constructor | models.py:15 | A new game has no at-bats, no lineup and score 0 (add_game, app.py:40), and satisfies the invariant. |
| Scorebook.Game.SetBattingOrder | app.py:91-108 | The lineup is replaced by the one built from the form. The log and the score are untouched. The invariant is kept. The scorer goes to slot 0 of inning 1. |
| Scorebook.Game.RecordAtBat | app.py:114-162 | With no lineup nothing changes and the answer is "set the lineup first". Otherwise:<br>• exactly one at-bat is appended, for the chosen slot's player, in the requested or current inning, with the fresh id;<br>• a positive RBI value is added to the score, a missing score counting as 0;<br>• the inning's outs do not decrease;<br>• the next position is the following slot, in inning+1 exactly when the inning now has 3 or more outs;<br>• the invariant, including score = sum of positive RBIs, is kept. |
| Scorebook.Game.Append | app.py:144-156 | The at-bat is stored with the fresh id. The score takes its positive RBIs. The invariant is kept. |
| Scorebook.Game.ChooseSlot | app.py:121-134 | The handler's step-by-step choice of slot equals `RecordSlot`, its specification: the requested slot, or else the default one, clamped into the lineup. |
| Scorebook.Game.UndoAtBat | app.py:174-190 | With no match, the log and the score are unchanged. Otherwise exactly the newest matching at-bat is deleted. If its RBI value is positive and the score is non-zero, the score becomes max(0, score − rbis). The score's value drops by exactly that at-bat's positive RBIs, so the floor never bites. The invariant is kept. Either way the answer is the previous slot of the same inning. |
| Scorebook.Game.SwitchPlayer | app.py:194-214 | The slot is clamped into the lineup, with default 0. Only that slot's player changes, to the new one. The length and every other slot stay as they were, and nothing changes when no row has that slot. The log and the score are untouched. The scorer goes on at that slot in the current inning. |
| Scorebook.AppendKeepsSheetValid | app.py:153-156 | Recording keeps the invariant: with the fresh id and the positive RBIs added, the score is still the sum of positive RBIs. |
| Scorebook.RemoveKeepsSheetValid | app.py:182-184 | Undo keeps the invariant. The deleted at-bat's positive RBIs never exceed the score. |
| Scorebook.SlotRow | app.py:206-207 | `filter_by(order=…).first()` finds the first row with that slot number. It answers `None` exactly when no row has it. |
| Scorebook.SlotRowOfContiguous | app.py:206 | In a lineup numbered 0..n-1, the row of slot k is row k, and a slot outside 0..n-1 has no row. |
| Scorebook.UndoAfterRecord | app.py:176-184 | Undo is a left inverse of record. The newest at-bat at the recorded slot and inning is the one just recorded. Deleting it gives back the old log, and the score's value returns to what it was. |
| ScorebookClient.RecordThenUndo | app.py:144-184 | Calling record and then undo on the slot and inning just recorded restores the log and the score's value, and leaves the lineup and the invariant intact. |
| BoxScore.PyIndex | app.py:235-236 | Python list indexing: an index in [0, n) is itself. An index in [−n, 0) counts from the end. Anything else is the index error. |
| BoxScore.ColumnCount | app.py:220-221 | The number of columns is 9 for an empty log, otherwise the highest logged inning. |
| BoxScore.Column | app.py:235-236 | An at-bat of inning k in 1..n goes to column k−1. Inning 0 goes to the last column, through the negative index, and has no column when there are none. An inning past the last column has no column. |
| BoxScore.IndexableUnlessAllInningZero | app.py:235-236 | Every at-bat has a column unless the log is not empty and every at-bat is in inning 0. |
| BoxScore.FilterMembers | app.py:225-226 | A row holds exactly the at-bats of the log that carry its key. |
| BoxScore.KeysInOrder | app.py:226-234 | Each key is listed once. |
| BoxScore.KeyListed | app.py:224-227 | A key is listed exactly when some at-bat of the log carries it, that is, exactly when its row's at-bats are not empty. |
| BoxScore.KeysInFirstAppearanceOrder | app.py:226-249 | The rows come in order of first appearance, as the insertion-ordered dictionary yields them: every at-bat carrying the j-th key is preceded by an at-bat carrying each earlier key. |
| BoxScore.AppendCode | app.py:236 | Adding a result to a cell keeps the cell as a prefix and puts the result at the end, with one "/" between them when the cell was not empty. |
| BoxScore.CodesIn | app.py:235-236 | Every at-bat of a row whose column is `col` contributes its result to cell `col`. |
| BoxScore.GroupOf | app.py:224-248 | The reference row of one key: it carries that key, one cell per column, and 0 ≤ home runs ≤ hits ≤ at-bats ≤ the key's at-bats in the log. |
| BoxScore.AddAtBat | app.py:236-248 | One at-bat adds its result to its cell and its counts to the row and to the totals. |
| BoxScore.AddToTable | app.py:225-248 | One turn of the loop keeps the loop's invariant. The rows, the key order and the totals are those of the at-bats read so far. |
| BoxScore.StatsTable | app.py:218-250 | The loop returns `StatsOf(log)`, the reference definition built from `GroupOf` per key: one row per key in order of first appearance, with each row's cells and counts, and the totals. It answers `None` where the source raises the index error. |
| BoxScore.StatsShape | app.py:220-236 | The index error happens exactly when the log is not empty and every at-bat is in inning 0. Otherwise there is one row per key and each row has one cell per column. |
| BoxScore.CountsOrdered | app.py:237-245 | In every row, and in the totals: 0 ≤ home runs ≤ hits ≤ at-bats. |
| BoxScore.TotalsAreColumnSums | app.py:237-248 | For at-bats, hits, home runs and RBIs, the totals row is the sum of the rows. |
| BoxScore.SumByKeyIsSum | app.py:224-248 | Grouping loses nothing and counts nothing twice: summed row by row, any tally equals its sum over the log. |
| BoxScore.RbiTotalIsScore | app.py:246-248 | When no RBI value is negative, the RBI total equals the runs the team score took. |
| BoxScore.EveryAtBatInOneCell | app.py:235-236 | Across a row's cells there are exactly as many results as the row has at-bats, so each at-bat lands in one cell. |
| BoxScore.CellIsJoined | app.py:236 | A cell is its results in log order joined with "/". Empty results before the first non-empty one leave no separator. |
| BoxScore.CellIsJoinedWhenNoneEmpty | app.py:236 | With no empty result, a cell is exactly its results joined with "/". |

## Left out

- Flask routing, templates, `redirect`/`url_for` and form parsing: each handler
  takes its inputs as values and returns the position it redirects to. The GET
  branches only render pages and are not modelled.
- Non-numeric form input: `int(...)` raising `ValueError` is not modelled. Slot
  numbers and RBIs are integers; innings are non-negative integers. In
  set_batting_order the error at app.py:98 comes after the old lineup's
  deletion is committed (app.py:91-92), so the game is left with no lineup and
  record_atbat then answers "請先設定棒次順序". `SetBattingOrder` always installs
  a lineup, so the model does not show this.
- SQLAlchemy sessions, queries and commits: the store is the `Game` object and
  its fields, and each handler is one method call. record_atbat, undo_atbat and
  switch_player commit once. set_batting_order commits twice: first the
  deletion of the old lineup (app.py:91-92), then the new rows (app.py:104).
  The model does not separate the two commits.
- Concurrent requests: the model runs the handlers one at a time. The source
  takes no lock, and `app.run(debug=True)` (app.py:261) serves requests on
  threads. Two record requests at once can both read the same score, and the
  later commit then overwrites the earlier one at app.py:156. After that lost
  update the score is no longer the sum of positive RBIs that `Game.Valid`
  states.
- Several games: the model holds one game. Filtering by `game_id` is the choice
  of `Game` object.
- The "no such game" 404 in record_atbat and undo's crash on a missing game:
  the `Game` object always exists.
- The debug `print` loops in set_batting_order and switch_player: output only.
- The CRUD routes `index`, `games`, `players`, `add_player`, `delete_player`
  and `delete_game`: storage operations with no engine logic. `add_game` is
  `Game.constructor`.
- `Player.query.get` in the box score: a storage lookup, so the row keeps the
  player id.
- The `run` and `inning_results` totals of the box score: they are
  initialised and never updated.
- Result strings stored as NULL: every recorded result is a string.
  `Other("")` stands for an empty one.
- Lineup.Sort: the in-place list sort of set_batting_order is a pure
  insertion sort on a sequence with the same order and the same result.
- ScorebookClient.RecordThenUndo: restores the score's value, not its
  nullability. A NULL score that took RBIs comes back as 0, as in the source.
- Log order: the source's queries for the log (app.py:13, app.py:18,
  app.py:219) have no `ORDER BY`. The model reads the log in id order, which
  decides the order of the box-score rows and of the results inside a cell.
- Integer widths: Python integers are unbounded, so the model's are too. The
  store keeps each value in a 64-bit SQLite INTEGER column, and a larger
  `rbis` or `team_score` makes the commit fail with nothing stored. The model
  does not capture this storage limit.
