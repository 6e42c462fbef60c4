# Love Bubble: the swap-and-cascade engine and the score table

This project models two pieces of a small Streamlit application and proves properties of them.

- **The match-3 game** of `enhanced_love_bubble.py`:
  - A 7 x 6 board holds bubbles of six normal and five special symbols.
  - A first click selects a bubble; a second click on a neighbour swaps the two when the swap makes a same-symbol group of three or more.
  - Every group of three or more is then cleared. The columns fall and the empty cells fill with random bubbles. This repeats while groups remain, and each round is scored at the stored level.
  - After the cascade come the special-bubble counters, the combo counters, the easter-egg triggers and the level-up rule.
- **The score table** of `app_simple.py`:
  - Per player and per game time it keeps a score and a payment flag, together with the sorted list of game times.
  - It records the players of a result screenshot (first write wins), deletes a player or a game time, and computes each player's total.

Modules, one per part of the program:

- `Board` (board.dfy): symbols, cells, positions, adjacency, swapping; the board as a value (`Grid`) and the in-place swap on an `array2`.
- `Components` (components.dfy): the same-symbol component of a cell, defined as the least closed set containing it, and the depth-first search `find_connected_bubbles` as an explicit-stack loop.
- `Scanner` (scanner.dfy): `find_all_clearable_groups`, the row-major scan with a global visited set.
- `Gravity` (gravity.dfy): `remove_bubbles` in its three phases (blank, fall, refill) and `generate_enhanced_grid`, both in place on the `array2`. The random source is an injected oracle.
- `EasterEggs` (eggs.dfy): `enhanced_easter_egg_check`.
- `Session` (session.dfy): `can_create_match`, the round scoring and special counting of `auto_clear_bubbles`, and the session state of `init_enhanced_game` as a class `Game`. Its methods follow `auto_clear_bubbles` and `handle_bubble_click`.
- `ScoreTable` (scorebook.dfy): the nested-map store of `app_simple.py` as a class `ScoreBook`. Its methods are `update_game_data`, `delete_player`, `delete_date` and the total column of `create_table_dataframe`.

The cascade of a move is recorded as a ghost history of rounds: each round holds the board it started from and the positions it removed. The scoring, the special counters and the combo are stated as functions of that history:

- `CascadeScore` and `Tally` give the points and the special counts of a history.
- `Cascade` says that a history leads from one board to another.
- `SwapEffect` is the whole effect of a second click.

The class methods are proved against these definitions, and the lemmas beside them prove the arithmetic and the invariants:

- the closed form of the points;
- the level invariant;
- at least three cells per round;
- `no_match` unreachable.

## Model

| member | source | states |
|---|---|---|
| Board.AdjacentIff | enhanced_love_bubble.py:358-363 | adjacency holds exactly for the four orthogonal neighbours: it is symmetric, never holds for the cell itself, and never for a diagonal |
| Board.SwapCells | enhanced_love_bubble.py:366-371 | the swapped board has the same shape; the two cells traded contents and every other cell is unchanged |
| Board.SwapInvolution | enhanced_love_bubble.py:366-371 | swapping the same pair twice gives back the original board |
| Board.SwapFull | enhanced_love_bubble.py:366-371 | swapping two cells of a board without empty cells leaves it without empty cells |
| Board.SwapBubbles | enhanced_love_bubble.py:366-371 | the in-place swap leaves the array holding exactly SwapCells of its old contents |
| Board.Snapshot | enhanced_love_bubble.py:345-355 | the value view of the array is rectangular with the array's dimensions, and its cells are the array's cells |
| Board.DistinctCard | enhanced_love_bubble.py:394-395 | a position list without repeats has as many elements as its set (so a component's size is the length of the list the search returns) |
| Components.ComponentHasStart | enhanced_love_bubble.py:386-402 | the start cell belongs to its own component |
| Components.ComponentClosed | enhanced_love_bubble.py:397-400 | a component is closed under moving to an in-bounds neighbour with the same value |
| Components.ComponentLeast | enhanced_love_bubble.py:386-402 | a component lies inside every closed set that contains its start, so it is the smallest closed set |
| Components.ComponentSymmetric | enhanced_love_bubble.py:397-400 | if p is in the component of s, then s is in the component of p |
| Components.ComponentSame | enhanced_love_bubble.py:406-419 | every cell of a component has that same component, so the scan sees each component whole |
| Components.ComponentUniform | enhanced_love_bubble.py:391 | every cell of a component lies on the board and holds the start's value |
| Components.FindConnected | enhanced_love_bubble.py:374-403 | returns [] for a start off the board or on an empty cell; otherwise the start first, no repeats, every cell on the board and holding the start's value, and exactly the start's component as a set |
| Scanner.ElemsFlatten | enhanced_love_bubble.py:465-467 | every group's cells are among the cells of the joined list |
| Scanner.FindAllClearableGroups | enhanced_love_bubble.py:406-419 | each group is a whole component of a bubble with at least three cells and no repeats; groups are pairwise disjoint; the joined groups hold exactly the cells whose component has three or more cells, each once |
| Gravity.SymbolSource.constructor | enhanced_love_bubble.py:349-352 | the random source starts at draw 0 with the given oracle |
| Gravity.SymbolSource.Next | enhanced_love_bubble.py:447-450 | the next draw returns the oracle's symbol for the current draw count and advances the count by one |
| Gravity.Blank | enhanced_love_bubble.py:424-426 | the board keeps its shape; listed on-board cells become empty, all others keep their contents, and off-board positions are ignored |
| Gravity.Compact | enhanced_love_bubble.py:430-433 | the bubbles of a column in order: no longer than the column, no empty cell, and the whole column when it has no empty cell |
| Gravity.Drop | enhanced_love_bubble.py:435-439 | a fallen column has the length of the original |
| Gravity.SettleNothing | enhanced_love_bubble.py:428-450 | removing no cell from a full board leaves every column exactly where it was |
| Gravity.BlankCells | enhanced_love_bubble.py:424-426 | the first phase in place leaves the array holding Blank of its old contents |
| Gravity.ColumnBubbles | enhanced_love_bubble.py:430-433 | the bubbles gathered from a column are Compact of that column |
| Gravity.WriteColumn | enhanced_love_bubble.py:435-439 | the column ends with empty cells above and the gathered bubbles, in their order, in the bottom rows; other columns are unchanged |
| Gravity.SettleColumn | enhanced_love_bubble.py:429-439 | one column becomes Drop of its old contents; other columns are unchanged |
| Gravity.ApplyGravity | enhanced_love_bubble.py:428-439 | every column becomes Drop of its old contents |
| Gravity.Refill | enhanced_love_bubble.py:441-450 | afterwards no cell is empty, and every cell that held a bubble still holds it |
| Gravity.PhasesSettle | enhanced_love_bubble.py:422-450 | blanking, falling and refilling together leave a board that Settles describes |
| Gravity.RemoveBubbles | enhanced_love_bubble.py:422-450 | the board keeps its shape, it has no empty cell, and in each column the bubbles not removed sit in the bottom rows in their original top-to-bottom order |
| Gravity.GenerateGrid | enhanced_love_bubble.py:339-355 | a fresh rows-by-cols board without an empty cell |
| EasterEggs.EasterEggCheck | enhanced_love_bubble.py:570-588 | first_clear fires exactly when the flag was unset, and the flag is set afterwards; love_quote exactly when the flag was set and at least 6 cells were cleared; mega_combo exactly when the flag was set, fewer than 6 were cleared and the combo is 3 or more; achievement exactly at a milestone score; lucky_number exactly at move 77; no trigger is repeated, and the list holds the chain trigger first, then achievement, then lucky_number |
| EasterEggs.FirstClearAtMostOnce | enhanced_love_bubble.py:574-576 | over a run of checks that thread the flag, first_clear is reported once if the flag started unset and the run is not empty, and otherwise never |
| EasterEggs.DistinctCount | enhanced_love_bubble.py:570-588 | a trigger in a repeat-free list occurs in it exactly once |
| Session.LevelFor | enhanced_love_bubble.py:674 | the earned level is at least 1, and the score lies in that level's band of 500 points |
| Session.LevelForMonotone | enhanced_love_bubble.py:674-677 | a higher score never earns a lower level |
| Session.Tri | enhanced_love_bubble.py:472 | twice the round-bonus units of n rounds is n times (n - 1) |
| Session.CascadeScoreAppend | enhanced_love_bubble.py:470-478 | one more round adds that round's points, scored with its 0-based index |
| Session.CascadeScoreClosedForm | enhanced_love_bubble.py:470-478 | a cascade's points are 20 per cleared cell, 15 times 0 + 1 + ... + (n - 1), and 10 times the stored level per round |
| Session.CascadeScoreLowerBound | enhanced_love_bubble.py:470-478 | at level 1 or more, rounds of at least three cells earn at least 70 points each |
| Session.SumAtLeast | enhanced_love_bubble.py:477 | rounds of at least three cells sum to at least three per round |
| Session.CountSymCells | enhanced_love_bubble.py:481-485 | over a list without repeats, the count of a symbol is the number of distinct listed cells holding it |
| Session.TallySpecials | enhanced_love_bubble.py:481-485 | the counters keep their keys, and each grows by the number of listed cells holding its symbol; symbols without a counter change nothing |
| Session.MatchIsClearable | enhanced_love_bubble.py:498-512 | a swap that passes the check leaves at least one clearable cell on the swapped board |
| Session.FoundSize | enhanced_love_bubble.py:504-507 | the length of the search's result is the component size the check compares with 3 |
| Session.CanCreateMatch | enhanced_love_bubble.py:498-512 | the board ends as it began, and the answer is true exactly when, after the swap, the component at either cell has three or more cells |
| Session.CascadeAppend | enhanced_love_bubble.py:458-488 | one more round extends a cascade history |
| Session.CascadeRoundsClear | enhanced_love_bubble.py:461-467 | every round of a cascade removes at least three cells |
| Session.TallyRoundCells | enhanced_love_bubble.py:481-485 | in every round a special counter grows by the number of removed cells that hold its symbol |
| Session.ScanBoard | enhanced_love_bubble.py:459-467 | the joined list is empty exactly when no cell is clearable; otherwise it holds every clearable cell once, at least three, all on the board |
| Session.AccountedStep | enhanced_love_bubble.py:470-485 | one scored and counted round keeps the cascade's bookkeeping correct: total cleared, score and special counters |
| Session.LoopStep | enhanced_love_bubble.py:458-488 | one pass of the loop extends both the history and its bookkeeping |
| Session.MovedKeeps | enhanced_love_bubble.py:660-665 | a move counts once and drops the selection; its cascade scores at the stored level and adds one combo step per round; the level, the first-clear flag, the shown surprises and the level-up flag are left as they were until the reward |
| Session.SwapEffectIntro | enhanced_love_bubble.py:658-690 | swap, cascade and reward together make up the whole effect of a second click |
| Session.CascadeSumAtLeast | enhanced_love_bubble.py:458-478 | a cascade clears at least three cells per round |
| Session.SwapSound | enhanced_love_bubble.py:656-693 | after a second click the selection is dropped, the level is still the one the score earns, and the best combo still equals the combo; with fuel for one round the no_match outcome cannot occur |
| Session.Game.constructor | enhanced_love_bubble.py:307-336 | a new session: a fresh full 7 x 6 board, score 0, level 1, combos and moves 0, nothing selected, every special counter 0, no first clear, no easter egg shown, no level-up |
| Session.Game.ClearRound | enhanced_love_bubble.py:470-488 | one round: the score grows by 20 per cell, 15 per earlier round and 10 per stored level; each special counter grows by its removed cells; the board settles; nothing else changes |
| Session.Game.ClearStep | enhanced_love_bubble.py:458-488 | one pass of the loop extends the cascade history and keeps its bookkeeping |
| Session.Game.ClearLoop | enhanced_love_bubble.py:458-488 | the loop leaves a cascade history from the old board to the new one; when it settles no cell is clearable; the total cleared is the sum of round sizes; score and counters follow the history; nothing else changes |
| Session.Game.AutoClear | enhanced_love_bubble.py:453-495 | as the loop, and then the combo grows by the number of rounds and the best combo becomes the larger of itself and the combo; with at least one round of fuel and a clearable board at least one round runs |
| Session.Game.Reward | enhanced_love_bubble.py:667-690 | with cells cleared: outcome success, the easter-egg check updates the flag and the shown surprises, and the level rises to score / 500 + 1 if that is higher; otherwise no_match and nothing changes |
| Session.Game.MakeSwap | enhanced_love_bubble.py:660-662 | the board becomes SwapCells of the old one, and still has no empty cell; moves grows by one, the selection is dropped, nothing else changes |
| Session.Game.SwapAndClear | enhanced_love_bubble.py:660-665 | the swap and the move count, then a cascade from the swapped board that clears at least one round when fuel allows |
| Session.Game.CommitSwap | enhanced_love_bubble.py:659-690 | a swap that passed the check has exactly the effect SwapEffect describes |
| Session.Game.TrySwap | enhanced_love_bubble.py:656-693 | the second click on a neighbour: SwapEffect, the session invariant is kept, and no_match is never the outcome when fuel allows one round |
| Session.Game.HandleClick | enhanced_love_bubble.py:640-696 | with nothing selected the cell is selected; on the selected cell the selection is dropped; on a non-neighbour the selection is dropped and board, moves and score are unchanged; on a neighbour SwapEffect. In every case the session invariant (level earned by the score, best combo equal to combo, full board) holds, and no_match never occurs when fuel allows one round |
| ScoreTable.LexLessIrreflexive | app_simple.py:265 | no time string sorts before itself |
| ScoreTable.LexLessTransitive | app_simple.py:265 | string order is transitive |
| ScoreTable.LexLessTotal | app_simple.py:265 | two different strings are ordered one way or the other |
| ScoreTable.SortedInsert | app_simple.py:263-265 | append and sort of a new time: the list stays strictly sorted, grows by one, and holds exactly the old times and the new one |
| ScoreTable.SortedUnique | app_simple.py:263-265 | two strictly sorted lists with the same elements are equal, so SortedInsert is the only possible result of append and sort |
| ScoreTable.RemoveFirst | app_simple.py:297 | list.remove shortens the list by one and adds nothing |
| ScoreTable.RemoveFirstSorted | app_simple.py:296-297 | removing a time from the sorted list keeps it sorted and drops exactly that time |
| ScoreTable.DateSumAppend | app_simple.py:317-321 | the total over one more time adds that time's score, 0 if missing |
| ScoreTable.DateSumIgnores | app_simple.py:318-319 | a time that is not listed does not affect the total |
| ScoreTable.DateSumInsert | app_simple.py:263-265 | recording a score for a new time adds that score to the total |
| ScoreTable.DateSumRecord | app_simple.py:280-281 | recording a score at a listed time where the player had none adds that score to the total |
| ScoreTable.DateSumRemove | app_simple.py:294-300 | deleting a listed time takes that time's score out of the total |
| ScoreTable.DateSumSameScores | app_simple.py:319 | totals depend on a row only through its scores with missing times read as 0 |
| ScoreTable.NamesAppend | app_simple.py:267-268 | one more entry adds its name to the names of a screenshot |
| ScoreTable.AddKeepsStore | app_simple.py:272-282 | one entry keeps the store's shape: sorted times, a payment row per player with flags for exactly the scored times |
| ScoreTable.AddScoreStep | app_simple.py:272-281 | one entry's loop body extends the recorded scores by that entry |
| ScoreTable.AddFlagStep | app_simple.py:276-282 | one entry's loop body extends the recorded flags by that entry |
| ScoreTable.RecordTotals | app_simple.py:258-285 | after recording a screenshot a player's total grows by the first score given for them, if they had none at that time; otherwise it is unchanged |
| ScoreTable.RecordEntries | app_simple.py:267-282 | every named player gets a score row and a payment row; a player without a score at the time gets the first score given and an unpaid flag; existing scores and flags are kept |
| ScoreTable.StripDate | app_simple.py:298-303 | every player keeps a row, and each row is the old one without the deleted time |
| ScoreTable.ScoreBook.constructor | app_simple.py:25-38 | the store starts with no players, no payments, no times and the refresh counter at 0 |
| ScoreTable.ScoreBook.UpdateGameData | app_simple.py:258-285 | the time joins the sorted list once if it is new; the rows follow RecordEntries; the refresh counter goes up by exactly one |
| ScoreTable.ScoreBook.DeletePlayer | app_simple.py:287-292 | the player leaves both maps, everything else is unchanged, and an unknown name changes nothing |
| ScoreTable.ScoreBook.DeleteDate | app_simple.py:294-303 | a listed time leaves the list and every score and payment row, and nothing else changes; an unlisted time changes nothing |
| ScoreTable.ScoreBook.PlayerTotals | app_simple.py:305-323 | no players or no times give an empty table; otherwise every player has a total equal to the sum over the listed times of their score, 0 where missing |

## Left out

- Streamlit rendering, CSS and JavaScript, widgets, `st.rerun`, `time.sleep`, `st.balloons` and the success message and scroll flags: user-interface calls with no state the engine reads.
- `display_enhanced_easter_egg`, `create_floating_hearts`, `show_combo_effect`: presentation only.
- The efficiency figure of `show_live_stats` and the average column of the table: floating-point rounding.
- The symbol probabilities (0.15 special on generation, 0.1 on refill): the random source is an injected oracle `SymbolSource`, and only the board's shape and non-emptiness are specified.
- `GenerateGrid` and `Refill`: do not state how many draws they take from the random source.
- The quote picked at random for a love_quote surprise: randomness used only for display.
- The remote model API, image encoding, file upload, the processed-files set and CSV export: network and file I/O.
- `normalize_datetime`, `clean_player_name`, `validate_player_data` and `parse_score_string`: clock-dependent and regular-expression text cleanup. The normalised time string and the validated (name, integer score) entries are inputs.
- pandas table construction, its non-stable sort and its totals row: library code. Only the integer per-player total is modelled, and `PlayerTotals` returns it as a map from player to total.
- The payment columns of the table: display only.
- The reset and reshuffle buttons: they delete or regenerate the session state.
- `Session.Game.constructor`: models `init_enhanced_game` for a new session only. Python fills just the keys that are missing, and on an existing session it changes nothing.
- Keys of the session defaults that the engine never reads (`swap_mode`, `game_time`, `daily_played`, `achievements`, `easter_eggs_unlocked`, `floating_hearts`, `show_combo_effect`, `auto_clear_happening`, `need_refresh`, `last_action`, `last_success_message`, `should_scroll_to_game`): not part of the modelled state.
- `Session.Game.AutoClear`: the Python loop runs until no group remains, and since refill is random nothing guarantees that it stops. The model takes a `fuel` bound on the number of rounds and says with `settled` whether the loop stopped for lack of groups. A cascade cut off by the bound is not modelled beyond its bound.
- `Components.FindConnected`: proves the set of cells found, the start first and no repeats, but not the order in which the depth-first search lists the others.
- `Scanner.FindAllClearableGroups`: likewise proves the groups as sets, but not their order in the returned list.
- `Session.Game.HandleClick`: requires the clicked position to lie on the board, as the page's buttons guarantee. For an off-board position Python would raise on an index past the end, or wrap a negative index round to the other side.
- `Gravity.RemoveBubbles`: requires a board with at least one row, since Python reads the width off the first row. The session's board always has seven rows.
- `Session.Game.TrySwap` and the other session methods: keep, and require between clicks, the invariants `level == score / 500 + 1` and `max_combo == combo`. Both hold in every reachable session: the level is only recomputed after a cascade that scored, and combo is never reset.
- `ScoreTable.ScoreBook.DeleteDate` and the other ScoreBook methods: require the store invariant `StoreOk`. It says four things: the times are strictly sorted; the payment map has exactly the players of the score map; each player's payment row has flags for exactly the times the player has a score for; and every recorded time is listed. The three operations keep it, so the case of a player map holding an unlisted time cannot arise.
- Dictionary iteration order in `update_game_data`, `delete_date` and the table: the results are maps, so order does not matter.
