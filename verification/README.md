# Mega Tic-Tac-Toe rules engine in Dafny

A model of the rules engine of a Mega ("ultimate") Tic-Tac-Toe game and of
the reward logic of its reinforcement-learning environment. It covers four
pieces:

- **The board** (`src/game/board.py`).
  - It has nine 3×3 sub-boards and a 3×3 outer board.
  - The outer board records each sub-board's outcome: open, won by player 1 or 2, or FULL (drawn).
  - Modelled operations: placing a mark (`play_turn`), the queries on the board, the generic three-in-a-row test and the enumeration of valid moves.
- **The game** (`src/game/game.py`).
  - Turn order and the forced sub-board ("you are sent to the sub-board named by the cell just played").
  - Recording the winner and counting turns.
  - Saving and loading a game snapshot.
- **The training environment** (`src/agent/tictactoe_env.py`).
  - The flat action codec.
  - The deterministic reward and termination rules of one `step`. The opponent's reply is passed in as a parameter.
- **The legacy board** (`src/board.py`): an earlier copy of the board with no bounds check.

The modules follow the program's structure:

| file | module | contents |
|---|---|---|
| `common.dfy` | `Common` | players, `Option`, the base-3 numbering of the 81 cells |
| `grid.dfy` | `Grid` | 3×3 grids, the eight lines, `check_board_win` |
| `board.dfy` | `Board` | the board, `play_turn`, queries, `valid_moves`, reachable-board invariants |
| `game.dfy` | `Game` | the turn state machine and the snapshot |
| `env.dfy` | `Env` | `action_coordinates` and `step` |
| `legacy.dfy` | `LegacyBoard` | the legacy `play_turn` |

Representation choices:

- Cells and outcomes are plain integers, as in the numpy arrays: 0 is empty or open, 1 and 2 are the players, -1 is FULL.
- Arrays keep the code's index order: `cells[big_y][big_x][small_y][small_x]` and `big[big_y][big_x]`.
- Operations are pure functions on immutable values.
- An operation that raises `RuntimeError` or `IndexError` returns `None`.
- Properties that need a whole history use two notions. "Reachable" means played from the empty board. `Valid` is the invariant every reachable game keeps.

Behaviour of the code worth knowing, which the model keeps:

- `take_turn` checks the forced sub-board in test mode too. Test mode always leaves `next` at (-1,-1), so the check never fires. `Game.Valid` records this.
- The player rotates even after the winning move, and nothing stops further moves after a win. A later winning move would overwrite `winner`; `Game.PlayMovesValid` shows a recorded winner is never cleared.
- `load` copies the snapshot without checking shapes, player or `next`.

## Model

| member | source | states |
|---|---|---|
| Grid.CheckBoardWin | src/game/board.py:195-215 | The loop over rows, columns and both diagonals returns true exactly when one of the eight lines of the grid is all `player`. The legacy copy at src/board.py:73-83 is the same loop. |
| Grid.HasLineOnlySeesOwner | src/game/board.py:94-104 | Whether `p` has a line depends only on where `p` stands. FULL and opponent entries of the outer board never count for `p`. |
| Board.Empty | src/game/board.py:19-28 | A new board has every cell empty and every sub-board open. |
| Board.PlayTurn | src/game/board.py:36-65 | Out-of-range coordinates are refused and the board is unchanged. In range, the move is accepted exactly when the sub-board is open and the cell empty. A refused move changes nothing. An accepted move writes `player` into exactly the target cell and leaves every other sub-board and outcome alone. The played sub-board's outcome becomes `player` on a line, else FULL when all nine cells are filled, else stays open. |
| Board.PlayTurnConsistent | src/game/board.py:55-63 | `play_turn` preserves agreement between every outcome and its sub-board. |
| Board.ReachableConsistent | src/game/board.py:27-28 | On every board reached from the empty one, outcome `p` holds exactly when the sub-board holds a line of `p`. A sub-board with nine marks is never open. |
| Board.PlayAllSettled | src/game/board.py:55-58 | Filled cells and claimed sub-boards are permanent under any sequence of turns. |
| Board.ClaimedStaysClosed | src/game/board.py:55-56 | Once a sub-board is claimed, no later move into it is accepted. |
| Board.SmallQueriesOnCells | src/game/board.py:67-92 | On a consistent board, `check_small_board_valid` (outcome is 0) holds exactly when the sub-board has no line of either player and an empty cell, and `check_small_win` (outcome is `player`) exactly when it has a line of `player`. The legacy copies at src/board.py:33-37 are the same. |
| Board.FullOnCells | src/game/board.py:106-113 | On a consistent board, `is_full` (no sub-board open) holds exactly when every sub-board has a line of a player or all nine cells filled. The legacy copy at src/board.py:42-43 is the same. |
| Board.BigWinOnCells | src/game/board.py:94-104 | On a consistent board, `check_big_win` (`HasLine` of the outer board) holds exactly when the player has won three sub-boards along one of the eight lines. The legacy copy at src/board.py:39-40 is the same. |
| Board.SmallWinIsLine | src/game/board.py:58-63 | After an accepted move, `check_small_win` on the played sub-board holds exactly when that sub-board has a line of the mover. |
| Board.QuietMove | src/game/board.py:58-63 | A move into an open sub-board that holds at most one other mark is accepted and changes no outcome. |
| Board.ValidMoves | src/game/board.py:115-127 | `valid_moves(next)` yields exactly the empty cells of open sub-boards, restricted to sub-board `next` unless `next` is (-1,-1). Each move appears once, in `argwhere` order. |
| Board.EmptyBoardMoves | src/game/board.py:115-127 | On the empty board every in-bounds move is valid anywhere, and exactly the cells of sub-board (0,0) are valid when sent there. |
| Board.EmptyBoardMoveCount | src/game/board.py:115-127 | On the empty board `valid_moves` yields 81 moves anywhere and 9 when sent to (0,0). |
| Board.AllMovesCount | src/game/board.py:125-127 | A list in `argwhere` order holding exactly the in-bounds moves has 81 entries. |
| Board.FirstSubBoardCount | src/game/board.py:125-127 | A list in `argwhere` order holding exactly the moves of sub-board (0,0) has 9 entries. |
| Board.EmptyNotFull | src/game/board.py:106-113 | The empty board is not full. |
| Board.OpenSubBoardHasMove | src/game/board.py:67-78 | An open sub-board of a consistent board has an empty cell, so it offers a valid move. |
| Board.FullIffNoValidMove | src/game/board.py:106-113 | On a consistent board, `is_full` holds exactly when no valid move remains anywhere. |
| Game.NewGame | src/game/game.py:26-42 | A new game has an empty board, player 1 to move, `next` = (-1,-1), no winner and no turns. It is valid. |
| Game.SwitchPlayer | src/game/game.py:45-47 | The other player is to move and nothing else changes. |
| Game.SwitchPlayerTwice | src/game/game.py:45-47 | Switching twice gives back the same game. |
| Game.TakeTurn | src/game/game.py:49-73 | Raises exactly when the move is outside the forced sub-board or the board refuses it. On success the board is the placed board. The winner becomes the mover exactly when the move completed a line in its sub-board and the outer board has a line of theirs; otherwise it is untouched. `next` is the cell's sub-board if not in test mode and that sub-board is open, else (-1,-1). The turn count grows by one. The player rotates exactly when not in test mode. |
| Game.AcceptedIffValidMove | src/game/game.py:62-63 | A move is accepted exactly when it is one `valid_moves(next)` yields. |
| Game.WrongSubBoardRejected | src/game/game.py:62-63 | A move outside the forced sub-board always raises. |
| Game.TakeTurnValid | src/game/game.py:62-73 | `take_turn` preserves validity: consistent outcomes, an open forced sub-board, no forcing in test mode, and a winner holding an outer line. |
| Game.MoveAvailable | src/game/game.py:69 | In a valid game that is not full, the player to move has a valid move. |
| Game.PlayMovesValid | src/game/game.py:65-70 | Along any run of accepted moves validity holds, the turn count equals the number of moves played, and a winner is never cleared. |
| Game.ReachableValid | src/game/game.py:26-42 | Every game played from a new game is valid, and its turn count is the number of moves. |
| Game.ToJson | src/game/game.py:98-112 | The snapshot holds the two arrays, the player to move, `next`, the mode and the agent name. |
| Game.Load | src/game/game.py:154-171 | A loaded game has no winner, no turns, is not in test mode and holds the snapshot's arrays. |
| Game.LoadToJson | src/game/game.py:165-169 | Saving then loading keeps board, outcomes, player, `next`, mode and agent name, and resets winner, turns and test mode. |
| Game.ToJsonLoad | src/game/game.py:165-169 | Loading then saving gives back the snapshot. |
| Game.LoadToJsonValid | src/game/game.py:165-169 | A valid game reloads as a valid game; one saved in test mode comes back outside test mode. |
| Env.ActionCoordinates | src/agent/tictactoe_env.py:18-28 | Every action in 0..80 maps to four coordinates in 0..2, and `27*big_y + 9*small_y + 3*big_x + small_x` gives the action back. |
| Env.ActionOfMove | src/agent/tictactoe_env.py:28 | Every in-bounds move is the image of the action `27*big_y + 9*small_y + 3*big_x + small_x`, so the codec maps 0..80 onto all 81 cells. |
| Env.ActionCoordinatesInjective | src/agent/tictactoe_env.py:28 | Distinct actions of 0..80 give distinct moves. |
| Env.FirstAction | src/agent/tictactoe_env.py:28 | Action 0 is (0,0,0,0). |
| Env.SecondAction | src/agent/tictactoe_env.py:28 | Action 1 is (0,0,1,0). |
| Env.LastAction | src/agent/tictactoe_env.py:28 | Action 80 is (2,2,2,2). |
| Env.InitialEnv | src/agent/tictactoe_env.py:87-89 | A reset gives a new valid game in mode 2 with a win reward of 100. |
| Env.Step | src/agent/tictactoe_env.py:97-149 | An illegal agent move gives -100, ends the episode and leaves the state unchanged. A terminal step keeps the win reward. A non-terminal step lowers the win reward by one, leaves no winner and a board that is not full, and pays between -11 and 13. `step` raises only after the agent's move was accepted. |
| Env.OpponentTurn | src/agent/tictactoe_env.py:131-149 | The opponent's half of a step raises exactly when `take_turn` refuses the reply. A terminal result keeps the win reward. A non-terminal one lowers it by one, leaves no winner and a board that is not full, and moves the agent's reward by between -5 and +7. |
| Env.AgentHalfRewards | src/agent/tictactoe_env.py:117-130 | After an accepted agent move, a game win pays the current win reward and ends the episode. A full board pays 1, or 6 when the move completed a line in its sub-board, and ends the episode. Otherwise the opponent replies with the agent holding that amount, less 7 when the agent freed the opponent's choice of sub-board. |
| Env.OpponentHalfRewards | src/agent/tictactoe_env.py:133-149 | After an accepted reply, an opponent game win pays -60 and a full board 0, both ending the episode. Otherwise the reward loses 5 when the reply completed a line in its sub-board and gains 7 when it freed the agent's choice, and the win reward drops by one. |
| Env.StepKeepsValid | src/agent/tictactoe_env.py:108-134 | A step from a valid game leaves a valid game. |
| Env.StepRaisesIff | src/agent/tictactoe_env.py:133-134 | `step` raises exactly when the agent's move is accepted, neither wins nor fills the board, and the reply is not a valid move. |
| Env.RepeatActionRejected | src/agent/tictactoe_env.py:111-115 | After a non-terminal step, repeating the same action is illegal and scores -100. |
| Env.QuietTurn | src/game/game.py:65-73 | A turn that claims no sub-board, on an outer board with every sub-board open, records no winner and leaves the board not full. It wins no sub-board, and it sends the next player to a sub-board unless in test mode. |
| Env.QuietStep | src/agent/tictactoe_env.py:120-149 | A step in which neither move claims a sub-board, on an outer board with every sub-board open, continues the episode and pays exactly 1. The -7 for freeing the opponent's choice and the +7 for the reply freeing the agent's choice both apply, in test mode, or neither does. |
| Env.StepFromBlankPositive | src/agent/tictactoe_env.py:120-149 | On a board with every cell empty and free choice, an in-range action and any legal reply earn a positive reward. |
| Env.FirstStepRewardPositive | src/agent/tictactoe_env.py:97-149 | The first step after a reset earns a positive reward whatever legal reply the opponent makes. |
| LegacyBoard.PlayTurn | src/board.py:18-31 | Negative indices count from the end. An index outside -3..2 raises, but the cell index is read only once the sub-board is open. A claimed sub-board or occupied cell is refused and nothing changes. Success writes exactly the target cell. The outcome becomes `player` on a line, else FULL when all nine are filled, else is unchanged. |
| LegacyBoard.PlayTurnWrapped | src/board.py:18-31 | Whenever the legacy `play_turn` returns, it does what the current `play_turn` does at the wrapped coordinates. |
| LegacyBoard.PlayTurnAgrees | src/board.py:18-31 | On in-range coordinates the legacy and current `play_turn` give the same result. |
| LegacyBoard.NegativeIndexWraps | src/board.py:19-24 | A coordinate of -1 is refused by the current board but played as 2 by the legacy board. |
| LegacyBoard.QueriesAfterPlayTurn | src/board.py:33-40 | After a legacy placement, `check_small_win` holds exactly when the sub-board has a line of `player`. `check_small_board_valid` holds exactly when it has neither a line nor nine marks. |

## Left out

- Rendering (`to_string`, `__str__`, `print`, `print2`) and player symbols: presentation only.
- `Game.play_turn`, `save`, `play` and the hook methods: asynchronous tasks, file I/O and process exit.
- The `players`, `auto_save` and `tasks` fields of `Game`: they only serve the parts above.
- The consoles, menus, players, agents, the training script and the save manager: interactive I/O, randomness and a learning library.
- Observations, the gym spaces, `reset`'s opponent sampling and `train_x` opening move, and the `truncated`/`info` results of `step`: randomness and library plumbing.
- The legacy queries `check_small_board_valid`, `check_small_win`, `check_big_win`, `is_full` and `check_board_win` (src/board.py:33-43,73-83) are the same definitions as the current ones. They are shared rather than written twice.
- Env.Step: when the opponent's reply is refused, the code raises after the agent's move has already changed the game. The model returns `None` and does not keep that intermediate game.
- Game.Load: the snapshot's player to move is typed as 1 or 2. The code copies whatever value it is given.
- numpy's integer width: cells hold 0, ±1 and 2, and the turn counter and rewards stay far from any overflow, so unbounded integers are used.
