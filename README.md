# 4 en Ratlla — a verified model of the game logic

This project is a Dafny model of the game core of the PHP web application "4 en Ratlla",
a Connect-Four game between a human (seat 1) and an automatic player (seat 2). It covers:

- **The board** (`Board.php`), as a class over a 6 x 7 `array2` of slots that
  `SetMovementOnBoard` updates in place. It covers gravity placement, the run counting of
  `countInDirection`, the four-in-a-row test of `checkWin` and the occupancy queries
  `isFull` and `isValidMove`.
- **The game** (`Game.php`), as a class holding the board, the two players, the turn
  (`nextPlayer`), the winner and the scores. It covers its constructor, getters, setters,
  `reset`, `play` and the scripted opponent `playAutomatic`. The opponent tries three tiers in turn:
  1. win now, lowest column first;
  2. block the opponent, lowest column first;
  3. play a valid column near the middle.
- **The request handling of `GameController::play`**: reset, the human move, the win branch,
  and the flip, automatic reply and flip-back of the no-win branch. A full column is swallowed.
- **The player record** (`Player.php`).

Every imperative member is proved against a pure value-level model of its own layer:
- `BoardSpec` covers grids of type `seq<seq<Cell>>`.
- `GameSpec` covers the `GameState` value: `AutoStep` is `playAutomatic`.
- `ControllerSpec` covers a `Request`: `HandleRequest` is `play`.

`Board.Slots()` and `Game.Abstract()` map the objects to those values. The pure layers
hold the properties the code promises, proved as lemmas:
- gravity is preserved;
- a drop changes exactly one slot;
- `checkWin` agrees with an independent "four in a row through the seed";
- the three tiers of the opponent, each with the lowest-column choice;
- the opponent places one disc at most;
- the turn comes back to seat 1 after every request.

`rand(-1, 1)` is the parameter `r`, with `-1 <= r <= 1` required.

Files: `wrappers.dfy` (Option), `board_spec.dfy`, `board.dfy`, `player.dfy`, `game_spec.dfy`,
`game.dfy`, `controller_spec.dfy`, `controller.dfy`.

Two behaviours of the code are kept as written:
- **scores[2]++ (Game.php:184).** The win-now tier of `playAutomatic` raises `scores[2]`,
  whichever seat is moving. Through the controller this is the winner's score:
  `SeatOneKeepsTurn` shows the human always holds seat 1, so the automatic player always plays as
  seat 2, and `AutomaticWinScoresSeatTwo` shows the winner and the raised score agree. Only a
  direct call of `playAutomatic` with seat 1 to move credits the other seat (`AutoStepWinsFirst`
  states both scores).
- **The flip back (GameController.php:95).** It happens after the automatic reply even when that
  reply wins, so seat 1 is next after every request.

## Model

| member | source | states |
|---|---|---|
| BoardSpec.EmptyGrid | php/App/Models/Board.php:61-70 | the initial table has 6 rows of 7 slots and every slot is empty |
| BoardSpec.Place | php/App/Models/Board.php:84 | writing one slot puts the player's disc there and leaves every other slot as it was |
| BoardSpec.RoomIffTopEmpty | php/App/Models/Board.php:162-171 | under gravity a column has an empty slot exactly when its top slot is empty |
| BoardSpec.FullIffTopRowFull | php/App/Models/Board.php:145-152 | under gravity a full top row means all 42 slots are taken, and conversely |
| BoardSpec.LowestEmptyFrom | php/App/Models/Board.php:82-87 | defines the downward scan of a column: the first empty slot from row i up to row 1, or 0 |
| BoardSpec.LowestEmptyFromSpec | php/App/Models/Board.php:82-86 | the downward scan from row i finds an empty slot with all slots below it up to i taken, or 0 exactly when rows 1..i of the column are all taken |
| BoardSpec.LowestEmptyRow | php/App/Models/Board.php:82-86 | the landing row is nonzero exactly when the column has room; it is empty, every slot below it is taken, and it is row 6 on an empty column |
| BoardSpec.DropKeepsGravity | php/App/Models/Board.php:82-86 | filling the lowest empty slot of a column keeps "discs of each column are contiguous from row 6 up" |
| BoardSpec.DropGrid | php/App/Models/Board.php:80-87 | the drop puts the disc in the landing row, is a single-slot write there and keeps gravity |
| BoardSpec.PlaceAddsOneDisc | php/App/Models/Board.php:83-84 | writing into an empty slot adds exactly that slot to the occupied ones, one more than before |
| BoardSpec.DropAddsOneDisc | php/App/Models/Board.php:82-86 | a drop occupies exactly one slot that was empty before |
| BoardSpec.RoomIffEmptyRows | php/App/Models/Board.php:162-171 | a column has room exactly when its set of empty rows is non-empty |
| BoardSpec.DropFillsOneSlot | php/App/Models/Board.php:82-86 | a drop removes exactly the landing row from the column's empty rows |
| BoardSpec.DropTimesFillsColumn | php/App/Models/Board.php:80-88 | a column takes as many drops as it has empty slots, and is full afterwards |
| BoardSpec.SeventhDropFails | php/App/Services/Tests/GameTest.php:63-71 | on an empty board six drops into one column succeed and the seventh meets a full column |
| BoardSpec.DirectionsAreSteps | php/App/Models/Board.php:22-27 | each of the four directions, and its negation, is a unit step |
| BoardSpec.RunLength | php/App/Models/Board.php:124-137 | defines countInDirection's loop: one more for each in-bounds slot of the player along the step, stopping at the first that is not |
| BoardSpec.RunLengthAtLeast | php/App/Models/Board.php:124-137 | a run is at least k long exactly when its first k slots are in bounds and hold the player's disc |
| BoardSpec.RunLengthIsTheRun | php/App/Models/Board.php:124-137 | the run length is the one n whose first n slots belong to the player and whose next slot does not |
| BoardSpec.RunLengthBound | php/App/Models/Board.php:124-137 | a run counted from a neighbour of a board slot is at most 6, and at most 5 when the step changes the row |
| BoardSpec.LineCount | php/App/Models/Board.php:103-105 | defines the count along one direction: 1 for the seed plus the runs forward and backward |
| BoardSpec.DirectionCount | php/App/Models/Board.php:102-105 | the count along entry k of the four directions |
| BoardSpec.Wins | php/App/Models/Board.php:97-112 | defines checkWin's test: the count along some direction reaches 4 |
| BoardSpec.LineCountGivesLine | php/App/Models/Board.php:102-108 | a seed whose count along a direction reaches 4 lies in four consecutive slots of its owner on that line |
| BoardSpec.LineGivesLineCount | php/App/Models/Board.php:102-108 | four consecutive slots of one owner through the seed make the count along that direction reach 4 |
| BoardSpec.WinsIffFourInLine | php/App/Models/Board.php:97-112 | the checkWin test holds exactly when the seed's owner has four in a row through the seed along one of the four axes |
| BoardModel.Board.Slots | php/App/Models/Board.php:51-54 | the board's slots as a 6 x 7 grid value, slot by slot equal to the array |
| BoardModel.Board.InitializeBoard | php/App/Models/Board.php:61-70 | a fresh 6 x 7 table whose slots are all empty |
| BoardModel.Board.constructor | php/App/Models/Board.php:39-42 | a new board is valid and empty |
| BoardModel.Board.CloneOf | php/App/Models/Game.php:178 | the clone is a fresh array with the same slots as the original board |
| BoardModel.Board.SetMovementOnBoard | php/App/Models/Board.php:80-89 | it places exactly when the column has room, at the lowest empty row (every slot below taken), returning that row and the column and writing only that slot; a full column gives ColumnFull with the board unchanged; gravity is kept |
| BoardModel.Board.CountInDirection | php/App/Models/Board.php:124-137 | the count is the length of the player's run starting one step from the seed |
| BoardModel.Board.CountLine | php/App/Models/Board.php:103-105 | one plus the forward count plus the backward count along the direction |
| BoardModel.Board.CheckWin | php/App/Models/Board.php:97-112 | true exactly when some direction's count reaches 4, and exactly when the seed's owner has four in a row through it |
| BoardModel.Board.IsFull | php/App/Models/Board.php:145-152 | true exactly when row 1 is full, and exactly when all 42 slots are taken |
| BoardModel.Board.IsValidMove | php/App/Models/Board.php:162-171 | true exactly when the column has an empty slot, and exactly when its top slot is empty |
| PlayerModel.Player.constructor | php/App/Models/Player.php:37-41 | name, colour and automatic flag are stored as given, the flag being false when omitted |
| PlayerModel.Player.GetName | php/App/Models/Player.php:50-52 | returns the current name |
| PlayerModel.Player.GetColor | php/App/Models/Player.php:59-61 | returns the current colour |
| PlayerModel.Player.GetIsAutomatic | php/App/Models/Player.php:68-70 | returns the current automatic flag |
| PlayerModel.Player.SetName | php/App/Models/Player.php:79-81 | only the name changes |
| PlayerModel.Player.SetColor | php/App/Models/Player.php:88-90 | only the colour changes |
| PlayerModel.Player.SetIsAutomatic | php/App/Models/Player.php:97-99 | only the automatic flag changes |
| PlayerModel.NewManualPlayer | php/App/Models/Player.php:37 | a player built from a name and a colour alone is manual |
| GameSpec.Opponent | php/App/Models/Game.php:174 | the other seat is always a seat, and 3 - n for a seat n |
| GameSpec.OpponentTwice | php/App/Controllers/GameController.php:93-95 | two flips give the turn back exactly when it is a seat |
| GameSpec.Lookup | php/App/Models/Game.php:183 | the player at a present key, null at a missing one |
| GameSpec.Bump | php/App/Models/Game.php:184 | the entry at the key goes up by one (a missing key counting as 0), every other entry stays |
| GameSpec.InitialState | php/App/Models/Game.php:40-55 | defines the new game: empty board, seat 1 to move, no winner, players {1: j1, 2: j2}, scores {1: 0, 2: 0} |
| GameSpec.ResetState | php/App/Models/Game.php:154-158 | defines reset: empty board, seat 1 to move, no winner, players and scores as they were |
| GameSpec.ResetIsNewGame | php/App/Models/Game.php:154-158 | after a reset the game equals a new game between the same players that keeps the scores; a second reset changes nothing |
| GameSpec.PlayState | php/App/Models/Game.php:165-167 | a move succeeds exactly when the column has room |
| GameSpec.PlayPlacesOneDisc | php/App/Models/Game.php:165-167 | a move adds exactly one disc, nextPlayer's, in the landing row, keeps gravity and changes no other field |
| GameSpec.WinsByDrop | php/App/Models/Game.php:178-181 | defines one round of the look-ahead: the column is a valid move and checkWin holds after the drop on a copy |
| GameSpec.FirstColumn | php/App/Models/Game.php:177-188 | a column scan returns 0 or a column in range that passes the test |
| GameSpec.FirstColumnIsLeast | php/App/Models/Game.php:177-188 | the scan returns 0 exactly when no column from its start passes, and no column before its result passes |
| GameSpec.FirstWinningColumn | php/App/Models/Game.php:177-188 | defines the result of one scan: the first column from 1 on whose drop wins, or 0 |
| GameSpec.FirstWinningColumnIsLeast | php/App/Models/Game.php:177-200 | the win scan finds 0 exactly when no drop wins, and otherwise the lowest winning column |
| GameSpec.ColumnsWhere | php/App/Models/Game.php:203-208 | every listed column is in 1..n and passes the test |
| GameSpec.ColumnsWhereComplete | php/App/Models/Game.php:203-208 | every column in 1..n that passes the test is listed |
| GameSpec.ColumnsWhereAscending | php/App/Models/Game.php:203-208 | the listed columns ascend strictly, so none repeats |
| GameSpec.Possibles | php/App/Models/Game.php:203-208 | defines `$possibles` as the scan of columns 1..7 for isValidMove |
| GameSpec.PossiblesAreTheValidColumns | php/App/Models/Game.php:203-208 | `$possibles` holds exactly the columns with room, in ascending order |
| GameSpec.CentralIndex | php/App/Models/Game.php:210-219 | the clamped index lies within the list, within one of half its length, and is exactly half when r is 0 |
| GameSpec.AutoMove | php/App/Models/Game.php:173-224 | the automatic player makes no move exactly when every column is full, and otherwise chooses a column with room |
| GameSpec.CentralMove | php/App/Models/Game.php:203-223 | the third tier makes no move exactly on a full board, and otherwise chooses a column with room |
| GameSpec.CentralMoveAt | php/App/Models/Game.php:210-222 | the third tier plays entry CentralIndex of `$possibles` |
| GameSpec.AutoStep | php/App/Models/Game.php:173-224 | defines playAutomatic on the state: the chosen tier's disc for nextPlayer, with the winner set and scores[2] raised on a win, and nothing on a full board |
| GameSpec.AutoStepWinsFirst | php/App/Models/Game.php:177-188 | with a winning column for nextPlayer, the lowest one is played, winner is set to players[nextPlayer], scores[2] goes up by one and scores[1] stays |
| GameSpec.AutoStepBlocksSecond | php/App/Models/Game.php:190-200 | with no winning column but one for the opponent, nextPlayer's disc goes into the lowest such column and nothing else changes |
| GameSpec.AutoStepCentralLast | php/App/Models/Game.php:202-223 | with neither, nextPlayer's disc goes into entry CentralIndex of the valid columns, which is a valid column |
| GameSpec.WinAtFirstWinningColumn | php/App/Models/Game.php:177-188 | a nonzero result of the first scan is the move |
| GameSpec.BlockAtFirstWinningColumn | php/App/Models/Game.php:190-200 | with the first scan empty, a nonzero result of the second scan is the move |
| GameSpec.CentralWhenNoWin | php/App/Models/Game.php:202-223 | with both scans empty the third tier decides |
| GameSpec.CentralStep | php/App/Models/Game.php:202-223 | with both scans empty the state gets nextPlayer's disc at the central valid column, or stays as it is on a full board |
| GameSpec.AutoStepPlacesOneDisc | php/App/Models/Game.php:173-224 | playAutomatic keeps the turn, the players and gravity, and fills exactly one slot with nextPlayer's disc in a column with room; on a full board it changes nothing |
| GameModel.Game.constructor | php/App/Models/Game.php:40-55 | seat 1 to move on a fresh empty board, no winner, scores {1: 0, 2: 0}, players {1: j1, 2: j2} |
| GameModel.Game.GetBoard | php/App/Models/Game.php:64-66 | the board object itself |
| GameModel.Game.GetNextPlayer | php/App/Models/Game.php:73-75 | the current turn |
| GameModel.Game.GetPlayers | php/App/Models/Game.php:82-84 | the current players |
| GameModel.Game.GetWinner | php/App/Models/Game.php:91-93 | the current winner |
| GameModel.Game.GetScores | php/App/Models/Game.php:100-102 | the current scores |
| GameModel.Game.SetBoard | php/App/Models/Game.php:111-113 | only the board changes |
| GameModel.Game.SetNextPlayer | php/App/Models/Game.php:120-122 | only the turn changes |
| GameModel.Game.SetPlayers | php/App/Models/Game.php:129-131 | only the players change |
| GameModel.Game.SetWinner | php/App/Models/Game.php:138-140 | only the winner changes |
| GameModel.Game.SetScores | php/App/Models/Game.php:147-149 | only the scores change |
| GameModel.Game.Reset | php/App/Models/Game.php:154-158 | a fresh empty board, seat 1 to move, no winner; players and scores kept |
| GameModel.Game.Play | php/App/Models/Game.php:165-167 | a move that succeeds exactly when the column has room, then dropping nextPlayer's disc and changing nothing else; a full column leaves the game unchanged |
| GameModel.Game.TryDrop | php/App/Models/Game.php:178-181 | on a clone, the move is valid and its checkWin holds exactly when the drop wins; the real board is not touched |
| GameModel.Game.FirstWinningMove | php/App/Models/Game.php:177-188 | the loop returns the lowest column where the player's drop wins, or 0 |
| GameModel.Game.ValidColumns | php/App/Models/Game.php:203-208 | the loop builds `$possibles`, the columns with room in ascending order |
| GameModel.Game.PlayToWin | php/App/Models/Game.php:181-185 | the first tier's commit is one automatic step of the state |
| GameModel.Game.PlayToBlock | php/App/Models/Game.php:195-197 | the second tier's commit is one automatic step of the state |
| GameModel.Game.PlayInTheMiddle | php/App/Models/Game.php:202-223 | the third tier, with the clamp, is one automatic step of the state |
| GameModel.Game.PlayAutomatic | php/App/Models/Game.php:173-224 | the whole method is one automatic step of the state, on the same board object |
| ControllerSpec.HumanMoveState | php/App/Controllers/GameController.php:79-99 | defines the human move on the state: unchanged on a full column; on a win the disc, winner players[n] and scores[n] raised; otherwise the disc, then AutoStep for the other seat and the turn handed back |
| ControllerSpec.HandleRequest | php/App/Controllers/GameController.php:67-99 | defines play on the state: a reset when asked, then the human move only when a column is given without reset |
| ControllerSpec.ResetIgnoresColumn | php/App/Controllers/GameController.php:67-79 | a reset request starts a new game between the same players with the scores kept, whatever column it names |
| ControllerSpec.EmptyRequestChangesNothing | php/App/Controllers/GameController.php:67-99 | a request with neither reset nor column changes nothing |
| ControllerSpec.FullColumnChangesNothing | php/App/Controllers/GameController.php:79-101 | a move into a full column leaves board, turn, winner and scores unchanged, with no automatic move |
| ControllerSpec.HumanWinScores | php/App/Controllers/GameController.php:85-91 | a winning human move drops the disc, sets winner to players[nextPlayer] and raises only the mover's score, keeping the turn, with no automatic move |
| ControllerSpec.NoWinThenAutomatic | php/App/Controllers/GameController.php:92-95 | after a human move that does not win, the other seat adds one disc if there is room, and the turn comes back to the mover |
| ControllerSpec.RequestKeepsPlayers | php/App/Controllers/GameController.php:62-99 | no request changes the players |
| ControllerSpec.RequestKeepsGravity | php/App/Controllers/GameController.php:79-99 | every request keeps gravity; a move into a column with room adds the human's disc and at most one more for the reply, exactly one when the human wins; any other request without reset leaves the board as it was |
| ControllerSpec.EmptyGridHasGravity | php/App/Models/Board.php:61-70 | the empty board obeys gravity |
| ControllerSpec.SeatOneKeepsTurn | php/App/Controllers/GameController.php:92-95 | with seat 1 to move, seat 1 is still to move after any request |
| ControllerSpec.AutomaticWinScoresSeatTwo | php/App/Controllers/GameController.php:92-95 | with seat 1 to move, a winning reply makes players[2] the winner and raises scores[2], and seat 1 is next |
| ControllerModel.GameController.constructor | php/App/Controllers/GameController.php:45 | constructing the controller on a game plays the request on it |
| ControllerModel.GameController.Play | php/App/Controllers/GameController.php:62-99 | the request changes the game as HandleRequest says, on the same game object |
| ControllerModel.GameController.HumanMove | php/App/Controllers/GameController.php:79-99 | the human move, with the win check or the automatic reply, is HumanMoveState of the state |
| ControllerModel.GameController.RecordWin | php/App/Controllers/GameController.php:86-89 | winner set to players[nextPlayer] and the mover's entry of the scores read before raised |
| ControllerModel.GameController.AutomaticReply | php/App/Controllers/GameController.php:93-95 | flip, one automatic step for the other seat, flip back |

## Left out

- `Game::save`, `Game::restore` and the session: persistence through PHP serialisation is I/O.
  The controller's constructor takes its game as an argument (GameController.php:33-44 are not
  part of this model). That includes building the two players from the request with
  `htmlspecialchars`, where the second player is automatic.
- The `exit` request (`session_destroy`, `header`, `exit`), the `echo` of exception messages,
  the logger and `loadView`: I/O. What the view is handed is not modelled. That is the board
  object read first (so the board after the move, or the old board after a reset), the winner
  read before the request, and the local copy of the scores, which the human-win branch raises.
- `rand(-1, 1)` is the parameter `r` (a precondition keeps it in -1..1); randomness is not modelled.
- `TableFullException` is never raised: the `throw` in `isFull` follows `return true`.
  Its `catch` in the controller is therefore not modelled.
- Out-of-range columns: PHP would read undefined indices (and create a new key on write).
  `SetMovementOnBoard`, `IsValidMove`, `Game.Play` and `Acceptable` require a column in 1..7.
  The `(int)` cast of the request's column is not modelled.
- `CheckWin` requires an occupied seed slot: PHP would pass `null` as `int $player`, a type error.
  The controller and `playAutomatic` only call it on the slot just written.
- `CountInDirection` states the run length. Its bound (at most 6, at most 5 when the row changes)
  is the lemma `BoardSpec.RunLengthBound`.
- `GameModel.Game.PlayAutomatic`: each tier scans for its column (`FirstWinningMove`, `ValidColumns`)
  and then commits it (`PlayToWin`, `PlayToBlock`, `PlayInTheMiddle`). The source commits from
  inside its loop. Only clones are touched before the commit, so the game's state is the same.
- PHP objects are shared by reference. The proofs track the board's array, the game object and
  the board object; a `Player` is never changed by the game or the controller, so it is kept as
  a reference whose fields are not followed.
