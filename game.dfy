/**
 * Game.php: a match between two players on one board, whose fields are updated
 * in place. Every method is proved against the value-level account in GameSpec:
 * Abstract() is the GameState the object stands for.
 */
module GameModel {
  import opened Wrappers
  import opened BoardSpec
  import opened BoardModel
  import opened PlayerModel
  import opened GameSpec

  class Game {
    var board: Board
    var nextPlayer: int
    var players: map<int, Player>
    var winner: Player?
    var scores: map<int, int>

    /** The object invariant: the board is a valid 6 x 7 board. */
    ghost predicate Valid()
      reads this, board, board.slots
    {
      board.Valid()
    }

    /** The game as a value: the board's grid and the other four fields. */
    ghost function Abstract(): GameState
      reads this, board, board.slots
      requires Valid()
    {
      GameState(board.Slots(), nextPlayer, players, winner, scores)
    }

    /** Game::__construct: seat 1 to move on an empty board, no winner, both scores 0. */
    constructor (jugador1: Player, jugador2: Player)
      ensures Valid() && fresh(board) && fresh(board.slots)
      ensures Abstract() == InitialState(jugador1, jugador2)
    {
      players := map[1 := jugador1, 2 := jugador2];
      nextPlayer := 1;
      board := new Board();
      winner := null;
      scores := map[1 := 0, 2 := 0];
    }

    /** Game::getBoard: the board object itself, not a copy. */
    function GetBoard(): (b: Board)
      reads this
      ensures b == board
    {
      board
    }

    /** Game::getNextPlayer */
    function GetNextPlayer(): (n: int)
      reads this
      ensures n == nextPlayer
    {
      nextPlayer
    }

    /** Game::getPlayers */
    function GetPlayers(): (ps: map<int, Player>)
      reads this
      ensures ps == players
    {
      players
    }

    /** Game::getWinner */
    function GetWinner(): (w: Player?)
      reads this
      ensures w == winner
    {
      winner
    }

    /** Game::getScores */
    function GetScores(): (s: map<int, int>)
      reads this
      ensures s == scores
    {
      scores
    }

    /** Game::setBoard: the game now plays on `board`; the other fields stay. */
    method SetBoard(board: Board)
      modifies this
      ensures this.board == board
      ensures nextPlayer == old(nextPlayer) && players == old(players)
      ensures winner == old(winner) && scores == old(scores)
    {
      this.board := board;
    }

    /** Game::setNextPlayer: only the turn changes. */
    method SetNextPlayer(nextPlayer: int)
      modifies this
      ensures this.nextPlayer == nextPlayer
      ensures board == old(board) && players == old(players)
      ensures winner == old(winner) && scores == old(scores)
    {
      this.nextPlayer := nextPlayer;
    }

    /** Game::setPlayers: only the players change. */
    method SetPlayers(players: map<int, Player>)
      modifies this
      ensures this.players == players
      ensures board == old(board) && nextPlayer == old(nextPlayer)
      ensures winner == old(winner) && scores == old(scores)
    {
      this.players := players;
    }

    /** Game::setWinner: only the winner changes. */
    method SetWinner(winner: Player?)
      modifies this
      ensures this.winner == winner
      ensures board == old(board) && nextPlayer == old(nextPlayer)
      ensures players == old(players) && scores == old(scores)
    {
      this.winner := winner;
    }

    /** Game::setScores: only the scores change. */
    method SetScores(scores: map<int, int>)
      modifies this
      ensures this.scores == scores
      ensures board == old(board) && nextPlayer == old(nextPlayer)
      ensures players == old(players) && winner == old(winner)
    {
      this.scores := scores;
    }

    /** Game::reset: a new empty board, seat 1 to move and no winner; players and scores are kept. */
    method Reset()
      requires Valid()
      modifies this
      ensures Valid() && fresh(board) && fresh(board.slots)
      ensures Abstract() == ResetState(old(Abstract()))
    {
      board := new Board();
      nextPlayer := 1;
      winner := null;
    }

    /** Game::play: nextPlayer's disc falls into `column`; ColumnFull stands for ColumnFullException. */
    method Play(column: int) returns (res: Placement)
      requires Valid() && 1 <= column <= Columns
      modifies board.slots
      ensures Valid()
      ensures res.Placed? <==> HasRoom(old(Abstract()).grid, column)
      ensures res.Placed? ==> Abstract() == PlayState(old(Abstract()), column).value
      ensures res.ColumnFull? ==> Abstract() == old(Abstract())
    {
      res := board.SetMovementOnBoard(column, nextPlayer);
    }

    /**
     * One round of the first two scans of playAutomatic: on a clone of the board, is
     * `column` a valid move and does a disc of `player` there make checkWin true?
     * The game's own board is left as it was.
     */
    method TryDrop(column: int, player: int) returns (won: bool)
      requires Valid() && 1 <= column <= Columns
      ensures won <==> WinsByDrop(board.Slots(), column, player)
    {
      ghost var g := board.Slots();
      var tempBoard := new Board.CloneOf(board);
      var valid := tempBoard.IsValidMove(column);
      if !valid {
        return false;
      }
      var coord := tempBoard.SetMovementOnBoard(column, player);
      ghost var g' := tempBoard.Slots();
      assert g' == DropGrid(g, column, player);
      assert At(g', coord.row, coord.column) == Disc(player);
      won := tempBoard.CheckWin(coord.row, coord.column);
      assert won <==> Wins(g', LowestEmptyRow(g, column), column);
      assert unchanged(board.slots);
      assert board.Slots() == g;
      assert WinsByDrop(g, column, player) == Wins(g', LowestEmptyRow(g, column), column);
    }

    /** One of the first two scans of playAutomatic: the lowest column where a drop of `player` wins, or 0. */
    method FirstWinningMove(player: int) returns (column: int)
      requires Valid()
      ensures column == FirstWinningColumn(board.Slots(), player)
    {
      ghost var f := WinningDrop(board.Slots(), player);
      for col := 1 to Columns + 1
        invariant FirstColumn(f, col) == FirstColumn(f, 1)
      {
        var won := TryDrop(col, player);
        if won {
          assert f(col);
          return col;
        }
      }
      return 0;
    }

    /** The third scan of playAutomatic: `$possibles`, the columns where isValidMove holds, in order. */
    method ValidColumns() returns (possibles: seq<int>)
      requires Valid()
      ensures possibles == Possibles(board.Slots())
    {
      ghost var f := ValidMove(board.Slots());
      possibles := [];
      for col := 1 to Columns + 1
        invariant possibles == ColumnsWhere(f, col - 1)
      {
        var valid := board.IsValidMove(col);
        assert valid == f(col);
        if valid {
          possibles := possibles + [col];
        }
      }
    }

    /** The first tier of playAutomatic: play the winning column, set the winner and raise scores[2]. */
    method PlayToWin(column: int, r: int)
      requires Valid() && -1 <= r <= 1
      requires column != 0 && column == FirstWinningColumn(board.Slots(), nextPlayer)
      modifies this, board.slots
      ensures Valid() && board == old(board)
      ensures Abstract() == AutoStep(old(Abstract()), r)
    {
      ghost var s := Abstract();
      WinAtFirstWinningColumn(s.grid, s.nextPlayer, r);
      var _ := Play(column);
      SetWinner(Lookup(players, nextPlayer));
      scores := Bump(scores, 2);
    }

    /**
     * Game::playAutomatic, with r standing for rand(-1, 1): the lowest column where
     * nextPlayer wins (then the winner is set and scores[2] raised), else the lowest
     * column that blocks the opponent, else the valid column near the middle.
     */
    method PlayAutomatic(r: int)
      requires Valid() && -1 <= r <= 1
      modifies this, board.slots
      ensures Valid() && board == old(board)
      ensures Abstract() == AutoStep(old(Abstract()), r)
    {
      ghost var s := Abstract();
      var opponent := if nextPlayer == 1 then 2 else 1;
      assert opponent == Opponent(s.nextPlayer);

      var col := FirstWinningMove(nextPlayer);
      assert Abstract() == s;
      if col != 0 {
        PlayToWin(col, r);
        return;
      }

      col := FirstWinningMove(opponent);
      assert Abstract() == s;
      if col != 0 {
        PlayToBlock(col, r);
        return;
      }

      PlayInTheMiddle(r);
    }

    /** The second tier of playAutomatic: nextPlayer's disc goes where the opponent would win. */
    method PlayToBlock(column: int, r: int)
      requires Valid() && -1 <= r <= 1
      requires FirstWinningColumn(board.Slots(), nextPlayer) == 0
      requires column != 0 && column == FirstWinningColumn(board.Slots(), Opponent(nextPlayer))
      modifies board.slots
      ensures Valid()
      ensures Abstract() == AutoStep(old(Abstract()), r)
    {
      BlockAtFirstWinningColumn(board.Slots(), nextPlayer, r);
      var _ := Play(column);
    }

    /** The third tier of playAutomatic: the valid column at `(int)(count / 2) + r`, clamped. */
    method PlayInTheMiddle(r: int)
      requires Valid() && -1 <= r <= 1
      requires FirstWinningColumn(board.Slots(), nextPlayer) == 0
      requires FirstWinningColumn(board.Slots(), Opponent(nextPlayer)) == 0
      modifies board.slots
      ensures Valid()
      ensures Abstract() == AutoStep(old(Abstract()), r)
    {
      ghost var s := Abstract();
      var possibles := ValidColumns();
      assert Abstract() == s;
      CentralStep(s, r);
      if |possibles| > 0 {
        var middle := |possibles| / 2 + r;
        if middle < 0 {
          middle := 0;
        } else if middle >= |possibles| {
          middle := |possibles| - 1;
        }
        assert middle == CentralIndex(|possibles|, r);
        var inthemiddle := possibles[middle];
        var _ := Play(inthemiddle);
      }
    }
  }
}
