/**
 * GameController.php: handles one request against the current game. Proved against
 * ControllerSpec.HandleRequest.
 */
module ControllerModel {
  import opened Wrappers
  import opened BoardSpec
  import opened BoardModel
  import opened PlayerModel
  import opened GameSpec
  import opened GameModel
  import opened ControllerSpec

  class GameController {
    var game: Game

    /**
     * GameController::__construct on a game it is handed (building it from the request or
     * restoring it from the session happens outside): the request is played at once.
     */
    constructor (game: Game, request: Request, r: int)
      requires game.Valid() && -1 <= r <= 1 && Acceptable(request)
      modifies game, game.board.slots
      ensures this.game == game && game.Valid()
      ensures game.Abstract() == HandleRequest(old(game.Abstract()), request, r)
    {
      this.game := game;
      new;
      Play(request, r);
    }

    /**
     * GameController::play, without the session, the views and `exit`: reset when asked, then
     * the human move on the board taken before the reset, a win check on the new disc, and
     * otherwise the automatic reply between two flips of the turn. A full column is ignored.
     */
    method Play(request: Request, r: int)
      requires game.Valid() && -1 <= r <= 1 && Acceptable(request)
      modifies game, game.board.slots
      ensures game == old(game) && game.Valid()
      ensures game.Abstract() == HandleRequest(old(game.Abstract()), request, r)
    {
      var board := game.GetBoard();
      var players := game.GetPlayers();
      var scores := game.GetScores();

      if request.reset {
        game.Reset();
      }

      if request.column.Some? && !request.reset {
        var columna := request.column.value;
        HumanMove(board, players, scores, columna, r);
      }
    }

    /** The `try` block of GameController::play for column `columna`, on the board, players and scores read before. */
    method HumanMove(board: Board, players: map<int, Player>, scores: map<int, int>, columna: int, r: int)
      requires game.Valid() && board == game.board && players == game.players && scores == game.scores
      requires 1 <= columna <= Columns && -1 <= r <= 1
      modifies game, board.slots
      ensures game == old(game) && game.Valid()
      ensures game.Abstract() == HumanMoveState(old(game.Abstract()), columna, r)
    {
      ghost var s := game.Abstract();
      var lastMoveCoords := board.SetMovementOnBoard(columna, game.GetNextPlayer());
      if lastMoveCoords.ColumnFull? {
        assert game.Abstract() == s;
        return;
      }
      ghost var g1 := DropGrid(s.grid, columna, s.nextPlayer);
      assert board.Slots() == g1;
      var won := board.CheckWin(lastMoveCoords.row, lastMoveCoords.column);
      assert won <==> WinsByDrop(s.grid, columna, s.nextPlayer);
      if won {
        RecordWin(players, scores);
      } else {
        AutomaticReply(r);
      }
    }

    /** The winning branch of GameController::play: the mover becomes the winner and the mover's score goes up. */
    method RecordWin(players: map<int, Player>, scores: map<int, int>)
      requires game.Valid() && players == game.players && scores == game.scores
      modifies game
      ensures game == old(game) && game.board == old(game.board) && game.Valid()
      ensures game.Abstract() ==
                old(game.Abstract()).(winner := Lookup(players, game.nextPlayer), scores := Bump(scores, game.nextPlayer))
    {
      var winningPlayer := Lookup(players, game.GetNextPlayer());
      game.SetWinner(winningPlayer);
      var newScores := Bump(scores, game.GetNextPlayer());
      game.SetScores(newScores);
    }

    /** The other branch: the turn passes to the automatic player, it moves, and the turn passes back. */
    method AutomaticReply(r: int)
      requires game.Valid() && -1 <= r <= 1
      modifies game, game.board.slots
      ensures game == old(game) && game.board == old(game.board) && game.Valid()
      ensures var t := AutoStep(old(game.Abstract()).(nextPlayer := Opponent(old(game.nextPlayer))), r);
        game.Abstract() == t.(nextPlayer := Opponent(t.nextPlayer))
    {
      ghost var s := game.Abstract();
      game.SetNextPlayer(if game.GetNextPlayer() == 1 then 2 else 1);
      assert game.Abstract() == s.(nextPlayer := Opponent(s.nextPlayer));
      game.PlayAutomatic(r);
      ghost var t := game.Abstract();
      game.SetNextPlayer(if game.GetNextPlayer() == 1 then 2 else 1);
      assert game.Abstract() == t.(nextPlayer := Opponent(t.nextPlayer));
    }
  }
}
