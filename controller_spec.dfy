// What one request to GameController::play does to the game, as a function on
// GameState values, and what that means for turns, scores and the board.

module ControllerSpec {
  import opened Wrappers
  import opened BoardSpec
  import opened PlayerModel
  import opened GameSpec

  /** The parts of the request that play reads: whether `reset` is set, and `columna` if it is given. */
  datatype Request = Request(reset: bool, column: Option<int>)

  /** A move request names one of the board's columns. */
  predicate Acceptable(req: Request) {
    req.column.Some? && !req.reset ==> 1 <= req.column.value <= Columns
  }

  /**
   * The human move: nextPlayer's disc falls into c. A full column raises ColumnFullException,
   * which play catches, so nothing changes. A win sets the winner and raises the mover's score.
   * Otherwise the turn passes to the other seat, the automatic player moves, and the turn
   * passes back.
   */
  function HumanMoveState(s: GameState, c: int, r: int): GameState
    requires WellFormed(s.grid) && 1 <= c <= Columns && -1 <= r <= 1
  {
    var n := s.nextPlayer;
    if !HasRoom(s.grid, c) then s
    else if WinsByDrop(s.grid, c, n) then
      s.(grid := DropGrid(s.grid, c, n), winner := Lookup(s.players, n), scores := Bump(s.scores, n))
    else
      var t := AutoStep(s.(grid := DropGrid(s.grid, c, n), nextPlayer := Opponent(n)), r);
      t.(nextPlayer := Opponent(t.nextPlayer))
  }

  /** GameController::play: a reset first if asked for; a move only when a column is given and there was no reset. */
  function HandleRequest(s: GameState, req: Request, r: int): GameState
    requires WellFormed(s.grid) && -1 <= r <= 1 && Acceptable(req)
  {
    var s1 := if req.reset then ResetState(s) else s;
    if req.column.Some? && !req.reset then HumanMoveState(s1, req.column.value, r) else s1
  }

  /** A reset request starts a new game on the same players and scores, whatever column it also names. */
  lemma ResetIgnoresColumn(s: GameState, req: Request, r: int)
    requires WellFormed(s.grid) && -1 <= r <= 1 && Acceptable(req)
    requires req.reset && s.players.Keys == {1, 2}
    ensures HandleRequest(s, req, r) == InitialState(s.players[1], s.players[2]).(scores := s.scores)
  {
    ResetIsNewGame(s);
  }

  /** A request with neither reset nor column changes nothing. */
  lemma EmptyRequestChangesNothing(s: GameState, r: int)
    requires WellFormed(s.grid) && -1 <= r <= 1
    ensures HandleRequest(s, Request(false, None), r) == s
  {
  }

  /** A move into a full column is swallowed: the state is exactly as before. */
  lemma FullColumnChangesNothing(s: GameState, c: int, r: int)
    requires WellFormed(s.grid) && 1 <= c <= Columns && -1 <= r <= 1
    requires !HasRoom(s.grid, c)
    ensures HandleRequest(s, Request(false, Some(c)), r) == s
  {
  }

  /** A winning human move: the disc lands, the mover becomes the winner and only the mover's score goes up. */
  lemma HumanWinScores(s: GameState, c: int, r: int)
    requires WellFormed(s.grid) && 1 <= c <= Columns && -1 <= r <= 1
    requires WinsByDrop(s.grid, c, s.nextPlayer)
    ensures var t := HandleRequest(s, Request(false, Some(c)), r);
      && t.grid == DropGrid(s.grid, c, s.nextPlayer)
      && t.nextPlayer == s.nextPlayer && t.players == s.players
      && t.winner == Lookup(s.players, s.nextPlayer)
      && (s.nextPlayer in s.scores ==> t.scores[s.nextPlayer] == s.scores[s.nextPlayer] + 1)
      && (forall k :: k in s.scores && k != s.nextPlayer ==> t.scores[k] == s.scores[k])
  {
  }

  /**
   * A human move that does not win: the automatic player, sitting in the other seat, answers
   * with one disc of its own wherever there is room, and the turn comes back to the mover.
   */
  lemma NoWinThenAutomatic(s: GameState, c: int, r: int)
    requires WellFormed(s.grid) && 1 <= c <= Columns && -1 <= r <= 1
    requires Seat(s.nextPlayer) && HasRoom(s.grid, c) && !WinsByDrop(s.grid, c, s.nextPlayer)
    ensures var g1 := DropGrid(s.grid, c, s.nextPlayer);
      var t := HandleRequest(s, Request(false, Some(c)), r);
      && t.nextPlayer == s.nextPlayer && t.players == s.players
      && ((exists c' :: 1 <= c' <= Columns && HasRoom(g1, c')) ==>
            exists c' :: 1 <= c' <= Columns && HasRoom(g1, c') &&
              t.grid == DropGrid(g1, c', Opponent(s.nextPlayer)))
      && ((forall c' :: 1 <= c' <= Columns ==> !HasRoom(g1, c')) ==>
            t.grid == g1 && t.winner == s.winner && t.scores == s.scores)
  {
    var n := s.nextPlayer;
    var s1 := s.(grid := DropGrid(s.grid, c, n), nextPlayer := Opponent(n));
    AutoStepPlacesOneDisc(s1, r);
    OpponentTwice(n);
  }

  /** No request changes who plays: a reset keeps the players, and so does every move. */
  lemma RequestKeepsPlayers(s: GameState, req: Request, r: int)
    requires WellFormed(s.grid) && -1 <= r <= 1 && Acceptable(req)
    ensures HandleRequest(s, req, r).players == s.players
  {
    if !req.reset && req.column.Some? {
      var c := req.column.value;
      var n := s.nextPlayer;
      if HasRoom(s.grid, c) && !WinsByDrop(s.grid, c, n) {
        AutoStepPlacesOneDisc(s.(grid := DropGrid(s.grid, c, n), nextPlayer := Opponent(n)), r);
      }
    }
  }

  /**
   * Every request keeps gravity. A move into a column with room adds the human's disc and at
   * most one more for the reply, exactly one when the human wins; any other request without
   * a reset adds nothing.
   */
  lemma RequestKeepsGravity(s: GameState, req: Request, r: int)
    requires WellFormed(s.grid) && -1 <= r <= 1 && Acceptable(req)
    requires Gravity(s.grid)
    ensures var t := HandleRequest(s, req, r);
      && WellFormed(t.grid) && Gravity(t.grid)
      && (!req.reset ==> |Occupied(s.grid)| <= |Occupied(t.grid)| <= |Occupied(s.grid)| + 2)
      && (req.column.Some? && !req.reset && HasRoom(s.grid, req.column.value) ==>
            |Occupied(s.grid)| + 1 <= |Occupied(t.grid)|)
      && (req.column.Some? && !req.reset && HasRoom(s.grid, req.column.value) &&
          WinsByDrop(s.grid, req.column.value, s.nextPlayer) ==>
            |Occupied(t.grid)| == |Occupied(s.grid)| + 1)
      && (!req.reset && (req.column.None? || !HasRoom(s.grid, req.column.value)) ==> t.grid == s.grid)
  {
    if req.reset {
      EmptyGridHasGravity();
    } else if req.column.Some? {
      var c := req.column.value;
      var n := s.nextPlayer;
      if HasRoom(s.grid, c) {
        DropAddsOneDisc(s.grid, c, n);
        if !WinsByDrop(s.grid, c, n) {
          AutoStepPlacesOneDisc(s.(grid := DropGrid(s.grid, c, n), nextPlayer := Opponent(n)), r);
        }
      }
    }
  }

  /** The empty board obeys gravity. */
  lemma EmptyGridHasGravity()
    ensures Gravity(EmptyGrid())
  {
  }

  /**
   * Seat 1 keeps the turn across every request: a new game and a reset give it the turn, and
   * each move hands it back. So through the controller the automatic player is always seat 2.
   */
  lemma SeatOneKeepsTurn(s: GameState, req: Request, r: int)
    requires WellFormed(s.grid) && -1 <= r <= 1 && Acceptable(req)
    requires s.nextPlayer == 1
    ensures HandleRequest(s, req, r).nextPlayer == 1
  {
    if !req.reset && req.column.Some? {
      var c := req.column.value;
      if HasRoom(s.grid, c) && !WinsByDrop(s.grid, c, 1) {
        AutoStepPlacesOneDisc(s.(grid := DropGrid(s.grid, c, 1), nextPlayer := 2), r);
      }
    }
  }

  /**
   * With seat 1 to move, a winning reply of the automatic player makes seat 2 the winner, and
   * the hard-coded `scores[2]++` raises the score of exactly that player.
   */
  lemma AutomaticWinScoresSeatTwo(s: GameState, c: int, r: int)
    requires WellFormed(s.grid) && 1 <= c <= Columns && -1 <= r <= 1
    requires s.nextPlayer == 1 && HasRoom(s.grid, c) && !WinsByDrop(s.grid, c, 1)
    requires exists c' :: 1 <= c' <= Columns && WinsByDrop(DropGrid(s.grid, c, 1), c', 2)
    ensures var t := HandleRequest(s, Request(false, Some(c)), r);
      && t.winner == Lookup(s.players, 2)
      && t.scores == Bump(s.scores, 2)
      && t.nextPlayer == 1
  {
    AutoStepWinsFirst(s.(grid := DropGrid(s.grid, c, 1), nextPlayer := 2), r);
  }
}
