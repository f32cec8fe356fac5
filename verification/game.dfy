/** The turn state machine of src/game/game.py: whose turn it is, which
    sub-board the next move is sent to, the winner and the turn counter,
    driving the board one move at a time, plus the snapshot used to save
    and load a game. */
module Game {
  import opened Common
  import opened Grid
  import opened Board

  datatype Game = Game(
    board: Board,
    next: (int, int),           // forced sub-board (big_x, big_y), or ANYWHERE
    currentPlayer: Player,
    winner: Option<Player>,
    turns: int,
    testMode: bool,
    mode: int,                  // the configured opponent; only carried along
    agentName: string)

  /** What every game built by `NewGame`, or by `Load` from the snapshot of
      a valid game, and advanced by `TakeTurn` satisfies: outcomes agree with their sub-boards, the forced sub-board
      is open, test mode never forces a sub-board, and a recorded winner
      holds a line of the outer board. */
  ghost predicate Valid(g: Game) {
    && Consistent(g.board)
    && (g.next == ANYWHERE ||
        (InRange(g.next.0) && InRange(g.next.1) && Outcome(g.board, g.next.0, g.next.1) == EMPTY))
    && (g.testMode ==> g.next == ANYWHERE)
    && (g.winner.Some? ==> CheckBigWin(g.board, g.winner.value))
  }

  /** `Game.__init__`: empty board, player 1 to move, free choice of sub-board, no winner, no turns. */
  function NewGame(mode: int, testMode: bool, agentName: string): (g: Game)
    ensures g.board == Empty()
    ensures g.currentPlayer == PLAYER1 && g.winner == None && g.next == ANYWHERE && g.turns == 0
    ensures g.testMode == testMode && g.mode == mode && g.agentName == agentName
    ensures Valid(g)
  {
    EmptyConsistent();
    Game(Empty(), ANYWHERE, PLAYER1, None, 0, testMode, mode, agentName)
  }

  /** `switch_player`: hands the turn to the other player and changes nothing else. */
  function SwitchPlayer(g: Game): (r: Game)
    ensures r.currentPlayer != g.currentPlayer
    ensures r == g.(currentPlayer := r.currentPlayer)
  {
    g.(currentPlayer := Other(g.currentPlayer))
  }

  lemma SwitchPlayerTwice(g: Game)
    ensures SwitchPlayer(SwitchPlayer(g)) == g
  {
  }

  /** `take_turn`: `None` is the RuntimeError it raises when the move is
      outside the forced sub-board or the board rejects it; the game is then
      unchanged. On success it records a win of the outer board, sends the
      opponent to the sub-board named by the cell just played (or anywhere
      if that one is claimed, and always anywhere in test mode), counts the
      turn and, outside test mode, passes the turn — also after a winning move. */
  function TakeTurn(g: Game, bigX: int, bigY: int, smallX: int, smallY: int): (r: Option<Game>)
    requires g.board.WellShaped()
    ensures r.None? <==>
      (g.next != ANYWHERE && g.next != (bigX, bigY)) ||
      !PlayTurn(g.board, g.currentPlayer, bigX, bigY, smallX, smallY).ok
    ensures r.Some? ==>
      var h := r.value;
      && h.board == PlayTurn(g.board, g.currentPlayer, bigX, bigY, smallX, smallY).board
      && InRange(bigX) && InRange(bigY) && InRange(smallX) && InRange(smallY)
      && h.turns == g.turns + 1
      // the mover wins the game when this move completed a line in its
      // sub-board and the outer board now has a line of theirs
      && h.winner == (if HasLine(Sub(h.board, bigX, bigY), g.currentPlayer) && HasLine(h.board.big, g.currentPlayer)
                      then Some(g.currentPlayer) else g.winner)
      && h.next == (if !g.testMode && Outcome(h.board, smallX, smallY) == EMPTY then (smallX, smallY) else ANYWHERE)
      && h.currentPlayer == (if g.testMode then g.currentPlayer else Other(g.currentPlayer))
      && h.testMode == g.testMode && h.mode == g.mode && h.agentName == g.agentName
  {
    if g.next != ANYWHERE && g.next != (bigX, bigY) then
      None
    else
      var placed := PlayTurn(g.board, g.currentPlayer, bigX, bigY, smallX, smallY);
      if !placed.ok then
        None
      else
        var b := placed.board;
        var winner :=
          if CheckSmallWin(b, g.currentPlayer, bigX, bigY) && CheckBigWin(b, g.currentPlayer)
          then Some(g.currentPlayer) else g.winner;
        var next :=
          if !g.testMode && CheckSmallBoardValid(b, smallX, smallY) then (smallX, smallY) else ANYWHERE;
        var h := g.(board := b, winner := winner, next := next, turns := g.turns + 1);
        Some(if !g.testMode then SwitchPlayer(h) else h)
  }

  /** A move is accepted exactly when it is one of the moves `valid_moves(next)` lists. */
  lemma AcceptedIffValidMove(g: Game, m: Move)
    requires g.board.WellShaped()
    ensures TakeTurn(g, m.bigX, m.bigY, m.smallX, m.smallY).Some? <==> IsValidMove(g.board, g.next, m)
  {
  }

  /** A move outside the forced sub-board is refused and the game is unchanged. */
  lemma WrongSubBoardRejected(g: Game, m: Move)
    requires g.board.WellShaped()
    requires g.next != ANYWHERE && g.next != (m.bigX, m.bigY)
    ensures TakeTurn(g, m.bigX, m.bigY, m.smallX, m.smallY).None?
  {
  }

  /** `take_turn` preserves `Valid`. */
  lemma TakeTurnValid(g: Game, bigX: int, bigY: int, smallX: int, smallY: int)
    requires Valid(g)
    ensures var r := TakeTurn(g, bigX, bigY, smallX, smallY);
      r.Some? ==> Valid(r.value)
  {
    var r := TakeTurn(g, bigX, bigY, smallX, smallY);
    if r.Some? {
      PlayTurnConsistent(g.board, g.currentPlayer, bigX, bigY, smallX, smallY);
      if g.winner.Some? && r.value.winner == g.winner {
        var b, c := g.board, r.value.board;
        forall y, x | 0 <= y < 3 && 0 <= x < 3 && b.big[y][x] == g.winner.value
          ensures c.big[y][x] == g.winner.value
        {
          assert Outcome(b, x, y) != EMPTY;
        }
        HasLineKept(b.big, c.big, g.winner.value);
      }
    }
  }

  /** Outside a full board the player to move always has a valid move: the
      forced sub-board is open, and an open sub-board has an empty cell. */
  lemma MoveAvailable(g: Game) returns (m: Move)
    requires Valid(g) && !IsFull(g.board)
    ensures IsValidMove(g.board, g.next, m)
  {
    if g.next == ANYWHERE {
      var x, y :| 0 <= x < 3 && 0 <= y < 3 && CheckSmallBoardValid(g.board, x, y);
      m := OpenSubBoardHasMove(g.board, x, y);
    } else {
      m := OpenSubBoardHasMove(g.board, g.next.0, g.next.1);
    }
  }

  /** The game after feeding `moves` to `take_turn` in order; `None` as soon as one raises. */
  function PlayMoves(g: Game, moves: seq<Move>): (r: Option<Game>)
    requires g.board.WellShaped()
    ensures r.Some? ==> r.value.board.WellShaped()
    decreases |moves|
  {
    if moves == [] then
      Some(g)
    else
      var m := moves[0];
      match TakeTurn(g, m.bigX, m.bigY, m.smallX, m.smallY)
      case None => None
      case Some(h) => PlayMoves(h, moves[1..])
  }

  /** Along any run of accepted moves `Valid` holds throughout, the turn
      counter grows by exactly one per move, and a recorded winner is never
      cleared. */
  lemma {:induction false} PlayMovesValid(g: Game, moves: seq<Move>)
    requires Valid(g)
    ensures var r := PlayMoves(g, moves);
      r.Some? ==> Valid(r.value) && r.value.turns == g.turns + |moves| && (g.winner.Some? ==> r.value.winner.Some?)
    decreases |moves|
  {
    if moves != [] {
      var m := moves[0];
      TakeTurnValid(g, m.bigX, m.bigY, m.smallX, m.smallY);
      var h := TakeTurn(g, m.bigX, m.bigY, m.smallX, m.smallY);
      if h.Some? {
        PlayMovesValid(h.value, moves[1..]);
      }
    }
  }

  /** Every game played from a new game satisfies `Valid`. */
  lemma ReachableValid(mode: int, testMode: bool, agentName: string, moves: seq<Move>)
    ensures var r := PlayMoves(NewGame(mode, testMode, agentName), moves);
      r.Some? ==> Valid(r.value) && r.value.turns == |moves|
  {
    PlayMovesValid(NewGame(mode, testMode, agentName), moves);
  }

  // ---------------------------------------------------------------------
  // Snapshot

  /** The fields `to_json` writes. */
  datatype Snapshot = Snapshot(
    board: seq<seq<seq<seq<int>>>>,
    bigBoard: seq<seq<int>>,
    currentPlayer: Player,
    next: (int, int),
    mode: int,
    agentName: string)

  /** `to_json`: board arrays, player to move, forced sub-board, mode and agent name. */
  function ToJson(g: Game): (s: Snapshot)
    ensures s.board == g.board.cells && s.bigBoard == g.board.big
    ensures s.currentPlayer == g.currentPlayer && s.next == g.next
    ensures s.mode == g.mode && s.agentName == g.agentName
  {
    Snapshot(g.board.cells, g.board.big, g.currentPlayer, g.next, g.mode, g.agentName)
  }

  /** `load`: a new game (not in test mode) with the snapshot's fields copied in;
      winner and turn counter start afresh. */
  function Load(s: Snapshot): (g: Game)
    ensures g.winner == None && g.turns == 0 && !g.testMode
    ensures g.board == Board(s.board, s.bigBoard)
  {
    var created := NewGame(s.mode, false, s.agentName);
    created.(board := Board(s.board, s.bigBoard), currentPlayer := s.currentPlayer, next := (s.next.0, s.next.1))
  }

  /** Saving then loading keeps everything the snapshot holds and resets the rest. */
  lemma LoadToJson(g: Game)
    ensures Load(ToJson(g)) == g.(winner := None, turns := 0, testMode := false)
  {
  }

  /** Loading then saving gives back the snapshot. */
  lemma ToJsonLoad(s: Snapshot)
    ensures ToJson(Load(s)) == s
  {
  }

  /** A valid game reloads as a valid game. A game saved in test mode comes
      back outside test mode, so forcing and turn rotation resume. */
  lemma LoadToJsonValid(g: Game)
    requires Valid(g)
    ensures Valid(Load(ToJson(g)))
  {
  }
}
