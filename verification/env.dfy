/** The deterministic part of the training environment of
    src/agent/tictactoe_env.py: the flat action codec and the rewards of
    one step. The opponent's reply, which the environment samples from a
    bot, is a parameter here. */
module Env {
  import opened Common
  import opened Grid
  import opened Board
  import opened Game

  /** `action_coordinates`: a flat action to `(big_x, big_y, small_x, small_y)`.
      Python's `//` and `%` round toward minus infinity; for the positive
      divisors used here that is exactly Dafny's `/` and `%`. The action is
      read as the base-3 number `big_y small_y big_x small_x`, i.e. a 9×9
      picture of the board scanned row by row. */
  function ActionCoordinates(action: int): (m: Move)
    ensures 0 <= action < 81 ==> m.InBounds() && Flat(m.bigY, m.smallY, m.bigX, m.smallX) == action
  {
    var m := Move((action % 9) / 3, (action / 9) / 3, action % 3, (action / 9) % 3);
    assert 0 <= action < 81 ==> m.InBounds() && Flat(m.bigY, m.smallY, m.bigX, m.smallX) == action by {
      if 0 <= action < 81 {
        FlatOfDigits(action);
      }
    }
    m
  }

  /** The inverse direction: every in-bounds move is the coordinates of the
      action `27*big_y + 9*small_y + 3*big_x + small_x`, so the codec is a
      bijection from 0..80 onto the 81 cells. */
  lemma ActionOfMove(m: Move)
    requires m.InBounds()
    ensures var a := Flat(m.bigY, m.smallY, m.bigX, m.smallX);
      0 <= a < 81 && ActionCoordinates(a) == m
  {
    DigitsOfFlat(m.bigY, m.smallY, m.bigX, m.smallX);
  }

  /** Distinct actions of 0..80 name distinct cells. */
  lemma ActionCoordinatesInjective(a: int, b: int)
    requires 0 <= a < 81 && 0 <= b < 81 && a != b
    ensures ActionCoordinates(a) != ActionCoordinates(b)
  {
  }

  /** Action 0 is the top-left cell of the top-left sub-board. */
  lemma FirstAction()
    ensures ActionCoordinates(0) == Move(0, 0, 0, 0)
  {
    assert 0 / 9 == 0 && 0 % 9 == 0 && 0 / 3 == 0 && 0 % 3 == 0;
  }

  /** Action 1 is the next cell to the right, in the same row of the same sub-board. */
  lemma SecondAction()
    ensures ActionCoordinates(1) == Move(0, 0, 1, 0)
  {
  }

  /** Action 80 is the bottom-right cell of the bottom-right sub-board. */
  lemma LastAction()
    ensures ActionCoordinates(80) == Move(2, 2, 2, 2)
  {
  }

  /** The environment's state: the game and the reward a win would still earn. */
  datatype Env = Env(game: Game, winReward: int)

  /** `reset` for an agent that moves first: game mode 2, no autosave, win reward 100. */
  function InitialEnv(): (e: Env)
    ensures e.game == NewGame(2, false, "") && e.winReward == 100
    ensures Valid(e.game)
  {
    Env(NewGame(2, false, ""), 100)
  }

  /** The observation-free result of `step`: new state, reward and `done`. */
  datatype StepResult = StepResult(env: Env, reward: int, done: bool)

  /** `step(action)` with the opponent's reply given. `None` is the
      RuntimeError that escapes `step` when the reply itself is refused. */
  function Step(e: Env, action: int, reply: Move): (r: Option<StepResult>)
    requires e.game.board.WellShaped()
    // an illegal action ends the episode with -100 and leaves the game as it was
    ensures TakeTurn(e.game, ActionCoordinates(action).bigX, ActionCoordinates(action).bigY,
                     ActionCoordinates(action).smallX, ActionCoordinates(action).smallY).None?
            ==> r == Some(StepResult(e, -100, true))
    ensures r.Some? ==> r.value.env.game.board.WellShaped()
    // a terminal step keeps the win reward; a non-terminal one lowers it by one
    ensures r.Some? && r.value.done ==> r.value.env.winReward == e.winReward
    ensures r.Some? && !r.value.done ==>
      && r.value.env.winReward == e.winReward - 1
      && r.value.env.game.winner.None?
      && !IsFull(r.value.env.game.board)
      && -11 <= r.value.reward <= 13
    ensures r.None? ==> !TakeTurn(e.game, ActionCoordinates(action).bigX, ActionCoordinates(action).bigY,
                                  ActionCoordinates(action).smallX, ActionCoordinates(action).smallY).None?
  {
    var m := ActionCoordinates(action);
    var agent := e.game.currentPlayer;
    match TakeTurn(e.game, m.bigX, m.bigY, m.smallX, m.smallY)
    case None =>
      Some(StepResult(e, -100, true))
    case Some(g1) =>
      if g1.winner.Some? then
        Some(StepResult(Env(g1, e.winReward), e.winReward, true))
      else
        var reward := 1 + (if CheckSmallWin(g1.board, agent, m.bigX, m.bigY) then 5 else 0);
        if IsFull(g1.board) then
          Some(StepResult(Env(g1, e.winReward), reward, true))
        else
          var reward := reward - (if g1.next == ANYWHERE then 7 else 0);
          OpponentTurn(g1, reply, reward, e.winReward)
  }

  /** The second half of `step`: the opponent's reply to `g1`, with the
      agent's reward so far. `None` is the RuntimeError of a refused reply. */
  function OpponentTurn(g1: Game, reply: Move, reward: int, winReward: int): (r: Option<StepResult>)
    requires g1.board.WellShaped()
    ensures r.None? <==> TakeTurn(g1, reply.bigX, reply.bigY, reply.smallX, reply.smallY).None?
    ensures r.Some? ==> r.value.env.game.board.WellShaped()
    ensures r.Some? && r.value.done ==> r.value.env.winReward == winReward
    ensures r.Some? && !r.value.done ==>
      && r.value.env.winReward == winReward - 1
      && r.value.env.game.winner.None?
      && !IsFull(r.value.env.game.board)
      && reward - 5 <= r.value.reward <= reward + 7
  {
    var opponent := g1.currentPlayer;
    match TakeTurn(g1, reply.bigX, reply.bigY, reply.smallX, reply.smallY)
    case None =>
      None
    case Some(g2) =>
      if g2.winner.Some? then
        Some(StepResult(Env(g2, winReward), -60, true))
      else if IsFull(g2.board) then
        Some(StepResult(Env(g2, winReward), 0, true))
      else
        var reward := reward - (if CheckSmallWin(g2.board, opponent, reply.bigX, reply.bigY) then 5 else 0);
        var reward := reward + (if g2.next == ANYWHERE then 7 else 0);
        Some(StepResult(Env(g2, winReward - 1), reward, false))
  }

  /** The reward rules of `step` for the agent's half, in terms of the game
      `g1` after the agent's move: a game win pays the remaining win
      reward; filling the board pays 1, plus 5 when the move completed a
      line in its sub-board. Either ends the episode. */
  lemma AgentHalfRewards(e: Env, action: int, reply: Move)
    requires e.game.board.WellShaped()
    ensures var m := ActionCoordinates(action);
      var t1 := TakeTurn(e.game, m.bigX, m.bigY, m.smallX, m.smallY);
      var r := Step(e, action, reply);
      t1.Some? ==>
        var g1 := t1.value;
        && (g1.winner.Some? ==> r == Some(StepResult(Env(g1, e.winReward), e.winReward, true)))
        && var won := HasLine(Sub(g1.board, m.bigX, m.bigY), e.game.currentPlayer);
        && (g1.winner.None? && IsFull(g1.board) ==>
              r == Some(StepResult(Env(g1, e.winReward), if won then 6 else 1, true)))
        // otherwise the opponent replies, the agent holding 1, +5 for a
        // completed line, -7 for freeing the opponent's choice of sub-board
        && (g1.winner.None? && !IsFull(g1.board) ==>
              r == OpponentTurn(g1, reply, 1 + (if won then 5 else 0) - (if g1.next == ANYWHERE then 7 else 0),
                                e.winReward))
  {
    var m := ActionCoordinates(action);
    SmallWinIsLine(e.game.board, e.game.currentPlayer, m);
  }

  /** The reward rules of the opponent's half of `step`, in terms of the
      game `g2` after the reply: a game win for the opponent pays -60 and a
      full board 0, both ending the episode. Otherwise the agent's reward
      so far loses 5 when the reply completed a line in its sub-board and
      gains 7 when the reply freed the agent's choice of sub-board, and the
      win reward drops by one. */
  lemma OpponentHalfRewards(g1: Game, reply: Move, reward: int, winReward: int)
    requires g1.board.WellShaped()
    requires TakeTurn(g1, reply.bigX, reply.bigY, reply.smallX, reply.smallY).Some?
    ensures var g2 := TakeTurn(g1, reply.bigX, reply.bigY, reply.smallX, reply.smallY).value;
      var won := HasLine(Sub(g2.board, reply.bigX, reply.bigY), g1.currentPlayer);
      var r := OpponentTurn(g1, reply, reward, winReward);
      && (g2.winner.Some? ==> r == Some(StepResult(Env(g2, winReward), -60, true)))
      && (g2.winner.None? && IsFull(g2.board) ==> r == Some(StepResult(Env(g2, winReward), 0, true)))
      && (g2.winner.None? && !IsFull(g2.board) ==>
            r == Some(StepResult(Env(g2, winReward - 1),
                                 reward - (if won then 5 else 0) + (if g2.next == ANYWHERE then 7 else 0),
                                 false)))
  {
    SmallWinIsLine(g1.board, g1.currentPlayer, reply);
  }

  /** A step started from a valid game leaves a valid game behind. */
  lemma StepKeepsValid(e: Env, action: int, reply: Move)
    requires Valid(e.game)
    ensures var r := Step(e, action, reply);
      r.Some? ==> Valid(r.value.env.game)
  {
    var m := ActionCoordinates(action);
    TakeTurnValid(e.game, m.bigX, m.bigY, m.smallX, m.smallY);
    var g1 := TakeTurn(e.game, m.bigX, m.bigY, m.smallX, m.smallY);
    if g1.Some? {
      TakeTurnValid(g1.value, reply.bigX, reply.bigY, reply.smallX, reply.smallY);
    }
  }

  /** `step` raises exactly when the agent's move is accepted, neither wins
      the game nor fills the board, and the opponent's reply is not one of
      the moves `valid_moves` offers it. */
  lemma StepRaisesIff(e: Env, action: int, reply: Move)
    requires e.game.board.WellShaped()
    ensures var m := ActionCoordinates(action);
      var g1 := TakeTurn(e.game, m.bigX, m.bigY, m.smallX, m.smallY);
      Step(e, action, reply).None? <==>
        && g1.Some?
        && g1.value.winner.None?
        && !IsFull(g1.value.board)
        && !IsValidMove(g1.value.board, g1.value.next, reply)
  {
    var m := ActionCoordinates(action);
    var g1 := TakeTurn(e.game, m.bigX, m.bigY, m.smallX, m.smallY);
    if g1.Some? {
      AcceptedIffValidMove(g1.value, reply);
    }
  }

  /** Playing the same action again after a step that did not end the
      episode is illegal: the cell now holds the agent's mark, and the
      opponent's reply went to a different, then empty, cell. */
  lemma RepeatActionRejected(e: Env, action: int, reply: Move, reply2: Move)
    requires e.game.board.WellShaped()
    requires Step(e, action, reply).Some? && !Step(e, action, reply).value.done
    ensures var e2 := Step(e, action, reply).value.env;
      Step(e2, action, reply2) == Some(StepResult(e2, -100, true))
  {
    var m := ActionCoordinates(action);
    var agent := e.game.currentPlayer;
    var g1 := TakeTurn(e.game, m.bigX, m.bigY, m.smallX, m.smallY).value;
    var g2 := TakeTurn(g1, reply.bigX, reply.bigY, reply.smallX, reply.smallY).value;
    assert Cell(g1.board, m.bigX, m.bigY, m.smallX, m.smallY) == agent;
    assert Cell(g2.board, m.bigX, m.bigY, m.smallX, m.smallY) == agent;
  }

  /** A turn that claims no sub-board, on an outer board with every
      sub-board open: no winner, not full, no sub-board won, and the next
      player is sent to a sub-board unless in test mode. */
  lemma QuietTurn(g: Game, m: Move)
    requires g.board.WellShaped() && g.winner.None?
    requires forall x, y :: InRange(x) && InRange(y) ==> Outcome(g.board, x, y) == EMPTY
    requires var h := TakeTurn(g, m.bigX, m.bigY, m.smallX, m.smallY);
      h.Some? && h.value.board.big == g.board.big
    ensures var h := TakeTurn(g, m.bigX, m.bigY, m.smallX, m.smallY).value;
      && h.winner.None?
      && !IsFull(h.board)
      && !CheckSmallWin(h.board, g.currentPlayer, m.bigX, m.bigY)
      && (h.next == ANYWHERE <==> g.testMode)
      && h.testMode == g.testMode
      && forall x, y :: InRange(x) && InRange(y) ==> Outcome(h.board, x, y) == EMPTY
  {
    var h := TakeTurn(g, m.bigX, m.bigY, m.smallX, m.smallY).value;
    assert Outcome(g.board, m.bigX, m.bigY) == EMPTY;
    assert Outcome(g.board, m.smallX, m.smallY) == EMPTY;
    assert Outcome(g.board, 0, 0) == EMPTY;
    assert CheckSmallBoardValid(h.board, 0, 0);
  }

  /** A step in which neither move claims a sub-board, on an outer board
      with every sub-board open, continues the episode and pays exactly 1:
      the -7 for freeing the opponent's choice and the +7 for the reply
      freeing the agent's choice both happen, in test mode, or neither does. */
  lemma QuietStep(e: Env, action: int, reply: Move)
    requires e.game.board.WellShaped()
    requires forall x, y :: InRange(x) && InRange(y) ==> Outcome(e.game.board, x, y) == EMPTY
    requires e.game.winner.None?
    requires var m := ActionCoordinates(action);
      var g1 := TakeTurn(e.game, m.bigX, m.bigY, m.smallX, m.smallY);
      && g1.Some? && g1.value.board.big == e.game.board.big
      && var g2 := TakeTurn(g1.value, reply.bigX, reply.bigY, reply.smallX, reply.smallY);
      && g2.Some? && g2.value.board.big == e.game.board.big
    ensures var r := Step(e, action, reply);
      r.Some? && !r.value.done && r.value.reward == 1 && r.value.env.winReward == e.winReward - 1
  {
    var m := ActionCoordinates(action);
    QuietTurn(e.game, m);
    var g1 := TakeTurn(e.game, m.bigX, m.bigY, m.smallX, m.smallY).value;
    QuietTurn(g1, reply);
  }

  /** On a board with every cell empty, a step earns a positive reward
      whatever legal reply the opponent makes: a single mark wins nothing,
      and both moves leave the next sub-board open. */
  lemma StepFromBlankPositive(e: Env, action: int, reply: Move)
    requires e.game.board.WellShaped() && e.game.winner.None?
    requires forall x, y, u, v :: InRange(x) && InRange(y) && InRange(u) && InRange(v) ==>
      Cell(e.game.board, x, y, u, v) == EMPTY
    requires forall x, y :: InRange(x) && InRange(y) ==> Outcome(e.game.board, x, y) == EMPTY
    requires Step(e, action, reply).Some?
    requires 0 <= action < 81 && e.game.next == ANYWHERE
    ensures Step(e, action, reply).value.reward > 0
  {
    var m := ActionCoordinates(action);
    QuietMove(e.game.board, e.game.currentPlayer, m, if m.smallX == 0 then 1 else 0, m.smallY);
    var g1 := TakeTurn(e.game, m.bigX, m.bigY, m.smallX, m.smallY).value;
    assert g1.board.big == e.game.board.big;
    assert Outcome(e.game.board, 0, 0) == EMPTY;
    assert CheckSmallBoardValid(g1.board, 0, 0);
    StepRaisesIff(e, action, reply);
    assert IsValidMove(g1.board, g1.next, reply);
    // the opponent's sub-board holds at most the agent's mark
    var v := if (reply.bigX, reply.bigY) == (m.bigX, m.bigY) then (m.smallX, m.smallY)
             else (if reply.smallX == 0 then 1 else 0, reply.smallY);
    forall sx, sy | InRange(sx) && InRange(sy) && (sx, sy) != v
      ensures Cell(g1.board, reply.bigX, reply.bigY, sx, sy) == EMPTY
    {
      assert Cell(e.game.board, reply.bigX, reply.bigY, sx, sy) == EMPTY;
    }
    assert Cell(g1.board, m.bigX, m.bigY, m.smallX, m.smallY) == e.game.currentPlayer;
    if (reply.bigX, reply.bigY) == (m.bigX, m.bigY) {
      assert Cell(g1.board, reply.bigX, reply.bigY, reply.smallX, reply.smallY) == EMPTY;
    }
    assert Outcome(g1.board, reply.bigX, reply.bigY) == EMPTY;
    QuietMove(g1.board, g1.currentPlayer, reply, v.0, v.1);
    QuietStep(e, action, reply);
  }

  /** The first step of an episode, with the agent moving first, earns a
      positive reward whatever legal reply the opponent makes. */
  lemma FirstStepRewardPositive(action: int, reply: Move)
    requires 0 <= action < 81
    requires Step(InitialEnv(), action, reply).Some?
    ensures Step(InitialEnv(), action, reply).value.reward > 0
  {
    StepFromBlankPositive(InitialEnv(), action, reply);
  }
}
