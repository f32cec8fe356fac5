/** The earlier board of src/board.py. Its queries (`check_small_board_valid`,
    `check_small_win`, `check_big_win`, `is_full`, `check_board_win`) are
    the same definitions as those of module `Board` and are shared; only
    `play_turn` differs: it has no bounds check, so a coordinate reaches
    numpy indexing as given. An index in `-3..-1` counts from the end of
    its axis, and one outside `-3..2` raises IndexError. */
module LegacyBoard {
  import opened Common
  import opened Grid
  import opened Board
  import Current = Board

  /** An index numpy accepts on an axis of length 3. */
  predicate Indexable(i: int) {
    -3 <= i < 3
  }

  /** The position numpy reads for an accepted index: negative ones count from the end. */
  function Wrap(i: int): (k: int)
    requires Indexable(i)
    ensures InRange(k) && (k == i || k == i + 3)
  {
    if i < 0 then i + 3 else i
  }

  /** Legacy `play_turn`. `None` is the IndexError numpy raises; the
      sub-board index is read first, and the cell index only once the
      sub-board is known to be open. */
  function PlayTurn(b: Board, player: Player, bigX: int, bigY: int, smallX: int, smallY: int): (r: Option<Placement>)
    requires b.WellShaped()
    ensures r.None? <==>
      !(Indexable(bigX) && Indexable(bigY)) ||
      (Outcome(b, Wrap(bigX), Wrap(bigY)) == EMPTY && !(Indexable(smallX) && Indexable(smallY)))
    ensures r.Some? ==> r.value.board.WellShaped()
    // a claimed sub-board or an occupied cell is refused and nothing changes
    ensures r.Some? ==>
      (r.value.ok <==> Outcome(b, Wrap(bigX), Wrap(bigY)) == EMPTY &&
                       Cell(b, Wrap(bigX), Wrap(bigY), Wrap(smallX), Wrap(smallY)) == EMPTY)
    ensures r.Some? && !r.value.ok ==> r.value.board == b
    // exactly the target cell is written
    ensures r.Some? && r.value.ok ==>
      var (px, py, sx, sy) := (Wrap(bigX), Wrap(bigY), Wrap(smallX), Wrap(smallY));
      forall x, y, u, v :: InRange(x) && InRange(y) && InRange(u) && InRange(v) ==>
        Cell(r.value.board, x, y, u, v) == if (x, y, u, v) == (px, py, sx, sy) then player else Cell(b, x, y, u, v)
    // only the played sub-board's outcome can change: a line, else FULL, else unchanged
    ensures r.Some? && r.value.ok ==>
      var (px, py) := (Wrap(bigX), Wrap(bigY));
      && (forall x, y :: InRange(x) && InRange(y) && (x, y) != (px, py) ==>
            Outcome(r.value.board, x, y) == Outcome(b, x, y))
      && Outcome(r.value.board, px, py) == (if HasLine(Sub(r.value.board, px, py), player) then player
                                           else if AllFilled(Sub(r.value.board, px, py)) then FULL
                                           else Outcome(b, px, py))
  {
    if !(Indexable(bigX) && Indexable(bigY)) then
      None
    else
      var (px, py) := (Wrap(bigX), Wrap(bigY));
      if b.big[py][px] != EMPTY then
        Some(Placement(false, b))
      else if !(Indexable(smallX) && Indexable(smallY)) then
        None
      else
        var (sx, sy) := (Wrap(smallX), Wrap(smallY));
        if b.cells[py][px][sy][sx] != EMPTY then
          Some(Placement(false, b))
        else
          var current := b.cells[py][px][sy := b.cells[py][px][sy][sx := player]];
          var cells := b.cells[py := b.cells[py][px := current]];
          if HasLine(current, player) then
            Some(Placement(true, Board(cells, b.big[py := b.big[py][px := player]])))
          else if AllFilled(current) then
            Some(Placement(true, Board(cells, b.big[py := b.big[py][px := FULL]])))
          else
            Some(Placement(true, Board(cells, b.big)))
  }

  /** Whenever the legacy `play_turn` returns, it does what the current
      `play_turn` does at the wrapped coordinates. */
  lemma PlayTurnWrapped(b: Board, player: Player, bigX: int, bigY: int, smallX: int, smallY: int)
    requires b.WellShaped()
    ensures var r := PlayTurn(b, player, bigX, bigY, smallX, smallY);
      r.Some? ==>
        r.value == Current.PlayTurn(b, player, Wrap(bigX), Wrap(bigY),
                                  if Indexable(smallX) then Wrap(smallX) else 0,
                                  if Indexable(smallY) then Wrap(smallY) else 0)
  {
  }

  /** On in-range coordinates the legacy and the current `play_turn` agree. */
  lemma PlayTurnAgrees(b: Board, player: Player, m: Move)
    requires b.WellShaped() && m.InBounds()
    ensures PlayTurn(b, player, m.bigX, m.bigY, m.smallX, m.smallY)
         == Some(Current.PlayTurn(b, player, m.bigX, m.bigY, m.smallX, m.smallY))
  {
    PlayTurnWrapped(b, player, m.bigX, m.bigY, m.smallX, m.smallY);
  }

  /** Where the two differ: a coordinate of -1 is refused by the current
      bounds check but read by the legacy board as 2. */
  lemma NegativeIndexWraps(b: Board, player: Player)
    requires b.WellShaped() && Outcome(b, 2, 2) == EMPTY && Cell(b, 2, 2, 2, 2) == EMPTY
    ensures !Current.PlayTurn(b, player, -1, -1, -1, -1).ok
    ensures var r := PlayTurn(b, player, -1, -1, -1, -1);
      r.Some? && r.value.ok && Cell(r.value.board, 2, 2, 2, 2) == player
  {
  }

  /** The legacy queries read back what a placement recorded: the played
      sub-board is won by `player` exactly when it holds a line of
      `player`, and it stays open exactly when it has neither a line nor
      nine marks. */
  lemma QueriesAfterPlayTurn(b: Board, player: Player, m: Move)
    requires b.WellShaped() && m.InBounds()
    requires PlayTurn(b, player, m.bigX, m.bigY, m.smallX, m.smallY).Some?
    requires PlayTurn(b, player, m.bigX, m.bigY, m.smallX, m.smallY).value.ok
    ensures var c := PlayTurn(b, player, m.bigX, m.bigY, m.smallX, m.smallY).value.board;
      var g := Sub(c, m.bigX, m.bigY);
      && (CheckSmallWin(c, player, m.bigX, m.bigY) <==> HasLine(g, player))
      && (CheckSmallBoardValid(c, m.bigX, m.bigY) <==> !HasLine(g, player) && !AllFilled(g))
  {
    assert Wrap(m.bigX) == m.bigX && Wrap(m.bigY) == m.bigY;
    assert Outcome(b, m.bigX, m.bigY) == EMPTY;
  }
}
