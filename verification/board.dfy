/** The 3×3×3×3 board of Mega Tic-Tac-Toe (src/game/board.py): the cells,
    indexed `[big_y][big_x][small_y][small_x]` and holding 0 (empty), 1 or 2,
    and the outer 3×3 board of sub-board outcomes, indexed `[big_y][big_x]`
    and holding 0 (open), 1 or 2 (won) or -1 (FULL, drawn). */
module Board {
  import opened Common
  import opened Grid

  const EMPTY: int := 0
  const FULL: int := -1

  /** The `next` value meaning "any sub-board". */
  const ANYWHERE: (int, int) := (-1, -1)

  /** A move as the code passes it around: `(big_x, big_y, small_x, small_y)`. */
  datatype Move = Move(bigX: int, bigY: int, smallX: int, smallY: int) {
    predicate InBounds() {
      InRange(bigX) && InRange(bigY) && InRange(smallX) && InRange(smallY)
    }
  }

  datatype Board = Board(cells: seq<seq<seq<seq<int>>>>, big: seq<seq<int>>) {
    /** The array shapes `(3, 3, 3, 3)` and `(3, 3)`. */
    predicate WellShaped() {
      && |cells| == 3
      && (forall bigY :: 0 <= bigY < 3 ==> |cells[bigY]| == 3)
      && (forall bigY, bigX :: 0 <= bigY < 3 && 0 <= bigX < 3 ==> IsGrid(cells[bigY][bigX]))
      && IsGrid(big)
    }
  }

  /** The sub-board at outer position `(bigX, bigY)`. */
  function Sub(b: Board, bigX: int, bigY: int): seq<seq<int>>
    requires b.WellShaped() && InRange(bigX) && InRange(bigY)
  {
    b.cells[bigY][bigX]
  }

  function Cell(b: Board, bigX: int, bigY: int, smallX: int, smallY: int): int
    requires b.WellShaped() && InRange(bigX) && InRange(bigY) && InRange(smallX) && InRange(smallY)
  {
    b.cells[bigY][bigX][smallY][smallX]
  }

  function Outcome(b: Board, bigX: int, bigY: int): int
    requires b.WellShaped() && InRange(bigX) && InRange(bigY)
  {
    b.big[bigY][bigX]
  }

  /** All nine cells of a sub-board are non-empty. */
  predicate AllFilled(g: seq<seq<int>>)
    requires IsGrid(g)
  {
    NoneEqual(g, EMPTY)
  }

  /** `Board.__init__`: every cell empty, every sub-board open. */
  function Empty(): (b: Board)
    ensures b.WellShaped()
    ensures forall bigX, bigY, smallX, smallY :: InRange(bigX) && InRange(bigY) && InRange(smallX) && InRange(smallY) ==>
      Cell(b, bigX, bigY, smallX, smallY) == EMPTY
    ensures forall bigX, bigY :: InRange(bigX) && InRange(bigY) ==> Outcome(b, bigX, bigY) == EMPTY
  {
    Board(seq(3, _ => seq(3, _ => seq(3, _ => seq(3, _ => EMPTY)))), seq(3, _ => seq(3, _ => EMPTY)))
  }

  /** What `play_turn` reports, together with the board it leaves behind. */
  datatype Placement = Placement(ok: bool, board: Board)

  /** `play_turn`: rejects out-of-range coordinates, a claimed sub-board or an
      occupied cell without touching the board; otherwise writes `player`
      into the cell and reclassifies its sub-board, a line taking priority
      over a full sub-board. */
  function PlayTurn(b: Board, player: Player, bigX: int, bigY: int, smallX: int, smallY: int): (r: Placement)
    requires b.WellShaped()
    ensures r.board.WellShaped()
    ensures !(InRange(bigX) && InRange(bigY) && InRange(smallX) && InRange(smallY)) ==> r == Placement(false, b)
    ensures InRange(bigX) && InRange(bigY) && InRange(smallX) && InRange(smallY) ==>
      (r.ok <==> Outcome(b, bigX, bigY) == EMPTY && Cell(b, bigX, bigY, smallX, smallY) == EMPTY)
    ensures !r.ok ==> r.board == b
    ensures r.ok ==> InRange(bigX) && InRange(bigY) && InRange(smallX) && InRange(smallY)
    // exactly the target cell changes, and it becomes `player`
    ensures r.ok ==> forall x, y, u, v :: InRange(x) && InRange(y) && InRange(u) && InRange(v) ==>
      Cell(r.board, x, y, u, v) == if (x, y, u, v) == (bigX, bigY, smallX, smallY) then player else Cell(b, x, y, u, v)
    // every other sub-board, and its outcome, is untouched
    ensures r.ok ==> forall x, y :: InRange(x) && InRange(y) && (x, y) != (bigX, bigY) ==>
      Sub(r.board, x, y) == Sub(b, x, y) && Outcome(r.board, x, y) == Outcome(b, x, y)
    // the played sub-board: won by `player` on a line, else FULL when all nine are filled, else still open
    ensures r.ok ==>
      Outcome(r.board, bigX, bigY) == (if HasLine(Sub(r.board, bigX, bigY), player) then player
                                   else if AllFilled(Sub(r.board, bigX, bigY)) then FULL
                                   else EMPTY)
  {
    if !(InRange(bigX) && InRange(bigY) && InRange(smallX) && InRange(smallY)) then
      Placement(false, b)
    else if b.big[bigY][bigX] != EMPTY || b.cells[bigY][bigX][smallY][smallX] != EMPTY then
      Placement(false, b)
    else
      var current := b.cells[bigY][bigX][smallY := b.cells[bigY][bigX][smallY][smallX := player]];
      var cells := b.cells[bigY := b.cells[bigY][bigX := current]];
      if HasLine(current, player) then
        Placement(true, Board(cells, b.big[bigY := b.big[bigY][bigX := player]]))
      else if AllFilled(current) then
        Placement(true, Board(cells, b.big[bigY := b.big[bigY][bigX := FULL]]))
      else
        Placement(true, Board(cells, b.big))
  }

  /** `check_small_board_valid`: the sub-board is still open. */
  predicate CheckSmallBoardValid(b: Board, bigX: int, bigY: int)
    requires b.WellShaped() && InRange(bigX) && InRange(bigY)
  {
    b.big[bigY][bigX] == EMPTY
  }

  /** `check_small_win`: the sub-board's outcome is `player`. */
  predicate CheckSmallWin(b: Board, player: int, bigX: int, bigY: int)
    requires b.WellShaped() && InRange(bigX) && InRange(bigY)
  {
    b.big[bigY][bigX] == player
  }

  /** After an accepted move, its sub-board's outcome is the mover exactly
      when the move completed a line of the mover there. */
  lemma SmallWinIsLine(b: Board, player: Player, m: Move)
    requires b.WellShaped()
    ensures var r := PlayTurn(b, player, m.bigX, m.bigY, m.smallX, m.smallY);
      r.ok ==> (CheckSmallWin(r.board, player, m.bigX, m.bigY) <==> HasLine(Sub(r.board, m.bigX, m.bigY), player))
  {
  }

  /** `check_big_win`: the generic line test applied to the outer board. */
  predicate CheckBigWin(b: Board, player: int)
    requires b.WellShaped()
  {
    HasLine(b.big, player)
  }

  /** `is_full`: no sub-board is still open. */
  predicate IsFull(b: Board)
    requires b.WellShaped()
  {
    forall bigX, bigY :: 0 <= bigX < 3 && 0 <= bigY < 3 ==> !CheckSmallBoardValid(b, bigX, bigY)
  }

  /** The moves `valid_moves(next)` yields: an empty cell of an open
      sub-board, and that sub-board is `next` unless `next` is ANYWHERE. */
  predicate IsValidMove(b: Board, next: (int, int), m: Move)
    requires b.WellShaped()
  {
    && m.InBounds()
    && Cell(b, m.bigX, m.bigY, m.smallX, m.smallY) == EMPTY
    && (next == ANYWHERE || next == (m.bigX, m.bigY))
    && Outcome(b, m.bigX, m.bigY) == EMPTY
  }

  /** Position of a move in `np.argwhere`'s row-major order over `[big_y, big_x, small_y, small_x]`. */
  function Index(m: Move): int {
    Flat(m.bigY, m.bigX, m.smallY, m.smallX)
  }

  /** The move at row-major position `k`. */
  function MoveAt(k: int): (m: Move)
    requires 0 <= k < 81
    ensures m.InBounds() && Index(m) == k
  {
    FlatOfDigits(k);
    Move((k / 9) % 3, (k / 9) / 3, (k % 9) % 3, (k % 9) / 3)
  }

  /** An in-bounds move is the move at its own index. */
  lemma MoveAtIndex(m: Move)
    requires m.InBounds()
    ensures 0 <= Index(m) < 81 && MoveAt(Index(m)) == m
  {
    DigitsOfFlat(m.bigY, m.bigX, m.smallY, m.smallX);
  }

  /** Strictly increasing row-major positions, hence no move twice. */
  predicate InOrder(s: seq<Move>) {
    forall i, j :: 0 <= i < j < |s| ==> Index(s[i]) < Index(s[j])
  }

  /** `valid_moves(next)`: walks the 81 positions in row-major order and
      yields exactly the valid moves, each once, in that order. */
  method ValidMoves(b: Board, next: (int, int)) returns (moves: seq<Move>)
    requires b.WellShaped()
    ensures forall m :: m in moves <==> IsValidMove(b, next, m)
    ensures InOrder(moves)
  {
    moves := [];
    var k := 0;
    while k < 81
      invariant 0 <= k <= 81
      invariant forall m :: m in moves <==> IsValidMove(b, next, m) && Index(m) < k
      invariant forall i :: 0 <= i < |moves| ==> Index(moves[i]) < k
      invariant InOrder(moves)
    {
      var m := MoveAt(k);
      forall m' | IsValidMove(b, next, m') && Index(m') == k
        ensures m' == m
      {
        MoveAtIndex(m');
      }
      if IsValidMove(b, next, m) {
        moves := moves + [m];
      }
      k := k + 1;
    }
    forall m | IsValidMove(b, next, m)
      ensures Index(m) < 81
    {
      MoveAtIndex(m);
    }
  }

  /** On the empty board every in-bounds move is valid when free to play
      anywhere, and exactly those of sub-board (0, 0) when sent there. */
  lemma EmptyBoardMoves(m: Move)
    ensures IsValidMove(Empty(), ANYWHERE, m) <==> m.InBounds()
    ensures IsValidMove(Empty(), (0, 0), m) <==> m.InBounds() && m.bigX == 0 && m.bigY == 0
  {
  }

  /** The row-major positions of a list of moves. */
  function Positions(s: seq<Move>): (xs: seq<int>)
    ensures |xs| == |s| && forall i :: 0 <= i < |s| ==> xs[i] == Index(s[i])
  {
    seq(|s|, i requires 0 <= i < |s| => Index(s[i]))
  }

  /** A list in row-major order, holding every move at a position below
      `n` and nothing else, has exactly `n` entries. */
  lemma MoveListLength(s: seq<Move>, n: nat)
    requires n <= 81 && InOrder(s)
    requires forall i :: 0 <= i < |s| ==> s[i].InBounds() && Index(s[i]) < n
    requires forall m: Move :: m.InBounds() && Index(m) < n ==> m in s
    ensures |s| == n
  {
    var xs := Positions(s);
    forall i | 0 <= i < |s|
      ensures 0 <= xs[i] < n
    {
      MoveAtIndex(s[i]);
    }
    forall k | 0 <= k < n
      ensures k in xs
    {
      var m := MoveAt(k);
      assert m in s;
      var j :| 0 <= j < |s| && s[j] == m;
      assert xs[j] == k;
    }
    CoveringLength(xs, n);
  }

  /** A list in row-major order of exactly the in-bounds moves has 81 entries. */
  lemma AllMovesCount(s: seq<Move>)
    requires InOrder(s) && forall m :: m in s <==> m.InBounds()
    ensures |s| == 81
  {
    forall i | 0 <= i < |s|
      ensures s[i].InBounds() && Index(s[i]) < 81
    {
      assert s[i] in s;
      MoveAtIndex(s[i]);
    }
    MoveListLength(s, 81);
  }

  /** A list in row-major order of exactly the moves of sub-board (0, 0) has 9 entries. */
  lemma FirstSubBoardCount(s: seq<Move>)
    requires InOrder(s) && forall m :: m in s <==> m.InBounds() && m.bigX == 0 && m.bigY == 0
    ensures |s| == 9
  {
    forall i | 0 <= i < |s|
      ensures s[i].InBounds() && Index(s[i]) < 9
    {
      assert s[i] in s;
    }
    MoveListLength(s, 9);
  }

  /** The number of moves `valid_moves` yields on the empty board: all 81
      when free to play anywhere, the 9 cells of sub-board (0, 0) when sent there. */
  lemma EmptyBoardMoveCount(anywhere: seq<Move>, first: seq<Move>)
    requires InOrder(anywhere) && forall m :: m in anywhere <==> IsValidMove(Empty(), ANYWHERE, m)
    requires InOrder(first) && forall m :: m in first <==> IsValidMove(Empty(), (0, 0), m)
    ensures |anywhere| == 81 && |first| == 9
  {
    forall m
      ensures (m in anywhere <==> m.InBounds())
      ensures (m in first <==> m.InBounds() && m.bigX == 0 && m.bigY == 0)
    {
      EmptyBoardMoves(m);
    }
    AllMovesCount(anywhere);
    FirstSubBoardCount(first);
  }

  // ---------------------------------------------------------------------
  // Reachable boards

  /** What the outcome entry of a sub-board says about its cells: `p` iff
      the cells hold a line of `p`, FULL iff all nine are filled without a
      line, open iff neither. */
  ghost predicate SubConsistent(g: seq<seq<int>>, o: int)
    requires IsGrid(g)
  {
    && (o == PLAYER1 <==> HasLine(g, PLAYER1))
    && (o == PLAYER2 <==> HasLine(g, PLAYER2))
    && (o == FULL <==> AllFilled(g) && !HasLine(g, PLAYER1) && !HasLine(g, PLAYER2))
    && (o == EMPTY <==> !AllFilled(g) && !HasLine(g, PLAYER1) && !HasLine(g, PLAYER2))
  }

  /** Every outcome entry agrees with its sub-board. */
  ghost predicate Consistent(b: Board) {
    && b.WellShaped()
    && forall x, y :: InRange(x) && InRange(y) ==> SubConsistent(Sub(b, x, y), Outcome(b, x, y))
  }

  lemma EmptyConsistent()
    ensures Consistent(Empty())
  {
    var e := Empty();
    forall x, y | InRange(x) && InRange(y)
      ensures SubConsistent(Sub(e, x, y), Outcome(e, x, y))
    {
      var g := Sub(e, x, y);
      assert g[0][0] == Cell(e, x, y, 0, 0) == EMPTY;
      NoLineWithoutOwner(g, PLAYER1);
      NoLineWithoutOwner(g, PLAYER2);
    }
  }

  /** Writing `p` into one cell cannot create a line for anyone else. */
  lemma OtherLineUnaffected(g: seq<seq<int>>, x: int, y: int, p: int, q: int)
    requires IsGrid(g) && InRange(x) && InRange(y) && q != p
    ensures IsGrid(g[y := g[y][x := p]])
    ensures HasLine(g[y := g[y][x := p]], q) ==> HasLine(g, q)
  {
    var h := g[y := g[y][x := p]];
    if HasLine(h, q) {
      var l :| l in AllLines && Owns(h, l, q);
      assert Owns(g, l, q);
    }
  }

  /** `play_turn` keeps every outcome entry in agreement with its sub-board. */
  lemma PlayTurnConsistent(b: Board, player: Player, bigX: int, bigY: int, smallX: int, smallY: int)
    requires Consistent(b)
    ensures Consistent(PlayTurn(b, player, bigX, bigY, smallX, smallY).board)
  {
    var r := PlayTurn(b, player, bigX, bigY, smallX, smallY);
    if r.ok {
      var g := Sub(b, bigX, bigY);
      assert SubConsistent(g, Outcome(b, bigX, bigY));
      var h := Sub(r.board, bigX, bigY);
      assert h == g[smallY := g[smallY][smallX := player]];
      OtherLineUnaffected(g, smallX, smallY, player, Other(player));
      assert !HasLine(h, Other(player));
      forall x, y | InRange(x) && InRange(y)
        ensures SubConsistent(Sub(r.board, x, y), Outcome(r.board, x, y))
      {
        if (x, y) != (bigX, bigY) {
          assert SubConsistent(Sub(b, x, y), Outcome(b, x, y));
        }
      }
    }
  }

  /** A turn as a caller hands it to `play_turn`. */
  datatype Turn = Turn(player: Player, move: Move)

  /** The board after offering `turns` to `play_turn` in order; rejected turns change nothing. */
  function PlayAll(b: Board, turns: seq<Turn>): (r: Board)
    requires b.WellShaped()
    ensures r.WellShaped()
    decreases |turns|
  {
    if turns == [] then
      b
    else
      var t := turns[0];
      PlayAll(PlayTurn(b, t.player, t.move.bigX, t.move.bigY, t.move.smallX, t.move.smallY).board, turns[1..])
  }

  lemma {:induction false} PlayAllConsistent(b: Board, turns: seq<Turn>)
    requires Consistent(b)
    ensures Consistent(PlayAll(b, turns))
    decreases |turns|
  {
    if turns != [] {
      var t := turns[0];
      PlayTurnConsistent(b, t.player, t.move.bigX, t.move.bigY, t.move.smallX, t.move.smallY);
      PlayAllConsistent(PlayTurn(b, t.player, t.move.bigX, t.move.bigY, t.move.smallX, t.move.smallY).board, turns[1..]);
    }
  }

  /** Every board reached from the empty board through `play_turn` has an
      outcome entry `p` exactly when its sub-board holds a line of `p`, and
      a sub-board whose nine cells are filled is never left open. */
  lemma ReachableConsistent(turns: seq<Turn>)
    ensures Consistent(PlayAll(Empty(), turns))
    ensures var b := PlayAll(Empty(), turns);
      forall x, y, p: Player :: InRange(x) && InRange(y) ==>
        (Outcome(b, x, y) == p <==> HasLine(Sub(b, x, y), p))
    ensures var b := PlayAll(Empty(), turns);
      forall x, y :: InRange(x) && InRange(y) && AllFilled(Sub(b, x, y)) ==> Outcome(b, x, y) != EMPTY
  {
    EmptyConsistent();
    PlayAllConsistent(Empty(), turns);
    var b := PlayAll(Empty(), turns);
    forall x, y | InRange(x) && InRange(y)
      ensures SubConsistent(Sub(b, x, y), Outcome(b, x, y))
    {
    }
  }

  /** Filled cells and claimed sub-boards of `b` are the same in `c`. */
  ghost predicate Settled(b: Board, c: Board)
    requires b.WellShaped() && c.WellShaped()
  {
    && (forall x, y, u, v :: InRange(x) && InRange(y) && InRange(u) && InRange(v) && Cell(b, x, y, u, v) != EMPTY ==>
          Cell(c, x, y, u, v) == Cell(b, x, y, u, v))
    && (forall x, y :: InRange(x) && InRange(y) && Outcome(b, x, y) != EMPTY ==>
          Outcome(c, x, y) == Outcome(b, x, y))
  }

  /** Moves are permanent: no sequence of turns empties or overwrites a
      filled cell or reopens or reassigns a claimed sub-board. */
  lemma {:induction false} PlayAllSettled(b: Board, turns: seq<Turn>)
    requires b.WellShaped()
    ensures Settled(b, PlayAll(b, turns))
    decreases |turns|
  {
    if turns != [] {
      var t := turns[0];
      var b1 := PlayTurn(b, t.player, t.move.bigX, t.move.bigY, t.move.smallX, t.move.smallY).board;
      PlayAllSettled(b1, turns[1..]);
      assert Settled(b, b1);
    }
  }

  /** Once a sub-board is claimed, no later `play_turn` into it succeeds. */
  lemma ClaimedStaysClosed(b: Board, turns: seq<Turn>, player: Player, m: Move)
    requires b.WellShaped() && m.InBounds()
    requires Outcome(b, m.bigX, m.bigY) != EMPTY
    ensures !PlayTurn(PlayAll(b, turns), player, m.bigX, m.bigY, m.smallX, m.smallY).ok
  {
    PlayAllSettled(b, turns);
  }

  // ---------------------------------------------------------------------
  // Fullness and available moves

  lemma EmptyNotFull()
    ensures !IsFull(Empty())
  {
    assert CheckSmallBoardValid(Empty(), 0, 0);
  }

  /** An open sub-board of a consistent board has an empty cell, so a player
      sent there, or free to play anywhere, always has a valid move in it. */
  lemma OpenSubBoardHasMove(b: Board, x: int, y: int) returns (m: Move)
    requires Consistent(b) && InRange(x) && InRange(y) && Outcome(b, x, y) == EMPTY
    ensures m.bigX == x && m.bigY == y
    ensures IsValidMove(b, (x, y), m) && IsValidMove(b, ANYWHERE, m)
  {
    assert SubConsistent(Sub(b, x, y), Outcome(b, x, y));
    var g := Sub(b, x, y);
    var v, u :| 0 <= v < 3 && 0 <= u < 3 && g[v][u] == EMPTY;
    m := Move(x, y, u, v);
  }

  /** `is_full` holds exactly when, free to play anywhere, no valid move is left. */
  lemma FullIffNoValidMove(b: Board)
    requires Consistent(b)
    ensures IsFull(b) <==> forall m :: !IsValidMove(b, ANYWHERE, m)
  {
    if IsFull(b) {
      forall m: Move
        ensures !IsValidMove(b, ANYWHERE, m)
      {
        if m.InBounds() {
          assert !CheckSmallBoardValid(b, m.bigX, m.bigY);
        }
      }
    } else {
      var x, y :| 0 <= x < 3 && 0 <= y < 3 && CheckSmallBoardValid(b, x, y);
      var m := OpenSubBoardHasMove(b, x, y);
    }
  }

  /** What the small-board queries mean on a consistent board, in terms of
      the sub-board's cells: `check_small_board_valid` holds exactly when
      the sub-board has no line and an empty cell, and `check_small_win`
      for a player exactly when the sub-board has a line of that player. */
  lemma SmallQueriesOnCells(b: Board, bigX: int, bigY: int, p: Player)
    requires Consistent(b) && InRange(bigX) && InRange(bigY)
    ensures var g := Sub(b, bigX, bigY);
      && (CheckSmallBoardValid(b, bigX, bigY) <==>
            !HasLine(g, PLAYER1) && !HasLine(g, PLAYER2) && !AllFilled(g))
      && (CheckSmallWin(b, p, bigX, bigY) <==> HasLine(g, p))
  {
    assert SubConsistent(Sub(b, bigX, bigY), Outcome(b, bigX, bigY));
  }

  /** `is_full` on a consistent board: every sub-board has a line of one
      of the players or all nine cells filled. */
  lemma FullOnCells(b: Board)
    requires Consistent(b)
    ensures IsFull(b) <==>
      forall x, y :: InRange(x) && InRange(y) ==>
        HasLine(Sub(b, x, y), PLAYER1) || HasLine(Sub(b, x, y), PLAYER2) || AllFilled(Sub(b, x, y))
  {
    forall x, y | InRange(x) && InRange(y)
      ensures CheckSmallBoardValid(b, x, y) <==>
        !HasLine(Sub(b, x, y), PLAYER1) && !HasLine(Sub(b, x, y), PLAYER2) && !AllFilled(Sub(b, x, y))
    {
      SmallQueriesOnCells(b, x, y, PLAYER1);
    }
  }

  /** `check_big_win` on a consistent board: `player` has won three
      sub-boards along one of the eight lines of the outer board. */
  lemma BigWinOnCells(b: Board, p: Player)
    requires Consistent(b)
    ensures CheckBigWin(b, p) <==>
      exists l :: l in AllLines &&
        forall m :: 0 <= m < 3 ==> HasLine(Sub(b, Pos(l, m).0, Pos(l, m).1), p)
  {
    if CheckBigWin(b, p) {
      var l :| l in AllLines && Owns(b.big, l, p);
      forall m | 0 <= m < 3
        ensures HasLine(Sub(b, Pos(l, m).0, Pos(l, m).1), p)
      {
        SmallQueriesOnCells(b, Pos(l, m).0, Pos(l, m).1, p);
      }
    } else {
      forall l | l in AllLines
        ensures !forall m :: 0 <= m < 3 ==> HasLine(Sub(b, Pos(l, m).0, Pos(l, m).1), p)
      {
        assert !Owns(b.big, l, p);
        var m :| 0 <= m < 3 && At(b.big, l, m) != p;
        SmallQueriesOnCells(b, Pos(l, m).0, Pos(l, m).1, p);
      }
    }
  }

  /** A move into an open sub-board that holds at most one other mark, at
      `(u, v)`, is accepted and claims nothing: the outer board is unchanged. */
  lemma QuietMove(b: Board, player: Player, m: Move, u: int, v: int)
    requires b.WellShaped() && m.InBounds() && InRange(u) && InRange(v)
    requires Outcome(b, m.bigX, m.bigY) == EMPTY
    requires forall sx, sy :: InRange(sx) && InRange(sy) && (sx, sy) != (u, v) ==>
      Cell(b, m.bigX, m.bigY, sx, sy) == EMPTY
    requires (m.smallX, m.smallY) != (u, v)
    ensures var r := PlayTurn(b, player, m.bigX, m.bigY, m.smallX, m.smallY);
      r.ok && r.board.big == b.big
  {
    var r := PlayTurn(b, player, m.bigX, m.bigY, m.smallX, m.smallY);
    var g := Sub(r.board, m.bigX, m.bigY);
    forall y, x | 0 <= y < 3 && 0 <= x < 3 && g[y][x] == player
      ensures (y, x) == (m.smallY, m.smallX) || (y, x) == (v, u)
    {
      assert Cell(r.board, m.bigX, m.bigY, x, y) == g[y][x];
    }
    TwoMarksNoLine(g, player, (m.smallY, m.smallX), (v, u));
    var x := if 0 != u && 0 != m.smallX then 0 else if 1 != u && 1 != m.smallX then 1 else 2;
    assert Cell(r.board, m.bigX, m.bigY, x, 0) == EMPTY;
  }
}
