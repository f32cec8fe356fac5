/** The 3×3 grid and its three-in-a-row test, shared by the sub-boards
    (cells 0/1/2) and the outer board (outcomes -1/0/1/2). Grids are indexed
    `[y][x]`, as the numpy arrays of the game are. */
module Grid {

  /** A well-formed 3×3 grid of integers. */
  predicate IsGrid(g: seq<seq<int>>) {
    |g| == 3 && forall y :: 0 <= y < 3 ==> |g[y]| == 3
  }

  /** The eight lines of a 3×3 grid. */
  datatype Line = Row(y: int) | Col(x: int) | Diag | AntiDiag {
    predicate Valid() {
      match this
      case Row(y) => 0 <= y < 3
      case Col(x) => 0 <= x < 3
      case _ => true
    }
  }

  /** The value at the `m`-th position (0, 1 or 2) along line `l`. */
  function At(g: seq<seq<int>>, l: Line, m: int): int
    requires IsGrid(g) && l.Valid() && 0 <= m < 3
  {
    match l
    case Row(y) => g[y][m]
    case Col(x) => g[m][x]
    case Diag => g[m][m]
    case AntiDiag => g[m][2 - m]
  }

  /** The `(x, y)` square of the `m`-th position along `l`, the one `At` reads. */
  function Pos(l: Line, m: int): (xy: (int, int))
    requires l.Valid() && 0 <= m < 3
    ensures 0 <= xy.0 < 3 && 0 <= xy.1 < 3
    ensures forall g :: IsGrid(g) ==> At(g, l, m) == g[xy.1][xy.0]
  {
    match l
    case Row(y) => (m, y)
    case Col(x) => (x, m)
    case Diag => (m, m)
    case AntiDiag => (2 - m, m)
  }

  /** All three positions of `l` hold `p`. */
  predicate Owns(g: seq<seq<int>>, l: Line, p: int)
    requires IsGrid(g) && l.Valid()
  {
    At(g, l, 0) == p && At(g, l, 1) == p && At(g, l, 2) == p
  }

  /** The eight lines, each exactly once. */
  const AllLines: seq<Line> :=
    [Row(0), Row(1), Row(2), Col(0), Col(1), Col(2), Diag, AntiDiag]

  /** The reference meaning of "p has won grid g": one of the eight lines is all `p`. */
  predicate HasLine(g: seq<seq<int>>, p: int)
    requires IsGrid(g)
  {
    exists l :: l in AllLines && Owns(g, l, p)
  }

  /** Every entry of the grid differs from `v`. */
  predicate NoneEqual(g: seq<seq<int>>, v: int)
    requires IsGrid(g)
  {
    forall y, x :: 0 <= y < 3 && 0 <= x < 3 ==> g[y][x] != v
  }

  /** All three entries of row `i` equal `p`. */
  predicate RowAll(g: seq<seq<int>>, i: int, p: int)
    requires IsGrid(g) && 0 <= i < 3
  {
    g[i][0] == p && g[i][1] == p && g[i][2] == p
  }

  /** All three entries of column `i` equal `p`. */
  predicate ColAll(g: seq<seq<int>>, i: int, p: int)
    requires IsGrid(g) && 0 <= i < 3
  {
    g[0][i] == p && g[1][i] == p && g[2][i] == p
  }

  /** The three entries of the main diagonal, top left to bottom right, equal `p`. */
  predicate DiagAll(g: seq<seq<int>>, p: int)
    requires IsGrid(g)
  {
    g[0][0] == p && g[1][1] == p && g[2][2] == p
  }

  /** The three entries of the anti-diagonal, top right to bottom left, equal `p`;
      row `y` contributes column `2 - y`. */
  predicate AntiDiagAll(g: seq<seq<int>>, p: int)
    requires IsGrid(g)
  {
    g[0][2] == p && g[1][1] == p && g[2][0] == p
  }

  /** `check_board_win`: for each `i` it tests row `i`, column `i` and both
      diagonals, returning as soon as one is all `p`. The result is exactly
      the reference test `HasLine`. */
  method CheckBoardWin(g: seq<seq<int>>, p: int) returns (won: bool)
    requires IsGrid(g)
    ensures won <==> HasLine(g, p)
  {
    var i := 0;
    while i < 3
      invariant 0 <= i <= 3
      invariant forall j :: 0 <= j < i ==> !RowAll(g, j, p) && !ColAll(g, j, p)
      invariant 0 < i ==> !DiagAll(g, p) && !AntiDiagAll(g, p)
    {
      if RowAll(g, i, p) || ColAll(g, i, p) || DiagAll(g, p) || AntiDiagAll(g, p) {
        if RowAll(g, i, p) {
          assert Owns(g, Row(i), p);
        } else if ColAll(g, i, p) {
          assert Owns(g, Col(i), p);
        } else if DiagAll(g, p) {
          assert Owns(g, Diag, p);
        } else {
          assert Owns(g, AntiDiag, p);
        }
        return true;
      }
      i := i + 1;
    }
    forall l | l in AllLines
      ensures !Owns(g, l, p)
    {
      match l
      case Row(y) => assert !RowAll(g, y, p);
      case Col(x) => assert !ColAll(g, x, p);
      case Diag =>
      case AntiDiag =>
    }
    return false;
  }

  /** A grid that keeps every entry `q` of `g` keeps every line of `q`. */
  lemma HasLineKept(g: seq<seq<int>>, h: seq<seq<int>>, q: int)
    requires IsGrid(g) && IsGrid(h)
    requires forall y, x :: 0 <= y < 3 && 0 <= x < 3 && g[y][x] == q ==> h[y][x] == q
    ensures HasLine(g, q) ==> HasLine(h, q)
  {
    if HasLine(g, q) {
      var l :| l in AllLines && Owns(g, l, q);
      assert Owns(h, l, q);
    }
  }

  /** A line of `q` is made only of positions holding `q`: two grids that
      agree on where `q` stands agree on whether `q` has a line. This is why
      FULL (-1) and opponent entries never count for `q`. */
  lemma HasLineOnlySeesOwner(g: seq<seq<int>>, h: seq<seq<int>>, q: int)
    requires IsGrid(g) && IsGrid(h)
    requires forall y, x :: 0 <= y < 3 && 0 <= x < 3 ==> (g[y][x] == q <==> h[y][x] == q)
    ensures HasLine(g, q) <==> HasLine(h, q)
  {
    HasLineKept(g, h, q);
    HasLineKept(h, g, q);
  }

  /** A grid in which no entry is `q` has no line of `q`. */
  lemma NoLineWithoutOwner(g: seq<seq<int>>, q: int)
    requires IsGrid(g) && NoneEqual(g, q)
    ensures !HasLine(g, q)
  {
  }

  /** Two marks never make a line: a grid in which `p` stands at most at
      positions `a` and `c` has no line of `p`. */
  lemma TwoMarksNoLine(g: seq<seq<int>>, p: int, a: (int, int), c: (int, int))
    requires IsGrid(g)
    requires forall y, x :: 0 <= y < 3 && 0 <= x < 3 && g[y][x] == p ==> (y, x) == a || (y, x) == c
    ensures !HasLine(g, p)
  {
    forall l | l in AllLines
      ensures !Owns(g, l, p)
    {
    }
  }
}
