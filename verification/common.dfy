/** Shared vocabulary of the Mega Tic-Tac-Toe model: players, an optional
    value, coordinate ranges and the base-3 numbering of the 81 cells. */
module Common {

  /** The conventional Some/None datatype; `None` stands for Python's `None`
      and, as a result of a turn, for the RuntimeError that rejects it. */
  datatype Option<+T> = None | Some(value: T)

  /** A player number; the board code only ever receives 1 or 2. */
  type Player = p: int | p == 1 || p == 2 witness 1

  const PLAYER1: Player := 1
  const PLAYER2: Player := 2

  /** The opponent of `p`: the other of the two player numbers. */
  function Other(p: Player): (q: Player)
    ensures q != p
  {
    PLAYER1 + PLAYER2 - p
  }

  /** Membership in `{0, 1, 2}`, the bounds test applied to every coordinate. */
  predicate InRange(v: int) {
    0 <= v <= 2
  }

  /** The number whose base-3 digits, most significant first, are `a b c d`. */
  function Flat(a: int, b: int, c: int, d: int): int {
    27 * a + 9 * b + 3 * c + d
  }

  /** Every number of `0..80` is `Flat` of its four digits, read as two
      base-9 digits `n / 9` and `n % 9` each split in two; the last digit
      is also `n % 3`. */
  lemma FlatOfDigits(n: int)
    requires 0 <= n < 81
    ensures var (q, r) := (n / 9, n % 9);
      && InRange(q / 3) && InRange(q % 3) && InRange(r / 3) && InRange(r % 3)
      && Flat(q / 3, q % 3, r / 3, r % 3) == n
      && r % 3 == n % 3
  {
    var (q, r) := (n / 9, n % 9);
    assert n == 9 * q + r && 0 <= q < 9;
    assert q == 3 * (q / 3) + q % 3;
    assert r == 3 * (r / 3) + r % 3;
    NineThree(q, r);
  }

  /** `(9q + r) % 3 == r % 3`. */
  lemma NineThree(q: int, r: int)
    requires 0 <= q < 9 && 0 <= r < 9
    ensures (9 * q + r) % 3 == r % 3
  {
    var n := 9 * q + r;
    assert n == 3 * (3 * q + r / 3) + r % 3;
  }

  /** Four in-range digits are recovered from their `Flat` number. */
  lemma DigitsOfFlat(a: int, b: int, c: int, d: int)
    requires InRange(a) && InRange(b) && InRange(c) && InRange(d)
    ensures var n := Flat(a, b, c, d);
      && 0 <= n < 81
      && n / 9 == 3 * a + b && n % 9 == 3 * c + d
      && (n / 9) / 3 == a && (n / 9) % 3 == b && (n % 9) / 3 == c && (n % 9) % 3 == d
      && n % 3 == d
  {
    var n := Flat(a, b, c, d);
    assert n == 9 * (3 * a + b) + (3 * c + d);
    NineThree(3 * a + b, 3 * c + d);
  }

  /** A strictly increasing list of numbers drawn from `0..n-1` that holds
      each of them has exactly `n` entries: entry `i` is `i`. */
  lemma CoveringLength(xs: seq<int>, n: nat)
    requires forall i, j :: 0 <= i < j < |xs| ==> xs[i] < xs[j]
    requires forall i :: 0 <= i < |xs| ==> 0 <= xs[i] < n
    requires forall k :: 0 <= k < n ==> k in xs
    ensures |xs| == n
  {
    var i := 0;
    while i < |xs| && i < n
      invariant 0 <= i <= |xs| && i <= n
      invariant forall j :: 0 <= j < i ==> xs[j] == j
    {
      // `i` occurs at some position `j`; positions before `i` hold smaller
      // numbers and entry `i` exceeds entry `i - 1`, so `j` is `i`
      assert i in xs;
      assert 0 < i ==> xs[i - 1] < xs[i];
      i := i + 1;
    }
    assert |xs| < n ==> |xs| in xs;
    if 0 < |xs| {
      IncreasingFromZero(xs, |xs| - 1);
    }
  }

  /** In a strictly increasing list of non-negative numbers entry `k` is at least `k`. */
  lemma {:induction false} IncreasingFromZero(xs: seq<int>, k: int)
    requires forall i, j :: 0 <= i < j < |xs| ==> xs[i] < xs[j]
    requires forall i :: 0 <= i < |xs| ==> 0 <= xs[i]
    requires 0 <= k < |xs|
    ensures xs[k] >= k
  {
    if 0 < k {
      IncreasingFromZero(xs, k - 1);
    }
  }
}
