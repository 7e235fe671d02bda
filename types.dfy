// Basic vocabulary shared by the search model: moves, C integer division and
// the small arithmetic helpers the engine takes from its own headers.

module Types {

  /** A move word. The engine packs from/to squares and flags into it; the
      search core only compares moves and tests them against MoveNone. */
  type Move = int

  /** MOVE_NONE, the "no move" sentinel that terminates every principal variation. */
  const MoveNone: Move := 0

  datatype Option<T> = None | Some(value: T)

  function Min(a: int, b: int): int { if a < b then a else b }

  function Max(a: int, b: int): int { if a < b then b else a }

  function Abs(a: int): int { if a < 0 then -a else a }

  /** Integer division as C++ performs it on `int`: the quotient is truncated
      toward zero, so the remainder takes the sign of the dividend. */
  function CDiv(a: int, b: int): (q: int)
    requires b != 0
    ensures Abs(q) == Abs(a) / Abs(b)
    ensures q == 0 || ((q > 0) <==> ((a > 0) == (b > 0)))
    ensures a >= 0 && b > 0 ==> q == a / b
  {
    DivNonNegative(Abs(a), Abs(b));
    var m := Abs(a) / Abs(b);
    if (a >= 0) == (b > 0) then m else -m
  }

  /** `1 << k` */
  function Pow2(k: nat): (p: nat)
    ensures p >= 1
  {
    if k == 0 then 1 else 2 * Pow2(k - 1)
  }

  /** Proof helper: powers of two grow with the exponent. */
  lemma {:induction false} Pow2Monotone(j: nat, k: nat)
    requires j <= k
    ensures Pow2(j) <= Pow2(k)
    decreases k
  {
    if j < k {
      Pow2Monotone(j, k - 1);
    }
  }

  /** bitScanReverse32: the index of the highest set bit of a positive word. */
  function HighestBit(x: nat): (h: nat)
    requires x >= 1
  {
    if x == 1 then 0 else 1 + HighestBit(x / 2)
  }

  /** Proof helper: the highest set bit brackets the word. */
  lemma {:induction false} HighestBitBounds(x: nat)
    requires x >= 1
    ensures Pow2(HighestBit(x)) <= x < 2 * Pow2(HighestBit(x))
  {
    if x > 1 {
      HighestBitBounds(x / 2);
    }
  }

  /** Proof helper: a larger word has its highest bit no lower. */
  lemma {:induction false} HighestBitMonotone(x: nat, y: nat)
    requires 1 <= x <= y
    ensures HighestBit(x) <= HighestBit(y)
  {
    if x > 1 {
      HighestBitMonotone(x / 2, y / 2);
    }
  }

  /** Proof helper (arithmetic, no counterpart in the engine): multiplying
      by a non-negative factor keeps an order. */
  lemma MulMonotone(a: int, b: int, c: int)
    requires a <= b && c >= 0
    ensures a * c <= b * c
  {
    assert b * c - a * c == (b - a) * c;
  }

  /** Proof helper (arithmetic, no counterpart in the engine). */
  lemma DivNonNegative(x: int, y: int)
    requires x >= 0 && y > 0
    ensures x / y >= 0
  {
    var q, r := x / y, x % y;
    assert x == y * q + r && 0 <= r < y;
    if q < 0 {
      MulMonotone(q, -1, y);
      assert false;
    }
  }

  /** Proof helper (arithmetic, no counterpart in the engine). */
  lemma DivMonotone(a: int, b: int, k: int)
    requires 0 <= a <= b && k > 0
    ensures a / k <= b / k
  {
    var qa, qb := a / k, b / k;
    assert k * qa <= a && b < k * qb + k;
    MulCancel(k, qa, qb + 1);
  }

  /** Proof helper (arithmetic, no counterpart in the engine). */
  lemma MulCancel(k: int, x: int, y: int)
    requires k > 0 && k * x < k * y
    ensures x < y
  {
    assert k * (y - x) > 0;
  }

  /** Proof helper (arithmetic, no counterpart in the engine). */
  lemma DivAtMost(a: int, k: int)
    requires a >= 0 && k >= 1
    ensures a / k <= a
  {
    var q := a / k;
    assert q >= 0 && k * q + a % k == a && a % k >= 0;
    assert q * (k - 1) >= 0;
    assert k * q == q * (k - 1) + q;
  }
}
