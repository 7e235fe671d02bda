// The iterative deepening driver: the aspiration window id_loop() opens
// around the previous score, the re-search windows root_search() widens
// after a fail high or a fail low, and the decision to stop iterating.

module Iteration {
  import opened Types
  import opened TimeControl

  // ---------------------------------------------------------------------
  // Aspiration window.

  /** AspirationDelta from the last two score changes, at least 16 and
      rounded up to a multiple of 8 (the grain size). */
  function AspirationDelta(prevDelta1: int, prevDelta2: int): (d: int)
    ensures d >= 16 && d % 8 == 0
    ensures Max(Abs(prevDelta1) + Abs(prevDelta2) / 2, 16) <= d < Max(Abs(prevDelta1) + Abs(prevDelta2) / 2, 16) + 8
  {
    var raw := Max(Abs(prevDelta1) + Abs(prevDelta2) / 2, 16);
    (raw + 7) / 8 * 8
  }

  /** The search window (alpha, beta) handed to root_search. */
  datatype Window = Window(alpha: int, beta: int)

  /** AspirationDelta and the window after the window step of an iteration. */
  datatype Aspiration = Aspiration(delta: int, window: Window)

  /** Whether the iteration opens an aspiration window: single-PV mode, from
      the sixth iteration on, after a score that is not a known win. */
  predicate UsesAspiration(multiPV: int, iteration: int, values: seq<int>, knownWin: int)
    requires 0 <= iteration < |values|
  {
    multiPV == 1 && iteration >= 6 && Abs(values[iteration - 1]) < knownWin
  }

  /** The window step of id_loop(): values is ValueByIteration, previous the
      delta and window the last iteration left behind. */
  function AspirationWindow(multiPV: int, iteration: int, values: seq<int>, previous: Aspiration,
                            knownWin: int, inf: int): (a: Aspiration)
    requires 0 <= iteration < |values|
    ensures !UsesAspiration(multiPV, iteration, values, knownWin) ==> a == previous
    ensures UsesAspiration(multiPV, iteration, values, knownWin) ==>
              a.delta == AspirationDelta(values[iteration - 1] - values[iteration - 2],
                                         values[iteration - 2] - values[iteration - 3])
    ensures UsesAspiration(multiPV, iteration, values, knownWin) ==>
              a.window == Window(Max(values[iteration - 1] - a.delta, -inf), Min(values[iteration - 1] + a.delta, inf))
  {
    if UsesAspiration(multiPV, iteration, values, knownWin) then
      var v := values[iteration - 1];
      var delta := AspirationDelta(v - values[iteration - 2], values[iteration - 2] - values[iteration - 3]);
      Aspiration(delta, Window(Max(v - delta, -inf), Min(v + delta, inf)))
    else previous
  }

  /** An aspiration window lies within (-VALUE_INFINITE, VALUE_INFINITE),
      strictly brackets the previous score and is at most twice the delta wide. */
  lemma AspirationWindowBrackets(multiPV: int, iteration: int, values: seq<int>, previous: Aspiration,
                                 knownWin: int, inf: int)
    requires 0 <= iteration < |values| && knownWin <= inf
    requires UsesAspiration(multiPV, iteration, values, knownWin)
    ensures var w := AspirationWindow(multiPV, iteration, values, previous, knownWin, inf).window;
            -inf <= w.alpha < values[iteration - 1] < w.beta <= inf
            && w.beta - w.alpha <= 2 * AspirationWindow(multiPV, iteration, values, previous, knownWin, inf).delta
  {
  }

  // ---------------------------------------------------------------------
  // Fail-high and fail-low re-searches.

  /** beta after n fail-high re-searches: the k-th widens it by delta * 2^k,
      never beyond VALUE_INFINITE. */
  function BetaAfter(beta0: int, delta: int, inf: int, n: nat): int {
    if n == 0 then beta0 else Min(BetaAfter(beta0, delta, inf, n - 1) + delta * Pow2(n - 1), inf)
  }

  /** alpha after n fail-low re-searches, the mirror image of BetaAfter. */
  function AlphaAfter(alpha0: int, delta: int, inf: int, n: nat): int {
    if n == 0 then alpha0 else Max(AlphaAfter(alpha0, delta, inf, n - 1) - delta * Pow2(n - 1), -inf)
  }

  /** Widening alpha is widening beta seen from the other side. */
  lemma {:induction false} AlphaAfterMirrorsBeta(alpha0: int, delta: int, inf: int, n: nat)
    ensures AlphaAfter(alpha0, delta, inf, n) == -BetaAfter(-alpha0, delta, inf, n)
  {
    if n > 0 {
      AlphaAfterMirrorsBeta(alpha0, delta, inf, n - 1);
    }
  }

  /** The widened beta never falls and never passes VALUE_INFINITE. */
  lemma {:induction false} BetaAfterBounds(beta0: int, delta: int, inf: int, n: nat)
    requires beta0 <= inf && delta >= 0
    ensures beta0 <= BetaAfter(beta0, delta, inf, n) <= inf
    ensures n > 0 ==> BetaAfter(beta0, delta, inf, n - 1) <= BetaAfter(beta0, delta, inf, n)
  {
    if n > 0 {
      BetaAfterBounds(beta0, delta, inf, n - 1);
    }
  }

  /** After n re-searches beta has grown by delta * (2^n - 1) unless capped. */
  lemma {:induction false} BetaAfterGrows(beta0: int, delta: int, inf: int, n: nat)
    requires beta0 <= inf && delta >= 0
    ensures BetaAfter(beta0, delta, inf, n) >= Min(beta0 + delta * (Pow2(n) - 1), inf)
  {
    if n > 0 {
      BetaAfterGrows(beta0, delta, inf, n - 1);
      Distribute(delta, Pow2(n - 1));
    }
  }

  /** Proof helper (arithmetic, no counterpart in the engine). */
  lemma Distribute(delta: int, p: int)
    ensures delta * (2 * p - 1) == delta * (p - 1) + delta * p
  {
  }

  /** Once delta * (2^n - 1) covers the distance to VALUE_INFINITE, the n-th
      window is already the full one. */
  lemma FullWindowAfter(beta0: int, delta: int, inf: int, n: nat)
    requires beta0 <= inf && delta >= 0 && delta * (Pow2(n) - 1) >= inf - beta0
    ensures BetaAfter(beta0, delta, inf, n) == inf
  {
    BetaAfterGrows(beta0, delta, inf, n);
    BetaAfterBounds(beta0, delta, inf, n);
  }

  /** While beta is below VALUE_INFINITE the widening step delta << k is
      bounded by the distance covered, so the shift cannot overflow. */
  lemma WideningStepBounded(beta0: int, delta: int, inf: int, k: nat)
    requires beta0 <= inf && delta >= 0 && BetaAfter(beta0, delta, inf, k) < inf
    ensures delta * Pow2(k) <= inf - beta0 + delta
  {
    BetaAfterGrows(beta0, delta, inf, k);
  }

  /** The k-th search of a move completed and failed high. */
  predicate FailedHigh(beta0: int, delta: int, inf: int, value: nat -> int, aborted: nat -> bool, k: nat) {
    !aborted(k) && value(k) >= BetaAfter(beta0, delta, inf, k)
  }

  /** The k-th pass over the root moves completed and failed low. */
  predicate FailedLow(alpha0: int, delta: int, inf: int, best: nat -> int, aborted: nat -> bool, k: nat) {
    !aborted(k) && best(k) <= AlphaAfter(alpha0, delta, inf, k)
  }

  /** Proof helper: each widening step is at least delta. */
  lemma WideningStepPositive(delta: int, k: nat)
    requires delta > 0
    ensures delta * Pow2(k) >= delta
  {
    MulMonotone(1, Pow2(k), delta);
  }

  /** The fail-high loop around one root move. researchCountFH is reset
      only once per root_search() call and beta only when it is entered, so
      the loop starts with count k0 (the fail-high re-searches already made
      for earlier moves) and with beta widened k0 times from beta0, the beta
      root_search() was called with. value(k) is the score of the search
      made while the count is k and aborted(k) whether AbortSearch was set
      during it. The move is re-searched with a wider beta while it fails
      high; the new count is returned. */
  method FailHighLoop(ghost beta0: int, betaIn: int, k0: nat, delta: int, inf: int,
                      value: nat -> int, aborted: nat -> bool)
    returns (v: int, beta: int, count: nat)
    requires beta0 <= inf && delta >= 0 && (beta0 < inf ==> delta > 0)
    requires betaIn == BetaAfter(beta0, delta, inf, k0)
    requires forall k :: value(k) < inf
    ensures k0 <= count
    ensures v == value(count) && beta == BetaAfter(beta0, delta, inf, count)
    ensures aborted(count) || v < beta
    ensures forall k :: k0 <= k < count ==> FailedHigh(beta0, delta, inf, value, aborted, k)
    ensures forall n: nat :: k0 <= n && delta * (Pow2(n) - 1) >= inf - beta0 ==> count <= n
  {
    BetaAfterBounds(beta0, delta, inf, k0);
    beta, count := betaIn, k0;
    v := value(count);
    while !(aborted(count) || v < beta)
      invariant k0 <= count
      invariant v == value(count) && beta == BetaAfter(beta0, delta, inf, count)
      invariant beta0 <= beta <= inf
      invariant forall k :: k0 <= k < count ==> FailedHigh(beta0, delta, inf, value, aborted, k)
      decreases inf - beta
    {
      assert FailedHigh(beta0, delta, inf, value, aborted, count);
      WideningStepPositive(delta, count);
      beta := Min(beta + delta * Pow2(count), inf);
      count := count + 1;
      v := value(count);
    }
    forall n: nat | k0 <= n && delta * (Pow2(n) - 1) >= inf - beta0
      ensures count <= n
    {
      if n < count {
        assert FailedHigh(beta0, delta, inf, value, aborted, n);
        FullWindowAfter(beta0, delta, inf, n);
      }
    }
  }

  /** The fail-low loop of root_search() in single-PV mode: best(k) is the
      best score the k-th pass over the root moves found (alpha is raised to
      it when it beats alpha) and aborted(k) whether AbortSearch was set. A
      pass fails low when it leaves alpha where it started; the root moves
      are then searched again with alpha lowered by delta * 2^k. */
  method FailLowLoop(alpha0: int, delta: int, inf: int, best: nat -> int, aborted: nat -> bool)
    returns (alpha: int, researches: nat)
    requires -inf <= alpha0 && delta >= 0 && (-inf < alpha0 ==> delta > 0)
    requires forall k :: best(k) > -inf
    ensures var start := AlphaAfter(alpha0, delta, inf, researches);
            alpha == (if best(researches) > start then best(researches) else start)
    ensures aborted(researches) || best(researches) > AlphaAfter(alpha0, delta, inf, researches)
    ensures forall k :: 0 <= k < researches ==> FailedLow(alpha0, delta, inf, best, aborted, k)
    ensures forall n: nat :: delta * (Pow2(n) - 1) >= inf + alpha0 ==> researches <= n
  {
    var start := alpha0;
    researches := 0;
    AlphaAfterMirrorsBeta(alpha0, delta, inf, 0);
    alpha := if best(0) > start then best(0) else start;
    while !(aborted(researches) || alpha != start)
      invariant start == AlphaAfter(alpha0, delta, inf, researches) && -inf <= start <= alpha0
      invariant alpha == (if best(researches) > start then best(researches) else start)
      invariant forall k :: 0 <= k < researches ==> FailedLow(alpha0, delta, inf, best, aborted, k)
      decreases start + inf
    {
      assert FailedLow(alpha0, delta, inf, best, aborted, researches);
      WideningStepPositive(delta, researches);
      start := Max(start - delta * Pow2(researches), -inf);
      researches := researches + 1;
      AlphaAfterMirrorsBeta(alpha0, delta, inf, researches);
      BetaAfterBounds(-alpha0, delta, inf, researches);
      alpha := if best(researches) > start then best(researches) else start;
    }
    forall n: nat | delta * (Pow2(n) - 1) >= inf + alpha0
      ensures researches <= n
    {
      if n < researches {
        assert FailedLow(alpha0, delta, inf, best, aborted, n);
        AlphaAfterMirrorsBeta(alpha0, delta, inf, n);
        FullWindowAfter(-alpha0, delta, inf, n);
      }
    }
  }

  /** The end of a pass over the root moves: AspirationFailLow records
      whether alpha is still where the pass started, and a fail low cancels
      a pending stop at the next ponderhit. */
  method RecordFailLow(st: SearchState, alpha: int, alphaAtStart: int)
    modifies st`aspirationFailLow, st`stopOnPonderhit
    ensures st.aspirationFailLow == (alpha == alphaAtStart)
    ensures st.stopOnPonderhit == (old(st.stopOnPonderhit) && alpha != alphaAtStart)
  {
    st.aspirationFailLow := alpha == alphaAtStart;
    if st.aspirationFailLow && st.stopOnPonderhit {
      st.stopOnPonderhit := false;
    }
  }

  // ---------------------------------------------------------------------
  // Stopping the iterative deepening.

  /** An easy move must beat the second best move by this much. */
  const EasyMoveMargin: int := 0x200

  /** The easy move chosen from the initial scoring: the only legal move, or
      a first move that beats the second by more than EasyMoveMargin. */
  function EasyMoveAtStart(moveCount: int, move0: Move, score0: int, score1: int): (m: Move)
    ensures (moveCount == 1 || score0 > score1 + EasyMoveMargin) ==> m == move0
    ensures !(moveCount == 1 || score0 > score1 + EasyMoveMargin) ==> m == MoveNone
  {
    if moveCount == 1 || score0 > score1 + EasyMoveMargin then move0 else MoveNone
  }

  /** The easy move is dropped as soon as an iteration prefers another move. */
  function KeepEasyMove(easyMove: Move, bestMove: Move): (m: Move)
    ensures m == easyMove || m == MoveNone
    ensures m != MoveNone ==> m == bestMove
    ensures bestMove == easyMove ==> m == easyMove
  {
    if bestMove != easyMove then MoveNone else easyMove
  }

  /** What one finished iteration reports to the stop decision. */
  datatype IterationReport = IterationReport(
    iteration: int,
    moveCount: int,
    value: int,               // ValueByIteration[Iteration]
    prevValue: int,           // ValueByIteration[Iteration - 1]
    easyMove: Move,           // EasyMove after KeepEasyMove
    bestMove: Move,           // ss[0].pv[0]
    bestMoveNodes: int,       // cumulative nodes of the first root move
    nodes: int,               // nodes searched so far
    bestMoveChanges: int,     // BestMoveChangesByIteration[Iteration]
    prevBestMoveChanges: int) // BestMoveChangesByIteration[Iteration - 1]

  /** ExtraSearchTime after an iteration: between iterations 6 and 50 it is
      half the target time per best-move change in this iteration plus a
      third per change in the previous one. */
  function ExtraSearchTime(r: IterationReport, maxSearchTime: int, extra: int): (x: int)
    ensures 5 < r.iteration <= 50 && r.bestMoveChanges == 0 && r.prevBestMoveChanges == 0 ==> x == 0
    ensures !(5 < r.iteration <= 50) ==> x == extra
  {
    if 5 < r.iteration <= 50 then
      r.bestMoveChanges * CDiv(maxSearchTime, 2) + r.prevBestMoveChanges * CDiv(maxSearchTime, 3)
    else extra
  }

  /** A best-move change in this iteration buys at least half the target
      time, one in the previous iteration at least a third. */
  lemma ExtraSearchTimeForChanges(r: IterationReport, maxSearchTime: int, extra: int)
    requires 5 < r.iteration <= 50 && maxSearchTime >= 0
    requires r.bestMoveChanges >= 0 && r.prevBestMoveChanges >= 0
    ensures r.bestMoveChanges > 0 ==> ExtraSearchTime(r, maxSearchTime, extra) >= maxSearchTime / 2
    ensures r.prevBestMoveChanges > 0 ==> ExtraSearchTime(r, maxSearchTime, extra) >= maxSearchTime / 3
    ensures ExtraSearchTime(r, maxSearchTime, extra) >= 0
  {
    DivNonNegative(maxSearchTime, 2);
    DivNonNegative(maxSearchTime, 3);
    MulMonotone(0, r.bestMoveChanges, maxSearchTime / 2);
    MulMonotone(0, r.prevBestMoveChanges, maxSearchTime / 3);
    if r.bestMoveChanges > 0 {
      MulMonotone(1, r.bestMoveChanges, maxSearchTime / 2);
    }
    if r.prevBestMoveChanges > 0 {
      MulMonotone(1, r.prevBestMoveChanges, maxSearchTime / 3);
    }
  }

  /** More best-move changes never buy less extra time. */
  lemma ExtraSearchTimeMonotone(r1: IterationReport, r2: IterationReport, maxSearchTime: int, extra: int)
    requires maxSearchTime >= 0 && 5 < r1.iteration <= 50 && r2.iteration == r1.iteration
    requires r1.bestMoveChanges <= r2.bestMoveChanges && r1.prevBestMoveChanges <= r2.prevBestMoveChanges
    ensures ExtraSearchTime(r1, maxSearchTime, extra) <= ExtraSearchTime(r2, maxSearchTime, extra)
  {
    MulMonotone(r1.bestMoveChanges, r2.bestMoveChanges, maxSearchTime / 2);
    MulMonotone(r1.prevBestMoveChanges, r2.prevBestMoveChanges, maxSearchTime / 3);
  }

  /** One move has taken almost all the nodes late in the search. */
  predicate EasyMoveStop(r: IterationReport, maxSearchTime: int, t: int) {
    && r.iteration >= 8
    && r.easyMove == r.bestMove
    && (|| (r.bestMoveNodes > CDiv(r.nodes * 85, 100) && t > CDiv(maxSearchTime, 16))
        || (r.bestMoveNodes > CDiv(r.nodes * 98, 100) && t > CDiv(maxSearchTime, 32)))
  }

  /** Whether id_loop() stops after an iteration under time management, at
      elapsed time t, with ExtraSearchTime already updated; valueMate is
      VALUE_MATE. */
  function StopSearch(r: IterationReport, valueMate: int, maxSearchTime: int, extra: int, t: int): (stop: bool)
    ensures r.iteration >= 6 && r.moveCount == 1 ==> stop
    ensures r.iteration >= 6 && Abs(r.value) >= Abs(valueMate) - 100 && Abs(r.prevValue) >= Abs(valueMate) - 100 ==> stop
    ensures EasyMoveStop(r, maxSearchTime, t) ==> stop
    ensures (&& stop && r.moveCount != 1
             && !(Abs(r.value) >= Abs(valueMate) - 100 && Abs(r.prevValue) >= Abs(valueMate) - 100)
             && !EasyMoveStop(r, maxSearchTime, t))
            ==> t > CDiv((maxSearchTime + extra) * 80, 128)
    ensures t > CDiv((maxSearchTime + extra) * 80, 128) ==> stop
    ensures r.iteration < 6 ==> (stop <==> t > CDiv((maxSearchTime + extra) * 80, 128))
  {
    || (r.iteration >= 6 && r.moveCount == 1)
    || (r.iteration >= 6 && Abs(r.value) >= Abs(valueMate) - 100 && Abs(r.prevValue) >= Abs(valueMate) - 100)
    || EasyMoveStop(r, maxSearchTime, t)
    || t > CDiv((maxSearchTime + extra) * 80, 128)
  }

  /** A search that would stop at some time would stop at any later time. */
  lemma StopSearchMonotone(r: IterationReport, valueMate: int, maxSearchTime: int, extra: int, t1: int, t2: int)
    requires t1 <= t2
    ensures StopSearch(r, valueMate, maxSearchTime, extra, t1) ==> StopSearch(r, valueMate, maxSearchTime, extra, t2)
  {
  }

  /** The end of an id_loop() iteration after a search that was not aborted:
      updates ExtraSearchTime and decides to stop; while pondering a stop is
      deferred to the ponderhit instead. breakLoop says whether the loop ends. */
  method EndIteration(st: SearchState, r: IterationReport, valueMate: int, t: int) returns (breakLoop: bool)
    modifies st`extraSearchTime, st`stopOnPonderhit
    ensures st.extraSearchTime == if st.useTimeManagement then ExtraSearchTime(r, st.maxSearchTime, old(st.extraSearchTime))
                                  else old(st.extraSearchTime)
    ensures var stop := st.useTimeManagement && StopSearch(r, valueMate, st.maxSearchTime, st.extraSearchTime, t);
            && st.stopOnPonderhit == (old(st.stopOnPonderhit) || (stop && st.ponderSearch))
            && (breakLoop <==> (stop && !st.ponderSearch) || (st.maxDepth != 0 && r.iteration >= st.maxDepth))
  {
    if st.useTimeManagement {
      var stopSearch := false;
      if r.iteration >= 6 && r.moveCount == 1 {
        stopSearch := true;
      }
      if r.iteration >= 6 && Abs(r.value) >= Abs(valueMate) - 100 && Abs(r.prevValue) >= Abs(valueMate) - 100 {
        stopSearch := true;
      }
      if EasyMoveStop(r, st.maxSearchTime, t) {
        stopSearch := true;
      }
      if 5 < r.iteration <= 50 {
        st.extraSearchTime := r.bestMoveChanges * CDiv(st.maxSearchTime, 2)
                              + r.prevBestMoveChanges * CDiv(st.maxSearchTime, 3);
      }
      if t > CDiv((st.maxSearchTime + st.extraSearchTime) * 80, 128) {
        stopSearch := true;
      }
      if stopSearch {
        if st.ponderSearch {
          st.stopOnPonderhit := true;
        } else {
          return true;
        }
      }
    }
    breakLoop := st.maxDepth != 0 && r.iteration >= st.maxDepth;
  }
}
