// The search's per-move adjustments: depth extensions, mate detection, the
// transposition-table cutoff test, eval refinement, the razoring and futility
// margins, the reduction getters and the strength-handicap blunder modulus.

module Pruning {
  import opened Types

  /** One column of the extension options: CheckExtension[pvNode] and its
      siblings, in plies scaled by OnePly. */
  datatype ExtensionDepths = ExtensionDepths(
    check: int,
    singleEvasion: int,
    pawnPushTo7th: int,
    passedPawn: int,
    pawnEndgame: int,
    mateThreat: int)

  /** The UCI-configurable extension options; index 0 of each source array is
      used at non-PV nodes, index 1 at PV nodes. */
  datatype ExtensionOptions = ExtensionOptions(nonPv: ExtensionDepths, pv: ExtensionDepths)

  function Column(opts: ExtensionOptions, pvNode: bool): ExtensionDepths {
    if pvNode then opts.pv else opts.nonPv
  }

  /** What extension() asks the position about the move being searched. */
  datatype MoveFacts = MoveFacts(
    movedIsPawn: bool,           // a pawn stands on the from-square
    toRelativeRank7: bool,       // the to-square is on the mover's seventh rank
    toPassedPawn: bool,          // a pawn of the mover on the to-square would be passed
    targetIsPawn: bool,          // a pawn stands on the to-square
    nonPawnMaterial: int,        // both sides' non-pawn material together
    targetMidgameValue: int,     // midgame value of the piece on the to-square
    isPromotion: bool,
    isEnPassant: bool,
    seeSign: int)                // sign of the static exchange evaluation

  /** The depth to add and whether the move must not be pruned. */
  datatype Extended = Extended(depth: int, dangerous: bool)

  /** A capture that leaves no non-pawn material on the board. */
  predicate EntersPawnEnding(f: MoveFacts, captureOrPromotion: bool) {
    && captureOrPromotion
    && !f.targetIsPawn
    && f.nonPawnMaterial - f.targetMidgameValue == 0
    && !f.isPromotion
    && !f.isEnPassant
  }

  /** A capture of a piece at a PV node that does not lose material. */
  predicate SafePvCapture(f: MoveFacts, pvNode: bool, captureOrPromotion: bool) {
    pvNode && captureOrPromotion && !f.targetIsPawn && f.seeSign >= 0
  }

  /** The move conditions that mark a move as dangerous. */
  predicate DangerousMove(f: MoveFacts, pvNode: bool, captureOrPromotion: bool,
                          moveIsCheck: bool, singleEvasion: bool, mateThreat: bool)
  {
    || moveIsCheck || singleEvasion || mateThreat
    || (f.movedIsPawn && (f.toRelativeRank7 || f.toPassedPawn))
    || EntersPawnEnding(f, captureOrPromotion)
    || SafePvCapture(f, pvNode, captureOrPromotion)
  }

  /** extension(): sums the extensions the move qualifies for and caps the sum
      at one ply; OnePly is the engine's positive depth unit. */
  function Extension(opts: ExtensionOptions, onePly: int, f: MoveFacts, pvNode: bool,
                     captureOrPromotion: bool, moveIsCheck: bool, singleEvasion: bool,
                     mateThreat: bool): (r: Extended)
    requires onePly > 0
    ensures r.depth <= onePly
    ensures r.dangerous <==> DangerousMove(f, pvNode, captureOrPromotion, moveIsCheck, singleEvasion, mateThreat)
  {
    var e := Column(opts, pvNode);
    var forced := moveIsCheck || singleEvasion || mateThreat;
    var d0 := if forced then
                (if moveIsCheck then e.check else 0)
                + (if singleEvasion then e.singleEvasion else 0)
                + (if mateThreat then e.mateThreat else 0)
              else 0;
    var rank7 := f.movedIsPawn && f.toRelativeRank7;
    var passed := f.movedIsPawn && f.toPassedPawn;
    var d1 := d0 + (if rank7 then e.pawnPushTo7th else 0) + (if passed then e.passedPawn else 0);
    var ending := EntersPawnEnding(f, captureOrPromotion);
    var d2 := d1 + (if ending then e.pawnEndgame else 0);
    var safe := SafePvCapture(f, pvNode, captureOrPromotion);
    var d3 := d2 + (if safe then onePly / 2 else 0);
    Extended(Min(d3, onePly), forced || rank7 || passed || ending || safe)
  }

  predicate NonNegative(e: ExtensionDepths) {
    e.check >= 0 && e.singleEvasion >= 0 && e.pawnPushTo7th >= 0
    && e.passedPawn >= 0 && e.pawnEndgame >= 0 && e.mateThreat >= 0
  }

  predicate AtMost(a: ExtensionDepths, b: ExtensionDepths) {
    a.check <= b.check && a.singleEvasion <= b.singleEvasion
    && a.pawnPushTo7th <= b.pawnPushTo7th && a.passedPawn <= b.passedPawn
    && a.pawnEndgame <= b.pawnEndgame && a.mateThreat <= b.mateThreat
  }

  /** A move that is not dangerous is never extended. */
  lemma ExtendedOnlyIfDangerous(opts: ExtensionOptions, onePly: int, f: MoveFacts, pvNode: bool,
                                cap: bool, check: bool, evasion: bool, threat: bool)
    requires onePly > 0
    ensures !Extension(opts, onePly, f, pvNode, cap, check, evasion, threat).dangerous
            ==> Extension(opts, onePly, f, pvNode, cap, check, evasion, threat).depth == 0
  {
  }

  /** Whether a move is dangerous does not depend on the configured depths:
      a move whose extension option is zero is still kept from pruning. */
  lemma DangerIgnoresOptions(opts1: ExtensionOptions, opts2: ExtensionOptions, onePly1: int, onePly2: int,
                             f: MoveFacts, pvNode: bool, cap: bool, check: bool, evasion: bool, threat: bool)
    requires onePly1 > 0 && onePly2 > 0
    ensures Extension(opts1, onePly1, f, pvNode, cap, check, evasion, threat).dangerous
            == Extension(opts2, onePly2, f, pvNode, cap, check, evasion, threat).dangerous
  {
  }

  /** With non-negative options the extension lies between zero and one ply. */
  lemma ExtensionInRange(opts: ExtensionOptions, onePly: int, f: MoveFacts, pvNode: bool,
                         cap: bool, check: bool, evasion: bool, threat: bool)
    requires onePly > 0 && NonNegative(Column(opts, pvNode))
    ensures 0 <= Extension(opts, onePly, f, pvNode, cap, check, evasion, threat).depth <= onePly
  {
  }

  /** Raising any extension option never shortens the extension. */
  lemma ExtensionMonotone(opts1: ExtensionOptions, opts2: ExtensionOptions, onePly: int, f: MoveFacts,
                          pvNode: bool, cap: bool, check: bool, evasion: bool, threat: bool)
    requires onePly > 0 && AtMost(Column(opts1, pvNode), Column(opts2, pvNode))
    ensures Extension(opts1, onePly, f, pvNode, cap, check, evasion, threat).depth
            <= Extension(opts2, onePly, f, pvNode, cap, check, evasion, threat).depth
  {
  }

  /** value_mate_in(ply): the score of giving mate in ply plies, where
      valueMate is VALUE_MATE. */
  function MateIn(valueMate: int, ply: int): int {
    valueMate - ply
  }

  /** value_mated_in(ply): the score of being mated in ply plies. */
  function MatedIn(valueMate: int, ply: int): int {
    -valueMate + ply
  }

  /** value_is_mate(): a score at least as extreme as a mate found within
      plyMax (PLY_MAX) plies; inf is VALUE_INFINITE. */
  function ValueIsMate(v: int, valueMate: int, plyMax: int, inf: int): (mate: bool)
    requires Abs(v) <= inf
    ensures mate <==> Abs(v) >= valueMate - plyMax
  {
    v <= MatedIn(valueMate, plyMax) || v >= MateIn(valueMate, plyMax)
  }

  /** Every score of mating or being mated within plyMax plies is recognised
      as a mate score, and no score closer to zero than a mate in plyMax is. */
  lemma MateScoresRecognised(valueMate: int, plyMax: int, inf: int, ply: int, v: int)
    requires 0 <= ply <= plyMax <= valueMate <= inf
    requires Abs(v) <= inf
    ensures ValueIsMate(MateIn(valueMate, ply), valueMate, plyMax, inf)
    ensures ValueIsMate(MatedIn(valueMate, ply), valueMate, plyMax, inf)
    ensures MatedIn(valueMate, plyMax) < v < MateIn(valueMate, plyMax) ==> !ValueIsMate(v, valueMate, plyMax, inf)
  {
  }

  /** A score is a mate score exactly when its negation, the opponent's view
      of it, is one. */
  lemma ValueIsMateSymmetric(v: int, valueMate: int, plyMax: int, inf: int)
    requires Abs(v) <= inf
    ensures ValueIsMate(v, valueMate, plyMax, inf) == ValueIsMate(-v, valueMate, plyMax, inf)
  {
  }

  /** The parts of a transposition-table entry the search reads; the bound
      flags are is_lower_bound(type) and is_upper_bound(type). */
  datatype TTEntry = TTEntry(depth: int, lowerBound: bool, upperBound: bool, nullSearch: bool)

  /** ok_to_use_TT(): v is the entry's value already adjusted to the current
      ply by value_from_tt; valueMate and plyMax are VALUE_MATE and PLY_MAX. */
  function OkToUseTT(e: TTEntry, v: int, depth: int, beta: int, allowNullmove: bool,
                     zugDetection: bool, valueMate: int, plyMax: int): (ok: bool)
    ensures ok ==> (if v >= beta then e.lowerBound else e.upperBound)
    ensures ok && e.depth < depth ==> Abs(v) >= valueMate - plyMax
  {
    && (allowNullmove || !e.nullSearch || !zugDetection)
    && (|| e.depth >= depth
        || v >= Max(MateIn(valueMate, plyMax), beta)
        || v < Min(MatedIn(valueMate, plyMax), beta))
    && ((e.lowerBound && v >= beta) || (e.upperBound && v < beta))
  }

  /** An entry usable at some depth is usable at every shallower depth. */
  lemma OkToUseTTShallower(e: TTEntry, v: int, d1: int, d2: int, beta: int, allowNullmove: bool,
                           zugDetection: bool, valueMate: int, plyMax: int)
    requires d1 <= d2
    ensures OkToUseTT(e, v, d2, beta, allowNullmove, zugDetection, valueMate, plyMax)
            ==> OkToUseTT(e, v, d1, beta, allowNullmove, zugDetection, valueMate, plyMax)
  {
  }

  /** At the root of a null-move verification search a score that came from a
      null search is never trusted when zugzwang detection is on. */
  lemma NullEntryRefused(e: TTEntry, v: int, depth: int, beta: int, valueMate: int, plyMax: int)
    requires e.nullSearch
    ensures !OkToUseTT(e, v, depth, beta, false, true, valueMate, plyMax)
  {
  }

  /** A deep enough entry whose bound proves the cutoff is always used. */
  lemma OkToUseTTComplete(e: TTEntry, v: int, depth: int, beta: int, valueMate: int, plyMax: int)
    requires e.depth >= depth && !e.nullSearch
    requires (e.lowerBound && v >= beta) || (e.upperBound && v < beta)
    ensures OkToUseTT(e, v, depth, beta, false, true, valueMate, plyMax)
  {
  }

  /** refine_eval(): the transposition-table score replaces the static
      evaluation when the entry's bound says it is the better estimate. */
  function RefineEval(tte: Option<TTEntry>, v: int, defaultEval: int): (r: int)
    ensures r == defaultEval || (tte.Some? && r == v)
  {
    if tte.None? then defaultEval
    else if (tte.value.lowerBound && v >= defaultEval) || (tte.value.upperBound && v < defaultEval) then v
    else defaultEval
  }

  /** The refined value, case by case on the entry's bound type. */
  lemma RefineEvalByBound(tte: Option<TTEntry>, v: int, defaultEval: int)
    ensures tte.Some? && tte.value.lowerBound && tte.value.upperBound ==> RefineEval(tte, v, defaultEval) == v
    ensures tte.Some? && tte.value.lowerBound && !tte.value.upperBound ==> RefineEval(tte, v, defaultEval) == Max(v, defaultEval)
    ensures tte.Some? && !tte.value.lowerBound && tte.value.upperBound ==> RefineEval(tte, v, defaultEval) == Min(v, defaultEval)
    ensures tte.None? || (!tte.value.lowerBound && !tte.value.upperBound) ==> RefineEval(tte, v, defaultEval) == defaultEval
  {
  }

  /** razor_margin(): the margin below beta under which razoring is tried. */
  function RazorMargin(d: int): (m: int)
    ensures d >= 0 ==> m >= 0x200
  {
    0x200 + 0x10 * d
  }

  /** Razoring is more cautious the deeper the node: 16 more per depth unit. */
  lemma RazorMarginGrows(d1: int, d2: int)
    requires d1 <= d2
    ensures RazorMargin(d2) - RazorMargin(d1) == 16 * (d2 - d1)
  {
  }

  // ---------------------------------------------------------------------
  // Futility tables, built once by init_search() with OnePly == 2.

  const MarginDepths: nat := 16
  const MarginMoves: nat := 64
  const MoveCountDepths: nat := 32

  /** FutilityMarginsMatrix[i][j] for depth i and move number j. */
  function FutilityMarginEntry(i: nat, j: int): int {
    (if i < 2 then 0 else 112 * HighestBit(i * i / 2)) - 8 * j
  }

  /** FutilityMoveCountArray[i] for depth i. */
  function FutilityMoveCountEntry(i: nat): int {
    3 + Pow2(3 * i / 8)
  }

  ghost predicate FutilityTablesBuilt(margins: array2<int>, counts: array<int>)
    reads margins, counts
  {
    && margins.Length0 == MarginDepths && margins.Length1 == MarginMoves
    && counts.Length == MoveCountDepths
    && (forall i, j :: 0 <= i < MarginDepths && 0 <= j < MarginMoves ==> margins[i, j] == FutilityMarginEntry(i, j))
    && (forall i :: 0 <= i < MoveCountDepths ==> counts[i] == FutilityMoveCountEntry(i))
  }

  /** The futility part of init_search(). */
  method InitFutilityTables(margins: array2<int>, counts: array<int>)
    requires margins.Length0 == MarginDepths && margins.Length1 == MarginMoves
    requires counts.Length == MoveCountDepths
    modifies margins, counts
    ensures FutilityTablesBuilt(margins, counts)
  {
    for i := 0 to MarginDepths
      invariant forall p, q :: 0 <= p < i && 0 <= q < MarginMoves ==> margins[p, q] == FutilityMarginEntry(p, q)
    {
      for j := 0 to MarginMoves
        invariant forall p, q :: 0 <= p < i && 0 <= q < MarginMoves ==> margins[p, q] == FutilityMarginEntry(p, q)
        invariant forall q :: 0 <= q < j ==> margins[i, q] == FutilityMarginEntry(i, q)
      {
        margins[i, j] := (if i < 2 then 0 else 112 * HighestBit(i * i / 2)) - 8 * j;
      }
    }
    for i := 0 to MoveCountDepths
      invariant forall p, q :: 0 <= p < MarginDepths && 0 <= q < MarginMoves ==> margins[p, q] == FutilityMarginEntry(p, q)
      invariant forall p :: 0 <= p < i ==> counts[p] == FutilityMoveCountEntry(p)
    {
      counts[i] := 3 + Pow2(3 * i / 8);
    }
  }

  /** Each further move lowers the futility margin by 8. */
  lemma FutilityMarginStep(i: nat, j: int)
    ensures FutilityMarginEntry(i, j + 1) == FutilityMarginEntry(i, j) - 8
  {
  }

  /** Deeper nodes get wider futility margins. */
  lemma {:induction false} FutilityMarginDeeper(i1: nat, i2: nat, j: int)
    requires i1 <= i2
    ensures FutilityMarginEntry(i1, j) <= FutilityMarginEntry(i2, j)
  {
    if i1 >= 2 {
      MulMonotone(2, i1, i1);
      MulMonotone(i1, i2, i1);
      MulMonotone(i1, i2, i2);
      DivMonotone(i1 * i1, i2 * i2, 2);
      HighestBitMonotone(i1 * i1 / 2, i2 * i2 / 2);
    }
  }

  /** Deeper nodes allow more moves before move-count pruning, never fewer than four. */
  lemma FutilityMoveCountDeeper(i1: nat, i2: nat)
    requires i1 <= i2
    ensures 4 <= FutilityMoveCountEntry(i1) <= FutilityMoveCountEntry(i2)
  {
    Pow2Monotone(3 * i1 / 8, 3 * i2 / 8);
  }

  /** futility_margin(): the table entry below seven plies, twice
      VALUE_INFINITE (no pruning possible) from there on. */
  function FutilityMargin(margins: array2<int>, counts: array<int>, d: int, mn: int, onePly: int, inf: int): (m: int)
    requires margins.Length0 == MarginDepths && margins.Length1 == MarginMoves
    requires 0 < onePly <= 2 && 0 <= mn
    reads margins, counts
    ensures d >= 7 * onePly ==> m == 2 * inf
    ensures FutilityTablesBuilt(margins, counts) && d < 7 * onePly ==> m == FutilityMarginEntry(Max(d, 0), Min(mn, 63))
  {
    if d < 7 * onePly then margins[Max(d, 0), Min(mn, 63)] else 2 * inf
  }

  /** Once the tables are built the margin never shrinks as the depth grows,
      provided twice VALUE_INFINITE exceeds every table entry. */
  lemma FutilityMarginMonotone(margins: array2<int>, counts: array<int>, d1: int, d2: int, mn: int, onePly: int, inf: int)
    requires FutilityTablesBuilt(margins, counts)
    requires 0 < onePly <= 2 && 0 <= mn && d1 <= d2 && inf >= 400
    ensures FutilityMargin(margins, counts, d1, mn, onePly, inf) <= FutilityMargin(margins, counts, d2, mn, onePly, inf)
  {
    if d2 < 7 * onePly {
      FutilityMarginDeeper(Max(d1, 0), Max(d2, 0), Min(mn, 63));
    } else if d1 < 7 * onePly {
      var i := Max(d1, 0);
      FutilityMarginDeeper(i, 13, Min(mn, 63));
      assert HighestBit(84) == 6;
    }
  }

  /** futility_move_count(): the table entry below sixteen plies, 512 from there on. */
  function FutilityMoveCount(margins: array2<int>, counts: array<int>, d: int, onePly: int): (c: int)
    requires counts.Length == MoveCountDepths
    requires 0 < onePly <= 2 && 0 <= d
    reads margins, counts
    ensures d >= 16 * onePly ==> c == 512
    ensures FutilityTablesBuilt(margins, counts) && d < 16 * onePly ==> c == FutilityMoveCountEntry(d)
  {
    if d < 16 * onePly then counts[d] else 512
  }

  /** Below sixteen plies the move-count threshold grows with depth. */
  lemma FutilityMoveCountMonotone(margins: array2<int>, counts: array<int>, d1: int, d2: int, onePly: int)
    requires FutilityTablesBuilt(margins, counts)
    requires 0 < onePly <= 2 && 0 <= d1 <= d2 < 16 * onePly
    ensures 4 <= FutilityMoveCount(margins, counts, d1, onePly) <= FutilityMoveCount(margins, counts, d2, onePly)
  {
    FutilityMoveCountDeeper(d1, d2);
  }

  // ---------------------------------------------------------------------
  // Reduction tables. init_search() fills rows and columns 1..63 from
  // logarithms; row 0 and column 0 keep the zero of static initialisation.

  const ReductionSize: nat := 64

  ghost predicate ReductionTable(t: array2<int>)
    reads t
  {
    && t.Length0 == ReductionSize && t.Length1 == ReductionSize
    && (forall j :: 0 <= j < ReductionSize ==> t[0, j] == 0)
    && (forall i :: 0 <= i < ReductionSize ==> t[i, 0] == 0)
    && (forall i, j :: 0 <= i < ReductionSize && 0 <= j < ReductionSize ==> -128 <= t[i, j] < 128)
  }

  /** pv_reduction() and nonpv_reduction(): the same getter over the two
      int8_t tables, with depth halved and both indices capped at 63. */
  function Reduction(t: array2<int>, d: int, mn: int): (r: int)
    requires t.Length0 == ReductionSize && t.Length1 == ReductionSize
    requires 0 <= d && 0 <= mn
    reads t
    ensures ReductionTable(t) ==> -128 <= r < 128
    ensures ReductionTable(t) && (d < 2 || mn == 0) ==> r == 0
  {
    t[Min(d / 2, 63), Min(mn, 63)]
  }

  /** Past depth 126 and move number 63 the reduction no longer changes. */
  lemma ReductionSaturates(t: array2<int>, d1: int, d2: int, mn1: int, mn2: int)
    requires t.Length0 == ReductionSize && t.Length1 == ReductionSize
    requires 126 <= d1 <= d2 && 63 <= mn1 <= mn2
    ensures Reduction(t, d1, mn1) == Reduction(t, d2, mn2)
  {
  }

  // ---------------------------------------------------------------------
  // Strength handicap.

  /** blunder_modulus(): the modulus m such that a move is skipped when the
      position key is divisible by m; smaller means more blunders. Blunder is
      the strength setting, d the new depth, see the move's static exchange
      value, distance the king distance between from- and to-square and
      diagonal whether both file and rank change. */
  function BlunderModulus(blunder: int, d: int, see: int, isCapture: bool, distance: int, diagonal: bool): (m: int)
    requires blunder > 0
    ensures m >= 1
  {
    var b0 := Max(CDiv(blunder * d, 3), 1);
    var b1 := if see < 0 then b0 / 8 else if isCapture then b0 * 4 else b0;
    var b2 := if distance >= 5 then (if diagonal then b1 / 4 else b1 / 2) else b1;
    Max(b2, 1)
  }

  /** A move that loses material is at least as likely to be blundered as a
      quiet move, which is at least as likely as a capture. */
  lemma BlunderModulusOrder(blunder: int, d: int, distance: int, diagonal: bool, losing: int, quiet: int)
    requires blunder > 0 && losing < 0 && quiet >= 0
    ensures BlunderModulus(blunder, d, losing, false, distance, diagonal)
            <= BlunderModulus(blunder, d, quiet, false, distance, diagonal)
            <= BlunderModulus(blunder, d, quiet, true, distance, diagonal)
  {
    var b0 := Max(CDiv(blunder * d, 3), 1);
    DivMonotone(b0 / 8, b0, 4);
    DivMonotone(b0 / 8, b0, 2);
    DivMonotone(b0, b0 * 4, 4);
    DivMonotone(b0, b0 * 4, 2);
  }

  /** Long moves are at least as likely to be blundered as short ones. */
  lemma BlunderModulusLongMoves(blunder: int, d: int, see: int, isCapture: bool, long: int, short: int, diagonal: bool)
    requires blunder > 0 && long >= 5 && short < 5
    ensures BlunderModulus(blunder, d, see, isCapture, long, diagonal)
            <= BlunderModulus(blunder, d, see, isCapture, short, diagonal)
  {
  }
}
