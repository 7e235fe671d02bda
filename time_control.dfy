// Time management and the global search state: the thinking-time budget and
// poll interval set up by think(), the playing-strength handicap, and the
// decisions poll() and ponderhit() take about aborting the search.

module TimeControl {
  import opened Types

  // ---------------------------------------------------------------------
  // Thinking time.

  /** MaxSearchTime, the time the search aims at, and AbsoluteMaxSearchTime,
      the time after which it is aborted, in milliseconds. */
  datatype Budget = Budget(maxSearchTime: int, absoluteMaxSearchTime: int)

  /** The budget for the time control before the Ponder option is applied. */
  function ClockBudget(myTime: int, myIncrement: int, movesToGo: int): Budget {
    if movesToGo == 0 then
      if myIncrement != 0 then
        Budget(CDiv(myTime, 30) + myIncrement, Max(CDiv(myTime, 4), myIncrement - 100))
      else
        Budget(CDiv(myTime, 30), CDiv(myTime, 8))
    else if movesToGo == 1 then
      Budget(CDiv(myTime, 2), if myTime > 3000 then myTime - 500 else CDiv(myTime * 3, 4))
    else
      Budget(CDiv(myTime, Min(movesToGo, 20)), Min(CDiv(4 * myTime, movesToGo), CDiv(myTime, 3)))
  }

  /** The budget think() sets under time management: when pondering, the
      target is raised by a quarter but never beyond the hard limit. */
  function TimeBudget(myTime: int, myIncrement: int, movesToGo: int, ponder: bool): (b: Budget)
    ensures b.absoluteMaxSearchTime == ClockBudget(myTime, myIncrement, movesToGo).absoluteMaxSearchTime
    ensures ponder ==> b.maxSearchTime <= b.absoluteMaxSearchTime
    ensures ponder ==> var c := ClockBudget(myTime, myIncrement, movesToGo);
              b.maxSearchTime == Min(c.maxSearchTime + CDiv(c.maxSearchTime, 4), c.absoluteMaxSearchTime)
    ensures !ponder ==> b == ClockBudget(myTime, myIncrement, movesToGo)
  {
    var base := ClockBudget(myTime, myIncrement, movesToGo);
    if ponder then
      var raised := base.maxSearchTime + CDiv(base.maxSearchTime, 4);
      Budget(Min(raised, base.absoluteMaxSearchTime), base.absoluteMaxSearchTime)
    else base
  }

  /** With Ponder the target rises by a quarter when the clock budget keeps
      it below the hard limit, and then never exceeds it. */
  lemma TimeBudgetPonderRaises(myTime: int, myIncrement: int, movesToGo: int)
    requires var c := ClockBudget(myTime, myIncrement, movesToGo);
             0 <= c.maxSearchTime <= c.absoluteMaxSearchTime
    ensures ClockBudget(myTime, myIncrement, movesToGo).maxSearchTime
            <= TimeBudget(myTime, myIncrement, movesToGo, true).maxSearchTime
            <= TimeBudget(myTime, myIncrement, movesToGo, true).absoluteMaxSearchTime
  {
    var c := ClockBudget(myTime, myIncrement, movesToGo);
    DivNonNegative(c.maxSearchTime, 4);
  }

  /** With two moves to go the clock budget aims above the hard limit, and
      the Ponder clamp then lowers the target: 6000 ms left gives 3000 ms
      without Ponder and 2000 ms with it. */
  lemma TimeBudgetPonderLowers()
    ensures TimeBudget(6000, 0, 2, false) == Budget(3000, 2000)
    ensures TimeBudget(6000, 0, 2, true) == Budget(2000, 2000)
  {
  }

  /** Without increment neither limit exceeds the time left on the clock. */
  lemma TimeBudgetWithinClock(myTime: int, movesToGo: int, ponder: bool)
    requires myTime >= 0 && movesToGo >= 0
    ensures 0 <= TimeBudget(myTime, 0, movesToGo, ponder).maxSearchTime <= myTime
    ensures 0 <= TimeBudget(myTime, 0, movesToGo, ponder).absoluteMaxSearchTime <= myTime
  {
    var base := ClockBudget(myTime, 0, movesToGo);
    if movesToGo > 1 {
      SharedMovesWithinClock(myTime, movesToGo);
    }
    if ponder {
      assert CDiv(base.maxSearchTime, 4) >= 0;
    }
  }

  /** Proof helper for TimeBudgetWithinClock: the shared-moves budget. */
  lemma SharedMovesWithinClock(myTime: int, movesToGo: int)
    requires myTime >= 0 && movesToGo > 1
    ensures 0 <= ClockBudget(myTime, 0, movesToGo).maxSearchTime <= myTime
    ensures 0 <= ClockBudget(myTime, 0, movesToGo).absoluteMaxSearchTime <= myTime
  {
    var k := Min(movesToGo, 20);
    DivAtMost(myTime, k);
    assert 0 <= 4 * myTime / movesToGo;
  }

  /** On the last move before the time control the search aims at half the
      remaining time and always leaves some of it on the clock. */
  lemma TimeBudgetLastMove(myTime: int, myIncrement: int)
    requires myTime > 0
    ensures TimeBudget(myTime, myIncrement, 1, false).maxSearchTime == myTime / 2
    ensures TimeBudget(myTime, myIncrement, 1, false).absoluteMaxSearchTime < myTime
  {
  }

  /** In sudden death an increment only ever adds to the target time. */
  lemma TimeBudgetIncrement(myTime: int, myIncrement: int)
    requires myIncrement > 0
    ensures TimeBudget(myTime, myIncrement, 0, false).maxSearchTime
            == TimeBudget(myTime, 0, 0, false).maxSearchTime + myIncrement
  {
  }

  // ---------------------------------------------------------------------
  // Poll interval (the build defines IPHONE_GLAURUNG, which divides it by 30).

  /** NodesBetweenPolls before the division. */
  function BasePollInterval(maxNodes: int, myTime: int): int {
    if maxNodes != 0 then Min(maxNodes, 30000)
    else if myTime != 0 && myTime < 1000 then 1000
    else if myTime != 0 && myTime < 5000 then 5000
    else 30000
  }

  /** NodesBetweenPolls as think() leaves it. */
  function PollInterval(maxNodes: int, myTime: int): (n: int)
    ensures n <= 1000
    ensures maxNodes > 0 ==> 0 <= 30 * n <= maxNodes
    ensures maxNodes == 0 ==> 33 <= n
  {
    CDiv(BasePollInterval(maxNodes, myTime), 30)
  }

  /** Without a node limit, less time on the clock means more frequent polls. */
  lemma PollIntervalShrinksWithTime(t1: int, t2: int)
    requires 0 < t1 <= t2
    ensures PollInterval(0, t1) <= PollInterval(0, t2)
    ensures t1 < 1000 ==> PollInterval(0, t1) == 33
  {
  }

  // ---------------------------------------------------------------------
  // Playing strength (UCI_LimitStrength / UCI_Elo).

  const MaxStrength: int := 25

  /** Node-count delays by strength; the last entry is the longest. */
  const SlowdownArray: seq<int> := [14, 30, 46, 70, 115, 170, 240, 330, 453, 610, 793, 1027, 1284, 1605]

  /** Strength, Slowdown and Blunder as think() sets them. */
  datatype Handicap = Handicap(strength: int, slowdown: int, blunder: int)

  /** Strength from the UCI_Elo option, 25 Elo per step from 2100. */
  function StrengthOf(elo: int): int {
    CDiv(elo - 2100, 25)
  }

  /** Slowdown for a limited strength: none at full strength, a table entry
      for non-negative strengths, the longest delay below zero. */
  function SlowdownFor(strength: int): (s: int)
    ensures 14 <= s <= 1605 || (s == 0 && strength == MaxStrength)
  {
    if strength == MaxStrength then 0
    else if strength >= 0 then SlowdownArray[Max(0, 13 - strength)]
    else SlowdownArray[13]
  }

  /** A weaker setting is never slowed down less, up to full strength. */
  lemma SlowdownMonotone(s1: int, s2: int)
    requires s1 <= s2 <= MaxStrength
    ensures SlowdownFor(s2) <= SlowdownFor(s1)
  {
  }

  /** Above full strength the shortest delay comes back: a strength of
      MaxStrength + 1 is slowed down while MaxStrength is not. */
  lemma SlowdownAboveMaxStrength()
    ensures SlowdownFor(MaxStrength + 1) == 14 && SlowdownFor(MaxStrength) == 0
  {
  }

  /** Blunder for a negative strength as think() computes it. */
  function BlunderAsWritten(strength: int): (b: int)
    ensures b >= 0
  {
    (53 + strength) * (53 + strength)
  }

  /** Blunder with the strength clamped at -52, where blunders are most
      frequent, so that weaker settings blunder at least as often. */
  function BlunderFor(strength: int): (b: int)
    requires strength < 0
    ensures 1 <= b <= 52 * 52
  {
    var s := Max(strength, -52);
    MulAtMost(53 + s, 52);
    (53 + s) * (53 + s)
  }

  /** Proof helper (arithmetic, no counterpart in the engine). */
  lemma MulAtMost(x: int, y: int)
    requires 1 <= x <= y
    ensures 1 <= x * x <= y * y
  {
    assert x * x <= x * y <= y * y;
  }

  /** The strength settings of think() as written: with UCI_LimitStrength
      off, Blunder keeps whatever value the previous search left in it. */
  function HandicapAsWritten(limitStrength: bool, elo: int, previous: Handicap): (h: Handicap)
    ensures !limitStrength ==> h == Handicap(MaxStrength, 0, previous.blunder)
  {
    if limitStrength then
      var s := StrengthOf(elo);
      Handicap(s, SlowdownFor(s), if s >= 0 then 0 else BlunderAsWritten(s))
    else Handicap(MaxStrength, 0, previous.blunder)
  }

  /** The strength settings with both defects corrected: Blunder is reset at
      full strength, and clamped so that it never drops to zero (which turns
      blundering off) below -52. */
  function HandicapSettings(limitStrength: bool, elo: int): (h: Handicap)
    ensures !limitStrength ==> h == Handicap(MaxStrength, 0, 0)
    ensures h.blunder > 0 <==> h.strength < 0
  {
    if limitStrength then
      var s := StrengthOf(elo);
      Handicap(s, SlowdownFor(s), if s >= 0 then 0 else BlunderFor(s))
    else Handicap(MaxStrength, 0, 0)
  }

  /** As written, UCI_Elo 770 gives strength -53 and no blunders at all,
      although 800 blunders with modulus 1 and 720 with modulus 4; and a
      search without UCI_LimitStrength keeps blundering after a limited one. */
  lemma HandicapAsWrittenDefects()
    ensures HandicapAsWritten(true, 800, Handicap(0, 0, 0)).blunder == 1
    ensures HandicapAsWritten(true, 770, Handicap(0, 0, 0)).blunder == 0
    ensures HandicapAsWritten(true, 720, Handicap(0, 0, 0)).blunder == 4
    ensures HandicapAsWritten(false, 2100, HandicapAsWritten(true, 800, Handicap(0, 0, 0))).blunder == 1
  {
    assert StrengthOf(800) == -52;
    assert StrengthOf(770) == -53;
    assert StrengthOf(720) == -55;
  }

  /** Corrected: below full strength, a lower UCI_Elo never makes blunders
      rarer (a smaller Blunder is a smaller modulus, so more skipped moves). */
  lemma {:induction false} HandicapBlunderMonotone(elo1: int, elo2: int)
    requires elo1 <= elo2 && StrengthOf(elo2) < 0
    ensures 1 <= HandicapSettings(true, elo1).blunder <= HandicapSettings(true, elo2).blunder
  {
    var s1, s2 := StrengthOf(elo1), StrengthOf(elo2);
    CDivMonotone(elo1 - 2100, elo2 - 2100, 25);
    MulAtMost(53 + Max(s1, -52), 53 + Max(s2, -52));
  }

  /** Truncating division by a positive divisor keeps an order. */
  lemma CDivMonotone(a: int, b: int, k: int)
    requires a <= b && k > 0
    ensures CDiv(a, k) <= CDiv(b, k)
  {
    if a >= 0 {
      DivMonotone(a, b, k);
    } else if b >= 0 {
      assert CDiv(a, k) == -((-a) / k) <= 0;
    } else {
      DivMonotone(-b, -a, k);
    }
  }

  // ---------------------------------------------------------------------
  // Abort decisions.

  /** The limits think() fixes for one search. */
  datatype TimeLimits = TimeLimits(
    useTimeManagement: bool,
    maxSearchTime: int,
    absoluteMaxSearchTime: int,
    extraSearchTime: int,
    exactMaxTime: int,
    maxNodes: int)

  /** The time is up: past the hard limit, or still on the first root move
      (without a fail low to resolve) past the target plus the extra time. */
  predicate NoMoreTime(l: TimeLimits, firstRootMove: bool, aspirationFailLow: bool, t: int) {
    || t > l.absoluteMaxSearchTime
    || (firstRootMove && !aspirationFailLow && t > l.maxSearchTime + l.extraSearchTime)
  }

  /** The condition under which poll() aborts a search that is not pondering. */
  function PollStops(l: TimeLimits, iteration: int, firstRootMove: bool, aspirationFailLow: bool,
                     t: int, nodes: int): (stop: bool)
    ensures l.exactMaxTime != 0 && t >= l.exactMaxTime ==> stop
    ensures iteration >= 3 && l.useTimeManagement && t > l.absoluteMaxSearchTime ==> stop
    ensures (&& iteration >= 3 && l.useTimeManagement && firstRootMove && !aspirationFailLow
             && t > l.maxSearchTime + l.extraSearchTime) ==> stop
    ensures iteration >= 3 && l.maxNodes != 0 && nodes >= l.maxNodes ==> stop
    ensures stop && iteration < 3 ==> l.exactMaxTime != 0 && t >= l.exactMaxTime
    ensures stop && !l.useTimeManagement && l.maxNodes == 0 ==> l.exactMaxTime != 0 && t >= l.exactMaxTime
    ensures stop ==> || (l.exactMaxTime != 0 && t >= l.exactMaxTime)
                     || (&& iteration >= 3
                         && (|| (l.useTimeManagement && (t > l.absoluteMaxSearchTime || t > l.maxSearchTime + l.extraSearchTime))
                             || (l.maxNodes != 0 && nodes >= l.maxNodes)))
  {
    || (iteration >= 3 && l.useTimeManagement && NoMoreTime(l, firstRootMove, aspirationFailLow, t))
    || (l.exactMaxTime != 0 && t >= l.exactMaxTime)
    || (iteration >= 3 && l.maxNodes != 0 && nodes >= l.maxNodes)
  }

  /** Once poll() would stop, it stops at every later time and node count. */
  lemma PollStopsMonotone(l: TimeLimits, iteration: int, firstRootMove: bool, aspirationFailLow: bool,
                          t1: int, t2: int, n1: int, n2: int)
    requires t1 <= t2 && n1 <= n2
    ensures PollStops(l, iteration, firstRootMove, aspirationFailLow, t1, n1)
            ==> PollStops(l, iteration, firstRootMove, aspirationFailLow, t2, n2)
  {
  }

  /** The condition under which ponderhit() aborts the search. */
  function PonderhitStops(l: TimeLimits, iteration: int, firstRootMove: bool, aspirationFailLow: bool,
                          stopOnPonderhit: bool, t: int): (stop: bool)
    ensures stop ==> iteration >= 3 && l.useTimeManagement
    ensures iteration >= 3 && l.useTimeManagement && stopOnPonderhit ==> stop
    ensures iteration >= 3 && l.useTimeManagement && t > l.absoluteMaxSearchTime ==> stop
    ensures stop ==> stopOnPonderhit || t > l.absoluteMaxSearchTime || t > l.maxSearchTime + l.extraSearchTime
  {
    iteration >= 3 && l.useTimeManagement && (NoMoreTime(l, firstRootMove, aspirationFailLow, t) || stopOnPonderhit)
  }

  /** Under time management, from the third iteration on, a ponderhit aborts
      whenever a poll at the same moment would. */
  lemma PonderhitCoversPoll(l: TimeLimits, iteration: int, firstRootMove: bool, aspirationFailLow: bool,
                            stopOnPonderhit: bool, t: int)
    requires iteration >= 3 && l.useTimeManagement && l.exactMaxTime == 0 && l.maxNodes == 0
    ensures PollStops(l, iteration, firstRootMove, aspirationFailLow, t, 0)
            ==> PonderhitStops(l, iteration, firstRootMove, aspirationFailLow, stopOnPonderhit, t)
  {
  }

  /** The input poll() may find waiting. */
  datatype Command = NoCommand | Quit | Stop | Ponderhit | Other

  /** The three flags poll() and ponderhit() may change. */
  datatype SearchFlags = SearchFlags(abortSearch: bool, ponderSearch: bool, quit: bool)

  /** The flags after poll() has read cmd at elapsed time t with the given
      node count: 'quit' aborts at once; 'stop' aborts and ends pondering;
      'ponderhit' ends pondering and aborts if the time is up or an earlier
      iteration asked for it; then a search that is not pondering is aborted
      once its limits are reached. */
  function AfterPoll(f: SearchFlags, l: TimeLimits, iteration: int, firstRootMove: bool, aspirationFailLow: bool,
                     stopOnPonderhit: bool, t: int, cmd: Command, nodes: int): (g: SearchFlags)
    ensures g.quit <==> f.quit || cmd == Quit
    ensures g.ponderSearch <==> f.ponderSearch && (cmd == NoCommand || cmd == Other)
    ensures f.abortSearch ==> g.abortSearch
    ensures cmd == Quit || cmd == Stop ==> g.abortSearch
    ensures cmd == Ponderhit && PonderhitStops(l, iteration, firstRootMove, aspirationFailLow, stopOnPonderhit, t)
            ==> g.abortSearch
    ensures !g.ponderSearch && PollStops(l, iteration, firstRootMove, aspirationFailLow, t, nodes) ==> g.abortSearch
    ensures g.ponderSearch ==> g.abortSearch == f.abortSearch
    ensures g.abortSearch ==> || f.abortSearch || cmd == Quit || cmd == Stop
                              || PonderhitStops(l, iteration, firstRootMove, aspirationFailLow, stopOnPonderhit, t)
                              || PollStops(l, iteration, firstRootMove, aspirationFailLow, t, nodes)
  {
    var stops := PollStops(l, iteration, firstRootMove, aspirationFailLow, t, nodes);
    match cmd
    case Quit => SearchFlags(true, false, true)
    case Stop => SearchFlags(true, false, f.quit)
    case Ponderhit =>
      var abort := f.abortSearch || PonderhitStops(l, iteration, firstRootMove, aspirationFailLow, stopOnPonderhit, t);
      SearchFlags(abort || stops, false, f.quit)
    case _ => if f.ponderSearch then f else SearchFlags(f.abortSearch || stops, false, f.quit)
  }

  /** A second poll at the same moment with no command waiting changes
      nothing. */
  lemma AfterPollSettled(f: SearchFlags, l: TimeLimits, iteration: int, firstRootMove: bool, aspirationFailLow: bool,
                         stopOnPonderhit: bool, t: int, cmd: Command, nodes: int)
    ensures var g := AfterPoll(f, l, iteration, firstRootMove, aspirationFailLow, stopOnPonderhit, t, cmd, nodes);
            AfterPoll(g, l, iteration, firstRootMove, aspirationFailLow, stopOnPonderhit, t, NoCommand, nodes) == g
  {
  }

  /** Without a command, a search that is not pondering is aborted exactly
      when its limits are reached, and a pondering search never is. */
  lemma AfterPollWithoutCommand(f: SearchFlags, l: TimeLimits, iteration: int, firstRootMove: bool,
                                aspirationFailLow: bool, stopOnPonderhit: bool, t: int, nodes: int)
    ensures var g := AfterPoll(f, l, iteration, firstRootMove, aspirationFailLow, stopOnPonderhit, t, NoCommand, nodes);
            && g.ponderSearch == f.ponderSearch && g.quit == f.quit
            && g.abortSearch == (f.abortSearch
                                 || (!f.ponderSearch && PollStops(l, iteration, firstRootMove, aspirationFailLow, t, nodes)))
  {
  }

  // ---------------------------------------------------------------------
  // The search's global variables.

  class SearchState {
    var maxSearchTime: int
    var absoluteMaxSearchTime: int
    var extraSearchTime: int
    var exactMaxTime: int
    var maxDepth: int
    var maxNodes: int
    var useTimeManagement: bool
    var infiniteSearch: bool
    var ponderSearch: bool
    var stopOnPonderhit: bool
    var firstRootMove: bool
    var abortSearch: bool
    var quit: bool
    var aspirationFailLow: bool
    var iteration: int
    var nodesSincePoll: int
    var nodesBetweenPolls: int
    var strength: int
    var slowdown: int
    var blunder: int

    /** The node counter stays below the poll interval. */
    ghost predicate Valid()
      reads this
    {
      0 <= nodesSincePoll && (nodesBetweenPolls >= 1 ==> nodesSincePoll < nodesBetweenPolls)
    }

    function Limits(): TimeLimits
      reads `useTimeManagement, `maxSearchTime, `absoluteMaxSearchTime, `extraSearchTime, `exactMaxTime, `maxNodes
    {
      TimeLimits(useTimeManagement, maxSearchTime, absoluteMaxSearchTime, extraSearchTime, exactMaxTime, maxNodes)
    }

    function Flags(): SearchFlags
      reads `abortSearch, `ponderSearch, `quit
    {
      SearchFlags(abortSearch, ponderSearch, quit)
    }

    /** Static initialisation of the globals. */
    constructor ()
      ensures Valid()
      ensures nodesBetweenPolls == 30000 && !abortSearch && !quit && blunder == 0 && slowdown == 0
    {
      maxSearchTime, absoluteMaxSearchTime, extraSearchTime := 0, 0, 0;
      exactMaxTime, maxDepth, maxNodes := 0, 0, 0;
      useTimeManagement, infiniteSearch, ponderSearch, stopOnPonderhit := false, false, false, false;
      firstRootMove, abortSearch, quit, aspirationFailLow := false, false, false, false;
      iteration, nodesSincePoll, nodesBetweenPolls := 0, 0, 30000;
      strength, slowdown, blunder := 0, 0, 0;
    }

    /** The set-up part of think(): resets the search flags, records the
        limits of the 'go' command, sets the playing strength, the thinking
        time and the poll interval. myTime and myIncrement are the clock
        of the side to move. */
    method Think(infinite: bool, ponder: bool, myTime: int, myIncrement: int, movesToGo: int,
                 maxDepthLimit: int, maxNodesLimit: int, maxTime: int,
                 limitStrength: bool, elo: int, ponderOption: bool)
      modifies this
      ensures Valid()
      ensures !stopOnPonderhit && !abortSearch && !quit && !aspirationFailLow
      ensures extraSearchTime == 0 && nodesSincePoll == 0
      ensures exactMaxTime == maxTime && maxDepth == maxDepthLimit && maxNodes == maxNodesLimit
      ensures infiniteSearch == infinite && ponderSearch == ponder
      ensures useTimeManagement <==> maxTime == 0 && maxDepthLimit == 0 && maxNodesLimit == 0 && !infinite
      ensures Budget(maxSearchTime, absoluteMaxSearchTime)
              == if useTimeManagement then TimeBudget(myTime, myIncrement, movesToGo, ponderOption) else Budget(0, 0)
      ensures Handicap(strength, slowdown, blunder) == HandicapSettings(limitStrength, elo)
      ensures nodesBetweenPolls == PollInterval(maxNodesLimit, myTime)
      ensures iteration == old(iteration) && firstRootMove == old(firstRootMove)
    {
      ResetFlags();
      SetLimits(infinite, ponder, maxDepthLimit, maxNodesLimit, maxTime);
      SetStrength(limitStrength, elo);
      SetThinkingTime(myTime, myIncrement, movesToGo, ponderOption);
      SetPollInterval(myTime);
    }

    /** The first step of think(): clears the stop flags, the time limits
        and the node counter of the previous search. */
    method ResetFlags()
      modifies `stopOnPonderhit, `abortSearch, `quit, `aspirationFailLow
      modifies `maxSearchTime, `absoluteMaxSearchTime, `extraSearchTime, `nodesSincePoll
      ensures !stopOnPonderhit && !abortSearch && !quit && !aspirationFailLow
      ensures maxSearchTime == 0 && absoluteMaxSearchTime == 0 && extraSearchTime == 0 && nodesSincePoll == 0
    {
      stopOnPonderhit, abortSearch, quit, aspirationFailLow := false, false, false, false;
      maxSearchTime, absoluteMaxSearchTime, extraSearchTime := 0, 0, 0;
      nodesSincePoll := 0;
    }

    /** Records the limits of the 'go' command; time management is used only
        when none of them is given. */
    method SetLimits(infinite: bool, ponder: bool, maxDepthLimit: int, maxNodesLimit: int, maxTime: int)
      modifies `exactMaxTime, `maxDepth, `maxNodes, `infiniteSearch, `ponderSearch, `useTimeManagement
      ensures exactMaxTime == maxTime && maxDepth == maxDepthLimit && maxNodes == maxNodesLimit
      ensures infiniteSearch == infinite && ponderSearch == ponder
      ensures useTimeManagement <==> maxTime == 0 && maxDepthLimit == 0 && maxNodesLimit == 0 && !infinite
    {
      exactMaxTime := maxTime;
      maxDepth := maxDepthLimit;
      maxNodes := maxNodesLimit;
      infiniteSearch := infinite;
      ponderSearch := ponder;
      useTimeManagement := exactMaxTime == 0 && maxDepth == 0 && maxNodes == 0 && !infiniteSearch;
    }

    /** The "Set thinking time" step of think(): only under time management. */
    method SetThinkingTime(myTime: int, myIncrement: int, movesToGo: int, ponderOption: bool)
      requires maxSearchTime == 0 && absoluteMaxSearchTime == 0
      modifies `maxSearchTime, `absoluteMaxSearchTime
      ensures Budget(maxSearchTime, absoluteMaxSearchTime)
              == if useTimeManagement then TimeBudget(myTime, myIncrement, movesToGo, ponderOption) else Budget(0, 0)
    {
      if useTimeManagement {
        var b := TimeBudget(myTime, myIncrement, movesToGo, ponderOption);
        maxSearchTime, absoluteMaxSearchTime := b.maxSearchTime, b.absoluteMaxSearchTime;
      }
    }

    /** The "Set playing strength" step of think(), with the corrections
        described under HandicapSettings. */
    method SetStrength(limitStrength: bool, elo: int)
      modifies `strength, `slowdown, `blunder
      ensures Handicap(strength, slowdown, blunder) == HandicapSettings(limitStrength, elo)
    {
      if limitStrength {
        strength := StrengthOf(elo);
        blunder := 0;
        if strength == MaxStrength {
          slowdown := 0;
        } else if strength >= 0 {
          slowdown := SlowdownArray[Max(0, 13 - strength)];
        } else {
          slowdown := SlowdownArray[13];
          blunder := BlunderFor(strength);
        }
      } else {
        strength, slowdown, blunder := MaxStrength, 0, 0;
      }
    }

    /** The NodesBetweenPolls step of think(), for the node limit already
        recorded and the time left on the clock. */
    method SetPollInterval(myTime: int)
      modifies `nodesBetweenPolls
      ensures nodesBetweenPolls == PollInterval(maxNodes, myTime)
    {
      if maxNodes != 0 {
        nodesBetweenPolls := Min(maxNodes, 30000);
      } else if myTime != 0 && myTime < 1000 {
        nodesBetweenPolls := 1000;
      } else if myTime != 0 && myTime < 5000 {
        nodesBetweenPolls := 5000;
      } else {
        nodesBetweenPolls := 30000;
      }
      nodesBetweenPolls := CDiv(nodesBetweenPolls, 30);
    }

    /** ponderhit(): the opponent played the expected move; the search goes
        on as a normal one unless its time is already used up or an earlier
        iteration asked to stop at the ponderhit. t is the elapsed time. */
    method PonderhitNow(t: int)
      modifies `ponderSearch, `abortSearch
      ensures !ponderSearch
      ensures abortSearch == (old(abortSearch)
                || PonderhitStops(Limits(), iteration, firstRootMove, aspirationFailLow, stopOnPonderhit, t))
    {
      ponderSearch := false;
      var noMoreTime := t > absoluteMaxSearchTime
                        || (firstRootMove && !aspirationFailLow && t > maxSearchTime + extraSearchTime);
      if iteration >= 3 && useTimeManagement && (noMoreTime || stopOnPonderhit) {
        abortSearch := true;
      }
    }

    /** poll(): acts on a waiting command, then aborts the search when it is
        not pondering and its limits are reached. t is the elapsed time and
        nodes the node count; printing search information is left out. */
    method Poll(t: int, cmd: Command, nodes: int)
      modifies `abortSearch, `ponderSearch, `quit
      ensures Flags() == AfterPoll(old(Flags()), Limits(), iteration, firstRootMove, aspirationFailLow,
                                   stopOnPonderhit, t, cmd, nodes)
    {
      if cmd == Quit {
        abortSearch, ponderSearch, quit := true, false, true;
        return;
      } else if cmd == Stop {
        abortSearch, ponderSearch := true, false;
      } else if cmd == Ponderhit {
        PonderhitNow(t);
      }

      if ponderSearch {
        return;
      }

      var stillAtFirstMove := firstRootMove && !aspirationFailLow && t > maxSearchTime + extraSearchTime;
      var noMoreTime := t > absoluteMaxSearchTime || stillAtFirstMove;
      if || (iteration >= 3 && useTimeManagement && noMoreTime)
         || (exactMaxTime != 0 && t >= exactMaxTime)
         || (iteration >= 3 && maxNodes != 0 && nodes >= maxNodes)
      {
        abortSearch := true;
      }
    }

    /** The polling part of init_node() for the main thread: counts the node
        and polls once every NodesBetweenPolls nodes. */
    method CountNode(t: int, cmd: Command, nodes: int) returns (polled: bool)
      requires Valid()
      modifies `nodesSincePoll, `abortSearch, `ponderSearch, `quit
      ensures Valid()
      ensures polled <==> old(nodesSincePoll) + 1 >= nodesBetweenPolls
      ensures nodesSincePoll == if polled then 0 else old(nodesSincePoll) + 1
      ensures Flags() == if polled then AfterPoll(old(Flags()), Limits(), iteration, firstRootMove, aspirationFailLow,
                                                  stopOnPonderhit, t, cmd, nodes)
                         else old(Flags())
    {
      nodesSincePoll := nodesSincePoll + 1;
      polled := nodesSincePoll >= nodesBetweenPolls;
      if polled {
        Poll(t, cmd, nodes);
        nodesSincePoll := 0;
      }
    }
  }
}
