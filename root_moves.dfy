// The root move list: every legal move at the root with its score, node
// counts, beta cut-off counters and principal variation, kept in rank order
// by an in-place insertion sort.

module RootMoves {
  import opened Types
  import opened PvLine

  /** RootMoveList::MaxRootMoves, the capacity of the fixed array. */
  const MaxRootMoves: nat := 500

  /** One root move. The engine copies these records by value while sorting. */
  datatype RootMove = RootMove(
    move: Move,
    score: int,
    nodes: int,
    cumulativeNodes: int,
    ourBeta: int,
    theirBeta: int,
    pv: seq<Move>)

  /** RootMove::operator<: a ranks below b when its score is lower, or when
      the scores are equal and a has no more beta cut-offs by the opponent. */
  predicate Below(a: RootMove, b: RootMove) {
    if a.score != b.score then a.score < b.score else a.theirBeta <= b.theirBeta
  }

  /** Below is the lexicographic order on (score, theirBeta): a total preorder. */
  lemma BelowIsLexicographic(a: RootMove, b: RootMove, c: RootMove)
    ensures Below(a, b) <==> a.score < b.score || (a.score == b.score && a.theirBeta <= b.theirBeta)
    ensures Below(a, b) || Below(b, a)
    ensures Below(a, b) && Below(b, c) ==> Below(a, c)
  {
  }

  /** Non-increasing rank order: no entry ranks above an earlier one. */
  ghost predicate Ranked(s: seq<RootMove>) {
    forall p, q :: 0 <= p < q < |s| ==> Below(s[q], s[p])
  }

  /** The first entry of a ranked list ranks at least as high as every other. */
  lemma RankedHeadIsBest(s: seq<RootMove>)
    requires Ranked(s) && |s| > 0
    ensures forall k :: 0 <= k < |s| ==> Below(s[k], s[0])
  {
    forall k | 0 <= k < |s| ensures Below(s[k], s[0]) {
      if k > 0 { assert Below(s[k], s[0]); } else { BelowIsLexicographic(s[0], s[0], s[0]); }
    }
  }

  /** Inserting rm behind the entries that rank above it and in front of
      those that rank below it keeps a ranked prefix ranked. */
  lemma InsertKeepsRanked(a: seq<RootMove>, b: seq<RootMove>, rm: RootMove)
    requires Ranked(a + b)
    requires |a| > 0 ==> !Below(a[|a| - 1], rm)
    requires forall k :: 0 <= k < |b| ==> Below(b[k], rm)
    ensures Ranked(a + [rm] + b)
  {
    var t := a + [rm] + b;
    forall p, q | 0 <= p < q < |t| ensures Below(t[q], t[p]) {
      if q < |a| {
        assert t[p] == (a + b)[p] && t[q] == (a + b)[q];
      } else if q == |a| {
        BelowIsLexicographic(rm, a[|a| - 1], t[p]);
        if p < |a| - 1 {
          assert t[p] == (a + b)[p] && a[|a| - 1] == (a + b)[|a| - 1];
        }
      } else if p == |a| {
        assert t[q] == b[q - |a| - 1];
      } else if p < |a| {
        assert t[p] == (a + b)[p] && t[q] == (a + b)[q - 1];
      } else {
        assert t[p] == (a + b)[p - 1] && t[q] == (a + b)[q - 1];
      }
    }
  }

  /** The root moves the constructor keeps: every legal move when the
      MoveNone-terminated searchMoves list is empty, else those it names.
      Each gets its quick score and the one-move variation [move]. */
  function Candidates(legal: seq<Move>, quickScore: seq<int>, searchMoves: seq<Move>, pvLength: nat): (c: seq<RootMove>)
    requires |legal| == |quickScore| && Terminated(searchMoves, 0) && pvLength >= 2
    ensures |c| <= |legal|
  {
    if legal == [] then []
    else
      var rest := Candidates(legal[1..], quickScore[1..], searchMoves, pvLength);
      if searchMoves[0] == MoveNone || legal[0] in Line(searchMoves, 0) then
        [FreshRootMove(legal[0], quickScore[0], pvLength)] + rest
      else rest
  }

  function FreshRootMove(m: Move, score: int, pvLength: nat): (r: RootMove)
    requires pvLength >= 2
    ensures |r.pv| == pvLength
  {
    RootMove(m, score, 0, 0, 0, 0, [m, MoveNone] + seq(pvLength - 2, _ => MoveNone))
  }

  /** A move is a candidate exactly when it is legal and searchMoves is
      empty or names it; a candidate starts with no nodes and no cut-offs. */
  lemma {:induction false} CandidatesAreSelected(legal: seq<Move>, quickScore: seq<int>, searchMoves: seq<Move>, pvLength: nat, m: Move)
    requires |legal| == |quickScore| && Terminated(searchMoves, 0) && pvLength >= 2
    requires MoveNone !in legal
    ensures (exists r :: r in Candidates(legal, quickScore, searchMoves, pvLength) && r.move == m)
        <==> m in legal && (searchMoves[0] == MoveNone || m in Line(searchMoves, 0))
    ensures forall r :: r in Candidates(legal, quickScore, searchMoves, pvLength) ==>
        r.nodes == 0 && r.cumulativeNodes == 0 && Terminated(r.pv, 0) && Line(r.pv, 0) == [r.move]
  {
    if legal != [] {
      CandidatesAreSelected(legal[1..], quickScore[1..], searchMoves, pvLength, m);
      var c := Candidates(legal, quickScore, searchMoves, pvLength);
      var rest := Candidates(legal[1..], quickScore[1..], searchMoves, pvLength);
      assert legal == [legal[0]] + legal[1..];
      var f := FreshRootMove(legal[0], quickScore[0], pvLength);
      FirstNoneAt(f.pv, 0, 1);
      if m == legal[0] && (searchMoves[0] == MoveNone || m in Line(searchMoves, 0)) {
        assert f in c && f.move == m;
      }
    }
  }

  /** The scan of the constructor: does the MoveNone-terminated list
      searchMoves select move m (an empty list selects every move)? */
  method IsSearchMove(searchMoves: seq<Move>, m: Move) returns (includeMove: bool)
    requires Terminated(searchMoves, 0)
    ensures includeMove <==> searchMoves[0] == MoveNone || m in Line(searchMoves, 0)
  {
    includeMove := searchMoves[0] == MoveNone;
    var k := 0;
    while !includeMove && searchMoves[k] != MoveNone
      invariant 0 <= k <= FirstNone(searchMoves, 0)
      invariant includeMove <==> searchMoves[0] == MoveNone || m in searchMoves[..k]
      decreases FirstNone(searchMoves, 0) - k, !includeMove
    {
      includeMove := searchMoves[k] == m;
      k := k + 1;
    }
  }

  /** One step of the constructor's loop: the candidates from index i on. */
  lemma CandidatesStep(legal: seq<Move>, quickScore: seq<int>, searchMoves: seq<Move>, pvLength: nat, i: nat)
    requires |legal| == |quickScore| && Terminated(searchMoves, 0) && pvLength >= 2 && i < |legal|
    ensures Candidates(legal[i..], quickScore[i..], searchMoves, pvLength)
            == (if searchMoves[0] == MoveNone || legal[i] in Line(searchMoves, 0)
                then [FreshRootMove(legal[i], quickScore[i], pvLength)] else [])
               + Candidates(legal[i + 1..], quickScore[i + 1..], searchMoves, pvLength)
  {
    assert legal[i..][0] == legal[i] && legal[i..][1..] == legal[i + 1..];
    assert quickScore[i..][0] == quickScore[i] && quickScore[i..][1..] == quickScore[i + 1..];
  }

  class RootMoveList {
    const moves: array<RootMove>
    var count: int

    ghost predicate Valid()
      reads this, moves
    {
      moves.Length == MaxRootMoves && 0 <= count <= MaxRootMoves
    }

    /** The list in its current order. */
    ghost function Contents(): seq<RootMove>
      reads this, moves
      requires Valid()
    {
      moves[..count]
    }

    /** RootMoveList::RootMoveList: keeps the legal moves searchMoves selects,
        in generation order, then sorts them. `quickScore` holds the score the
        quiescence search gave each legal move. */
    constructor (legal: seq<Move>, quickScore: seq<int>, searchMoves: seq<Move>, plyMaxPlus2: nat)
      requires |legal| == |quickScore| <= MaxRootMoves
      requires Terminated(searchMoves, 0) && plyMaxPlus2 >= 2
      ensures Valid() && fresh(moves)
      ensures multiset(Contents()) == multiset(Candidates(legal, quickScore, searchMoves, plyMaxPlus2))
      ensures Ranked(Contents())
    {
      moves := new RootMove[MaxRootMoves](_ => RootMove(MoveNone, 0, 0, 0, 0, 0, seq(plyMaxPlus2, _ => MoveNone)));
      count := 0;
      new;
      AddCandidates(legal, quickScore, searchMoves, plyMaxPlus2);
      Sort();
    }

    /** The constructor's loop over the legal moves: appends a fresh entry
        for each move searchMoves selects. */
    method AddCandidates(legal: seq<Move>, quickScore: seq<int>, searchMoves: seq<Move>, pvLength: nat)
      requires Valid() && count == 0
      requires |legal| == |quickScore| <= MaxRootMoves
      requires Terminated(searchMoves, 0) && pvLength >= 2
      modifies this`count, moves
      ensures Valid() && Contents() == Candidates(legal, quickScore, searchMoves, pvLength)
    {
      ghost var all := Candidates(legal, quickScore, searchMoves, pvLength);
      var i := 0;
      assert legal[0..] == legal && quickScore[0..] == quickScore;
      while i < |legal|
        invariant 0 <= i <= |legal|
        invariant 0 <= count <= i && count <= |all|
        invariant Candidates(legal[i..], quickScore[i..], searchMoves, pvLength) == all[count..]
        invariant forall k :: 0 <= k < count ==> moves[k] == all[k]
      {
        var includeMove := IsSearchMove(searchMoves, legal[i]);
        CandidatesStep(legal, quickScore, searchMoves, pvLength, i);
        if includeMove {
          var r := FreshRootMove(legal[i], quickScore[i], pvLength);
          assert all[count..][0] == r && all[count..][1..] == all[count + 1..];
          assert all[count] == r;
          moves[count] := r;
          count := count + 1;
        }
        i := i + 1;
      }
      assert moves[..count] == all;
    }

    /** RootMoveList::set_move_nodes: records the nodes the move needed in
        this iteration and adds them to its running total. */
    method SetMoveNodes(moveNum: int, nodes: int)
      requires Valid() && 0 <= moveNum < count
      modifies moves
      ensures Valid()
      ensures moves[moveNum] == old(moves[moveNum]).(nodes := nodes,
                cumulativeNodes := old(moves[moveNum].cumulativeNodes) + nodes)
      ensures forall k :: 0 <= k < moves.Length && k != moveNum ==> moves[k] == old(moves[k])
    {
      moves[moveNum] := moves[moveNum].(nodes := nodes,
                          cumulativeNodes := moves[moveNum].cumulativeNodes + nodes);
    }

    /** RootMoveList::set_beta_counters */
    method SetBetaCounters(moveNum: int, our: int, their: int)
      requires Valid() && 0 <= moveNum < count
      modifies moves
      ensures Valid()
      ensures moves[moveNum] == old(moves[moveNum]).(ourBeta := our, theirBeta := their)
      ensures forall k :: 0 <= k < moves.Length && k != moveNum ==> moves[k] == old(moves[k])
    {
      moves[moveNum] := moves[moveNum].(ourBeta := our, theirBeta := their);
    }

    /** RootMoveList::set_move_score */
    method SetMoveScore(moveNum: int, score: int)
      requires Valid() && 0 <= moveNum < count
      modifies moves
      ensures Valid()
      ensures moves[moveNum] == old(moves[moveNum]).(score := score)
      ensures forall k :: 0 <= k < moves.Length && k != moveNum ==> moves[k] == old(moves[k])
    {
      moves[moveNum] := moves[moveNum].(score := score);
    }

    /** RootMoveList::set_move_pv: copies a MoveNone-terminated variation
        into the move's own, sentinel included. */
    method SetMovePv(moveNum: int, pv: seq<Move>)
      requires Valid() && 0 <= moveNum < count
      requires Terminated(pv, 0) && FirstNone(pv, 0) < |moves[moveNum].pv|
      modifies moves
      ensures Valid()
      ensures moves[moveNum] == old(moves[moveNum]).(pv := Splice(old(moves[moveNum].pv), 0, Line(pv, 0)))
      ensures forall k :: 0 <= k < moves.Length && k != moveNum ==> moves[k] == old(moves[k])
    {
      ghost var before := moves[moveNum].pv;
      ghost var e := FirstNone(pv, 0);
      var j := 0;
      while pv[j] != MoveNone
        invariant 0 <= j <= e
        invariant |moves[moveNum].pv| == |before|
        invariant forall k :: 0 <= k < j ==> moves[moveNum].pv[k] == pv[k]
        invariant forall k :: j <= k < |before| ==> moves[moveNum].pv[k] == before[k]
        invariant moves[moveNum] == old(moves[moveNum]).(pv := moves[moveNum].pv)
        invariant forall k :: 0 <= k < moves.Length && k != moveNum ==> moves[k] == old(moves[k])
        decreases e - j
      {
        moves[moveNum] := moves[moveNum].(pv := moves[moveNum].pv[j := pv[j]]);
        j := j + 1;
      }
      moves[moveNum] := moves[moveNum].(pv := moves[moveNum].pv[j := MoveNone]);
      SpliceAgrees(moves[moveNum].pv, before, 0, Line(pv, 0));
    }

    /** RootMoveList::sort: ranks the whole list. */
    method Sort()
      requires Valid()
      modifies moves
      ensures Valid() && count == old(count)
      ensures Ranked(Contents())
      ensures multiset(Contents()) == multiset(old(Contents()))
      ensures moves[count..] == old(moves[count..])
    {
      SortMultipv(count - 1);
    }

    /** RootMoveList::sort_multipv: insertion sort of moves[0..n] by rank,
        leaving the entries after n alone. */
    method SortMultipv(n: int)
      requires Valid() && n < MaxRootMoves
      modifies moves
      ensures Valid()
      ensures Ranked(moves[..SortedLength(n)])
      ensures multiset(moves[..SortedLength(n)]) == multiset(old(moves[..SortedLength(n)]))
      ensures moves[SortedLength(n)..] == old(moves[SortedLength(n)..])
    {
      ghost var m := SortedLength(n);
      var i := 1;
      while i <= n
        invariant 1 <= i && (m <= 1 || i <= m)
        invariant i <= m ==> Ranked(moves[..i])
        invariant multiset(moves[..m]) == multiset(old(moves[..m]))
        invariant moves[m..] == old(moves[m..])
      {
        InsertionStep(i, m);
        i := i + 1;
      }
    }

    /** One pass of sort_multipv's outer loop: moves[i] is shifted left past
        every entry that ranks below it. */
    method InsertionStep(i: int, ghost m: nat)
      requires Valid() && 1 <= i < m <= moves.Length
      requires Ranked(moves[..i])
      modifies moves
      ensures Valid()
      ensures Ranked(moves[..i + 1])
      ensures multiset(moves[..m]) == multiset(old(moves[..m]))
      ensures moves[m..] == old(moves[m..])
    {
      ghost var before := moves[..];
      var rm := moves[i];
      var j := i;
      while j > 0 && Below(moves[j - 1], rm)
        invariant 0 <= j <= i
        invariant forall k :: 0 <= k < j ==> moves[k] == before[k]
        invariant forall k :: j < k <= i ==> moves[k] == before[k - 1]
        invariant forall k :: i < k < moves.Length ==> moves[k] == before[k]
        invariant forall k :: j <= k < i ==> Below(before[k], rm)
      {
        moves[j] := moves[j - 1];
        j := j - 1;
      }
      moves[j] := rm;
      Inserted(moves[..], before, i, j, m);
    }
  }

  /** The number of leading entries sort_multipv(n) ranks. */
  function SortedLength(n: int): nat {
    if n < 0 then 0 else n + 1
  }

  /** The array after one insertion step: before[..j], then before[i], then
      before[j..i], then the untouched rest. */
  lemma Inserted(after: seq<RootMove>, before: seq<RootMove>, i: nat, j: nat, m: nat)
    requires j <= i < m <= |before| == |after|
    requires forall k :: 0 <= k < j ==> after[k] == before[k]
    requires after[j] == before[i]
    requires forall k :: j < k <= i ==> after[k] == before[k - 1]
    requires forall k :: i < k < |after| ==> after[k] == before[k]
    requires Ranked(before[..i])
    requires j > 0 ==> !Below(before[j - 1], before[i])
    requires forall k :: j <= k < i ==> Below(before[k], before[i])
    ensures Ranked(after[..i + 1])
    ensures multiset(after[..m]) == multiset(before[..m])
    ensures after[m..] == before[m..]
  {
    var a, b, rm := before[..j], before[j..i], before[i];
    InsertedShape(after, before, i, j);
    assert before[..i] == a + b;
    assert forall k :: 0 <= k < |b| ==> Below(b[k], rm) by {
      forall k | 0 <= k < |b| ensures Below(b[k], rm) { assert b[k] == before[j + k]; }
    }
    assert |a| > 0 ==> a[|a| - 1] == before[j - 1];
    InsertKeepsRanked(a, b, rm);
    InsertedPermutes(after, before, i, j, m);
  }

  /** Proof helper: the prefix left by one insertion step. */
  lemma InsertedShape(after: seq<RootMove>, before: seq<RootMove>, i: nat, j: nat)
    requires j <= i < |before| == |after|
    requires forall k :: 0 <= k < j ==> after[k] == before[k]
    requires after[j] == before[i]
    requires forall k :: j < k <= i ==> after[k] == before[k - 1]
    ensures after[..i + 1] == before[..j] + [before[i]] + before[j..i]
  {
    var t := before[..j] + [before[i]] + before[j..i];
    forall k | 0 <= k < i + 1 ensures after[k] == t[k] {
      if k < j { } else if k == j { } else { assert t[k] == before[j..i][k - j - 1]; }
    }
  }

  /** Proof helper: one insertion step only permutes the list. */
  lemma InsertedPermutes(after: seq<RootMove>, before: seq<RootMove>, i: nat, j: nat, m: nat)
    requires j <= i < m <= |before| == |after|
    requires after[..i + 1] == before[..j] + [before[i]] + before[j..i]
    requires forall k :: i < k < |after| ==> after[k] == before[k]
    ensures multiset(after[..m]) == multiset(before[..m])
    ensures after[m..] == before[m..]
  {
    var c := before[i + 1..m];
    assert after[..m] == after[..i + 1] + c;
    assert before[..m] == before[..j] + before[j..i] + [before[i]] + c;
  }
}
