// The per-ply search stack: one SearchStack record per ply, owned by one
// thread, holding the move being searched, the killer moves and the
// principal variation found below that ply.

module SearchStacks {
  import opened Types
  import opened PvLine

  class SearchStack {
    /** The principal variation array (PLY_MAX_PLUS_2 entries). */
    const pv: array<Move>
    /** The killer moves of this ply, most recent first (KILLER_MAX entries). */
    const killers: array<Move>
    var currentMove: Move
    var threatMove: Move
    var mateKiller: Move
    var reduction: int
    var eval: int

    ghost predicate Valid() {
      pv != killers && killers.Length > 0
    }

    constructor (pvLength: nat, killerMax: nat)
      requires killerMax > 0
      ensures Valid() && fresh(pv) && fresh(killers)
      ensures pv.Length == pvLength && killers.Length == killerMax
    {
      pv := new Move[pvLength](_ => MoveNone);
      killers := new Move[killerMax](_ => MoveNone);
      currentMove, threatMove, mateKiller := MoveNone, MoveNone, MoveNone;
      reduction, eval := 0, 0;
    }

    /** SearchStack::init: clears the variation at this ply and the next,
        the current and threat moves and the reduction, and marks the static
        evaluation as not computed (`valueNone` is VALUE_NONE). Killers are kept. */
    method Init(ply: nat, valueNone: int)
      requires Valid() && ply + 1 < pv.Length
      modifies this, pv
      ensures Valid()
      ensures pv[..] == old(pv[..])[ply := MoveNone][ply + 1 := MoveNone]
      ensures currentMove == MoveNone && threatMove == MoveNone
      ensures reduction == 0 && eval == valueNone
      ensures mateKiller == old(mateKiller) && killers[..] == old(killers[..])
    {
      pv[ply] := MoveNone;
      pv[ply + 1] := MoveNone;
      currentMove := MoveNone;
      threatMove := MoveNone;
      reduction := 0;
      eval := valueNone;
    }

    /** SearchStack::initKillers: forgets the mate killer and every killer. */
    method InitKillers()
      requires Valid()
      modifies this`mateKiller, killers
      ensures Valid()
      ensures mateKiller == MoveNone
      ensures forall i :: 0 <= i < killers.Length ==> killers[i] == MoveNone
    {
      mateKiller := MoveNone;
      for i := 0 to killers.Length
        invariant mateKiller == MoveNone
        invariant forall k :: 0 <= k < i ==> killers[k] == MoveNone
      {
        killers[i] := MoveNone;
      }
    }

    /** update_killers: a quiet move that caused a beta cut-off becomes the
        first killer; the others move down one slot and the last drops out,
        unless the move already was the first killer. */
    method UpdateKillers(m: Move)
      requires Valid()
      modifies killers
      ensures killers[..] == PushKiller(old(killers[..]), m)
    {
      if m == killers[0] {
        return;
      }
      ghost var ks := killers[..];
      var i := killers.Length - 1;
      while i > 0
        invariant 0 <= i < killers.Length
        invariant killers[..i + 1] == ks[..i + 1]
        invariant forall k :: i < k < killers.Length ==> killers[k] == ks[k - 1]
      {
        killers[i] := killers[i - 1];
        i := i - 1;
      }
      killers[0] := m;
      assert killers[..] == [m] + ks[..|ks| - 1];
    }

    /** move_is_killer: scans the killer slots for m. */
    method IsKiller(m: Move) returns (found: bool)
      ensures found <==> m in killers[..]
    {
      var i := 0;
      while i < killers.Length
        invariant 0 <= i <= killers.Length
        invariant m !in killers[..i]
      {
        if killers[i] == m {
          return true;
        }
        i := i + 1;
      }
      return false;
    }
  }

  /** The killer list after m caused a cut-off, most recent first. */
  function PushKiller(ks: seq<Move>, m: Move): (r: seq<Move>)
    requires |ks| > 0
    ensures |r| == |ks| && r[0] == m
  {
    if m == ks[0] then ks else [m] + ks[..|ks| - 1]
  }

  /** After a push, m is a killer; every killer is m or was a killer before;
      every old killer but the last survives. */
  lemma PushKillerContents(ks: seq<Move>, m: Move)
    requires |ks| > 0
    ensures m in PushKiller(ks, m)
    ensures forall x :: x in PushKiller(ks, m) ==> x == m || x in ks
    ensures forall i :: 0 <= i < |ks| - 1 ==> ks[i] in PushKiller(ks, m)
    ensures m == ks[0] ==> PushKiller(ks, m) == ks
    ensures m != ks[0] ==> PushKiller(ks, m)[1..] == ks[..|ks| - 1]
  {
    var r := PushKiller(ks, m);
    if m != ks[0] {
      forall i | 0 <= i < |ks| - 1 ensures ks[i] in r {
        assert r[i + 1] == ks[i];
      }
    }
  }

  /** With two killer slots (the engine's KILLER_MAX), pushing keeps the
      two killers distinct whenever they were distinct before. */
  lemma PushKillerKeepsPairDistinct(ks: seq<Move>, m: Move)
    requires |ks| == 2 && ks[0] != ks[1]
    ensures PushKiller(ks, m)[0] != PushKiller(ks, m)[1]
  {
  }

  /** The entries 0..n of a stack are distinct records with distinct arrays. */
  ghost predicate Separate(ss: seq<SearchStack>, n: nat)
    requires n <= |ss|
  {
    (forall i :: 0 <= i < n ==> ss[i].Valid()) &&
    (forall i, j :: 0 <= i < n && 0 <= j < n && i != j ==>
       ss[i] != ss[j] && ss[i].pv != ss[j].pv && ss[i].killers != ss[j].killers &&
       ss[i].pv != ss[j].killers)
  }

  /** A variation array part way through update_pv: the current move at
      `ply`, the child's entries on ply+1..p-1, the old entries elsewhere. */
  ghost function Copying(before: seq<Move>, child: seq<Move>, ply: nat, cm: Move, p: nat): seq<Move>
    requires |before| == |child| && ply < p <= |before|
  {
    before[..ply] + [cm] + child[ply + 1..p] + before[p..]
  }

  /** update_pv: the variation at `ply` becomes the current move followed by
      the child's variation from ply+1, closed by MoveNone. */
  method UpdatePv(ss: seq<SearchStack>, ply: nat)
    requires ply + 1 < |ss|
    requires ss[ply].pv != ss[ply + 1].pv
    requires ss[ply].pv.Length == ss[ply + 1].pv.Length
    requires Terminated(ss[ply + 1].pv[..], ply + 1)
    modifies ss[ply].pv
    ensures ss[ply].pv[..] ==
      Splice(old(ss[ply].pv[..]), ply, [ss[ply].currentMove] + Line(ss[ply + 1].pv[..], ply + 1))
  {
    var node, child, cm := ss[ply].pv, ss[ply + 1].pv, ss[ply].currentMove;
    ghost var before, c := node[..], child[..];
    ghost var e := FirstNone(c, ply + 1);
    node[ply] := cm;
    CopyingStart(before, c, ply, cm);
    var p := ply + 1;
    while child[p] != MoveNone
      invariant ply + 1 <= p <= e
      invariant node[..] == Copying(before, c, ply, cm, p)
      decreases e - p
    {
      CopyingStep(before, c, ply, cm, p);
      node[p] := child[p];
      p := p + 1;
    }
    node[p] := MoveNone;
    CopiedLine(before, c, ply, cm, p);
  }

  /** sp_update_pv: as update_pv, and the same variation is also written
      into the parent stack `pss` that the split point's master reads. */
  method SpUpdatePv(pss: seq<SearchStack>, ss: seq<SearchStack>, ply: nat)
    requires ply + 1 < |ss| && ply < |pss|
    requires ss[ply].pv != ss[ply + 1].pv && pss[ply].pv != ss[ply + 1].pv
    requires pss[ply].pv != ss[ply].pv
    requires ss[ply].pv.Length == ss[ply + 1].pv.Length == pss[ply].pv.Length
    requires Terminated(ss[ply + 1].pv[..], ply + 1)
    modifies ss[ply].pv, pss[ply].pv
    ensures ss[ply].pv[..] ==
      Splice(old(ss[ply].pv[..]), ply, [ss[ply].currentMove] + Line(ss[ply + 1].pv[..], ply + 1))
    ensures pss[ply].pv[..] ==
      Splice(old(pss[ply].pv[..]), ply, [ss[ply].currentMove] + Line(ss[ply + 1].pv[..], ply + 1))
  {
    var node, parent, child, cm := ss[ply].pv, pss[ply].pv, ss[ply + 1].pv, ss[ply].currentMove;
    ghost var before, pbefore, c := node[..], parent[..], child[..];
    ghost var e := FirstNone(c, ply + 1);
    node[ply] := cm;
    parent[ply] := cm;
    CopyingStart(before, c, ply, cm);
    CopyingStart(pbefore, c, ply, cm);
    var p := ply + 1;
    while child[p] != MoveNone
      invariant ply + 1 <= p <= e
      invariant node[..] == Copying(before, c, ply, cm, p)
      invariant parent[..] == Copying(pbefore, c, ply, cm, p)
      decreases e - p
    {
      CopyingStep(before, c, ply, cm, p);
      CopyingStep(pbefore, c, ply, cm, p);
      node[p] := child[p];
      parent[p] := child[p];
      p := p + 1;
    }
    node[p] := MoveNone;
    parent[p] := MoveNone;
    CopiedLine(before, c, ply, cm, p);
    CopiedLine(pbefore, c, ply, cm, p);
  }

  /** Writing the current move at `ply` starts the copy. */
  lemma CopyingStart(before: seq<Move>, child: seq<Move>, ply: nat, cm: Move)
    requires |before| == |child| && ply < |before|
    ensures before[ply := cm] == Copying(before, child, ply, cm, ply + 1)
  {
    assert child[ply + 1..ply + 1] == [];
  }

  /** Copying the child's entry at p extends the copied part by one. */
  lemma CopyingStep(before: seq<Move>, child: seq<Move>, ply: nat, cm: Move, p: nat)
    requires |before| == |child| && ply < p < |before|
    ensures Copying(before, child, ply, cm, p)[p := child[p]] == Copying(before, child, ply, cm, p + 1)
  {
    var r, r' := Copying(before, child, ply, cm, p)[p := child[p]], Copying(before, child, ply, cm, p + 1);
    forall k | 0 <= k < |r| ensures r[k] == r'[k] {
      if k < ply {
      } else if k == ply {
      } else if k <= p {
        assert r'[k] == child[ply + 1..p + 1][k - ply - 1];
      } else {
      }
    }
  }

  /** A copy that reached the child's first sentinel at `e` and was closed
      there holds the splice of the current move and the child's line. */
  lemma CopiedLine(before: seq<Move>, child: seq<Move>, ply: nat, cm: Move, e: nat)
    requires |before| == |child|
    requires Terminated(child, ply + 1) && e == FirstNone(child, ply + 1)
    ensures Copying(before, child, ply, cm, e)[e := MoveNone] ==
      Splice(before, ply, [cm] + Line(child, ply + 1))
  {
    assert Line(child, ply + 1) == child[ply + 1..e];
    assert before[e + 1..] == before[e..][1..];
  }

  /** What update_pv promises the caller: the line read back from `ply` is
      the move just searched followed by the child's line. */
  lemma UpdatedLine(before: seq<Move>, child: seq<Move>, ply: nat, move: Move)
    requires |before| == |child| && move != MoveNone
    requires Terminated(child, ply + 1)
    ensures Terminated(Splice(before, ply, [move] + Line(child, ply + 1)), ply)
    ensures Line(Splice(before, ply, [move] + Line(child, ply + 1)), ply) == [move] + Line(child, ply + 1)
  {
    SpliceLine(before, ply, [move] + Line(child, ply + 1));
  }

  /** init_ss_array: resets the first three plies of a stack, killers included. */
  method InitSsArray(ss: seq<SearchStack>, valueNone: int)
    requires |ss| >= 3 && Separate(ss, 3)
    requires forall i :: 0 <= i < 3 ==> ss[i].pv.Length >= 4
    modifies set i | 0 <= i < 3 :: ss[i]
    modifies set i | 0 <= i < 3 :: ss[i].pv
    modifies set i | 0 <= i < 3 :: ss[i].killers
    ensures Separate(ss, 3)
    ensures forall i :: 0 <= i < 3 ==>
      ss[i].pv[..] == old(ss[i].pv[..])[i := MoveNone][i + 1 := MoveNone]
    ensures forall i :: 0 <= i < 3 ==>
      ss[i].currentMove == MoveNone && ss[i].threatMove == MoveNone && ss[i].mateKiller == MoveNone &&
      ss[i].reduction == 0 && ss[i].eval == valueNone
    ensures forall i, k :: 0 <= i < 3 && 0 <= k < ss[i].killers.Length ==> ss[i].killers[k] == MoveNone
  {
    for i := 0 to 3
      invariant Separate(ss, 3)
      invariant forall j :: 0 <= j < i ==>
        ss[j].pv[..] == old(ss[j].pv[..])[j := MoveNone][j + 1 := MoveNone]
      invariant forall j :: i <= j < 3 ==> ss[j].pv[..] == old(ss[j].pv[..])
      invariant forall j :: 0 <= j < i ==>
        ss[j].currentMove == MoveNone && ss[j].threatMove == MoveNone && ss[j].mateKiller == MoveNone &&
        ss[j].reduction == 0 && ss[j].eval == valueNone
      invariant forall j, k :: 0 <= j < i && 0 <= k < ss[j].killers.Length ==> ss[j].killers[k] == MoveNone
    {
      ss[i].Init(i, valueNone);
      ss[i].InitKillers();
    }
  }
}
