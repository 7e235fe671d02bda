// Principal variations are arrays of moves closed by a MoveNone sentinel.
// This module names the line such an array holds from a given ply and the
// effect of writing a new line into it.

module PvLine {
  import opened Types

  /** Some MoveNone occurs in s at index `from` or later. */
  predicate Terminated(s: seq<Move>, from: nat) {
    exists k :: from <= k < |s| && s[k] == MoveNone
  }

  /** The index of the first MoveNone at or after `from`. */
  function FirstNone(s: seq<Move>, from: nat): (e: nat)
    requires Terminated(s, from)
    ensures from <= e < |s| && s[e] == MoveNone
    ensures forall k :: from <= k < e ==> s[k] != MoveNone
    decreases |s| - from
  {
    if s[from] == MoveNone then from
    else
      assert exists k :: from + 1 <= k < |s| && s[k] == MoveNone;
      FirstNone(s, from + 1)
  }

  /** The moves of the variation stored from index `from`, sentinel excluded. */
  function Line(s: seq<Move>, from: nat): (l: seq<Move>)
    requires Terminated(s, from)
    ensures MoveNone !in l
    ensures from + |l| < |s| && s[from + |l|] == MoveNone
  {
    s[from..FirstNone(s, from)]
  }

  /** s with `line` written from index `at` and closed by MoveNone; the
      entries before `at` and after the sentinel keep their values. */
  function Splice(s: seq<Move>, at: nat, line: seq<Move>): (r: seq<Move>)
    requires at + |line| < |s|
    ensures |r| == |s|
  {
    s[..at] + line + [MoveNone] + s[at + |line| + 1..]
  }

  /** A sentinel with no MoveNone before it is the first one. */
  lemma {:induction false} FirstNoneAt(s: seq<Move>, from: nat, e: nat)
    requires from <= e < |s| && s[e] == MoveNone
    requires forall k :: from <= k < e ==> s[k] != MoveNone
    ensures Terminated(s, from) && FirstNone(s, from) == e
    decreases e - from
  {
    if from < e {
      FirstNoneAt(s, from + 1, e);
    }
  }

  /** Reading back a spliced line yields exactly that line, provided the
      line itself holds no sentinel. */
  lemma SpliceLine(s: seq<Move>, at: nat, line: seq<Move>)
    requires at + |line| < |s|
    requires MoveNone !in line
    ensures Terminated(Splice(s, at, line), at)
    ensures Line(Splice(s, at, line), at) == line
  {
    var r := Splice(s, at, line);
    forall k | at <= k < at + |line| ensures r[k] != MoveNone {
      assert r[k] == line[k - at];
    }
    FirstNoneAt(r, at, at + |line|);
  }

  /** Pointwise description of a splice. */
  lemma SpliceAgrees(r: seq<Move>, s: seq<Move>, at: nat, line: seq<Move>)
    requires |r| == |s| && at + |line| < |s|
    requires forall k :: 0 <= k < at ==> r[k] == s[k]
    requires forall k :: at <= k < at + |line| ==> r[k] == line[k - at]
    requires r[at + |line|] == MoveNone
    requires forall k :: at + |line| < k < |s| ==> r[k] == s[k]
    ensures r == Splice(s, at, line)
  {
  }
}
