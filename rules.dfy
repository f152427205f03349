/**
 * The puzzle's state space and its move rule.
 *
 * A state lists, for every disk by rank (rank 0 is the smallest disk), the
 * 0-based peg it sits on. The rank order alone encodes the stacking: a disk
 * is on top of its peg when no smaller-ranked disk shares that peg.
 */
module Rules {
  import opened Wrappers

  type State = seq<int>

  /** A move as the search records it: 1-based labels of the source peg and
      of the destination peg (the start vertex carries Move(0, 0)). */
  datatype Move = Move(from: int, to: int)

  /** The caller's precondition on start and target arrangements. */
  predicate ValidState(s: State, numDisks: nat, numPegs: nat)
  {
    |s| == numDisks && forall i :: 0 <= i < |s| ==> 0 <= s[i] < numPegs
  }

  /** Some disk smaller than rank `r` sits on peg `p`. */
  predicate SmallerDiskOn(s: State, r: int, p: int)
    requires r <= |s|
  {
    exists i :: 0 <= i < r && s[i] == p
  }

  /** Disk `r` has a smaller disk on top of it. */
  predicate Covered(s: State, r: int)
    requires 0 <= r < |s|
  {
    SmallerDiskOn(s, r, s[r])
  }

  /** Scan of the disks smaller than `diskRad`, largest first, for one on `peg`. */
  method PegHasSmallerDisk(state: State, diskRad: int, peg: int) returns (b: bool)
    requires 0 <= diskRad <= |state|
    ensures b <==> SmallerDiskOn(state, diskRad, peg)
  {
    var i := diskRad - 1;
    while i >= 0
      invariant -1 <= i < diskRad
      invariant forall k :: i < k < diskRad ==> state[k] != peg
    {
      if state[i] == peg {
        return true;
      }
      i := i - 1;
    }
    return false;
  }

  /** Scan of the disks smaller than `diskRad`, largest first, for one on the same peg. */
  method DiskNotSmallestOnPeg(state: State, diskRad: int) returns (b: bool)
    requires 0 <= diskRad < |state|
    ensures b <==> Covered(state, diskRad)
  {
    var i := diskRad - 1;
    while i >= 0
      invariant -1 <= i < diskRad
      invariant forall k :: i < k < diskRad ==> state[k] != state[diskRad]
    {
      if state[i] == state[diskRad] {
        return true;
      }
      i := i - 1;
    }
    return false;
  }

  /** Moving disk `r` to peg `q` is legal: `q` is a peg other than the disk's own,
      nothing smaller covers the disk, and nothing smaller lies on `q`. */
  predicate Legal(numPegs: int, s: State, r: int, q: int)
  {
    && 0 <= r < |s|
    && 0 <= q < numPegs
    && q != s[r]
    && !Covered(s, r)
    && !SmallerDiskOn(s, r, q)
  }

  /** The smallest disk on peg `p`, if the peg holds any. */
  function TopDisk(s: State, p: int): (r: Option<nat>)
    ensures r.Some? ==> r.value < |s| && s[r.value] == p && !SmallerDiskOn(s, r.value, p)
    ensures r.None? ==> forall i :: 0 <= i < |s| ==> s[i] != p
  {
    if |s| == 0 then None
    else if s[0] == p then Some(0)
    else match TopDisk(s[1..], p)
      case None => None
      case Some(k) => Some(k + 1)
  }

  /** The puzzle rule applied to a recorded move: take the top disk of the
      source peg and put it on the destination peg, or fail if that is illegal. */
  function ApplyMove(numPegs: int, s: State, m: Move): Option<State>
  {
    var from, to := m.from - 1, m.to - 1;
    if !(0 <= from < numPegs && 0 <= to < numPegs) || from == to then None
    else match TopDisk(s, from)
      case None => None
      case Some(d) => if SmallerDiskOn(s, d, to) then None else Some(s[d := to])
  }

  /** Plays a list of moves in order from `s`; None as soon as one is illegal. */
  function Replay(numPegs: int, s: State, moves: seq<Move>): Option<State>
    decreases |moves|
  {
    if moves == [] then Some(s)
    else match ApplyMove(numPegs, s, moves[0])
      case None => None
      case Some(t) => Replay(numPegs, t, moves[1..])
  }

  /** `d` moves suffice to go from `start` to `target`, and no fewer do. */
  ghost predicate ShortestDistance(numPegs: int, start: State, target: State, d: nat)
  {
    && (exists moves {:trigger Replay(numPegs, start, moves)} :: |moves| == d && Replay(numPegs, start, moves) == Some(target))
    && (forall moves {:trigger Replay(numPegs, start, moves)} :: Replay(numPegs, start, moves) == Some(target) ==> d <= |moves|)
  }

  /** No list of legal moves leads from `start` to `target`. */
  ghost predicate Unreachable(numPegs: int, start: State, target: State)
  {
    forall moves :: Replay(numPegs, start, moves) != Some(target)
  }

  /** A legal (disk, peg) step is exactly the recorded move (its peg + 1, new peg + 1). */
  lemma LegalMoveApplies(numPegs: int, s: State, r: int, q: int)
    requires Legal(numPegs, s, r, q) && 0 <= s[r] < numPegs
    ensures ApplyMove(numPegs, s, Move(s[r] + 1, q + 1)) == Some(s[r := q])
  {
  }

  /** Every move that applies is a legal (disk, peg) step, recorded by its two pegs. */
  lemma ApplyMoveLegal(numPegs: int, s: State, m: Move) returns (r: nat, q: nat)
    requires ApplyMove(numPegs, s, m).Some?
    ensures Legal(numPegs, s, r, q)
    ensures ApplyMove(numPegs, s, m) == Some(s[r := q])
    ensures m == Move(s[r] + 1, q + 1) && 0 <= s[r] < numPegs
  {
    r := TopDisk(s, m.from - 1).value;
    q := m.to - 1;
  }

  /** The move relation is symmetric: the moved disk can always go straight back. */
  lemma {:induction false} MoveReversible(numPegs: int, s: State, m: Move)
    requires ApplyMove(numPegs, s, m).Some?
    ensures ApplyMove(numPegs, ApplyMove(numPegs, s, m).value, Move(m.to, m.from)) == Some(s)
  {
    var r, q := ApplyMoveLegal(numPegs, s, m);
    var t := s[r := q];
    assert Legal(numPegs, t, r, s[r]);
    LegalMoveApplies(numPegs, t, r, s[r]);
    assert t[r := s[r]] == s;
  }

  /** A legal move keeps a state well formed. */
  lemma LegalKeepsValid(numDisks: nat, numPegs: nat, s: State, r: int, q: int)
    requires ValidState(s, numDisks, numPegs) && Legal(numPegs, s, r, q)
    ensures ValidState(s[r := q], numDisks, numPegs)
  {
  }

  /** Replaying any move list keeps a state well formed. */
  lemma {:induction false} ReplayKeepsValid(numDisks: nat, numPegs: nat, s: State, moves: seq<Move>)
    requires ValidState(s, numDisks, numPegs) && Replay(numPegs, s, moves).Some?
    ensures ValidState(Replay(numPegs, s, moves).value, numDisks, numPegs)
    decreases |moves|
  {
    if moves != [] {
      var r, q := ApplyMoveLegal(numPegs, s, moves[0]);
      LegalKeepsValid(numDisks, numPegs, s, r, q);
      ReplayKeepsValid(numDisks, numPegs, s[r := q], moves[1..]);
    }
  }

  /** Playing one more move after a list is the same as extending the list. */
  lemma {:induction false} ReplaySnoc(numPegs: int, s: State, moves: seq<Move>, m: Move)
    ensures Replay(numPegs, s, moves + [m]) ==
            match Replay(numPegs, s, moves)
            case None => None
            case Some(w) => ApplyMove(numPegs, w, m)
    decreases |moves|
  {
    if moves == [] {
      assert moves + [m] == [m];
      assert [m][1..] == [];
    } else {
      assert (moves + [m])[0] == moves[0];
      assert (moves + [m])[1..] == moves[1..] + [m];
      match ApplyMove(numPegs, s, moves[0])
      case None =>
      case Some(t) => ReplaySnoc(numPegs, t, moves[1..], m);
    }
  }

  /** Prepending a move that applies prepends it to the replay. */
  lemma ReplayCons(numPegs: int, s: State, m: Move, moves: seq<Move>)
    requires ApplyMove(numPegs, s, m).Some?
    ensures Replay(numPegs, s, [m] + moves) == Replay(numPegs, ApplyMove(numPegs, s, m).value, moves)
  {
    assert ([m] + moves)[0] == m;
    assert ([m] + moves)[1..] == moves;
  }

  /** The target equal to the start is at distance 0, and at no other. */
  lemma ShortestToSelf(numPegs: int, s: State, d: nat)
    ensures ShortestDistance(numPegs, s, s, d) <==> d == 0
  {
    assert Replay(numPegs, s, []) == Some(s);
  }

  /** Every well-formed state of `numDisks` disks on `numPegs` pegs, built disk by disk. */
  ghost function AllStates(numDisks: nat, numPegs: nat): set<State>
  {
    if numDisks == 0 then {[]}
    else set s, p | s in AllStates(numDisks - 1, numPegs) && 0 <= p < numPegs :: [p] + s
  }

  /** The state space is finite: every well-formed state is in AllStates. */
  lemma {:induction false} AllStatesComplete(s: State, numDisks: nat, numPegs: nat)
    requires ValidState(s, numDisks, numPegs)
    ensures s in AllStates(numDisks, numPegs)
  {
    if numDisks > 0 {
      AllStatesComplete(s[1..], numDisks - 1, numPegs);
      assert s == [s[0]] + s[1..];
    }
  }
}
