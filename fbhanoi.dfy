/**
 * The search engine of FBHanoi.cpp: a graph whose vertices are created on
 * demand from puzzle states, explored breadth first from the start state,
 * and the walk back along predecessor links that lists the moves.
 */
module FBHanoi {
  import opened Wrappers
  import opened Rules
  import opened Bfs

  /** Every legal move out of `s` of a disk smaller than rank `r` leads to a
      known vertex at most `bound` deep. */
  ghost predicate ExpandedUpTo(vs: seq<Vertex>, s: State, r: int, bound: int, numPegs: nat)
  {
    forall r', q' :: Legal(numPegs, s, r', q') && r' < r ==> KnownWithin(vs, s[r' := q'], bound)
  }

  lemma ExpandedUpToExtends(vs: seq<Vertex>, vs2: seq<Vertex>, s: State, r: int, bound: int, numPegs: nat)
    requires Extends(vs, vs2) && ExpandedUpTo(vs, s, r, bound, numPegs)
    ensures ExpandedUpTo(vs2, s, r, bound, numPegs)
  {
    forall r', q' | Legal(numPegs, s, r', q') && r' < r
      ensures KnownWithin(vs2, s[r' := q'], bound)
    {
      KnownWithinExtends(vs, vs2, s[r' := q'], bound);
    }
  }

  /** Having gone through every disk, every legal move out of `s` is covered. */
  lemma ExpandedUpToAll(vs: seq<Vertex>, s: State, bound: int, numPegs: nat)
    requires ExpandedUpTo(vs, s, |s|, bound, numPegs)
    ensures Expanded(vs, s, bound, numPegs)
  {
    forall m | ApplyMove(numPegs, s, m).Some?
      ensures KnownWithin(vs, ApplyMove(numPegs, s, m).value, bound)
    {
      var r, q := ApplyMoveLegal(numPegs, s, m);
    }
  }

  /** The queue holds exactly the vertex indices from `lo` up to `n`, in order. */
  ghost predicate QueueFrom(queue: seq<nat>, lo: nat, n: nat)
  {
    && lo + |queue| == n
    && forall k :: 0 <= k < |queue| ==> queue[k] == lo + k
  }

  lemma ReplaceLast(vs: seq<Vertex>, w: Vertex, w2: Vertex)
    ensures (vs + [w])[|vs| := w2] == vs + [w2]
  {
  }

  class Graph {
    const numDisks: nat
    const numPegs: nat
    var numVertices: nat
    var vtxList: seq<Vertex>

    /** The vertex store: `numVertices` counts the list, each vertex knows its
        position, no state appears twice, every state has `numDisks` entries. */
    ghost predicate Valid()
      reads this
    {
      && |vtxList| == numVertices
      && DistinctStates(vtxList)
      && forall i :: 0 <= i < |vtxList| ==> vtxList[i].index == i && |vtxList[i].state| == numDisks
    }

    constructor (numDisks: nat, numPegs: nat)
      ensures this.numDisks == numDisks && this.numPegs == numPegs
      ensures Valid() && vtxList == [] && numVertices == 0
    {
      this.numDisks := numDisks;
      this.numPegs := numPegs;
      numVertices := 0;
      vtxList := [];
    }

    /** Resets the store to empty. */
    method Cleanup()
      modifies this
      ensures Valid() && vtxList == [] && numVertices == 0
    {
      vtxList := [];
      numVertices := 0;
    }

    /** Looks a state up by linear scan; creates a white vertex with the next
        index when it is not there yet. */
    method GetVertex(state: State) returns (v: nat)
      requires Valid() && |state| == numDisks
      modifies this
      ensures Valid()
      ensures v < |vtxList| && vtxList[v].state == state
      ensures Known(old(vtxList), state) ==>
                vtxList == old(vtxList) && numVertices == old(numVertices)
      ensures !Known(old(vtxList), state) ==>
                && v == old(numVertices) && numVertices == old(numVertices) + 1
                && vtxList == old(vtxList) + [Vertex(White, old(numVertices), 0, state, None, Move(0, 0))]
    {
      var i := 0;
      while i < |vtxList|
        invariant 0 <= i <= |vtxList|
        invariant forall k :: 0 <= k < i ==> vtxList[k].state != state
      {
        if vtxList[i].state == state {
          return i;
        }
        i := i + 1;
      }
      var newVtx := Vertex(White, numVertices, 0, state, None, Move(0, 0));
      DistinctAppend(vtxList, newVtx);
      numVertices := numVertices + 1;
      vtxList := vtxList + [newVtx];
      v := |vtxList| - 1;
    }

    /** Handles one generated neighbour `cur.state[diskRad := peg]` of the vertex
        being expanded: only a vertex seen for the first time (white) gets its
        distance, predecessor and move recorded, turns grey and is enqueued. */
    method Visit(cur: nat, diskRad: nat, peg: nat, bfsList: seq<nat>, ghost start: State, ghost f: Front)
      returns (bfsList': seq<nat>)
      requires Valid() && |start| == numDisks && Inv(vtxList, f, start, numPegs)
      requires cur == f.head < |vtxList| && QueueFrom(bfsList, cur + 1, |vtxList|)
      requires Legal(numPegs, vtxList[cur].state, diskRad, peg)
      modifies this
      ensures Valid() && Inv(vtxList, f, start, numPegs) && QueueFrom(bfsList', cur + 1, |vtxList|)
      ensures Extends(old(vtxList), vtxList)
      ensures KnownWithin(vtxList, old(vtxList[cur].state)[diskRad := peg], old(vtxList[cur].distance) + 1)
      ensures Known(old(vtxList), old(vtxList[cur].state)[diskRad := peg]) ==>
                vtxList == old(vtxList) && bfsList' == bfsList
      ensures !Known(old(vtxList), old(vtxList[cur].state)[diskRad := peg]) ==>
                && vtxList == old(vtxList) + [Discovered(old(vtxList), cur, diskRad, peg)]
                && bfsList' == bfsList + [old(|vtxList|)]
    {
      ghost var vs := vtxList;
      var curState := vtxList[cur].state;
      var newState := curState[diskRad := peg];
      var newVtx := GetVertex(newState);
      assert Known(vs, newState) ==> vtxList == vs && vtxList[newVtx].color != White;
      bfsList' := bfsList;
      if vtxList[newVtx].color == White {
        ghost var created := Vertex(White, |vs|, 0, newState, None, Move(0, 0));
        assert vtxList == vs + [created] && newVtx == |vs|;
        vtxList := vtxList[newVtx := vtxList[newVtx].(predecessor := Some(cur),
                                                       distance := vtxList[cur].distance + 1,
                                                       color := Grey,
                                                       lastMove := Move(curState[diskRad] + 1, peg + 1))];
        bfsList' := bfsList + [newVtx];
        ReplaceLast(vs, created, Discovered(vs, cur, diskRad, peg));
        assert vtxList == vs + [Discovered(vs, cur, diskRad, peg)];
        DiscoverInv(vs, f, start, numPegs, diskRad, peg);
        assert vtxList[|vs|].state == newState;
      } else {
        assert vtxList[newVtx].distance <= vtxList[cur].distance + 1;
      }
    }

    /** The inner loop of the expansion: tries every destination peg for disk
        `diskRad` of the vertex being expanded and visits each legal result. */
    method TryPegs(cur: nat, diskRad: nat, bfsList: seq<nat>, ghost start: State, ghost f: Front)
      returns (bfsList': seq<nat>)
      requires Valid() && |start| == numDisks && Inv(vtxList, f, start, numPegs)
      requires cur == f.head < |vtxList| && QueueFrom(bfsList, cur + 1, |vtxList|)
      requires diskRad < |vtxList[cur].state| && !Covered(vtxList[cur].state, diskRad)
      modifies this
      ensures Valid() && Inv(vtxList, f, start, numPegs) && QueueFrom(bfsList', cur + 1, |vtxList|)
      ensures Extends(old(vtxList), vtxList)
      ensures forall q :: Legal(numPegs, vtxList[cur].state, diskRad, q) ==>
                KnownWithin(vtxList, vtxList[cur].state[diskRad := q], vtxList[cur].distance + 1)
      ensures forall i :: old(|vtxList|) <= i < |vtxList| ==> vtxList[i].predecessor == Some(cur)
    {
      ghost var vs0 := vtxList;
      var curState := vtxList[cur].state;
      ghost var bound := vtxList[cur].distance + 1;
      bfsList' := bfsList;
      for peg := 0 to numPegs
        invariant Valid() && Inv(vtxList, f, start, numPegs) && QueueFrom(bfsList', cur + 1, |vtxList|)
        invariant Extends(vs0, vtxList)
        invariant forall q :: 0 <= q < peg && Legal(numPegs, curState, diskRad, q) ==>
                    KnownWithin(vtxList, curState[diskRad := q], bound)
        invariant forall i :: |vs0| <= i < |vtxList| ==> vtxList[i].predecessor == Some(cur)
      {
        if peg == curState[diskRad] {
          continue;
        }
        var smaller := PegHasSmallerDisk(curState, diskRad, peg);
        if smaller {
          continue;
        }
        ghost var vs := vtxList;
        bfsList' := Visit(cur, diskRad, peg, bfsList', start, f);
        forall q | 0 <= q < peg && Legal(numPegs, curState, diskRad, q)
          ensures KnownWithin(vtxList, curState[diskRad := q], bound)
        {
          KnownWithinExtends(vs, vtxList, curState[diskRad := q], bound);
        }
      }
    }

    /** Generates every legal move out of the vertex being expanded, disk by
        disk and peg by peg, and visits the state each one leads to. */
    method Expand(cur: nat, bfsList: seq<nat>, ghost start: State, ghost f: Front) returns (bfsList': seq<nat>)
      requires Valid() && |start| == numDisks && Inv(vtxList, f, start, numPegs)
      requires cur == f.head < |vtxList| && QueueFrom(bfsList, cur + 1, |vtxList|)
      modifies this
      ensures Valid() && Inv(vtxList, f, start, numPegs) && QueueFrom(bfsList', cur + 1, |vtxList|)
      ensures Extends(old(vtxList), vtxList)
      ensures Expanded(vtxList, vtxList[cur].state, vtxList[cur].distance + 1, numPegs)
      ensures forall i :: old(|vtxList|) <= i < |vtxList| ==> vtxList[i].predecessor == Some(cur)
    {
      ghost var vs0 := vtxList;
      var curState := vtxList[cur].state;
      ghost var bound := vtxList[cur].distance + 1;
      bfsList' := bfsList;
      for diskRad := 0 to |curState|
        invariant Valid() && Inv(vtxList, f, start, numPegs) && QueueFrom(bfsList', cur + 1, |vtxList|)
        invariant Extends(vs0, vtxList)
        invariant ExpandedUpTo(vtxList, curState, diskRad, bound, numPegs)
        invariant forall i :: |vs0| <= i < |vtxList| ==> vtxList[i].predecessor == Some(cur)
      {
        var covered := DiskNotSmallestOnPeg(curState, diskRad);
        if covered {
          continue;
        }
        ghost var vs := vtxList;
        bfsList' := TryPegs(cur, diskRad, bfsList', start, f);
        ExpandedUpToExtends(vs, vtxList, curState, diskRad, bound, numPegs);
      }
      ExpandedUpToAll(vtxList, curState, bound, numPegs);
    }

    /** Breadth-first search from `startState`; the distance of the first
        dequeued vertex whose state is `endState`, or None once the queue runs
        dry without one. */
    method BuildAndExplore(startState: State, endState: State) returns (r: Option<nat>)
      requires ValidState(startState, numDisks, numPegs) && ValidState(endState, numDisks, numPegs)
      modifies this
      ensures Valid() && Chained(vtxList, startState, numPegs)
      ensures |vtxList| > 0 && vtxList[0].state == startState
      ensures r.Some? ==> ShortestDistance(numPegs, startState, endState, r.value)
      ensures r.Some? ==> exists j :: 0 <= j < |vtxList| && vtxList[j].state == endState && vtxList[j].distance == r.value
      ensures r.None? ==> Unreachable(numPegs, startState, endState)
    {
      Cleanup();
      var startVtx := GetVertex(startState);
      vtxList := vtxList[startVtx := vtxList[startVtx].(color := Grey)];
      var bfsList := [startVtx];
      ghost var f := Front(0, 1, 0);
      InitInv(startState, numPegs);
      StoreBound(vtxList, startState, numPegs);

      while bfsList != []
        invariant Valid() && Inv(vtxList, f, startState, numPegs) && QueueFrom(bfsList, f.head, |vtxList|)
        invariant forall i :: 0 <= i < f.head && i < |vtxList| ==> vtxList[i].state != endState
        invariant |vtxList| <= |AllStates(numDisks, numPegs)|
        decreases |AllStates(numDisks, numPegs)| - |vtxList|, |bfsList|
      {
        var curVtx := bfsList[0];
        bfsList := bfsList[1..];
        bfsList := Expand(curVtx, bfsList, startState, f);

        ghost var vs := vtxList;
        vtxList := vtxList[curVtx := vtxList[curVtx].(color := Black)];
        FinishInv(vs, f, startState, numPegs);
        f := Advance(f, |vs|);
        StoreBound(vtxList, startState, numPegs);

        if vtxList[curVtx].state == endState {
          DistanceIsShortest(vtxList, startState, numPegs, curVtx);
          return Some(vtxList[curVtx].distance);
        }
      }
      NoPath(vtxList, f, startState, endState, numPegs);
      return None;
    }
  }

  /** The search and the reconstruction in `main`, without the input and
      output: the distance and the moves, first move first, as (source peg,
      destination peg) labels counted from 1. */
  method Solve(numDisks: nat, numPegs: nat, startState: State, endState: State)
    returns (result: Option<(nat, seq<Move>)>)
    requires ValidState(startState, numDisks, numPegs) && ValidState(endState, numDisks, numPegs)
    ensures result.Some? ==>
              && |result.value.1| == result.value.0
              && Replay(numPegs, startState, result.value.1) == Some(endState)
              && ShortestDistance(numPegs, startState, endState, result.value.0)
    ensures result.None? ==> Unreachable(numPegs, startState, endState)
    ensures startState == endState ==> result == Some((0, []))
  {
    var graph := new Graph(numDisks, numPegs);
    var found := graph.BuildAndExplore(startState, endState);
    if found.None? {
      assert Replay(numPegs, startState, []) == Some(startState);
      return None;
    }
    var numMoves := found.value;
    if startState == endState {
      ShortestToSelf(numPegs, startState, numMoves);
    }

    var vtx := graph.GetVertex(endState);
    var vs := graph.vtxList;
    ghost var j :| 0 <= j < |vs| && vs[j].state == endState && vs[j].distance == numMoves;
    if j != vtx {
      DifferentVertices(vs, j, vtx);
    }
    var forwardList: seq<Move> := [];
    var i := 0;
    assert vs[vtx].distance == numMoves;
    while i < numMoves
      invariant 0 <= i <= numMoves
      invariant vtx < |vs|
      invariant vs[vtx].distance == numMoves - i
      invariant |forwardList| == i
      invariant Replay(numPegs, vs[vtx].state, forwardList) == Some(endState)
    {
      assert Linked(vs, vtx, startState, numPegs);
      var prev := vs[vtx].predecessor.value;
      ReplayCons(numPegs, vs[prev].state, vs[vtx].lastMove, forwardList);
      forwardList := [vs[vtx].lastMove] + forwardList;
      vtx := prev;
      i := i + 1;
    }
    assert Linked(vs, vtx, startState, numPegs);
    return Some((numMoves, forwardList));
  }
}
