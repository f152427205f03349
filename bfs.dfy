/**
 * Vertices of the implicit puzzle graph and the invariant that the
 * breadth-first search keeps, stated on values.
 *
 * Because vertices are appended in the order they are discovered and the
 * queue is first in, first out, the queue always holds exactly the vertices
 * from some index `head` to the end of the list: the ones before `head` are
 * black, the rest grey. A `Front` records that index, the index `next` where
 * the queue's second layer starts, and the distance `depth` of its first layer.
 */
module Bfs {
  import opened Wrappers
  import opened Rules

  datatype Color = White | Grey | Black

  /** One discovered state. `predecessor` is the index of the vertex it was
      first reached from; `lastMove` the move that reached it. */
  datatype Vertex = Vertex(color: Color, index: int, distance: nat, state: State,
                           predecessor: Option<nat>, lastMove: Move)

  /** The shape of the queue: grey vertices are those from `head` on; those
      before `next` are at distance `depth`, those after at `depth + 1`. */
  datatype Front = Front(head: nat, next: nat, depth: nat)

  predicate Known(vs: seq<Vertex>, s: State)
  {
    exists i :: 0 <= i < |vs| && vs[i].state == s
  }

  /** Vertices `i` and `j` hold different states. */
  ghost predicate Apart(vs: seq<Vertex>, i: int, j: int)
    requires 0 <= i < |vs| && 0 <= j < |vs|
  {
    vs[i].state != vs[j].state
  }

  /** No state has two vertices. */
  ghost predicate DistinctStates(vs: seq<Vertex>)
  {
    forall i, j :: 0 <= i < j < |vs| ==> Apart(vs, i, j)
  }

  /** Two different vertices hold different states. */
  lemma DifferentVertices(vs: seq<Vertex>, i: nat, j: nat)
    requires DistinctStates(vs) && i < |vs| && j < |vs| && i != j
    ensures vs[i].state != vs[j].state
  {
    if i < j {
      assert Apart(vs, i, j);
    } else {
      assert Apart(vs, j, i);
    }
  }

  /** Appending a state that no vertex holds keeps the states distinct. */
  lemma DistinctAppend(vs: seq<Vertex>, w: Vertex)
    requires DistinctStates(vs) && !Known(vs, w.state)
    ensures DistinctStates(vs + [w])
  {
    var vs2 := vs + [w];
    forall i, j | 0 <= i < j < |vs2| ensures Apart(vs2, i, j) {
      if j < |vs| {
        assert Apart(vs, i, j);
      } else {
        assert vs[i].state != w.state;
      }
    }
  }

  ghost predicate KnownWithin(vs: seq<Vertex>, s: State, bound: int)
  {
    exists j :: 0 <= j < |vs| && vs[j].state == s && vs[j].distance <= bound
  }

  /** `s` is the state of a black vertex. */
  ghost predicate Settled(vs: seq<Vertex>, f: Front, s: State)
  {
    exists j :: 0 <= j < f.head && j < |vs| && vs[j].state == s
  }

  /** Every state one legal move away from `s` has a vertex at distance at most `bound`. */
  ghost predicate Expanded(vs: seq<Vertex>, s: State, bound: int, numPegs: nat)
  {
    forall m :: ApplyMove(numPegs, s, m).Some? ==> KnownWithin(vs, ApplyMove(numPegs, s, m).value, bound)
  }

  /** No move list shorter than `d` leads from `start` to `s`. */
  ghost predicate NoShorter(numPegs: nat, start: State, s: State, d: nat)
  {
    forall moves {:trigger Replay(numPegs, start, moves)} :: Replay(numPegs, start, moves) == Some(s) ==> d <= |moves|
  }

  /** Vertex `i`'s predecessor link: the start has none and distance 0; any other
      vertex is one recorded legal move and one unit of distance past its predecessor. */
  ghost predicate Linked(vs: seq<Vertex>, i: int, start: State, numPegs: nat)
    requires 0 <= i < |vs|
  {
    match vs[i].predecessor
    case None => vs[i].state == start && vs[i].distance == 0
    case Some(u) =>
      && u < |vs|
      && vs[u].distance + 1 == vs[i].distance
      && ApplyMove(numPegs, vs[u].state, vs[i].lastMove) == Some(vs[i].state)
  }

  ghost predicate Chained(vs: seq<Vertex>, start: State, numPegs: nat)
  {
    forall i :: 0 <= i < |vs| ==> Linked(vs, i, start, numPegs)
  }

  /** The vertex store during the search: the start first, indices in creation
      order, one vertex per state, every state well formed. */
  ghost predicate StoreOk(vs: seq<Vertex>, start: State, numPegs: nat)
  {
    && |vs| > 0
    && vs[0].state == start
    && DistinctStates(vs)
    && forall i :: 0 <= i < |vs| ==> vs[i].index == i && ValidState(vs[i].state, |start|, numPegs)
  }

  /** Black before `head`, grey from `head` on, nothing white; a non-empty
      queue starts with a vertex of the first layer. */
  ghost predicate Colored(vs: seq<Vertex>, f: Front)
  {
    && f.head <= f.next <= |vs|
    && (f.head < |vs| ==> f.head < f.next)
    && forall i :: 0 <= i < |vs| ==> vs[i].color == (if i < f.head then Black else Grey)
  }

  /** Black vertices are no deeper than the queue's first layer; the queue
      holds that layer and then the next one. */
  ghost predicate Layered(vs: seq<Vertex>, f: Front)
  {
    forall i :: 0 <= i < |vs| ==>
      && (i < f.head ==> vs[i].distance <= f.depth)
      && (f.head <= i < f.next ==> vs[i].distance == f.depth)
      && (f.next <= i ==> vs[i].distance == f.depth + 1)
  }

  /** Every neighbour of a black vertex is known, at most one layer deeper. */
  ghost predicate Relaxed(vs: seq<Vertex>, f: Front, numPegs: nat)
  {
    forall b :: 0 <= b < f.head && b < |vs| ==> Expanded(vs, vs[b].state, vs[b].distance + 1, numPegs)
  }

  /** No vertex's distance can be beaten by a shorter move list. */
  ghost predicate Lower(vs: seq<Vertex>, start: State, numPegs: nat)
  {
    forall i :: 0 <= i < |vs| ==> NoShorter(numPegs, start, vs[i].state, vs[i].distance)
  }

  /** Every state reachable in fewer moves than the first layer's depth is black. */
  ghost predicate Early(vs: seq<Vertex>, f: Front, start: State, numPegs: nat)
  {
    forall moves {:trigger Replay(numPegs, start, moves)} :: |moves| < f.depth && Replay(numPegs, start, moves).Some? ==>
      Settled(vs, f, Replay(numPegs, start, moves).value)
  }

  ghost predicate Inv(vs: seq<Vertex>, f: Front, start: State, numPegs: nat)
  {
    && StoreOk(vs, start, numPegs)
    && Chained(vs, start, numPegs)
    && Colored(vs, f)
    && Layered(vs, f)
    && Relaxed(vs, f, numPegs)
    && Lower(vs, start, numPegs)
    && Early(vs, f, start, numPegs)
  }

  /** `vs2` is a later version of `vs`: vertices are only appended, and an old
      vertex changes at most its colour. */
  ghost predicate Extends(vs: seq<Vertex>, vs2: seq<Vertex>)
  {
    && |vs| <= |vs2|
    && forall i :: 0 <= i < |vs| ==>
         && vs2[i].state == vs[i].state
         && vs2[i].distance == vs[i].distance
         && vs2[i].index == vs[i].index
         && vs2[i].predecessor == vs[i].predecessor
         && vs2[i].lastMove == vs[i].lastMove
  }

  // ---------------------------------------------------------------------------
  // Facts that carry over from a vertex list to a later version of it.

  lemma KnownWithinExtends(vs: seq<Vertex>, vs2: seq<Vertex>, s: State, bound: int)
    requires Extends(vs, vs2) && KnownWithin(vs, s, bound)
    ensures KnownWithin(vs2, s, bound)
  {
    var j :| 0 <= j < |vs| && vs[j].state == s && vs[j].distance <= bound;
    assert vs2[j].state == s && vs2[j].distance <= bound;
  }

  lemma SettledExtends(vs: seq<Vertex>, vs2: seq<Vertex>, f: Front, f2: Front, s: State)
    requires Extends(vs, vs2) && f.head <= f2.head && Settled(vs, f, s)
    ensures Settled(vs2, f2, s)
  {
    var j :| 0 <= j < f.head && j < |vs| && vs[j].state == s;
    assert vs2[j].state == s;
  }

  lemma ExpandedExtends(vs: seq<Vertex>, vs2: seq<Vertex>, s: State, bound: int, numPegs: nat)
    requires Extends(vs, vs2) && Expanded(vs, s, bound, numPegs)
    ensures Expanded(vs2, s, bound, numPegs)
  {
    forall m | ApplyMove(numPegs, s, m).Some?
      ensures KnownWithin(vs2, ApplyMove(numPegs, s, m).value, bound)
    {
      KnownWithinExtends(vs, vs2, ApplyMove(numPegs, s, m).value, bound);
    }
  }

  lemma ChainedExtends(vs: seq<Vertex>, vs2: seq<Vertex>, start: State, numPegs: nat)
    requires Extends(vs, vs2) && Chained(vs, start, numPegs) && |vs2| == |vs|
    ensures Chained(vs2, start, numPegs)
  {
    forall i | 0 <= i < |vs2| ensures Linked(vs2, i, start, numPegs) {
      assert Linked(vs, i, start, numPegs);
    }
  }

  lemma DistinctExtends(vs: seq<Vertex>, vs2: seq<Vertex>)
    requires Extends(vs, vs2) && DistinctStates(vs) && |vs2| == |vs|
    ensures DistinctStates(vs2)
  {
    forall i, j | 0 <= i < j < |vs2| ensures Apart(vs2, i, j) {
      assert Apart(vs, i, j);
    }
  }

  lemma LowerExtends(vs: seq<Vertex>, vs2: seq<Vertex>, start: State, numPegs: nat)
    requires Extends(vs, vs2) && Lower(vs, start, numPegs)
    ensures forall i :: 0 <= i < |vs| ==> NoShorter(numPegs, start, vs2[i].state, vs2[i].distance)
  {
  }

  lemma RelaxedExtends(vs: seq<Vertex>, vs2: seq<Vertex>, f: Front, numPegs: nat)
    requires Extends(vs, vs2) && Relaxed(vs, f, numPegs)
    ensures forall b :: 0 <= b < f.head && b < |vs| ==>
              Expanded(vs2, vs2[b].state, vs2[b].distance + 1, numPegs)
  {
    forall b | 0 <= b < f.head && b < |vs|
      ensures Expanded(vs2, vs2[b].state, vs2[b].distance + 1, numPegs)
    {
      ExpandedExtends(vs, vs2, vs[b].state, vs[b].distance + 1, numPegs);
    }
  }

  // ---------------------------------------------------------------------------
  // The three steps of the search.

  /** Immediately after the start vertex is made grey and enqueued. */
  lemma InitInv(start: State, numPegs: nat)
    requires ValidState(start, |start|, numPegs)
    ensures Inv([Vertex(Grey, 0, 0, start, None, Move(0, 0))], Front(0, 1, 0), start, numPegs)
  {
    var vs := [Vertex(Grey, 0, 0, start, None, Move(0, 0))];
    assert Linked(vs, 0, start, numPegs);
  }

  /** A move list shorter than the first layer's depth ends at a black vertex
      no deeper than its length. */
  lemma SettledWitness(vs: seq<Vertex>, f: Front, start: State, numPegs: nat, moves: seq<Move>)
    returns (b: nat)
    requires Lower(vs, start, numPegs) && Early(vs, f, start, numPegs)
    requires |moves| < f.depth && Replay(numPegs, start, moves).Some?
    ensures b < f.head && b < |vs| && vs[b].state == Replay(numPegs, start, moves).value
    ensures vs[b].distance <= |moves|
  {
    assert Settled(vs, f, Replay(numPegs, start, moves).value);
    b :| 0 <= b < f.head && b < |vs| && vs[b].state == Replay(numPegs, start, moves).value;
    assert NoShorter(numPegs, start, vs[b].state, vs[b].distance);
  }

  /** One move from a black vertex lands on a known vertex at most one layer deeper. */
  lemma StepWitness(vs: seq<Vertex>, f: Front, numPegs: nat, b: nat, m: Move) returns (j: nat)
    requires Relaxed(vs, f, numPegs) && b < f.head && b < |vs|
    requires ApplyMove(numPegs, vs[b].state, m).Some?
    ensures j < |vs| && vs[j].state == ApplyMove(numPegs, vs[b].state, m).value
    ensures vs[j].distance <= vs[b].distance + 1
  {
    assert Expanded(vs, vs[b].state, vs[b].distance + 1, numPegs);
    assert KnownWithin(vs, ApplyMove(numPegs, vs[b].state, m).value, vs[b].distance + 1);
    j :| 0 <= j < |vs| && vs[j].state == ApplyMove(numPegs, vs[b].state, m).value
         && vs[j].distance <= vs[b].distance + 1;
  }

  /** A state reachable in no more moves than the first layer's depth already
      has a vertex, no deeper than the number of moves. */
  lemma ShallowVertex(vs: seq<Vertex>, f: Front, start: State, numPegs: nat, moves: seq<Move>)
    returns (j: nat)
    requires |vs| > 0 && vs[0].state == start
    requires Relaxed(vs, f, numPegs) && Lower(vs, start, numPegs) && Early(vs, f, start, numPegs)
    requires |moves| <= f.depth && Replay(numPegs, start, moves).Some?
    ensures j < |vs| && vs[j].state == Replay(numPegs, start, moves).value
    ensures vs[j].distance <= |moves|
  {
    var t := Replay(numPegs, start, moves).value;
    if moves == [] {
      j := 0;
      assert NoShorter(numPegs, start, vs[0].state, vs[0].distance);
      assert Replay(numPegs, start, []) == Some(vs[0].state);
    } else {
      var pre, m := moves[..|moves| - 1], moves[|moves| - 1];
      assert moves == pre + [m];
      ReplaySnoc(numPegs, start, pre, m);
      var b := SettledWitness(vs, f, start, numPegs, pre);
      j := StepWitness(vs, f, numPegs, b, m);
    }
  }

  /** A state with no vertex yet is at least one layer past the first layer. */
  lemma UnknownIsFar(vs: seq<Vertex>, f: Front, start: State, numPegs: nat, t: State)
    requires Inv(vs, f, start, numPegs) && !Known(vs, t)
    ensures NoShorter(numPegs, start, t, f.depth + 1)
  {
    forall moves | Replay(numPegs, start, moves) == Some(t)
      ensures f.depth + 1 <= |moves|
    {
      if |moves| <= f.depth {
        var j := ShallowVertex(vs, f, start, numPegs, moves);
      }
    }
  }

  /** The vertex created when the head of the queue reaches `vs[c].state[r := q]`. */
  function Discovered(vs: seq<Vertex>, c: nat, r: nat, q: nat): Vertex
    requires c < |vs| && r < |vs[c].state|
  {
    Vertex(Grey, |vs|, vs[c].distance + 1, vs[c].state[r := q], Some(c), Move(vs[c].state[r] + 1, q + 1))
  }

  /** The store stays well formed when a new state is appended. */
  lemma DiscoverStore(vs: seq<Vertex>, f: Front, start: State, numPegs: nat, r: nat, q: nat)
    requires StoreOk(vs, start, numPegs) && f.head < |vs|
    requires Legal(numPegs, vs[f.head].state, r, q)
    requires !Known(vs, vs[f.head].state[r := q])
    ensures StoreOk(vs + [Discovered(vs, f.head, r, q)], start, numPegs)
  {
    var cur := vs[f.head];
    var t := cur.state[r := q];
    var vs2 := vs + [Discovered(vs, f.head, r, q)];
    LegalKeepsValid(|start|, numPegs, cur.state, r, q);
    DistinctAppend(vs, Discovered(vs, f.head, r, q));
  }

  /** The new vertex is linked to the head by the move that reached it. */
  lemma DiscoverChained(vs: seq<Vertex>, f: Front, start: State, numPegs: nat, r: nat, q: nat)
    requires StoreOk(vs, start, numPegs) && Chained(vs, start, numPegs) && f.head < |vs|
    requires Legal(numPegs, vs[f.head].state, r, q)
    ensures Chained(vs + [Discovered(vs, f.head, r, q)], start, numPegs)
  {
    var cur := vs[f.head];
    var vs2 := vs + [Discovered(vs, f.head, r, q)];
    assert ValidState(cur.state, |start|, numPegs);
    LegalMoveApplies(numPegs, cur.state, r, q);
    forall i | 0 <= i < |vs2| ensures Linked(vs2, i, start, numPegs) {
      if i < |vs| {
        assert Linked(vs, i, start, numPegs);
      }
    }
  }

  /** Discovering a new neighbour of the head: a grey vertex one layer deeper,
      linked to the head by the recorded move, joins the back of the queue. */
  lemma DiscoverInv(vs: seq<Vertex>, f: Front, start: State, numPegs: nat, r: nat, q: nat)
    requires Inv(vs, f, start, numPegs) && f.head < |vs|
    requires Legal(numPegs, vs[f.head].state, r, q)
    requires !Known(vs, vs[f.head].state[r := q])
    ensures Inv(vs + [Discovered(vs, f.head, r, q)], f, start, numPegs)
  {
    var t := vs[f.head].state[r := q];
    var vs2 := vs + [Discovered(vs, f.head, r, q)];
    assert Extends(vs, vs2);
    DiscoverStore(vs, f, start, numPegs, r, q);
    DiscoverChained(vs, f, start, numPegs, r, q);
    RelaxedExtends(vs, vs2, f, numPegs);
    LowerExtends(vs, vs2, start, numPegs);
    UnknownIsFar(vs, f, start, numPegs, t);
    forall moves | |moves| < f.depth && Replay(numPegs, start, moves).Some?
      ensures Settled(vs2, f, Replay(numPegs, start, moves).value)
    {
      SettledExtends(vs, vs2, f, f, Replay(numPegs, start, moves).value);
    }
  }

  /** The front after the head of the queue is removed. */
  function Advance(f: Front, n: nat): Front
  {
    if f.head + 1 < f.next then Front(f.head + 1, f.next, f.depth)
    else Front(f.head + 1, n, f.depth + 1)
  }

  /** After the head of the queue has every neighbour known, turning it black
      and dropping it from the queue keeps the invariant. */
  lemma FinishInv(vs: seq<Vertex>, f: Front, start: State, numPegs: nat)
    requires Inv(vs, f, start, numPegs) && f.head < |vs|
    requires Expanded(vs, vs[f.head].state, vs[f.head].distance + 1, numPegs)
    ensures Inv(vs[f.head := vs[f.head].(color := Black)], Advance(f, |vs|), start, numPegs)
  {
    var c := f.head;
    var vs2, f2 := vs[c := vs[c].(color := Black)], Advance(f, |vs|);
    assert Extends(vs, vs2);
    DistinctExtends(vs, vs2);
    ChainedExtends(vs, vs2, start, numPegs);
    RelaxedExtends(vs, vs2, f, numPegs);
    ExpandedExtends(vs, vs2, vs[c].state, vs[c].distance + 1, numPegs);
    assert Relaxed(vs2, f2, numPegs);
    LowerExtends(vs, vs2, start, numPegs);
    forall moves | |moves| < f2.depth && Replay(numPegs, start, moves).Some?
      ensures Settled(vs2, f2, Replay(numPegs, start, moves).value)
    {
      var t := Replay(numPegs, start, moves).value;
      if |moves| < f.depth {
        SettledExtends(vs, vs2, f, f2, t);
      } else {
        // The first layer is used up: a state this close has a black vertex.
        var j := ShallowVertex(vs, f, start, numPegs, moves);
        assert j < f2.head;
      }
    }
  }

  // ---------------------------------------------------------------------------
  // What the invariant gives when the search stops.

  /** When every vertex is black, replayed move lists never leave the black vertices. */
  lemma {:induction false} ClosedUnderMoves(vs: seq<Vertex>, f: Front, numPegs: nat, s: State, moves: seq<Move>)
    requires Relaxed(vs, f, numPegs) && f.head == |vs|
    requires Settled(vs, f, s) && Replay(numPegs, s, moves).Some?
    ensures Settled(vs, f, Replay(numPegs, s, moves).value)
    decreases |moves|
  {
    if moves != [] {
      var b :| 0 <= b < f.head && b < |vs| && vs[b].state == s;
      var j := StepWitness(vs, f, numPegs, b, moves[0]);
      ClosedUnderMoves(vs, f, numPegs, vs[j].state, moves[1..]);
    }
  }

  /** An empty queue with no black vertex at the target: the target is unreachable. */
  lemma NoPath(vs: seq<Vertex>, f: Front, start: State, target: State, numPegs: nat)
    requires Inv(vs, f, start, numPegs) && f.head == |vs|
    requires forall i :: 0 <= i < |vs| ==> vs[i].state != target
    ensures Unreachable(numPegs, start, target)
  {
    assert Settled(vs, f, start);
    forall moves ensures Replay(numPegs, start, moves) != Some(target) {
      if Replay(numPegs, start, moves) == Some(target) {
        ClosedUnderMoves(vs, f, numPegs, start, moves);
      }
    }
  }

  /** Following predecessor links from vertex `i` spells out a move list of
      length `distance` that leads from the start to its state. */
  lemma {:induction false} ChainPath(vs: seq<Vertex>, start: State, numPegs: nat, i: nat)
    returns (moves: seq<Move>)
    requires Chained(vs, start, numPegs) && i < |vs|
    ensures |moves| == vs[i].distance && Replay(numPegs, start, moves) == Some(vs[i].state)
    decreases vs[i].distance
  {
    assert Linked(vs, i, start, numPegs);
    match vs[i].predecessor
    case None =>
      moves := [];
    case Some(u) =>
      var pre := ChainPath(vs, start, numPegs, u);
      moves := pre + [vs[i].lastMove];
      ReplaySnoc(numPegs, start, pre, vs[i].lastMove);
  }

  /** A vertex's recorded distance is the shortest distance to its state. */
  lemma DistanceIsShortest(vs: seq<Vertex>, start: State, numPegs: nat, i: nat)
    requires Chained(vs, start, numPegs) && Lower(vs, start, numPegs) && i < |vs|
    ensures ShortestDistance(numPegs, start, vs[i].state, vs[i].distance)
  {
    var moves := ChainPath(vs, start, numPegs, i);
    assert NoShorter(numPegs, start, vs[i].state, vs[i].distance);
  }

  /** The store holds at most as many vertices as there are well-formed states. */
  lemma StoreBound(vs: seq<Vertex>, start: State, numPegs: nat)
    requires StoreOk(vs, start, numPegs)
    ensures |vs| <= |AllStates(|start|, numPegs)|
  {
    var states := set i | 0 <= i < |vs| :: vs[i].state;
    DistinctCount(vs);
    forall s | s in states ensures s in AllStates(|start|, numPegs) {
      var i :| 0 <= i < |vs| && vs[i].state == s;
      AllStatesComplete(s, |start|, numPegs);
    }
    SubsetCard(states, AllStates(|start|, numPegs));
  }

  lemma {:induction false} DistinctCount(vs: seq<Vertex>)
    requires DistinctStates(vs)
    ensures |set i | 0 <= i < |vs| :: vs[i].state| == |vs|
  {
    if vs != [] {
      var n := |vs| - 1;
      var init := vs[..n];
      forall i, j | 0 <= i < j < |init| ensures Apart(init, i, j) {
        assert Apart(vs, i, j);
      }
      DistinctCount(init);
      var a := set i | 0 <= i < |init| :: init[i].state;
      var b := set i | 0 <= i < |vs| :: vs[i].state;
      assert b == a + {vs[n].state};
      forall i | 0 <= i < n ensures init[i].state != vs[n].state {
        assert Apart(vs, i, n);
      }
    }
  }

  lemma SubsetCard<T>(a: set<T>, b: set<T>)
    requires a <= b
    ensures |a| <= |b|
  {
    assert b == a + (b - a);
  }
}
