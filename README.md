# FBHanoi in Dafny

A model of the solver in `FBHanoi.cpp`, which finds a shortest move sequence
for a generalised Towers of Hanoi: `numDisks` disks and `numPegs` pegs, any
start arrangement, any target arrangement. A state lists, for each disk
by rank (rank 0 is the smallest disk), the 0-based peg it sits on. Smaller
ranks sit higher on a peg, so no explicit stacks are needed.

The program builds the puzzle graph lazily while searching it breadth first:

- `Graph::GetVertex` looks a state up in a list of vertices by linear scan,
  and appends a new white vertex with the next index when the state is not
  there yet.
- `Graph::Cleanup` empties the store.
- `PegHasSmallerDisk` and `DiskNotSmallestOnPeg` are the two backwards
  scans that decide which (disk, peg) moves are legal.
- `Graph::BuildAndExplore` is the search. It dequeues a vertex and
  generates every legal move disk by disk and peg by peg. A vertex that is
  still white when first reached gets its distance, its predecessor and the
  move that reached it, turns grey and is enqueued. The dequeued vertex
  then turns black, and the search returns its distance when it is the
  target.
- `main` then walks predecessor links back from the target, as many steps
  as the distance, and prints each vertex's recorded move, first move first.

The Dafny project has four modules:

- `Wrappers` holds the `Option` type.
- `Rules` (`rules.dfy`) holds the state space and the move rule:
  - the two scans, as methods with loops;
  - `Legal`, the (disk, peg) legality the search applies;
  - `ApplyMove` and `Replay`, a reference semantics of the recorded moves.
    A move is a pair of 1-based pegs: take the top disk of the first peg
    and put it on the second peg.
  - `ShortestDistance`, stated over all move lists.
- `Bfs` (`bfs.dfy`) holds the `Vertex` record and the search invariant on
  vertex lists, with the lemmas that each step keeps it. It also has the
  lemmas that give the results at the end:
  - the shortest distance when the target is found;
  - unreachability when the queue runs dry;
  - a replayable path along predecessor links.
- `FBHanoi` (`fbhanoi.dfy`) holds:
  - the class `Graph`, whose fields `numVertices` and `vtxList` are
    updated in place by `Cleanup`, `GetVertex` and `BuildAndExplore`;
  - `Visit`, `TryPegs` and `Expand`, the bodies of the source's nested
    loops;
  - `Solve`, the computing part of `main`.

Vertices are referred to by their position in `vtxList`, which is also
their `index`. A predecessor pointer becomes an `Option<nat>` position.

The search loop's invariant relies on the queue's shape, which BFS
guarantees. Vertices are appended in the order they are discovered, and
the queue is first in, first out. So the queue always holds exactly the
vertices from some position `head` to the end of the list, in order. All
vertices before `head` are black and the rest are grey. The queued
vertices before a second position `next` are at the current depth; those
after it are one deeper.

Two places where the model departs from the documentation or the code:

- The recorded move is the pair (source peg + 1, destination peg + 1), as
  `FBHanoi.cpp:229-230` assigns it. The design documentation calls it a
  (disk rank, destination peg) pair; the model follows the code.
- When the queue empties without reaching the target, the C++ function
  falls off its end without a return value, which is undefined behaviour.
  `BuildAndExplore` and `Solve` instead return `None`, and prove that the
  target is then unreachable.

## Model

| member | source | states |
|---|---|---|
| Rules.PegHasSmallerDisk | FBHanoi.cpp:123-133 | true exactly when some disk of smaller rank than `diskRad` is on `peg` |
| Rules.DiskNotSmallestOnPeg | FBHanoi.cpp:144-154 | true exactly when some disk of smaller rank shares disk `diskRad`'s peg, i.e. the disk is covered |
| Rules.TopDisk | FBHanoi.cpp:193-198 | the disk that may leave a peg is the one no smaller disk shares the peg with; None exactly when the peg is empty |
| Rules.LegalMoveApplies | FBHanoi.cpp:199-208 | a (disk, peg) step the generator accepts is the recorded move (old peg + 1, new peg + 1), and it changes only that disk's entry |
| Rules.ApplyMoveLegal | FBHanoi.cpp:191-208 | conversely, every move that applies to a state is a (disk, peg) step the generator accepts, and it changes only that disk |
| Rules.MoveReversible | FBHanoi.cpp:213-222 | the move graph is undirected: after any move, the reverse move applies and restores the state |
| Rules.LegalKeepsValid | FBHanoi.cpp:207-208 | a generated neighbour keeps every disk on a peg in range |
| Rules.ReplayKeepsValid | FBHanoi.cpp:207-208 | any sequence of legal moves keeps a state well formed |
| Rules.ShortestToSelf | FBHanoi.cpp:238-241 | a target equal to the start is at shortest distance 0 and at no other |
| Rules.AllStatesComplete | FBHanoi.cpp:184 | every well-formed state belongs to a finite set, which bounds the number of vertices and makes the search terminate |
| Bfs.DistinctAppend | FBHanoi.cpp:94-111 | appending a state that no vertex holds keeps the store free of duplicates |
| Bfs.StoreBound | FBHanoi.cpp:88-112 | a duplicate-free store of well-formed states has at most as many vertices as there are states |
| Bfs.InitInv | FBHanoi.cpp:169-182 | the store holding only the grey start vertex at distance 0, queued alone, satisfies the search invariant |
| Bfs.UnknownIsFar | FBHanoi.cpp:224-227 | a state with no vertex yet cannot be reached in fewer moves than the current depth + 1, so the first discovery's distance is optimal |
| Bfs.DiscoverInv | FBHanoi.cpp:224-231 | recording a white neighbour (distance + 1, predecessor, move, grey) and enqueueing it keeps the invariant |
| Bfs.FinishInv | FBHanoi.cpp:186-237 | once every neighbour of the dequeued vertex is known, blackening it and dropping it from the queue keeps the invariant |
| Bfs.ChainPath | FBHanoi.cpp:226-230 | following predecessor links from any vertex gives a move list of length `distance` that replays from the start to its state |
| Bfs.DistanceIsShortest | FBHanoi.cpp:237-241 | every vertex's recorded distance is the shortest distance from the start to its state |
| Bfs.ClosedUnderMoves | FBHanoi.cpp:184 | when every vertex is black, no move list leads from a black state to a state without a vertex |
| Bfs.NoPath | FBHanoi.cpp:184-243 | a queue that runs dry without the target being dequeued means no move list reaches the target |
| FBHanoi.Graph.constructor | FBHanoi.cpp:44 | the graph starts empty with the given disk and peg counts |
| FBHanoi.Graph.Cleanup | FBHanoi.cpp:64-79 | the store is empty and the vertex counter is 0 |
| FBHanoi.Graph.GetVertex | FBHanoi.cpp:88-112 | a known state returns its existing vertex and changes nothing; an unknown one appends a white vertex with index `numVertices`, distance 0, no predecessor and move (0, 0), and bumps the counter; no state is ever stored twice |
| FBHanoi.Graph.Visit | FBHanoi.cpp:207-232 | first discovery wins: an already known neighbour leaves the store and the queue untouched; a new one is appended with distance + 1, the current vertex as predecessor, move (old peg + 1, new peg + 1), grey, and queued; the search invariant is kept |
| FBHanoi.Graph.TryPegs | FBHanoi.cpp:199-234 | after the peg loop for an uncovered disk, every legal destination's state has a vertex at most one deeper than the current vertex, and every new vertex hangs off the current one |
| FBHanoi.Graph.Expand | FBHanoi.cpp:190-235 | after the disk loop, every state one legal move away has a vertex at most one deeper; old vertices keep their state, distance, predecessor and move |
| FBHanoi.Graph.BuildAndExplore | FBHanoi.cpp:166-243 | terminates; Some(d) means d is the shortest number of moves from start to target and the target's vertex has distance d; None means the target is unreachable; the predecessor links are consistent |
| FBHanoi.Solve | FBHanoi.cpp:319-336 | the returned move list has as many moves as the distance, replays from start to target, and is a shortest one; the same start and target give distance 0 and no moves; None only when the target is unreachable |

## Left out

- GetNextInt, PrintState, PrintMove and the reading and printing in `main`
  are not modelled. Reading is replaced by the precondition that both
  arrangements are well formed: `numDisks` entries, each a peg in
  `[0, numPegs)`. The source does not check its input.
- The edge lists (`Edge`, `edgeList`, the two `new Edge` per neighbour and
  their deletion in `Cleanup`) are never read by the search.
  `Rules.MoveReversible` states the symmetry they record.
- The `memset` of a new vertex and the pointers into `std::list`: a new
  vertex is built with the zero values, and vertices are named by their
  position in the list.
- The `int` fields are modelled as unbounded integers; overflow of the
  vertex counter or of distances is not modelled.
- GetVertex compares the first `numDisks` entries with `std::equal`. The
  model compares whole states, which is the same because every stored and
  queried state has `numDisks` entries.
- FBHanoi.Solve: `main`'s `forwardList` holds vertex pointers, whose
  `lastMove` is printed. The model collects the moves themselves, in the
  same order.
- FBHanoi.Graph.BuildAndExplore: the source has no return on an unreachable
  target, which is undefined behaviour. The model returns None there, with
  unreachability proved.
- The design documentation's InvalidInput and BrokenChain failures are not
  modelled. The first is a precondition here. The second cannot occur,
  because `Chained` is proved for every vertex.
