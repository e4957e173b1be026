# Knight's travails in Dafny

A model of `knights_travails.rb`. It is a breadth-first search for the
shortest chain of knight moves between two squares of an 8x8 chessboard.
It has three parts:

- `NodeMover` generates moves. It applies the eight knight offsets of
  `MOVES` to a square, keeps the results that lie on the board (`valid?`),
  drops the squares already in the history, and creates one node per
  remaining square, with the expanded node as its parent.
- `knight_moves` is the search. It creates a root node without a parent,
  then loops until the current node stands on the target. Each pass pushes
  the current node's children onto a FIFO queue and shifts the next node
  off its front.
- `print_parent` rebuilds the path. It follows the parent links up to the
  root, so the path comes out from the start to the target.

The model has six modules:

- `Board` (board.dfy): squares, `valid?` as `OnBoard`, the offset list
  `Moves`, knight jumps, and the bound of 64 squares.
- `Walks` (walks.dfy): chains of legal moves (`Walk`), shortest chains,
  reversal and joining, and the colour and coordinate-sum bounds on the
  length of a chain.
- `NodeMover` (node_mover.dfy): search nodes and the `next_moves` pipeline.
  The pipeline is `Destinations`, then `KeepOnBoard` for `keep_if`, then
  `RejectSeen` for `reject`; `Spawn` creates the nodes.
- `KnightTravails` (knight_travails.dfy): the search as an imperative
  method over a node table, with a history set and a queue of node
  indices; `print_parent` as the function `Chain`; and the invariants
  that make the first node found a nearest one.
- `Connectivity` (connectivity.dfy) and `Distances` (distances.dfy): the
  knight's graph on the board is connected, so the search always succeeds
  between two board squares. They also prove the distance for the query the
  script makes and for corner to corner.

A node object becomes a value `Node(pos, parent)` in a node table. `parent`
is the index of the parent node, or -1 for the root (the source's `nil`).
Every parent index is smaller than the node's own index. The queue holds
node indices. The history is a set local to one search.

## Model

| member | source | states |
|---|---|---|
| Board.OnBoard | knights_travails.rb:24-26 | holds exactly when both the file and the rank are among 1..8, the coordinates of the board |
| Board.MovesAreKnightJumps | knights_travails.rb:8-11 | an offset of MOVES leads from a to b exactly when b is a knight jump (1 and 2, or 2 and 1) away from a |
| Board.OnBoardCard | knights_travails.rb:24-26 | any set of squares that valid? accepts has at most 64 elements |
| Walks.ReverseWalk | knights_travails.rb:8-11 | the offsets are closed under negation, so a chain of moves from an on-board square read backwards is a chain of moves of the same length |
| Walks.ShortestSymmetric | knights_travails.rb:8-11 | a shortest chain from a to b read backwards is a shortest chain from b to a |
| Walks.WalkBounds | knights_travails.rb:8-11 | every move changes the square's colour and changes the sum of its coordinates by at most 3; so the number of moves is even exactly when both ends have one colour, and is at least a third of the change in the coordinate sum |
| NodeMover.Destinations | knights_travails.rb:31 | eight squares, pairwise distinct |
| NodeMover.DestinationsAreKnightJumps | knights_travails.rb:31 | the eight squares are exactly the squares one knight jump away |
| NodeMover.KeepOnBoard | knights_travails.rb:32 | keeps exactly the elements that valid? accepts, no more of them than there were, and keeps distinct elements distinct |
| NodeMover.RejectSeen | knights_travails.rb:33 | keeps exactly the elements not in the history, no more of them than there were, and keeps distinct elements distinct |
| NodeMover.NextMoves | knights_travails.rb:30-33 | at most 8 squares, pairwise distinct, and q is among them exactly when q is on the board, a knight jump away, and not in the history |
| NodeMover.Spawn | knights_travails.rb:34 | one node per square, in the same order, each standing on its square with the expanded node as its parent |
| KnightTravails.Chain | knights_travails.rb:39-42 | the path has one square more than the node's level; when every node is one move from its parent, it is a chain of moves from the root's square to the node's square |
| KnightTravails.DepthKept | knights_travails.rb:51 | pushing new nodes does not change the level of any existing node |
| KnightTravails.TableBound | knights_travails.rb:33-34 | a table whose squares are distinct and linked by moves has at most 65 nodes, and at most 64 when the start is on the board |
| KnightTravails.SpawnShape | knights_travails.rb:34 | the new nodes come after the old ones, which keep their levels, and each is one level below the expanded node |
| KnightTravails.ExpandLinked | knights_travails.rb:34 | every new node's parent is the expanded node and stands one legal move away from it |
| KnightTravails.ExpandHistory | knights_travails.rb:20 | after the new nodes are created, the history is exactly the set of squares in the table, and no square appears twice |
| KnightTravails.SpawnKeepsOrder | knights_travails.rb:51-52 | levels never decrease along the table after the children are pushed |
| KnightTravails.ExpandedCur | knights_travails.rb:51 | after the expansion, every square one move from the expanded node has a node at most one level below it |
| KnightTravails.ExpandedKept | knights_travails.rb:51 | nodes expanded earlier stay expanded when nodes are appended |
| KnightTravails.ExpandLevels | knights_travails.rb:51-52 | after a pass, every node up to the current one is expanded, none of them stands on the target, and the next node can be examined with all levels within one of its own |
| KnightTravails.ExhaustedUnreachable | knights_travails.rb:52 | once every node is expanded and none stands on the target, no chain of moves leads from the start to the target |
| KnightTravails.ExpandStep | knights_travails.rb:51-52 | one pass keeps the table linked, duplicate-free and in level order, with at most 64 nodes; either the next node can be examined, or the queue is exhausted and the target is unreachable |
| KnightTravails.AllReached | knights_travails.rb:51-53 | once every node is expanded, every square of every chain from the start has a node |
| KnightTravails.ReachedWithin | knights_travails.rb:48-53 | while node cur is examined, the k-th square of any chain from the start has a node at level k or less, for every k up to cur's level |
| KnightTravails.FoundIsShortest | knights_travails.rb:50-53 | the first node taken off the queue on the target has no earlier node on the target, and no chain of moves from start to target has fewer squares than its level plus one |
| KnightTravails.InitialState | knights_travails.rb:48-49 | the root alone, with no parent and the start square in the history, satisfies the loop invariant |
| KnightTravails.QueueStep | knights_travails.rb:51-52 | the queue stays the run of node indices after the current node: pushing the children appends their indices, and the shifted head is the next index |
| KnightTravails.Advance | knights_travails.rb:50-53 | a pass of the loop preserves the loop invariant for the shifted head, or leaves an empty queue only when the target is unreachable |
| KnightTravails.Search | knights_travails.rb:47-53 | returns a linked, duplicate-free table in level order rooted at the start, with at most 64 nodes when the start is on the board. A found node stands on the target, no earlier node does, and its level is a lower bound on every chain from start to target. None is returned only when no chain exists |
| KnightTravails.KnightMoves | knights_travails.rb:47-54 | a found path is a shortest chain of moves from start to end; Exhausted only when none exists; start == end gives the one-square path; two board squares always give a path |
| Connectivity.TowardsCornerStep | knights_travails.rb:50-53 | every board square other than (1, 1) has a table entry one legal move away and one level nearer to (1, 1) |
| Connectivity.CornerPath | knights_travails.rb:50-53 | a chain of moves from (1, 1) to any board square |
| Connectivity.Route | knights_travails.rb:50-53 | a chain of moves between any two board squares, so the search cannot exhaust its queue on them |
| Distances.ScriptQuery | knights_travails.rb:57 | from [1, 3] to [1, 5] the shortest chain has two moves, through [3, 4] |
| Distances.CornerToCorner | knights_travails.rb:47-54 | from (1, 1) to (8, 8) the shortest chain has six moves |

## Left out

- Console output. `print_parent` prints (knights_travails.rb:41); `Chain` returns the squares in the order they would be printed.
- The script's call `knight_moves([1, 3], [1, 5])` (knights_travails.rb:57) is not modelled as a call. `Distances.ScriptQuery` states the distance it reports.
- `@@history` lives in the class and is never reset (knights_travails.rb:14, 20), so a second search in the same process sees the squares of the first. The model keeps the history local to one search and does not reproduce this.
- When the queue runs dry, `queue.shift` returns `nil` and the next `position` call raises `NoMethodError` (knights_travails.rb:52). The model returns `None` from `Search` and `Exhausted` from `KnightMoves` instead of crashing. It proves this happens only when the target cannot be reached.
- The source does not check that `start_pos` and `end_pos` lie on the board, and neither does the model: off-board input is searched as it is. An off-board target other than the start ends in `Exhausted`, which the Ruby program would hit as the crash above. An off-board target equal to the start gives the one-square path, as the Ruby loop exits at once.
- Object identity of `NodeMover` instances is replaced by indices into the node table.
- NodeMover.KeepOnBoard: the contract states which elements `keep_if` keeps, not that they stay in their original order; the body keeps that order, but it is not stated.
- NodeMover.RejectSeen: the contract states which elements `reject` keeps, not that they stay in their original order; the body keeps that order, but it is not stated.
- NodeMover.NextMoves: the contract states which squares are returned, not that they come in the order of `MOVES`; the body keeps that order, but it is not stated.
- Ruby integers are unbounded, like Dafny's `int`, so no wrap-around is modelled.
