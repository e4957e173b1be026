/** knight_moves and print_parent (knights_travails.rb:38-55): a breadth-first
    search from the start square that stops when it takes the target square
    off the queue, and the walk up the parent links that reports the path. */
module KnightTravails {
  import opened Board
  import opened Walks
  import opened NodeMover
  import Connectivity

  datatype Option<T> = None | Some(value: T)

  /** What knight_moves reports: the path from start to end, or Exhausted
      where the queue runs dry and the source's queue.shift returns nil. */
  datatype Outcome = Found(path: seq<Square>) | Exhausted

  /** The node table of one search. Node 0 is the root, the only node
      without a parent; every other node's parent was created before it. */
  predicate WellFormed(nodes: seq<Node>)
  {
    |nodes| > 0 && nodes[0].parent == -1 &&
    forall i :: 0 < i < |nodes| ==> 0 <= nodes[i].parent < i
  }

  /** Every node other than the root is one knight move, onto the board,
      away from its parent. */
  predicate Linked(nodes: seq<Node>)
    requires WellFormed(nodes)
  {
    forall i :: 0 < i < |nodes| ==> Step(nodes[nodes[i].parent].pos, nodes[i].pos)
  }

  /** No two nodes stand on the same square: no square is enqueued twice. */
  predicate DistinctPositions(nodes: seq<Node>)
  {
    Distinct(Squares(nodes))
  }

  /** The squares of the nodes, in table order. */
  function Squares(nodes: seq<Node>): (r: seq<Square>)
    ensures |r| == |nodes| && forall i :: 0 <= i < |nodes| ==> r[i] == nodes[i].pos
  {
    seq(|nodes|, i requires 0 <= i < |nodes| => nodes[i].pos)
  }

  /** The squares of the nodes created so far: the search's history. */
  function Positions(nodes: seq<Node>): set<Square>
  {
    set i | 0 <= i < |nodes| :: nodes[i].pos
  }

  /** The parent links of the table, on their own. */
  function Parents(nodes: seq<Node>): (r: seq<int>)
    ensures |r| == |nodes| && forall i :: 0 <= i < |nodes| ==> r[i] == nodes[i].parent
  {
    seq(|nodes|, i requires 0 <= i < |nodes| => nodes[i].parent)
  }

  /** The number of links from entry i up to entry 0 in a table of parent
      links that all point backwards. */
  ghost function Level(parents: seq<int>, i: nat): nat
    requires i < |parents| && forall j :: 0 < j < |parents| ==> 0 <= parents[j] < j
    decreases i
  {
    if i == 0 then 0 else Level(parents, parents[i]) + 1
  }

  /** The number of parent links from node i up to the root: its BFS level. */
  ghost function Depth(nodes: seq<Node>, i: nat): nat
    requires WellFormed(nodes) && i < |nodes|
  {
    Level(Parents(nodes), i)
  }

  /** print_parent: the squares from the root down to node i, the root's
      first, as the recursion prints them before the node's own square. */
  function Chain(nodes: seq<Node>, i: nat): (r: seq<Square>)
    requires WellFormed(nodes) && i < |nodes|
    ensures |r| == Depth(nodes, i) + 1
    ensures Linked(nodes) ==> Walk(r, nodes[0].pos, nodes[i].pos)
    decreases i
  {
    if nodes[i].parent < 0 then [nodes[i].pos]
    else Chain(nodes, nodes[i].parent) + [nodes[i].pos]
  }

  /** Levels never decrease along the table: the FIFO queue hands out the
      nodes in the order they were created. */
  ghost predicate LevelOrder(nodes: seq<Node>)
    requires WellFormed(nodes)
  {
    forall i, j :: 0 <= i <= j < |nodes| ==> Depth(nodes, i) <= Depth(nodes, j)
  }

  /** Some node stands on q at level d or less. */
  ghost predicate Discovered(nodes: seq<Node>, q: Square, d: int)
    requires WellFormed(nodes)
  {
    exists j :: 0 <= j < |nodes| && nodes[j].pos == q && Depth(nodes, j) <= d
  }

  /** Node i has been expanded: every square one move away from it has a
      node at most one level below it. */
  ghost predicate Expanded(nodes: seq<Node>, i: nat)
    requires WellFormed(nodes) && i < |nodes|
  {
    forall q :: Step(nodes[i].pos, q) ==> Discovered(nodes, q, Depth(nodes, i) + 1)
  }

  /** The node table and the history of one search from start. */
  ghost predicate TableState(nodes: seq<Node>, visited: set<Square>, start: Square)
  {
    WellFormed(nodes) && Linked(nodes) && nodes[0] == Node(start, -1) &&
    visited == Positions(nodes) && DistinctPositions(nodes)
  }

  /** The levels of the table while node cur is examined: the nodes before
      it have been expanded and none of them stands on the target, and no
      node is more than one level below node cur. */
  ghost predicate LevelState(nodes: seq<Node>, cur: nat, end: Square)
  {
    WellFormed(nodes) && cur < |nodes| && LevelOrder(nodes) &&
    (forall j :: 0 <= j < |nodes| ==> Depth(nodes, j) <= Depth(nodes, cur) + 1) &&
    (forall i :: 0 <= i < cur ==> Expanded(nodes, i) && nodes[i].pos != end)
  }

  /** The state at the head of the loop of knight_moves. */
  ghost predicate SearchState(nodes: seq<Node>, visited: set<Square>, cur: nat, start: Square, end: Square)
  {
    TableState(nodes, visited, start) && LevelState(nodes, cur, end)
  }

  /** Appending nodes to the table does not change the levels of the old ones. */
  lemma {:induction false} DepthKept(nodes: seq<Node>, more: seq<Node>, i: nat)
    requires WellFormed(nodes) && WellFormed(nodes + more) && i < |nodes|
    ensures Depth(nodes + more, i) == Depth(nodes, i)
    decreases i
  {
    if i > 0 {
      DepthKept(nodes, more, nodes[i].parent);
    }
  }

  /** The table holds at most 65 nodes, and 64 when the start is on the board:
      their squares are distinct and all but the root's are on the board. */
  lemma TableBound(nodes: seq<Node>)
    requires WellFormed(nodes) && Linked(nodes) && DistinctPositions(nodes)
    ensures |nodes| <= 65
    ensures OnBoard(nodes[0].pos) ==> |nodes| <= 64
  {
    var later := set i | 1 <= i < |nodes| :: nodes[i].pos;
    forall p | p in later
      ensures OnBoard(p)
    {
      var i :| 1 <= i < |nodes| && nodes[i].pos == p;
      assert Step(nodes[nodes[i].parent].pos, nodes[i].pos);
    }
    OnBoardCard(later);
    DistinctCount(nodes, |nodes|);
    assert Positions(nodes) == later + {nodes[0].pos};
    if OnBoard(nodes[0].pos) {
      OnBoardCard(Positions(nodes));
    }
  }

  /** Distinct squares: the first n nodes stand on n squares. */
  lemma {:induction false} DistinctCount(nodes: seq<Node>, n: nat)
    requires DistinctPositions(nodes) && n <= |nodes|
    ensures |set i | 0 <= i < n :: nodes[i].pos| == n
  {
    if n > 0 {
      DistinctCount(nodes, n - 1);
      var below := set i | 0 <= i < n - 1 :: nodes[i].pos;
      assert nodes[n - 1].pos !in below;
      assert (set i | 0 <= i < n :: nodes[i].pos) == below + {nodes[n - 1].pos};
    }
  }

  /** The table after node cur is expanded into the squares kids: one new
      node per square, each with cur as its parent and one level below it;
      the old nodes keep their levels. */
  lemma SpawnShape(nodes: seq<Node>, cur: nat, kids: seq<Square>, next: seq<Node>)
    requires WellFormed(nodes) && cur < |nodes| && next == nodes + Spawn(kids, cur)
    ensures WellFormed(next) && |next| == |nodes| + |kids|
    ensures forall i :: 0 <= i < |nodes| ==> next[i] == nodes[i] && Depth(next, i) == Depth(nodes, i)
    ensures forall i :: |nodes| <= i < |next| ==> Depth(next, i) == Depth(nodes, cur) + 1
  {
    forall i | 0 <= i < |nodes|
      ensures Depth(next, i) == Depth(nodes, i)
    {
      DepthKept(nodes, Spawn(kids, cur), i);
    }
    forall i | |nodes| <= i < |next|
      ensures Depth(next, i) == Depth(nodes, cur) + 1
    {
      assert next[i].parent == cur;
      DepthKept(nodes, Spawn(kids, cur), cur);
    }
  }

  /** The new nodes are linked to their parent: each stands one move away
      from node cur. */
  lemma ExpandLinked(nodes: seq<Node>, visited: set<Square>, cur: nat, kids: seq<Square>, next: seq<Node>)
    requires WellFormed(nodes) && Linked(nodes) && cur < |nodes|
    requires kids == NextMoves(nodes[cur].pos, visited) && next == nodes + Spawn(kids, cur)
    ensures WellFormed(next) && Linked(next)
  {
    var n := |nodes|;
    assert WellFormed(next);
    forall i | 0 < i < |next|
      ensures Step(next[next[i].parent].pos, next[i].pos)
    {
      if i < n {
        assert next[i] == nodes[i] && next[nodes[i].parent] == nodes[nodes[i].parent];
      } else {
        assert next[i] == Node(kids[i - n], cur) && next[cur] == nodes[cur];
        assert kids[i - n] in kids;
      }
    }
  }

  /** The history after the expansion holds exactly the squares of the
      table, and these are still distinct. */
  lemma ExpandHistory(nodes: seq<Node>, visited: set<Square>, cur: nat, kids: seq<Square>, next: seq<Node>, seen: set<Square>)
    requires visited == Positions(nodes) && DistinctPositions(nodes) && cur < |nodes|
    requires kids == NextMoves(nodes[cur].pos, visited)
    requires next == nodes + Spawn(kids, cur) && seen == visited + set q | q in kids
    ensures Positions(next) == seen && DistinctPositions(next)
  {
    var n := |nodes|;
    assert Positions(next) == seen by {
      forall q | q in seen
        ensures q in Positions(next)
      {
        if q !in visited {
          var k :| 0 <= k < |kids| && kids[k] == q;
          assert next[n + k].pos == q;
        } else {
          var j :| 0 <= j < n && nodes[j].pos == q;
          assert next[j] == nodes[j];
        }
      }
    }
    forall i, j | 0 <= i < j < |next|
      ensures next[i].pos != next[j].pos
    {
      if n <= i {
        assert next[i].pos == kids[i - n] && next[j].pos == kids[j - n];
      } else if n <= j {
        assert next[i].pos in visited;
        assert next[j].pos == kids[j - n] && kids[j - n] in kids;
      } else {
        assert next[i] == nodes[i] && next[j] == nodes[j];
      }
    }
  }

  /** The new nodes are one level below node cur, and no old node is more
      than that, so the levels stay in order. */
  lemma SpawnKeepsOrder(nodes: seq<Node>, cur: nat, kids: seq<Square>, next: seq<Node>)
    requires WellFormed(nodes) && cur < |nodes| && LevelOrder(nodes)
    requires forall j :: 0 <= j < |nodes| ==> Depth(nodes, j) <= Depth(nodes, cur) + 1
    requires next == nodes + Spawn(kids, cur)
    ensures WellFormed(next) && LevelOrder(next)
  {
    SpawnShape(nodes, cur, kids, next);
    forall i, j | 0 <= i <= j < |next|
      ensures Depth(next, i) <= Depth(next, j)
    {
      if j < |nodes| {
        assert Depth(nodes, i) <= Depth(nodes, j);
      } else if i < |nodes| {
        assert Depth(nodes, i) <= Depth(nodes, cur) + 1;
      }
    }
  }

  /** After the expansion, every square one move away from node cur has a
      node at most one level below it: an old one or one of the new ones. */
  lemma ExpandedCur(nodes: seq<Node>, visited: set<Square>, cur: nat, kids: seq<Square>, next: seq<Node>)
    requires WellFormed(nodes) && cur < |nodes| && visited == Positions(nodes)
    requires forall j :: 0 <= j < |nodes| ==> Depth(nodes, j) <= Depth(nodes, cur) + 1
    requires kids == NextMoves(nodes[cur].pos, visited) && next == nodes + Spawn(kids, cur)
    ensures WellFormed(next) && Expanded(next, cur)
  {
    var n := |nodes|;
    SpawnShape(nodes, cur, kids, next);
    forall q | Step(next[cur].pos, q)
      ensures Discovered(next, q, Depth(next, cur) + 1)
    {
      if q in visited {
        var j :| 0 <= j < n && nodes[j].pos == q;
        assert next[j].pos == q;
      } else {
        var k :| 0 <= k < |kids| && kids[k] == q;
        assert next[n + k].pos == q;
      }
    }
  }

  /** Appending nodes keeps the nodes expanded before expanded. */
  lemma ExpandedKept(nodes: seq<Node>, cur: nat, kids: seq<Square>, next: seq<Node>)
    requires WellFormed(nodes) && cur < |nodes|
    requires forall i :: 0 <= i < cur ==> Expanded(nodes, i)
    requires next == nodes + Spawn(kids, cur)
    ensures WellFormed(next) && forall i :: 0 <= i < cur ==> Expanded(next, i)
  {
    var n := |nodes|;
    SpawnShape(nodes, cur, kids, next);
    forall i | 0 <= i < cur
      ensures Expanded(next, i)
    {
      forall q | Step(next[i].pos, q)
        ensures Discovered(next, q, Depth(next, i) + 1)
      {
        assert Expanded(nodes, i);
        var j :| 0 <= j < n && nodes[j].pos == q && Depth(nodes, j) <= Depth(nodes, i) + 1;
        assert next[j].pos == q;
      }
    }
  }

  /** Expanding node cur, which does not stand on the target: afterwards
      node cur and every node before it have been expanded, and the next
      node can be examined if there is one. */
  lemma ExpandLevels(nodes: seq<Node>, visited: set<Square>, cur: nat, start: Square, end: Square,
                     kids: seq<Square>, next: seq<Node>)
    requires SearchState(nodes, visited, cur, start, end) && nodes[cur].pos != end
    requires kids == NextMoves(nodes[cur].pos, visited)
    requires next == nodes + Spawn(kids, cur)
    ensures WellFormed(next) && |next| == |nodes| + |kids| && LevelOrder(next)
    ensures forall i :: 0 <= i <= cur ==> Expanded(next, i) && next[i].pos != end
    ensures cur + 1 < |next| ==> LevelState(next, cur + 1, end)
  {
    SpawnShape(nodes, cur, kids, next);
    ExpandedCur(nodes, visited, cur, kids, next);
    ExpandedKept(nodes, cur, kids, next);
    SpawnKeepsOrder(nodes, cur, kids, next);
    if cur + 1 < |next| {
      assert Depth(next, cur) <= Depth(next, cur + 1);
    }
  }

  /** Once every node has been expanded and none stands on the target, no
      walk leads from the start to the target. */
  lemma ExhaustedUnreachable(nodes: seq<Node>, last: nat, start: Square, end: Square)
    requires WellFormed(nodes) && nodes[0].pos == start && last + 1 == |nodes|
    requires forall i :: 0 <= i <= last ==> Expanded(nodes, i) && nodes[i].pos != end
    ensures forall w :: !Walk(w, start, end)
  {
    forall w | Walk(w, start, end)
      ensures false
    {
      var j := AllReached(nodes, last, w, start, end, |w| - 1);
    }
  }

  /** One pass of the loop of knight_moves: node cur, which does not stand
      on the target, is expanded (next_moves and the creation of the new
      nodes, which records their squares in the history). Afterwards either
      the next node in the queue can be examined, or the queue is empty and
      no walk leads from the start to the target. */
  lemma ExpandStep(nodes: seq<Node>, visited: set<Square>, cur: nat, start: Square, end: Square,
                   kids: seq<Square>, next: seq<Node>, seen: set<Square>)
    requires SearchState(nodes, visited, cur, start, end) && nodes[cur].pos != end
    requires kids == NextMoves(nodes[cur].pos, visited)
    requires next == nodes + Spawn(kids, cur) && seen == visited + set q | q in kids
    ensures TableState(next, seen, start) && LevelOrder(next)
    ensures |next| <= 65 && (OnBoard(start) ==> |next| <= 64)
    ensures cur + 1 < |next| ==> SearchState(next, seen, cur + 1, start, end)
    ensures cur + 1 == |next| ==> forall w :: !Walk(w, start, end)
  {
    ExpandLinked(nodes, visited, cur, kids, next);
    ExpandHistory(nodes, visited, cur, kids, next, seen);
    ExpandLevels(nodes, visited, cur, start, end, kids, next);
    TableBound(next);
    if cur + 1 == |next| {
      ExhaustedUnreachable(next, cur, start, end);
    }
  }

  /** Once every node has been expanded, every walk from the start stays on
      the squares of the table: the returned j stands on w[k]. */
  lemma {:induction false} AllReached(nodes: seq<Node>, last: nat, w: seq<Square>, start: Square, end: Square, k: nat)
    returns (j: nat)
    requires WellFormed(nodes) && nodes[0].pos == start && last + 1 == |nodes|
    requires forall i :: 0 <= i <= last ==> Expanded(nodes, i)
    requires Walk(w, start, end) && k < |w|
    ensures j < |nodes| && nodes[j].pos == w[k]
  {
    if k == 0 {
      j := 0;
    } else {
      var i := AllReached(nodes, last, w, start, end, k - 1);
      assert Step(w[k - 1], w[k]);
      assert Expanded(nodes, i);
      j :| 0 <= j < |nodes| && nodes[j].pos == w[k] && Depth(nodes, j) <= Depth(nodes, i) + 1;
    }
  }

  /** Breadth-first order: while node cur is examined, the k-th square of any
      walk from the start with k no greater than cur's level has a node at
      level k or less. */
  lemma {:induction false} ReachedWithin(nodes: seq<Node>, visited: set<Square>, cur: nat, start: Square, end: Square,
                                         w: seq<Square>, k: nat)
    requires SearchState(nodes, visited, cur, start, end)
    requires |w| > 0 && w[0] == start && forall i :: 0 <= i < |w| - 1 ==> Step(w[i], w[i + 1])
    requires k < |w| && k <= Depth(nodes, cur)
    ensures Discovered(nodes, w[k], k)
  {
    if k == 0 {
      assert nodes[0].pos == w[0] && Depth(nodes, 0) == 0;
    } else {
      ReachedWithin(nodes, visited, cur, start, end, w, k - 1);
      var i :| 0 <= i < |nodes| && nodes[i].pos == w[k - 1] && Depth(nodes, i) <= k - 1;
      assert Expanded(nodes, i) && Step(w[k - 1], w[k]);
      var j :| 0 <= j < |nodes| && nodes[j].pos == w[k] && Depth(nodes, j) <= Depth(nodes, i) + 1;
    }
  }

  /** The first node taken off the queue that stands on the target is at the
      least number of moves: no walk from the start to the target is
      shorter than its chain of parents, and no node before it stands on
      the target. */
  lemma FoundIsShortest(nodes: seq<Node>, visited: set<Square>, cur: nat, start: Square, end: Square)
    requires SearchState(nodes, visited, cur, start, end) && nodes[cur].pos == end
    ensures forall i :: 0 <= i < cur ==> nodes[i].pos != end
    ensures forall w :: Walk(w, start, end) ==> Depth(nodes, cur) < |w|
  {
    forall w | Walk(w, start, end)
      ensures Depth(nodes, cur) < |w|
    {
      if |w| <= Depth(nodes, cur) {
        ReachedWithin(nodes, visited, cur, start, end, w, |w| - 1);
      }
    }
  }

  /** The state before the first pass of the loop: the table holds the root
      alone, on the start square, and the history holds the start square. */
  lemma InitialState(start: Square, end: Square)
    ensures SearchState([Node(start, -1)], {start}, 0, start, end)
  {
    var nodes := [Node(start, -1)];
    assert Positions(nodes) == {start} by {
      assert nodes[0].pos in Positions(nodes);
    }
    assert Depth(nodes, 0) == 0;
  }

  /** The node indices from, from + 1, ..., from + count - 1, in order: the
      queue holds the created nodes that have not been examined yet. */
  function Indices(from: nat, count: nat): (r: seq<nat>)
    ensures |r| == count && forall k :: 0 <= k < count ==> r[k] == from + k
  {
    seq(count, k requires 0 <= k < count => from + k)
  }

  /** The queue after the expansion of node cur, of a table of n nodes into
      one of n + b: the indices of the nodes still waiting, then those of
      the b new nodes. Its head is the node after cur, and the rest is again
      the run of indices after the head. */
  lemma QueueStep(queue: seq<nat>, cur: nat, n: nat, b: nat)
    requires cur < n && queue == Indices(cur + 1, n - cur - 1)
    ensures queue + Indices(n, b) == Indices(cur + 1, n + b - cur - 1)
    ensures queue + Indices(n, b) != [] ==>
      (queue + Indices(n, b))[0] == cur + 1 &&
      (queue + Indices(n, b))[1..] == Indices((queue + Indices(n, b))[0] + 1, n + b - (queue + Indices(n, b))[0] - 1)
  {
    assert queue + Indices(n, b) == Indices(cur + 1, n + b - cur - 1);
  }

  /** The state at the head of the loop of knight_moves, with the queue:
      the indices of the nodes created after node cur, in order. */
  ghost predicate LoopState(nodes: seq<Node>, visited: set<Square>, cur: nat, queue: seq<nat>, start: Square, end: Square)
  {
    SearchState(nodes, visited, cur, start, end) &&
    |nodes| <= 65 && (OnBoard(start) ==> |nodes| <= 64) &&
    queue == Indices(cur + 1, |nodes| - cur - 1)
  }

  /** One pass of the loop of knight_moves with its queue: the new nodes are
      pushed onto the queue. If the queue is then empty, the table is
      complete and no walk leads from the start to the target; otherwise
      its head is the next node to examine. */
  lemma Advance(nodes: seq<Node>, visited: set<Square>, cur: nat, queue: seq<nat>, start: Square, end: Square,
                kids: seq<Square>, next: seq<Node>, seen: set<Square>, waiting: seq<nat>)
    requires LoopState(nodes, visited, cur, queue, start, end) && nodes[cur].pos != end
    requires kids == NextMoves(nodes[cur].pos, visited)
    requires next == nodes + Spawn(kids, cur) && seen == visited + set q | q in kids
    requires waiting == queue + Indices(|nodes|, |Spawn(kids, cur)|)
    ensures WellFormed(next) && Linked(next) && next[0] == Node(start, -1) && DistinctPositions(next)
    ensures |next| <= 65 && (OnBoard(start) ==> |next| <= 64) && LevelOrder(next)
    ensures waiting == [] ==> forall w :: !Walk(w, start, end)
    ensures waiting != [] ==> LoopState(next, seen, waiting[0], waiting[1..], start, end)
  {
    ExpandStep(nodes, visited, cur, start, end, kids, next, seen);
    QueueStep(queue, cur, |nodes|, |Spawn(kids, cur)|);
    if waiting != [] {
      assert waiting[0] == cur + 1 && |next| == |nodes| + |Spawn(kids, cur)|;
      assert SearchState(next, seen, cur + 1, start, end);
    }
  }

  /** knight_moves up to the call of print_parent: the breadth-first loop
      over a FIFO queue of node indices. The history is local to this call.
      found is the index of the node that stands on end, or None where the
      queue runs dry. */
  method Search(start: Square, end: Square) returns (nodes: seq<Node>, found: Option<nat>)
    ensures WellFormed(nodes) && Linked(nodes) && nodes[0] == Node(start, -1)
    ensures DistinctPositions(nodes)
    ensures |nodes| <= 65 && (OnBoard(start) ==> |nodes| <= 64)
    ensures LevelOrder(nodes)
    ensures found.Some? ==> found.value < |nodes| && nodes[found.value].pos == end
    ensures found.Some? ==> forall i :: 0 <= i < found.value ==> nodes[i].pos != end
    ensures found.Some? ==> forall w :: Walk(w, start, end) ==> Depth(nodes, found.value) < |w|
    ensures found.None? ==> forall w :: !Walk(w, start, end)
  {
    nodes := [Node(start, -1)];
    var visited := {start};
    var queue := Indices(1, 0);
    var cur := 0;
    InitialState(start, end);
    while nodes[cur].pos != end
      invariant LoopState(nodes, visited, cur, queue, start, end)
      decreases 65 - cur
    {
      var kids := NextMoves(nodes[cur].pos, visited);
      var born := Spawn(kids, cur);
      var seen := visited + set q | q in kids;
      var waiting := queue + Indices(|nodes|, |born|);
      Advance(nodes, visited, cur, queue, start, end, kids, nodes + born, seen, waiting);
      nodes, visited, queue := nodes + born, seen, waiting;
      if queue == [] {
        return nodes, None;
      }
      cur, queue := queue[0], queue[1..];
    }
    found := Some(cur);
    FoundIsShortest(nodes, visited, cur, start, end);
  }

  /** knight_moves: the path of a shortest chain of knight moves from start
      to end, as print_parent prints it. When both squares are on the board
      the search always finds one. */
  method KnightMoves(start: Square, end: Square) returns (r: Outcome)
    ensures r.Found? ==> Shortest(r.path, start, end)
    ensures r.Exhausted? ==> forall w :: !Walk(w, start, end)
    ensures start == end ==> r == Found([start])
    ensures OnBoard(start) && OnBoard(end) ==> r.Found?
  {
    var nodes, found := Search(start, end);
    match found {
      case None =>
        r := Exhausted;
      case Some(i) =>
        r := Found(Chain(nodes, i));
    }
    assert start == end ==> Walk([start], start, end);
    if OnBoard(start) && OnBoard(end) {
      var w := Connectivity.Route(start, end);
    }
  }
}
