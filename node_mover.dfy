/** NodeMover (knights_travails.rb:4-36): search nodes and the generation of
    a node's successors. */
module NodeMover {
  import opened Board

  /** A search node: the square it stands on and the index of the node that
      discovered it in the search's node table, or -1 for the root (the
      source's nil parent). Nodes are never changed after creation. */
  datatype Node = Node(pos: Square, parent: int)

  predicate Distinct<T(==)>(s: seq<T>)
  {
    forall i, j :: 0 <= i < j < |s| ==> s[i] != s[j]
  }

  /** The first map of next_moves: the square each offset of MOVES leads to,
      in the order of MOVES. */
  function Destinations(p: Square): (r: seq<Square>)
    ensures |r| == |Moves| && Distinct(r)
  {
    seq(|Moves|, k requires 0 <= k < |Moves| => Shift(p, Moves[k]))
  }

  /** The destinations are exactly the squares a knight jump away from p. */
  lemma DestinationsAreKnightJumps(p: Square)
    ensures forall q :: q in Destinations(p) <==> KnightJump(p, q)
  {
    forall q
      ensures q in Destinations(p) <==> KnightJump(p, q)
    {
      MovesAreKnightJumps(p, q);
      if KnightJump(p, q) {
        var k :| 0 <= k < |Moves| && Shift(p, Moves[k]) == q;
        assert Destinations(p)[k] == q;
      }
    }
  }

  /** keep_if valid?: the squares of s that lie on the board, in their
      original order. */
  function KeepOnBoard(s: seq<Square>): (r: seq<Square>)
    ensures |r| <= |s|
    ensures forall x :: x in r <==> x in s && OnBoard(x)
    ensures Distinct(s) ==> Distinct(r)
  {
    if s == [] then []
    else if OnBoard(s[0]) then [s[0]] + KeepOnBoard(s[1..])
    else KeepOnBoard(s[1..])
  }

  /** reject history.include?: the squares of s not in the history, in
      their original order. */
  function RejectSeen(s: seq<Square>, history: set<Square>): (r: seq<Square>)
    ensures |r| <= |s|
    ensures forall x :: x in r <==> x in s && x !in history
    ensures Distinct(s) ==> Distinct(r)
  {
    if s == [] then []
    else if s[0] in history then RejectSeen(s[1..], history)
    else [s[0]] + RejectSeen(s[1..], history)
  }

  /** NodeMover#next_moves up to the creation of the nodes: the squares a
      knight on p can reach that lie on the board (keep_if valid?) and are
      not in the history yet (reject history.include?). */
  function NextMoves(p: Square, history: set<Square>): (r: seq<Square>)
    ensures |r| <= |Moves| && Distinct(r)
    ensures forall q :: q in r <==> Step(p, q) && q !in history
  {
    DestinationsAreKnightJumps(p);
    RejectSeen(KeepOnBoard(Destinations(p)), history)
  }

  /** The last map of next_moves: one new node per square, each with the
      expanded node as its parent. */
  function Spawn(kids: seq<Square>, parent: nat): (r: seq<Node>)
    ensures |r| == |kids|
    ensures forall k :: 0 <= k < |kids| ==> r[k].pos == kids[k] && r[k].parent == parent
  {
    seq(|kids|, k requires 0 <= k < |kids| => Node(kids[k], parent))
  }
}
