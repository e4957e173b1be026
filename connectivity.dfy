/** The knight's graph on the 8x8 board is connected: from any square on the
    board a knight reaches any other. This is why the search cannot run out
    of squares when both of its ends are on the board. */
module Connectivity {
  import opened Board
  import opened Walks

  /** The level of p in a breadth-first tree of knight moves rooted at
      Square(1, 1); one line of the table per file, cased on the rank. */
  function CornerLevel(p: Square): nat
    requires OnBoard(p)
  {
    if p.file == 1 then
      (if p.rank == 1 then 0
       else if p.rank == 2 then 3
       else if p.rank == 3 then 2
       else if p.rank == 4 then 3
       else if p.rank == 5 then 2
       else if p.rank == 6 then 3
       else if p.rank == 7 then 4
       else 5)
    else if p.file == 2 then
      (if p.rank == 1 then 3
       else if p.rank == 2 then 4
       else if p.rank == 3 then 1
       else if p.rank == 4 then 2
       else if p.rank == 5 then 3
       else if p.rank == 6 then 4
       else if p.rank == 7 then 3
       else 4)
    else if p.file == 3 then
      (if p.rank == 1 then 2
       else if p.rank == 2 then 1
       else if p.rank == 3 then 4
       else if p.rank == 4 then 3
       else if p.rank == 5 then 2
       else if p.rank == 6 then 3
       else if p.rank == 7 then 4
       else 5)
    else if p.file == 4 then
      (if p.rank == 1 then 3
       else if p.rank == 2 then 2
       else if p.rank == 3 then 3
       else if p.rank == 4 then 2
       else if p.rank == 5 then 3
       else if p.rank == 6 then 4
       else if p.rank == 7 then 3
       else 4)
    else if p.file == 5 then
      (if p.rank == 1 then 2
       else if p.rank == 2 then 3
       else if p.rank == 3 then 2
       else if p.rank == 4 then 3
       else if p.rank == 5 then 4
       else if p.rank == 6 then 3
       else if p.rank == 7 then 4
       else 5)
    else if p.file == 6 then
      (if p.rank == 1 then 3
       else if p.rank == 2 then 4
       else if p.rank == 3 then 3
       else if p.rank == 4 then 4
       else if p.rank == 5 then 3
       else if p.rank == 6 then 4
       else if p.rank == 7 then 5
       else 4)
    else if p.file == 7 then
      (if p.rank == 1 then 4
       else if p.rank == 2 then 3
       else if p.rank == 3 then 4
       else if p.rank == 4 then 3
       else if p.rank == 5 then 4
       else if p.rank == 6 then 5
       else if p.rank == 7 then 4
       else 5)
    else
      (if p.rank == 1 then 5
       else if p.rank == 2 then 4
       else if p.rank == 3 then 5
       else if p.rank == 4 then 4
       else if p.rank == 5 then 5
       else if p.rank == 6 then 4
       else if p.rank == 7 then 5
       else 6)
  }

  /** For every square other than Square(1, 1), a square one knight move
      away whose level is one less; one line of the table per file. */
  function TowardsCorner(p: Square): Square
    requires OnBoard(p)
  {
    if p.file == 1 then
      (if p.rank == 1 then Square(1, 1)
       else if p.rank == 2 then Square(3, 1)
       else if p.rank == 3 then Square(3, 2)
       else if p.rank == 4 then Square(3, 5)
       else if p.rank == 5 then Square(2, 3)
       else if p.rank == 6 then Square(3, 5)
       else if p.rank == 7 then Square(3, 6)
       else Square(2, 6))
    else if p.file == 2 then
      (if p.rank == 1 then Square(4, 2)
       else if p.rank == 2 then Square(4, 3)
       else if p.rank == 3 then Square(1, 1)
       else if p.rank == 4 then Square(3, 2)
       else if p.rank == 5 then Square(4, 4)
       else if p.rank == 6 then Square(4, 7)
       else if p.rank == 7 then Square(3, 5)
       else Square(4, 7))
    else if p.file == 3 then
      (if p.rank == 1 then Square(2, 3)
       else if p.rank == 2 then Square(1, 1)
       else if p.rank == 3 then Square(5, 4)
       else if p.rank == 4 then Square(4, 2)
       else if p.rank == 5 then Square(2, 3)
       else if p.rank == 6 then Square(4, 4)
       else if p.rank == 7 then Square(5, 6)
       else Square(2, 6))
    else if p.file == 4 then
      (if p.rank == 1 then Square(5, 3)
       else if p.rank == 2 then Square(2, 3)
       else if p.rank == 3 then Square(3, 5)
       else if p.rank == 4 then Square(2, 3)
       else if p.rank == 5 then Square(5, 3)
       else if p.rank == 6 then Square(5, 4)
       else if p.rank == 7 then Square(3, 5)
       else Square(5, 6))
    else if p.file == 5 then
      (if p.rank == 1 then Square(3, 2)
       else if p.rank == 2 then Square(3, 1)
       else if p.rank == 3 then Square(3, 2)
       else if p.rank == 4 then Square(3, 5)
       else if p.rank == 5 then Square(4, 7)
       else if p.rank == 6 then Square(3, 5)
       else if p.rank == 7 then Square(6, 5)
       else Square(6, 6))
    else if p.file == 6 then
      (if p.rank == 1 then Square(4, 2)
       else if p.rank == 2 then Square(4, 3)
       else if p.rank == 3 then Square(4, 4)
       else if p.rank == 4 then Square(4, 3)
       else if p.rank == 5 then Square(4, 4)
       else if p.rank == 6 then Square(4, 7)
       else if p.rank == 7 then Square(5, 5)
       else Square(4, 7))
    else if p.file == 7 then
      (if p.rank == 1 then Square(5, 2)
       else if p.rank == 2 then Square(5, 3)
       else if p.rank == 3 then Square(5, 4)
       else if p.rank == 4 then Square(5, 3)
       else if p.rank == 5 then Square(5, 6)
       else if p.rank == 6 then Square(5, 5)
       else if p.rank == 7 then Square(5, 6)
       else Square(6, 6))
    else
      (if p.rank == 1 then Square(6, 2)
       else if p.rank == 2 then Square(6, 3)
       else if p.rank == 3 then Square(6, 4)
       else if p.rank == 4 then Square(6, 5)
       else if p.rank == 5 then Square(6, 6)
       else if p.rank == 6 then Square(6, 5)
       else if p.rank == 7 then Square(6, 8)
       else Square(6, 7))
  }

  /** The two tables agree with the board: each entry is a legal move
      towards the corner, one level down. */
  lemma TowardsCornerStep(p: Square)
    requires OnBoard(p) && p != Square(1, 1)
    ensures OnBoard(TowardsCorner(p)) && Step(TowardsCorner(p), p)
    ensures CornerLevel(TowardsCorner(p)) < CornerLevel(p)
  {
  }

  /** A walk from Square(1, 1) to p, following the table back to the corner. */
  function CornerPath(p: Square): (w: seq<Square>)
    requires OnBoard(p)
    ensures Walk(w, Square(1, 1), p)
    decreases CornerLevel(p)
  {
    if p == Square(1, 1) then [p]
    else
      TowardsCornerStep(p);
      CornerPath(TowardsCorner(p)) + [p]
  }

  /** A walk between any two squares of the board: back to the corner from
      a, then out to b. */
  function Route(a: Square, b: Square): (w: seq<Square>)
    requires OnBoard(a) && OnBoard(b)
    ensures Walk(w, a, b)
  {
    var toA, toB := CornerPath(a), CornerPath(b);
    ReverseWalk(toA, Square(1, 1), a);
    JoinWalks(Reverse(toA), toB, a, Square(1, 1), b);
    Reverse(toA) + toB[1..]
  }
}
