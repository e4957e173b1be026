/** Squares, the board and the knight's offsets (knights_travails.rb, NodeMover). */
module Board {

  /** A square as the search handles it: any pair of integers (file, rank).
      Nothing forces a square onto the board; OnBoard says when it is. */
  datatype Square = Square(file: int, rank: int)

  /** The files and the ranks of the board, 1 to 8. */
  const Coordinates: seq<int> := [1, 2, 3, 4, 5, 6, 7, 8]

  /** NodeMover.valid?: both coordinates lie between 1 and 8 inclusive, that
      is, the square's file and rank are among the eight of the board. */
  predicate OnBoard(p: Square): (b: bool)
    ensures b <==> p.file in Coordinates && p.rank in Coordinates
  {
    1 <= p.file <= 8 && 1 <= p.rank <= 8
  }

  /** NodeMover::MOVES, the eight knight offsets, in the order the source lists them. */
  const Moves: seq<(int, int)> :=
    [(1, 2), (1, -2), (2, 1), (2, -1), (-1, 2), (-1, -2), (-2, 1), (-2, -1)]

  /** The square reached from p by the offset m (the first map of next_moves). */
  function Shift(p: Square, m: (int, int)): Square
  {
    Square(p.file + m.0, p.rank + m.1)
  }

  function Abs(x: int): nat
  {
    if x < 0 then -x else x
  }

  /** A knight jump described geometrically, without the offset list: one
      coordinate changes by 1 and the other by 2. */
  predicate KnightJump(a: Square, b: Square)
  {
    var df, dr := Abs(b.file - a.file), Abs(b.rank - a.rank);
    (df == 1 && dr == 2) || (df == 2 && dr == 1)
  }

  /** An edge of the search graph: b is a knight jump away from a and lies on the board. */
  predicate Step(a: Square, b: Square)
  {
    OnBoard(b) && KnightJump(a, b)
  }

  /** The offset list is exactly the set of knight jumps: every offset is a
      knight jump, and every knight jump is one of the eight offsets. */
  lemma MovesAreKnightJumps(a: Square, b: Square)
    ensures KnightJump(a, b) <==> exists k :: 0 <= k < |Moves| && Shift(a, Moves[k]) == b
  {
    var df, dr := b.file - a.file, b.rank - a.rank;
    if KnightJump(a, b) {
      var k :=
        if df == 1 && dr == 2 then 0
        else if df == 1 && dr == -2 then 1
        else if df == 2 && dr == 1 then 2
        else if df == 2 && dr == -1 then 3
        else if df == -1 && dr == 2 then 4
        else if df == -1 && dr == -2 then 5
        else if df == -2 && dr == 1 then 6
        else 7;
      assert Shift(a, Moves[k]) == b;
    }
  }

  /** A set of squares on one rank whose files lie in 1..n holds at most n squares. */
  lemma {:induction false} RankCard(s: set<Square>, rank: int, n: nat)
    requires forall p :: p in s ==> p.rank == rank && 1 <= p.file <= n
    ensures |s| <= n
  {
    if n > 0 {
      RankCard(s - {Square(n, rank)}, rank, n - 1);
    }
  }

  /** A set of squares on the first m ranks of the board holds at most 8 * m squares. */
  lemma {:induction false} LowerRanksCard(s: set<Square>, m: nat)
    requires forall p :: p in s ==> 1 <= p.file <= 8 && 1 <= p.rank <= m
    ensures |s| <= 8 * m
  {
    if m > 0 {
      var top := set p | p in s && p.rank == m;
      RankCard(top, m, 8);
      LowerRanksCard(s - top, m - 1);
      assert s == (s - top) + top;
    }
  }

  /** The board has 64 squares: a set of squares that valid? accepts holds at most 64. */
  lemma OnBoardCard(s: set<Square>)
    requires forall p :: p in s ==> OnBoard(p)
    ensures |s| <= 64
  {
    LowerRanksCard(s, 8);
  }
}
