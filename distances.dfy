/** Knight distances on the board that follow from the colour and the
    coordinate-sum bounds of Walks, for the query the script makes and for
    the longest distance on the board. */
module Distances {
  import opened Board
  import opened Walks

  /** The query of the script (knight_moves([1, 3], [1, 5])): two moves,
      through Square(3, 4), and no shorter chain exists. */
  lemma ScriptQuery()
    ensures Shortest([Square(1, 3), Square(3, 4), Square(1, 5)], Square(1, 3), Square(1, 5))
    ensures forall w :: Shortest(w, Square(1, 3), Square(1, 5)) ==> |w| == 3
  {
    var path := [Square(1, 3), Square(3, 4), Square(1, 5)];
    assert Step(path[0], path[1]) && Step(path[1], path[2]);
    forall v | Walk(v, Square(1, 3), Square(1, 5))
      ensures 3 <= |v|
    {
      WalkBounds(v, Square(1, 3), Square(1, 5));
    }
  }

  /** Corner to opposite corner takes six moves: the sum of the coordinates
      grows by 14, at most 3 per move, and both corners have one colour, so
      the number of moves is even. */
  lemma CornerToCorner()
    ensures Shortest([Square(1, 1), Square(2, 3), Square(3, 5), Square(4, 7), Square(6, 8), Square(7, 6), Square(8, 8)],
                     Square(1, 1), Square(8, 8))
  {
    var path := [Square(1, 1), Square(2, 3), Square(3, 5), Square(4, 7), Square(6, 8), Square(7, 6), Square(8, 8)];
    assert Step(path[0], path[1]) && Step(path[1], path[2]) && Step(path[2], path[3]);
    assert Step(path[3], path[4]) && Step(path[4], path[5]) && Step(path[5], path[6]);
    forall v | Walk(v, Square(1, 1), Square(8, 8))
      ensures 7 <= |v|
    {
      WalkBounds(v, Square(1, 1), Square(8, 8));
    }
  }
}
