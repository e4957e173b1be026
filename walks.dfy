/** Chains of knight moves over the board: the graph the search explores. */
module Walks {
  import opened Board

  /** w is a chain of squares from a to b in which every square after the
      first is one knight jump away from its predecessor and on the board.
      Its number of moves is |w| - 1. */
  predicate Walk(w: seq<Square>, a: Square, b: Square)
  {
    |w| > 0 && w[0] == a && w[|w| - 1] == b &&
    forall i :: 0 <= i < |w| - 1 ==> Step(w[i], w[i + 1])
  }

  /** w is a walk from a to b and no walk from a to b has fewer squares. */
  ghost predicate Shortest(w: seq<Square>, a: Square, b: Square)
  {
    Walk(w, a, b) && forall v :: Walk(v, a, b) ==> |w| <= |v|
  }

  function Reverse<T>(s: seq<T>): seq<T>
  {
    seq(|s|, i requires 0 <= i < |s| => s[|s| - 1 - i])
  }

  /** Knight jumps go both ways. */
  lemma JumpSymmetric(a: Square, b: Square)
    requires KnightJump(a, b)
    ensures KnightJump(b, a)
  {
  }

  /** Between on-board squares the graph is undirected: a walk read
      backwards is a walk, with the same number of moves. */
  lemma ReverseWalk(w: seq<Square>, a: Square, b: Square)
    requires Walk(w, a, b) && OnBoard(a)
    ensures Walk(Reverse(w), b, a) && |Reverse(w)| == |w|
  {
    var r := Reverse(w);
    forall i | 0 <= i < |r| - 1
      ensures Step(r[i], r[i + 1])
    {
      var j := |w| - 2 - i;
      assert Step(w[j], w[j + 1]);
      assert r[i] == w[j + 1] && r[i + 1] == w[j];
      if j > 0 {
        assert Step(w[j - 1], w[j]);
      }
      JumpSymmetric(w[j], w[j + 1]);
    }
  }

  /** The length of a shortest walk does not depend on the direction: a
      shortest walk read backwards is a shortest walk back. */
  lemma ShortestSymmetric(w: seq<Square>, a: Square, b: Square)
    requires Shortest(w, a, b) && OnBoard(a)
    ensures Shortest(Reverse(w), b, a)
  {
    ReverseWalk(w, a, b);
    forall v | Walk(v, b, a)
      ensures |Reverse(w)| <= |v|
    {
      if |w| > 1 {
        assert Step(w[|w| - 2], w[|w| - 1]);
        ReverseWalk(v, b, a);
      }
    }
  }

  /** A walk from a to b followed by a walk from b to c is a walk from a to c. */
  lemma JoinWalks(u: seq<Square>, v: seq<Square>, a: Square, b: Square, c: Square)
    requires Walk(u, a, b) && Walk(v, b, c)
    ensures Walk(u + v[1..], a, c) && |u + v[1..]| == |u| + |v| - 1
  {
    var w := u + v[1..];
    forall i | 0 <= i < |w| - 1
      ensures Step(w[i], w[i + 1])
    {
      if i < |u| - 1 {
        assert w[i] == u[i] && w[i + 1] == u[i + 1];
      } else {
        var j := i - |u| + 1;
        assert w[i] == v[j] && w[i + 1] == v[j + 1];
      }
    }
  }

  /** The colour of a square on the chequered board. */
  function Colour(p: Square): int
  {
    (p.file + p.rank) % 2
  }

  /** A knight always lands on a square of the other colour, and changes the
      sum of the coordinates by at most 3. */
  lemma JumpChangesColour(a: Square, b: Square)
    requires KnightJump(a, b)
    ensures Colour(a) != Colour(b)
    ensures Abs((b.file + b.rank) - (a.file + a.rank)) <= 3
  {
  }

  /** Lower bounds on the length of every walk: the parity of its number of
      moves is fixed by the colours of its ends, and each move changes the
      sum of the coordinates by at most 3. */
  lemma {:induction false} WalkBounds(w: seq<Square>, a: Square, b: Square)
    requires Walk(w, a, b)
    ensures (Colour(a) == Colour(b)) <==> (|w| - 1) % 2 == 0
    ensures Abs((b.file + b.rank) - (a.file + a.rank)) <= 3 * (|w| - 1)
  {
    if |w| > 1 {
      var prefix := w[..|w| - 1];
      var c := prefix[|prefix| - 1];
      assert Walk(prefix, a, c) by {
        forall i | 0 <= i < |prefix| - 1
          ensures Step(prefix[i], prefix[i + 1])
        {
          assert Step(w[i], w[i + 1]);
        }
      }
      WalkBounds(prefix, a, c);
      assert Step(c, b) by {
        assert Step(w[|w| - 2], w[|w| - 1]);
      }
      JumpChangesColour(c, b);
    }
  }
}
