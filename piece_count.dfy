/** Counting the pieces of one colour on a point and on the board. */
module PieceCount {
  import opened Types

  /** The number of pieces of `color` on a point. */
  function CountOf(p: Point, color: Color): (n: nat)
    ensures n <= |p|
    ensures n == 0 <==> color !in p
  {
    if |p| == 0 then 0
    else
      assert p == p[..|p| - 1] + [p[|p| - 1]];
      CountOf(p[..|p| - 1], color) + (if p[|p| - 1] == color then 1 else 0)
  }

  /** The number of pieces of `color` standing on any of the points `b`. */
  function OnBoard(b: seq<Point>, color: Color): (n: nat)
    ensures n == 0 <==> forall i :: 0 <= i < |b| ==> color !in b[i]
  {
    if |b| == 0 then 0
    else
      assert forall i :: 0 <= i < |b| - 1 ==> b[..|b| - 1][i] == b[i];
      OnBoard(b[..|b| - 1], color) + CountOf(b[|b| - 1], color)
  }

  /** Adding a piece at the end of a point counts one more of its colour. */
  lemma CountPush(p: Point, x: Color, color: Color)
    ensures CountOf(p + [x], color) == CountOf(p, color) + (if x == color then 1 else 0)
  {
    assert (p + [x])[..|p|] == p;
  }

  /** The point's pieces without the last one. */
  function DropLast(p: Point): (r: Point)
    requires |p| > 0
    ensures p == r + [p[|p| - 1]]
  {
    p[..|p| - 1]
  }

  /** Replacing one point changes the board count by the difference on that point. */
  lemma {:induction false} OnBoardUpdate(b: seq<Point>, i: nat, p: Point, color: Color)
    requires i < |b|
    ensures OnBoard(b[i := p], color) == OnBoard(b, color) - CountOf(b[i], color) + CountOf(p, color)
  {
    var n := |b| - 1;
    var b' := b[i := p];
    assert b'[..n] == if i == n then b[..n] else b[..n][i := p];
    if i < n {
      OnBoardUpdate(b[..n], i, p, color);
    }
  }
}
