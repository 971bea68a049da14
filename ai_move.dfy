/** The AI move route: the summary of one colour's pieces sent to the agent,
    the membership check on the agent's reply, and the route's decision. */
module AiMove {
  import opened Types
  import opened PieceCount
  import opened GameLogic

  /** The candidate moves sent to the agent: origin -> destinations. The
      route keys them by the origin's decimal string, a one-to-one renaming
      of the integer key used here. */
  type MoveMap = map<int, seq<int>>

  /** isValidAIMove: the reply's origin must be a key of the map and its
      destination one of that key's listed destinations. */
  function IsValidAIMove(from: int, to: int, availableMoves: MoveMap): (valid: bool)
    ensures from !in availableMoves ==> !valid
    ensures valid <==> from in availableMoves
                       && exists k :: 0 <= k < |availableMoves[from]| && availableMoves[from][k] == to
  {
    if from !in availableMoves then false
    else
      var validDestinations := availableMoves[from];
      to in validDestinations
  }

  /** The candidate map of a state as the client builds it: each listed
      origin maps to what getPossibleMoves offers from it. */
  ghost predicate OffersOf(s: GameState, availableMoves: MoveMap) {
    forall o :: o in availableMoves ==> availableMoves[o] == PossibleMoves(s, o)
  }

  /** A reply that passes isValidAIMove against the engine's own offers is a
      legal move for the player to move. */
  lemma AcceptedReplyIsLegal(s: GameState, availableMoves: MoveMap, from: int, to: int)
    requires OffersOf(s, availableMoves)
    requires IsValidAIMove(from, to, availableMoves)
    ensures IsValidMove(s, from, to, s.currentPlayer)
    ensures 1 <= to <= NumPoints || to == EngineBearOffPosition(s.currentPlayer)
  {
    PossibleMovesSound(s, from, to);
  }

  /** The route's answer: a chosen move, or an error status. */
  datatype Response = Chosen(from: int, to: int) | Failed(status: int)

  /** POST, with the agent's parsed reply as an input (None when the call
      failed or its answer was not a move): an empty candidate map is
      refused with 400 before the agent is asked; a reply outside the map,
      or no reply, ends in 500. */
  function Respond(availableMoves: MoveMap, reply: Option<(int, int)>): (r: Response)
    ensures |availableMoves| == 0 ==> r == Failed(400)
    ensures r.Chosen? ==> reply == Some((r.from, r.to)) && IsValidAIMove(r.from, r.to, availableMoves)
    ensures |availableMoves| > 0 && reply.Some? && IsValidAIMove(reply.value.0, reply.value.1, availableMoves)
            ==> r.Chosen?
    ensures r.Failed? ==> r.status == 400 || r.status == 500
    ensures |availableMoves| > 0 && r.Failed? ==> r.status == 500
  {
    if |availableMoves.Keys| == 0 then Failed(400)
    else match reply
      case None => Failed(500)
      case Some((from, to)) =>
        if !IsValidAIMove(from, to, availableMoves) then Failed(500) else Chosen(from, to)
  }

  /** describePositions over the first n points: (count, position) for each
      point holding at least one piece of `color`, in position order. */
  function DescribeUpTo(b: seq<Point>, color: Color, n: nat): (r: seq<(nat, int)>)
    requires n <= |b|
    ensures forall k :: 0 <= k < |r| ==> 1 <= r[k].1 <= n
    ensures forall k, l :: 0 <= k < l < |r| ==> r[k].1 < r[l].1
  {
    if n == 0 then []
    else
      var prev := DescribeUpTo(b, color, n - 1);
      var count := CountOf(b[n - 1], color);
      var here := if count > 0 then [(count, n)] else [];
      assert forall k :: 0 <= k < |prev| ==> (prev + here)[k] == prev[k];
      prev + here
  }

  /** Each described entry is a point among the first n and the number of
      pieces of `color` on it, which is never zero. */
  lemma {:induction false} DescribeUpToSound(b: seq<Point>, color: Color, n: nat)
    requires n <= |b|
    ensures forall k :: 0 <= k < |DescribeUpTo(b, color, n)| ==>
              var e := DescribeUpTo(b, color, n)[k];
              1 <= e.1 <= n && e.0 > 0 && e.0 == CountOf(b[e.1 - 1], color)
  {
    if n > 0 {
      DescribeUpToSound(b, color, n - 1);
      var prev := DescribeUpTo(b, color, n - 1);
      var count := CountOf(b[n - 1], color);
      var here := if count > 0 then [(count, n)] else [];
      assert DescribeUpTo(b, color, n) == prev + here;
      assert forall k :: 0 <= k < |prev| ==> (prev + here)[k] == prev[k];
    }
  }

  /** describePositions: the pieces of `color`, point by point, leaving out
      the points where it has none. */
  function DescribePositions(s: GameState, color: Color): (r: seq<(nat, int)>)
    ensures forall k :: 0 <= k < |r| ==>
              1 <= r[k].1 <= NumPoints && r[k].0 > 0 && r[k].0 == CountOf(s.points[r[k].1 - 1], color)
    ensures forall i :: 0 <= i < NumPoints && color in s.points[i] ==> (CountOf(s.points[i], color), i + 1) in r
    ensures forall k, l :: 0 <= k < l < |r| ==> r[k].1 < r[l].1
  {
    DescribeUpToSound(s.points, color, NumPoints);
    DescribeUpToComplete(s.points, color, NumPoints);
    DescribeUpTo(s.points, color, NumPoints)
  }

  /** The description accounts for every piece of `color` on the board. */
  lemma DescribePositionsTotal(s: GameState, color: Color)
    ensures SumCounts(DescribePositions(s, color)) == OnBoard(s.points, color)
  {
    DescribeUpToSums(s.points, color, NumPoints);
    assert s.points[..NumPoints] == s.points;
  }

  /** Every point among the first n that holds `color` is described. */
  lemma {:induction false} DescribeUpToComplete(b: seq<Point>, color: Color, n: nat)
    requires n <= |b|
    ensures forall i :: 0 <= i < n && color in b[i] ==> (CountOf(b[i], color), i + 1) in DescribeUpTo(b, color, n)
  {
    if n > 0 {
      DescribeUpToComplete(b, color, n - 1);
      var prev := DescribeUpTo(b, color, n - 1);
      var count := CountOf(b[n - 1], color);
      var here := if count > 0 then [(count, n)] else [];
      assert DescribeUpTo(b, color, n) == prev + here;
      forall i | 0 <= i < n && color in b[i]
        ensures (CountOf(b[i], color), i + 1) in prev + here
      {
        if i < n - 1 {
          assert (CountOf(b[i], color), i + 1) in prev;
        } else {
          assert (prev + here)[|prev|] == (count, n);
        }
      }
    }
  }

  /** The counts described add up to the colour's pieces on the board. */
  lemma {:induction false} DescribeUpToSums(b: seq<Point>, color: Color, n: nat)
    requires n <= |b|
    ensures SumCounts(DescribeUpTo(b, color, n)) == OnBoard(b[..n], color)
  {
    if n > 0 {
      DescribeUpToSums(b, color, n - 1);
      DescribeUpToSumsStep(b, color, n);
      OnBoardPrefix(b, color, n);
    }
  }

  /** Describing one more point adds that point's count to the sum. */
  lemma DescribeUpToSumsStep(b: seq<Point>, color: Color, n: nat)
    requires 0 < n <= |b|
    ensures SumCounts(DescribeUpTo(b, color, n)) == SumCounts(DescribeUpTo(b, color, n - 1)) + CountOf(b[n - 1], color)
  {
    var count := CountOf(b[n - 1], color);
    var here := if count > 0 then [(count, n)] else [];
    SumCountsAppend(DescribeUpTo(b, color, n - 1), here);
    if count > 0 {
      assert here[..0] == [];
    }
  }

  lemma OnBoardPrefix(b: seq<Point>, color: Color, n: nat)
    requires 0 < n <= |b|
    ensures OnBoard(b[..n], color) == OnBoard(b[..n - 1], color) + CountOf(b[n - 1], color)
  {
    assert b[..n][..n - 1] == b[..n - 1];
  }

  /** The total of the counts in a description. */
  function SumCounts(r: seq<(nat, int)>): nat {
    if r == [] then 0 else SumCounts(r[..|r| - 1]) + r[|r| - 1].0
  }

  lemma {:induction false} SumCountsAppend(a: seq<(nat, int)>, b: seq<(nat, int)>)
    ensures SumCounts(a + b) == SumCounts(a) + SumCounts(b)
  {
    if b != [] {
      assert (a + b)[..|a + b| - 1] == a + b[..|b| - 1];
      SumCountsAppend(a, b[..|b| - 1]);
    } else {
      assert a + b == a;
    }
  }
}
