/** The rules engine: bear-off eligibility, move legality, the destinations
    offered for one origin, applying a move and the winner check. */
module GameLogic {
  import opened Types
  import opened PieceCount

  // ---------------------------------------------------------------------
  // Home board and bear-off eligibility

  /** White's home board is points 1-6, black's 19-24. (White nevertheless
      moves towards 24 and enters from the bar at 19-24, see IsValidMove.) */
  predicate IsInHomeBoard(position: int, color: Color): (inHome: bool)
    ensures inHome ==> 1 <= position <= NumPoints
    ensures inHome ==> (position <= 6 <==> color == White)
    ensures color == White ==> (inHome <==> 1 <= position <= 6)
    ensures color == Black ==> (inHome <==> 19 <= position <= 24)
  {
    if color == White then 1 <= position <= 6 else 19 <= position <= 24
  }

  /** What canBearOff decides: no point holding a piece of `color` lies
      outside that colour's home board, and none of its pieces is on the bar. */
  predicate BearOffAllowed(s: GameState, color: Color) {
    && (forall i :: 0 <= i < NumPoints && color in s.points[i] ==> IsInHomeBoard(i + 1, color))
    && s.bar.Get(color) == 0
  }

  /** canBearOff: scans the points and stops at the first one that holds a
      piece of `color` outside its home board. */
  method CanBearOff(s: GameState, color: Color) returns (ok: bool)
    ensures ok <==> BearOffAllowed(s, color)
  {
    for i := 0 to NumPoints
      invariant forall j :: 0 <= j < i && color in s.points[j] ==> IsInHomeBoard(j + 1, color)
    {
      if color in s.points[i] && !IsInHomeBoard(i + 1, color) {
        return false;
      }
    }
    return s.bar.Get(color) == 0;
  }

  // ---------------------------------------------------------------------
  // Pieces of arithmetic shared by the rules

  function Abs(x: int): nat {
    if x < 0 then -x else x
  }

  function Max(a: int, b: int): int {
    if a < b then b else a
  }

  function Min(a: int, b: int): int {
    if a < b then a else b
  }

  /** The entry point of a piece coming in from the bar to `to`, counted from
      the entering side: white counts 25 - to, black counts to. */
  function EntryPoint(to: int, color: Color): int {
    if color == White then 25 - to else to
  }

  /** The pip distance of a move; the bar counts as 25 for white and 0 for black. */
  function MoveDistance(from: int, to: int, color: Color): nat {
    Abs(if color == White then (if from == -1 then 25 - to else from - to)
        else (if from == -1 then to else to - from))
  }

  /** Both 0 and 25 are read as "bear off", whatever the colour. */
  predicate IsBearOffTarget(to: int) {
    to == 0 || to == 25
  }

  /** The die that bears a piece off from `from` exactly. */
  function ExactBearOffDie(from: int, color: Color): int {
    if color == White then from else 25 - from
  }

  /** A point is closed to `color` when it holds two or more pieces and its
      first piece is of another colour. */
  predicate Blocked(p: Point, color: Color) {
    |p| > 1 && p[0] != color
  }

  /** The direction rule: white may not lower its position, black may not raise it. */
  predicate NotBackward(from: int, to: int, color: Color) {
    if color == White then from <= to else to <= from
  }

  /** The index of the first die larger than `x` (what `find(d => d > x)`
      returns), or -1 when there is none. */
  function FirstGreater(xs: seq<int>, x: int): (k: int)
    ensures -1 <= k < |xs|
    ensures k == -1 <==> forall j :: 0 <= j < |xs| ==> xs[j] <= x
    ensures k >= 0 ==> xs[k] > x && forall j :: 0 <= j < k ==> xs[j] <= x
  {
    if |xs| == 0 then -1
    else if xs[0] > x then 0
    else
      var k := FirstGreater(xs[1..], x);
      if k == -1 then -1 else k + 1
  }

  /** `Math.max` over the first n points of (i + 1 when point i holds
      `color`, else 0): the highest position holding `color`, or 0. */
  function HighestHolding(b: seq<Point>, color: Color, n: nat): (r: int)
    requires n <= |b|
    ensures 0 <= r <= n
    ensures r > 0 ==> color in b[r - 1]
    ensures forall i :: 0 <= i < n && color in b[i] ==> i + 1 <= r
  {
    if n == 0 then 0
    else Max(HighestHolding(b, color, n - 1), if color in b[n - 1] then n else 0)
  }

  /** `Math.min` over the first n points of (i + 1 when point i holds
      `color`, else 25): the lowest position holding `color`, or 25. */
  function LowestHolding(b: seq<Point>, color: Color, n: nat): (r: int)
    requires n <= |b| && n <= NumPoints
    ensures 1 <= r <= 25
    ensures r < 25 ==> r <= n && color in b[r - 1]
    ensures forall i :: 0 <= i < n && color in b[i] ==> r <= i + 1
  {
    if n == 0 then 25
    else Min(LowestHolding(b, color, n - 1), if color in b[n - 1] then n else 25)
  }

  /** Some piece of `color` stands farther from home than `from`: for white
      a higher position, for black a lower one. */
  predicate PieceFartherThan(s: GameState, from: int, color: Color) {
    if color == White then HighestHolding(s.points, color, NumPoints) > from
    else LowestHolding(s.points, color, NumPoints) < from
  }

  /** A die larger than the exact one is found and is usable: the source
      tests the found value for truthiness, so a die of 0 does not count. */
  predicate LargerDieFound(available: seq<int>, exact: int) {
    var k := FirstGreater(available, exact);
    k >= 0 && available[k] != 0
  }

  /** The bear-off rule: eligibility, and either the exact die or a larger
      one with no piece farther from home. */
  predicate BearOffValid(s: GameState, from: int, color: Color) {
    var exact := ExactBearOffDie(from, color);
    && BearOffAllowed(s, color)
    && (exact in s.dice.available
        || (LargerDieFound(s.dice.available, exact) && !PieceFartherThan(s, from, color)))
  }

  // ---------------------------------------------------------------------
  // isValidMove

  /** isValidMove: the seven rules, checked in the source's order. */
  function IsValidMove(s: GameState, from: int, to: int, color: Color): (legal: bool)
    // 1 and 2: with pieces on the bar only the bar is an origin, and the
    // entry point must lie in 1..6
    ensures legal && s.bar.Get(color) > 0 ==> from == -1 && 1 <= EntryPoint(to, color) <= 6
    // 4: no destination outside 1..24 other than the two bear-off targets
    ensures legal ==> 0 <= to <= 25
    // 3: bearing off needs eligibility and the exact die, or a larger die
    // with no piece farther from home
    ensures legal && IsBearOffTarget(to) ==>
              && BearOffAllowed(s, color)
              && (ExactBearOffDie(from, color) in s.dice.available
                  || (LargerDieFound(s.dice.available, ExactBearOffDie(from, color))
                      && !PieceFartherThan(s, from, color)))
    // 5: no backward move from a point
    ensures legal && 1 <= to <= NumPoints && from != -1 ==> NotBackward(from, to, color)
    // 6 and 7: the destination is not closed, and the distance is a die left
    ensures legal && 1 <= to <= NumPoints ==>
              && !Blocked(s.points[to - 1], color)
              && MoveDistance(from, to, color) in s.dice.available
  {
    if s.bar.Get(color) > 0 && (from != -1 || EntryPoint(to, color) < 1 || EntryPoint(to, color) > 6) then
      false
    else if to < 1 || to > 24 then
      if to == 25 || to == 0 then BearOffValid(s, from, color) else false
    else if from != -1 && ((color == White && to < from) || (color == Black && to > from)) then
      false
    else if Blocked(s.points[to - 1], color) then
      false
    else
      MoveDistance(from, to, color) in s.dice.available
  }

  /** The converse for a move onto the board: once the bar rule is met, the
      direction, the destination and the distance decide alone. */
  lemma OrdinaryMoveLegal(s: GameState, from: int, to: int, color: Color)
    requires 1 <= to <= NumPoints
    requires s.bar.Get(color) == 0 || (from == -1 && 1 <= EntryPoint(to, color) <= 6)
    ensures IsValidMove(s, from, to, color) <==>
              && (from == -1 || NotBackward(from, to, color))
              && !Blocked(s.points[to - 1], color)
              && MoveDistance(from, to, color) in s.dice.available
  {
  }

  /** The converse for bearing off: with an empty bar, the bear-off rule decides alone. */
  lemma BearOffLegal(s: GameState, from: int, to: int, color: Color)
    requires IsBearOffTarget(to)
    requires s.bar.Get(color) == 0
    ensures IsValidMove(s, from, to, color) <==> BearOffValid(s, from, color)
  {
  }

  /** A bar entry lands on 19..24 for white and 1..6 for black; white's entry
      points thus lie outside white's home board. */
  lemma BarEntryRange(s: GameState, from: int, to: int, color: Color)
    requires s.bar.Get(color) > 0
    requires IsValidMove(s, from, to, color)
    ensures from == -1
    ensures color == White ==> 19 <= to <= 24 && !IsInHomeBoard(to, White)
    ensures color == Black ==> 1 <= to <= 6
  {
  }

  /** Bearing off with a die larger than needed: every piece of the colour
      stands on `from` or nearer home. */
  lemma {:induction false} LargerDieBearOff(s: GameState, from: int, to: int, color: Color, i: int)
    requires IsBearOffTarget(to)
    requires IsValidMove(s, from, to, color)
    requires ExactBearOffDie(from, color) !in s.dice.available
    requires 0 <= i < NumPoints && color in s.points[i]
    ensures color == White ==> i + 1 <= from
    ensures color == Black ==> from <= i + 1
    ensures exists d :: d in s.dice.available && d > ExactBearOffDie(from, color)
  {
    var k := FirstGreater(s.dice.available, ExactBearOffDie(from, color));
    assert s.dice.available[k] in s.dice.available;
  }

  // ---------------------------------------------------------------------
  // getPossibleMoves

  /** The bar entries probed for each colour, in the source's order. */
  function EntryPoints(color: Color): seq<int> {
    if color == White then [19, 20, 21, 22, 23, 24] else [6, 5, 4, 3, 2, 1]
  }

  /** The positions 1..24 in ascending order. */
  function BoardPositions(): (r: seq<int>)
    ensures |r| == NumPoints
    ensures forall i :: 0 <= i < NumPoints ==> r[i] == i + 1
  {
    seq(NumPoints, i => i + 1)
  }

  /** The bear-off destination the engine offers: 0 for white, 25 for black. */
  function EngineBearOffPosition(color: Color): int {
    if color == White then 0 else 25
  }

  /** The candidates, in order, that isValidMove accepts from `from`. */
  function LegalAmong(s: GameState, from: int, color: Color, candidates: seq<int>): (r: seq<int>)
    ensures |r| <= |candidates|
    ensures forall t :: t in r <==> t in candidates && IsValidMove(s, from, t, color)
    decreases |candidates|
  {
    if candidates == [] then []
    else
      var last := candidates[|candidates| - 1];
      var init := candidates[..|candidates| - 1];
      assert candidates == init + [last];
      LegalAmong(s, from, color, init) + (if IsValidMove(s, from, last, color) then [last] else [])
  }

  /** One more candidate probed: it is appended exactly when it is legal. */
  lemma LegalAmongStep(s: GameState, from: int, color: Color, candidates: seq<int>, k: nat)
    requires k < |candidates|
    ensures LegalAmong(s, from, color, candidates[..k + 1])
            == LegalAmong(s, from, color, candidates[..k])
               + (if IsValidMove(s, from, candidates[k], color) then [candidates[k]] else [])
  {
    assert candidates[..k + 1][..k] == candidates[..k];
  }

  /** The destinations getPossibleMoves offers the current player from
      `position`: the bar entries when the bar is not empty, otherwise the
      points 1..24 and then the engine's bear-off position. */
  function PossibleMoves(s: GameState, position: int): (moves: seq<int>)
    ensures s.bar.Get(s.currentPlayer) > 0 ==> |moves| <= |EntryPoints(s.currentPlayer)|
    ensures |moves| <= NumPoints + 1
  {
    var color := s.currentPlayer;
    if s.bar.Get(color) > 0 then
      if position != -1 then [] else LegalAmong(s, -1, color, EntryPoints(color))
    else
      var target := EngineBearOffPosition(color);
      LegalAmong(s, position, color, BoardPositions())
      + (if BearOffAllowed(s, color) && IsValidMove(s, position, target, color) then [target] else [])
  }

  /** getPossibleMoves: probes the candidates one by one and collects the legal ones. */
  method GetPossibleMoves(s: GameState, position: int) returns (moves: seq<int>)
    ensures moves == PossibleMoves(s, position)
  {
    var color := s.currentPlayer;
    moves := [];
    if s.bar.Get(color) > 0 {
      if position != -1 {
        return [];
      }
      var entryPoints := EntryPoints(color);
      for k := 0 to |entryPoints|
        invariant moves == LegalAmong(s, -1, color, entryPoints[..k])
      {
        LegalAmongStep(s, -1, color, entryPoints, k);
        if IsValidMove(s, -1, entryPoints[k], color) {
          moves := moves + [entryPoints[k]];
        }
      }
      assert entryPoints[..|entryPoints|] == entryPoints;
      return;
    }
    for i := 0 to NumPoints
      invariant moves == LegalAmong(s, position, color, BoardPositions()[..i])
    {
      LegalAmongStep(s, position, color, BoardPositions(), i);
      var targetPosition := i + 1;
      if IsValidMove(s, position, targetPosition, color) {
        moves := moves + [targetPosition];
      }
    }
    assert BoardPositions()[..NumPoints] == BoardPositions();
    var bearOff := CanBearOff(s, color);
    if bearOff {
      var bearOffPosition := EngineBearOffPosition(color);
      if IsValidMove(s, position, bearOffPosition, color) {
        moves := moves + [bearOffPosition];
      }
    }
  }

  /** With pieces on the bar, every origin other than the bar gets nothing. */
  lemma PossibleMovesBarFirst(s: GameState, position: int)
    requires s.bar.Get(s.currentPlayer) > 0 && position != -1
    ensures PossibleMoves(s, position) == []
  {
  }

  /** Every destination offered is legal for the current player, and is a
      point or the engine's bear-off position. */
  lemma PossibleMovesSound(s: GameState, position: int, t: int)
    requires t in PossibleMoves(s, position)
    ensures IsValidMove(s, position, t, s.currentPlayer)
    ensures 1 <= t <= NumPoints || t == EngineBearOffPosition(s.currentPlayer)
  {
  }

  /** Every legal point, and the engine's bear-off position when legal, is offered. */
  lemma PossibleMovesComplete(s: GameState, position: int, t: int)
    requires s.bar.Get(s.currentPlayer) == 0 || position == -1
    requires 1 <= t <= NumPoints || t == EngineBearOffPosition(s.currentPlayer)
    requires IsValidMove(s, position, t, s.currentPlayer)
    ensures t in PossibleMoves(s, position)
  {
    var color := s.currentPlayer;
    if s.bar.Get(color) > 0 {
      assert t in EntryPoints(color);
    } else if 1 <= t <= NumPoints {
      assert BoardPositions()[t - 1] == t;
    }
  }

  /** A piece of the mover outside its home board rules out every bear-off destination. */
  lemma NoBearOffWhileOutsideHome(s: GameState, position: int, i: int, t: int)
    requires 0 <= i < NumPoints
    requires s.currentPlayer in s.points[i] && !IsInHomeBoard(i + 1, s.currentPlayer)
    requires t in PossibleMoves(s, position)
    ensures 1 <= t <= NumPoints
  {
    PossibleMovesSound(s, position, t);
  }

  // ---------------------------------------------------------------------
  // makeMove

  /** Array.prototype.pop on a point: drops the last piece, if any. */
  function Pop(p: Point): Point {
    if |p| == 0 then p else DropLast(p)
  }

  /** Array.prototype.indexOf: the first index holding `x`, or -1. */
  function IndexOf(xs: seq<int>, x: int): (k: int)
    ensures -1 <= k < |xs|
    ensures k == -1 <==> x !in xs
    ensures k >= 0 ==> xs[k] == x && forall j :: 0 <= j < k ==> xs[j] != x
  {
    if |xs| == 0 then -1
    else if xs[0] == x then 0
    else
      var k := IndexOf(xs[1..], x);
      assert xs == [xs[0]] + xs[1..];
      if k == -1 then -1 else k + 1
  }

  /** Array.prototype.splice(k, 1) for k in -1..|xs|-1: a start of -1 counts
      from the end, so it removes the last element (nothing from an empty array). */
  function SpliceOne(xs: seq<int>, k: int): (r: seq<int>)
    requires -1 <= k < |xs|
    ensures |r| == if xs == [] then 0 else |xs| - 1
    ensures k >= 0 ==> multiset(r) == multiset(xs) - multiset{xs[k]}
    ensures k == -1 && xs != [] ==> xs == r + [xs[|xs| - 1]]
  {
    if k >= 0 then
      assert xs == xs[..k] + [xs[k]] + xs[k + 1..];
      xs[..k] + xs[k + 1..]
    else if |xs| == 0 then xs
    else xs[..|xs| - 1]
  }

  /** The dice left after a move of `distance` pips: one die of that value
      when there is one; otherwise indexOf gives -1 and the last die goes. */
  function UseDie(available: seq<int>, distance: int): (r: seq<int>)
    ensures distance in available ==> multiset(r) == multiset(available) - multiset{distance}
    ensures distance !in available ==> r == (if available == [] then [] else available[..|available| - 1])
    ensures |r| == if available == [] then 0 else |available| - 1
  {
    SpliceOne(available, IndexOf(available, distance))
  }

  /** Step 1 of makeMove: the piece leaves the bar or the top of its point. */
  function LeaveOrigin(s: GameState, m: Move): (r: GameState)
    requires m.from == -1 || 1 <= m.from <= NumPoints
    ensures r.dice == s.dice && r.currentPlayer == s.currentPlayer && r.home == s.home
    ensures r.winner == s.winner && r.selectedPoint == s.selectedPoint && r.possibleMoves == s.possibleMoves
  {
    if m.from == -1 then s.(bar := s.bar.Add(m.color, -1))
    else s.(points := s.points[m.from - 1 := Pop(s.points[m.from - 1])])
  }

  /** Step 2 of makeMove: bear off into home, or land on the destination,
      first sending a lone piece of another colour to its bar. */
  function Arrive(s: GameState, m: Move): (r: GameState)
    requires 0 <= m.to <= 25
    ensures r.dice == s.dice && r.currentPlayer == s.currentPlayer
    ensures !IsBearOffTarget(m.to) ==> r.home == s.home
    ensures r.winner == s.winner && r.selectedPoint == s.selectedPoint && r.possibleMoves == s.possibleMoves
  {
    if IsBearOffTarget(m.to) then s.(home := s.home.Add(m.color, 1))
    else
      var p := s.points[m.to - 1];
      if |p| == 1 && p[0] != m.color then
        s.(points := s.points[m.to - 1 := [m.color]], bar := s.bar.Add(m.color.Opponent(), 1))
      else
        s.(points := s.points[m.to - 1 := p + [m.color]])
  }

  /** Steps 3 and 4 of makeMove: one die goes, and with no dice left the
      turn passes to the mover's opponent. */
  function ConsumeDie(s: GameState, m: Move): (r: GameState)
    ensures r.points == s.points && r.bar == s.bar && r.home == s.home
    ensures r.dice.values == s.dice.values && r.winner == s.winner
    ensures r.selectedPoint == s.selectedPoint && r.possibleMoves == s.possibleMoves
    ensures r.dice.available == UseDie(s.dice.available, MoveDistance(m.from, m.to, m.color))
    ensures r.dice.available == [] ==> r.currentPlayer == m.color.Opponent() && r.gamePhase == Rolling
    ensures r.dice.available != [] ==> r.currentPlayer == s.currentPlayer && r.gamePhase == s.gamePhase
  {
    var available := UseDie(s.dice.available, MoveDistance(m.from, m.to, m.color));
    var s' := s.(dice := s.dice.(available := available));
    if available == [] then s'.(currentPlayer := m.color.Opponent(), gamePhase := Rolling) else s'
  }

  /** The state makeMove returns. */
  function AfterMove(s: GameState, m: Move): (r: GameState)
    requires m.from == -1 || 1 <= m.from <= NumPoints
    requires 0 <= m.to <= 25
    ensures r.dice.values == s.dice.values && r.winner == s.winner
    ensures r.selectedPoint == s.selectedPoint && r.possibleMoves == s.possibleMoves
    ensures r.currentPlayer == s.currentPlayer || r.currentPlayer == m.color.Opponent()
  {
    ConsumeDie(Arrive(LeaveOrigin(s, m), m), m)
  }

  /** makeMove: updates a copy of the state step by step. */
  method MakeMove(s: GameState, m: Move) returns (r: GameState)
    requires m.from == -1 || 1 <= m.from <= NumPoints
    requires 0 <= m.to <= 25
    ensures r == AfterMove(s, m)
  {
    r := s;
    var color := m.color;
    if m.from == -1 {
      r := r.(bar := r.bar.Add(color, -1));
    } else {
      r := r.(points := r.points[m.from - 1 := Pop(r.points[m.from - 1])]);
    }
    assert r == LeaveOrigin(s, m);
    ghost var left := r;
    if m.to == 0 || m.to == 25 {
      r := r.(home := r.home.Add(color, 1));
    } else {
      var toPoint := r.points[m.to - 1];
      if |toPoint| == 1 && toPoint[0] != color {
        // hit a lone piece of the other colour
        toPoint := [];
        r := r.(bar := r.bar.Add(color.Opponent(), 1));
      }
      toPoint := toPoint + [color];
      r := r.(points := r.points[m.to - 1 := toPoint]);
      assert toPoint == Arrive(left, m).points[m.to - 1];
    }
    assert r == Arrive(left, m);
    var distance := MoveDistance(m.from, m.to, color);
    var dieIndex := IndexOf(r.dice.available, distance);
    r := r.(dice := r.dice.(available := SpliceOne(r.dice.available, dieIndex)));
    if |r.dice.available| == 0 {
      r := r.(currentPlayer := color.Opponent(), gamePhase := Rolling);
    }
  }

  /** The piece leaves its origin: the mover's bar loses one, or the
      origin point loses its last piece; no other point changes. */
  lemma LeaveOriginTakesPiece(s: GameState, m: Move, i: int)
    requires m.from == -1 || 1 <= m.from <= NumPoints
    requires 0 <= i < NumPoints
    ensures i != m.from - 1 ==> LeaveOrigin(s, m).points[i] == s.points[i]
    ensures 1 <= m.from <= NumPoints && |s.points[m.from - 1]| > 0 ==>
              LeaveOrigin(s, m).points[m.from - 1] == DropLast(s.points[m.from - 1])
    ensures LeaveOrigin(s, m).bar.Get(m.color) == s.bar.Get(m.color) - (if m.from == -1 then 1 else 0)
  {
  }

  /** The piece arrives: an ordinary landing adds the mover's piece at the
      end of the destination; no other point changes, nor the mover's bar. */
  lemma ArrivePlacesPiece(s: GameState, m: Move, i: int)
    requires 0 <= m.to <= 25
    requires 0 <= i < NumPoints
    ensures i != m.to - 1 ==> Arrive(s, m).points[i] == s.points[i]
    ensures 1 <= m.to <= NumPoints && !(|s.points[m.to - 1]| == 1 && s.points[m.to - 1][0] != m.color) ==>
              Arrive(s, m).points[m.to - 1] == s.points[m.to - 1] + [m.color]
    ensures Arrive(s, m).bar.Get(m.color) == s.bar.Get(m.color)
  {
  }

  /** makeMove moves the piece: the mover's bar loses one when it enters
      from the bar, the origin point loses its last piece, an ordinary
      landing adds the mover's piece at the end of the destination, and
      every other point stays as it was. */
  lemma MakeMoveMovesPiece(s: GameState, m: Move, i: int)
    requires m.from == -1 || 1 <= m.from <= NumPoints
    requires 0 <= m.to <= 25
    requires 0 <= i < NumPoints
    ensures i != m.from - 1 && i != m.to - 1 ==> AfterMove(s, m).points[i] == s.points[i]
    ensures 1 <= m.from <= NumPoints && m.from != m.to && |s.points[m.from - 1]| > 0 ==>
              AfterMove(s, m).points[m.from - 1] == DropLast(s.points[m.from - 1])
    ensures 1 <= m.to <= NumPoints && m.from != m.to
            && !(|s.points[m.to - 1]| == 1 && s.points[m.to - 1][0] != m.color) ==>
              AfterMove(s, m).points[m.to - 1] == s.points[m.to - 1] + [m.color]
    ensures AfterMove(s, m).bar.Get(m.color) == s.bar.Get(m.color) - (if m.from == -1 then 1 else 0)
  {
    var s1 := LeaveOrigin(s, m);
    var s2 := Arrive(s1, m);
    assert AfterMove(s, m).points == s2.points && AfterMove(s, m).bar == s2.bar;
    LeaveOriginTakesPiece(s, m, i);
    ArrivePlacesPiece(s1, m, i);
    if 1 <= m.from <= NumPoints {
      LeaveOriginTakesPiece(s, m, m.from - 1);
      ArrivePlacesPiece(s1, m, m.from - 1);
    }
    if 1 <= m.to <= NumPoints {
      LeaveOriginTakesPiece(s, m, m.to - 1);
    }
  }

  /** makeMove uses up exactly one die: one equal to the distance when there
      is one, otherwise the last; the rolled values stay as they were. */
  lemma MakeMoveUsesOneDie(s: GameState, m: Move)
    requires m.from == -1 || 1 <= m.from <= NumPoints
    requires 0 <= m.to <= 25
    requires s.dice.available != []
    ensures AfterMove(s, m).dice.values == s.dice.values
    ensures |AfterMove(s, m).dice.available| == |s.dice.available| - 1
    ensures MoveDistance(m.from, m.to, m.color) in s.dice.available ==>
              multiset(AfterMove(s, m).dice.available)
              == multiset(s.dice.available) - multiset{MoveDistance(m.from, m.to, m.color)}
  {
    var arrived := Arrive(LeaveOrigin(s, m), m);
    assert arrived.dice == s.dice;
    assert AfterMove(s, m).dice
           == s.dice.(available := UseDie(s.dice.available, MoveDistance(m.from, m.to, m.color)));
  }

  /** Landing on a lone piece of the other colour sends it to its bar and
      leaves the mover's piece alone on the point. */
  lemma MakeMoveHits(s: GameState, m: Move)
    requires m.from == -1 || 1 <= m.from <= NumPoints
    requires 1 <= m.to <= NumPoints && m.from != m.to
    requires |s.points[m.to - 1]| == 1 && s.points[m.to - 1][0] != m.color
    ensures AfterMove(s, m).points[m.to - 1] == [m.color]
    ensures AfterMove(s, m).bar.Get(m.color.Opponent()) == s.bar.Get(m.color.Opponent()) + 1
  {
    var s1 := LeaveOrigin(s, m);
    assert s1.points[m.to - 1] == s.points[m.to - 1];
    assert s1.bar.Get(m.color.Opponent()) == s.bar.Get(m.color.Opponent());
    var s2 := Arrive(s1, m);
    assert s2.points[m.to - 1] == [m.color];
    assert s2.bar.Get(m.color.Opponent()) == s.bar.Get(m.color.Opponent()) + 1;
  }

  /** Bearing off adds one to the mover's home, leaves the other home alone
      and puts no piece on any point. */
  lemma MakeMoveBearsOff(s: GameState, m: Move)
    requires m.from == -1 || 1 <= m.from <= NumPoints
    requires IsBearOffTarget(m.to)
    ensures AfterMove(s, m).home.Get(m.color) == s.home.Get(m.color) + 1
    ensures AfterMove(s, m).home.Get(m.color.Opponent()) == s.home.Get(m.color.Opponent())
    ensures forall i :: 0 <= i < NumPoints ==> |AfterMove(s, m).points[i]| <= |s.points[i]|
  {
  }

  /** The turn passes (to the opponent of the mover, phase rolling) exactly
      when the last die is used; otherwise player and phase stay. */
  lemma MakeMoveEndsTurn(s: GameState, m: Move)
    requires m.from == -1 || 1 <= m.from <= NumPoints
    requires 0 <= m.to <= 25
    ensures var r := AfterMove(s, m);
      if r.dice.available == [] then r.currentPlayer == m.color.Opponent() && r.gamePhase == Rolling
      else r.currentPlayer == s.currentPlayer && r.gamePhase == s.gamePhase
  {
  }

  // ---------------------------------------------------------------------
  // Conservation of pieces

  /** Pieces of `color` on the points, on the bar and at home. */
  function Total(s: GameState, color: Color): int {
    OnBoard(s.points, color) + s.bar.Get(color) + s.home.Get(color)
  }

  /** The moving piece comes from where the move says: the bar, or the top of a point. */
  predicate PieceAtOrigin(s: GameState, m: Move) {
    || m.from == -1
    || (1 <= m.from <= NumPoints && |s.points[m.from - 1]| > 0
        && s.points[m.from - 1][|s.points[m.from - 1]| - 1] == m.color)
  }

  lemma {:induction false} LeaveOriginCounts(s: GameState, m: Move, c: Color)
    requires PieceAtOrigin(s, m)
    ensures Total(LeaveOrigin(s, m), c) == Total(s, c) - (if c == m.color then 1 else 0)
  {
    if m.from != -1 {
      var p := s.points[m.from - 1];
      CountPush(DropLast(p), p[|p| - 1], c);
      OnBoardUpdate(s.points, m.from - 1, Pop(p), c);
    }
  }

  lemma {:induction false} ArriveCounts(s: GameState, m: Move, c: Color)
    requires 0 <= m.to <= 25
    ensures Total(Arrive(s, m), c) == Total(s, c) + (if c == m.color then 1 else 0)
  {
    if !IsBearOffTarget(m.to) {
      var i := m.to - 1;
      var p := s.points[i];
      var a := Arrive(s, m);
      if |p| == 1 && p[0] != m.color {
        assert a.points == s.points[i := [m.color]] && a.home == s.home;
        assert a.bar == s.bar.Add(m.color.Opponent(), 1);
        LoneCount(p, c);
        CountPush([], m.color, c);
        OnBoardUpdate(s.points, i, [m.color], c);
      } else {
        assert a.points == s.points[i := p + [m.color]] && a.home == s.home && a.bar == s.bar;
        CountPush(p, m.color, c);
        OnBoardUpdate(s.points, i, p + [m.color], c);
      }
    }
  }

  /** A point with one piece counts one of that piece's colour. */
  lemma LoneCount(p: Point, c: Color)
    requires |p| == 1
    ensures CountOf(p, c) == if p[0] == c then 1 else 0
  {
    assert p == [] + [p[0]];
    CountPush([], p[0], c);
  }

  /** makeMove keeps each colour's pieces on the points, the bar and at
      home, as long as the piece it moves is the mover's. */
  lemma MakeMoveConservesPieces(s: GameState, m: Move, c: Color)
    requires 0 <= m.to <= 25
    requires PieceAtOrigin(s, m)
    ensures Total(AfterMove(s, m), c) == Total(s, c)
  {
    LeaveOriginCounts(s, m, c);
    ArriveCounts(LeaveOrigin(s, m), m, c);
  }

  // ---------------------------------------------------------------------
  // checkWinner

  /** checkWinner: white wins with 15 pieces home, else black with 15, else nobody. */
  function CheckWinner(s: GameState): (winner: Option<Color>)
    ensures winner == Some(White) <==> s.home.white == PiecesPerColor
    ensures winner == Some(Black) <==> s.home.black == PiecesPerColor && s.home.white != PiecesPerColor
    ensures winner == None <==> s.home.white != PiecesPerColor && s.home.black != PiecesPerColor
  {
    if s.home.white == 15 then Some(White)
    else if s.home.black == 15 then Some(Black)
    else None
  }

  // ---------------------------------------------------------------------
  // The state invariant

  /** Every piece on a point has the colour of its first piece. */
  predicate SingleColored(p: Point) {
    forall k :: 0 <= k < |p| ==> p[k] == p[0]
  }

  /** No point mixes colours. */
  predicate AllSingleColored(b: Track) {
    forall i :: 0 <= i < NumPoints ==> SingleColored(b[i])
  }

  /** Fifteen pieces per colour, no mixed point, no negative counter. */
  predicate WellFormed(s: GameState) {
    && Total(s, White) == PiecesPerColor
    && Total(s, Black) == PiecesPerColor
    && AllSingleColored(s.points)
    && s.bar.white >= 0 && s.bar.black >= 0
    && s.home.white >= 0 && s.home.black >= 0
  }

  /** Where a player may move from: the bar when it holds one of their
      pieces, or a point whose first piece is theirs. */
  predicate OriginHolds(s: GameState, from: int, color: Color) {
    || (from == -1 && s.bar.Get(color) > 0)
    || (1 <= from <= NumPoints && |s.points[from - 1]| > 0 && s.points[from - 1][0] == color)
  }

  lemma LeaveOriginKeepsSingleColored(s: GameState, m: Move)
    requires AllSingleColored(s.points)
    requires OriginHolds(s, m.from, m.color)
    ensures PieceAtOrigin(s, m)
    ensures AllSingleColored(LeaveOrigin(s, m).points)
    ensures m.from != -1 && |LeaveOrigin(s, m).points[m.from - 1]| > 0 ==>
              LeaveOrigin(s, m).points[m.from - 1][0] == m.color
  {
    if m.from != -1 {
      var p := s.points[m.from - 1];
      assert SingleColored(p);
      assert forall k :: 0 <= k < |Pop(p)| ==> Pop(p)[k] == p[k];
    }
  }

  /** Taking the moving piece off its origin does not block its destination. */
  lemma LeaveOriginKeepsUnblocked(s: GameState, m: Move)
    requires AllSingleColored(s.points)
    requires OriginHolds(s, m.from, m.color)
    requires 1 <= m.to <= NumPoints && !Blocked(s.points[m.to - 1], m.color)
    ensures !Blocked(LeaveOrigin(s, m).points[m.to - 1], m.color)
  {
    LeaveOriginKeepsSingleColored(s, m);
  }

  lemma ArriveKeepsSingleColored(s: GameState, m: Move)
    requires 0 <= m.to <= 25
    requires AllSingleColored(s.points)
    requires 1 <= m.to <= NumPoints ==> !Blocked(s.points[m.to - 1], m.color)
    ensures AllSingleColored(Arrive(s, m).points)
  {
    if !IsBearOffTarget(m.to) {
      var p := s.points[m.to - 1];
      assert SingleColored(p);
      var q := Arrive(s, m).points[m.to - 1];
      assert SingleColored(q);
    }
  }

  /** Using up a die touches neither the points nor the counters. */
  lemma ConsumeDieKeepsPieces(s: GameState, m: Move)
    ensures ConsumeDie(s, m).points == s.points
    ensures ConsumeDie(s, m).bar == s.bar && ConsumeDie(s, m).home == s.home
  {
  }

  /** A legal move from a held origin keeps the state well formed. */
  lemma LegalMovePreservesWellFormed(s: GameState, m: Move)
    requires WellFormed(s)
    requires OriginHolds(s, m.from, m.color)
    requires IsValidMove(s, m.from, m.to, m.color)
    ensures WellFormed(AfterMove(s, m))
  {
    UnblockedMovePreservesWellFormed(s, m);
  }

  /** The part of legality the invariant needs: a destination on the track
      or off it, and not a point the opponent holds. */
  lemma {:induction false} UnblockedMovePreservesWellFormed(s: GameState, m: Move)
    requires WellFormed(s)
    requires OriginHolds(s, m.from, m.color)
    requires 0 <= m.to <= 25
    requires 1 <= m.to <= NumPoints ==> !Blocked(s.points[m.to - 1], m.color)
    ensures WellFormed(AfterMove(s, m))
  {
    var s1 := LeaveOrigin(s, m);
    LeaveOriginKeepsSingleColored(s, m);
    if 1 <= m.to <= NumPoints {
      LeaveOriginKeepsUnblocked(s, m);
    }
    ArriveKeepsSingleColored(s1, m);
    MoveKeepsCounters(s, m);
    ConsumeDieKeepsWellFormed(Arrive(s1, m), m);
  }

  /** Leaving the origin and arriving keep fifteen pieces of each colour
      and every counter non-negative. */
  lemma MoveKeepsCounters(s: GameState, m: Move)
    requires WellFormed(s)
    requires OriginHolds(s, m.from, m.color)
    requires 0 <= m.to <= 25
    ensures var s2 := Arrive(LeaveOrigin(s, m), m);
      && Total(s2, White) == PiecesPerColor && Total(s2, Black) == PiecesPerColor
      && s2.bar.white >= 0 && s2.bar.black >= 0 && s2.home.white >= 0 && s2.home.black >= 0
  {
    var s1 := LeaveOrigin(s, m);
    assert PieceAtOrigin(s, m) by {
      LeaveOriginKeepsSingleColored(s, m);
    }
    LeaveOriginCounts(s, m, White);
    LeaveOriginCounts(s, m, Black);
    ArriveCounts(s1, m, White);
    ArriveCounts(s1, m, Black);
    assert s1.bar.white >= 0 && s1.bar.black >= 0 && s1.home == s.home;
  }

  lemma ConsumeDieKeepsWellFormed(s: GameState, m: Move)
    requires WellFormed(s)
    ensures WellFormed(ConsumeDie(s, m))
  {
    var r := ConsumeDie(s, m);
    ConsumeDieKeepsPieces(s, m);
    assert Total(r, White) == Total(s, White) && Total(r, Black) == Total(s, Black);
  }

  /** The winner has borne off everything: no piece of theirs is on the bar or on a point. */
  lemma WinnerHasNoPieceLeft(s: GameState, c: Color)
    requires WellFormed(s)
    requires CheckWinner(s) == Some(c)
    ensures s.bar.Get(c) == 0
    ensures forall i :: 0 <= i < NumPoints ==> c !in s.points[i]
  {
  }
}
