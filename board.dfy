/** The board controller: the opening layout, the dice roll and the click
    handlers that select an origin and apply a move, as transitions of one
    game state. */
module Board {
  import opened Types
  import opened PieceCount
  import opened GameLogic

  /** `Array(n).fill(color)`. */
  function Pieces(n: nat, color: Color): (p: Point)
    ensures |p| == n && forall k :: 0 <= k < n ==> p[k] == color
  {
    seq(n, _ => color)
  }

  /** The opening content of the point at index i. */
  function InitialPoint(i: int): Point {
    if i == 23 then Pieces(2, Black)
    else if i == 12 then Pieces(5, Black)
    else if i == 7 then Pieces(3, Black)
    else if i == 5 then Pieces(5, Black)
    else if i == 0 then Pieces(2, White)
    else if i == 11 then Pieces(5, White)
    else if i == 16 then Pieces(3, White)
    else if i == 18 then Pieces(5, White)
    else []
  }

  lemma {:induction false} InitialCounts(n: nat, color: Color)
    requires n <= NumPoints
    ensures OnBoard(seq(NumPoints, i => InitialPoint(i))[..n], color)
            == if color == White then
                 (if n > 0 then 2 else 0) + (if n > 11 then 5 else 0)
                 + (if n > 16 then 3 else 0) + (if n > 18 then 5 else 0)
               else
                 (if n > 5 then 5 else 0) + (if n > 7 then 3 else 0)
                 + (if n > 12 then 5 else 0) + (if n > 23 then 2 else 0)
  {
    var b := seq(NumPoints, i => InitialPoint(i));
    if n > 0 {
      InitialCounts(n - 1, color);
      assert b[..n][..n - 1] == b[..n - 1];
      assert b[..n][n - 1] == InitialPoint(n - 1);
      InitialPointCount(n - 1, color);
    }
  }

  /** The pieces of `color` on one point of the opening layout. */
  lemma InitialPointCount(i: int, color: Color)
    ensures CountOf(InitialPoint(i), color)
            == if color == White then
                 (if i == 0 then 2 else if i == 11 then 5 else if i == 16 then 3 else if i == 18 then 5 else 0)
               else
                 (if i == 5 then 5 else if i == 7 then 3 else if i == 12 then 5 else if i == 23 then 2 else 0)
  {
    if i == 23 || i == 0 {
      PiecesCount(2, if i == 0 then White else Black, color);
    } else if i == 12 || i == 5 || i == 11 || i == 18 {
      PiecesCount(5, if i == 11 || i == 18 then White else Black, color);
    } else if i == 7 || i == 16 {
      PiecesCount(3, if i == 16 then White else Black, color);
    }
  }

  lemma {:induction false} PiecesCount(n: nat, c: Color, color: Color)
    ensures CountOf(Pieces(n, c), color) == if c == color then n else 0
  {
    if n > 0 {
      PiecesCount(n - 1, c, color);
      var p := Pieces(n, c);
      assert p[..n - 1] == Pieces(n - 1, c);
      assert CountOf(p, color) == CountOf(p[..n - 1], color) + (if p[n - 1] == color then 1 else 0);
    }
  }

  /** The opening layout: fifteen pieces of each colour, no mixed point. */
  lemma InitialLayout()
    ensures OnBoard(seq(NumPoints, i => InitialPoint(i)), White) == PiecesPerColor
    ensures OnBoard(seq(NumPoints, i => InitialPoint(i)), Black) == PiecesPerColor
    ensures AllSingleColored(seq(NumPoints, i => InitialPoint(i)))
  {
    var points := seq(NumPoints, i => InitialPoint(i));
    InitialCounts(NumPoints, White);
    InitialCounts(NumPoints, Black);
    assert points[..NumPoints] == points;
    forall i | 0 <= i < NumPoints
      ensures SingleColored(points[i])
    {
      assert points[i] == InitialPoint(i);
    }
  }

  /** initialGameState: the opening layout, white to roll. */
  function InitialGameState(): (s: GameState)
    ensures OnBoard(s.points, White) == PiecesPerColor && OnBoard(s.points, Black) == PiecesPerColor
    ensures WellFormed(s)
    ensures s.bar == PerColor(0, 0) && s.home == PerColor(0, 0)
    ensures s.currentPlayer == White && s.gamePhase == Rolling && s.winner == None
    ensures s.dice == Dice([], []) && s.selectedPoint == None && s.possibleMoves == []
  {
    InitialLayout();
    GameState(seq(NumPoints, i => InitialPoint(i)), PerColor(0, 0), PerColor(0, 0), White,
              Dice([], []), None, [], Rolling, None)
  }

  /** The dice of a roll: two values, or four of the same on a double. */
  function RolledValues(die1: int, die2: int): (values: seq<int>)
    ensures die1 != die2 ==> values == [die1, die2]
    ensures die1 == die2 ==> |values| == 4 && forall k :: 0 <= k < 4 ==> values[k] == die1
  {
    if die1 == die2 then [die1, die1, die1, die1] else [die1, die2]
  }

  /** The bear-off position the board's home areas ask for: 25 for white, 0 for black
      (the reverse of EngineBearOffPosition). */
  function BoardBearOffPosition(color: Color): (position: int)
    ensures IsBearOffTarget(position)
    ensures position != EngineBearOffPosition(color) && position == EngineBearOffPosition(color.Opponent())
  {
    if color == White then 25 else 0
  }

  /** After a move: record a winner and end the game, then clear the selection. */
  function FinishMove(s: GameState): (r: GameState)
    ensures r.selectedPoint == None && r.possibleMoves == []
    ensures r.points == s.points && r.bar == s.bar && r.home == s.home
    ensures r.dice == s.dice && r.currentPlayer == s.currentPlayer
    ensures CheckWinner(s).Some? ==> r.winner == CheckWinner(s) && r.gamePhase == GameOver
    ensures CheckWinner(s).None? ==> r.winner == s.winner && r.gamePhase == s.gamePhase
  {
    var winner := CheckWinner(s);
    var s' := if winner.Some? then s.(winner := winner, gamePhase := GameOver) else s;
    s'.(selectedPoint := None, possibleMoves := [])
  }

  /** isValidMove reads only the points, the bar and the dice. */
  lemma IsValidMoveReadsBoard(s: GameState, s': GameState, from: int, to: int, color: Color)
    requires s'.points == s.points && s'.bar == s.bar && s'.dice == s.dice
    ensures IsValidMove(s', from, to, color) == IsValidMove(s, from, to, color)
  {
  }

  /** The destinations a legality check sees depend only on the points,
      the bar, the dice and the player to move. */
  lemma {:induction false} LegalAmongReadsBoard(s: GameState, s': GameState, from: int, color: Color, candidates: seq<int>)
    requires s'.points == s.points && s'.bar == s.bar && s'.dice == s.dice
    ensures LegalAmong(s', from, color, candidates) == LegalAmong(s, from, color, candidates)
    decreases |candidates|
  {
    if candidates != [] {
      var last := candidates[|candidates| - 1];
      LegalAmongReadsBoard(s, s', from, color, candidates[..|candidates| - 1]);
      IsValidMoveReadsBoard(s, s', from, last, color);
    }
  }

  /** getPossibleMoves' answer does not depend on the selection. */
  lemma PossibleMovesReadsBoard(s: GameState, s': GameState, position: int)
    requires s'.points == s.points && s'.bar == s.bar && s'.dice == s.dice
    requires s'.currentPlayer == s.currentPlayer
    ensures PossibleMoves(s', position) == PossibleMoves(s, position)
  {
    var color := s.currentPlayer;
    LegalAmongReadsBoard(s, s', -1, color, EntryPoints(color));
    LegalAmongReadsBoard(s, s', position, color, BoardPositions());
    IsValidMoveReadsBoard(s, s', position, EngineBearOffPosition(color), color);
  }

  /** The destinations on offer are getPossibleMoves' answer for the
      current state and selection, as the component always computes them. */
  ghost predicate SelectionFresh(s: GameState) {
    s.selectedPoint.Some? ==> s.possibleMoves == PossibleMoves(s, s.selectedPoint.value)
  }

  /** Selecting an origin with getPossibleMoves' answer leaves the selection fresh. */
  lemma SelectionIsFresh(s: GameState, p: int)
    ensures SelectionFresh(s.(selectedPoint := Some(p), possibleMoves := PossibleMoves(s, p)))
  {
    PossibleMovesReadsBoard(s, s.(selectedPoint := Some(p), possibleMoves := PossibleMoves(s, p)), p);
  }

  /** The invariant of the controller's state: a well-formed game, a
      selection that only offers legal moves from an origin the player
      holds, and a winner exactly when the game is over. */
  ghost predicate ControllerInvariant(s: GameState) {
    && WellFormed(s)
    && (s.selectedPoint.None? ==> s.possibleMoves == [])
    && (s.selectedPoint.Some? ==>
          && s.gamePhase == Moving
          && OriginHolds(s, s.selectedPoint.value, s.currentPlayer)
          && forall t :: t in s.possibleMoves ==> IsValidMove(s, s.selectedPoint.value, t, s.currentPlayer))
    && s.winner == CheckWinner(s)
    && (s.winner.Some? <==> s.gamePhase == GameOver)
  }

  /** Selecting an origin with the destinations getPossibleMoves offers keeps the invariant. */
  lemma SelectionKeepsInvariant(s: GameState, p: int)
    requires ControllerInvariant(s) && s.gamePhase == Moving
    requires OriginHolds(s, p, s.currentPlayer)
    ensures ControllerInvariant(s.(selectedPoint := Some(p), possibleMoves := PossibleMoves(s, p)))
  {
    var s' := s.(selectedPoint := Some(p), possibleMoves := PossibleMoves(s, p));
    forall t | t in PossibleMoves(s, p)
      ensures IsValidMove(s', p, t, s.currentPlayer)
    {
      PossibleMovesSound(s, p, t);
      IsValidMoveReadsBoard(s, s', p, t, s.currentPlayer);
    }
  }

  /** Applying a move offered by the selection keeps the invariant. */
  lemma SelectedMoveKeepsInvariant(s: GameState, to: int)
    requires ControllerInvariant(s) && s.selectedPoint.Some?
    requires to in s.possibleMoves
    ensures ControllerInvariant(FinishMove(AfterMove(s, Move(s.selectedPoint.value, to, s.currentPlayer))))
  {
    var m := Move(s.selectedPoint.value, to, s.currentPlayer);
    LegalMovePreservesWellFormed(s, m);
    MakeMoveEndsTurn(s, m);
    assert AfterMove(s, m).winner == s.winner;
    FinishMoveKeepsInvariant(AfterMove(s, m));
  }

  /** Clearing the selection after a move of a game still in play keeps the invariant. */
  lemma FinishMoveKeepsInvariant(r: GameState)
    requires WellFormed(r)
    requires r.winner == None && r.gamePhase != GameOver
    ensures ControllerInvariant(FinishMove(r))
  {
    var f := FinishMove(r);
    assert f.points == r.points && f.bar == r.bar && f.home == r.home;
    assert Total(f, White) == Total(r, White) && Total(f, Black) == Total(r, Black);
  }

  /** The board's bear-off position is never among the destinations
      getPossibleMoves offers, for either colour and from any origin. */
  lemma BearOffClickNeverOffered(s: GameState, p: int)
    ensures BoardBearOffPosition(s.currentPlayer) !in PossibleMoves(s, p)
  {
    if BoardBearOffPosition(s.currentPlayer) in PossibleMoves(s, p) {
      PossibleMovesSound(s, p, BoardBearOffPosition(s.currentPlayer));
    }
  }

  /** The board component: its state and the handlers that replace it. */
  class BackgammonBoard {
    var state: GameState

    ghost predicate Valid()
      reads this
    {
      ControllerInvariant(state)
    }

    /** A new board holds the opening layout. */
    constructor ()
      ensures state == InitialGameState()
      ensures Valid() && SelectionFresh(state)
    {
      state := InitialGameState();
    }

    /** rollDice, with the two die values as inputs: only while rolling; the
        roll becomes both the shown and the available dice. */
    method RollDice(die1: int, die2: int)
      requires Valid()
      requires 1 <= die1 <= 6 && 1 <= die2 <= 6
      modifies this
      ensures Valid()
      ensures SelectionFresh(old(state)) ==> SelectionFresh(state)
      ensures old(state).gamePhase != Rolling ==> state == old(state)
      ensures old(state).gamePhase == Rolling ==>
                state == old(state).(dice := Dice(RolledValues(die1, die2), RolledValues(die1, die2)),
                                     gamePhase := Moving)
    {
      if state.gamePhase != Rolling {
        return;
      }
      var values := RolledValues(die1, die2);
      state := state.(dice := Dice(values, values), gamePhase := Moving);
    }

    /** handleBarClick: the current player, while moving and with a piece on
        the bar, selects the bar and is shown its entries. */
    method HandleBarClick(color: Color)
      requires Valid()
      modifies this
      ensures Valid()
      ensures SelectionFresh(old(state)) ==> SelectionFresh(state)
      ensures if old(state).gamePhase == Moving && color == old(state).currentPlayer
                 && old(state).bar.Get(color) > 0
              then state == old(state).(selectedPoint := Some(-1), possibleMoves := PossibleMoves(old(state), -1))
              else state == old(state)
    {
      if state.gamePhase != Moving || color != state.currentPlayer {
        return;
      }
      if state.bar.Get(color) == 0 {
        return;
      }
      var possibleMoves := GetPossibleMoves(state, -1);
      SelectionKeepsInvariant(state, -1);
      SelectionIsFresh(state, -1);
      state := state.(selectedPoint := Some(-1), possibleMoves := possibleMoves);
    }

    /** handlePointClick: with nothing selected, selects a point the current
        player owns (never while they have a piece on the bar); with a
        selection, applies the move if the point is offered and otherwise
        just clears the selection. */
    method HandlePointClick(position: int)
      requires Valid()
      requires 1 <= position <= NumPoints
      modifies this
      ensures Valid()
      ensures SelectionFresh(old(state)) ==> SelectionFresh(state)
      ensures state.home == old(state).home
      ensures old(state).gamePhase != Moving ==> state == old(state)
      ensures old(state).gamePhase == Moving && old(state).selectedPoint.None? ==>
                if old(state).bar.Get(old(state).currentPlayer) == 0
                   && |old(state).points[position - 1]| > 0
                   && old(state).points[position - 1][0] == old(state).currentPlayer
                then state == old(state).(selectedPoint := Some(position),
                                          possibleMoves := PossibleMoves(old(state), position))
                else state == old(state)
      ensures old(state).gamePhase == Moving && old(state).selectedPoint.Some? ==>
                if position in old(state).possibleMoves
                then state == FinishMove(AfterMove(old(state),
                                Move(old(state).selectedPoint.value, position, old(state).currentPlayer)))
                else state == old(state).(selectedPoint := None, possibleMoves := [])
    {
      if state.gamePhase != Moving {
        return;
      }
      if state.selectedPoint == None {
        if state.bar.Get(state.currentPlayer) > 0 {
          return;
        }
        var point := state.points[position - 1];
        if |point| > 0 && point[0] == state.currentPlayer {
          var possibleMoves := GetPossibleMoves(state, position);
          SelectionKeepsInvariant(state, position);
          SelectionIsFresh(state, position);
          state := state.(selectedPoint := Some(position), possibleMoves := possibleMoves);
        }
        return;
      }
      if position in state.possibleMoves {
        SelectedMoveKeepsInvariant(state, position);
        var newState := MakeMove(state, Move(state.selectedPoint.value, position, state.currentPlayer));
        var winner := CheckWinner(newState);
        if winner.Some? {
          newState := newState.(winner := winner, gamePhase := GameOver);
        }
        state := newState.(selectedPoint := None, possibleMoves := []);
      } else {
        state := state.(selectedPoint := None, possibleMoves := []);
      }
    }

    /** handleBearOffClick: with a selection, applies the bear-off move if the
        board's bear-off position for `color` is offered. As getPossibleMoves
        offers the other sentinel, and every handler keeps the offered
        destinations equal to its answer (SelectionFresh), the click never
        changes the state: the move branch is dead. */
    method HandleBearOffClick(color: Color)
      requires Valid()
      modifies this
      ensures Valid()
      ensures if old(state).gamePhase == Moving && color == old(state).currentPlayer
                 && old(state).selectedPoint.Some? && BoardBearOffPosition(color) in old(state).possibleMoves
              then state == FinishMove(AfterMove(old(state),
                              Move(old(state).selectedPoint.value, BoardBearOffPosition(color), color)))
              else state == old(state)
      ensures SelectionFresh(old(state)) ==> state == old(state)
    {
      if state.gamePhase != Moving || color != state.currentPlayer {
        return;
      }
      if state.selectedPoint == None {
        return;
      }
      var bearOffPosition := BoardBearOffPosition(color);
      if bearOffPosition in state.possibleMoves {
        BearOffClickNeverOffered(state, state.selectedPoint.value);
        SelectedMoveKeepsInvariant(state, bearOffPosition);
        var newState := MakeMove(state, Move(state.selectedPoint.value, bearOffPosition, color));
        var winner := CheckWinner(newState);
        if winner.Some? {
          newState := newState.(winner := winner, gamePhase := GameOver);
        }
        state := newState.(selectedPoint := None, possibleMoves := []);
      }
    }

    /** "Play Again": back to the opening layout. */
    method PlayAgain()
      modifies this
      ensures state == InitialGameState()
      ensures Valid() && SelectionFresh(state)
    {
      state := InitialGameState();
    }
  }
}
