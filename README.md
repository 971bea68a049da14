# Backgammon rules engine, board controller and AI-move route

A Dafny model of the core of a browser backgammon game with an AI opponent:

- `GameLogic` (game_logic.dfy): the rules engine of `app/utils/gameLogic.ts`.
  - `isInHomeBoard` and `canBearOff` decide bear-off eligibility.
  - `isValidMove` checks one move.
  - `getPossibleMoves` lists the destinations offered from one origin.
  - `makeMove` applies a move and uses up a die.
  - `checkWinner` decides the winner.
- `Board` (board.dfy): the React component `app/components/BackgammonBoard.tsx`.
  - A class `BackgammonBoard` holds the game state.
  - Its methods are the component's handlers: roll the dice, click the bar, click a point, click a bear-off area, and "Play Again".
  - Each handler replaces the state the way the component's `setGameState` calls do.
- `AiMove` (ai_move.dfy): the pure parts of `app/api/ai-move/route.ts`.
  - The per-colour position summary `describePositions`.
  - The membership check `isValidAIMove` on the agent's reply.
  - The decision of `POST`: 400 for an empty candidate map, 500 for a missing or invalid reply, otherwise the chosen move.
- `Types` (types.dfy) holds the shared data. `PieceCount` (piece_count.dfy) counts the pieces of one colour on a point and on the board.

A point is a sequence of colours, first piece first. The board has 24 points; index `i` is position `i + 1`. Position -1 is the bar, and 0 and 25 are the bear-off targets. The dice are inputs to `RollDice`.

The model follows the code where it departs from ordinary backgammon:

- Directions: white may not decrease its position and black may not increase it.
- Home boards: white's is 1-6 and black's is 19-24.
- Bar entry: white enters at 19-24 and black at 1-6.
- Bear-off sentinel mismatch: `getPossibleMoves` offers bear-off at 0 for white and 25 for black. The board's bear-off areas look for 25 for white and 0 for black.
  - `BearOffClickNeverOffered` proves that a bear-off click never finds its sentinel among the destinations `getPossibleMoves` offers.
  - Every handler keeps the offered destinations equal to `getPossibleMoves`' answer for the current state and selection (`SelectionFresh`).
  - So `HandleBearOffClick` never changes the state: the move branch of `handleBearOffClick` is dead, and no piece reaches home through the board.
- Unmatched distance: when no die equals the move's distance, `indexOf` gives -1 and `splice(-1, 1)` removes the last die. `UseDie` states this case.
- Larger die at bear-off: `find` returns the larger die itself, so a found die of 0 counts as none (`LargerDieFound`).

Invariant of the board controller (`ControllerInvariant`), preserved by every handler:

- Fifteen pieces of each colour, counted over the points, the bar and home.
- No point mixes colours.
- No counter is negative.
- A selection exists only while moving, from an origin the player holds, and offers only legal destinations.
- The winner is recorded exactly when the game is over.

## Model

| member | source | states |
|---|---|---|
| GameLogic.IsInHomeBoard | app/utils/gameLogic.ts:3-5 | white's home board is exactly positions 1-6 and black's exactly 19-24 (each as an if and only if) |
| GameLogic.CanBearOff | app/utils/gameLogic.ts:3-18 | the scan returns true exactly when every point holding the colour is in its home board (white 1-6, black 19-24) and its bar is empty |
| GameLogic.IsValidMove | app/utils/gameLogic.ts:20-88 | a legal move obeys every rule. With pieces on the bar, only the bar is an origin and the entry point is in 1-6. The destination is 0..25. Bear-off needs eligibility and the exact die, or a larger die with no piece farther from home. The move is not backward, the destination is not held by two or more opposing pieces, and the distance is an available die |
| GameLogic.OrdinaryMoveLegal | app/utils/gameLogic.ts:67-87 | converse for moves onto a point: once the bar rule is met, direction, blocking and distance decide legality (if and only if) |
| GameLogic.BearOffLegal | app/utils/gameLogic.ts:38-63 | converse for bear-off targets with an empty bar: legal exactly when the bear-off rule holds |
| GameLogic.BarEntryRange | app/utils/gameLogic.ts:26-36 | a legal move with pieces on the bar starts at the bar and lands on 19-24 for white (outside white's home board) and on 1-6 for black |
| GameLogic.LargerDieBearOff | app/utils/gameLogic.ts:45-61 | bearing off without the exact die means some larger die is available and no piece of the colour stands farther from home than the origin |
| GameLogic.FirstGreater | app/utils/gameLogic.ts:49 | the index `find(d => d > x)` hits: -1 exactly when no die exceeds x, otherwise the first die that does |
| GameLogic.HighestHolding | app/utils/gameLogic.ts:54-55 | the `Math.max` scan: the highest position holding the colour (0 when none), an upper bound of every such position |
| GameLogic.LowestHolding | app/utils/gameLogic.ts:54-56 | the `Math.min` scan: the lowest position holding the colour (25 when none), a lower bound of every such position |
| GameLogic.LegalAmong | app/utils/gameLogic.ts:104-117 | a candidate is kept exactly when isValidMove accepts it, and no more are kept than probed (the order is LegalAmongStep's) |
| GameLogic.LegalAmongStep | app/utils/gameLogic.ts:113-117 | probing one more candidate appends it exactly when it is legal |
| GameLogic.PossibleMoves | app/utils/gameLogic.ts:90-129 | the destinations offered from one origin: at most six with pieces on the bar, at most 25 otherwise |
| GameLogic.GetPossibleMoves | app/utils/gameLogic.ts:90-129 | the loops return exactly the bar entries (when the bar is not empty), or the legal points 1-24 followed by the engine's bear-off position when eligible and legal |
| GameLogic.PossibleMovesBarFirst | app/utils/gameLogic.ts:97-101 | with pieces on the bar, any origin other than the bar gets no destination |
| GameLogic.PossibleMovesSound | app/utils/gameLogic.ts:90-129 | every offered destination is legal for the current player and is a point or the engine's bear-off position (0 white, 25 black) |
| GameLogic.PossibleMovesComplete | app/utils/gameLogic.ts:90-129 | every legal point, and the engine's bear-off position when legal, is offered |
| GameLogic.NoBearOffWhileOutsideHome | app/utils/gameLogic.ts:7-18 | while a piece of the mover is outside its home board, only points 1-24 are offered |
| GameLogic.IndexOf | app/utils/gameLogic.ts:165 | `indexOf`: -1 exactly when absent, otherwise the first index holding the value |
| GameLogic.SpliceOne | app/utils/gameLogic.ts:166 | `splice(k, 1)` removes exactly the die at k (multiset difference); with k = -1 it removes the last die; one die fewer unless none is left |
| GameLogic.UseDie | app/utils/gameLogic.ts:161-166 | one die of the distance goes when there is one (multiset difference), otherwise the last die goes; the count drops by one unless none is left |
| GameLogic.MakeMove | app/utils/gameLogic.ts:131-175 | the step-by-step update yields AfterMove, whose effects are stated by MakeMoveMovesPiece (the piece leaves `from` and lands on `to`, other points unchanged), MakeMoveHits, MakeMoveBearsOff, MakeMoveUsesOneDie and MakeMoveEndsTurn |
| GameLogic.LeaveOrigin | app/utils/gameLogic.ts:138-144 | taking the piece off the bar or its point touches neither the dice, the home counters, the player nor the selection; what it does change is LeaveOriginTakesPiece's |
| GameLogic.Arrive | app/utils/gameLogic.ts:146-159 | landing or bearing off touches neither the dice, the player nor the selection, and only bearing off touches home; what it does change is ArrivePlacesPiece's |
| GameLogic.LeaveOriginTakesPiece | app/utils/gameLogic.ts:138-144 | the mover's bar loses one when `from` is the bar, otherwise the origin point loses its last piece; no other point changes |
| GameLogic.ArrivePlacesPiece | app/utils/gameLogic.ts:146-159 | an ordinary landing adds the mover's piece at the end of the destination; no other point and not the mover's bar changes |
| GameLogic.ConsumeDie | app/utils/gameLogic.ts:161-172 | points, bar, home and rolled values are kept; the available dice become UseDie's answer; the player becomes the mover's opponent with phase rolling exactly when no die is left |
| GameLogic.AfterMove | app/utils/gameLogic.ts:131-175 | the state makeMove returns keeps the rolled values, the winner and the selection, and the player either stays or becomes the mover's opponent; the piece's move is MakeMoveMovesPiece's |
| GameLogic.MakeMoveMovesPiece | app/utils/gameLogic.ts:138-159 | the mover's bar loses one when it enters from the bar, the origin point loses its last piece, an ordinary landing appends the mover's piece at `to`, and every other point stays as it was |
| GameLogic.MakeMoveUsesOneDie | app/utils/gameLogic.ts:161-166 | makeMove keeps the rolled values, removes exactly one available die, and removes the distance itself when it is available |
| GameLogic.MakeMoveHits | app/utils/gameLogic.ts:151-158 | landing on a lone opposing piece leaves only the mover's piece there and puts the hit piece on its bar |
| GameLogic.MakeMoveBearsOff | app/utils/gameLogic.ts:146-148 | bearing off adds one to the mover's home, not the opponent's, and adds no piece to any point |
| GameLogic.MakeMoveEndsTurn | app/utils/gameLogic.ts:168-172 | the turn passes to the mover's opponent with phase rolling exactly when no die is left; otherwise player and phase stay |
| GameLogic.LeaveOriginCounts | app/utils/gameLogic.ts:138-144 | taking the piece off the bar or its point lowers the mover's total by one and leaves the other colour's total |
| GameLogic.ArriveCounts | app/utils/gameLogic.ts:146-159 | arriving or bearing off raises the mover's total by one; a hit moves the opposing piece to its bar without changing its total |
| GameLogic.MakeMoveConservesPieces | app/utils/gameLogic.ts:131-175 | makeMove keeps each colour's total over points, bar and home when the piece moved is the mover's |
| GameLogic.LegalMovePreservesWellFormed | app/utils/gameLogic.ts:20-175 | a legal move from an origin the mover holds keeps fifteen pieces per colour, single-coloured points and non-negative counters |
| GameLogic.CheckWinner | app/utils/gameLogic.ts:177-182 | white when its home holds 15, else black when its home holds 15, else none (each as an if and only if) |
| GameLogic.WinnerHasNoPieceLeft | app/utils/gameLogic.ts:177-182 | in a well-formed state the winner has no piece on the bar or on any point |
| PieceCount.CountOf | app/api/ai-move/route.ts:97 | the count of a colour on a point is at most the point's size and is zero exactly when the colour is absent |
| PieceCount.OnBoardUpdate | app/utils/gameLogic.ts:138-159 | replacing one point changes the board count by the difference on that point |
| Board.InitialCounts | app/components/BackgammonBoard.tsx:8-19 | the opening layout's running count of each colour over the first n points |
| Board.InitialGameState | app/components/BackgammonBoard.tsx:7-28 | the opening state has fifteen pieces of each colour on the points, is well formed, has empty bar, home and dice, no selection, white to roll |
| Board.RolledValues | app/components/BackgammonBoard.tsx:38 | two different dice give both values; a double gives four copies |
| Board.BoardBearOffPosition | app/components/BackgammonBoard.tsx:115 | the board's bear-off position is a bear-off target, and it is the engine's position for the other colour, never the mover's own |
| Board.FinishMove | app/components/BackgammonBoard.tsx:89-100 | a winner is recorded with game over exactly when checkWinner finds one, and the selection is cleared; board, dice and player stay |
| Board.SelectionKeepsInvariant | app/components/BackgammonBoard.tsx:51-56 | selecting an origin the player holds, with the offered destinations, keeps the controller invariant |
| Board.PossibleMovesReadsBoard | app/utils/gameLogic.ts:90-129 | getPossibleMoves' answer depends only on the points, the bar, the dice and the player, not on the selection |
| Board.SelectionIsFresh | app/components/BackgammonBoard.tsx:51-56 | a selection made with getPossibleMoves' answer offers exactly that answer for the new state |
| Board.SelectedMoveKeepsInvariant | app/components/BackgammonBoard.tsx:82-100 | applying an offered move and clearing the selection keeps the controller invariant |
| Board.BearOffClickNeverOffered | app/components/BackgammonBoard.tsx:115-116 | the board's bear-off position (25 white, 0 black) is never among the destinations getPossibleMoves offers |
| Board.BackgammonBoard.constructor | app/components/BackgammonBoard.tsx:30-31 | a new board holds the opening state and satisfies the invariant, with no selection |
| Board.BackgammonBoard.RollDice | app/components/BackgammonBoard.tsx:33-45 | only while rolling: the roll becomes shown and available dice and the phase becomes moving; otherwise nothing changes; the invariant and the freshness of the offered destinations hold |
| Board.BackgammonBoard.HandleBarClick | app/components/BackgammonBoard.tsx:47-57 | the current player, while moving with a piece on the bar, selects the bar with its offered entries; otherwise nothing changes; the invariant and freshness hold |
| Board.BackgammonBoard.HandlePointClick | app/components/BackgammonBoard.tsx:59-109 | without a selection, selects a held point when the bar is empty; with one, applies an offered move (with winner check) or clears the selection; home never changes (a point click cannot bear off); the invariant and freshness hold |
| Board.BackgammonBoard.HandleBearOffClick | app/components/BackgammonBoard.tsx:111-136 | applies the bear-off move when the board's sentinel is offered, else nothing changes; when the offered destinations are fresh (as every handler keeps them) the state never changes |
| Board.BackgammonBoard.PlayAgain | app/components/BackgammonBoard.tsx:246-252 | the state returns to the opening state |
| AiMove.IsValidAIMove | app/api/ai-move/route.ts:104-123 | accepted exactly when the origin is a key of the map and the destination is among that key's destinations |
| AiMove.AcceptedReplyIsLegal | app/api/ai-move/route.ts:104-123 | against a map built from getPossibleMoves, an accepted reply is a legal move for the player to move |
| AiMove.Respond | app/api/ai-move/route.ts:30-71 | an empty map gives 400; a move is returned only when it passes isValidAIMove, and one that passes is returned; any other failure with a non-empty map is 500 |
| AiMove.DescribeUpTo | app/api/ai-move/route.ts:94-102 | the described positions are among the first n and strictly increasing |
| AiMove.DescribeUpToSound | app/api/ai-move/route.ts:94-102 | each entry is a position with a non-zero count equal to that colour's pieces on it |
| AiMove.DescribeUpToComplete | app/api/ai-move/route.ts:94-102 | every point holding the colour is described with its count |
| AiMove.DescribePositions | app/api/ai-move/route.ts:94-102 | the whole-board description: sound, complete and in position order |
| AiMove.DescribePositionsTotal | app/api/ai-move/route.ts:94-102 | the described counts add up to the colour's pieces on the board |

## Left out

- Aliasing: `makeMove` copies the state shallowly and then mutates the shared point arrays, bar and home objects. So the previous React state, including the `initialGameState` constant that "Play Again" reuses, is changed as well. The model works on values: every handler produces a new state, and `PlayAgain` restores the true opening layout.
- The `position` field of a point is not modelled. It is always `i + 1` for index `i`, and the model uses that directly.
- `Math.random` in `rollDice` is replaced by the two die values, passed as inputs in 1..6.
- The OpenAI call, JSON parsing, logging, the prompt text and `generateGameStateDescription` are not modelled.
  - The agent's parsed reply is an input to `Respond`. `None` stands for a failed call or an unparsable answer.
  - `describePositions` produces (count, position) pairs instead of the joined text.
- The map keys of `availableMoves` are decimal strings in the route. The model keys them by the integer itself, which is a one-to-one renaming.
- Rendering, the React hooks and which buttons are shown (the roll button only while rolling without a winner, "Play Again" only with a winner) are not modelled.
- Board.BackgammonBoard.HandlePointClick: requires a position in 1..24, for three reasons. First, the component calls the handler only for the points it renders, which are 1..24 (app/components/BackgammonBoard.tsx:150). Second, with nothing selected, any other position would read past the board (lines 69-70). Third, with a selection, a click on the engine's bear-off position (0 for white, 25 for black), when offered, would bear the piece off through a point click (lines 82-100). The requires rules that case out. That is why `HandlePointClick` can promise that home never changes, and why no piece reaches home through the board.
- The game has no forced use of both dice, no undo and no automatic pass when no move exists, so the model has none either.
- Board.BackgammonBoard.HandleBearOffClick: the move branch is dead in the code, because the offered destinations are always getPossibleMoves' answer and never hold the board's sentinel. `Valid()` keeps only that every offered destination is legal. Freshness (`SelectionFresh`) is a separate pre/post implication on each handler, so that Dafny does not meet contradictory assumptions inside the dead branch. The handler states the branch is dead only under freshness.
