/** The game's data: colours, points, the per-colour bar and home counters,
    dice, the whole game state and a move. */
module Types {

  datatype Color = White | Black {
    /** The other colour. */
    function Opponent(): Color {
      if this == White then Black else White
    }
  }

  datatype Option<+T> = None | Some(value: T)

  /** The pieces standing on one point, first piece first. The rules read
      the first piece to decide who owns a point; moves take pieces from and
      add pieces to the end. */
  type Point = seq<Color>

  const NumPoints: nat := 24
  const PiecesPerColor: nat := 15

  /** The 24 points of the track; index i holds the point at position i + 1. */
  type Track = b: seq<Point> | |b| == NumPoints witness seq(24, _ => [])

  /** One counter per colour: pieces on the bar, or pieces borne off ("home"). */
  datatype PerColor = PerColor(white: int, black: int) {
    function Get(c: Color): int {
      if c == White then white else black
    }

    function Add(c: Color, delta: int): (r: PerColor)
      ensures r.Get(c) == Get(c) + delta
      ensures r.Get(c.Opponent()) == Get(c.Opponent())
    {
      if c == White then PerColor(white + delta, black) else PerColor(white, black + delta)
    }
  }

  /** `values` is the roll as shown, `available` the dice not used yet this turn. */
  datatype Dice = Dice(values: seq<int>, available: seq<int>)

  datatype Phase = Rolling | Moving | GameOver

  /** The whole game state, including the board controller's selection
      (`selectedPoint`, with -1 for the bar) and its highlighted destinations. */
  datatype GameState = GameState(
    points: Track,
    bar: PerColor,
    home: PerColor,
    currentPlayer: Color,
    dice: Dice,
    selectedPoint: Option<int>,
    possibleMoves: seq<int>,
    gamePhase: Phase,
    winner: Option<Color>)

  /** A move of one piece of `color`; `from` is -1 for the bar, `to` is 0 or 25 for bearing off. */
  datatype Move = Move(from: int, to: int, color: Color)
}
