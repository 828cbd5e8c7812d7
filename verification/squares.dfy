/** Board geometry: the 64 squares A1 = 0 .. H8 = 63 and the step vectors
    (`MoveDirections`) with the edge-checked step `movePosition` of Piece.cs. */
module Squares {
  import opened Wrappers

  /** A square index; row = index >> 3 (rank - 1), column = index & 7 (file A = 0). */
  type Square = s: int | 0 <= s < 64

  function Row(s: Square): int { s / 8 }
  function Col(s: Square): int { s % 8 }

  const A1: Square := 0
  const C1: Square := 2
  const D1: Square := 3
  const E1: Square := 4
  const F1: Square := 5
  const G1: Square := 6
  const H1: Square := 7
  const A8: Square := 56
  const C8: Square := 58
  const D8: Square := 59
  const E8: Square := 60
  const F8: Square := 61
  const G8: Square := 62
  const H8: Square := 63

  predicate OnBoard(row: int, col: int) {
    0 <= row <= 7 && 0 <= col <= 7
  }

  /** The step vectors. `Move_0`, the source's "no direction" sentinel, is not a
      direction here: where the source stores it, the model stores `None`. */
  datatype Dir =
    | N | E | S | W | NE | SE | SW | NW
    | NNE | ENE | ESE | SSE | NNW | WNW | WSW | SSW

  /** Row delta of a direction. */
  function DRow(d: Dir): int {
    match d
    case N => 1   case E => 0   case S => -1  case W => 0
    case NE => 1  case SE => -1 case SW => -1 case NW => 1
    case NNE => 2 case ENE => 1 case ESE => -1 case SSE => -2
    case NNW => 2 case WNW => 1 case WSW => -1 case SSW => -2
  }

  /** Column delta of a direction. */
  function DCol(d: Dir): int {
    match d
    case N => 0   case E => 1   case S => 0   case W => -1
    case NE => 1  case SE => 1  case SW => -1 case NW => -1
    case NNE => 1 case ENE => 2 case ESE => 2 case SSE => 1
    case NNW => -1 case WNW => -2 case WSW => -2 case SSW => -1
  }

  /** The enum's numeric value: the index offset of one step, 8 * dr + dc. */
  function Value(d: Dir): int {
    8 * DRow(d) + DCol(d)
  }

  /** Decoding of a direction value as Piece.cs does it: add 36, then `>> 3` and `& 7`
      (both on a non-negative number, so Dafny's `/` and `%` agree with them). */
  function DecodeRow(v: int): int { (v + 36) / 8 - 4 }
  function DecodeCol(v: int): int { (v + 36) % 8 - 4 }

  lemma DecodeValue(d: Dir)
    ensures DecodeRow(Value(d)) == DRow(d)
    ensures DecodeCol(Value(d)) == DCol(d)
  {
  }

  /** `(int)dir & 7` in two's complement equals Dafny's Euclidean `% 8`; it is non-zero
      exactly for the directions that change the column. */
  lemma LowBitsDetectColumnChange(d: Dir)
    ensures Value(d) % 8 != 0 <==> DCol(d) != 0
  {
  }

  /** Distance left to the edge along `d`; every successful step shrinks it. */
  function Room(pos: Square, d: Dir): nat {
    (if DRow(d) > 0 then 7 - Row(pos) else if DRow(d) < 0 then Row(pos) else 0)
    + (if DCol(d) > 0 then 7 - Col(pos) else if DCol(d) < 0 then Col(pos) else 0)
  }

  /** Row and column of the square `pos + Value(d)` when that step stays on the board. */
  lemma StepRowCol(pos: Square, d: Dir)
    requires OnBoard(Row(pos) + DRow(d), Col(pos) + DCol(d))
    ensures 0 <= pos + Value(d) < 64
    ensures (pos + Value(d)) / 8 == Row(pos) + DRow(d)
    ensures (pos + Value(d)) % 8 == Col(pos) + DCol(d)
  {
    var row, col := Row(pos) + DRow(d), Col(pos) + DCol(d);
    assert pos == 8 * Row(pos) + Col(pos);
    assert pos + Value(d) == 8 * row + col;
  }

  lemma StepShrinksRoom(pos: Square, next: Square, d: Dir)
    requires Row(next) == Row(pos) + DRow(d) && Col(next) == Col(pos) + DCol(d)
    ensures Room(next, d) < Room(pos, d)
  {
  }

  /** One step from `pos` along `d`: `None` (the source's `false`, `pos` untouched) when the
      target row or column leaves 0..7; otherwise the square whose row and column
      differ from `pos` by exactly the direction's deltas. */
  function MovePosition(pos: Square, d: Dir): (r: Option<Square>)
    ensures r.None? <==> !OnBoard(Row(pos) + DRow(d), Col(pos) + DCol(d))
    ensures r.Some? ==> Row(r.value) == Row(pos) + DRow(d) && Col(r.value) == Col(pos) + DCol(d)
    ensures r.Some? ==> Room(r.value, d) < Room(pos, d)
    ensures r.Some? ==> r.value == pos + Value(d)
  {
    var startRow := pos / 8;
    var startCol := pos % 8;
    var dr := DecodeRow(Value(d));
    var dc := DecodeCol(Value(d));
    DecodeValue(d);
    var endRow := startRow + dr;
    var endCol := startCol + dc;
    if endRow < 0 || endRow > 7 || endCol < 0 || endCol > 7 then
      None
    else
      StepRowCol(pos, d);
      StepShrinksRoom(pos, pos + Value(d), d);
      Some(pos + Value(d))
  }
}
