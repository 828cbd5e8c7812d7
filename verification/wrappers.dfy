/** Failure-compatible wrappers shared by the chess model.
    `Option` stands for the source's nullable references (`Piece`, `Square?`);
    `Result` stands for a computation that can end in one of the source's exceptions. */
module Wrappers {

  datatype Option<+T> = None | Some(value: T) {
    predicate IsFailure() {
      None?
    }

    function PropagateFailure<U>(): Option<U>
      requires None?
    {
      None
    }

    function Extract(): T
      requires Some?
    {
      value
    }
  }

  /** Why a computation of the source would throw. */
  datatype Fault =
    | SquareOccupied     // Gamestate.PutPiece on a square that already holds a piece
    | NoPiece            // a null piece is dereferenced (moved, placed or converted)
    | NoConversionType   // a Conversion move that carries no conversion type
    | NoTieList          // the root search adds to a tie list that is not there, or picks from an empty one

  datatype Result<+T> = Success(value: T) | Failure(fault: Fault) {
    predicate IsFailure() {
      Failure?
    }

    function PropagateFailure<U>(): Result<U>
      requires Failure?
    {
      Failure(fault)
    }

    function Extract(): T
      requires Success?
    {
      value
    }
  }
}
