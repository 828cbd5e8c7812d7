/** The move descriptor of Moves.cs: a flag set (`MoveFlags`), the direction it was
    generated along, its start, landing and capture squares and, for a promotion,
    the piece kind the pawn turns into. */
module MoveRecords {
  import opened Wrappers
  import opened Squares
  import opened Position

  /** `MoveFlags`. `Quiet` is the source's `Move` bit: the move may land on an empty square.
      `StartPosition` is declared by the source but never set by any table. */
  datatype MoveFlag =
    | Quiet
    | Capture
    | StartPosition
    | Castle
    | UseEnPassant
    | SetsEnPassant
    | Conversion

  /** `MoveFlags.EitherType`. */
  const Either: set<MoveFlag> := {Quiet, Capture}

  /** A move; `conversion` is `None` where the source leaves `PieceType_NB`. */
  datatype Move = Move(
    flags: set<MoveFlag>,
    dir: Dir,
    start: Square,
    landing: Square,
    capture: Square,
    conversion: Option<PieceKind>)

  predicate IsCastle(m: Move) {
    Castle in m.flags
  }

  predicate SetsEP(m: Move) {
    SetsEnPassant in m.flags
  }

  /** `getMovesToPosition`: the moves of the list that land on `pos`, in list order. */
  function MovesToPosition(moves: seq<Move>, pos: Square): (r: seq<Move>)
    ensures forall m :: m in r <==> m in moves && m.landing == pos
    ensures |r| <= |moves|
  {
    if moves == [] then []
    else
      var rest := MovesToPosition(moves[1..], pos);
      assert forall m :: m in moves <==> m == moves[0] || m in moves[1..];
      if moves[0].landing == pos then [moves[0]] + rest else rest
  }

  /** A one-move list is kept whole when the move lands on `pos`, dropped otherwise. */
  lemma MovesToPositionSingle(m: Move, pos: Square)
    ensures MovesToPosition([m], pos) == (if m.landing == pos then [m] else [])
  {
  }

  /** The filter keeps list order: filtering a concatenation concatenates the filtered parts. */
  lemma {:induction false} MovesToPositionConcat(a: seq<Move>, b: seq<Move>, pos: Square)
    ensures MovesToPosition(a + b, pos) == MovesToPosition(a, pos) + MovesToPosition(b, pos)
  {
    if a != [] {
      assert (a + b)[0] == a[0];
      assert (a + b)[1..] == a[1..] + b;
      MovesToPositionConcat(a[1..], b, pos);
    } else {
      assert a + b == b;
    }
  }
}
