/** The per-piece move tables of Piece.cs: for every origin square, the geometrically
    possible moves with their flags, one direction after the other. The source builds
    each table lazily once and caches it; a pure function returns the same list on every
    call, which is all the cache is observable for. */
module Tables {
  import opened Wrappers
  import opened Squares
  import opened Position
  import opened MoveRecords

  const KingDirs: seq<Dir> := [N, E, S, W, NE, SE, SW, NW]
  const QueenDirs: seq<Dir> := [N, E, S, W, NE, SE, SW, NW]
  const RookDirs: seq<Dir> := [N, E, S, W]
  const BishopDirs: seq<Dir> := [NE, SE, SW, NW]
  const KnightDirs: seq<Dir> := [NNE, ENE, ESE, SSE, NNW, WNW, WSW, SSW]
  const WhitePawnDirs: seq<Dir> := [N, NE, NW]
  const BlackPawnDirs: seq<Dir> := [S, SE, SW]

  function PawnDirs(c: Color): seq<Dir> {
    if c == White then WhitePawnDirs else BlackPawnDirs
  }

  /** `b` is one step from `a` along `d`. */
  predicate StepOf(a: Square, b: Square, d: Dir) {
    Row(b) == Row(a) + DRow(d) && Col(b) == Col(a) + DCol(d)
  }

  /** The last square reached: the landing square of the last move, or `pos` itself. */
  function EndOf(pos: Square, r: seq<Move>): Square {
    if r == [] then pos else r[|r| - 1].landing
  }

  /** The moves of a table along one direction, in table order. */
  function OfDir(t: seq<Move>, d: Dir): seq<Move> {
    if t == [] then []
    else (if t[0].dir == d then [t[0]] else []) + OfDir(t[1..], d)
  }

  /** The moves of each direction stand together in the table. */
  predicate Contiguous(t: seq<Move>) {
    forall i, j, k :: 0 <= i < j < k < |t| && t[i].dir == t[k].dir ==> t[j].dir == t[i].dir
  }

  predicate AllAlong(t: seq<Move>, d: Dir) {
    forall m :: m in t ==> m.dir == d
  }

  predicate DistinctDirs(ds: seq<Dir>) {
    forall i, j :: 0 <= i < j < |ds| ==> ds[i] != ds[j]
  }

  // ---------------------------------------------------------------------------
  // Generic tables (Piece.initMoves(directions, moveMultiple))

  /** The walk of `initMoves` along one direction from `pos`: sliders (`multiple`) emit every
      successive square until the next step would leave the board; steppers emit at most
      one. Every move is an EitherType move whose capture square is its landing square. */
  function Ray(start: Square, d: Dir, pos: Square, multiple: bool): (r: seq<Move>)
    ensures forall m :: m in r ==> m == Move(Either, d, start, m.landing, m.landing, None)
    ensures !multiple ==> |r| <= 1
    decreases Room(pos, d)
  {
    match MovePosition(pos, d)
    case None => []
    case Some(next) =>
      var rest := if multiple then Ray(start, d, next, multiple) else [];
      assert forall m :: m in [Move(Either, d, start, next, next, None)] + rest ==>
        m == Move(Either, d, start, next, next, None) || m in rest;
      [Move(Either, d, start, next, next, None)] + rest
  }

  /** Each landing square of a walk is one step along `d` from the one before, the first
      one step from `pos`. */
  lemma {:induction false} RaySteps(start: Square, d: Dir, pos: Square, multiple: bool)
    ensures var r := Ray(start, d, pos, multiple);
      && (|r| > 0 ==> StepOf(pos, r[0].landing, d))
      && (forall k :: 0 <= k < |r| - 1 ==> StepOf(r[k].landing, r[k + 1].landing, d))
    decreases Room(pos, d)
  {
    match MovePosition(pos, d)
    case None =>
    case Some(next) =>
      if multiple {
        RaySteps(start, d, next, multiple);
        var rest := Ray(start, d, next, multiple);
        assert Ray(start, d, pos, multiple) == [Move(Either, d, start, next, next, None)] + rest;
      }
  }

  /** A slider walks until the next step would leave the board. */
  lemma {:induction false} RayEnd(start: Square, d: Dir, pos: Square)
    ensures MovePosition(EndOf(pos, Ray(start, d, pos, true)), d).None?
    decreases Room(pos, d)
  {
    match MovePosition(pos, d)
    case None =>
      assert Ray(start, d, pos, true) == [];
    case Some(next) =>
      RayEnd(start, d, next);
      var rest := Ray(start, d, next, true);
      var r := [Move(Either, d, start, next, next, None)] + rest;
      assert Ray(start, d, pos, true) == r;
      assert EndOf(pos, r) == EndOf(next, rest);
  }

  /** A stepper takes its one step exactly when that step stays on the board. */
  lemma RayStep(start: Square, d: Dir, pos: Square)
    ensures |Ray(start, d, pos, false)| == 1 <==> OnBoard(Row(pos) + DRow(d), Col(pos) + DCol(d))
  {
  }

  function GenericTable(start: Square, dirs: seq<Dir>, multiple: bool): (r: seq<Move>)
    ensures forall m :: m in r ==> m.start == start && m.dir in dirs && m.flags == Either
                                   && m.capture == m.landing && m.conversion.None?
  {
    if dirs == [] then []
    else
      var here := Ray(start, dirs[0], start, multiple);
      var rest := GenericTable(start, dirs[1..], multiple);
      assert forall m :: m in here + rest ==> m in here || m in rest;
      here + rest
  }

  // ---------------------------------------------------------------------------
  // King table (King.initMoves(colorFlags))

  function KingHome(c: Color): Square {
    if c == White then E1 else E8
  }

  /** The king's walk along one direction: one EitherType step; along E or W the flags turn
      into Move|Castle, and only from the colour's home square does the walk continue for
      that one castling step. */
  function KingWalk(c: Color, start: Square, d: Dir, pos: Square, flags: set<MoveFlag>): (r: seq<Move>)
    ensures forall m :: m in r ==> m.start == start && m.dir == d && m.capture == m.landing && m.conversion.None?
    ensures |r| > 0 ==> r[0].flags == flags && StepOf(pos, r[0].landing, d)
    ensures |r| <= 2
    ensures |r| == 2 ==> (d == E || d == W) && Castle !in flags && start == KingHome(c)
                         && r[1].flags == flags + {Castle} - {Capture} && StepOf(r[0].landing, r[1].landing, d)
    ensures |r| > 0 <==> OnBoard(Row(pos) + DRow(d), Col(pos) + DCol(d))
    decreases Room(pos, d)
  {
    match MovePosition(pos, d)
    case None => []
    case Some(next) =>
      var here := Move(flags, d, start, next, next, None);
      if (d == E || d == W) && Castle !in flags then
        var flags' := flags + {Castle} - {Capture};
        if start == KingHome(c) then
          var rest := KingWalk(c, start, d, next, flags');
          assert |rest| <= 1 by {
            if |rest| == 2 { assert Castle in flags'; }
          }
          [here] + rest
        else [here]
      else [here]
  }

  function KingTableFrom(c: Color, start: Square, dirs: seq<Dir>): (r: seq<Move>)
    ensures forall m :: m in r ==> m.start == start && m.dir in dirs && m.capture == m.landing && m.conversion.None?
  {
    if dirs == [] then []
    else
      var here := KingWalk(c, start, dirs[0], start, Either);
      var rest := KingTableFrom(c, start, dirs[1..]);
      assert forall m :: m in here + rest ==> m in here || m in rest;
      here + rest
  }

  function KingTable(c: Color, start: Square): seq<Move> {
    KingTableFrom(c, start, KingDirs)
  }

  // ---------------------------------------------------------------------------
  // Pawn table (Pawn.initMoves(moveDirections))

  /** `isConversionPosition`: the first and the last row. */
  predicate IsConversionPosition(s: Square) {
    Row(s) == 0 || Row(s) == 7
  }

  /** `addConversionMoves`: one move per promotion kind, Queen, Rook, Bishop, Knight, in
      that order, each keeping the given flags and adding Conversion. */
  function ConversionMoves(start: Square, d: Dir, pos: Square, flags: set<MoveFlag>): (r: seq<Move>)
    ensures |r| == 4
    ensures forall m :: m in r ==> m.flags == flags + {Conversion} && m.dir == d && m.start == start
                                   && m.landing == pos && m.capture == pos && m.conversion.Some?
    ensures r[0].conversion == Some(Queen) && r[1].conversion == Some(Rook)
    ensures r[2].conversion == Some(Bishop) && r[3].conversion == Some(Knight)
  {
    var f := flags + {Conversion};
    [Move(f, d, start, pos, pos, Some(Queen)), Move(f, d, start, pos, pos, Some(Rook)),
     Move(f, d, start, pos, pos, Some(Bishop)), Move(f, d, start, pos, pos, Some(Knight))]
  }

  /** `addEnPassantMoves`: a White pawn on row 4 gets a Capture|UseEnPassant move along NE and
      NW whose capture square is the square below the landing square; a Black pawn on row 3
      the same along SE and SW with the square above. */
  function EnPassantMoves(start: Square, d: Dir, pos: Square): (r: seq<Move>)
    requires DCol(d) != 0 ==> StepOf(start, pos, d)
    ensures |r| <= 1
    ensures |r| == 1 <==> ((d == NE || d == NW) && Row(start) == 4) || ((d == SE || d == SW) && Row(start) == 3)
    ensures forall m :: m in r ==> m.flags == {UseEnPassant, Capture} && m.dir == d && m.start == start
                                   && m.landing == pos && m.conversion.None?
    ensures forall m :: m in r ==> m.capture == if Row(start) == 4 then pos - 8 else pos + 8
  {
    var north: seq<Move> :=
      if (d == NW || d == NE) && Row(start) == 4 then
        [Move({UseEnPassant, Capture}, d, start, pos, pos - 8, None)]
      else [];
    var south: seq<Move> :=
      if (d == SW || d == SE) && Row(start) == 3 then
        [Move({UseEnPassant, Capture}, d, start, pos, pos + 8, None)]
      else [];
    north + south
  }

  /** The flags of a pawn step: Capture along a diagonal (`(int)dir & 7 != 0`), Move
      straight ahead, plus SetsEnPassant on the second step. */
  function PawnFlags(d: Dir, setEnPassant: bool): (f: set<MoveFlag>)
    ensures Capture in f <==> DCol(d) != 0
    ensures Quiet in f <==> DCol(d) == 0
    ensures SetsEnPassant in f <==> setEnPassant
    ensures f <= {Quiet, Capture, SetsEnPassant}
  {
    LowBitsDetectColumnChange(d);
    (if Value(d) % 8 != 0 then {Capture} else {Quiet})
    + (if setEnPassant then {SetsEnPassant} else {})
  }

  /** The pawn's move onto `next` with `flags`: the move itself, or on the first or last row
      its four promotions. */
  function StepMoves(start: Square, d: Dir, next: Square, flags: set<MoveFlag>): seq<Move> {
    if IsConversionPosition(next) then ConversionMoves(start, d, next, flags)
    else [Move(flags, d, start, next, next, None)]
  }

  /** The pawn's walk along one direction: the step (or its four promotions), any
      en-passant move, and a second step straight ahead when the first lands on row 2
      (going N) or row 5 (going S). */
  function PawnWalk(start: Square, d: Dir, pos: Square, setEnPassant: bool): (r: seq<Move>)
    requires DCol(d) != 0 ==> pos == start
    ensures forall m :: m in r ==> m.start == start && m.dir == d
    decreases Room(pos, d)
  {
    match MovePosition(pos, d)
    case None => []
    case Some(next) =>
      var here := StepMoves(start, d, next, PawnFlags(d, setEnPassant));
      var ep := EnPassantMoves(start, d, next);
      var rest :=
        if (d == N && Row(next) == 2) || (d == S && Row(next) == 5) then
          PawnWalk(start, d, next, true)
        else [];
      assert forall m :: m in here + ep + rest ==> m in here || m in ep || m in rest;
      here + ep + rest
  }

  function PawnTableFrom(start: Square, dirs: seq<Dir>): (r: seq<Move>)
    ensures forall m :: m in r ==> m.start == start && m.dir in dirs
  {
    if dirs == [] then []
    else
      var here := PawnWalk(start, dirs[0], start, false);
      var rest := PawnTableFrom(start, dirs[1..]);
      assert forall m :: m in here + rest ==> m in here || m in rest;
      here + rest
  }

  function PawnTable(c: Color, start: Square): seq<Move> {
    PawnTableFrom(start, PawnDirs(c))
  }

  // ---------------------------------------------------------------------------

  /** `getPositionMoves`: the table of the piece's kind (and, for king and pawn, colour). */
  function Table(p: Piece, s: Square): (r: seq<Move>)
    ensures forall m :: m in r ==> m.start == s
  {
    match p.kind
    case King => KingTable(p.color, s)
    case Queen => GenericTable(s, QueenDirs, true)
    case Rook => GenericTable(s, RookDirs, true)
    case Bishop => GenericTable(s, BishopDirs, true)
    case Knight => GenericTable(s, KnightDirs, false)
    case Pawn => PawnTable(p.color, s)
  }
}
