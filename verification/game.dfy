/** The game logic of GameControl.cs without the console: applying a move (capture,
    relocation, promotion, the rook of a castling move, the en-passant square), the list of
    all moves of the side to move, the game-over test and the turn step of `PlayGame`. */
module Game {
  import opened Wrappers
  import opened Squares
  import opened Position
  import opened MoveRecords
  import opened Tables
  import opened TableProperties
  import opened Scan
  import opened Control
  import opened Possible
  import opened PossibleProperties

  // ---------------------------------------------------------------------------
  // Applying a move

  /** The piece `movePiece` puts down: the mover itself, or for a Conversion move a new
      piece of the conversion kind in the mover's colour (`Chess.makePieceOfType`). A
      Conversion move of a missing piece dereferences null; one without a conversion kind
      has nothing to build. */
  function Arriving(mover: Option<Piece>, m: Move): Result<Option<Piece>> {
    if Conversion !in m.flags then Success(mover)
    else if mover.None? then Failure(NoPiece)
    else if m.conversion.None? then Failure(NoConversionType)
    else Success(Some(Piece(m.conversion.value, mover.value.color)))
  }

  /** `movePiece`: the piece on the capture square (if any) is removed, the piece on the
      start square is taken off, and it (or its promotion) is put on the landing square.
      It faults when there is no piece to move, when a promotion names no kind, and when the
      landing square is still occupied. */
  function MovePiece(g: Gamestate, m: Move): (r: Result<(Gamestate, Piece)>)
    ensures var cleared := g.board[m.capture := None];
      r.Failure? <==>
        || cleared[m.start].None?
        || cleared[m.start := None][m.landing].Some?
        || (Conversion in m.flags && m.conversion.None?)
    ensures var mover := g.board[m.capture := None][m.start];
      r.Success? ==>
        && r.value.1 == (if Conversion in m.flags then Piece(m.conversion.value, mover.value.color) else mover.value)
        && r.value.1.color == mover.value.color
    ensures r.Success? ==>
      r.value.0.board == g.board[m.capture := None][m.start := None][m.landing := Some(r.value.1)]
    ensures r.Success? ==> r.value.0.turn == g.turn && GetEnPassant(r.value.0, White) == GetEnPassant(g, White)
    ensures r.Success? ==> GetEnPassant(r.value.0, Black) == GetEnPassant(g, Black)
    ensures r.Success? ==> Rights(r.value.0) == Rights(UpdateCastleFlags(CaptureCleared(g, m.capture), m.start))
    ensures r.Success? ==> RightsWithin(r.value.0, g)
    ensures r.Success? && Wf(g) ==> Wf(r.value.0)
  {
    var lifted := Lift(g, m.start, m);
    LiftRights(g, m.start, m);
    var placed :- Arriving(g.board[m.capture := None][m.start], m);
    var g2 :- PutFound(lifted, placed, m.landing);
    Success((g2, placed.value))
  }

  function RookFrom(c: Color, d: Dir): Square {
    8 * (if c == White then 0 else 7) + (if d == W then 0 else 7)
  }

  function RookTo(c: Color, d: Dir): Square {
    8 * (if c == White then 0 else 7) + (if d == W then 3 else 5)
  }

  /** `moveRookForCastle`: on the mover's back row, the piece in column A goes to column D
      for a castling move along W, the piece in column H to column F otherwise. */
  function MoveRook(g: Gamestate, c: Color, d: Dir): (r: Result<Gamestate>)
    ensures r.Failure? <==> g.board[RookFrom(c, d)].None? || g.board[RookTo(c, d)].Some?
    ensures r.Success? ==>
      r.value.board == g.board[RookFrom(c, d) := None][RookTo(c, d) := g.board[RookFrom(c, d)]]
    ensures r.Success? ==> r.value.turn == g.turn && GetEnPassant(r.value, White) == GetEnPassant(g, White)
    ensures r.Success? ==> GetEnPassant(r.value, Black) == GetEnPassant(g, Black)
    ensures r.Success? ==> Rights(r.value) == Rights(UpdateCastleFlags(g, RookFrom(c, d)))
    ensures r.Success? ==> RightsWithin(r.value, g)
    ensures r.Success? && Wf(g) ==> Wf(r.value)
  {
    var (g1, rook) := RemovePiece(g, RookFrom(c, d));
    PutFound(g1, rook, RookTo(c, d))
  }

  /** The last step of `makeMove`: a double step records its landing square as the
      en-passant square of the mover's colour `c`; any other move records nothing. */
  function RecordEnPassant(g: Gamestate, c: Color, m: Move): (r: Gamestate)
    ensures GetEnPassant(r, c) == (if SetsEP(m) then Some(m.landing) else GetEnPassant(g, c))
    ensures GetEnPassant(r, Opponent(c)) == GetEnPassant(g, Opponent(c))
    ensures r.board == g.board && r.turn == g.turn && Rights(r) == Rights(g)
    ensures Wf(g) ==> Wf(r)
  {
    if SetsEP(m) then SetEnPassant(g, c, Some(m.landing)) else g
  }

  /** `makeMove`: the piece moves; a castling move also moves the rook; a double step
      records its landing square as the mover's colour's en-passant square. */
  function MakeMove(g: Gamestate, m: Move): (r: Result<Gamestate>)
    ensures r.Success? <==>
      && MovePiece(g, m).Success?
      && (IsCastle(m) ==> MoveRook(MovePiece(g, m).value.0, MovePiece(g, m).value.1.color, m.dir).Success?)
    ensures r.Success? ==> var moved := MovePiece(g, m).value;
      Rights(r.value) == Rights(if IsCastle(m) then UpdateCastleFlags(moved.0, RookFrom(moved.1.color, m.dir)) else moved.0)
    ensures r.Success? ==> r.value.turn == g.turn && RightsWithin(r.value, UpdateCastleFlags(g, m.start))
    ensures r.Success? && Wf(g) ==> Wf(r.value)
    ensures r.Success? && !IsCastle(m) ==> r.value.board == MovePiece(g, m).value.0.board
    ensures r.Success? ==> var c := MovePiece(g, m).value.1.color;
      && GetEnPassant(r.value, c) == (if SetsEP(m) then Some(m.landing) else GetEnPassant(g, c))
      && GetEnPassant(r.value, Opponent(c)) == GetEnPassant(g, Opponent(c))
  {
    match MovePiece(g, m)
    case Failure(f) => Failure(f)
    case Success(moved) =>
      var (g1, piece) := moved;
      match Relocate(g1, piece.color, m)
      case Failure(f) => Failure(f)
      case Success(g2) =>
        assert RightsWithin(g1, UpdateCastleFlags(g, m.start));
        Success(RecordEnPassant(g2, piece.color, m))
  }

  /** The rook's half of `makeMove`: only a castling move moves the corner piece. */
  function Relocate(g: Gamestate, c: Color, m: Move): (r: Result<Gamestate>)
    ensures !IsCastle(m) ==> r == Success(g)
    ensures IsCastle(m) ==> r == MoveRook(g, c, m.dir)
    ensures r.Success? ==> r.value.turn == g.turn && RightsWithin(r.value, g)
    ensures r.Success? ==> Rights(r.value) == Rights(if IsCastle(m) then UpdateCastleFlags(g, RookFrom(c, m.dir)) else g)
    ensures r.Success? ==> GetEnPassant(r.value, White) == GetEnPassant(g, White)
    ensures r.Success? ==> GetEnPassant(r.value, Black) == GetEnPassant(g, Black)
    ensures r.Success? && Wf(g) ==> Wf(r.value)
  {
    if IsCastle(m) then MoveRook(g, c, m.dir) else Success(g)
  }

  /** A capture clears the rights tied to the captured piece's square, as removing the
      rook on H8 takes Black's east right. */
  lemma CaptureClearsRights(g: Gamestate, m: Move)
    requires MakeMove(g, m).Success? && g.board[m.capture].Some?
    ensures RightsWithin(MakeMove(g, m).value, UpdateCastleFlags(g, m.capture))
  {
  }

  /** Castling as the king's table offers it (FIDE Laws, Article 3.8): with the king on its
      home square, the landing square and the rook's target square empty and a piece on the
      corner, the king lands two columns along, the corner piece lands next to it on the
      king's other side, the king's and the corner's squares are empty, and the colour has
      lost both castling rights. */
  lemma CastleRelocates(g: Gamestate, c: Color, m: Move)
    requires Wf(g) && g.board[KingHome(c)] == Some(Piece(King, c))
    requires m in Table(Piece(King, c), KingHome(c)) && IsCastle(m)
    requires g.board[m.landing].None? && g.board[RookTo(c, m.dir)].None?
    requires g.board[RookFrom(c, m.dir)].Some?
    ensures MakeMove(g, m).Success?
    ensures var b := MakeMove(g, m).value.board;
      && b[m.landing] == Some(Piece(King, c))
      && b[RookTo(c, m.dir)] == g.board[RookFrom(c, m.dir)]
      && b[KingHome(c)].None? && b[RookFrom(c, m.dir)].None?
      && Col(m.landing) == (if m.dir == E then 6 else 2) && Row(m.landing) == Row(KingHome(c))
      && Col(RookTo(c, m.dir)) == (if m.dir == E then 5 else 3)
    ensures var h := MakeMove(g, m).value;
      if c == White then !h.whiteCastleEast && !h.whiteCastleWest else !h.blackCastleEast && !h.blackCastleWest
  {
    KingCastleSquares(Piece(King, c), KingHome(c), m);
    CastleColumns(c, m);
    CastleMove(g, c, m);
    MoveFromHomeClearsRights(g, c, m);
  }

  /** `CastleRelocates` for a move already known to have the castling shape. */
  lemma CastleMove(g: Gamestate, c: Color, m: Move)
    requires Wf(g) && g.board[KingHome(c)] == Some(Piece(King, c))
    requires m.start == KingHome(c) && m.flags == {Quiet, Castle} && m.capture == m.landing
    requires m.dir == E || m.dir == W
    requires Row(m.landing) == Row(KingHome(c)) && Col(m.landing) == Col(KingHome(c)) + 2 * DCol(m.dir)
    requires g.board[m.landing].None? && g.board[RookTo(c, m.dir)].None?
    requires g.board[RookFrom(c, m.dir)].Some?
    ensures MakeMove(g, m).Success?
    ensures var b := MakeMove(g, m).value.board;
      && b[m.landing] == Some(Piece(King, c))
      && b[RookTo(c, m.dir)] == g.board[RookFrom(c, m.dir)]
      && b[KingHome(c)].None? && b[RookFrom(c, m.dir)].None?
  {
    CastleMoveSteps(g, c, m);
    var moved := MovePiece(g, m).value;
    RookSquaresApart(c, m.dir, m.landing);
    CastleBoard(g.board, m.start, m.landing, RookFrom(c, m.dir), RookTo(c, m.dir), moved.1);
  }

  /** Castling plays as the king's move followed by the rook's. */
  lemma CastleMoveSteps(g: Gamestate, c: Color, m: Move)
    requires Wf(g) && g.board[KingHome(c)] == Some(Piece(King, c))
    requires m.start == KingHome(c) && m.flags == {Quiet, Castle} && m.capture == m.landing
    requires m.dir == E || m.dir == W
    requires Row(m.landing) == Row(KingHome(c)) && Col(m.landing) == Col(KingHome(c)) + 2 * DCol(m.dir)
    requires g.board[m.landing].None? && g.board[RookTo(c, m.dir)].None?
    requires g.board[RookFrom(c, m.dir)].Some?
    ensures MovePiece(g, m).Success? && MovePiece(g, m).value.1 == Piece(King, c)
    ensures MakeMove(g, m).Success?
    ensures MoveRook(MovePiece(g, m).value.0, c, m.dir).Success?
    ensures MakeMove(g, m).value.board == MoveRook(MovePiece(g, m).value.0, c, m.dir).value.board
  {
    CastleKingStep(g, c, m);
    assert IsCastle(m);
  }

  /** The king's half of castling plays and leaves the corner and the rook's target square
      as they were. */
  lemma CastleKingStep(g: Gamestate, c: Color, m: Move)
    requires g.board[KingHome(c)] == Some(Piece(King, c))
    requires m.start == KingHome(c) && m.flags == {Quiet, Castle} && m.capture == m.landing
    requires m.dir == E || m.dir == W
    requires Row(m.landing) == Row(KingHome(c)) && Col(m.landing) == Col(KingHome(c)) + 2 * DCol(m.dir)
    requires g.board[m.landing].None?
    ensures MovePiece(g, m).Success? && MovePiece(g, m).value.1 == Piece(King, c)
    ensures MovePiece(g, m).value.0.board[RookFrom(c, m.dir)] == g.board[RookFrom(c, m.dir)]
    ensures MovePiece(g, m).value.0.board[RookTo(c, m.dir)] == g.board[RookTo(c, m.dir)]
  {
    assert Conversion !in m.flags;
    RookSquaresApart(c, m.dir, m.landing);
  }

  /** The board edits of castling on four distinct squares: the king leaves `start` for
      `landing`, the corner piece leaves `rf` for `rt`. */
  lemma CastleBoard(b: Board, start: Square, landing: Square, rf: Square, rt: Square, k: Piece)
    requires start != landing && start != rf && start != rt
    requires landing != rf && landing != rt && rf != rt
    ensures var b1 := b[landing := None][start := None][landing := Some(k)];
      var b2 := b1[rf := None][rt := b1[rf]];
      && b2[landing] == Some(k) && b2[rt] == b[rf] && b2[start].None? && b2[rf].None?
  {
  }

  /** A move played from the king's home square leaves its colour no castling right. */
  lemma MoveFromHomeClearsRights(g: Gamestate, c: Color, m: Move)
    requires m.start == KingHome(c) && MakeMove(g, m).Success?
    ensures var h := MakeMove(g, m).value;
      if c == White then !h.whiteCastleEast && !h.whiteCastleWest else !h.blackCastleEast && !h.blackCastleWest
  {
  }

  /** Every move `PossibleMoves` keeps on a well-formed position can be played: only a
      castling move also needs the corner piece. The rook's target square is free because
      the king's one-square step onto it comes earlier in the castle's direction run and
      would have blocked it. */
  lemma KeptMovePlays(g: Gamestate, start: Square, i: int)
    requires Wf(g) && g.board[start].Some?
    requires PossibleMoves(g, start).Success?
    requires var pm := PossibleMoves(g, start).value; 0 <= i < |pm.keep| && pm.keep[i]
    requires var m := Table(g.board[start].value, start)[i];
      IsCastle(m) ==> g.board[RookFrom(g.board[start].value.color, m.dir)].Some?
    ensures MakeMove(g, Table(g.board[start].value, start)[i]).Success?
  {
    var p := g.board[start].value;
    var t := Table(p, start);
    PossibleKeep(g, start);
    assert t[i] in t;
    if IsCastle(t[i]) {
      KeptCastleRookTargetFree(g, start, i);
    }
    LegalMovePlays(g, p, t[i]);
  }

  /** A kept castling move has an empty square for the rook. */
  lemma KeptCastleRookTargetFree(g: Gamestate, start: Square, i: int)
    requires Wf(g) && g.board[start].Some?
    requires PossibleMoves(g, start).Success?
    requires var pm := PossibleMoves(g, start).value; 0 <= i < |pm.keep| && pm.keep[i]
    requires IsCastle(Table(g.board[start].value, start)[i])
    ensures var m := Table(g.board[start].value, start)[i];
      g.board[RookTo(g.board[start].value.color, m.dir)].None?
  {
    KeptIsOpen(g, start, i);
    OpenCastleTargetFree(g, start, g.board[start].value, i);
  }

  /** A castling move no earlier move of its run blocks has an empty square for the rook. */
  lemma OpenCastleTargetFree(g: Gamestate, start: Square, p: Piece, i: int)
    requires Wf(g) && g.board[start] == Some(p)
    requires 0 <= i < |Table(p, start)| && IsCastle(Table(p, start)[i])
    requires Open(Dirs(Table(p, start)), WalkBlocks(g, start, p, Table(p, start)), i)
    ensures g.board[RookTo(p.color, Table(p, start)[i].dir)].None?
  {
    var t := Table(p, start);
    assert t[i] in t;
    KingCastleSquares(p, start, t[i]);
    var j := CastleStepEarlier(p.color, t, i);
    assert !WalkBlocks(g, start, p, t)[j];
    UnblockedStepFree(g, start, p, j);
  }

  /** A plain step that does not block lands on an empty square. */
  lemma UnblockedStepFree(g: Gamestate, start: Square, p: Piece, j: int)
    requires Wf(g) && g.board[start] == Some(p)
    requires 0 <= j < |Table(p, start)| && Table(p, start)[j].flags == Either
    requires !WalkBlocks(g, start, p, Table(p, start))[j]
    ensures g.board[Table(p, start)[j].landing].None?
  {
    var t := Table(p, start);
    assert t[j] in t;
    StepVerdictBlocks(g, start, p, t[j]);
    WalkBlocksAt(g, start, p, t, j);
  }

  /** A kept move was examined: no earlier move of its direction run blocked. */
  lemma KeptIsOpen(g: Gamestate, start: Square, i: int)
    requires Wf(g) && g.board[start].Some?
    requires PossibleMoves(g, start).Success?
    requires var pm := PossibleMoves(g, start).value; 0 <= i < |pm.keep| && pm.keep[i]
    ensures var t := Table(g.board[start].value, start);
      0 <= i < |t| && Open(Dirs(t), WalkBlocks(g, start, g.board[start].value, t), i)
  {
    PossibleKeep(g, start);
  }

  /** A plain king step is judged Refused, Exposed or Kept: it is neither a castle nor an
      en-passant move, and it never faults. */
  lemma StepVerdictBlocks(g: Gamestate, start: Square, p: Piece, m: Move)
    requires Wf(g) && g.board[start] == Some(p) && m in Table(p, start) && m.flags == Either
    ensures Judge(g, start, p, m) in {Refused, Exposed, Kept}
  {
    JudgeCrash(g, start, p, m);
  }

  /** Entry `j` of a walk's blocking pattern. */
  lemma WalkBlocksAt(g: Gamestate, start: Square, p: Piece, t: seq<Move>, j: int)
    requires 0 <= j < |t|
    ensures WalkBlocks(g, start, p, t)[j] <==>
      Judge(g, start, p, t[j]) in {Refused, Exposed, Kept}
      && (g.board[t[j].landing].Some? || g.board[t[j].capture].Some?)
  {
  }

  /** In the king's table at home, the one-square step along a castling direction, onto the
      rook's target square, comes earlier in the same direction run as the castle move. */
  lemma CastleStepEarlier(c: Color, t: seq<Move>, i: int) returns (j: int)
    requires t == Table(Piece(King, c), KingHome(c)) && 0 <= i < |t| && IsCastle(t[i])
    ensures 0 <= j < i && SameRun(Dirs(t), j, i)
    ensures t[j] == Move(Either, t[i].dir, KingHome(c), RookTo(c, t[i].dir), RookTo(c, t[i].dir), None)
  {
    var s := KingHome(c);
    var m := t[i];
    assert m in t;
    KingCastleSquares(Piece(King, c), s, m);
    RookStepInTable(c, m.dir);
    CastleDistances(c, m.dir, m.landing);
    TableLayout(Piece(King, c), s);
    j := EarlierInRun(t, s, Move(Either, m.dir, s, RookTo(c, m.dir), RookTo(c, m.dir), None), i);
  }

  /** The king's one-square step onto the rook's target square is in its home table. */
  lemma RookStepInTable(c: Color, d: Dir)
    requires d == E || d == W
    ensures Move(Either, d, KingHome(c), RookTo(c, d), RookTo(c, d), None) in KingTable(c, KingHome(c))
  {
    var s := KingHome(c);
    assert s + Value(d) == RookTo(c, d) && d in KingDirs;
    KingWalkFirst(c, s, d);
    KingWalkInTable(c, s, d, 0);
  }

  /** The rook's target square is one square from the king's home, the castle landing two. */
  lemma CastleDistances(c: Color, d: Dir, landing: Square)
    requires d == E || d == W
    requires Row(landing) == Row(KingHome(c)) && Col(landing) == Col(KingHome(c)) + 2 * DCol(d)
    ensures Dist(KingHome(c), RookTo(c, d)) == 1 && Dist(KingHome(c), landing) == 2
  {
  }

  /** In a table whose directions stand together and whose moves go outwards, a nearer move
      of the same direction comes earlier, in the same run. */
  lemma EarlierInRun(t: seq<Move>, s: Square, step: Move, i: int) returns (j: int)
    requires Contiguous(t) && Ordered(t, s)
    requires step in t && 0 <= i < |t| && step.dir == t[i].dir
    requires Dist(s, step.landing) < Dist(s, t[i].landing)
    ensures 0 <= j < i && SameRun(Dirs(t), j, i) && t[j] == step
  {
    j :| 0 <= j < |t| && t[j] == step;
    ContiguousRun(Dirs(t), j, i);
  }

  /** A legal table move can be played; a castling move needs the corner piece and an empty
      square for it as well. */
  lemma LegalMovePlays(g: Gamestate, p: Piece, m: Move)
    requires Wf(g) && g.board[m.start] == Some(p)
    requires m in Table(p, m.start) && Legal(g, m.start, p, m)
    requires IsCastle(m) ==> g.board[RookFrom(p.color, m.dir)].Some? && g.board[RookTo(p.color, m.dir)].None?
    ensures MakeMove(g, m).Success?
  {
    TableCoherent(p, m.start);
    assert Coherent(m.start, m);
    assert MovePiece(g, m).Success?;
    if IsCastle(m) {
      KingCastleSquares(p, m.start, m);
      CastleRookFree(g, p, m);
    }
  }

  /** After the king's part of a castling move the rook's corner and target are as before. */
  lemma CastleRookFree(g: Gamestate, p: Piece, m: Move)
    requires MovePiece(g, m).Success? && IsCastle(m) && m.capture == m.landing
    requires RookFrom(p.color, m.dir) !in {m.start, m.landing} && RookTo(p.color, m.dir) !in {m.start, m.landing}
    requires MovePiece(g, m).value.1.color == p.color
    requires g.board[RookFrom(p.color, m.dir)].Some? && g.board[RookTo(p.color, m.dir)].None?
    ensures MakeMove(g, m).Success?
  {
    var g1 := MovePiece(g, m).value.0;
    assert g1.board[RookFrom(p.color, m.dir)] == g.board[RookFrom(p.color, m.dir)];
    assert g1.board[RookTo(p.color, m.dir)].None?;
    assert MoveRook(g1, p.color, m.dir).Success?;
  }

  /** The king lands in column G (east) or C (west); the rook in column F or D. */
  lemma CastleColumns(c: Color, m: Move)
    requires m.dir == E || m.dir == W
    requires Row(m.landing) == Row(KingHome(c)) && Col(m.landing) == Col(KingHome(c)) + 2 * DCol(m.dir)
    ensures Col(m.landing) == (if m.dir == E then 6 else 2) && Col(RookTo(c, m.dir)) == (if m.dir == E then 5 else 3)
  {
  }

  /** A castling move comes from the king's table, from its home square, along E or W, and
      neither the rook's corner nor its target is the start or the landing square. */
  lemma KingCastleSquares(p: Piece, start: Square, m: Move)
    requires m in Table(p, start) && IsCastle(m)
    ensures p.kind == King && start == KingHome(p.color) && (m.dir == E || m.dir == W)
    ensures m.flags == {Quiet, Castle}
    ensures m.capture == m.landing && Row(m.landing) == Row(start) && Col(m.landing) == Col(start) + 2 * DCol(m.dir)
    ensures RookFrom(p.color, m.dir) !in {start, m.landing} && RookTo(p.color, m.dir) !in {start, m.landing}
  {
    CastleIsKing(p, start, m);
    KingCastleShape(p.color, start, m);
    RookSquaresApart(p.color, m.dir, m.landing);
  }

  /** Only king tables hold castling moves. */
  lemma CastleIsKing(p: Piece, start: Square, m: Move)
    requires m in Table(p, start) && IsCastle(m)
    ensures p.kind == King
  {
    if p.kind == Pawn {
      PawnTableCoherent(p.color, start);
    } else if p.kind != King {
      GenericTableCoherent(p, start);
    }
  }

  /** A castling move of a king table is the two-square move from home along E or W. */
  lemma KingCastleShape(c: Color, start: Square, m: Move)
    requires m in KingTable(c, start) && IsCastle(m)
    ensures start == KingHome(c) && (m.dir == E || m.dir == W)
    ensures m.flags == {Quiet, Castle}
    ensures m.capture == m.landing && Row(m.landing) == Row(start) && Col(m.landing) == Col(start) + 2 * DCol(m.dir)
  {
    KingTableFacts(c, start);
    assert KingMoveOk(c, start, m);
  }

  /** On the home row, two columns from the king along E or W, the landing square is neither
      rook square. */
  lemma RookSquaresApart(c: Color, d: Dir, landing: Square)
    requires d == E || d == W
    requires Row(landing) == Row(KingHome(c)) && Col(landing) == Col(KingHome(c)) + 2 * DCol(d)
    ensures RookFrom(c, d) !in {KingHome(c), landing} && RookTo(c, d) !in {KingHome(c), landing}
  {
  }

  // ---------------------------------------------------------------------------
  // All moves, game over, the turn step

  /** `getAllMoves` over a list of squares: each square's enumerated kept moves, in list
      order. An empty square's null move list faults in the enumerator. */
  function AllMovesFrom(g: Gamestate, squares: seq<Square>): (r: Result<seq<Move>>)
    ensures r.Success? ==> forall s :: s in squares ==> Enumerates(g, s)
  {
    if squares == [] then Success([])
    else
      var pm :- PossibleMoves(g, squares[0]);
      var ms :- Enumerate(pm);
      var rest :- AllMovesFrom(g, squares[1..]);
      assert forall x :: x in squares ==> x == squares[0] || x in squares[1..];
      Success(ms + rest)
  }

  /** The list faults exactly when some square of the list yields no move list. */
  lemma {:induction false} AllMovesFault(g: Gamestate, squares: seq<Square>)
    ensures AllMovesFrom(g, squares).Failure? <==> exists s :: s in squares && !Enumerates(g, s)
    decreases |squares|
  {
    if squares != [] {
      AllMovesFault(g, squares[1..]);
      assert forall x :: x in squares <==> x == squares[0] || x in squares[1..];
      if Enumerates(g, squares[0]) {
        assert AllMovesFrom(g, squares).Failure? <==> AllMovesFrom(g, squares[1..]).Failure?;
      } else {
        assert AllMovesFrom(g, squares).Failure?;
      }
    }
  }

  /** The list is empty exactly when no square has a kept move. */
  lemma {:induction false} AllMovesEmpty(g: Gamestate, squares: seq<Square>)
    requires AllMovesFrom(g, squares).Success?
    ensures AllMovesFrom(g, squares).value == [] <==>
      forall s :: s in squares ==> PossibleMoves(g, s).Success? && MoveCount(PossibleMoves(g, s).value) == 0
    decreases |squares|
  {
    if squares != [] {
      var pm := PossibleMoves(g, squares[0]).value;
      EnumerateKept(pm);
      AllMovesEmpty(g, squares[1..]);
      assert forall x :: x in squares <==> x == squares[0] || x in squares[1..];
    }
  }

  /** The list holds exactly the enumerated kept moves of the listed squares. */
  lemma {:induction false} AllMovesMembers(g: Gamestate, squares: seq<Square>, m: Move)
    requires AllMovesFrom(g, squares).Success?
    ensures m in AllMovesFrom(g, squares).value <==>
      exists s :: s in squares && Enumerates(g, s) && m in Enumerate(PossibleMoves(g, s).value).value
    decreases |squares|
  {
    if squares != [] {
      AllMovesMembers(g, squares[1..], m);
      assert forall x :: x in squares <==> x == squares[0] || x in squares[1..];
    }
  }

  /** Square `s` yields a move list: `PossibleMoves` does not fault there and has a table. */
  predicate Enumerates(g: Gamestate, s: Square) {
    PossibleMoves(g, s).Success? && PossibleMoves(g, s).value.table.Some?
  }

  /** `getAllMoves`: the side to move's squares. */
  function AllMoves(g: Gamestate): Result<seq<Move>> {
    AllMovesFrom(g, PiecesOf(g, g.turn))
  }

  /** The first loop of `gameOver`: true at the first square whose piece has a move; a
      fault of `PossibleMoves` before that square is passed on. */
  function AnyMoves(g: Gamestate, squares: seq<Square>): (r: Result<bool>)
    ensures r == Success(true) ==>
      exists s :: s in squares && PossibleMoves(g, s).Success? && MoveCount(PossibleMoves(g, s).value) != 0
    ensures r == Success(false) <==>
      forall s :: s in squares ==> PossibleMoves(g, s).Success? && MoveCount(PossibleMoves(g, s).value) == 0
  {
    if squares == [] then Success(false)
    else
      var s := squares[0];
      assert forall x :: x in squares <==> x == s || x in squares[1..];
      var pm :- PossibleMoves(g, s);
      if MoveCount(pm) != 0 then Success(true) else AnyMoves(g, squares[1..])
  }

  /** The outcome `gameOver` reports: the game goes on, or it is over with a winner or, for
      `None`, a draw (`PieceColor_NB`). */
  datatype Outcome = Ongoing | Finished(winner: Option<Color>)

  /** `gameOver`: the game goes on while some piece of the side to move has a move;
      otherwise the opponent wins if its attack map reports a check, and it is a draw if
      not. */
  function GameOver(g: Gamestate): Result<Outcome> {
    var any :- AnyMoves(g, PiecesOf(g, g.turn));
    if any then Success(Ongoing)
    else
      var control :- ControlledPositions(g, Opponent(g.turn));
      Success(Finished(if control.check.Some? then Some(Opponent(g.turn)) else None))
  }

  /** On a well-formed position where every piece of the side to move yields its moves,
      the game is over exactly when the side to move has no move at all (FIDE Laws,
      Articles 5.1.1 and 5.2.1); it is then won by the opponent exactly when the opponent
      reaches the side to move's king (checkmate), and drawn otherwise (stalemate). */
  lemma GameOverIffNoMoves(g: Gamestate)
    requires Wf(g) && AllMoves(g).Success?
    ensures GameOver(g).Success?
    ensures GameOver(g).value.Finished? <==> AllMoves(g).value == []
    ensures GameOver(g).value.Finished? ==>
      (GameOver(g).value.winner == Some(Opponent(g.turn)) <==> Checked(g, Opponent(g.turn)))
    ensures GameOver(g).value.Finished? ==> GameOver(g).value.winner != Some(g.turn)
  {
    AnyMovesAgrees(g, PiecesOf(g, g.turn));
    ControlFromBoard(g, Opponent(g.turn));
  }

  /** Where the move list can be built, the first loop of `gameOver` finds a move exactly
      when the list is not empty. */
  lemma {:induction false} AnyMovesAgrees(g: Gamestate, squares: seq<Square>)
    requires AllMovesFrom(g, squares).Success?
    ensures AnyMoves(g, squares) == Success(AllMovesFrom(g, squares).value != [])
    decreases |squares|
  {
    if squares != [] {
      AnyMovesAgrees(g, squares[1..]);
      EnumerateKept(PossibleMoves(g, squares[0]).value);
    }
  }

  /** The hand-over between two turns in `PlayGame`: the turn passes to the other colour
      and that colour's en-passant square is cleared. */
  function HandOver(g: Gamestate): (r: Gamestate)
    ensures r.turn == Opponent(g.turn)
    ensures GetEnPassant(r, r.turn).None? && GetEnPassant(r, g.turn) == GetEnPassant(g, g.turn)
    ensures r.board == g.board && RightsWithin(r, g) && RightsWithin(g, r)
    ensures Wf(g) ==> Wf(r)
  {
    var g1 := FlipTurn(g).0;
    SetEnPassant(g1, g1.turn, None)
  }

  /** The turn step of `PlayGame`: the move is made, the turn passes, the new side to move's
      en-passant square is cleared, and the game-over test runs. */
  function TurnStep(g: Gamestate, m: Move): (r: Result<(Gamestate, Outcome)>)
    ensures r.Success? ==> MakeMove(g, m).Success?
    ensures r.Success? ==> r.value.0.turn == Opponent(g.turn)
    ensures r.Success? ==> GetEnPassant(r.value.0, r.value.0.turn).None?
    ensures r.Success? ==> GetEnPassant(r.value.0, g.turn) == GetEnPassant(MakeMove(g, m).value, g.turn)
    ensures r.Success? ==> r.value.0.board == MakeMove(g, m).value.board && RightsWithin(r.value.0, g)
    ensures r.Success? && Wf(g) ==> Wf(r.value.0)
    ensures r.Success? ==> GameOver(r.value.0) == Success(r.value.1)
  {
    match MakeMove(g, m)
    case Failure(f) => Failure(f)
    case Success(g1) =>
      var g2 := HandOver(g1);
      match GameOver(g2)
      case Failure(f) => Failure(f)
      case Success(outcome) => Success((g2, outcome))
  }

  /** The en-passant window lasts one ply: the square a side's double step records is
      visible during the opponent's turn and gone once the side is to move again. */
  lemma EnPassantWindow(g: Gamestate, m1: Move, m2: Move)
    requires TurnStep(g, m1).Success?
    requires TurnStep(TurnStep(g, m1).value.0, m2).Success?
    requires HoldsColor(g, m1.start, g.turn) && m1.capture != m1.start && SetsEP(m1)
    ensures GetEnPassant(TurnStep(g, m1).value.0, g.turn) == Some(m1.landing)
    ensures GetEnPassant(TurnStep(TurnStep(g, m1).value.0, m2).value.0, g.turn).None?
  {
    var mover := MovePiece(g, m1).value.1;
    assert mover.color == g.turn;
    assert Opponent(Opponent(g.turn)) == g.turn;
  }
}
