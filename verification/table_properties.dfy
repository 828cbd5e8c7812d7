/** What the move tables promise: the shape of every generic, king and pawn move, the
    rays of the sliders, and the layout every table shares (each direction's moves stand
    together, listed by increasing distance from the origin). */
module TableProperties {
  import opened Wrappers
  import opened Squares
  import opened Position
  import opened MoveRecords
  import opened Tables

  function Abs(x: int): nat {
    if x < 0 then -x else x
  }

  /** Distance in king steps between two squares. */
  function Dist(a: Square, b: Square): nat {
    var dr := Abs(Row(a) - Row(b));
    var dc := Abs(Col(a) - Col(b));
    if dr < dc then dc else dr
  }

  /** Within each direction, moves are listed by non-decreasing distance from `start`. */
  predicate Ordered(t: seq<Move>, start: Square) {
    forall i, j :: 0 <= i < j < |t| && t[i].dir == t[j].dir ==>
      Dist(start, t[i].landing) <= Dist(start, t[j].landing)
  }

  /** All moves of `t` are listed by non-decreasing distance from `start`. */
  predicate SegmentOrdered(t: seq<Move>, start: Square) {
    forall i, j :: 0 <= i < j < |t| ==> Dist(start, t[i].landing) <= Dist(start, t[j].landing)
  }

  /** Within each direction, moves are listed by strictly increasing distance from `start`:
      no square is listed twice along one direction. */
  predicate Strict(t: seq<Move>, start: Square) {
    forall i, j :: 0 <= i < j < |t| && t[i].dir == t[j].dir ==>
      Dist(start, t[i].landing) < Dist(start, t[j].landing)
  }

  predicate SegmentStrict(t: seq<Move>, start: Square) {
    forall i, j :: 0 <= i < j < |t| ==> Dist(start, t[i].landing) < Dist(start, t[j].landing)
  }

  /** `pos` lies on the half-line from `start` along `d` (including `start`). */
  predicate Aligned(start: Square, pos: Square, d: Dir) {
    && (DRow(d) > 0 ==> Row(pos) >= Row(start))
    && (DRow(d) < 0 ==> Row(pos) <= Row(start))
    && (DRow(d) == 0 ==> Row(pos) == Row(start))
    && (DCol(d) > 0 ==> Col(pos) >= Col(start))
    && (DCol(d) < 0 ==> Col(pos) <= Col(start))
    && (DCol(d) == 0 ==> Col(pos) == Col(start))
  }

  lemma AlignedStep(start: Square, a: Square, b: Square, d: Dir)
    requires Aligned(start, a, d) && StepOf(a, b, d)
    ensures Aligned(start, b, d)
    ensures Dist(start, b) > Dist(start, a)
  {
  }

  // ---------------------------------------------------------------------------
  // Concatenation of per-direction segments

  lemma ContiguousPrepend(seg: seq<Move>, d: Dir, rest: seq<Move>)
    requires AllAlong(seg, d) && Contiguous(rest)
    requires forall m :: m in rest ==> m.dir != d
    ensures Contiguous(seg + rest)
  {
    var t := seg + rest;
    forall i, j, k | 0 <= i < j < k < |t| && t[i].dir == t[k].dir
      ensures t[j].dir == t[i].dir
    {
      if i < |seg| {
        assert t[i] in seg;
        assert k < |seg| ==> t[j] in seg;
      } else {
        assert t[i] == rest[i - |seg|] && t[j] == rest[j - |seg|] && t[k] == rest[k - |seg|];
      }
    }
  }

  lemma OrderedPrepend(seg: seq<Move>, d: Dir, rest: seq<Move>, start: Square)
    requires AllAlong(seg, d) && SegmentOrdered(seg, start) && Ordered(rest, start)
    requires forall m :: m in rest ==> m.dir != d
    ensures Ordered(seg + rest, start)
  {
    var t := seg + rest;
    forall i, j | 0 <= i < j < |t| && t[i].dir == t[j].dir
      ensures Dist(start, t[i].landing) <= Dist(start, t[j].landing)
    {
      if i < |seg| {
        assert t[i] in seg;
        assert j < |seg| ==> t[j] == seg[j];
      } else {
        assert t[i] == rest[i - |seg|] && t[j] == rest[j - |seg|];
      }
    }
  }

  lemma StrictSegmentOrdered(t: seq<Move>, start: Square)
    ensures SegmentStrict(t, start) ==> SegmentOrdered(t, start)
  {
  }

  lemma StrictPrepend(seg: seq<Move>, d: Dir, rest: seq<Move>, start: Square)
    requires AllAlong(seg, d) && SegmentStrict(seg, start) && Strict(rest, start)
    requires forall m :: m in rest ==> m.dir != d
    ensures Strict(seg + rest, start)
  {
    var t := seg + rest;
    forall i, j | 0 <= i < j < |t| && t[i].dir == t[j].dir
      ensures Dist(start, t[i].landing) < Dist(start, t[j].landing)
    {
      if i < |seg| {
        assert t[i] in seg;
        assert j < |seg| ==> t[j] == seg[j];
      } else {
        assert t[i] == rest[i - |seg|] && t[j] == rest[j - |seg|];
      }
    }
  }

  lemma SegmentOrderedConcat(a: seq<Move>, b: seq<Move>, start: Square)
    requires SegmentOrdered(a, start) && SegmentOrdered(b, start)
    requires forall x, y :: x in a && y in b ==> Dist(start, x.landing) <= Dist(start, y.landing)
    ensures SegmentOrdered(a + b, start)
  {
    var t := a + b;
    forall i, j | 0 <= i < j < |t|
      ensures Dist(start, t[i].landing) <= Dist(start, t[j].landing)
    {
      if j < |a| {
        assert t[i] == a[i] && t[j] == a[j];
      } else if i >= |a| {
        assert t[i] == b[i - |a|] && t[j] == b[j - |a|];
      } else {
        assert t[i] in a && t[j] in b;
      }
    }
  }

  lemma {:induction false} OfDirAppend(a: seq<Move>, b: seq<Move>, d: Dir)
    ensures OfDir(a + b, d) == OfDir(a, d) + OfDir(b, d)
  {
    if a != [] {
      assert (a + b)[1..] == a[1..] + b;
      OfDirAppend(a[1..], b, d);
    } else {
      assert a + b == b;
    }
  }

  lemma {:induction false} OfDirAlong(t: seq<Move>, d: Dir, e: Dir)
    requires AllAlong(t, e)
    ensures OfDir(t, d) == if d == e then t else []
  {
    if t != [] {
      assert forall m :: m in t[1..] ==> m in t;
      OfDirAlong(t[1..], d, e);
      assert t[0] in t;
      if d == e {
        assert [t[0]] + t[1..] == t;
      }
    }
  }

  // ---------------------------------------------------------------------------
  // Generic tables

  /** Along a slider or stepper ray the distance from `start` grows strictly. */
  lemma {:induction false} RayOrdered(start: Square, d: Dir, pos: Square, multiple: bool)
    requires Aligned(start, pos, d)
    ensures SegmentStrict(Ray(start, d, pos, multiple), start)
    ensures forall m :: m in Ray(start, d, pos, multiple) ==> Dist(start, m.landing) > Dist(start, pos)
    decreases Room(pos, d)
  {
    var r := Ray(start, d, pos, multiple);
    match MovePosition(pos, d)
    case None =>
    case Some(next) =>
      AlignedStep(start, pos, next, d);
      if multiple {
        var rest := Ray(start, d, next, multiple);
        RayOrdered(start, d, next, multiple);
        assert r == [Move(Either, d, start, next, next, None)] + rest;
        StrictCons(Move(Either, d, start, next, next, None), rest, start);
      } else {
        assert r == [Move(Either, d, start, next, next, None)];
      }
  }

  /** A move nearer to `start` than every move of a strictly ordered segment may be put
      in front of it. */
  lemma StrictCons(x: Move, rest: seq<Move>, start: Square)
    requires SegmentStrict(rest, start)
    requires forall m :: m in rest ==> Dist(start, m.landing) > Dist(start, x.landing)
    ensures SegmentStrict([x] + rest, start)
  {
    var t := [x] + rest;
    forall i, j | 0 <= i < j < |t| ensures Dist(start, t[i].landing) < Dist(start, t[j].landing) {
      if i == 0 {
        assert t[j] in rest;
      } else {
        assert t[i] == rest[i - 1] && t[j] == rest[j - 1];
      }
    }
  }

  /** No direction is listed twice in a generic piece's direction list. */
  lemma GenericDirsDistinct(k: PieceKind)
    ensures DistinctDirs(GenericDirs(k))
  {
    if k == Knight {
      KnightDirsDistinct();
    } else if k == Queen {
      KingDirsDistinct();
    }
  }

  lemma KnightDirsDistinct()
    ensures DistinctDirs(KnightDirs)
  {
  }

  lemma KingDirsDistinct()
    ensures DistinctDirs(KingDirs)
  {
  }

  lemma {:induction false} GenericTableLayout(start: Square, dirs: seq<Dir>, multiple: bool)
    requires DistinctDirs(dirs)
    ensures Contiguous(GenericTable(start, dirs, multiple))
    ensures Ordered(GenericTable(start, dirs, multiple), start)
    ensures Strict(GenericTable(start, dirs, multiple), start)
    ensures forall m :: m in GenericTable(start, dirs, multiple) ==> Dist(start, m.landing) > 0
  {
    if dirs != [] {
      var here := Ray(start, dirs[0], start, multiple);
      var rest := GenericTable(start, dirs[1..], multiple);
      assert DistinctDirs(dirs[1..]);
      GenericTableLayout(start, dirs[1..], multiple);
      assert forall m :: m in rest ==> m.dir in dirs[1..];
      assert dirs[0] !in dirs[1..];
      ContiguousPrepend(here, dirs[0], rest);
      RayOrdered(start, dirs[0], start, multiple);
      StrictSegmentOrdered(here, start);
      OrderedPrepend(here, dirs[0], rest, start);
      StrictPrepend(here, dirs[0], rest, start);
      assert forall m :: m in here + rest ==> m in here || m in rest;
    }
  }

  lemma {:induction false} GenericTableRuns(start: Square, dirs: seq<Dir>, multiple: bool, d: Dir)
    requires DistinctDirs(dirs)
    ensures OfDir(GenericTable(start, dirs, multiple), d) == if d in dirs then Ray(start, d, start, multiple) else []
  {
    if dirs != [] {
      var here := Ray(start, dirs[0], start, multiple);
      var rest := GenericTable(start, dirs[1..], multiple);
      assert DistinctDirs(dirs[1..]);
      GenericTableRuns(start, dirs[1..], multiple, d);
      OfDirAppend(here, rest, d);
      OfDirAlong(here, d, dirs[0]);
      assert d in dirs <==> d == dirs[0] || d in dirs[1..];
      if d == dirs[0] {
        assert d !in dirs[1..];
        assert here + [] == here;
      }
    }
  }

  /** The queen, rook, bishop and knight tables: every move from `s` starts at `s`, is an
      EitherType move whose capture square is its landing square, and the moves along each
      of the piece's directions are exactly the successive squares of that direction up to
      the board's edge (sliders) or the single on-board square (knight), listed together. */
  lemma GenericTableShape(p: Piece, s: Square)
    requires p.kind in {Queen, Rook, Bishop, Knight}
    ensures forall m :: m in Table(p, s) ==> m.start == s && m.flags == Either && m.capture == m.landing
    ensures Contiguous(Table(p, s)) && Strict(Table(p, s), s)
    ensures p.kind != Knight ==> forall d :: OfDir(Table(p, s), d) == (if d in GenericDirs(p.kind) then Ray(s, d, s, true) else [])
    ensures p.kind == Knight ==> forall d :: OfDir(Table(p, s), d) == (if d in KnightDirs then Ray(s, d, s, false) else [])
    ensures p.kind == Knight ==> forall d :: |OfDir(Table(p, s), d)| <= 1
  {
    GenericTableBasics(p, s);
    GenericTableAllRuns(p, s);
  }

  /** A generic piece's table is the generic walk over its directions. */
  lemma TableIsGeneric(p: Piece, s: Square)
    requires p.kind in {Queen, Rook, Bishop, Knight}
    ensures Table(p, s) == GenericTable(s, GenericDirs(p.kind), p.kind != Knight)
    ensures DistinctDirs(GenericDirs(p.kind))
  {
    GenericDirsDistinct(p.kind);
  }

  /** The runs of every direction of a generic table. */
  lemma GenericTableAllRuns(p: Piece, s: Square)
    requires p.kind in {Queen, Rook, Bishop, Knight}
    ensures forall d :: OfDir(Table(p, s), d) == (if d in GenericDirs(p.kind) then Ray(s, d, s, p.kind != Knight) else [])
  {
    var dirs := GenericDirs(p.kind);
    var multiple := p.kind != Knight;
    TableIsGeneric(p, s);
    forall d
      ensures OfDir(Table(p, s), d) == if d in dirs then Ray(s, d, s, multiple) else []
    {
      GenericTableRuns(s, dirs, multiple, d);
    }
  }

  /** The part of `GenericTableShape` the move filters rely on. */
  lemma GenericTableBasics(p: Piece, s: Square)
    requires p.kind in {Queen, Rook, Bishop, Knight}
    ensures forall m :: m in Table(p, s) ==> m.start == s && m.flags == Either && m.capture == m.landing
    ensures Contiguous(Table(p, s)) && Strict(Table(p, s), s)
    ensures forall m :: m in Table(p, s) ==> Dist(s, m.landing) > 0
  {
    TableIsGeneric(p, s);
    GenericTableLayout(s, GenericDirs(p.kind), p.kind != Knight);
  }

  function GenericDirs(k: PieceKind): seq<Dir> {
    match k
    case Queen => QueenDirs
    case Rook => RookDirs
    case Bishop => BishopDirs
    case _ => KnightDirs
  }

  // ---------------------------------------------------------------------------
  // King table

  lemma SameSquare(a: Square, b: Square)
    requires Row(a) == Row(b) && Col(a) == Col(b)
    ensures a == b
  {
  }

  /** Every move of the king's walk along one direction from its own square is a king
      move, nearest first. */
  lemma KingWalkOk(c: Color, s: Square, d: Dir)
    ensures forall m :: m in KingWalk(c, s, d, s, Either) ==> KingMoveOk(c, s, m)
    ensures SegmentOrdered(KingWalk(c, s, d, s, Either), s)
  {
    if s == KingHome(c) && (d == E || d == W) {
      KingCastleWalk(c, d);
    } else {
      KingPlainWalk(c, s, d);
    }
  }

  /** The walk's first move is the EitherType step, when that step stays on the board. */
  lemma KingWalkFirst(c: Color, s: Square, d: Dir)
    requires OnBoard(Row(s) + DRow(d), Col(s) + DCol(d))
    ensures KingWalk(c, s, d, s, Either)[0] == Move(Either, d, s, s + Value(d), s + Value(d), None)
  {
    var next := MovePosition(s, d).value;
    assert KingWalk(c, s, d, s, Either)[0] == Move(Either, d, s, next, next, None);
  }

  /** Off the home row's castling directions the walk is the single step, if any. */
  lemma KingPlainWalk(c: Color, s: Square, d: Dir)
    requires !(s == KingHome(c) && (d == E || d == W))
    ensures OnBoard(Row(s) + DRow(d), Col(s) + DCol(d)) ==>
      KingWalk(c, s, d, s, Either) == [Move(Either, d, s, s + Value(d), s + Value(d), None)]
    ensures !OnBoard(Row(s) + DRow(d), Col(s) + DCol(d)) ==> KingWalk(c, s, d, s, Either) == []
    ensures forall m :: m in KingWalk(c, s, d, s, Either) ==> KingMoveOk(c, s, m)
    ensures SegmentOrdered(KingWalk(c, s, d, s, Either), s)
  {
    match MovePosition(s, d)
    case None =>
    case Some(next) =>
      var here := Move(Either, d, s, next, next, None);
      assert KingWalk(c, s, d, s, Either) == [here];
      assert KingMoveOk(c, s, here);
  }

  /** From the home square along E or W: the step, then the castling step. */
  lemma KingCastleWalk(c: Color, d: Dir)
    requires d == E || d == W
    ensures var s := KingHome(c);
      && KingWalk(c, s, d, s, Either) == [Move(Either, d, s, s + DCol(d), s + DCol(d), None),
                                          Move({Quiet, Castle}, d, s, s + 2 * DCol(d), s + 2 * DCol(d), None)]
      && (forall m :: m in KingWalk(c, s, d, s, Either) ==> KingMoveOk(c, s, m))
      && SegmentOrdered(KingWalk(c, s, d, s, Either), s)
  {
    var s := KingHome(c);
    KingCastleList(c, d);
    KingCastleMovesOk(c, d);
    KingCastleOrdered(c, d);
  }

  lemma KingCastleSteps(c: Color, d: Dir)
    requires d == E || d == W
    ensures var s := KingHome(c);
      && MovePosition(s, d) == Some(s + DCol(d))
      && MovePosition(s + DCol(d), d) == Some(s + 2 * DCol(d))
  {
  }

  lemma KingCastleList(c: Color, d: Dir)
    requires d == E || d == W
    ensures var s := KingHome(c);
      KingWalk(c, s, d, s, Either) == [Move(Either, d, s, s + DCol(d), s + DCol(d), None),
                                       Move({Quiet, Castle}, d, s, s + 2 * DCol(d), s + 2 * DCol(d), None)]
  {
    var s := KingHome(c);
    var f: set<MoveFlag> := {Quiet, Castle};
    assert Either + {Castle} - {Capture} == f;
    KingCastleSteps(c, d);
    KingCastleTail(c, d);
  }

  /** After the first step from home along E or W, the walk is the one castling move. */
  lemma KingCastleTail(c: Color, d: Dir)
    requires d == E || d == W
    ensures var s := KingHome(c);
      KingWalk(c, s, d, s + DCol(d), {Quiet, Castle}) == [Move({Quiet, Castle}, d, s, s + 2 * DCol(d), s + 2 * DCol(d), None)]
  {
    KingCastleSteps(c, d);
  }

  lemma KingCastleMovesOk(c: Color, d: Dir)
    requires d == E || d == W
    ensures var s := KingHome(c);
      var r := [Move(Either, d, s, s + DCol(d), s + DCol(d), None),
                Move({Quiet, Castle}, d, s, s + 2 * DCol(d), s + 2 * DCol(d), None)];
      forall m :: m in r ==> KingMoveOk(c, s, m)
  {
    var s := KingHome(c);
    assert KingMoveOk(c, s, Move(Either, d, s, s + DCol(d), s + DCol(d), None));
    assert KingMoveOk(c, s, Move({Quiet, Castle}, d, s, s + 2 * DCol(d), s + 2 * DCol(d), None));
  }

  lemma KingCastleOrdered(c: Color, d: Dir)
    requires d == E || d == W
    ensures var s := KingHome(c);
      SegmentOrdered([Move(Either, d, s, s + DCol(d), s + DCol(d), None),
                      Move({Quiet, Castle}, d, s, s + 2 * DCol(d), s + 2 * DCol(d), None)], s)
  {
    var s := KingHome(c);
    assert Dist(s, s + DCol(d)) == 1 && Dist(s, s + 2 * DCol(d)) == 2;
  }

  /** A king move is an EitherType step to a neighbouring square, or, only from the
      colour's home square and only along E or W, the two-square Move|Castle move. */
  predicate KingMoveOk(c: Color, s: Square, m: Move) {
    && m.start == s && m.capture == m.landing && m.conversion.None?
    && (|| (m.flags == Either && StepOf(s, m.landing, m.dir))
        || (&& m.flags == {Quiet, Castle} && s == KingHome(c) && (m.dir == E || m.dir == W)
            && Row(m.landing) == Row(s) && Col(m.landing) == Col(s) + 2 * DCol(m.dir)))
  }

  lemma {:induction false} KingTableFromFacts(c: Color, s: Square, dirs: seq<Dir>)
    requires DistinctDirs(dirs)
    ensures forall m :: m in KingTableFrom(c, s, dirs) ==> KingMoveOk(c, s, m)
    ensures Contiguous(KingTableFrom(c, s, dirs)) && Ordered(KingTableFrom(c, s, dirs), s)
  {
    if dirs != [] {
      var here := KingWalk(c, s, dirs[0], s, Either);
      var rest := KingTableFrom(c, s, dirs[1..]);
      assert DistinctDirs(dirs[1..]);
      KingTableFromFacts(c, s, dirs[1..]);
      KingWalkOk(c, s, dirs[0]);
      assert dirs[0] !in dirs[1..];
      assert AllAlong(here, dirs[0]);
      ContiguousPrepend(here, dirs[0], rest);
      OrderedPrepend(here, dirs[0], rest, s);
      assert forall m :: m in here + rest <==> m in here || m in rest;
    }
  }

  /** The king table: every move is a one-square EitherType step or, from E1 in the White
      table and E8 in the Black table, the two-square castling move along E or W (Move|Castle,
      never Capture); every on-board neighbour is there, and from the home square both
      castling moves are there. Directions stand together, nearest square first. */
  lemma KingTableFacts(c: Color, s: Square)
    ensures forall m :: m in KingTable(c, s) ==> KingMoveOk(c, s, m)
    ensures Contiguous(KingTable(c, s)) && Ordered(KingTable(c, s), s)
  {
    KingDirsDistinct();
    KingTableFromFacts(c, s, KingDirs);
  }

  /** Every on-board neighbour of the king's square is in its table as an EitherType move. */
  lemma KingTableHasSteps(c: Color, s: Square)
    ensures forall d :: d in KingDirs && OnBoard(Row(s) + DRow(d), Col(s) + DCol(d)) ==>
      Move(Either, d, s, s + Value(d), s + Value(d), None) in KingTable(c, s)
  {
    forall d | d in KingDirs && OnBoard(Row(s) + DRow(d), Col(s) + DCol(d))
      ensures Move(Either, d, s, s + Value(d), s + Value(d), None) in KingTable(c, s)
    {
      KingWalkFirst(c, s, d);
      KingWalkInTable(c, s, d, 0);
    }
  }

  /** From E1 (White) or E8 (Black) both two-square castling moves, Move|Castle, are in the
      table; whether they may be played is decided later, against the board. */
  lemma KingTableHasCastles(c: Color)
    ensures var s := KingHome(c);
      forall d :: d == E || d == W ==>
        Move({Quiet, Castle}, d, s, s + 2 * DCol(d), s + 2 * DCol(d), None) in KingTable(c, s)
  {
    forall d | d == E || d == W
      ensures Move({Quiet, Castle}, d, KingHome(c), KingHome(c) + 2 * DCol(d), KingHome(c) + 2 * DCol(d), None)
              in KingTable(c, KingHome(c))
    {
      KingCastleInTable(c, d);
    }
  }

  lemma KingCastleInTable(c: Color, d: Dir)
    requires d == E || d == W
    ensures var s := KingHome(c);
      Move({Quiet, Castle}, d, s, s + 2 * DCol(d), s + 2 * DCol(d), None) in KingTable(c, s)
  {
    var s := KingHome(c);
    KingCastleList(c, d);
    KingWalkInTable(c, s, d, 1);
  }

  lemma KingWalkInTable(c: Color, s: Square, d: Dir, k: nat)
    requires d in KingDirs && k < |KingWalk(c, s, d, s, Either)|
    ensures KingWalk(c, s, d, s, Either)[k] in KingTable(c, s)
  {
    KingTableFromHas(c, s, KingDirs, d, KingWalk(c, s, d, s, Either)[k]);
  }

  lemma {:induction false} KingTableFromHas(c: Color, s: Square, dirs: seq<Dir>, d: Dir, m: Move)
    requires d in dirs && m in KingWalk(c, s, d, s, Either)
    ensures m in KingTableFrom(c, s, dirs)
  {
    if d != dirs[0] {
      KingTableFromHas(c, s, dirs[1..], d, m);
    }
  }

  // ---------------------------------------------------------------------------
  // Pawn table

  /** The row a pawn starts from, whose straight double step sets the en-passant square. */
  function PawnHomeRow(c: Color): int {
    if c == White then 1 else 6
  }

  /** The row from which a pawn has en-passant moves in its table. */
  function EnPassantRow(c: Color): int {
    if c == White then 4 else 3
  }

  /** The square of the pawn an en-passant move landing on `landing` takes: the square
      behind the landing square, seen from the mover. */
  function EnPassantVictim(c: Color, landing: Square): int {
    if c == White then landing - 8 else landing + 8
  }

  function Forward(c: Color): Dir {
    if c == White then N else S
  }

  /** The shape of a pawn move from `s`. An en-passant move is a diagonal Capture|UseEnPassant
      step from the en-passant row whose capture square is behind the landing square. Any
      other move captures on its landing square, captures exactly when it is diagonal, moves
      quietly exactly when it is straight, and is one step, except the straight double step
      from the home row that sets the en-passant square. Conversion is flagged exactly when
      the move lands on the first or last row, and exactly those moves name a piece kind. */
  predicate PawnMoveOk(c: Color, s: Square, m: Move) {
    && m.start == s && m.dir in PawnDirs(c)
    && (Conversion in m.flags <==> IsConversionPosition(m.landing))
    && (Conversion in m.flags <==> m.conversion.Some?)
    && (UseEnPassant in m.flags ==>
          && m.flags == {UseEnPassant, Capture} && DCol(m.dir) != 0 && StepOf(s, m.landing, m.dir)
          && Row(s) == EnPassantRow(c) && m.capture == EnPassantVictim(c, m.landing))
    && (UseEnPassant !in m.flags ==>
          && m.capture == m.landing
          && m.flags <= {Quiet, Capture, SetsEnPassant, Conversion}
          && (Capture in m.flags <==> DCol(m.dir) != 0)
          && (Quiet in m.flags <==> DCol(m.dir) == 0)
          && (SetsEnPassant in m.flags ==>
                && DCol(m.dir) == 0 && Row(s) == PawnHomeRow(c)
                && Row(m.landing) == Row(s) + 2 * DRow(m.dir) && Col(m.landing) == Col(s))
          && (SetsEnPassant !in m.flags ==> StepOf(s, m.landing, m.dir)))
  }

  /** A promotion to a queen is immediately followed by the same move promoting to a rook,
      a bishop and a knight. */
  predicate PromotionGroups(t: seq<Move>) {
    forall i :: 0 <= i < |t| && t[i].conversion == Some(Queen) ==>
      && i + 3 < |t|
      && t[i + 1] == t[i].(conversion := Some(Rook))
      && t[i + 2] == t[i].(conversion := Some(Bishop))
      && t[i + 3] == t[i].(conversion := Some(Knight))
  }

  /** Every promotion move comes with its three siblings. */
  predicate PromotionComplete(t: seq<Move>) {
    forall m :: m in t && m.conversion.Some? ==>
      && m.(conversion := Some(Queen)) in t && m.(conversion := Some(Rook)) in t
      && m.(conversion := Some(Bishop)) in t && m.(conversion := Some(Knight)) in t
  }

  lemma PromotionConcat(a: seq<Move>, b: seq<Move>)
    requires PromotionGroups(a) && PromotionGroups(b)
    requires PromotionComplete(a) && PromotionComplete(b)
    ensures PromotionGroups(a + b) && PromotionComplete(a + b)
  {
    var t := a + b;
    forall i | 0 <= i < |t| && t[i].conversion == Some(Queen)
      ensures i + 3 < |t| && t[i + 1] == t[i].(conversion := Some(Rook))
      ensures t[i + 2] == t[i].(conversion := Some(Bishop)) && t[i + 3] == t[i].(conversion := Some(Knight))
    {
      if i < |a| {
        assert t[i] == a[i];
        assert t[i + 1] == a[i + 1] && t[i + 2] == a[i + 2] && t[i + 3] == a[i + 3];
      } else {
        var k := i - |a|;
        assert t[i] == b[k];
        assert t[i + 1] == b[k + 1] && t[i + 2] == b[k + 2] && t[i + 3] == b[k + 3];
      }
    }
    assert forall m :: m in t <==> m in a || m in b;
  }

  /** The double step: from the second-row square `next` (row 2 going N, row 5 going S) the
      walk adds exactly one Move|SetsEnPassant move one step further. */
  lemma PawnSecondStep(s: Square, d: Dir, next: Square)
    requires (d == N && Row(next) == 2) || (d == S && Row(next) == 5)
    ensures 0 <= next + Value(d) < 64
    ensures StepOf(next, next + Value(d), d)
    ensures PawnWalk(s, d, next, true) == [Move({Quiet, SetsEnPassant}, d, s, next + Value(d), next + Value(d), None)]
  {
    assert MovePosition(next, d).Some?;
    var next2 := MovePosition(next, d).value;
    assert PawnFlags(d, true) == {Quiet, SetsEnPassant};
    assert !IsConversionPosition(next2);
    assert EnPassantMoves(s, d, next2) == [];
  }

  lemma PawnStepsOk(c: Color, s: Square, d: Dir, next: Square)
    requires d in PawnDirs(c) && StepOf(s, next, d)
    ensures var here := StepMoves(s, d, next, PawnFlags(d, false));
            && (forall m :: m in here ==> PawnMoveOk(c, s, m) && Dist(s, m.landing) == 1)
            && SegmentOrdered(here, s) && PromotionGroups(here) && PromotionComplete(here)
  {
    if IsConversionPosition(next) {
      PawnPromotionsOk(c, s, d, next);
    } else {
      PawnPlainStepOk(c, s, d, next);
    }
  }

  lemma PawnPlainStepOk(c: Color, s: Square, d: Dir, next: Square)
    requires d in PawnDirs(c) && StepOf(s, next, d) && !IsConversionPosition(next)
    ensures var here := [Move(PawnFlags(d, false), d, s, next, next, None)];
            && (forall m :: m in here ==> PawnMoveOk(c, s, m) && Dist(s, m.landing) == 1)
            && SegmentOrdered(here, s) && PromotionGroups(here) && PromotionComplete(here)
  {
  }

  lemma PawnPromotionsOk(c: Color, s: Square, d: Dir, next: Square)
    requires d in PawnDirs(c) && StepOf(s, next, d) && IsConversionPosition(next)
    ensures var here := ConversionMoves(s, d, next, PawnFlags(d, false));
            && (forall m :: m in here ==> PawnMoveOk(c, s, m) && Dist(s, m.landing) == 1)
            && SegmentOrdered(here, s) && PromotionGroups(here) && PromotionComplete(here)
  {
    PawnPromotionMovesOk(c, s, d, next);
    PawnPromotionShape(s, d, next);
  }

  lemma PawnPromotionMovesOk(c: Color, s: Square, d: Dir, next: Square)
    requires d in PawnDirs(c) && StepOf(s, next, d) && IsConversionPosition(next)
    ensures forall m :: m in ConversionMoves(s, d, next, PawnFlags(d, false)) ==> PawnMoveOk(c, s, m) && Dist(s, m.landing) == 1
  {
    forall m | m in ConversionMoves(s, d, next, PawnFlags(d, false))
      ensures PawnMoveOk(c, s, m) && Dist(s, m.landing) == 1
    {
      PromotionMoveOk(c, s, d, next, m);
    }
  }

  /** One promotion of a pawn step onto the last row. */
  lemma PromotionMoveOk(c: Color, s: Square, d: Dir, next: Square, m: Move)
    requires d in PawnDirs(c) && StepOf(s, next, d) && IsConversionPosition(next)
    requires m.flags == PawnFlags(d, false) + {Conversion} && m.dir == d && m.start == s
    requires m.landing == next && m.capture == next && m.conversion.Some?
    ensures PawnMoveOk(c, s, m) && Dist(s, m.landing) == 1
  {
    assert UseEnPassant !in m.flags;
  }

  lemma PawnPromotionShape(s: Square, d: Dir, next: Square)
    ensures var here := ConversionMoves(s, d, next, PawnFlags(d, false));
            SegmentOrdered(here, s) && PromotionGroups(here) && PromotionComplete(here)
  {
    var here := ConversionMoves(s, d, next, PawnFlags(d, false));
    assert PromotionGroups(here) by {
      forall i | 0 <= i < |here| && here[i].conversion == Some(Queen)
        ensures i == 0
      {
      }
    }
  }

  lemma PawnEnPassantOk(c: Color, s: Square, d: Dir, next: Square)
    requires d in PawnDirs(c) && StepOf(s, next, d)
    ensures forall m :: m in EnPassantMoves(s, d, next) ==> PawnMoveOk(c, s, m) && Dist(s, m.landing) == 1
    ensures SegmentOrdered(EnPassantMoves(s, d, next), s)
    ensures PromotionGroups(EnPassantMoves(s, d, next)) && PromotionComplete(EnPassantMoves(s, d, next))
  {
  }

  /** The facts a pawn walk keeps. */
  predicate PawnSegmentOk(c: Color, s: Square, t: seq<Move>) {
    && (forall m :: m in t ==> PawnMoveOk(c, s, m))
    && SegmentOrdered(t, s) && PromotionGroups(t) && PromotionComplete(t)
  }

  lemma PawnSegmentConcat(c: Color, s: Square, a: seq<Move>, b: seq<Move>)
    requires PawnSegmentOk(c, s, a) && PawnSegmentOk(c, s, b)
    requires forall x, y :: x in a && y in b ==> Dist(s, x.landing) <= Dist(s, y.landing)
    ensures PawnSegmentOk(c, s, a + b)
  {
    PromotionConcat(a, b);
    SegmentOrderedConcat(a, b, s);
    assert forall x :: x in a + b ==> x in a || x in b;
  }

  lemma PawnWalkFacts(c: Color, s: Square, d: Dir)
    requires d in PawnDirs(c)
    ensures PawnSegmentOk(c, s, PawnWalk(s, d, s, false))
  {
    match MovePosition(s, d)
    case None =>
    case Some(next) =>
      var here := StepMoves(s, d, next, PawnFlags(d, false));
      var ep := EnPassantMoves(s, d, next);
      var second := (d == N && Row(next) == 2) || (d == S && Row(next) == 5);
      var rest := if second then PawnWalk(s, d, next, true) else [];
      assert PawnWalk(s, d, s, false) == here + ep + rest;
      PawnStepsOk(c, s, d, next);
      PawnEnPassantOk(c, s, d, next);
      PawnSegmentConcat(c, s, here, ep);
      if second {
        PawnSecondStepOk(c, s, d, next);
        assert forall x :: x in here + ep ==> x in here || x in ep;
        PawnSegmentConcat(c, s, here + ep, rest);
      } else {
        assert here + ep + rest == here + ep;
      }
  }

  lemma PawnSecondStepOk(c: Color, s: Square, d: Dir, next: Square)
    requires d in PawnDirs(c) && StepOf(s, next, d)
    requires (d == N && Row(next) == 2) || (d == S && Row(next) == 5)
    ensures PawnSegmentOk(c, s, PawnWalk(s, d, next, true))
    ensures forall m :: m in PawnWalk(s, d, next, true) ==> Dist(s, m.landing) == 2
  {
    PawnSecondStep(s, d, next);
    var m := PawnWalk(s, d, next, true)[0];
    assert PawnMoveOk(c, s, m);
  }

  lemma {:induction false} PawnTableFromFacts(c: Color, s: Square, dirs: seq<Dir>)
    requires DistinctDirs(dirs) && forall d :: d in dirs ==> d in PawnDirs(c)
    ensures forall m :: m in PawnTableFrom(s, dirs) ==> PawnMoveOk(c, s, m)
    ensures PromotionGroups(PawnTableFrom(s, dirs)) && PromotionComplete(PawnTableFrom(s, dirs))
    ensures Contiguous(PawnTableFrom(s, dirs)) && Ordered(PawnTableFrom(s, dirs), s)
  {
    PawnTableFromMoves(c, s, dirs);
    PawnTableFromLayout(c, s, dirs);
  }

  lemma {:induction false} PawnTableFromMoves(c: Color, s: Square, dirs: seq<Dir>)
    requires forall d :: d in dirs ==> d in PawnDirs(c)
    ensures forall m :: m in PawnTableFrom(s, dirs) ==> PawnMoveOk(c, s, m)
    ensures PromotionGroups(PawnTableFrom(s, dirs)) && PromotionComplete(PawnTableFrom(s, dirs))
  {
    if dirs != [] {
      var here := PawnWalk(s, dirs[0], s, false);
      var rest := PawnTableFrom(s, dirs[1..]);
      PawnTableFromMoves(c, s, dirs[1..]);
      PawnWalkFacts(c, s, dirs[0]);
      PromotionConcat(here, rest);
      assert forall m :: m in here + rest <==> m in here || m in rest;
    }
  }

  lemma {:induction false} PawnTableFromLayout(c: Color, s: Square, dirs: seq<Dir>)
    requires DistinctDirs(dirs) && forall d :: d in dirs ==> d in PawnDirs(c)
    ensures Contiguous(PawnTableFrom(s, dirs)) && Ordered(PawnTableFrom(s, dirs), s)
  {
    if dirs != [] {
      var here := PawnWalk(s, dirs[0], s, false);
      var rest := PawnTableFrom(s, dirs[1..]);
      assert DistinctDirs(dirs[1..]);
      PawnTableFromLayout(c, s, dirs[1..]);
      PawnWalkFacts(c, s, dirs[0]);
      assert dirs[0] !in dirs[1..];
      assert AllAlong(here, dirs[0]);
      ContiguousPrepend(here, dirs[0], rest);
      OrderedPrepend(here, dirs[0], rest, s);
    }
  }

  /** The pawn table: every move has the shape `PawnMoveOk` describes, promotions come in
      Queen, Rook, Bishop, Knight groups, and each direction's moves stand together,
      nearest square first. */
  lemma PawnTableFacts(c: Color, s: Square)
    ensures forall m :: m in PawnTable(c, s) ==> PawnMoveOk(c, s, m)
    ensures PromotionGroups(PawnTable(c, s)) && PromotionComplete(PawnTable(c, s))
    ensures Contiguous(PawnTable(c, s)) && Ordered(PawnTable(c, s), s)
  {
    PawnTableFromFacts(c, s, PawnDirs(c));
  }

  lemma {:induction false} PawnTableFromHas(s: Square, dirs: seq<Dir>, d: Dir, m: Move)
    requires d in dirs && m in PawnWalk(s, d, s, false)
    ensures m in PawnTableFrom(s, dirs)
  {
    if d != dirs[0] {
      PawnTableFromHas(s, dirs[1..], d, m);
    }
  }

  /** The first move of a walk from the pawn's own square. */
  lemma PawnWalkFirst(s: Square, d: Dir)
    requires OnBoard(Row(s) + DRow(d), Col(s) + DCol(d))
    ensures 0 <= s + Value(d) < 64
    ensures |PawnWalk(s, d, s, false)| > 0
    ensures var l := s + Value(d);
      PawnWalk(s, d, s, false)[0] ==
        Move(PawnFlags(d, false) + (if IsConversionPosition(l) then {Conversion} else {}), d, s, l, l,
             if IsConversionPosition(l) then Some(Queen) else None)
  {
    StepRowCol(s, d);
    PawnWalkHead(s, d);
    StepMovesHead(s, d, s + Value(d), PawnFlags(d, false));
  }

  /** The first entry of a pawn walk from its square is the first entry of its step. */
  lemma PawnWalkHead(s: Square, d: Dir)
    requires OnBoard(Row(s) + DRow(d), Col(s) + DCol(d))
    ensures 0 <= s + Value(d) < 64
    ensures |PawnWalk(s, d, s, false)| > 0
    ensures PawnWalk(s, d, s, false)[0] == StepMoves(s, d, s + Value(d), PawnFlags(d, false))[0]
  {
    StepRowCol(s, d);
    var next := MovePosition(s, d).value;
    var here := StepMoves(s, d, next, PawnFlags(d, false));
    var ep := EnPassantMoves(s, d, next);
    var second := (d == N && Row(next) == 2) || (d == S && Row(next) == 5);
    var rest := if second then PawnWalk(s, d, next, true) else [];
    assert PawnWalk(s, d, s, false) == here + ep + rest;
    StepMovesHead(s, d, next, PawnFlags(d, false));
    HeadOfConcat(here, ep, rest);
  }

  lemma HeadOfConcat(a: seq<Move>, b: seq<Move>, c: seq<Move>)
    requires |a| > 0
    ensures |a + b + c| > 0 && (a + b + c)[0] == a[0]
  {
  }

  /** The first entry of a step: the plain move, or the queen promotion on the last row. */
  lemma StepMovesHead(s: Square, d: Dir, l: Square, flags: set<MoveFlag>)
    ensures |StepMoves(s, d, l, flags)| > 0
    ensures StepMoves(s, d, l, flags)[0] ==
      Move(flags + (if IsConversionPosition(l) then {Conversion} else {}), d, s, l, l,
           if IsConversionPosition(l) then Some(Queen) else None)
  {
    if !IsConversionPosition(l) {
      assert flags + {} == flags;
    }
  }

  /** Every on-board step along the pawn's directions is in its table: as a single move, or
      as the queen promotion when it lands on the last row. */
  lemma PawnTableHasSteps(c: Color, s: Square, d: Dir)
    requires d in PawnDirs(c) && OnBoard(Row(s) + DRow(d), Col(s) + DCol(d))
    ensures 0 <= s + Value(d) < 64
    ensures var l := s + Value(d);
      Move(PawnFlags(d, false) + (if IsConversionPosition(l) then {Conversion} else {}), d, s, l, l,
           if IsConversionPosition(l) then Some(Queen) else None) in PawnTable(c, s)
  {
    PawnWalkFirst(s, d);
    var w := PawnWalk(s, d, s, false);
    assert w[0] in w;
    PawnTableFromHas(s, PawnDirs(c), d, w[0]);
  }

  /** The double step sits at the end of the straight walk from the home row. */
  lemma PawnWalkDouble(c: Color, s: Square)
    requires Row(s) == PawnHomeRow(c)
    ensures 0 <= s + 2 * Value(Forward(c)) < 64
    ensures var l := s + 2 * Value(Forward(c));
      Move({Quiet, SetsEnPassant}, Forward(c), s, l, l, None) in PawnWalk(s, Forward(c), s, false)
  {
    var d := Forward(c);
    assert MovePosition(s, d).Some?;
    var next := MovePosition(s, d).value;
    var flags := PawnFlags(d, false);
    assert !IsConversionPosition(next);
    var here := [Move(flags, d, s, next, next, None)];
    var ep := EnPassantMoves(s, d, next);
    var rest := PawnWalk(s, d, next, true);
    PawnSecondStep(s, d, next);
    assert PawnWalk(s, d, s, false) == here + ep + rest;
    assert rest[0] in here + ep + rest;
  }

  /** From the home row the straight double step, Move|SetsEnPassant, is in the table. */
  lemma PawnTableHasDoubleStep(c: Color, s: Square)
    requires Row(s) == PawnHomeRow(c)
    ensures 0 <= s + 2 * Value(Forward(c)) < 64
    ensures var l := s + 2 * Value(Forward(c));
      Move({Quiet, SetsEnPassant}, Forward(c), s, l, l, None) in PawnTable(c, s)
  {
    PawnWalkDouble(c, s);
    var l := s + 2 * Value(Forward(c));
    assert Forward(c) in PawnDirs(c);
    PawnTableFromHas(s, PawnDirs(c), Forward(c), Move({Quiet, SetsEnPassant}, Forward(c), s, l, l, None));
  }

  /** From the en-passant row every on-board diagonal of the pawn carries a Capture|UseEnPassant
      move whose capture square is behind its landing square. */
  lemma PawnTableHasEnPassant(c: Color, s: Square, d: Dir)
    requires d in PawnDirs(c) && DCol(d) != 0 && Row(s) == EnPassantRow(c)
    requires OnBoard(Row(s) + DRow(d), Col(s) + DCol(d))
    ensures 0 <= s + Value(d) < 64 && 0 <= EnPassantVictim(c, s + Value(d)) < 64
    ensures var l := s + Value(d);
      Move({UseEnPassant, Capture}, d, s, l, EnPassantVictim(c, l), None) in PawnTable(c, s)
  {
    PawnWalkEnPassant(c, s, d);
    var l := s + Value(d);
    PawnTableFromHas(s, PawnDirs(c), d, Move({UseEnPassant, Capture}, d, s, l, EnPassantVictim(c, l), None));
  }

  /** The en-passant move of a diagonal from the en-passant row sits in that diagonal's walk. */
  lemma PawnWalkEnPassant(c: Color, s: Square, d: Dir)
    requires d in PawnDirs(c) && DCol(d) != 0 && Row(s) == EnPassantRow(c)
    requires OnBoard(Row(s) + DRow(d), Col(s) + DCol(d))
    ensures 0 <= s + Value(d) < 64 && 0 <= EnPassantVictim(c, s + Value(d)) < 64
    ensures var l := s + Value(d);
      Move({UseEnPassant, Capture}, d, s, l, EnPassantVictim(c, l), None) in PawnWalk(s, d, s, false)
  {
    EnPassantMoveShape(c, s, d);
    DiagonalWalkHasEnPassant(s, d);
  }

  /** From the en-passant row, a diagonal's en-passant list is the one move capturing behind
      the landing square. */
  lemma EnPassantMoveShape(c: Color, s: Square, d: Dir)
    requires d in PawnDirs(c) && DCol(d) != 0 && Row(s) == EnPassantRow(c)
    requires OnBoard(Row(s) + DRow(d), Col(s) + DCol(d))
    ensures 0 <= s + Value(d) < 64 && 0 <= EnPassantVictim(c, s + Value(d)) < 64
    ensures StepOf(s, s + Value(d), d)
    ensures var l := s + Value(d);
      EnPassantMoves(s, d, l) == [Move({UseEnPassant, Capture}, d, s, l, EnPassantVictim(c, l), None)]
  {
    StepRowCol(s, d);
  }

  /** A diagonal walk holds the en-passant list of its one step. */
  lemma DiagonalWalkHasEnPassant(s: Square, d: Dir)
    requires DCol(d) != 0 && OnBoard(Row(s) + DRow(d), Col(s) + DCol(d))
    ensures 0 <= s + Value(d) < 64 && StepOf(s, s + Value(d), d)
    ensures forall m :: m in EnPassantMoves(s, d, s + Value(d)) ==> m in PawnWalk(s, d, s, false)
  {
    PawnWalkDiagonal(s, d);
    SecondIn(StepMoves(s, d, s + Value(d), PawnFlags(d, false)), EnPassantMoves(s, d, s + Value(d)));
  }

  /** A diagonal walk is its one step followed by that step's en-passant list. */
  lemma PawnWalkDiagonal(s: Square, d: Dir)
    requires DCol(d) != 0 && OnBoard(Row(s) + DRow(d), Col(s) + DCol(d))
    ensures 0 <= s + Value(d) < 64 && StepOf(s, s + Value(d), d)
    ensures PawnWalk(s, d, s, false) ==
      StepMoves(s, d, s + Value(d), PawnFlags(d, false)) + EnPassantMoves(s, d, s + Value(d))
  {
    var next := MovePosition(s, d).value;
    assert d != N && d != S;
    var here := StepMoves(s, d, next, PawnFlags(d, false));
    var ep := EnPassantMoves(s, d, next);
    EmptyTail(here + ep);
  }

  lemma EmptyTail(a: seq<Move>)
    ensures a + [] == a
  {
  }

  lemma SecondIn(a: seq<Move>, b: seq<Move>)
    ensures forall m :: m in b ==> m in a + b
  {
  }

  // ---------------------------------------------------------------------------

  /** Every table lists each direction's moves together, nearest square first: the order
      the move filter's direction skipping relies on. */
  lemma TableLayout(p: Piece, s: Square)
    ensures Contiguous(Table(p, s)) && Ordered(Table(p, s), s)
  {
    match p.kind
    case King => KingTableFacts(p.color, s);
    case Pawn => PawnTableFacts(p.color, s);
    case _ =>
      TableIsGeneric(p, s);
      GenericTableLayout(s, GenericDirs(p.kind), p.kind != Knight);
  }

  lemma StepAway(a: Square, b: Square, d: Dir)
    requires StepOf(a, b, d)
    ensures a != b
  {
  }

  /** No table move lands on or captures on its own origin; only en-passant moves capture
      anywhere but on their landing square, and they are never castling moves; every
      promotion names the kind it promotes to. */
  lemma TableCoherent(p: Piece, s: Square)
    ensures forall m :: m in Table(p, s) ==> Coherent(s, m)
    ensures p.kind != King ==> forall m :: m in Table(p, s) ==> !IsCastle(m)
  {
    match p.kind
    case King => KingTableCoherent(p.color, s);
    case Pawn => PawnTableCoherent(p.color, s);
    case _ => GenericTableCoherent(p, s);
  }

  lemma KingTableCoherent(c: Color, s: Square)
    ensures forall m :: m in KingTable(c, s) ==> Coherent(s, m)
  {
    KingTableFacts(c, s);
    forall m | m in KingTable(c, s) ensures Coherent(s, m) {
      KingCoherent(c, s, m);
    }
  }

  lemma KingCoherent(c: Color, s: Square, m: Move)
    requires KingMoveOk(c, s, m)
    ensures Coherent(s, m)
  {
    if m.flags == Either && StepOf(s, m.landing, m.dir) {
      StepAway(s, m.landing, m.dir);
    }
  }

  lemma PawnTableCoherent(c: Color, s: Square)
    ensures forall m :: m in PawnTable(c, s) ==> Coherent(s, m) && !IsCastle(m)
  {
    PawnTableMovesOk(c, s);
    forall m | m in PawnTable(c, s) ensures Coherent(s, m) {
      PawnCoherent(c, s, m);
    }
  }

  lemma PawnTableMovesOk(c: Color, s: Square)
    ensures forall m :: m in PawnTable(c, s) ==> PawnMoveOk(c, s, m)
  {
    PawnTableFacts(c, s);
  }

  lemma GenericTableCoherent(p: Piece, s: Square)
    requires p.kind in {Queen, Rook, Bishop, Knight}
    ensures forall m :: m in Table(p, s) ==> Coherent(s, m) && !IsCastle(m)
  {
    GenericTableBasics(p, s);
    forall m | m in Table(p, s) ensures Coherent(s, m) {
      assert Dist(s, m.landing) > 0;
    }
  }

  predicate Coherent(s: Square, m: Move) {
    && m.landing != s && m.capture != s
    && (UseEnPassant !in m.flags <==> m.capture == m.landing)
    && (UseEnPassant in m.flags ==> !IsCastle(m))
    && (Conversion in m.flags ==> m.conversion.Some?)
  }

  lemma PawnCoherent(c: Color, s: Square, m: Move)
    requires PawnMoveOk(c, s, m)
    ensures Coherent(s, m)
  {
    if UseEnPassant in m.flags {
      StepAway(s, m.landing, m.dir);
      assert s == 8 * Row(s) + Col(s) && m.landing == 8 * Row(m.landing) + Col(m.landing);
    } else if SetsEnPassant !in m.flags {
      StepAway(s, m.landing, m.dir);
    }
  }
}
