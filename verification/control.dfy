/** `ControlledPositions` of Moves.cs: the squares one colour attacks and, if one of its
    moves reaches an enemy king, that king's square. Each listed piece's table is walked
    with the direction skipping of `Scan`; only Capture moves count, and a Capture move
    whose capture square is occupied closes its direction. */
module Control {
  import opened Wrappers
  import opened Squares
  import opened Position
  import opened MoveRecords
  import opened Tables
  import opened Scan
  import opened TableProperties

  /** `ControlledPositionsBitMask` as a set, and `Check` (`None` for null). */
  datatype Control = Control(mask: set<Square>, check: Option<Square>)

  function Dirs(t: seq<Move>): (r: seq<Dir>)
    ensures |r| == |t| && forall i :: 0 <= i < |t| ==> r[i] == t[i].dir
  {
    seq(|t|, i requires 0 <= i < |t| => t[i].dir)
  }

  /** A Capture move closes its direction when its capture square is occupied. */
  function AttackBlocks(g: Gamestate, t: seq<Move>): (r: seq<bool>)
    ensures |r| == |t|
    ensures forall i :: 0 <= i < |t| ==> (r[i] <==> Capture in t[i].flags && g.board[t[i].capture].Some?)
  {
    seq(|t|, i requires 0 <= i < |t| => Capture in t[i].flags && g.board[t[i].capture].Some?)
  }

  /** An examined Capture move controls its capture square, except that an en-passant move
      counts only when the square holds a piece and is that piece's colour's recorded
      en-passant square. */
  predicate Marks(g: Gamestate, m: Move) {
    && Capture in m.flags
    && (|| UseEnPassant !in m.flags
        || (g.board[m.capture].Some? && GetEnPassant(g, g.board[m.capture].value.color) == Some(m.capture)))
  }

  /** An examined Capture move whose capture square holds a king of another colour than the
      attacking piece gives check; the en-passant condition plays no part here. */
  predicate Checks(g: Gamestate, attacker: Piece, m: Move) {
    && Capture in m.flags
    && g.board[m.capture].Some?
    && g.board[m.capture].value.kind == King
    && g.board[m.capture].value.color != attacker.color
  }

  /** The share of a piece whose table is `t`: the capture squares of its examined marking
      moves, and the capture square of its last examined checking move. A move is examined
      exactly when no earlier move of its direction run had an occupied capture square. */
  function WalkControl(g: Gamestate, p: Piece, t: seq<Move>): (r: Control)
    ensures forall q: Square :: q in r.mask <==>
      exists i :: 0 <= i < |t| && Open(Dirs(t), AttackBlocks(g, t), i) && Marks(g, t[i]) && t[i].capture == q
    ensures r.check.Some? ==>
      exists i :: 0 <= i < |t| && Open(Dirs(t), AttackBlocks(g, t), i) && Checks(g, p, t[i]) && t[i].capture == r.check.value
    ensures r.check.None? <==>
      forall i :: 0 <= i < |t| && Open(Dirs(t), AttackBlocks(g, t), i) ==> !Checks(g, p, t[i])
  {
    var ex := Examined(Dirs(t), AttackBlocks(g, t), None);
    ExaminedIsOpen(g, t);
    Control(MarkedSquares(g, t, ex), LastCheck(g, p, t, ex))
  }

  lemma ExaminedIsOpen(g: Gamestate, t: seq<Move>)
    ensures forall i :: 0 <= i < |t| ==>
      (Examined(Dirs(t), AttackBlocks(g, t), None)[i] <==> Open(Dirs(t), AttackBlocks(g, t), i))
  {
    forall i | 0 <= i < |t|
      ensures Examined(Dirs(t), AttackBlocks(g, t), None)[i] <==> Open(Dirs(t), AttackBlocks(g, t), i)
    {
      ExaminedOpen(Dirs(t), AttackBlocks(g, t), i);
    }
  }

  /** The capture squares of the examined marking moves. */
  function MarkedSquares(g: Gamestate, t: seq<Move>, ex: seq<bool>): (r: set<Square>)
    requires |ex| == |t|
    ensures forall q: Square :: q in r <==> exists i :: 0 <= i < |t| && ex[i] && Marks(g, t[i]) && t[i].capture == q
  {
    set i | 0 <= i < |t| && ex[i] && Marks(g, t[i]) :: t[i].capture
  }

  /** The capture square of the last examined checking move: each one overwrites `Check`. */
  function LastCheck(g: Gamestate, p: Piece, t: seq<Move>, ex: seq<bool>): (r: Option<Square>)
    requires |ex| == |t|
    ensures r.Some? ==> exists i :: 0 <= i < |t| && ex[i] && Checks(g, p, t[i]) && t[i].capture == r.value
    ensures r.None? <==> forall i :: 0 <= i < |t| && ex[i] ==> !Checks(g, p, t[i])
  {
    var checks := seq(|t|, i requires 0 <= i < |t| => ex[i] && Checks(g, p, t[i]));
    assert forall i :: 0 <= i < |t| ==> checks[i] == (ex[i] && Checks(g, p, t[i]));
    var last := Last(checks);
    if last.Some? then Some(t[last.value].capture) else None
  }

  /** One piece's share: its table walked from its square. */
  function PieceControl(g: Gamestate, p: Piece, s: Square): Control {
    WalkControl(g, p, Table(p, s))
  }

  /** Adds one piece's share: the masks are joined, and a later check replaces an earlier one. */
  function Join(acc: Control, c: Control): Control {
    Control(acc.mask + c.mask, if c.check.Some? then c.check else acc.check)
  }

  /** The loop over the listed squares. An empty listed square makes the source dereference
      null, which is a fault here. */
  function ControlOver(g: Gamestate, squares: seq<Square>, acc: Control): (r: Result<Control>)
    ensures r.Failure? <==> exists s :: s in squares && g.board[s].None?
    ensures r.Failure? ==> r.fault == NoPiece
    ensures r.Success? ==> forall q: Square :: q in r.value.mask <==>
      q in acc.mask || exists s :: s in squares && g.board[s].Some? && q in PieceControl(g, g.board[s].value, s).mask
    ensures r.Success? && r.value.check.Some? ==>
      r.value.check == acc.check
      || exists s :: s in squares && g.board[s].Some? && PieceControl(g, g.board[s].value, s).check == r.value.check
    ensures r.Success? && r.value.check.None? ==>
      acc.check.None? && forall s :: s in squares ==> PieceControl(g, g.board[s].value, s).check.None?
    ensures r.Success? && acc.check.None? && (forall s :: s in squares ==> PieceControl(g, g.board[s].value, s).check.None?)
      ==> r.value.check.None?
  {
    if squares == [] then Success(acc)
    else
      var s := squares[0];
      assert forall x :: x in squares <==> x == s || x in squares[1..];
      match g.board[s]
      case None => Failure(NoPiece)
      case Some(p) => ControlOver(g, squares[1..], Join(acc, PieceControl(g, p, s)))
  }

  /** `new ControlledPositions(board, color)`: the share of every square on `color`'s list. */
  function ControlledPositions(g: Gamestate, color: Color): (r: Result<Control>)
    ensures r.Failure? <==> exists s :: s in PiecesOf(g, color) && g.board[s].None?
    ensures r.Success? ==> forall q: Square :: q in r.value.mask <==>
      exists s :: s in PiecesOf(g, color) && g.board[s].Some? && q in PieceControl(g, g.board[s].value, s).mask
    ensures r.Success? && r.value.check.Some? ==>
      exists s :: s in PiecesOf(g, color) && g.board[s].Some? && PieceControl(g, g.board[s].value, s).check == r.value.check
    ensures r.Success? ==> (r.value.check.None? <==>
      forall s :: s in PiecesOf(g, color) ==> PieceControl(g, g.board[s].value, s).check.None?)
  {
    ControlOver(g, PiecesOf(g, color), Control({}, None))
  }

  // ---------------------------------------------------------------------------

  /** On a well-formed position the attack map never faults. */
  lemma ControlTotal(g: Gamestate, color: Color)
    requires Wf(g)
    ensures ControlledPositions(g, color).Success?
  {
    forall s | s in PiecesOf(g, color) ensures g.board[s].Some? {
      ListedHoldsColor(g, color, s);
    }
  }

  /** The attack map read off the board alone: some piece of `color` reaches `q`. */
  predicate Attacks(g: Gamestate, color: Color, q: Square) {
    exists s: Square :: HoldsColor(g, s, color) && q in PieceControl(g, g.board[s].value, s).mask
  }

  /** Some piece of `color` reaches a king of another colour. */
  predicate Checked(g: Gamestate, color: Color) {
    exists s: Square :: HoldsColor(g, s, color) && PieceControl(g, g.board[s].value, s).check.Some?
  }

  /** On a well-formed position the list-driven attack map is the board-level one: the piece
      lists only fix the order in which the shares are joined. */
  lemma ControlFromBoard(g: Gamestate, color: Color)
    requires Wf(g)
    ensures ControlledPositions(g, color).Success?
    ensures forall q: Square :: q in ControlledPositions(g, color).value.mask <==> Attacks(g, color, q)
    ensures ControlledPositions(g, color).value.check.Some? <==> Checked(g, color)
  {
    ControlTotal(g, color);
    forall q: Square ensures q in ControlledPositions(g, color).value.mask <==> Attacks(g, color, q) {
      MaskFromBoard(g, color, ControlledPositions(g, color).value, q);
    }
    CheckFromBoard(g, color, ControlledPositions(g, color).value);
  }

  lemma MaskFromBoard(g: Gamestate, color: Color, r: Control, q: Square)
    requires Wf(g) && ControlledPositions(g, color) == Success(r)
    ensures q in r.mask <==> Attacks(g, color, q)
  {
    if q in r.mask {
      var s :| s in PiecesOf(g, color) && g.board[s].Some? && q in PieceControl(g, g.board[s].value, s).mask;
      ListedHoldsColor(g, color, s);
    }
    if Attacks(g, color, q) {
      var s: Square :| HoldsColor(g, s, color) && q in PieceControl(g, g.board[s].value, s).mask;
      HeldIsListed(g, color, s);
    }
  }

  lemma CheckFromBoard(g: Gamestate, color: Color, r: Control)
    requires Wf(g) && ControlledPositions(g, color) == Success(r)
    ensures r.check.Some? <==> Checked(g, color)
  {
    if r.check.Some? {
      ReportedIsChecked(g, color, r);
    }
    if Checked(g, color) {
      var s: Square :| HoldsColor(g, s, color) && PieceControl(g, g.board[s].value, s).check.Some?;
      HeldIsListed(g, color, s);
    }
  }

  lemma ReportedIsChecked(g: Gamestate, color: Color, r: Control)
    requires Wf(g) && ControlledPositions(g, color) == Success(r) && r.check.Some?
    ensures Checked(g, color)
  {
    var s :| s in PiecesOf(g, color) && g.board[s].Some? && PieceControl(g, g.board[s].value, s).check == r.check;
    ListedHoldsColor(g, color, s);
    assert HoldsColor(g, s, color) && PieceControl(g, g.board[s].value, s).check.Some?;
  }

  /** A reported check names a square holding a king of another colour than the piece that
      reaches it; on a well-formed position, a king of the colour other than `color`. */
  lemma CheckNamesEnemyKing(g: Gamestate, color: Color)
    requires ControlledPositions(g, color).Success?
    requires ControlledPositions(g, color).value.check.Some?
    ensures var q := ControlledPositions(g, color).value.check.value;
      && g.board[q].Some? && g.board[q].value.kind == King
      && (Wf(g) ==> g.board[q].value.color == Opponent(color))
  {
    var q := ControlledPositions(g, color).value.check.value;
    var s := CheckingSquare(g, color);
    var p := g.board[s].value;
    WalkCheckIsKing(g, p, Table(p, s));
    assert g.board[q].value.color != p.color;
    if Wf(g) {
      ListedHoldsColor(g, color, s);
    }
  }

  /** A listed square whose piece reports the check. */
  lemma CheckingSquare(g: Gamestate, color: Color) returns (s: Square)
    requires ControlledPositions(g, color).Success?
    requires ControlledPositions(g, color).value.check.Some?
    ensures s in PiecesOf(g, color) && g.board[s].Some?
    ensures PieceControl(g, g.board[s].value, s).check == ControlledPositions(g, color).value.check
  {
    s :| s in PiecesOf(g, color) && g.board[s].Some? && PieceControl(g, g.board[s].value, s).check == ControlledPositions(g, color).value.check;
  }

  lemma WalkCheckIsKing(g: Gamestate, p: Piece, t: seq<Move>)
    ensures var c := WalkControl(g, p, t).check;
      c.Some? ==> g.board[c.value].Some? && g.board[c.value].value.kind == King
                  && g.board[c.value].value.color != p.color
  {
  }

  /** Only Capture moves contribute to the map: every controlled square is the capture
      square of an examined Capture move of some listed piece, and a square reached only by
      en passant is controlled only when it is the recorded en-passant square of the piece
      standing on it. */
  lemma ControlFromCaptures(g: Gamestate, color: Color, q: Square)
    requires ControlledPositions(g, color).Success?
    requires q in ControlledPositions(g, color).value.mask
    ensures exists s, i ::
      && s in PiecesOf(g, color) && g.board[s].Some?
      && 0 <= i < |Table(g.board[s].value, s)|
      && Open(Dirs(Table(g.board[s].value, s)), AttackBlocks(g, Table(g.board[s].value, s)), i)
      && Capture in Table(g.board[s].value, s)[i].flags
      && Table(g.board[s].value, s)[i].capture == q
      && (UseEnPassant in Table(g.board[s].value, s)[i].flags ==>
            g.board[q].Some? && GetEnPassant(g, g.board[q].value.color) == Some(q))
  {
    var s :| s in PiecesOf(g, color) && g.board[s].Some? && q in PieceControl(g, g.board[s].value, s).mask;
    var t := Table(g.board[s].value, s);
    var i :| 0 <= i < |t| && Open(Dirs(t), AttackBlocks(g, t), i) && Marks(g, t[i]) && t[i].capture == q;
  }

  // ---------------------------------------------------------------------------
  // Reach along a direction

  /** Every move of `t` along `m`'s direction that lands nearer to `s` than `m` lands on an
      empty square. */
  predicate Clear(g: Gamestate, t: seq<Move>, m: Move, s: Square) {
    forall m' :: m' in t && m'.dir == m.dir && Dist(s, m'.landing) < Dist(s, m.landing) ==> g.board[m'.landing].None?
  }

  /** In a table whose directions stand together with strictly growing distance, a move whose
      walk is blocked exactly by occupied landing squares is examined iff its direction is
      clear up to it. */
  lemma OpenIsClear(g: Gamestate, t: seq<Move>, s: Square, blocks: seq<bool>, i: int)
    requires Contiguous(t) && Strict(t, s)
    requires |blocks| == |t| && 0 <= i < |t|
    requires forall j :: 0 <= j < |t| ==> (blocks[j] <==> g.board[t[j].landing].Some?)
    ensures Open(Dirs(t), blocks, i) <==> Clear(g, t, t[i], s)
  {
    if Open(Dirs(t), blocks, i) {
      OpenThenClear(g, t, s, blocks, i);
    }
    if Clear(g, t, t[i], s) {
      forall j | 0 <= j < i && SameRun(Dirs(t), j, i) ensures !blocks[j] {
        assert t[j] in t;
      }
    }
  }

  lemma OpenThenClear(g: Gamestate, t: seq<Move>, s: Square, blocks: seq<bool>, i: int)
    requires Contiguous(t) && Strict(t, s)
    requires |blocks| == |t| && 0 <= i < |t|
    requires forall j :: 0 <= j < |t| ==> (blocks[j] <==> g.board[t[j].landing].Some?)
    requires Open(Dirs(t), blocks, i)
    ensures Clear(g, t, t[i], s)
  {
    var dirs := Dirs(t);
    forall m' | m' in t && m'.dir == t[i].dir && Dist(s, m'.landing) < Dist(s, t[i].landing)
      ensures g.board[m'.landing].None?
    {
      var j :| 0 <= j < |t| && t[j] == m';
      assert j < i;
      ContiguousRun(dirs, j, i);
    }
  }

  /** A queen, rook, bishop or knight controls, along each of its directions, every square up
      to and including the first occupied one, and nothing else. */
  lemma GenericControl(g: Gamestate, p: Piece, s: Square, q: Square)
    requires p.kind in {Queen, Rook, Bishop, Knight}
    ensures q in PieceControl(g, p, s).mask <==>
      exists m :: m in Table(p, s) && m.landing == q && Clear(g, Table(p, s), m, s)
  {
    GenericTableBasics(p, s);
    PlainWalkControl(g, p, Table(p, s), s, q);
  }

  lemma WalkMarks(g: Gamestate, p: Piece, t: seq<Move>, i: int)
    requires 0 <= i < |t| && Open(Dirs(t), AttackBlocks(g, t), i) && Marks(g, t[i])
    ensures t[i].capture in WalkControl(g, p, t).mask
  {
  }

  lemma PlainWalkControl(g: Gamestate, p: Piece, t: seq<Move>, s: Square, q: Square)
    requires Contiguous(t) && Strict(t, s)
    requires forall m :: m in t ==> m.flags == Either && m.capture == m.landing
    ensures q in WalkControl(g, p, t).mask <==> exists m :: m in t && m.landing == q && Clear(g, t, m, s)
  {
    if q in WalkControl(g, p, t).mask {
      MarkedIsClear(g, p, t, s, q);
    }
    if exists m :: m in t && m.landing == q && Clear(g, t, m, s) {
      var m :| m in t && m.landing == q && Clear(g, t, m, s);
      ClearMarks(g, p, t, s, m);
    }
  }

  lemma MarkedIsClear(g: Gamestate, p: Piece, t: seq<Move>, s: Square, q: Square)
    requires Contiguous(t) && Strict(t, s)
    requires forall m :: m in t ==> m.flags == Either && m.capture == m.landing
    requires q in WalkControl(g, p, t).mask
    ensures exists m :: m in t && m.landing == q && Clear(g, t, m, s)
  {
    var blocks := AttackBlocks(g, t);
    var i :| 0 <= i < |t| && Open(Dirs(t), blocks, i) && Marks(g, t[i]) && t[i].capture == q;
    assert t[i] in t;
    PlainBlocks(g, t);
    OpenIsClear(g, t, s, blocks, i);
  }

  /** In a table of plain moves a move closes its direction exactly when it lands on an
      occupied square. */
  lemma PlainBlocks(g: Gamestate, t: seq<Move>)
    requires forall m :: m in t ==> m.flags == Either && m.capture == m.landing
    ensures forall j :: 0 <= j < |t| ==> (AttackBlocks(g, t)[j] <==> g.board[t[j].landing].Some?)
  {
    forall j | 0 <= j < |t| ensures AttackBlocks(g, t)[j] <==> g.board[t[j].landing].Some? {
      assert t[j] in t;
      assert Capture in Either;
    }
  }

  lemma ClearMarks(g: Gamestate, p: Piece, t: seq<Move>, s: Square, m: Move)
    requires Contiguous(t) && Strict(t, s)
    requires m in t && m.flags == Either && m.capture == m.landing && Clear(g, t, m, s)
    requires forall m :: m in t ==> m.flags == Either && m.capture == m.landing
    ensures m.landing in WalkControl(g, p, t).mask
  {
    var i :| 0 <= i < |t| && t[i] == m;
    PlainBlocks(g, t);
    OpenIsClear(g, t, s, AttackBlocks(g, t), i);
    WalkMarks(g, p, t, i);
  }
}
