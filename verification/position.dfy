/** The position record (`Gamestate`): a 64-square board, one ordered list of occupied
    squares per colour, the side to move, one en-passant square per colour and four
    castling rights, with the put/remove/copy/flip operations that edit it. */
module Position {
  import opened Wrappers
  import opened Squares

  datatype Color = White | Black

  function Opponent(c: Color): Color {
    if c == White then Black else White
  }

  datatype PieceKind = King | Queen | Rook | Bishop | Knight | Pawn

  datatype Piece = Piece(kind: PieceKind, color: Color)

  type Board = b: seq<Option<Piece>> | |b| == 64 witness seq(64, _ => None)

  datatype Gamestate = Gamestate(
    board: Board,
    whiteSquares: seq<Square>,
    blackSquares: seq<Square>,
    turn: Color,
    whiteEnPassant: Option<Square>,
    blackEnPassant: Option<Square>,
    whiteCastleEast: bool,
    whiteCastleWest: bool,
    blackCastleEast: bool,
    blackCastleWest: bool)

  predicate NoDup(xs: seq<Square>) {
    forall i, j :: 0 <= i < j < |xs| ==> xs[i] != xs[j]
  }

  lemma NoDupAppend(xs: seq<Square>, s: Square)
    ensures NoDup(xs) && s !in xs ==> NoDup(xs + [s])
  {
  }

  lemma NoDupCons(x: Square, xs: seq<Square>)
    ensures NoDup(xs) && x !in xs ==> NoDup([x] + xs)
  {
  }

  predicate HoldsColor(g: Gamestate, s: Square, c: Color) {
    g.board[s].Some? && g.board[s].value.color == c
  }

  /** The class invariant kept by `PutPiece` and `RemovePiece`: a square is in colour c's
      list exactly when the board holds a piece of colour c there, and no list repeats. */
  predicate Wf(g: Gamestate) {
    && NoDup(g.whiteSquares)
    && NoDup(g.blackSquares)
    && (forall s: Square :: s in g.whiteSquares <==> HoldsColor(g, s, White))
    && (forall s: Square :: s in g.blackSquares <==> HoldsColor(g, s, Black))
  }

  /** On a well-formed position a listed square holds a piece of the list's colour. */
  lemma ListedHoldsColor(g: Gamestate, c: Color, s: Square)
    requires Wf(g) && s in PiecesOf(g, c)
    ensures HoldsColor(g, s, c)
  {
  }

  /** On a well-formed position a square holding a piece of colour c is on c's list. */
  lemma HeldIsListed(g: Gamestate, c: Color, s: Square)
    requires Wf(g) && HoldsColor(g, s, c)
    ensures s in PiecesOf(g, c)
  {
  }

  /** Everything but the board and the two lists is the same. */
  predicate SameMeta(a: Gamestate, b: Gamestate) {
    && a.turn == b.turn
    && a.whiteEnPassant == b.whiteEnPassant
    && a.blackEnPassant == b.blackEnPassant
    && a.whiteCastleEast == b.whiteCastleEast
    && a.whiteCastleWest == b.whiteCastleWest
    && a.blackCastleEast == b.blackCastleEast
    && a.blackCastleWest == b.blackCastleWest
  }

  /** Every castling right of `later` was already held in `earlier`. */
  predicate RightsWithin(later: Gamestate, earlier: Gamestate) {
    && (later.whiteCastleEast ==> earlier.whiteCastleEast)
    && (later.whiteCastleWest ==> earlier.whiteCastleWest)
    && (later.blackCastleEast ==> earlier.blackCastleEast)
    && (later.blackCastleWest ==> earlier.blackCastleWest)
  }

  /** The four castling rights: White east, White west, Black east, Black west. */
  function Rights(g: Gamestate): (bool, bool, bool, bool) {
    (g.whiteCastleEast, g.whiteCastleWest, g.blackCastleEast, g.blackCastleWest)
  }

  /** The parameterless constructor: empty board, White to move, every castling right
      held, no en-passant square. It is the only place a right is ever set to true. */
  function NewGamestate(): (g: Gamestate)
    ensures forall s: Square :: g.board[s].None?
    ensures g.whiteSquares == [] && g.blackSquares == []
    ensures g.turn == White
    ensures g.whiteEnPassant.None? && g.blackEnPassant.None?
    ensures g.whiteCastleEast && g.whiteCastleWest && g.blackCastleEast && g.blackCastleWest
    ensures Wf(g)
  {
    Gamestate(seq(64, _ => None), [], [], White, None, None, true, true, true, true)
  }

  /** The copy constructor. With value semantics the copy equals its source, and no later
      edit of either can reach the other. */
  function Copy(g: Gamestate): (r: Gamestate)
    ensures r == g
  {
    Gamestate(g.board, g.whiteSquares, g.blackSquares, g.turn, g.whiteEnPassant,
              g.blackEnPassant, g.whiteCastleEast, g.whiteCastleWest,
              g.blackCastleEast, g.blackCastleWest)
  }

  /** `flipTurnColor`: hands the move to the other colour and returns the new side to move. */
  function FlipTurn(g: Gamestate): (r: (Gamestate, Color))
    ensures r.1 == r.0.turn && r.0.turn != g.turn
    ensures r.0 == g.(turn := r.0.turn)
  {
    var c := if g.turn == White then Black else White;
    (g.(turn := c), c)
  }

  lemma FlipTurnInvolution(g: Gamestate)
    ensures FlipTurn(FlipTurn(g).0).0 == g
  {
  }

  function GetEnPassant(g: Gamestate, c: Color): Option<Square> {
    if c == White then g.whiteEnPassant else g.blackEnPassant
  }

  /** `setEnPassantPosition`: a later get for `c` returns `pos`; the other colour's square
      and everything else are untouched. */
  function SetEnPassant(g: Gamestate, c: Color, pos: Option<Square>): (r: Gamestate)
    ensures GetEnPassant(r, c) == pos
    ensures GetEnPassant(r, Opponent(c)) == GetEnPassant(g, Opponent(c))
    ensures r.board == g.board && r.whiteSquares == g.whiteSquares && r.blackSquares == g.blackSquares
    ensures r.turn == g.turn && RightsWithin(r, g) && RightsWithin(g, r)
  {
    if c == White then g.(whiteEnPassant := pos) else g.(blackEnPassant := pos)
  }

  /** The occupied-square list of one colour (`getPiecePositionList`). */
  function PiecesOf(g: Gamestate, c: Color): seq<Square> {
    if c == White then g.whiteSquares else g.blackSquares
  }

  /** `getPiecePositions(color = null)`: without a colour, the side to move's list. */
  function PiecePositions(g: Gamestate, color: Option<Color>): (r: seq<Square>)
    ensures color.None? ==> r == PiecesOf(g, g.turn)
    ensures color.Some? ==> r == PiecesOf(g, color.value)
    ensures Wf(g) ==> forall s :: s in r ==> HoldsColor(g, s, if color.Some? then color.value else g.turn)
  {
    var c := if color.None? then g.turn else color.value;
    if c == White then g.whiteSquares else g.blackSquares
  }

  function WithPieces(g: Gamestate, c: Color, xs: seq<Square>): Gamestate {
    if c == White then g.(whiteSquares := xs) else g.(blackSquares := xs)
  }

  /** `List.Remove`: drops the first occurrence of `x`, if any. */
  function RemoveFirst(xs: seq<Square>, x: Square): (r: seq<Square>)
    ensures x !in xs ==> r == xs
    ensures x in xs ==> |r| == |xs| - 1
    ensures forall y :: y != x ==> (y in r <==> y in xs)
    ensures NoDup(xs) ==> NoDup(r) && x !in r
  {
    if xs == [] then []
    else if xs[0] == x then
      assert xs[..0] + xs[1..] == xs[1..];
      xs[1..]
    else
      var rest := RemoveFirst(xs[1..], x);
      assert NoDup(xs) ==> xs[0] !in xs[1..] && NoDup(xs[1..]);
      NoDupCons(xs[0], rest);
      [xs[0]] + rest
  }

  /** `List.Remove` keeps the order: the result is the list with its first `x` cut out. */
  lemma {:induction false} RemoveFirstSplit(xs: seq<Square>, x: Square)
    requires x in xs
    ensures RemoveFirst(xs, x) == xs[..FirstIndex(xs, x)] + xs[FirstIndex(xs, x) + 1..]
  {
    if xs[0] != x {
      assert x in xs[1..];
      RemoveFirstSplit(xs[1..], x);
      var k := FirstIndex(xs[1..], x);
      assert xs[..k + 1] == [xs[0]] + xs[1..][..k];
      assert xs[k + 2..] == xs[1..][k + 1..];
    }
  }

  /** The position of the first occurrence of `x`. */
  function FirstIndex(xs: seq<Square>, x: Square): (i: nat)
    requires x in xs
    ensures i < |xs| && xs[i] == x && x !in xs[..i]
  {
    if xs[0] == x then 0
    else
      var k := FirstIndex(xs[1..], x);
      assert xs[..k + 1] == [xs[0]] + xs[1..][..k];
      k + 1
  }

  /** `PutPiece`: throws when the square is occupied; otherwise that square holds the piece,
      the square is appended to its colour's list and nothing else changes. */
  function PutPiece(g: Gamestate, p: Piece, s: Square): (r: Result<Gamestate>)
    ensures r.Failure? <==> g.board[s].Some?
    ensures r.Failure? ==> r.fault == SquareOccupied
    ensures r.Success? ==> r.value.board == g.board[s := Some(p)]
    ensures r.Success? ==> PiecesOf(r.value, p.color) == PiecesOf(g, p.color) + [s]
    ensures r.Success? ==> PiecesOf(r.value, Opponent(p.color)) == PiecesOf(g, Opponent(p.color))
    ensures r.Success? ==> SameMeta(r.value, g)
    ensures r.Success? && Wf(g) ==> Wf(r.value)
  {
    if g.board[s].Some? then
      Failure(SquareOccupied)
    else
      PlacedWf(g, p, s);
      Success(Placed(g, p, s))
  }

  /** The position `PutPiece` builds on an empty square. */
  function Placed(g: Gamestate, p: Piece, s: Square): Gamestate {
    WithPieces(g.(board := g.board[s := Some(p)]), p.color, PiecesOf(g, p.color) + [s])
  }

  /** Placing keeps the placed piece's own list in step with the board. */
  lemma PlacedOwnList(g: Gamestate, p: Piece, s: Square)
    requires Wf(g) && g.board[s].None?
    ensures NoDup(PiecesOf(Placed(g, p, s), p.color))
    ensures forall t: Square :: t in PiecesOf(Placed(g, p, s), p.color) <==> HoldsColor(Placed(g, p, s), t, p.color)
  {
    var h := Placed(g, p, s);
    assert NoDup(PiecesOf(g, p.color));
    NoDupAppend(PiecesOf(g, p.color), s);
    forall t: Square
      ensures t in PiecesOf(h, p.color) <==> HoldsColor(h, t, p.color)
    {
      assert t in PiecesOf(g, p.color) <==> HoldsColor(g, t, p.color);
    }
  }

  /** Placing leaves the other colour's list in step with the board. */
  lemma PlacedOtherList(g: Gamestate, p: Piece, s: Square)
    requires Wf(g) && g.board[s].None?
    ensures NoDup(PiecesOf(Placed(g, p, s), Opponent(p.color)))
    ensures forall t: Square :: t in PiecesOf(Placed(g, p, s), Opponent(p.color)) <==> HoldsColor(Placed(g, p, s), t, Opponent(p.color))
  {
    var h := Placed(g, p, s);
    assert NoDup(PiecesOf(g, Opponent(p.color)));
    forall t: Square
      ensures t in PiecesOf(h, Opponent(p.color)) <==> HoldsColor(h, t, Opponent(p.color))
    {
      assert t in PiecesOf(g, Opponent(p.color)) <==> HoldsColor(g, t, Opponent(p.color));
    }
  }

  /** Placing a piece on an empty square of a well-formed position keeps it well formed. */
  lemma PlacedWf(g: Gamestate, p: Piece, s: Square)
    requires g.board[s].None?
    ensures Wf(g) ==> Wf(Placed(g, p, s))
  {
    if Wf(g) {
      PlacedOwnList(g, p, s);
      PlacedOtherList(g, p, s);
      var h := Placed(g, p, s);
      if p.color == White {
        assert PiecesOf(h, Black) == PiecesOf(h, Opponent(p.color));
      } else {
        assert PiecesOf(h, White) == PiecesOf(h, Opponent(p.color));
      }
    }
  }

  /** `PutPiece` handed a reference that may be null: the occupancy test throws first; a
      null piece then faults when its colour is read. */
  function PutFound(g: Gamestate, p: Option<Piece>, s: Square): (r: Result<Gamestate>)
    ensures g.board[s].Some? ==> r == Failure(SquareOccupied)
    ensures g.board[s].None? && p.None? ==> r == Failure(NoPiece)
    ensures p.Some? ==> r == PutPiece(g, p.value, s)
  {
    if g.board[s].Some? then Failure(SquareOccupied)
    else if p.None? then Failure(NoPiece)
    else PutPiece(g, p.value, s)
  }

  /** `updateCastleFlags`: removal at A1/E1 clears White's west right, E1/H1 White's east
      right, A8/E8 Black's west right, E8/H8 Black's east right. */
  function UpdateCastleFlags(g: Gamestate, s: Square): (r: Gamestate)
    ensures r.whiteCastleWest == (g.whiteCastleWest && s != A1 && s != E1)
    ensures r.whiteCastleEast == (g.whiteCastleEast && s != E1 && s != H1)
    ensures r.blackCastleWest == (g.blackCastleWest && s != A8 && s != E8)
    ensures r.blackCastleEast == (g.blackCastleEast && s != E8 && s != H8)
    ensures r.board == g.board && r.whiteSquares == g.whiteSquares && r.blackSquares == g.blackSquares
    ensures r.turn == g.turn && r.whiteEnPassant == g.whiteEnPassant && r.blackEnPassant == g.blackEnPassant
  {
    var g1 := if s == A1 || s == E1 then g.(whiteCastleWest := false) else g;
    var g2 := if s == E1 || s == H1 then g1.(whiteCastleEast := false) else g1;
    var g3 := if s == A8 || s == E8 then g2.(blackCastleWest := false) else g2;
    if s == E8 || s == H8 then g3.(blackCastleEast := false) else g3
  }

  /** `RemovePiece`: returns what stood on the square (`None` for the source's null). An
      occupied square is emptied and dropped from its colour's list; an empty square leaves
      board and lists alone. Either way the castling rights tied to the square are cleared. */
  function RemovePiece(g: Gamestate, s: Square): (r: (Gamestate, Option<Piece>))
    ensures r.1 == g.board[s]
    ensures r.0.board == g.board[s := None]
    ensures r.1.None? ==> r.0.whiteSquares == g.whiteSquares && r.0.blackSquares == g.blackSquares
    ensures r.1.Some? ==> PiecesOf(r.0, r.1.value.color) == RemoveFirst(PiecesOf(g, r.1.value.color), s)
    ensures r.1.Some? ==> PiecesOf(r.0, Opponent(r.1.value.color)) == PiecesOf(g, Opponent(r.1.value.color))
    ensures Rights(r.0) == Rights(UpdateCastleFlags(g, s))
    ensures RightsWithin(r.0, g)
    ensures r.0.turn == g.turn && r.0.whiteEnPassant == g.whiteEnPassant && r.0.blackEnPassant == g.blackEnPassant
    ensures Wf(g) ==> Wf(r.0)
  {
    var piece := g.board[s];
    var g1 := Vacate(g, s);
    VacateLists(g, s);
    VacatePreservesWf(g, s);
    (UpdateCastleFlags(g1, s), piece)
  }

  /** The board-and-list half of `RemovePiece`. */
  function Vacate(g: Gamestate, s: Square): (r: Gamestate)
    ensures r.board == g.board[s := None]
    ensures SameMeta(r, g) && RightsWithin(r, g)
  {
    if g.board[s].Some? then
      var c := g.board[s].value.color;
      WithPieces(g.(board := g.board[s := None]), c, RemoveFirst(PiecesOf(g, c), s))
    else
      assert g.board[s := None] == g.board;
      g
  }

  /** Vacating an empty square leaves both lists; vacating an occupied one drops the square
      from its piece's list only. */
  lemma VacateLists(g: Gamestate, s: Square)
    ensures g.board[s].None? ==> Vacate(g, s).whiteSquares == g.whiteSquares && Vacate(g, s).blackSquares == g.blackSquares
    ensures g.board[s].Some? ==> var c := g.board[s].value.color;
      && PiecesOf(Vacate(g, s), c) == RemoveFirst(PiecesOf(g, c), s)
      && PiecesOf(Vacate(g, s), Opponent(c)) == PiecesOf(g, Opponent(c))
  {
  }

  /** Vacating keeps the emptied piece's own list in step with the board. */
  lemma VacateOwnList(g: Gamestate, s: Square, c: Color)
    requires Wf(g) && HoldsColor(g, s, c)
    ensures NoDup(PiecesOf(Vacate(g, s), c))
    ensures forall t: Square :: t in PiecesOf(Vacate(g, s), c) <==> HoldsColor(Vacate(g, s), t, c)
  {
    assert NoDup(PiecesOf(g, c));
  }

  /** Vacating leaves the other colour's list in step with the board. */
  lemma VacateOtherList(g: Gamestate, s: Square, c: Color)
    requires Wf(g) && HoldsColor(g, s, c)
    ensures NoDup(PiecesOf(Vacate(g, s), Opponent(c)))
    ensures forall t: Square :: t in PiecesOf(Vacate(g, s), Opponent(c)) <==> HoldsColor(Vacate(g, s), t, Opponent(c))
  {
    var h := Vacate(g, s);
    assert NoDup(PiecesOf(g, Opponent(c)));
    forall t: Square
      ensures t in PiecesOf(h, Opponent(c)) <==> HoldsColor(h, t, Opponent(c))
    {
      assert t in PiecesOf(g, Opponent(c)) <==> HoldsColor(g, t, Opponent(c));
    }
  }

  lemma VacatePreservesWf(g: Gamestate, s: Square)
    ensures Wf(g) ==> Wf(Vacate(g, s))
  {
    if Wf(g) && g.board[s].Some? {
      var c := g.board[s].value.color;
      VacateOwnList(g, s, c);
      VacateOtherList(g, s, c);
      var h := Vacate(g, s);
      if c == White {
        assert PiecesOf(h, Black) == PiecesOf(h, Opponent(c));
      } else {
        assert PiecesOf(h, White) == PiecesOf(h, Opponent(c));
      }
    }
  }

  lemma {:induction false} RemoveFirstOfAppended(xs: seq<Square>, s: Square)
    requires s !in xs
    ensures RemoveFirst(xs + [s], s) == xs
  {
    if xs != [] {
      assert (xs + [s])[1..] == xs[1..] + [s];
      RemoveFirstOfAppended(xs[1..], s);
    }
  }

  /** Removing a piece just put on an empty square gives back the piece and the earlier
      position, except for the castling rights the square is tied to. */
  lemma RemoveUndoesPut(g: Gamestate, p: Piece, s: Square)
    requires Wf(g) && g.board[s].None?
    ensures PutPiece(g, p, s).Success?
    ensures RemovePiece(PutPiece(g, p, s).value, s) == (UpdateCastleFlags(g, s), Some(p))
  {
    var h := PutPiece(g, p, s).value;
    assert s !in PiecesOf(g, p.color);
    RemoveFirstOfAppended(PiecesOf(g, p.color), s);
    assert h.board[s := None] == g.board;
  }
}
