/** `StartNewGame` of GameControl.cs: a fresh position filled with the 32 pieces of the
    opening, placed one `PutPiece` call at a time in the source's order (White's back row
    A1..H1, White's pawns A2..H2, Black's back row A8..H8, Black's pawns A7..H7). */
module Opening {
  import opened Wrappers
  import opened Squares
  import opened Position

  /** The back row from column A to column H. */
  function BackRank(col: int): PieceKind
    requires 0 <= col < 8
  {
    if col == 0 || col == 7 then Rook
    else if col == 1 || col == 6 then Knight
    else if col == 2 || col == 5 then Bishop
    else if col == 3 then Queen
    else King
  }

  /** The opening position square by square. */
  function StartPiece(s: Square): Option<Piece> {
    if Row(s) == 0 then Some(Piece(BackRank(Col(s)), White))
    else if Row(s) == 1 then Some(Piece(Pawn, White))
    else if Row(s) == 6 then Some(Piece(Pawn, Black))
    else if Row(s) == 7 then Some(Piece(BackRank(Col(s)), Black))
    else None
  }

  function BackRow(row: int, c: Color): (r: seq<(Square, Piece)>)
    requires row == 0 || row == 7
    ensures |r| == 8 && forall i :: 0 <= i < 8 ==> r[i] == (8 * row + i, Piece(BackRank(i), c))
  {
    seq(8, i requires 0 <= i < 8 => (8 * row + i, Piece(BackRank(i), c)))
  }

  function PawnRow(row: int, c: Color): (r: seq<(Square, Piece)>)
    requires row == 1 || row == 6
    ensures |r| == 8 && forall i :: 0 <= i < 8 ==> r[i] == (8 * row + i, Piece(Pawn, c))
  {
    seq(8, i requires 0 <= i < 8 => (8 * row + i, Piece(Pawn, c)))
  }

  /** The placements of `StartNewGame`, in call order. */
  function Placements(): seq<(Square, Piece)> {
    BackRow(0, White) + PawnRow(1, White) + BackRow(7, Black) + PawnRow(6, Black)
  }

  predicate DistinctSquares(ps: seq<(Square, Piece)>) {
    forall i, j :: 0 <= i < j < |ps| ==> ps[i].0 != ps[j].0
  }

  /** Square of the `k`-th placement. */
  function PlacedSquare(k: int): Square
    requires 0 <= k < 32
  {
    if k < 16 then k else if k < 24 then 40 + k else 24 + k
  }

  lemma PlacementsAt(k: int)
    requires 0 <= k < 32
    ensures |Placements()| == 32
    ensures Placements()[k].0 == PlacedSquare(k)
    ensures Some(Placements()[k].1) == StartPiece(PlacedSquare(k))
  {
    var ps := Placements();
    var a, b, c, d := BackRow(0, White), PawnRow(1, White), BackRow(7, Black), PawnRow(6, Black);
    if k < 8 {
      assert ps[k] == a[k];
    } else if k < 16 {
      assert ps[k] == b[k - 8];
    } else if k < 24 {
      assert ps[k] == c[k - 16];
    } else {
      assert ps[k] == d[k - 24];
    }
  }

  lemma PlacementsDistinct()
    ensures |Placements()| == 32 && DistinctSquares(Placements())
    ensures forall k :: 0 <= k < 32 ==> Placements()[k].0 == PlacedSquare(k)
    ensures forall k :: 0 <= k < 32 ==> Some(Placements()[k].1) == StartPiece(PlacedSquare(k))
  {
    forall k | 0 <= k < 32
      ensures Placements()[k].0 == PlacedSquare(k) && Some(Placements()[k].1) == StartPiece(PlacedSquare(k))
    {
      PlacementsAt(k);
    }
  }

  /** White's list after the first `k` placements: A1 onwards, up to H2. */
  function WhiteListAfter(k: int): (r: seq<Square>)
    requires 0 <= k <= 32
    ensures |r| == (if k < 16 then k else 16) && forall i :: 0 <= i < |r| ==> r[i] == i
  {
    var n := if k < 16 then k else 16;
    seq(n, i requires 0 <= i < n => i)
  }

  /** Black's list after the first `k` placements: A8..H8, then A7 onwards. */
  function BlackListAfter(k: int): (r: seq<Square>)
    requires 0 <= k <= 32
    ensures k <= 16 ==> r == []
    ensures 16 < k <= 24 ==> |r| == k - 16 && forall i :: 0 <= i < |r| ==> r[i] == 56 + i
    ensures 24 < k ==> |r| == k - 16 && forall i :: 0 <= i < |r| ==> r[i] == (if i < 8 then 56 + i else 40 + i)
  {
    if k <= 16 then []
    else if k <= 24 then seq(k - 16, i requires 0 <= i < k - 16 => 56 + i)
    else seq(8, i requires 0 <= i < 8 => 56 + i) + seq(k - 24, i requires 0 <= i < k - 24 => 48 + i)
  }

  /** The placements, square by square, as `PlacedSquare` and `StartPiece` describe them. */
  predicate PlacementsShape(ps: seq<(Square, Piece)>) {
    && |ps| == 32 && DistinctSquares(ps)
    && (forall k :: 0 <= k < 32 ==> ps[k].0 == PlacedSquare(k))
    && (forall k :: 0 <= k < 32 ==> Some(ps[k].1) == StartPiece(PlacedSquare(k)))
  }

  /** `StartNewGame`: a fresh position and one `PutPiece` per placement. None of the calls
      throws; the result holds on every square what the opening diagram puts there, its
      lists name the placed squares in call order, White is to move, every castling right
      is held and no en-passant square is set: White's sixteen pieces on the first two rows,
      Black's on the last two, the kings on E1 and E8. */
  method StartNewGame() returns (r: Result<Gamestate>)
    ensures r.Success?
    ensures forall s: Square :: r.value.board[s] == StartPiece(s)
    ensures PiecesOf(r.value, White) == seq(16, i requires 0 <= i < 16 => i)
    ensures PiecesOf(r.value, Black) ==
      seq(8, i requires 0 <= i < 8 => 56 + i) + seq(8, i requires 0 <= i < 8 => 48 + i)
    ensures Wf(r.value) && r.value.turn == White
    ensures GetEnPassant(r.value, White).None? && GetEnPassant(r.value, Black).None?
    ensures r.value.whiteCastleEast && r.value.whiteCastleWest
    ensures r.value.blackCastleEast && r.value.blackCastleWest
    ensures forall s: Square :: HoldsColor(r.value, s, White) <==> Row(s) <= 1
    ensures forall s: Square :: HoldsColor(r.value, s, Black) <==> Row(s) >= 6
    ensures r.value.board[E1] == Some(Piece(King, White)) && r.value.board[E8] == Some(Piece(King, Black))
  {
    var ps := Placements();
    PlacementsDistinct();
    assert PlacementsShape(ps);
    var g := NewGamestate();
    var k := 0;
    while k < |ps|
      invariant 0 <= k <= |ps|
      invariant Wf(g) && g.turn == White && g.whiteEnPassant.None? && g.blackEnPassant.None?
      invariant g.whiteCastleEast && g.whiteCastleWest && g.blackCastleEast && g.blackCastleWest
      invariant forall i :: 0 <= i < k ==> g.board[ps[i].0] == Some(ps[i].1)
      invariant forall s: Square :: (forall i :: 0 <= i < k ==> ps[i].0 != s) ==> g.board[s].None?
      invariant PiecesOf(g, White) == WhiteListAfter(k)
      invariant PiecesOf(g, Black) == BlackListAfter(k)
    {
      PlaceStep(g, ps, k);
      g := PutPiece(g, ps[k].1, ps[k].0).value;
      k := k + 1;
    }
    FinalBoard(g, ps);
    assert BlackListAfter(32) ==
      seq(8, i requires 0 <= i < 8 => 56 + i) + seq(8, i requires 0 <= i < 8 => 48 + i);
    r := Success(g);
  }

  /** One pass of the placing loop: the square is still empty and the placed square joins
      the end of its colour's list. */
  lemma PlaceStep(g: Gamestate, ps: seq<(Square, Piece)>, k: int)
    requires PlacementsShape(ps) && 0 <= k < 32
    requires forall s: Square :: (forall i :: 0 <= i < k ==> ps[i].0 != s) ==> g.board[s].None?
    requires PiecesOf(g, White) == WhiteListAfter(k) && PiecesOf(g, Black) == BlackListAfter(k)
    ensures PutPiece(g, ps[k].1, ps[k].0).Success?
    ensures var h := PutPiece(g, ps[k].1, ps[k].0).value;
      PiecesOf(h, White) == WhiteListAfter(k + 1) && PiecesOf(h, Black) == BlackListAfter(k + 1)
  {
    var (s, p) := ps[k];
    assert g.board[s].None?;
    var h := PutPiece(g, p, s).value;
    if k < 16 {
      assert p.color == White;
      assert WhiteListAfter(k + 1) == WhiteListAfter(k) + [s];
      assert BlackListAfter(k + 1) == BlackListAfter(k);
    } else {
      assert p.color == Black;
      assert WhiteListAfter(k + 1) == WhiteListAfter(k);
      assert BlackListAfter(k + 1) == BlackListAfter(k) + [s];
    }
    assert PiecesOf(h, Opponent(p.color)) == PiecesOf(g, Opponent(p.color));
  }

  /** Once every placement is made, the board is the opening diagram. */
  lemma FinalBoard(g: Gamestate, ps: seq<(Square, Piece)>)
    requires PlacementsShape(ps)
    requires forall i :: 0 <= i < 32 ==> g.board[ps[i].0] == Some(ps[i].1)
    requires forall s: Square :: (forall i :: 0 <= i < 32 ==> ps[i].0 != s) ==> g.board[s].None?
    ensures forall s: Square :: g.board[s] == StartPiece(s)
  {
    forall s: Square ensures g.board[s] == StartPiece(s) {
      if Row(s) <= 1 {
        assert ps[s].0 == s;
      } else if Row(s) == 7 {
        assert ps[s - 40].0 == s;
      } else if Row(s) == 6 {
        assert ps[s - 24].0 == s;
      } else {
        forall i | 0 <= i < 32 ensures ps[i].0 != s {
          assert ps[i].0 == PlacedSquare(i);
        }
      }
    }
  }
}
