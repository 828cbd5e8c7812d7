/** `PossibleMoves` of Moves.cs: the moves of the piece on one square that pass the
    occupancy test, the castling and en-passant conditions and the king-safety test, walked
    in table order with the direction skipping of `Scan`. The king-safety test plays the
    move on a copy, hands the turn over, and asks the attack map for a check. */
module Possible {
  import opened Wrappers
  import opened Squares
  import opened Position
  import opened MoveRecords
  import opened Tables
  import opened TableProperties
  import opened Scan
  import opened Control

  /** What the filter makes of a move it examines. */
  datatype Verdict =
    | Barred          // castling right gone, or en-passant condition unmet: passed over
    | Refused         // the landing and capture squares do not fit the move's flags
    | Exposed         // after the move the attack map of the side handed the turn reports a check
    | CastleAttacked  // a castling move whose path is attacked after the move
    | Kept
    | Crash(fault: Fault)

  /** The castling right a castle move along `d` needs (`continueIfCastle`): along E the
      east right, along any other direction the west right. */
  function CastleRight(g: Gamestate, c: Color, d: Dir): bool {
    if d == E then (if c == White then g.whiteCastleEast else g.blackCastleEast)
    else (if c == White then g.whiteCastleWest else g.blackCastleWest)
  }

  /** `castleSquaresBitMask`: F1 and G1 (or F8, G8) along E, D1 and C1 (or D8, C8) otherwise.
      The king's own square is not part of it. */
  function CastlePath(c: Color, d: Dir): set<Square> {
    if d == E then (if c == White then {F1, G1} else {F8, G8})
    else (if c == White then {D1, C1} else {D8, C8})
  }

  predicate CastleBarred(g: Gamestate, p: Piece, m: Move) {
    IsCastle(m) && !CastleRight(g, p.color, m.dir)
  }

  /** `continueIfEnPassant`: an en-passant move needs a piece on its capture square, and that
      square must be the recorded en-passant square of the piece's colour. */
  predicate EnPassantBarred(g: Gamestate, m: Move) {
    && UseEnPassant in m.flags
    && (g.board[m.capture].None? || GetEnPassant(g, g.board[m.capture].value.color) != Some(m.capture))
  }

  /** `endPiecesMatchMoveFlags`: a Move-flagged move onto an empty square, or a Capture-flagged
      move whose capture square holds a piece of the other colour. */
  predicate Passes(g: Gamestate, p: Piece, m: Move) {
    || (g.board[m.landing].None? && Quiet in m.flags)
    || (g.board[m.capture].Some? && Capture in m.flags && g.board[m.capture].value.color != p.color)
  }

  /** The board after the king-safety test's simulation, had it succeeded. */
  function SimulatedBoard(g: Gamestate, start: Square, m: Move): Board {
    var cleared := g.board[m.capture := None];
    cleared[start := None][m.landing := cleared[start]]
  }

  /** The king-safety test's copy: the piece on the capture square (if any) is removed, the
      piece on `start` is taken off and put on the landing square, and the turn passes to
      the other colour. `PutPiece` throws when the landing square is still occupied. */
  function Simulate(g: Gamestate, start: Square, m: Move): (r: Result<Gamestate>)
    ensures var cleared := g.board[m.capture := None];
      r.Failure? <==> cleared[start := None][m.landing].Some? || cleared[start].None?
    ensures r.Success? ==> r.value.board == SimulatedBoard(g, start, m)
    ensures r.Success? ==> r.value.turn == Opponent(g.turn)
    ensures r.Success? ==> GetEnPassant(r.value, White) == GetEnPassant(g, White)
    ensures r.Success? ==> GetEnPassant(r.value, Black) == GetEnPassant(g, Black)
    ensures r.Success? && Wf(g) ==> Wf(r.value)
  {
    Drop(Lift(g, start, m), g.board[m.capture := None][start], m.landing)
  }

  /** The rest of the simulation: `PutPiece` of the lifted piece, then the turn passes. */
  function Drop(g: Gamestate, p: Option<Piece>, s: Square): (r: Result<Gamestate>)
    ensures r.Failure? <==> g.board[s].Some? || p.None?
    ensures r.Success? ==> r.value.board == g.board[s := p]
    ensures r.Success? ==> r.value.turn == Opponent(g.turn)
    ensures r.Success? ==> r.value.whiteEnPassant == g.whiteEnPassant && r.value.blackEnPassant == g.blackEnPassant
    ensures r.Success? && Wf(g) ==> Wf(r.value)
  {
    var g2 :- PutFound(g, p, s);
    Success(FlipTurn(g2).0)
  }

  /** The rights left once the capture square is cleared: it is removed, and its rights
      cleared, only when it holds a piece. */
  function CaptureCleared(g: Gamestate, s: Square): Gamestate {
    if g.board[s].Some? then UpdateCastleFlags(g, s) else g
  }

  /** The simulation up to the `PutPiece` call: the capture square and the origin emptied. */
  function Lift(g: Gamestate, start: Square, m: Move): (r: Gamestate)
    ensures r.board == g.board[m.capture := None][start := None]
    ensures r.turn == g.turn && r.whiteEnPassant == g.whiteEnPassant && r.blackEnPassant == g.blackEnPassant
    ensures Wf(g) ==> Wf(r)
  {
    var g0 := if g.board[m.capture].Some? then RemovePiece(g, m.capture).0 else g;
    assert g.board[m.capture].None? ==> g.board[m.capture := None] == g.board;
    RemovePiece(g0, start).0
  }

  /** The simulation clears the rights of the capture square, when a piece stood there, and
      of the origin; the other rights are kept. */
  lemma LiftRights(g: Gamestate, start: Square, m: Move)
    ensures Rights(Lift(g, start, m)) == Rights(UpdateCastleFlags(CaptureCleared(g, m.capture), start))
  {
    var g0 := if g.board[m.capture].Some? then RemovePiece(g, m.capture).0 else g;
    assert Rights(g0) == Rights(CaptureCleared(g, m.capture));
    assert Lift(g, start, m) == RemovePiece(g0, start).0;
  }

  /** The filter's decision for one examined move of the piece `p` on `start`. */
  function Judge(g: Gamestate, start: Square, p: Piece, m: Move): Verdict {
    if CastleBarred(g, p, m) || EnPassantBarred(g, m) then Barred
    else if !Passes(g, p, m) then Refused
    else match Simulate(g, start, m)
      case Failure(f) => Crash(f)
      case Success(t) =>
        match ControlledPositions(t, t.turn)
        case Failure(f) => Crash(f)
        case Success(c) =>
          if c.check.Some? then Exposed
          else if IsCastle(m) && CastlePath(p.color, m.dir) * c.mask != {} then CastleAttacked
          else Kept
  }

  function Verdicts(g: Gamestate, start: Square, p: Piece, t: seq<Move>): (r: seq<Verdict>)
    ensures |r| == |t| && forall i :: 0 <= i < |t| ==> r[i] == Judge(g, start, p, t[i])
  {
    seq(|t|, i requires 0 <= i < |t| => Judge(g, start, p, t[i]))
  }

  /** A move that reaches the end of the loop body closes its direction when its landing or
      capture square is occupied; a barred move or a castling move refused for its path
      leaves the loop early and closes nothing. */
  function FilterBlocks(g: Gamestate, t: seq<Move>, vs: seq<Verdict>): (r: seq<bool>)
    requires |vs| == |t|
    ensures |r| == |t|
    ensures forall i :: 0 <= i < |t| ==>
      (r[i] <==> (vs[i] == Refused || vs[i] == Exposed || vs[i] == Kept)
                 && (g.board[t[i].landing].Some? || g.board[t[i].capture].Some?))
  {
    seq(|t|, i requires 0 <= i < |t| =>
      (vs[i] == Refused || vs[i] == Exposed || vs[i] == Kept)
      && (g.board[t[i].landing].Some? || g.board[t[i].capture].Some?))
  }

  /** The blocking pattern of `p`'s walk over `t` from `start`. */
  function WalkBlocks(g: Gamestate, start: Square, p: Piece, t: seq<Move>): (r: seq<bool>)
    ensures |r| == |t|
  {
    FilterBlocks(g, t, Verdicts(g, start, p, t))
  }

  /** The constructor's loop over a table `t`: it faults at the first examined move whose
      simulation faults; otherwise a move is kept exactly when it is examined, that is no
      earlier move of its direction run blocked, and its verdict is Kept. */
  function FilterWalk(g: Gamestate, start: Square, p: Piece, t: seq<Move>): (r: Result<seq<bool>>)
    ensures r.Failure? <==>
      exists i :: 0 <= i < |t| && Open(Dirs(t), WalkBlocks(g, start, p, t), i) && Judge(g, start, p, t[i]).Crash?
    ensures r.Success? ==> |r.value| == |t|
    ensures r.Success? ==> forall i :: 0 <= i < |t| ==>
      (r.value[i] <==> Open(Dirs(t), WalkBlocks(g, start, p, t), i) && Judge(g, start, p, t[i]) == Kept)
  {
    var vs := Verdicts(g, start, p, t);
    var blocks := WalkBlocks(g, start, p, t);
    var ex := Examined(Dirs(t), blocks, None);
    forall i | 0 <= i < |t|
      ensures ex[i] <==> Open(Dirs(t), blocks, i)
    {
      ExaminedOpen(Dirs(t), blocks, i);
    }
    var crashes := seq(|t|, i requires 0 <= i < |t| => ex[i] && vs[i].Crash?);
    assert forall i :: 0 <= i < |t| ==> crashes[i] == (ex[i] && vs[i].Crash?);
    var crash := First(crashes);
    if crash.Some? then Failure(vs[crash.value].fault)
    else Success(seq(|t|, i requires 0 <= i < |t| => ex[i] && vs[i] == Kept))
  }

  /** The constructed object: the origin's table (`None` for the null `Moves` of an empty
      origin) and the kept bit of every table entry (`MoveBitMask`). */
  datatype Possible = Possible(table: Option<seq<Move>>, keep: seq<bool>)

  /** `new PossibleMoves(board, start)`. */
  function PossibleMoves(g: Gamestate, start: Square): (r: Result<Possible>)
    ensures g.board[start].None? ==> r == Success(Possible(None, []))
    ensures g.board[start].None? ==> MoveCount(r.value) == 0 && EndMask(r.value) == {}
    ensures g.board[start].Some? ==>
      var t := Table(g.board[start].value, start);
      && (r.Failure? <==> FilterWalk(g, start, g.board[start].value, t).Failure?)
      && (r.Success? ==> r.value == Possible(Some(t), FilterWalk(g, start, g.board[start].value, t).value))
  {
    match g.board[start]
    case None => Success(Possible(None, []))
    case Some(p) =>
      var keep :- FilterWalk(g, start, p, Table(p, start));
      Success(Possible(Some(Table(p, start)), keep))
  }

  /** Number of set entries. */
  function Count(keep: seq<bool>): nat {
    if keep == [] then 0 else Count(keep[..|keep| - 1]) + (if keep[|keep| - 1] then 1 else 0)
  }

  /** The kept moves in table order. */
  function Filter(t: seq<Move>, keep: seq<bool>): seq<Move>
    requires |keep| == |t|
  {
    if t == [] then []
    else Filter(t[..|t| - 1], keep[..|t| - 1]) + (if keep[|t| - 1] then [t[|t| - 1]] else [])
  }

  /** The indices of the set entries, in increasing order. */
  function KeptIndices(keep: seq<bool>): (r: seq<nat>)
    ensures forall k :: 0 <= k < |r| ==> r[k] < |keep| && keep[r[k]]
    ensures forall k, l :: 0 <= k < l < |r| ==> r[k] < r[l]
    ensures forall i :: 0 <= i < |keep| && keep[i] ==> i in r
  {
    if keep == [] then []
    else
      var n := |keep| - 1;
      var front := KeptIndices(keep[..n]);
      assert forall i :: 0 <= i < n ==> keep[..n][i] == keep[i];
      front + (if keep[n] then [n] else [])
  }

  /** `MoveCount`: one increment per kept move. */
  function MoveCount(pm: Possible): nat {
    Count(pm.keep)
  }

  /** `EndPositionBitMask`: one bit per kept move's landing square. */
  function EndMask(pm: Possible): set<Square>
    requires pm.table.Some? ==> |pm.keep| == |pm.table.value|
  {
    if pm.table.None? then {}
    else set i | 0 <= i < |pm.keep| && pm.keep[i] :: pm.table.value[i].landing
  }

  /** The enumerator: walks `Moves` and yields the entries whose bit is set. With no table
      (empty origin) it dereferences null. */
  function Enumerate(pm: Possible): (r: Result<seq<Move>>)
    requires pm.table.Some? ==> |pm.keep| == |pm.table.value|
    ensures r.Failure? <==> pm.table.None?
  {
    if pm.table.None? then Failure(NoPiece) else Success(Filter(pm.table.value, pm.keep))
  }
}
