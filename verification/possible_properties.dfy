/** What `PossibleMoves` promises about the moves it keeps: they are exactly the examined
    moves that are legal in the game's terms, a queen, rook, bishop or knight never passes
    an occupied square, the filter faults only on a malformed en-passant situation, and the
    enumerator yields the kept moves in table order. */
module PossibleProperties {
  import opened Wrappers
  import opened Squares
  import opened Position
  import opened MoveRecords
  import opened Tables
  import opened TableProperties
  import opened Scan
  import opened Control
  import opened Possible

  /** When a move of the piece `p` on `start` counts: the castling right is held, an
      en-passant capture takes a piece standing on its colour's recorded square, the landing
      or capture square fits the flags, and in the position after the move the opponent
      reaches no king of another colour and, for castling, no square of the castling path. */
  predicate Legal(g: Gamestate, start: Square, p: Piece, m: Move) {
    && (IsCastle(m) ==> CastleRight(g, p.color, m.dir))
    && (UseEnPassant in m.flags ==>
          g.board[m.capture].Some? && GetEnPassant(g, g.board[m.capture].value.color) == Some(m.capture))
    && Passes(g, p, m)
    && Simulate(g, start, m).Success?
    && !Checked(Simulate(g, start, m).value, Opponent(g.turn))
    && (IsCastle(m) ==>
          forall q :: q in CastlePath(p.color, m.dir) ==> !Attacks(Simulate(g, start, m).value, Opponent(g.turn), q))
  }

  /** The filter's verdict on a well-formed position is Kept exactly for a legal move. */
  lemma JudgeKept(g: Gamestate, start: Square, p: Piece, m: Move)
    requires Wf(g)
    ensures Judge(g, start, p, m) == Kept <==> Legal(g, start, p, m)
  {
    var sim := Simulate(g, start, m);
    if sim.Success? {
      var h := sim.value;
      ControlFromBoard(h, h.turn);
      var c := ControlledPositions(h, h.turn).value;
      assert Judge(g, start, p, m) == Kept <==>
        && !CastleBarred(g, p, m) && !EnPassantBarred(g, m) && Passes(g, p, m)
        && c.check.None? && !(IsCastle(m) && CastlePath(p.color, m.dir) * c.mask != {});
      PathUnattacked(CastlePath(p.color, m.dir), c.mask, h, h.turn);
    }
  }

  lemma PathUnattacked(path: set<Square>, mask: set<Square>, h: Gamestate, color: Color)
    requires forall q: Square :: q in mask <==> Attacks(h, color, q)
    ensures path * mask == {} <==> forall q :: q in path ==> !Attacks(h, color, q)
  {
    if path * mask == {} {
      forall q | q in path ensures !Attacks(h, color, q) {
        assert q !in path * mask;
      }
    } else {
      var q :| q in path * mask;
      assert q in path && Attacks(h, color, q);
    }
  }

  /** On a well-formed position the simulation faults only for an en-passant capture whose
      landing square is occupied: every other table move captures on its landing square,
      which is emptied first, and no move lands on or captures on its own origin. */
  lemma JudgeCrash(g: Gamestate, start: Square, p: Piece, m: Move)
    requires Wf(g) && g.board[start] == Some(p) && m in Table(p, start)
    ensures Judge(g, start, p, m).Crash? <==>
      && UseEnPassant in m.flags && !EnPassantBarred(g, m) && Passes(g, p, m)
      && g.board[m.landing].Some?
  {
    TableCoherent(p, start);
    assert Coherent(start, m);
    SimulateFault(g, start, m);
    var sim := Simulate(g, start, m);
    if sim.Success? {
      ControlTotal(sim.value, sim.value.turn);
    }
  }

  /** With a piece on `start`, the king-safety simulation of a coherent move faults exactly
      when it is an en-passant move onto an occupied square. */
  lemma SimulateFault(g: Gamestate, start: Square, m: Move)
    requires g.board[start].Some? && Coherent(start, m)
    ensures Simulate(g, start, m).Failure? <==> UseEnPassant in m.flags && g.board[m.landing].Some?
  {
    var cleared := g.board[m.capture := None];
    assert cleared[start] == g.board[start];
    assert cleared[start := None][m.landing] == cleared[m.landing];
  }

  /** On a well-formed position the kept moves of a piece are exactly its examined legal
      moves: those no earlier move of the same direction run blocked. */
  lemma PossibleKeep(g: Gamestate, start: Square)
    requires Wf(g) && g.board[start].Some?
    requires PossibleMoves(g, start).Success?
    ensures var p := g.board[start].value;
      var t := Table(p, start);
      var pm := PossibleMoves(g, start).value;
      && pm.table == Some(t) && |pm.keep| == |t|
      && forall i :: 0 <= i < |t| ==>
           (pm.keep[i] <==> Open(Dirs(t), WalkBlocks(g, start, p, t), i) && Legal(g, start, p, t[i]))
  {
    var p := g.board[start].value;
    var t := Table(p, start);
    forall i | 0 <= i < |t| {
      JudgeKept(g, start, p, t[i]);
    }
  }

  /** On a well-formed position `PossibleMoves` faults exactly when an examined move is an
      en-passant capture that passes its tests but lands on an occupied square. */
  lemma PossibleFault(g: Gamestate, start: Square)
    requires Wf(g) && g.board[start].Some?
    ensures var p := g.board[start].value;
      var t := Table(p, start);
      PossibleMoves(g, start).Failure? <==>
        exists i :: 0 <= i < |t| && Open(Dirs(t), WalkBlocks(g, start, p, t), i) && EnPassantCrash(g, p, t[i])
  {
    var p := g.board[start].value;
    var t := Table(p, start);
    forall i | 0 <= i < |t|
      ensures Judge(g, start, p, t[i]).Crash? <==> EnPassantCrash(g, p, t[i])
    {
      JudgeCrash(g, start, p, t[i]);
    }
  }

  predicate EnPassantCrash(g: Gamestate, p: Piece, m: Move) {
    UseEnPassant in m.flags && !EnPassantBarred(g, m) && Passes(g, p, m) && g.board[m.landing].Some?
  }

  /** A queen, rook, bishop or knight on a well-formed position never faults, and keeps
      exactly the legal moves whose direction is empty up to the landing square: it never
      passes an occupied square. */
  lemma GenericStopsAtPieces(g: Gamestate, start: Square)
    requires Wf(g) && g.board[start].Some?
    requires g.board[start].value.kind in {Queen, Rook, Bishop, Knight}
    ensures PossibleMoves(g, start).Success?
    ensures var p := g.board[start].value;
      var t := Table(p, start);
      var pm := PossibleMoves(g, start).value;
      forall i :: 0 <= i < |t| ==> (pm.keep[i] <==> Clear(g, t, t[i], start) && Legal(g, start, p, t[i]))
  {
    var p := g.board[start].value;
    var t := Table(p, start);
    GenericTableBasics(p, start);
    GenericWalk(g, start, p, t);
    PossibleFault(g, start);
    PossibleKeep(g, start);
    forall i | 0 <= i < |t|
      ensures Open(Dirs(t), WalkBlocks(g, start, p, t), i) <==> Clear(g, t, t[i], start)
    {
      OpenIsClear(g, t, start, WalkBlocks(g, start, p, t), i);
    }
  }

  /** A table of plain moves that capture on their landing square never crashes, and blocks
      exactly at occupied landing squares. */
  lemma GenericWalk(g: Gamestate, start: Square, p: Piece, t: seq<Move>)
    requires Wf(g) && g.board[start] == Some(p) && t == Table(p, start)
    requires forall m :: m in t ==> m.flags == Either && m.capture == m.landing
    ensures forall j :: 0 <= j < |t| ==> !EnPassantCrash(g, p, t[j])
    ensures forall j :: 0 <= j < |t| ==> (WalkBlocks(g, start, p, t)[j] <==> g.board[t[j].landing].Some?)
  {
    forall j | 0 <= j < |t|
      ensures UseEnPassant !in t[j].flags
    {
      assert t[j] in t;
    }
    GenericVerdicts(g, start, p, t);
    ReachedBlocks(g, t, Verdicts(g, start, p, t));
  }

  /** Every move of a generic table reaches the end of the filter's loop body. */
  lemma GenericVerdicts(g: Gamestate, start: Square, p: Piece, t: seq<Move>)
    requires Wf(g) && g.board[start] == Some(p) && t == Table(p, start)
    requires forall m :: m in t ==> m.flags == Either && m.capture == m.landing
    ensures forall j :: 0 <= j < |t| ==> Verdicts(g, start, p, t)[j] in {Refused, Exposed, Kept}
  {
    forall j | 0 <= j < |t|
      ensures Verdicts(g, start, p, t)[j] in {Refused, Exposed, Kept}
    {
      assert t[j] in t;
      GenericVerdict(g, start, p, t[j]);
    }
  }

  /** When every move reaches the end of the loop body and captures on its landing square,
      exactly the moves onto occupied squares close their direction. */
  lemma ReachedBlocks(g: Gamestate, t: seq<Move>, vs: seq<Verdict>)
    requires |vs| == |t|
    requires forall j :: 0 <= j < |t| ==> vs[j] in {Refused, Exposed, Kept}
    requires forall j :: 0 <= j < |t| ==> t[j].capture == t[j].landing
    ensures forall j :: 0 <= j < |t| ==> (FilterBlocks(g, t, vs)[j] <==> g.board[t[j].landing].Some?)
  {
  }

  /** A plain move that captures on its landing square is judged Refused, Exposed or Kept. */
  lemma GenericVerdict(g: Gamestate, start: Square, p: Piece, m: Move)
    requires Wf(g) && g.board[start] == Some(p) && m in Table(p, start)
    requires m.flags == Either && m.capture == m.landing
    ensures Judge(g, start, p, m) in {Refused, Exposed, Kept}
  {
    JudgeCrash(g, start, p, m);
    assert !IsCastle(m) && UseEnPassant !in m.flags;
  }

  /** The enumerator yields the kept moves in table order, as many as `MoveCount` says. */
  lemma EnumerateKept(pm: Possible)
    requires pm.table.Some? && |pm.keep| == |pm.table.value|
    ensures Enumerate(pm).Success?
    ensures var r := Enumerate(pm).value;
      && |r| == MoveCount(pm) == |KeptIndices(pm.keep)|
      && (forall k :: 0 <= k < |r| ==> r[k] == pm.table.value[KeptIndices(pm.keep)[k]])
  {
    FilterIsKept(pm.table.value, pm.keep);
  }

  /** The enumerator yields a move exactly when some kept entry holds it. */
  lemma EnumerateMembers(pm: Possible)
    requires pm.table.Some? && |pm.keep| == |pm.table.value|
    ensures Enumerate(pm).Success?
    ensures forall m :: m in Enumerate(pm).value <==>
      exists i :: 0 <= i < |pm.keep| && pm.keep[i] && pm.table.value[i] == m
  {
    FilterMembers(pm.table.value, pm.keep);
  }

  lemma FilterMembers(t: seq<Move>, keep: seq<bool>)
    requires |keep| == |t|
    ensures forall m :: m in Filter(t, keep) <==> exists i :: 0 <= i < |keep| && keep[i] && t[i] == m
  {
    FilterIsKept(t, keep);
    var r := Filter(t, keep);
    var ks := KeptIndices(keep);
    forall m ensures m in r <==> exists i :: 0 <= i < |keep| && keep[i] && t[i] == m {
      if m in r {
        var k :| 0 <= k < |r| && r[k] == m;
        assert keep[ks[k]] && t[ks[k]] == m;
      }
      if exists i :: 0 <= i < |keep| && keep[i] && t[i] == m {
        var i :| 0 <= i < |keep| && keep[i] && t[i] == m;
        var k :| 0 <= k < |ks| && ks[k] == i;
        assert r[k] == m;
      }
    }
  }

  /** `EndPositionBitMask` holds exactly the landing squares of the enumerated moves. */
  lemma EndMaskOfEnumerated(pm: Possible)
    requires pm.table.Some? && |pm.keep| == |pm.table.value|
    ensures Enumerate(pm).Success?
    ensures EndMask(pm) == set m | m in Enumerate(pm).value :: m.landing
  {
    EnumerateMembers(pm);
    var t, keep := pm.table.value, pm.keep;
    var r := Enumerate(pm).value;
    forall q | q in EndMask(pm) ensures q in set m | m in r :: m.landing {
      var i :| 0 <= i < |keep| && keep[i] && t[i].landing == q;
      assert t[i] in r;
    }
    forall q | q in set m | m in r :: m.landing ensures q in EndMask(pm) {
      var m :| m in r && m.landing == q;
      var i :| 0 <= i < |keep| && keep[i] && t[i] == m;
    }
  }

  lemma {:induction false} FilterIsKept(t: seq<Move>, keep: seq<bool>)
    requires |keep| == |t|
    ensures |Filter(t, keep)| == |KeptIndices(keep)| == Count(keep)
    ensures forall k :: 0 <= k < |KeptIndices(keep)| ==> Filter(t, keep)[k] == t[KeptIndices(keep)[k]]
  {
    if t != [] {
      var n := |t| - 1;
      FilterIsKept(t[..n], keep[..n]);
    }
  }
}
