/** The computer player's search of GameControl.cs: `calculateScore`, a fixed-depth min/max
    over the moves of `getAllMoves` whose leaves score material and control, and
    `calculateBestMove`, which scores the root's candidates and picks among the best. Every
    candidate is played on a copy of the position; here positions are values, so the
    caller's position is untouched by construction. */
module Search {
  import opened Wrappers
  import opened Squares
  import opened Position
  import opened MoveRecords
  import opened Control
  import opened Game

  // ---------------------------------------------------------------------------
  // 32-bit integers

  const IntMin: int := -0x8000_0000
  const IntMax: int := 0x7FFF_FFFF

  /** C#'s unchecked `int` arithmetic: the exact value brought into the 32-bit range. */
  function Wrap32(x: int): (r: int)
    ensures IntMin <= r <= IntMax
    ensures IntMin <= x <= IntMax ==> r == x
  {
    (x + 0x8000_0000) % 0x1_0000_0000 - 0x8000_0000
  }

  /** Wrapping after every addition gives what wrapping once at the end gives. */
  lemma WrapAdd(a: int, b: int)
    ensures Wrap32(Wrap32(a) + b) == Wrap32(a + b)
  {
    var k := (a + 0x8000_0000) / 0x1_0000_0000;
    assert Wrap32(a) == a - k * 0x1_0000_0000;
    ModShift(a + b + 0x8000_0000, k);
  }

  /** One wrapping addition of the loops: adding `delta` to the wrapped running value
      gives the wrapped exact sum. */
  method AddWrapped(score: int, ghost exact: int, delta: int) returns (r: int)
    requires score == Wrap32(exact)
    ensures r == Wrap32(exact + delta)
  {
    WrapAdd(exact, delta);
    r := Wrap32(score + delta);
  }

  lemma ModShift(x: int, k: int)
    ensures (x - k * 0x1_0000_0000) % 0x1_0000_0000 == x % 0x1_0000_0000
  {
  }

  // ---------------------------------------------------------------------------
  // The leaf evaluation

  /** `PieceValue` per kind. Its numbers are not part of the source shown, so they are a
      parameter of the evaluation. */
  datatype PieceValues = PieceValues(king: int, queen: int, rook: int, bishop: int, knight: int, pawn: int)

  function ValueOf(v: PieceValues, k: PieceKind): int {
    match k
    case King => v.king
    case Queen => v.queen
    case Rook => v.rook
    case Bishop => v.bishop
    case Knight => v.knight
    case Pawn => v.pawn
  }

  /** The value a controlled square adds besides its 8: that of the piece on it, unless the
      square is empty or holds the side to move's own king. Both loops use this test. */
  function Counted(g: Gamestate, v: PieceValues, s: Square): int {
    if g.board[s].Some? && (g.board[s].value.kind != King || g.board[s].value.color != g.turn)
    then ValueOf(v, g.board[s].value.kind) else 0
  }

  /** What square `s` adds in the first loop: three times the value of a piece of the side
      to move, and for a square of the side to move's attack map `mask`, 8 plus `Counted`. */
  function OwnTerm(g: Gamestate, v: PieceValues, mask: set<Square>, s: Square): int {
    (if g.board[s].Some? && g.board[s].value.color == g.turn then 3 * ValueOf(v, g.board[s].value.kind) else 0)
    + (if s in mask then 8 + Counted(g, v, s) else 0)
  }

  /** What square `s` takes away in the second loop: three times the value of a piece of
      the other colour, and for a square of the opponent's attack map `mask`, 8 plus
      `Counted`. */
  function OppTerm(g: Gamestate, v: PieceValues, mask: set<Square>, s: Square): int {
    (if g.board[s].Some? && g.board[s].value.color != g.turn then 3 * ValueOf(v, g.board[s].value.kind) else 0)
    + (if s in mask then 8 + Counted(g, v, s) else 0)
  }

  /** The first `n` squares' terms of the first loop. */
  function OwnTotal(g: Gamestate, v: PieceValues, mask: set<Square>, n: nat): int
    requires n <= 64
  {
    if n == 0 then 0 else OwnTotal(g, v, mask, n - 1) + OwnTerm(g, v, mask, n - 1)
  }

  /** The first `n` squares' terms of the second loop. */
  function OppTotal(g: Gamestate, v: PieceValues, mask: set<Square>, n: nat): int
    requires n <= 64
  {
    if n == 0 then 0 else OppTotal(g, v, mask, n - 1) + OppTerm(g, v, mask, n - 1)
  }

  /** A score with the number of leaves evaluated for it (`candidateCount`). */
  datatype Scored = Scored(score: int, leaves: nat)

  /** The depth-0 score of `calculateScore`: the side to move's terms over its attack map
      minus the opponent's terms over the opponent's attack map, in 32-bit arithmetic; one
      leaf. Building either attack map can fault. */
  function Leaf(g: Gamestate, v: PieceValues): Result<Scored> {
    var own :- ControlledPositions(g, g.turn);
    var opp :- ControlledPositions(g, Opponent(g.turn));
    Success(Scored(Wrap32(OwnTotal(g, v, own.mask, 64) - OppTotal(g, v, opp.mask, 64)), 1))
  }

  /** The depth-0 branch of `calculateScore`: its two loops, one per attack map. */
  method EvaluateLeaf(g: Gamestate, v: PieceValues) returns (r: Result<Scored>)
    ensures r == Leaf(g, v)
    ensures r.Success? ==> r.value.leaves == 1 && IntMin <= r.value.score <= IntMax
  {
    var own := ControlledPositions(g, g.turn);
    if own.Failure? {
      return Failure(own.fault);
    }
    var score := OwnLoop(g, v, own.value.mask);
    var opp := ControlledPositions(g, Opponent(g.turn));
    if opp.Failure? {
      return Failure(opp.fault);
    }
    score := OppLoop(g, v, opp.value.mask, OwnTotal(g, v, own.value.mask, 64), score);
    return Success(Scored(score, 1));
  }

  /** The first loop, square by square. */
  method OwnLoop(g: Gamestate, v: PieceValues, mask: set<Square>) returns (score: int)
    ensures score == Wrap32(OwnTotal(g, v, mask, 64))
  {
    score := 0;
    var pos := 0;
    while pos < 64
      invariant 0 <= pos <= 64
      invariant score == Wrap32(OwnTotal(g, v, mask, pos))
    {
      score := OwnSquare(g, v, mask, pos, OwnTotal(g, v, mask, pos), score);
      pos := pos + 1;
    }
  }

  /** One pass of the first loop's body, wrapping at every addition. */
  method OwnSquare(g: Gamestate, v: PieceValues, mask: set<Square>, pos: Square, before: int, score: int)
    returns (after: int)
    requires score == Wrap32(before)
    ensures after == Wrap32(before + OwnTerm(g, v, mask, pos))
  {
    after := score;
    ghost var exact := before;
    var piece := g.board[pos];
    if piece.Some? && piece.value.color == g.turn {
      after := AddWrapped(after, exact, 3 * ValueOf(v, piece.value.kind));
      exact := exact + 3 * ValueOf(v, piece.value.kind);
    }
    if pos in mask {
      after := AddWrapped(after, exact, 8);
      exact := exact + 8;
      if piece.Some? && (piece.value.kind != King || piece.value.color != g.turn) {
        after := AddWrapped(after, exact, ValueOf(v, piece.value.kind));
        exact := exact + ValueOf(v, piece.value.kind);
      }
    }
    assert exact == before + OwnTerm(g, v, mask, pos);
  }

  /** The second loop, continuing from `start`, the wrapped value of `total`. */
  method OppLoop(g: Gamestate, v: PieceValues, mask: set<Square>, total: int, start: int) returns (score: int)
    requires start == Wrap32(total)
    ensures score == Wrap32(total - OppTotal(g, v, mask, 64))
  {
    score := start;
    var pos := 0;
    while pos < 64
      invariant 0 <= pos <= 64
      invariant score == Wrap32(total - OppTotal(g, v, mask, pos))
    {
      score := OppSquare(g, v, mask, pos, total - OppTotal(g, v, mask, pos), score);
      pos := pos + 1;
    }
  }

  /** One pass of the second loop's body, wrapping at every subtraction. */
  method OppSquare(g: Gamestate, v: PieceValues, mask: set<Square>, pos: Square, before: int, score: int)
    returns (after: int)
    requires score == Wrap32(before)
    ensures after == Wrap32(before - OppTerm(g, v, mask, pos))
  {
    after := score;
    ghost var exact := before;
    var piece := g.board[pos];
    if piece.Some? && piece.value.color != g.turn {
      after := AddWrapped(after, exact, -3 * ValueOf(v, piece.value.kind));
      exact := exact - 3 * ValueOf(v, piece.value.kind);
    }
    if pos in mask {
      after := AddWrapped(after, exact, -8);
      exact := exact - 8;
      if piece.Some? && (piece.value.kind != King || piece.value.color != g.turn) {
        after := AddWrapped(after, exact, -ValueOf(v, piece.value.kind));
        exact := exact - ValueOf(v, piece.value.kind);
      }
    }
    assert exact == before - OppTerm(g, v, mask, pos);
  }

  /** With piece values below 2^20 the leaf sum never leaves the 32-bit range, so the
      wrapping never takes effect. */
  lemma {:induction false} LeafNoWrap(g: Gamestate, v: PieceValues, own: set<Square>, opp: set<Square>, n: nat)
    requires n <= 64
    requires forall k: PieceKind :: 0 <= ValueOf(v, k) < 0x10_0000
    ensures 0 <= OwnTotal(g, v, own, n) <= n * 0x40_0020
    ensures 0 <= OppTotal(g, v, opp, n) <= n * 0x40_0020
    ensures n == 64 ==> Wrap32(OwnTotal(g, v, own, n) - OppTotal(g, v, opp, n)) == OwnTotal(g, v, own, n) - OppTotal(g, v, opp, n)
  {
    if n > 0 {
      LeafNoWrap(g, v, own, opp, n - 1);
      var s := n - 1;
      if g.board[s].Some? {
        assert 0 <= ValueOf(v, g.board[s].value.kind) < 0x10_0000;
      }
    }
  }
  // ---------------------------------------------------------------------------
  // The min/max recursion (`calculateScore`)

  /** `Optimize`: the sense in which a node picks among its children's scores. */
  datatype Optimize = Lowest | Highest

  function Opposite(o: Optimize): Optimize {
    if o == Highest then Lowest else Highest
  }

  /** The score a node starts from: `int.MinValue` when maximising, `int.MaxValue` when
      minimising. */
  function Sentinel(o: Optimize): int {
    if o == Highest then IntMin else IntMax
  }

  /** `score` replaces `best` only when strictly better in the sense `o`. */
  predicate Better(o: Optimize, score: int, best: int) {
    (o == Highest && score > best) || (o == Lowest && score < best)
  }

  /** `calculateScore(depth, optimize)`: at depth 0 the leaf evaluation; deeper, the turn
      passes, that side's en-passant square is cleared, and the node keeps the best of its
      children, each played on a copy and scored one level down in the opposite sense. */
  function Score(g: Gamestate, depth: nat, opt: Optimize, v: PieceValues): Result<Scored>
    decreases depth, 1, 0
  {
    if depth > 0 then
      var h := HandOver(g);
      var moves :- AllMoves(h);
      Fold(opt, ChildResults(h, moves, depth - 1, Opposite(opt), v), Scored(Sentinel(opt), 0))
    else Leaf(g, v)
  }

  /** One child: the move played on a copy of `h`, then scored at depth `d` in sense `opt`. */
  function Child(h: Gamestate, m: Move, d: nat, opt: Optimize, v: PieceValues): Result<Scored>
    decreases d + 1, 0, 0
  {
    var next :- MakeMove(h, m);
    Score(next, d, opt, v)
  }

  /** The children's results, in move order. */
  function ChildResults(h: Gamestate, moves: seq<Move>, d: nat, opt: Optimize, v: PieceValues): (r: seq<Result<Scored>>)
    ensures |r| == |moves|
    decreases d + 1, 0, |moves|
  {
    if moves == [] then []
    else [Child(h, moves[0], d, opt, v)] + ChildResults(h, moves[1..], d, opt, v)
  }

  /** Entry `i` of the children's results is the result of playing and scoring move `i`. */
  lemma {:induction false} ChildResultsAt(h: Gamestate, moves: seq<Move>, d: nat, opt: Optimize, v: PieceValues, i: nat)
    requires i < |moves|
    ensures ChildResults(h, moves, d, opt, v)[i] == Child(h, moves[i], d, opt, v)
    decreases i
  {
    if i > 0 {
      ChildResultsAt(h, moves[1..], d, opt, v, i - 1);
      assert moves[1..][i - 1] == moves[i];
    }
  }

  /** The loop over the children's results: `acc` holds the best score so far and the
      leaves counted; a score replaces the best only when strictly better; the first
      faulting child ends the loop. */
  function Fold(opt: Optimize, rs: seq<Result<Scored>>, acc: Scored): Result<Scored> {
    if rs == [] then Success(acc)
    else match rs[0]
      case Failure(f) => Failure(f)
      case Success(s) =>
        var best := if Better(opt, s.score, acc.score) then s.score else acc.score;
        Fold(opt, rs[1..], Scored(best, acc.leaves + s.leaves))
  }

  /** The leaves of a list of successful results. */
  function LeafCount(rs: seq<Result<Scored>>): nat
    requires forall i :: 0 <= i < |rs| ==> rs[i].Success?
  {
    if rs == [] then 0 else rs[0].value.leaves + LeafCount(rs[1..])
  }

  /** The loop succeeds exactly when every child's result does. */
  lemma {:induction false} FoldFault(opt: Optimize, rs: seq<Result<Scored>>, acc: Scored)
    ensures Fold(opt, rs, acc).Success? <==> forall i :: 0 <= i < |rs| ==> rs[i].Success?
  {
    if rs != [] && rs[0].Success? {
      var s := rs[0].value;
      var best := if Better(opt, s.score, acc.score) then s.score else acc.score;
      FoldFault(opt, rs[1..], Scored(best, acc.leaves + s.leaves));
      assert forall i :: 1 <= i < |rs| ==> rs[1..][i - 1] == rs[i];
    }
  }

  /** The loop's result is the extremum of its start value and the children's scores: no
      child and not the start is better, and it is the start or some child's score. Its
      leaves are the start's plus every child's. */
  lemma {:induction false} FoldExtreme(opt: Optimize, rs: seq<Result<Scored>>, acc: Scored)
    requires forall i :: 0 <= i < |rs| ==> rs[i].Success?
    ensures Fold(opt, rs, acc).Success?
    ensures var r := Fold(opt, rs, acc).value;
      && !Better(opt, acc.score, r.score)
      && (forall i :: 0 <= i < |rs| ==> !Better(opt, rs[i].value.score, r.score))
      && (r.score == acc.score || exists i :: 0 <= i < |rs| && rs[i].value.score == r.score)
      && r.leaves == acc.leaves + LeafCount(rs)
  {
    if rs != [] {
      var s := rs[0].value;
      var best := if Better(opt, s.score, acc.score) then s.score else acc.score;
      var acc' := Scored(best, acc.leaves + s.leaves);
      var tail := rs[1..];
      assert forall i :: 1 <= i < |rs| ==> tail[i - 1] == rs[i];
      FoldExtreme(opt, tail, acc');
      var r := Fold(opt, tail, acc').value;
      assert Fold(opt, rs, acc).value == r;
      if r.score != best {
        var j :| 0 <= j < |tail| && tail[j].value.score == r.score;
        assert rs[j + 1].value.score == r.score;
      }
    }
  }

  /** The loop started from the sentinel: it succeeds exactly when every result does, and
      then holds their extremum and all their leaves; over no result it is the sentinel. */
  lemma FoldFromSentinel(opt: Optimize, rs: seq<Result<Scored>>)
    ensures var r := Fold(opt, rs, Scored(Sentinel(opt), 0));
      && (r.Success? <==> forall i :: 0 <= i < |rs| ==> rs[i].Success?)
      && (r.Success? ==>
           && (forall i :: 0 <= i < |rs| ==> !Better(opt, rs[i].value.score, r.value.score))
           && (r.value.score == Sentinel(opt) || exists i :: 0 <= i < |rs| && rs[i].value.score == r.value.score)
           && r.value.leaves == LeafCount(rs))
      && (rs == [] ==> r == Success(Scored(Sentinel(opt), 0)))
  {
    FoldFault(opt, rs, Scored(Sentinel(opt), 0));
    if forall i :: 0 <= i < |rs| ==> rs[i].Success? {
      FoldExtreme(opt, rs, Scored(Sentinel(opt), 0));
    }
  }

  /** One level of `Score` above depth 0, with the depth below named. */
  lemma ScoreStep(g: Gamestate, d: nat, opt: Optimize, v: PieceValues)
    ensures AllMoves(HandOver(g)).Failure? ==> Score(g, d + 1, opt, v).Failure?
    ensures AllMoves(HandOver(g)).Success? ==>
      Score(g, d + 1, opt, v) ==
        Fold(opt, ChildResults(HandOver(g), AllMoves(HandOver(g)).value, d, Opposite(opt), v), Scored(Sentinel(opt), 0))
  {
  }

  /** A node above depth 0 scores exactly when its move list can be built and every child
      scores; it then holds the extremum of its children's scores in its sense, starting
      from the sentinel, and counts the leaves of all its children. With no move it
      returns the sentinel. */
  lemma ScoreNode(g: Gamestate, d: nat, opt: Optimize, v: PieceValues)
    ensures var h := HandOver(g);
      Score(g, d + 1, opt, v).Success? <==>
        AllMoves(h).Success? && forall i :: 0 <= i < |AllMoves(h).value| ==>
          ChildResults(h, AllMoves(h).value, d, Opposite(opt), v)[i].Success?
    ensures var h := HandOver(g);
      Score(g, d + 1, opt, v).Success? ==>
        var moves := AllMoves(h).value;
        var rs := ChildResults(h, moves, d, Opposite(opt), v);
        var r := Score(g, d + 1, opt, v).value;
        && (forall i :: 0 <= i < |moves| ==> !Better(opt, rs[i].value.score, r.score))
        && (r.score == Sentinel(opt) || exists i :: 0 <= i < |moves| && rs[i].value.score == r.score)
        && r.leaves == LeafCount(rs)
        && (moves == [] ==> r == Scored(Sentinel(opt), 0))
  {
    ScoreStep(g, d, opt, v);
    var h := HandOver(g);
    if AllMoves(h).Success? {
      FoldFromSentinel(opt, ChildResults(h, AllMoves(h).value, d, Opposite(opt), v));
    }
  }

  /** Every score fits in an `int`: leaves wrap, and a node's score is its sentinel or a
      child's. */
  lemma {:induction false} ScoreInRange(g: Gamestate, depth: nat, opt: Optimize, v: PieceValues)
    requires Score(g, depth, opt, v).Success?
    ensures IntMin <= Score(g, depth, opt, v).value.score <= IntMax
    decreases depth, 3
  {
    if depth == 0 {
      LeafInRange(g, v);
    } else {
      NodeInRange(g, depth, opt, v);
    }
  }

  /** Above depth 0 the node's score is the loop's over children whose scores are in range. */
  lemma {:induction false} NodeInRange(g: Gamestate, depth: nat, opt: Optimize, v: PieceValues)
    requires depth > 0 && Score(g, depth, opt, v).Success?
    ensures IntMin <= Score(g, depth, opt, v).value.score <= IntMax
    decreases depth, 2
  {
    ScoreIsFold(g, depth, opt, v);
    var h := HandOver(g);
    forall d: nat | d == depth - 1
      ensures Fold(opt, ChildResults(h, AllMoves(h).value, d, Opposite(opt), v), Scored(Sentinel(opt), 0)).Success? ==>
        IntMin <= Fold(opt, ChildResults(h, AllMoves(h).value, d, Opposite(opt), v), Scored(Sentinel(opt), 0)).value.score <= IntMax
    {
      if Fold(opt, ChildResults(h, AllMoves(h).value, d, Opposite(opt), v), Scored(Sentinel(opt), 0)).Success? {
        ChildrenInRange(h, AllMoves(h).value, d, Opposite(opt), v, opt);
      }
    }
  }

  /** A successful node above depth 0 is the loop over its children from the sentinel. */
  lemma ScoreIsFold(g: Gamestate, depth: nat, opt: Optimize, v: PieceValues)
    requires depth > 0 && Score(g, depth, opt, v).Success?
    ensures AllMoves(HandOver(g)).Success?
    ensures Score(g, depth, opt, v) ==
      Fold(opt, ChildResults(HandOver(g), AllMoves(HandOver(g)).value, depth - 1, Opposite(opt), v), Scored(Sentinel(opt), 0))
  {
  }

  /** A loop over children in sense `outer`, started from its sentinel, ends in range. */
  lemma {:induction false} ChildrenInRange(h: Gamestate, moves: seq<Move>, d: nat, opt: Optimize, v: PieceValues, outer: Optimize)
    requires Fold(outer, ChildResults(h, moves, d, opt, v), Scored(Sentinel(outer), 0)).Success?
    ensures IntMin <= Fold(outer, ChildResults(h, moves, d, opt, v), Scored(Sentinel(outer), 0)).value.score <= IntMax
    decreases d + 1, 1
  {
    var rs := ChildResults(h, moves, d, opt, v);
    var acc := Scored(Sentinel(outer), 0);
    FoldFault(outer, rs, acc);
    forall i | 0 <= i < |rs|
      ensures IntMin <= rs[i].value.score <= IntMax
    {
      ChildResultsAt(h, moves, d, opt, v, i);
      ChildInRange(h, moves[i], d, opt, v);
    }
    FoldInRange(outer, rs, acc);
  }

  /** The loop keeps its result in the `int` range when its start and every child's score
      are in range. */
  lemma FoldInRange(opt: Optimize, rs: seq<Result<Scored>>, acc: Scored)
    requires IntMin <= acc.score <= IntMax
    requires forall i :: 0 <= i < |rs| ==> rs[i].Success? && IntMin <= rs[i].value.score <= IntMax
    ensures Fold(opt, rs, acc).Success? && IntMin <= Fold(opt, rs, acc).value.score <= IntMax
  {
    FoldExtreme(opt, rs, acc);
  }

  lemma {:induction false} ChildInRange(h: Gamestate, m: Move, d: nat, opt: Optimize, v: PieceValues)
    requires Child(h, m, d, opt, v).Success?
    ensures IntMin <= Child(h, m, d, opt, v).value.score <= IntMax
    decreases d + 1, 0
  {
    var next := MakeMove(h, m);
    assert next.Success?;
    assert Child(h, m, d, opt, v) == Score(next.value, d, opt, v);
    ScoreInRange(next.value, d, opt, v);
  }

  lemma LeafInRange(g: Gamestate, v: PieceValues)
    requires Leaf(g, v).Success?
    ensures IntMin <= Leaf(g, v).value.score <= IntMax
  {
  }

  // ---------------------------------------------------------------------------
  // The root (`calculateBestMove`)

  /** The root's sense: Lowest exactly when the depth is odd (`(depth & 1) == 1`). */
  function RootOptimize(depth: nat): Optimize {
    if depth % 2 == 1 then Lowest else Highest
  }

  /** Each move with its child's score, once every child has scored. */
  function Pairs(moves: seq<Move>, rs: seq<Result<Scored>>): (r: Result<seq<(Move, int)>>)
    requires |rs| == |moves|
    ensures r.Success? <==> forall i :: 0 <= i < |rs| ==> rs[i].Success?
    ensures r.Success? ==> |r.value| == |moves|
    ensures r.Success? ==> forall i :: 0 <= i < |moves| ==> r.value[i] == (moves[i], rs[i].value.score)
  {
    if moves == [] then Success([])
    else
      match rs[0]
      case Failure(f) => Failure(f)
      case Success(s) =>
        var rest := Pairs(moves[1..], rs[1..]);
        assert forall i :: 1 <= i < |rs| ==> rs[1..][i - 1] == rs[i] && moves[1..][i - 1] == moves[i];
        if rest.Failure? then Failure(rest.fault) else Success([(moves[0], s.score)] + rest.value)
  }

  /** The root's candidates' results: each move is played on a copy of `g` and scored at the
      same depth (the root does not decrement it) in the opposite sense. */
  function RootResults(g: Gamestate, moves: seq<Move>, depth: nat, v: PieceValues): (r: seq<Result<Scored>>)
    ensures |r| == |moves|
  {
    ChildResults(g, moves, depth, Opposite(RootOptimize(depth)), v)
  }

  /** The root's candidates with their scores. */
  function RootPairs(g: Gamestate, moves: seq<Move>, depth: nat, v: PieceValues): Result<seq<(Move, int)>> {
    Pairs(moves, RootResults(g, moves, depth, v))
  }

  /** The root's loop as written: `bestMoves` is null until the first strictly better score
      creates it; an equal score is added to it, which faults while it is still null. */
  function CollectAsWritten(pairs: seq<(Move, int)>, opt: Optimize, best: int, ties: Option<seq<Move>>)
    : Result<(int, Option<seq<Move>>)>
  {
    if pairs == [] then Success((best, ties))
    else
      var m := pairs[0].0;
      var s := pairs[0].1;
      if Better(opt, s, best) then CollectAsWritten(pairs[1..], opt, s, Some([m]))
      else if s == best then
        if ties.None? then Failure(NoTieList)
        else CollectAsWritten(pairs[1..], opt, best, Some(ties.value + [m]))
      else CollectAsWritten(pairs[1..], opt, best, ties)
  }

  /** The root's loop with the tie list there from the start. */
  function Collect(pairs: seq<(Move, int)>, opt: Optimize, best: int, ties: seq<Move>): (int, seq<Move>) {
    if pairs == [] then (best, ties)
    else
      var m := pairs[0].0;
      var s := pairs[0].1;
      if Better(opt, s, best) then Collect(pairs[1..], opt, s, [m])
      else if s == best then Collect(pairs[1..], opt, best, ties + [m])
      else Collect(pairs[1..], opt, best, ties)
  }

  /** The moves whose score is `b`, in order. */
  function Matching(pairs: seq<(Move, int)>, b: int): (r: seq<Move>)
    ensures forall m :: m in r ==> exists i :: 0 <= i < |pairs| && pairs[i] == (m, b)
    ensures forall i :: 0 <= i < |pairs| && pairs[i].1 == b ==> pairs[i].0 in r
  {
    if pairs == [] then []
    else
      var rest := Matching(pairs[1..], b);
      assert forall i :: 1 <= i < |pairs| ==> pairs[1..][i - 1] == pairs[i];
      (if pairs[0].1 == b then [pairs[0].0] else []) + rest
  }

  /** The loop ends on the extremum of the start and all scores. */
  lemma {:induction false} CollectBest(pairs: seq<(Move, int)>, opt: Optimize, best: int, ties: seq<Move>)
    ensures var r := Collect(pairs, opt, best, ties);
      && !Better(opt, best, r.0)
      && (forall i :: 0 <= i < |pairs| ==> !Better(opt, pairs[i].1, r.0))
      && (r.0 == best || exists i :: 0 <= i < |pairs| && pairs[i].1 == r.0)
  {
    if pairs != [] {
      var m := pairs[0].0;
      var s := pairs[0].1;
      var tail := pairs[1..];
      assert forall i :: 1 <= i < |pairs| ==> tail[i - 1] == pairs[i];
      var best' := if Better(opt, s, best) then s else best;
      var ties' := if Better(opt, s, best) then [m] else if s == best then ties + [m] else ties;
      CollectBest(tail, opt, best', ties');
      var r := Collect(tail, opt, best', ties');
      assert Collect(pairs, opt, best, ties) == r;
      if r.0 != best' {
        var j :| 0 <= j < |tail| && tail[j].1 == r.0;
        assert pairs[j + 1].1 == r.0;
      }
    }
  }

  /** The loop's tie list holds the moves scoring the extremum it ends on, in order, after
      the start's list if the extremum is the start's score. */
  lemma {:induction false} CollectTies(pairs: seq<(Move, int)>, opt: Optimize, best: int, ties: seq<Move>)
    ensures var r := Collect(pairs, opt, best, ties);
      r.1 == (if r.0 == best then ties else []) + Matching(pairs, r.0)
  {
    if pairs != [] {
      var m := pairs[0].0;
      var s := pairs[0].1;
      var tail := pairs[1..];
      var best' := if Better(opt, s, best) then s else best;
      var ties' := if Better(opt, s, best) then [m] else if s == best then ties + [m] else ties;
      CollectTies(tail, opt, best', ties');
      CollectBest(tail, opt, best', ties');
      var r := Collect(tail, opt, best', ties');
      assert Collect(pairs, opt, best, ties) == r;
      assert Matching(pairs, r.0) == (if s == r.0 then [m] else []) + Matching(tail, r.0);
      if s == best && r.0 == best {
        assert (ties + [m]) + Matching(tail, r.0) == ties + ([m] + Matching(tail, r.0));
      }
    }
  }

  /** Once the tie list exists the loop as written does what the corrected loop does. */
  lemma {:induction false} CollectAsWrittenAgrees(pairs: seq<(Move, int)>, opt: Optimize, best: int, ties: seq<Move>)
    ensures var c := Collect(pairs, opt, best, ties);
      CollectAsWritten(pairs, opt, best, Some(ties)) == Success((c.0, Some(c.1)))
  {
    if pairs != [] {
      var m := pairs[0].0;
      var s := pairs[0].1;
      if Better(opt, s, best) {
        CollectAsWrittenAgrees(pairs[1..], opt, s, [m]);
      } else if s == best {
        CollectAsWrittenAgrees(pairs[1..], opt, best, ties + [m]);
      } else {
        CollectAsWrittenAgrees(pairs[1..], opt, best, ties);
      }
    }
  }

  /** From the sentinel with no tie list, the loop as written faults exactly when the first
      score equals the sentinel; otherwise it ends as the corrected loop does. Scores are
      `int` values, so none is worse than the sentinel. */
  lemma TieListAsWritten(pairs: seq<(Move, int)>, opt: Optimize)
    requires forall i :: 0 <= i < |pairs| ==> IntMin <= pairs[i].1 <= IntMax
    ensures CollectAsWritten(pairs, opt, Sentinel(opt), None).Failure? <==>
      pairs != [] && pairs[0].1 == Sentinel(opt)
    ensures pairs != [] && pairs[0].1 != Sentinel(opt) ==>
      var c := Collect(pairs, opt, Sentinel(opt), []);
      CollectAsWritten(pairs, opt, Sentinel(opt), None) == Success((c.0, Some(c.1)))
  {
    if pairs != [] && pairs[0].1 != Sentinel(opt) {
      assert Better(opt, pairs[0].1, Sentinel(opt));
      CollectAsWrittenAgrees(pairs[1..], opt, pairs[0].1, [pairs[0].0]);
    }
  }

  /** A first candidate scoring the sentinel, here `int.MaxValue` at a minimising root,
      makes the loop as written add to the null tie list; the corrected loop keeps it. */
  lemma TieListCrash(m: Move)
    ensures CollectAsWritten([(m, IntMax)], Lowest, Sentinel(Lowest), None).Failure?
    ensures Collect([(m, IntMax)], Lowest, Sentinel(Lowest), []) == (IntMax, [m])
  {
    assert [] + [m] == [m];
  }

  /** `calculateBestMove` as written: the candidates are scored and collected, and
      `rand.Next(bestMoves.Count)` (here `choose`) picks among the ties; a null tie list
      faults. */
  function BestMoveAsWritten(g: Gamestate, moves: seq<Move>, depth: nat, v: PieceValues, choose: nat): Result<Move> {
    var pairs :- RootPairs(g, moves, depth, v);
    var opt := RootOptimize(depth);
    var c :- CollectAsWritten(pairs, opt, Sentinel(opt), None);
    if c.1.None? || c.1.value == [] then Failure(NoTieList) else Success(c.1.value[choose % |c.1.value|])
  }

  /** The root's tie list with the list there from the start. */
  function RootTies(g: Gamestate, moves: seq<Move>, depth: nat, v: PieceValues): Result<seq<Move>> {
    var pairs :- RootPairs(g, moves, depth, v);
    var opt := RootOptimize(depth);
    Success(Collect(pairs, opt, Sentinel(opt), []).1)
  }

  /** `calculateBestMove` with the tie list there from the start: `choose` picks among the
      ties; with no candidate there is nothing to pick. */
  function BestMove(g: Gamestate, moves: seq<Move>, depth: nat, v: PieceValues, choose: nat): (r: Result<Move>)
    ensures r.Success? ==> RootTies(g, moves, depth, v).Success? && r.value in RootTies(g, moves, depth, v).value
  {
    var ties :- RootTies(g, moves, depth, v);
    if ties == [] then Failure(NoTieList) else Success(ties[choose % |ties|])
  }

  /** The root's loop finds the extremum of a non-empty list of `int` scores: the first
      candidate's score is never worse than the sentinel. */
  lemma SentinelBottom(opt: Optimize, x: int)
    requires IntMin <= x <= IntMax && !Better(opt, x, Sentinel(opt))
    ensures x == Sentinel(opt)
  {
  }

  /** A move of `moves` whose score no other move beats scores the loop's extremum, so the
      corrected loop collects it. */
  lemma PairTiesBest(moves: seq<Move>, rs: seq<Result<Scored>>, opt: Optimize, i: nat)
    requires |rs| == |moves| && Pairs(moves, rs).Success? && i < |moves|
    requires forall k :: 0 <= k < |rs| ==> IntMin <= rs[k].value.score <= IntMax
    requires forall j :: 0 <= j < |moves| ==> !Better(opt, rs[j].value.score, rs[i].value.score)
    ensures moves[i] in Collect(Pairs(moves, rs).value, opt, Sentinel(opt), []).1
  {
    var pairs := Pairs(moves, rs).value;
    CollectBest(pairs, opt, Sentinel(opt), []);
    CollectTies(pairs, opt, Sentinel(opt), []);
    var c := Collect(pairs, opt, Sentinel(opt), []);
    assert pairs[i] == (moves[i], rs[i].value.score);
    assert !Better(opt, pairs[i].1, c.0);
    if c.0 != Sentinel(opt) {
      var k :| 0 <= k < |pairs| && pairs[k].1 == c.0;
      assert pairs[k] == (moves[k], rs[k].value.score);
      assert !Better(opt, rs[k].value.score, rs[i].value.score);
    } else {
      SentinelBottom(opt, rs[i].value.score);
    }
    assert pairs[i].1 == c.0;
  }

  /** A move the corrected loop collects is one no other move beats. */
  lemma PairTiesOnlyBest(moves: seq<Move>, rs: seq<Result<Scored>>, opt: Optimize, m: Move)
    requires |rs| == |moves| && Pairs(moves, rs).Success?
    requires m in Collect(Pairs(moves, rs).value, opt, Sentinel(opt), []).1
    ensures exists i :: 0 <= i < |moves| && moves[i] == m &&
              forall j :: 0 <= j < |moves| ==> !Better(opt, rs[j].value.score, rs[i].value.score)
  {
    var pairs := Pairs(moves, rs).value;
    CollectBest(pairs, opt, Sentinel(opt), []);
    CollectTies(pairs, opt, Sentinel(opt), []);
    var c := Collect(pairs, opt, Sentinel(opt), []);
    assert c.1 == Matching(pairs, c.0);
    var i :| 0 <= i < |pairs| && pairs[i] == (m, c.0);
    assert moves[i] == m && rs[i].value.score == c.0;
  }

  /** From the sentinel, the corrected loop over scored pairs collects exactly the moves no
      other move beats, and collects at least one when there is a move. */
  lemma PairTies(moves: seq<Move>, rs: seq<Result<Scored>>, opt: Optimize, m: Move)
    requires |rs| == |moves| && Pairs(moves, rs).Success?
    requires forall i :: 0 <= i < |rs| ==> IntMin <= rs[i].value.score <= IntMax
    ensures var c := Collect(Pairs(moves, rs).value, opt, Sentinel(opt), []);
      && (moves != [] ==> c.1 != [])
      && (m in c.1 <==>
           exists i :: 0 <= i < |moves| && moves[i] == m &&
             forall j :: 0 <= j < |moves| ==> !Better(opt, rs[j].value.score, rs[i].value.score))
  {
    var c := Collect(Pairs(moves, rs).value, opt, Sentinel(opt), []);
    if moves != [] {
      var pairs := Pairs(moves, rs).value;
      CollectBest(pairs, opt, Sentinel(opt), []);
      var i: nat := 0;
      if c.0 != Sentinel(opt) {
        var k :| 0 <= k < |pairs| && pairs[k].1 == c.0;
        i := k;
      }
      assert forall j :: 0 <= j < |moves| ==> !Better(opt, rs[j].value.score, rs[i].value.score) by {
        assert pairs[i] == (moves[i], rs[i].value.score);
        forall j | 0 <= j < |moves| ensures !Better(opt, rs[j].value.score, rs[i].value.score) {
          assert pairs[j] == (moves[j], rs[j].value.score);
          if c.0 == Sentinel(opt) {
            SentinelBottom(opt, rs[i].value.score);
          }
        }
      }
      PairTiesBest(moves, rs, opt, i);
    }
    if m in c.1 {
      PairTiesOnlyBest(moves, rs, opt, m);
    }
    if exists i :: 0 <= i < |moves| && moves[i] == m &&
         forall j :: 0 <= j < |moves| ==> !Better(opt, rs[j].value.score, rs[i].value.score) {
      var i :| 0 <= i < |moves| && moves[i] == m &&
         forall j :: 0 <= j < |moves| ==> !Better(opt, rs[j].value.score, rs[i].value.score);
      PairTiesBest(moves, rs, opt, i);
    }
  }

  /** The candidates' scores all fit in an `int`. */
  lemma PairsInRange(g: Gamestate, moves: seq<Move>, depth: nat, v: PieceValues)
    requires RootPairs(g, moves, depth, v).Success?
    ensures var rs := RootResults(g, moves, depth, v);
      forall i :: 0 <= i < |rs| ==> IntMin <= rs[i].value.score <= IntMax
  {
    var o := Opposite(RootOptimize(depth));
    var rs := RootResults(g, moves, depth, v);
    forall i | 0 <= i < |moves| ensures IntMin <= rs[i].value.score <= IntMax {
      ChildResultsAt(g, moves, depth, o, v, i);
      ChildInRange(g, moves[i], depth, o, v);
    }
  }

  /** The root's ties are exactly the candidates no other candidate beats in the root's
      sense (Lowest for an odd depth, Highest for an even one); entry `i` of `RootResults`
      is candidate `i`'s result by `ChildResultsAt`. */
  lemma RootTiesAreBest(g: Gamestate, moves: seq<Move>, depth: nat, v: PieceValues, m: Move)
    requires RootTies(g, moves, depth, v).Success?
    ensures var rs := RootResults(g, moves, depth, v);
      forall i :: 0 <= i < |rs| ==> rs[i].Success?
    ensures var rs := RootResults(g, moves, depth, v);
      m in RootTies(g, moves, depth, v).value <==>
        exists i :: 0 <= i < |moves| && moves[i] == m &&
          forall j :: 0 <= j < |moves| ==> !Better(RootOptimize(depth), rs[j].value.score, rs[i].value.score)
  {
    PairsInRange(g, moves, depth, v);
    PairTies(moves, RootResults(g, moves, depth, v), RootOptimize(depth), m);
  }

  /** The corrected root faults exactly when there is no candidate or some candidate cannot
      be scored. */
  lemma BestMoveFault(g: Gamestate, moves: seq<Move>, depth: nat, v: PieceValues, choose: nat)
    ensures var rs := RootResults(g, moves, depth, v);
      BestMove(g, moves, depth, v, choose).Failure? <==>
        moves == [] || exists i :: 0 <= i < |rs| && rs[i].Failure?
  {
    if moves != [] && RootPairs(g, moves, depth, v).Success? {
      PairsInRange(g, moves, depth, v);
      PairTies(moves, RootResults(g, moves, depth, v), RootOptimize(depth), moves[0]);
    }
  }

  /** The root picks one of the best candidates. */
  lemma BestMoveIsBest(g: Gamestate, moves: seq<Move>, depth: nat, v: PieceValues, choose: nat)
    requires BestMove(g, moves, depth, v, choose).Success?
    ensures var rs := RootResults(g, moves, depth, v);
      var r := BestMove(g, moves, depth, v, choose).value;
      exists i :: 0 <= i < |moves| && moves[i] == r &&
        forall j :: 0 <= j < |moves| ==>
          rs[j].Success? && !Better(RootOptimize(depth), rs[j].value.score, rs[i].value.score)
  {
    RootTiesAreBest(g, moves, depth, v, BestMove(g, moves, depth, v, choose).value);
  }

  /** With every candidate scored, the root as written faults exactly when the first
      candidate scores the sentinel, although the corrected root then has a move to pick;
      otherwise both pick the same move. */
  lemma BestMoveAsWrittenFaults(g: Gamestate, moves: seq<Move>, depth: nat, v: PieceValues, choose: nat)
    requires moves != []
    requires var rs := RootResults(g, moves, depth, v);
      forall i :: 0 <= i < |rs| ==> rs[i].Success?
    ensures BestMove(g, moves, depth, v, choose).Success?
    ensures BestMoveAsWritten(g, moves, depth, v, choose).Failure? <==>
      RootResults(g, moves, depth, v)[0].value.score == Sentinel(RootOptimize(depth))
    ensures BestMoveAsWritten(g, moves, depth, v, choose).Success? ==>
      BestMoveAsWritten(g, moves, depth, v, choose) == BestMove(g, moves, depth, v, choose)
  {
    BestMoveFault(g, moves, depth, v, choose);
    var pairs := RootPairs(g, moves, depth, v).value;
    PairsInRange(g, moves, depth, v);
    TieListAsWritten(pairs, RootOptimize(depth));
  }

  /** After the move to `x`, the side handed the turn has a reply after which the other
      side has no move. */
  predicate HasStalledReply(x: Gamestate) {
    var h := HandOver(x);
    && AllMoves(h).Success?
    && exists k :: 0 <= k < |AllMoves(h).value| && StallsAfter(h, AllMoves(h).value[k])
  }

  /** Playing `m` on `h` succeeds and leaves the side handed the turn without a move. */
  predicate StallsAfter(h: Gamestate, m: Move) {
    MakeMove(h, m).Success? && AllMoves(HandOver(MakeMove(h, m).value)) == Success([])
  }

  /** A node whose side to move has no move keeps its sentinel: one level above the
      leaves, minimising, it scores `int.MaxValue` with no leaf counted. */
  lemma StalledNode(x: Gamestate, v: PieceValues)
    requires AllMoves(HandOver(x)) == Success([])
    ensures Score(x, 2, Lowest, v) == Success(Scored(IntMax, 0))
  {
    ScoreNode(x, 1, Lowest, v);
  }

  /** A reply that leaves the other side without a move scores `int.MaxValue`. */
  lemma StalledReply(h: Gamestate, m: Move, v: PieceValues)
    requires StallsAfter(h, m)
    ensures Child(h, m, 2, Lowest, v) == Success(Scored(IntMax, 0))
  {
    StalledNode(MakeMove(h, m).value, v);
  }

  /** A maximising node at depth 3 with such a reply takes `int.MaxValue`. */
  lemma MaxNodeTakesTop(x: Gamestate, v: PieceValues)
    requires Score(x, 3, Highest, v).Success? && HasStalledReply(x)
    ensures Score(x, 3, Highest, v).value.score == IntMax
  {
    var h := HandOver(x);
    var k :| 0 <= k < |AllMoves(h).value| && StallsAfter(h, AllMoves(h).value[k]);
    StalledReply(h, AllMoves(h).value[k], v);
    ChildResultsAt(h, AllMoves(h).value, 2, Lowest, v, k);
    ScoreNode(x, 2, Highest, v);
    ScoreInRange(x, 3, Highest, v);
  }

  /** At depth 3, the depth the program plays at, the first candidate scores the sentinel
      `int.MaxValue` of the minimising root when the opponent has a reply after which the
      computer's side has no move: that reply's node keeps its sentinel, and the
      maximising node above it takes that value. */
  lemma SentinelFromStalledReply(g: Gamestate, moves: seq<Move>, v: PieceValues)
    requires moves != [] && MakeMove(g, moves[0]).Success? && HasStalledReply(MakeMove(g, moves[0]).value)
    requires RootResults(g, moves, 3, v)[0].Success?
    ensures RootResults(g, moves, 3, v)[0].value.score == IntMax == Sentinel(RootOptimize(3))
  {
    ChildResultsAt(g, moves, 3, Highest, v, 0);
    MaxNodeTakesTop(MakeMove(g, moves[0]).value, v);
  }

  /** Such a first candidate makes the root as written fault once every candidate scores,
      while the corrected root picks a move. */
  lemma StalledReplyFaults(g: Gamestate, moves: seq<Move>, v: PieceValues, choose: nat)
    requires moves != [] && MakeMove(g, moves[0]).Success? && HasStalledReply(MakeMove(g, moves[0]).value)
    requires forall i :: 0 <= i < |moves| ==> RootResults(g, moves, 3, v)[i].Success?
    ensures BestMoveAsWritten(g, moves, 3, v, choose).Failure?
    ensures BestMove(g, moves, 3, v, choose).Success?
  {
    SentinelFromStalledReply(g, moves, v);
    BestMoveAsWrittenFaults(g, moves, 3, v, choose);
  }
}
