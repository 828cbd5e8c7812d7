# Chess engine core: a Dafny model

This project models the rules engine and the fixed-depth search of a small console chess
program written in C#. Its four parts follow the program's four parts.

- **Position record** (`Gamestate`):
  - a 64-square board;
  - one list of occupied squares per colour;
  - the side to move;
  - one en-passant square per colour;
  - four castling rights.

  Operations: put, remove, copy and flip. An exception of the program becomes a
  `Result` failure with a `Fault` that names its cause.
- **Per-piece move tables** (`Piece` and its subclasses). For every origin square, the
  moves each piece kind can make geometrically, in the program's order. They follow the
  pawn, castling, en-passant and promotion rules of the FIDE Laws of Chess, Articles 3.7
  and 3.8, as the program implements them.
- **Move filtering**:
  - `PossibleMoves`, the per-square filter: occupancy, castling rights, en-passant
    condition, king safety and castle path.
  - `ControlledPositions`, the attack map and check detector.

  Both walk a table with the same rule: "skip the rest of this direction once a square is
  occupied". The `Scan` module captures that rule once, and proves that the walk examines
  a move exactly when no earlier move in its direction run was blocked.
- **Game logic** (`GameControl` without its console):
  - applying a move, including the rook's relocation for castling and recording the
    en-passant square;
  - the turn step of the game loop;
  - checkmate and stalemate detection;
  - the recursive min/max search with its material-plus-control leaf evaluation.

How the model represents the program's data:

- Squares are `0..63`, with `A1 = 0` and `H8 = 63`. The row is `s / 8` and the column
  `s % 8`.
- A direction's value is `8·dr + dc`, decoded as the program decodes it.
- A position is an immutable datatype. So the copy constructor, and the search's habit of
  playing every candidate on a fresh copy, cannot leak changes back to the caller.
- The bit masks (`UInt64` and `UInt32`) are sets of squares or sequences of booleans.
- The leaf score's 32-bit `int` arithmetic is written out as two's-complement wrap-around
  (`Search.Wrap32`).

Behaviours modelled as the program has them, although a chess player might expect
otherwise:

- **En-passant square.** The square recorded is the double step's *landing* square. An
  en-passant move is accepted when its capture square equals the recorded square of the
  colour of the piece standing there.
- **Castle path.** The path test looks only at F1/G1 or D1/C1 (F8/G8 or D8/C8), in the
  attack map *after* the move. The king's own square is never looked at, so castling out of
  check is not refused.
- **Castling rights.** Any removal on A1, E1, H1, A8, E8 or H8 clears the matching right,
  even when the square is empty.
- **Attack map and en passant.** An en-passant move of the attack map whose capture
  square holds a king of the other colour reports a check, whatever the en-passant
  condition says (`Control.Checks`).
- **Root search depth.** The root passes its depth unchanged to its children.
- **Search perspective.** Leaves are evaluated from the point of view of the side to move
  at the leaf: a leaf does not flip the turn, and a node one level above does.

## Model

| member | source | states |
|---|---|---|
| Position.NewGamestate | Gamestate.cs:21-30 | the empty board, with empty piece lists, White to move, no en-passant squares and all four castling rights held; the result is well formed |
| Position.Copy | Gamestate.cs:31-42 | the copy equals its source in every field |
| Position.FlipTurn | Gamestate.cs:44-48 | the side to move changes, the new side is returned, and nothing else changes |
| Position.FlipTurnInvolution | Gamestate.cs:44-48 | flipping twice gives back the original position |
| Position.SetEnPassant | Gamestate.cs:50-57 | reading the colour just set gives the value set; the other colour's square, the board, the lists, the turn and the rights are untouched |
| Position.PiecePositions | Gamestate.cs:110-117 | with no colour it is the side to move's list, otherwise that colour's list; on a well-formed position every listed square holds a piece of that colour |
| Position.PutPiece | Gamestate.cs:59-68 | fails with SquareOccupied exactly when the square is occupied; otherwise the square holds the piece, the square is appended to its colour's list, the other list and the metadata are unchanged, and well-formedness is kept |
| Position.PutFound | Gamestate.cs:59-68 | placing a possibly-null piece: occupied gives SquareOccupied, a null piece on an empty square gives NoPiece, otherwise it is PutPiece |
| Position.RemoveFirst | Gamestate.cs:77 | `List.Remove`: a list without the square is returned unchanged; otherwise the list shortens by one, other squares' membership is unchanged, and a duplicate-free list stays duplicate-free without the square |
| Position.RemoveFirstSplit | Gamestate.cs:77 | when the square is present, the result is the list with its first occurrence cut out and the other squares in their old order |
| Position.RemovePiece | Gamestate.cs:70-81 | returns what the square held and empties it; an empty square leaves the lists alone, and an occupied one removes the square from its colour's list only; the castling rights are exactly those `updateCastleFlags` leaves for the square, so the rights tied to it are cleared and every other right is kept; well-formedness is kept |
| Position.UpdateCastleFlags | Gamestate.cs:83-101 | A1/E1 clear White-west, E1/H1 clear White-east, A8/E8 clear Black-west, E8/H8 clear Black-east; every other right and every other field is kept |
| Position.RemoveUndoesPut | Gamestate.cs:59-81 | on a well-formed position, putting a piece on an empty square and removing it again gives back the position (up to the rights cleared for that square) and the piece |
| Squares.MovePosition | Piece.cs:53-70 | fails exactly when the target row or column leaves 0..7; otherwise row and column change by exactly the direction's (dr, dc), the new square is `pos + dir`, and the distance to the edge shrinks |
| Squares.DecodeValue | Piece.cs:57-59 | the `+36`, `>>3`, `&7` decoding gives back the direction's row and column step for every direction |
| Squares.LowBitsDetectColumnChange | Piece.cs:283 | a direction's value has non-zero low three bits exactly when it changes the column |
| MoveRecords.MovesToPosition | Moves.cs:234-245 | a move is in the result exactly when it is in the list and lands on the square; the result is no longer than the list |
| MoveRecords.MovesToPositionSingle | Moves.cs:234-245 | a one-move list is kept when its move lands on the square and dropped otherwise |
| MoveRecords.MovesToPositionConcat | Moves.cs:234-245 | the filter keeps list order and multiplicity: filtering a concatenation gives the concatenation of the filtered parts |
| Tables.Ray | Piece.cs:37-48 | one direction's walk: every move is an EitherType move from the origin along that direction capturing on its landing square, and a knight's walk has at most one move |
| Tables.RaySteps | Piece.cs:37-48 | the first landing square is one step from the origin and each later one is one step from the one before |
| Tables.RayEnd | Piece.cs:37-48 | a slider's walk stops only where the next step would leave the board |
| Tables.RayStep | Piece.cs:37-48 | a knight's walk takes its one step exactly when that step is on the board |
| Tables.GenericTable | Piece.cs:31-51 | every move of a queen, rook, bishop or knight table starts on the origin, runs along one of the piece's directions and carries EitherType |
| Tables.KingWalk | Piece.cs:109-130 | one king direction: a first EitherType step exactly when the neighbour is on the board, and a second move only along E or W from the colour's home square |
| Tables.ConversionMoves | Piece.cs:318-325 | four moves with the Conversion flag added, naming Queen, Rook, Bishop and Knight in that order |
| Tables.EnPassantMoves | Piece.cs:306-316 | one Capture/UseEnPassant move exactly for a White pawn on row 4 moving NE or NW, or a Black pawn on row 3 moving SE or SW, capturing on landing − 8 or landing + 8 respectively |
| Tables.PawnFlags | Piece.cs:283 | a diagonal step carries Capture and not Move, a straight step Move and not Capture, plus SetsEnPassant exactly for a second step |
| Tables.Table | Piece.cs:19-26 | every move of the table of a square starts on that square |
| TableProperties.GenericTableShape | Piece.cs:31-51 | every generic move is EitherType and captures on its landing square; each direction's moves stand together at strictly growing distance; a slider's direction run is the full ray to the edge, and a knight has at most one move per direction |
| TableProperties.KingTableFacts | Piece.cs:103-134 | every king move is an EitherType step to a neighbour, or the Move/Castle two-square move along E or W from the colour's home square; the moves of each direction stand together in order of distance |
| TableProperties.KingTableHasSteps | Piece.cs:109-116 | every on-board neighbour of the origin is reached by an EitherType king move |
| TableProperties.KingTableHasCastles | Piece.cs:118-127 | from E1 (White) or E8 (Black), both two-square Move/Castle moves along E and W are in the table |
| TableProperties.PawnTableFacts | Piece.cs:271-330 | every pawn move fits the flag rules: Capture on diagonals and Move straight ahead, SetsEnPassant only on the double step from the home row, Conversion exactly on the first or last row and then with a piece kind, and en passant only from the fifth rank; promotions come in complete groups of four; each direction's moves stand together in order of distance |
| TableProperties.PawnTableHasSteps | Piece.cs:281-291 | every on-board pawn step is in the table with its step flags: as a plain move, or as the queen promotion when it lands on the first or last row |
| TableProperties.PawnTableHasDoubleStep | Piece.cs:293-298 | from the home row, the two-square forward move flagged Move and SetsEnPassant is in the table |
| TableProperties.PawnTableHasEnPassant | Piece.cs:306-316 | from the fifth rank, the Capture/UseEnPassant move along each on-board diagonal is in the table, capturing on the square behind its landing square |
| TableProperties.TableLayout | Piece.cs:37-48 | every table lists the moves of one direction together, in increasing distance from the origin |
| TableProperties.TableCoherent | Piece.cs:19-330 | no table move lands or captures on its origin; exactly the en-passant moves capture away from their landing square; only king moves castle |
| Scan.ExaminedOpen | Moves.cs:99-111 | the skip-direction walk examines a move exactly when no earlier move of the same direction run has blocked |
| Control.WalkControl | Moves.cs:284-308 | one piece's share of the map: a square is controlled exactly when an examined Capture move marks it; a check is reported exactly when an examined Capture move reaches a king of the other colour, and it names such a square |
| Control.ControlledPositions | Moves.cs:275-311 | faults exactly when a listed square is empty; otherwise the mask is the union of the listed pieces' shares, and a check is reported exactly when some listed piece reports one |
| Control.ControlTotal | Moves.cs:279-283 | on a well-formed position the attack map never faults |
| Control.ControlFromBoard | Moves.cs:279-311 | on a well-formed position the list-driven map is the board-level one: a square is in the mask exactly when a piece of that colour attacks it, and a check is reported exactly when such a piece reaches an enemy king |
| Control.CheckNamesEnemyKing | Moves.cs:300-304 | a reported check names a square holding a king; on a well-formed position it is a king of the colour that is not attacking |
| Control.ControlFromCaptures | Moves.cs:293-299 | every controlled square is the capture square of an examined Capture move of a listed piece, and, for an en-passant move, the recorded en-passant square of the piece standing there |
| Control.GenericControl | Moves.cs:284-308 | a queen, rook, bishop or knight controls exactly the landing squares of its table up to and including the first occupied square of each direction |
| Possible.Simulate | Moves.cs:125-133 | the king-safety copy fails exactly when the landing square is still occupied after the capture square and the origin are emptied (or the origin was empty); otherwise the piece has moved, the turn is flipped, en-passant squares are kept and well-formedness is kept |
| Possible.FilterWalk | Moves.cs:99-151 | the constructor's loop faults exactly when an examined move's simulation faults; otherwise a move is kept exactly when it is examined and passes every test |
| Possible.PossibleMoves | Moves.cs:89-152 | an empty origin gives no table, MoveCount 0 and an empty end mask; otherwise the kept bits are the filter walk's over the origin's table |
| Possible.Enumerate | Moves.cs:247-258 | the enumerator faults exactly on the null table of an empty origin |
| PossibleProperties.JudgeKept | Moves.cs:113-143 | a table move is accepted exactly when it is Legal: castling right held, en-passant condition met, the occupancy test passed, no check after the simulated move and, for a castle, no attack on its path |
| PossibleProperties.JudgeCrash | Moves.cs:125-132 | on a well-formed position the simulation faults only for an en-passant capture that passes its tests but lands on an occupied square |
| PossibleProperties.PossibleKeep | Moves.cs:99-151 | on a well-formed position a move is kept exactly when it is examined by the skip walk and Legal |
| PossibleProperties.PossibleFault | Moves.cs:89-152 | on a well-formed position the constructor faults exactly when an examined move is such an en-passant crash |
| PossibleProperties.GenericStopsAtPieces | Moves.cs:99-149 | a queen, rook, bishop or knight never faults, and keeps exactly the Legal moves whose path up to the landing square is empty: it never passes an occupied square |
| PossibleProperties.EnumerateKept | Moves.cs:247-258 | the enumerator yields exactly the kept moves in table order, as many as MoveCount |
| PossibleProperties.EnumerateMembers | Moves.cs:247-258 | a move is enumerated exactly when a kept table entry holds it |
| PossibleProperties.EndMaskOfEnumerated | Moves.cs:140-142 | EndPositionBitMask is exactly the set of landing squares of the enumerated moves |
| Opening.StartNewGame | GameControl.cs:25-54 | never throws; the board is the initial position, with White on rows 0-1, Black on rows 6-7 and the kings on E1 and E8; the lists are in placement order; White is to move; all rights are held; no en-passant square is set; the result is well formed |
| Game.MovePiece | GameControl.cs:137-151 | empties the capture square and the origin and puts the mover, or a new piece of the conversion kind in the mover's colour, on the landing square; a null mover, a missing conversion kind or an occupied landing square faults; turn and en-passant squares are kept; the rights are exactly those left after clearing the capture square's (only when a piece stood there, as the program removes only then) and then the origin's; well-formedness is kept |
| Game.MoveRook | GameControl.cs:153-163 | moves the rook from column 0 to 3 (W) or 7 to 5 (E) on the mover's back row, faulting exactly when the corner is empty or the target is occupied; the rights are exactly those left after clearing the corner's |
| Game.RecordEnPassant | GameControl.cs:131-134 | the mover's en-passant square becomes the landing square exactly for SetsEnPassant moves; the other colour's square, the board and the rights are untouched |
| Game.MakeMove | GameControl.cs:122-135 | succeeds exactly when the piece can be relocated and, for a castle, the rook can be moved; a non-castle leaves the board as the relocation left it; the mover's en-passant square becomes the landing square exactly for SetsEnPassant moves and the other colour's is kept; the turn is kept; the rights are exactly the relocation's, further cleared at the rook's corner for a castle; well-formedness is kept |
| Game.CaptureClearsRights | GameControl.cs:137-151 | a capture clears the rights tied to the captured piece's square, so taking the rook on H8 removes Black's east right |
| Game.CastleRelocates | GameControl.cs:122-163 | a castle from the king's home square with free landing and rook squares succeeds: the king lands on column 6 or 2 and the rook goes to column 5 or 3, and both of the colour's rights are gone |
| Game.KeptMovePlays | Moves.cs:99-151 | every kept move can be played: making it never faults, given the corner rook for a castle |
| Game.OpenCastleTargetFree | Moves.cs:99-149 | an examined castling move has an empty square for the rook: the king's step onto that square comes earlier in the same direction and would have closed it |
| Game.LegalMovePlays | GameControl.cs:122-163 | every Legal table move of a piece on a well-formed position can be played |
| Game.AllMovesFault | GameControl.cs:200-214 | collecting all moves faults exactly when some listed square cannot enumerate its moves |
| Game.AllMovesEmpty | GameControl.cs:200-214 | the collected list is empty exactly when every listed square has MoveCount 0 |
| Game.AllMovesMembers | GameControl.cs:200-214 | a move is collected exactly when the enumeration of some listed square yields it |
| Game.AnyMoves | GameControl.cs:86-93 | the early-exit scan answers true only when some listed square has a move, and false exactly when every listed square has none |
| Game.AnyMovesAgrees | GameControl.cs:86-93 | the early-exit scan of `gameOver` agrees with whether the full collection is non-empty |
| Game.GameOverIffNoMoves | GameControl.cs:84-104 | on a well-formed position the game is over exactly when the side to move has no move; it is then won by the opponent exactly when the opponent reaches the side to move's king, and never won by the side to move |
| Game.HandOver | GameControl.cs:71-73 | the turn passes to the opponent and the new side's en-passant square is cleared; the board, the rights and the other colour's square are kept |
| Game.TurnStep | GameControl.cs:65-77 | a turn plays the move, hands the turn over with the new side's en-passant square cleared, keeps the mover's square as the move recorded it, and reports the `gameOver` outcome of the new position |
| Game.EnPassantWindow | GameControl.cs:71-73 | a double step's en-passant square is available for the opponent's reply and gone after the mover's next turn |
| Search.Wrap32 | GameControl.cs:332-364 | C# `int` wrap-around: the result is in the 32-bit range and equals the input when that is already in range |
| Search.WrapAdd | GameControl.cs:338-361 | wrapping after every step equals wrapping once at the end |
| Search.EvaluateLeaf | GameControl.cs:330-366 | the two leaf loops compute the wrapped difference of the own and the opponent totals, counting one leaf, with a score in the `int` range |
| Search.LeafNoWrap | GameControl.cs:332-364 | with piece values below 2^20 each total stays within 64·(3v+8+v) and the wrap never changes the leaf score |
| Search.FoldFault | GameControl.cs:308-323 | the children's loop succeeds exactly when every child succeeds |
| Search.FoldExtreme | GameControl.cs:306-323 | the loop's result is the extremum in its sense: no child and not the start value is better, it is the start value or some child's score, and the leaf count is the sum |
| Search.ChildResultsAt | GameControl.cs:308-316 | entry i of the children's results is the result of playing move i on a copy and scoring it one level down |
| Search.FoldFromSentinel | GameControl.cs:306-328 | started from the sentinel, the children's loop succeeds exactly when every child does, and then holds the extremum of their scores (or the sentinel when there is none) and the sum of their leaves |
| Search.ScoreNode | GameControl.cs:301-329 | above depth 0 the node flips the turn and clears that side's en-passant square, succeeds exactly when its moves and all its children do, and returns the extremum of its children's scores (opposite sense); with no moves it returns int.MinValue or int.MaxValue and counts no leaves |
| Search.ScoreInRange | GameControl.cs:299-366 | every node's score lies in the 32-bit range |
| Search.Pairs | GameControl.cs:267-279 | the root's scoring succeeds exactly when every candidate does, pairing each move with its score in order |
| Search.Matching | GameControl.cs:285-288 | collects exactly the moves whose score is the given one |
| Search.CollectBest | GameControl.cs:280-289 | the corrected tie loop ends on the extremum of the start and all scores: nothing is better, and it is the start or some candidate's score |
| Search.CollectTies | GameControl.cs:280-289 | the corrected tie loop ends with the moves scoring its extremum: the start list when the extremum is the start, followed by the matching moves in order |
| Search.PairTies | GameControl.cs:265-289 | from the sentinel, the corrected tie loop over in-range scores collects exactly the moves no other move beats, and at least one when there is a candidate |
| Search.TieListAsWritten | GameControl.cs:263-289 | the loop as written faults exactly when the first candidate scores the sentinel; otherwise it equals the corrected loop |
| Search.TieListCrash | GameControl.cs:263-289 | one move scoring int.MaxValue under Lowest makes the loop as written fault, while the corrected loop returns it |
| Search.BestMove | GameControl.cs:260-297 | the chosen move is one of the root's tied best moves |
| Search.RootTiesAreBest | GameControl.cs:265-289 | a move is in the tie list exactly when it is a candidate whose score no candidate beats in the root's sense (Lowest iff depth is odd); candidate i's score is entry i of `RootResults`, the result of playing it and scoring it at the same depth |
| Search.BestMoveFault | GameControl.cs:260-297 | the corrected root faults exactly when the candidate list is empty or some candidate's scoring faults |
| Search.BestMoveIsBest | GameControl.cs:260-297 | the chosen move is a candidate and no candidate scores better in the root's sense |
| Search.StalledNode | GameControl.cs:299-328 | a minimising node at depth 2 whose side to move has no move keeps its sentinel int.MaxValue and counts no leaf |
| Search.SentinelFromStalledReply | GameControl.cs:299-328 | at depth 3, when the opponent has a reply to the first candidate after which the computer's side has no move, that candidate scores int.MaxValue, the sentinel of the minimising root |
| Search.StalledReplyFaults | GameControl.cs:260-297 | for such a first candidate, with every candidate scored, the root as written faults while the corrected root picks a move |
| Search.BestMoveAsWrittenFaults | GameControl.cs:260-297 | with candidates that all score, the corrected root succeeds; the root as written faults exactly when the first candidate scores the sentinel, and otherwise picks the same move |

## Left out

- Console interaction, with no logic beyond input validation: `selectPieceMoves`, the human branch of `selectLegalMove`, `outputGameOver`, and the writes and board renderings in `PlayGame` and `calculateBestMove`. DebugUtil.cs and Program.cs are not part of this model.
- `System.Random` in `calculateBestMove`: the index into the tie list is the parameter `choose`, taken modulo the list's length.
- Lazily built static move tables: the tables are pure functions, because building them once and caching them cannot be observed.
- `PieceValue`: its numbers are not shown, so the leaf evaluation takes them as a parameter (`Search.PieceValues`).
- `Chess.makePieceOfType` is not shown: a promotion builds a piece of the move's kind in the mover's colour, and a Conversion move without a kind faults with `NoConversionType`.
- The bit masks' widths: `MoveBitMask` (`UInt32`) shifts one bit per table move, and no table has more than 27 moves, so it is a sequence of booleans. The `UInt64` square masks are sets.
- Search.EvaluateLeaf: `candidateCount` is a `UInt64` that could wrap; the leaf count is an unbounded natural number.
- Search.ScoreNode: the program plays and scores each child before it looks at the next, while the model scores all children and then folds. The two agree on every successful search; when a child faults, only which fault is reported may differ.
- Search.BestMove: the root likewise scores all candidates before the tie loop. Only which fault is reported may differ.
- Control.ControlledPositions: a listed square that holds no piece makes the program dereference null; the model reports `NoPiece`. On a well-formed position this cannot happen (`Control.ControlTotal`).
- Possible.Enumerate: enumerating the object built for an empty origin dereferences a null table in the program; the model reports `NoPiece`.
- The running of a search: only the properties of the recursion are stated. The depth is the termination measure.

## Findings

| source | as written | input that shows it | evidently intended | confidence | as-written member | corrected member |
|---|---|---|---|---|---|---|
| GameControl.cs:263-289 | `bestMoves` stays null until a candidate scores strictly better than the sentinel, so a candidate that scores exactly the sentinel is added to a null list, which throws | the program's depth 3 (GameControl.cs:221), where the root minimises from int.MaxValue: the first candidate allows an opponent reply after which the computer's side has no move; that reply's node keeps int.MaxValue and the maximising node above it takes it, so the first candidate scores the sentinel (`Search.SentinelFromStalledReply`, `Search.StalledReplyFaults`) | the tie list starts empty, so a score equal to the sentinel joins it | not executed | Search.CollectAsWritten, Search.BestMoveAsWritten, Search.TieListCrash, Search.BestMoveAsWrittenFaults, Search.StalledReplyFaults | Search.Collect, Search.BestMove, Search.RootTiesAreBest, Search.BestMoveIsBest |
