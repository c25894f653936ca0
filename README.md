# coral chess engine core, in Dafny

This project models the rules core of the coral chess engine:

- **The board** (`chess_board.py`). An 8x8 grid of piece letters (`.` for
  empty, upper case white, lower case black) plus the game state:
  - the side to move;
  - four castling rights and two "has castled" flags;
  - the en-passant target;
  - a move history of records and a history of Zobrist hashes;
  - a running Zobrist hash.

  `make_move` and `unmake_move` update all of this in place, block by block.
- **Zobrist hashing** (`zobrist.py`). It uses a random table with:
  - one value per square and piece;
  - one value for "black to move";
  - one value per castling right;
  - one value per en-passant file.

  A position's hash is the XOR of the values of the features it has.
- **The rulebook** (`rulebook.py`):
  - square names;
  - attack detection (`fast_straight_probe`, `is_king_in_check`);
  - move generation for each piece (`valid_moves`, `straight_probe`), including castling probes that make a move and unmake it on the live board;
  - pruning of moves that leave the king in check;
  - the whole-board passes;
  - the draw rules (insufficient material, threefold repetition);
  - the terminal-state classification;
  - algebraic notation with disambiguation.
- **The opening finder** (`opening_finder.py`). It turns the grid into the piece-placement field of FEN and looks it up in a table of named openings.

### How the model is structured

**The board is a class.** `ChessBoard.Board` has the source's fields. Its methods have `modifies this`. A ghost field `line` records the positions the game passed through.

**Move semantics are pure functions.** Each block of `make_move` and `unmake_move` has a method that writes the same fields as the source. Next to it, a function on `Position` values gives the meaning of that block (`MoveSpec.EpStage`, `MoveStage`, …, `Apply`; `UndoEp`, …, `Undo`). A lemma in `MoveHash` shows that the block's XOR updates turn the from-scratch hash of the position before the block into the from-scratch hash of the position after it.

**`Valid()` is the board invariant.** It says that:
- the histories and `line` form a game from the start position: every step is a move `make_move` accepts, and every hash entry is the from-scratch hash of the position after it;
- the running hash is the hash of the current position.

**The rulebook's loops are methods.** Each is proved equal to a specification function: `Ray`, `KingScan`, `KnightScan`, `Lines`, `CastlingMoves`, `Prune`, `ValidMoveList`, `InCheck`, `San`, `Placement`, `MatchesFrom`. Lemmas state what these functions mean.

Methods that make and unmake moves on the live board promise `Kept(board)`: the board comes back exactly as it was, histories included.

**The square character type.** `char` stands for the source's one-character strings. `string` is `seq<char>`.

## Model

| member | source | states |
|---|---|---|
| ChessBoard.Board.constructor | chess_board.py:11-62 | A new board is Valid, holds the start position, has empty histories, and its running hash is the start position's from-scratch hash |
| ChessBoard.Board.Reset | chess_board.py:110-133 | After reset the board holds the standard start position with white to move, all rights, no castled flags and no en-passant target; both histories are empty and the running hash is the from-scratch hash |
| ChessBoard.Board.PlaceStartPieces | chess_board.py:115-122 | The eight rows become the standard start arrangement |
| ChessBoard.Board.ResetState | chess_board.py:125-132 | White to move, all four castling rights, neither side castled, no en-passant target |
| ChessBoard.Board.ValidInv | chess_board.py:4-9 | Every board state reached by reset and make_move has well-formed squares, a sound en-passant target, unmoved kings and rooks still home, and at most one king per colour |
| ChessBoard.Board.MakeMove | chess_board.py:135-335 | The position becomes Apply of the old one; the move's record is pushed on the move history; the new running hash, equal to the new position's from-scratch hash, is pushed on the hash history; Valid is kept |
| ChessBoard.Board.RecordFor | chess_board.py:141-169 | The record holds the squares, moved piece, captured piece (the pawn behind the target for en passant), en-passant flag, prior en-passant target, castled flags, rights and promotion square of the move |
| ChessBoard.Board.MakeEnPassantBlock | chess_board.py:171-202 | A pawn's double step next to an enemy pawn sets the target square it passed over; otherwise the target is cleared; the hash swaps the old file's value for the new one's |
| ChessBoard.Board.MakeMoveBlock | chess_board.py:204-214 | The moved piece lands on the destination and its start square empties; the hash drops the captured piece (not for en passant), adds the piece on its destination and drops it from its start |
| ChessBoard.Board.MakeEpCaptureBlock | chess_board.py:216-224 | An en-passant capture empties the square behind the destination and drops the captured pawn from the hash |
| ChessBoard.Board.MakePromotionBlock | chess_board.py:226-239 | A pawn on the far row becomes a queen of its colour, in the squares and the hash |
| ChessBoard.Board.MakeCastlingBlock | chess_board.py:241-277 | For each of the four castling shapes the rook moves to the square the king passed over and the castled flag is set; the hash moves the rook's value |
| ChessBoard.Board.RightsKept | chess_board.py:279-309 | Which rights survive: a king leaving its home square loses both, a rook leaving its corner or captured there loses that corner's |
| ChessBoard.Board.MakeRightsBlock | chess_board.py:279-327 | Each right is cleared exactly when the move loses it, and the hash toggles the value of each right that is cleared |
| ChessBoard.Board.PassTurnStep | chess_board.py:329-332 | The turn passes and the hash toggles the black-to-move value |
| ChessBoard.Board.MakeOnBoard | chess_board.py:171-332 | Running all blocks in order leaves the board at Apply of the old position with the running hash equal to its from-scratch hash |
| ChessBoard.Board.UnmakeMove | chess_board.py:337-479 | Both histories lose their last entry; the position becomes the one before the last move and the running hash is its from-scratch hash; Valid is kept |
| ChessBoard.Board.UnmakeEnPassantBlock | chess_board.py:368-377 | The recorded en-passant target is restored; the hash swaps the current file's value for the recorded one's |
| ChessBoard.Board.UnmakeRightsBlock | chess_board.py:379-399 | The recorded rights are restored and the hash toggles each right that changes |
| ChessBoard.Board.UnmakeCastlingBlock | chess_board.py:401-433 | For a castling record the rook goes back to its corner, in the squares and the hash |
| ChessBoard.Board.UnmakePromotionBlock | chess_board.py:435-454 | A recorded promotion turns the queen on the destination back into a pawn of the mover's colour |
| ChessBoard.Board.UnmakeEpCaptureBlock | chess_board.py:456-464 | An en-passant record puts the captured pawn back behind the destination |
| ChessBoard.Board.UnmakeSourceBlock | chess_board.py:466-473 | The piece on the destination goes back to its start square, in the squares and the hash |
| ChessBoard.Board.UnmakeCaptureBlock | chess_board.py:475-479 | A captured piece (not en passant) goes back on the destination |
| ChessBoard.Board.RestoreCastledStep | chess_board.py:356-366 | Restoring the recorded castled flags leaves the hash unchanged |
| ChessBoard.Board.UnmakeOnBoard | chess_board.py:351-479 | Running all undo blocks in order leaves the board at Undo of the position with the running hash equal to its from-scratch hash |
| MoveSpec.RoundTrip | chess_board.py:337-479 | For every move make_move accepts on a position with a sound en-passant target, undoing the record it pushes gives back exactly the position it started from |
| MoveSpec.ApplyAt | chess_board.py:204-277 | Square by square, after a move: the destination holds the moved piece (a queen if it promotes); the start square is empty; the pawn taken en passant is gone; a castling rook has moved; nothing else changed |
| MoveSpec.ApplyWf | chess_board.py:329-332 | A move passes the turn and keeps the position well formed |
| MoveSpec.RightsAfterMove | chess_board.py:279-327 | Rights are only ever cleared; king moves clear both of that side's rights, rook moves or captures on a corner clear that corner's right, and nothing else clears one |
| MoveSpec.CastledAfterMove | chess_board.py:241-277 | A castled flag is set by a castling move of that side and otherwise kept |
| MoveSpec.EnPassantAfterMove | chess_board.py:171-202 | After a move there is an en-passant target exactly when a pawn made its double step and an enemy pawn stands beside it; the target is the square passed over, on the pawn's file |
| MoveSpec.EnPassantFields | chess_board.py:171-202 | The en-passant target after a move is the one the first block set |
| MoveSpec.RecordUndoable | chess_board.py:435-454 | The record of an accepted move passes unmake_move's promotion checks |
| MoveSpec.InvStep | chess_board.py:135-335 | make_move keeps the game invariant: sound en-passant target, rooks and kings that the castling scan calls unmoved still home, at most one king per colour |
| MoveSpec.InvStart | chess_board.py:110-133 | The start position satisfies the game invariant |
| MoveSpec.RookHomeStep | chess_board.py:204-327 | A rook whose corner passes the castling history scan after a move was on that corner before it and is still there |
| MoveSpec.KingHomeStep | chess_board.py:204-327 | A king that never left its home square is still there after a move, unless that side has no king |
| MoveSpec.GameStart | chess_board.py:110-133 | The start position with empty histories is a game |
| MoveSpec.GameExtend | chess_board.py:135-335 | A move make_move accepts extends a game by its position, its record and the new position's hash |
| MoveSpec.GameTruncate | chess_board.py:337-479 | Dropping the last move of a game leaves a game, and the dropped record undoes exactly to the position before it |
| MoveHash.MakeFacts | chess_board.py:146-277 | What make_move's hash updates assume about the squares holds for every accepted move: the captured piece is on the destination, an en-passant victim is behind it, a castling rook is on its corner |
| MoveHash.EpStageHash | chess_board.py:171-202 | The en-passant block's XOR updates give the hash of the position after the block |
| MoveHash.MoveStageHash | chess_board.py:204-214 | The piece-moving block's XOR updates give the hash of the position after it |
| MoveHash.PromotionStageHash | chess_board.py:226-239 | The promotion block's XOR updates give the hash of the position after it |
| MoveHash.CastlingStageHash | chess_board.py:241-277 | The castling block's XOR updates give the hash of the position after it |
| MoveHash.RightsStageHash | chess_board.py:311-327 | The rights block's XOR toggles give the hash of the position after it |
| MoveHash.UndoFacts | chess_board.py:337-479 | Taking back the last move of a game finds what every undo block expects on the squares, undoes to the position before, and leaves a game |
| MoveHash.UndoEpHash | chess_board.py:368-377 | The en-passant restore's XOR updates give the hash of the restored position |
| MoveHash.UndoRightsHash | chess_board.py:379-399 | The rights restore's toggles give the hash of the restored position |
| MoveHash.UndoCastlingHash | chess_board.py:401-433 | Moving the rook back gives the hash of the restored position |
| MoveHash.UndoSourceHash | chess_board.py:466-473 | Moving the piece back gives the hash of the restored position |
| MoveHash.UndoCaptureHash | chess_board.py:475-479 | Putting the captured piece back gives the hash of the restored position |
| Zobrist.ComputeFullHash | zobrist.py:37-58 | The loop over side to move, 64 squares, four rights and en-passant file computes FullHash |
| Zobrist.PieceIndex | zobrist.py:12-14 | Each piece letter gets an index below 12 whose letter in "PNBRQKpnbrqk" is that piece |
| Zobrist.PieceIndexBijective | zobrist.py:12-14 | Piece letters and indices 0..11 are in one-to-one correspondence |
| Zobrist.FullHashFolds | zobrist.py:37-58 | The hash is the XOR of the 70 feature values |
| Zobrist.FullHashBound | zobrist.py:34-35 | With table values drawn from 0..2^64 every hash is below 2^65 |
| Zobrist.FullHashPut | zobrist.py:41-46 | Changing the content of one square changes the hash by XOR with the old and new piece values of that square |
| Zobrist.FullHashTurn | zobrist.py:39-40 | Flipping the side to move toggles the black-to-move value |
| Zobrist.FullHashWhiteKs | zobrist.py:47-48 | Flipping white's king-side right toggles its value |
| Zobrist.FullHashWhiteQs | zobrist.py:49-50 | Flipping white's queen-side right toggles its value |
| Zobrist.FullHashBlackKs | zobrist.py:51-52 | Flipping black's king-side right toggles its value |
| Zobrist.FullHashBlackQs | zobrist.py:53-54 | Flipping black's queen-side right toggles its value |
| Zobrist.FullHashEnPassant | zobrist.py:55-57 | Changing the en-passant target swaps the old file's value for the new one's; the target's row does not count |
| Zobrist.FullHashIgnores | zobrist.py:37-58 | The castled flags and the en-passant row do not enter the hash |
| Attacks.FastStraightProbe | rulebook.py:154-179 | The answer is RayAttack: walking out from the king, the enemy king on the first square, or an enemy rook/queen along a rank or file (bishop/queen along a diagonal) before any other piece, is an attack |
| Attacks.RayAttackIff | rulebook.py:154-179 | The probe reports an attack exactly when some square along the ray holds an attacker and every square before it is empty |
| Attacks.IsKingInCheck | rulebook.py:181-234 | The answer equals InCheck: false without such a king, otherwise a knight, pawn or line attack on the first king square in row-major order |
| Attacks.LocateKing | rulebook.py:184-195 | The king search returns the first square in row-major order holding that king, or (-1, -1) when there is none |
| Attacks.KingAttacked | rulebook.py:197-221 | The attack test after the search: knights, then pawns, then the eight lines |
| Attacks.LineAttacked | rulebook.py:218-221 | Some of the eight directions in the source's order is attacked |
| Attacks.KingSquareFirst | rulebook.py:185-195 | The king square found holds that king and no earlier square does; none is found exactly when the board has no such king |
| Attacks.InCheckIff | rulebook.py:197-221 | In check exactly when the king exists and a knight attacks it, a pawn attacks it, or a ray in one of the eight directions is hit |
| MoveGen.StraightProbe | rulebook.py:510-527 | The list equals Ray: empty squares along the direction as quiet moves, then the first enemy piece as a capture, stopping at an own piece or the edge |
| MoveRules.RayLands | rulebook.py:510-527 | Every ray move lands on the board, only the last may be a capture, quiet moves land on empty squares and captures on enemy pieces |
| MoveRules.RayPositions | rulebook.py:510-527 | The k-th move of a ray is k steps along its direction |
| MoveRules.RayStops | rulebook.py:510-527 | A ray that does not end in a capture ends before an own piece or the edge |
| MoveRules.LinesAppend | rulebook.py:483-503 | The lines of two direction lists joined are the lines of each, in order (the queen is rook lines then bishop lines) |
| MoveRules.LinesLand | rulebook.py:455-503 | Every slider move lands legally and never on its own square |
| MoveGen.RookMoves | rulebook.py:455-468 | The rook's list is its four rays up, down, left, right |
| MoveGen.BishopMoves | rulebook.py:469-482 | The bishop's list is its four diagonal rays in the source's order |
| MoveGen.TargetMove | rulebook.py:330-333 | A square is a quiet move when empty and a capture when it holds an enemy piece |
| MoveGen.KingSteps | rulebook.py:324-333 | The king's list is KingScan: the eight neighbours in row-major order that are empty or enemy |
| MoveRules.KingScanExact | rulebook.py:324-333 | A move is in the king's list exactly when it is one step away and lands legally |
| MoveGen.KnightMoves | rulebook.py:425-453 | The knight's list is KnightScan over the eight jumps in the source's order |
| MoveRules.KnightScanExact | rulebook.py:425-453 | A move is in the knight's list exactly when it is a knight's jump away and lands legally |
| MoveGen.CastlingScan | rulebook.py:338-343 | The history scan passes exactly when no recorded move started on the king's or rook's home square or ended on the rook's corner |
| MoveGen.SpacesClear | rulebook.py:345-348 | The squares between king and rook are all empty |
| MoveGen.TryMove | rulebook.py:244-247 | Making a move, testing the mover's king and unmaking it leaves the board as it was and answers InCheck of the position after the move |
| MoveGen.ProbePath | rulebook.py:352-372 | Both squares the king crosses are probed with make/unmake; the answer is that neither leaves it in check, and the board is unchanged |
| MoveGen.ProbeCastling | rulebook.py:334-422 | The castling moves offered equal CastlingMoves: short then long, each needing a clear history scan, empty squares, the king not in check and both probe squares safe; the board is unchanged |
| MoveRules.CastlingPiecesHome | rulebook.py:338-343 | In a reachable position a clear history scan means the king and the rook are on their home squares |
| MoveRules.CastlingAdmissible | rulebook.py:352-372 | Every castling move offered is one make_move accepts |
| MoveGen.PruneMovesToAvoidChecks | rulebook.py:236-248 | The pruned list is Prune: the moves, in order, after which the mover's king is not in check; the board is unchanged |
| MoveGen.TryPruned | rulebook.py:243-247 | One tried move reports check exactly when the move is not Legal; the board is unchanged |
| MoveRules.PruneExact | rulebook.py:236-248 | The pruned list is a subsequence of the input and holds exactly its legal moves |
| MoveGen.ValidMoves | rulebook.py:268-508 | The list equals ValidMoveList: the piece's pseudo-legal moves, castling only when checking for checks, pruned when checking for checks; the board is unchanged |
| MoveGen.PieceMoves | rulebook.py:268-504 | The unpruned list equals PseudoMoves: the moves of the piece by its letter, the castling moves added for a king only when checking for checks; the board is unchanged |
| MoveRules.PawnStepsExact | rulebook.py:274-308 | A move is among a pawn's pushes and diagonal captures exactly when it lands legally one row ahead (straight when quiet, on a neighbouring column when capturing) or, from the start row, two rows straight ahead over an empty square; en passant is separate |
| MoveRules.PawnAdmissible | rulebook.py:274-322 | Every pawn move generated is one make_move accepts |
| MoveRules.PseudoMovesAdmissible | rulebook.py:268-503 | In a reachable position every generated move of a piece of the side to move is one make_move accepts, so the pruning's make_move never stops the program |
| MoveRules.ValidMovesLegal | rulebook.py:236-248 | A checked move list is a subsequence of the pseudo-legal list and holds exactly the pseudo-legal moves that do not leave the mover in check |
| MoveGen.ComputeAllValidMoves | rulebook.py:259-266 | The map's keys are exactly the squares of pieces of the side to move, each mapped to its checked move list; the board is unchanged |
| MoveGen.AreThereAnyValidMoves | rulebook.py:250-257 | The answer is whether some piece of the side to move has a non-empty checked list; the board is unchanged |
| MoveGen.SquareMoves | rulebook.py:252-255 | The square counts exactly when it holds a piece of the side to move, and then the list is its checked move list; the board is unchanged |
| ChessTypes.InBounds | rulebook.py:121-122 | A square is on the board exactly when its row and its column both lie in 0..7; every move generator and attack probe tests a target square with it before reading it |
| Notation.LocToNotation | rulebook.py:1-2 | A square's name is a file letter and a rank digit 1..8, and reading it back gives the square |
| Notation.NotationToLoc | rulebook.py:4-7 | A name is read exactly when it starts with a file letter and a digit; the column is the letter's index and the row is 8 minus the digit |
| Notation.NameRoundTrip | rulebook.py:1-7 | Every two-character name of a square reads back to a square whose name is that text |
| Notation.AlgebraicNotation | rulebook.py:9-69 | The text equals San: castling as O-O or O-O-O, otherwise the pawn's file or the piece letter with disambiguation, x for a capture, the destination, =Q for a promotion |
| Notation.Disambiguate | rulebook.py:36-55 | The three flags say whether some rival of the same kind reaches the destination, one on the same file, one on the same rank |
| Notation.SanCastling | rulebook.py:27-30 | A king moving two columns is written O-O-O toward the queen side and O-O toward the king side |
| Notation.SanParts | rulebook.py:60-67 | The destination's name comes at the end (before =Q); =Q appears exactly for promotions; x appears exactly for captures, right before the destination |
| Notation.SanPawnCapture | rulebook.py:33-34 | A pawn capture starts with the pawn's file followed by x |
| Notation.DisambiguationSeparates | rulebook.py:56-62 | The disambiguation fits the moving piece's square and fits no rival's square |
| Terminal.PiecesCount | rulebook.py:125 | How often a piece letter occurs in the list equals the number of squares holding it |
| Terminal.PiecesHas | rulebook.py:125-128 | A letter is in the list exactly when some square holds it |
| Terminal.IsDrawByInsufficientMaterial | rulebook.py:124-136 | Works on the list of occupied squares' letters as the source does: no draw once a queen, rook or pawn of either colour is in the list, otherwise a draw exactly when each side has at most one bishop or knight counted in that list (read over squares in InsufficientMaterialIff) |
| Terminal.InsufficientMaterialIff | rulebook.py:124-136 | Draw by insufficient material exactly when no queen, rook or pawn is left and each side has at most one bishop or knight |
| Terminal.IsDrawByThreefoldRepetition | rulebook.py:138-152 | Draw exactly when at least three history entries at even distance from the last one equal the current hash |
| Terminal.MatchesGrow | rulebook.py:146-151 | The matches found from any point back are among all matches |
| Terminal.CurrentCounts | chess_board.py:334-335 | On a Valid board the last history entry is the current hash, so the current position always counts as one appearance |
| Terminal.OutcomeMeaning | rulebook.py:71-119 | The game is over exactly on insufficient material, repetition or no valid move; 0.1 and 0.2 name the two draws; otherwise the code is non-zero exactly in check, -1 when white is in check and 1 when black is |
| Terminal.CheckForTerminalStatesAndKingChecks | rulebook.py:71-119 | The answer equals Outcome of the insufficient-material test, the repetition test, InCheck for the side to move and the given valid-move flag |
| Openings.RowCodeExpands | opening_finder.py:26-37 | A rank's code read back, digits as runs of empty squares, gives the rank, and its width is 8 |
| Openings.RowCodeDigits | opening_finder.py:29-37 | A rank's code never has two digits in a row and contains no slash |
| Openings.PlacementSegments | opening_finder.py:24-39 | The placement text splits at its slashes into the eight rank codes |
| Openings.PlacementRoundTrip | opening_finder.py:24-39 | The placement has 7 slashes and 8 segments; each segment reads back to its rank, covers 8 squares and has no two digits in a row |
| Openings.PlacementInjective | opening_finder.py:24-39 | Different boards have different placement texts |
| Openings.OpeningFinder.constructor | opening_finder.py:4-6 | A new finder has no openings loaded and an empty table |
| Openings.OpeningFinder.FindOpening | opening_finder.py:23-40 | An opening is found exactly when the board's placement text is a key of the table, and the name returned is the table's entry |

## Left out

- The random draw of the Zobrist table (`random_value`, zobrist.py:34-35) is left out. The board takes the table as a constructor parameter. `DrawnValues` states the range the source draws from.
- `fatal_error` and its program exit are preconditions here:
  - `make_move` stops when the start square does not hold a piece of the side to move; this is part of `MovePre`;
  - `unmake_move` stops on an inconsistent promotion record; `Undoable` excludes that case, and `MoveSpec.RecordUndoable` shows that records make_move pushes always pass.
- ChessBoard.Board.UnmakeMove: requires a non-empty history. The source pops the hash history before it checks the move history, so on an empty history it fails with an index error rather than its own fatal error. Both are errors, and neither is modelled.
- ChessBoard.Board.MakeMove: requires `MovePre`, which adds to the source's own check the conditions make_move silently assumes of a legal move:
  - both squares are on the board, where Python would let a negative index wrap around to the far side and raise an error past index 7;
  - the two squares are distinct;
  - a pawn's double step goes straight ahead and crosses an empty square;
  - in a castling shape, the rook is on its corner and its landing square is empty, where the source's castling block would overwrite that square without taking its piece out of the hash.
  
  The move generator only ever produces such moves (`MoveRules.PseudoMovesAdmissible`).
- MoveGen.ValidMoves: when `check_for_checks` holds, requires the square to be empty or to hold a piece of the side to move. For any other piece the source's pruning calls make_move, which stops the program whenever that piece has a pseudo-legal move; a piece with none gets an empty list.
- Notation.LocToNotation: requires a square on the board. Python's negative indexing for out-of-range columns is not modelled.
- Notation.NotationToLoc: returns None where Python raises an exception. It accepts only the ASCII digits, where Python's `int` also accepts other Unicode digits.
- Notation.Rival keeps the source's tuple test as written. That test names the ordinary (non-en-passant) capture tuple twice and never the en-passant capture. Only pawns make en-passant captures and pawns never reach the ambiguity test, so no output depends on this.
- `load_opening_book_tsv` (opening_finder.py:8-21) is file I/O and is left out. The table of openings is the finder's `openings` field, a map from placement text to name.
- The message printed by `is_king_in_check` when there is no king is left out, and so are `__str__`, `print`, and `fatal_error`'s printing. Only the `False` answer for a missing king is kept.
- The concrete position counts in tests.py (20 moves from the start, one capture after e4 d5) are not stated. They are facts about particular positions and would need the move generator evaluated on them.
- The GUI, the evaluation bar, the search and the command-line driver are not part of this model.
- In the model the move-generation helpers take the grid `board.squares` as a value, while the source passes the board object. The grid is not changed by them, and the methods that make and unmake moves take the `Board` itself.
