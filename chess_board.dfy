/** The board: the grid and game state that make_move and unmake_move update
    in place, the two history stacks, and the running Zobrist hash. Every
    method keeps Valid(): the histories and a ghost list of the positions they
    passed through form a game from the start position, and the running hash
    is the from-scratch hash of the current position.

    make_move and unmake_move are written block by block, as the source is.
    Each block is a method that states the fields it writes and the running
    hash it leaves in terms of the fields it found; a Step method beside it
    connects that to the block's function on positions (MoveSpec) and to the
    hash of the position after the block (MoveHash). */
module ChessBoard {
  import opened ChessTypes
  import opened Zobrist
  import opened MoveSpec
  import opened MoveHash

  class Board {
    /** The table of random values; drawn once, never changed. */
    const hasher: Table

    var squares: seq<seq<char>>
    var moveHistory: seq<MoveRecord>
    var zobristHistory: seq<Hash>
    var whitesTurn: bool
    var whiteKs: bool
    var whiteQs: bool
    var blackKs: bool
    var blackQs: bool
    var whiteCastled: bool
    var blackCastled: bool
    var epRow: int
    var epCol: int
    var zobristHash: Hash

    /** The positions of the game so far, oldest first; the last is Pos(). */
    ghost var line: seq<Position>

    /** The part of the state a move changes, as a value. */
    function Pos(): Position
      reads this`squares, this`whitesTurn, this`whiteKs, this`whiteQs, this`blackKs, this`blackQs,
            this`whiteCastled, this`blackCastled, this`epRow, this`epCol
    {
      Position(squares, whitesTurn, whiteKs, whiteQs, blackKs, blackQs,
               whiteCastled, blackCastled, epRow, epCol)
    }

    ghost predicate Valid()
      reads this
    {
      var valid :=
        Game(hasher, line, moveHistory, zobristHistory) &&
        line[|line| - 1] == Pos() && zobristHash == FullHash(hasher, Pos());
      valid
    }

    /** The board holds position s, and the running hash is its hash. */
    ghost predicate At(s: Position)
      reads this`squares, this`whitesTurn, this`whiteKs, this`whiteQs, this`blackKs, this`blackQs,
            this`whiteCastled, this`blackCastled, this`epRow, this`epCol, this`zobristHash
    {
      var holds := WfTable(hasher) && Hashable(s) && Pos() == s && zobristHash == FullHash(hasher, s);
      holds
    }

    /** The invariant of the positions a game reaches holds now. */
    lemma ValidInv()
      requires Valid()
      ensures Inv(Pos(), moveHistory) && WfPosition(Pos())
    {
      GameInv(hasher, line, moveHistory, zobristHistory);
    }

    /** A new board holds the start position (the constructor ends by calling
        reset). */
    constructor (table: Table)
      requires WfTable(table)
      ensures Valid() && hasher == table
      ensures Pos() == StartPosition && moveHistory == [] && zobristHistory == []
      ensures zobristHash == FullHash(hasher, StartPosition)
    {
      hasher := table;
      squares := seq(8, _ => "........");
      moveHistory := [];
      zobristHistory := [];
      whitesTurn := true;
      whiteKs, whiteQs, blackKs, blackQs := true, true, true, true;
      whiteCastled, blackCastled := false, false;
      epRow, epCol := -1, -1;
      zobristHash := 0;
      line := [];
      new;
      Reset();
    }

    /** The standard start position, empty histories, and the hash computed
        from scratch. */
    method Reset()
      requires WfTable(hasher) && |squares| == 8
      modifies this
      ensures Valid()
      ensures Pos() == StartPosition && moveHistory == [] && zobristHistory == [] && line == [StartPosition]
      ensures zobristHash == FullHash(hasher, StartPosition)
    {
      PlaceStartPieces();
      moveHistory := [];
      zobristHistory := [];
      ResetState();
      var start := Pos();
      assert start == StartPosition;
      StartPositionWf();
      GameStart(hasher);
      zobristHash := ComputeFullHash(hasher, start);
      line := [start];
    }

    /** The second block of reset: white to move, all four castling rights,
        nobody castled, no en-passant target. */
    method ResetState()
      modifies this`whitesTurn, this`whiteKs, this`whiteQs, this`whiteCastled,
               this`blackKs, this`blackQs, this`blackCastled, this`epRow, this`epCol
      ensures whitesTurn && whiteKs && whiteQs && !whiteCastled
      ensures blackKs && blackQs && !blackCastled && epRow == -1 && epCol == -1
    {
      whitesTurn := true;
      whiteKs := true;
      whiteQs := true;
      whiteCastled := false;
      blackKs := true;
      blackQs := true;
      blackCastled := false;
      epRow, epCol := -1, -1;
    }

    /** The first block of reset: the eight rows of the start position. */
    method PlaceStartPieces()
      requires |squares| == 8
      modifies this`squares
      ensures squares == StartSquares
    {
      squares := squares[0 := "rnbqkbnr"];
      squares := squares[1 := "pppppppp"];
      squares := squares[2 := "........"];
      squares := squares[3 := "........"];
      squares := squares[4 := "........"];
      squares := squares[5 := "........"];
      squares := squares[6 := "PPPPPPPP"];
      squares := squares[7 := "RNBQKBNR"];
      assert squares == StartSquares;
    }

    // -------------------------------------------------------------------------
    // The blocks of make_move.

    /** A pawn's double step next to an enemy pawn grants the opponent the
        square passed over; otherwise the target is cleared. The old target's
        file leaves the hash either way. */
    method MakeEnPassantBlock(sr: int, er: int, ec: int, piece: char)
      requires WfTable(hasher) && WfGrid(squares) && 0 <= ec < 8 && -1 <= epCol < 8
      modifies this`epRow, this`epCol, this`zobristHash
      ensures var h := old(zobristHash);
        var off := if old(epCol) != -1 then Xor(h, hasher.enPassant[old(epCol)]) else h;
        if GrantsOn(squares, whitesTurn, piece, sr, er, ec)
        then epRow == (if whitesTurn then 5 else 2) && epCol == ec && zobristHash == Xor(off, hasher.enPassant[ec])
        else epRow == -1 && epCol == -1 && zobristHash == off
    {
      var give := false;
      if whitesTurn && piece == 'P' {
        if sr == 6 && er == 4 {
          if (ec > 0 && squares[4][ec - 1] == 'p') || (ec < 7 && squares[4][ec + 1] == 'p') {
            give := true;
            if epCol != -1 {
              zobristHash := Xor(zobristHash, hasher.enPassant[epCol]);
            }
            zobristHash := Xor(zobristHash, hasher.enPassant[ec]);
            epRow, epCol := 5, ec;
          }
        }
      } else if !whitesTurn && piece == 'p' {
        if sr == 1 && er == 3 {
          if (ec > 0 && squares[3][ec - 1] == 'P') || (ec < 7 && squares[3][ec + 1] == 'P') {
            give := true;
            if epCol != -1 {
              zobristHash := Xor(zobristHash, hasher.enPassant[epCol]);
            }
            zobristHash := Xor(zobristHash, hasher.enPassant[ec]);
            epRow, epCol := 2, ec;
          }
        }
      }
      if !give {
        if epCol != -1 {
          zobristHash := Xor(zobristHash, hasher.enPassant[epCol]);
        }
        epRow, epCol := -1, -1;
      }
    }

    /** The en-passant block takes the position to EpStage, and the running
        hash to that position's hash. */
    method EnPassantStep(ghost s: Position, sr: int, sc: int, er: int, ec: int, piece: char)
      requires At(s) && InBounds(sr, sc) && InBounds(er, ec) && piece == s.squares[sr][sc]
      modifies this`epRow, this`epCol, this`zobristHash
      ensures At(EpStage(s, sr, sc, er, ec))
    {
      EpStageHash(hasher, s, sr, sc, er, ec);
      MakeEnPassantBlock(sr, er, ec, piece);
    }

    /** The piece goes to the destination and leaves its start square; a piece
        captured there (not en passant) leaves the hash first. */
    method MakeMoveBlock(sr: int, sc: int, er: int, ec: int, piece: char, captured: char, isEp: bool)
      requires WfTable(hasher) && WfGrid(squares) && InBounds(sr, sc) && InBounds(er, ec)
      requires IsPiece(piece) && IsSquareChar(captured)
      modifies this`squares, this`zobristHash
      ensures squares == Put(Put(old(squares), er, ec, old(squares)[sr][sc]), sr, sc, '.')
      ensures var h := old(zobristHash);
        var h1 := if captured != '.' && !isEp then Xor(h, Feature(hasher, 8 * er + ec, captured)) else h;
        zobristHash == Xor(Xor(h1, Feature(hasher, 8 * er + ec, piece)), Feature(hasher, 8 * sr + sc, piece))
    {
      squares := Put(squares, er, ec, squares[sr][sc]);
      squares := Put(squares, sr, sc, '.');
      if captured != '.' && !isEp {
        zobristHash := Xor(zobristHash, hasher.piece[8 * er + ec][PieceIndex(captured)]);
      }
      zobristHash := Xor(zobristHash, hasher.piece[8 * er + ec][PieceIndex(piece)]);
      zobristHash := Xor(zobristHash, hasher.piece[8 * sr + sc][PieceIndex(piece)]);
    }

    method MoveStep(ghost s: Position, sr: int, sc: int, er: int, ec: int, piece: char, captured: char, isEp: bool)
      requires At(s) && InBounds(sr, sc) && InBounds(er, ec) && (sr != er || sc != ec)
      requires piece == s.squares[sr][sc] && IsPiece(piece)
      requires IsSquareChar(captured) && s.squares[er][ec] == if captured != '.' && !isEp then captured else '.'
      modifies this`squares, this`zobristHash
      ensures At(MoveStage(s, sr, sc, er, ec))
    {
      MoveStageHash(hasher, s, sr, sc, er, ec, captured, isEp);
      MakeMoveBlock(sr, sc, er, ec, piece, captured, isEp);
    }

    /** An en-passant capture empties the taken pawn's square, behind the
        destination as seen by the mover. */
    method MakeEpCaptureBlock(er: int, ec: int, captured: char, isEp: bool)
      requires WfTable(hasher) && WfGrid(squares)
      requires isEp ==> InBounds(Behind(whitesTurn, er), ec) && IsPiece(captured)
      modifies this`squares, this`zobristHash
      ensures squares == if isEp then Put(old(squares), Behind(whitesTurn, er), ec, '.') else old(squares)
      ensures zobristHash ==
        if isEp then Xor(old(zobristHash), Feature(hasher, 8 * Behind(whitesTurn, er) + ec, captured))
        else old(zobristHash)
    {
      if isEp && whitesTurn {
        squares := Put(squares, er + 1, ec, '.');
        zobristHash := Xor(zobristHash, hasher.piece[(er + 1) * 8 + ec][PieceIndex(captured)]);
      } else if isEp && !whitesTurn {
        squares := Put(squares, er - 1, ec, '.');
        zobristHash := Xor(zobristHash, hasher.piece[(er - 1) * 8 + ec][PieceIndex(captured)]);
      }
    }

    method EpCaptureStep(ghost s: Position, er: int, ec: int, captured: char, isEp: bool)
      requires At(s) && IsSquareChar(captured)
      requires isEp ==> InBounds(Behind(s.whitesTurn, er), ec) && IsPiece(captured) &&
                        s.squares[Behind(s.whitesTurn, er)][ec] == captured
      modifies this`squares, this`zobristHash
      ensures At(EpCaptureStage(s, er, ec, isEp))
    {
      EpCaptureStageHash(hasher, s, er, ec, isEp, captured);
      MakeEpCaptureBlock(er, ec, captured, isEp);
    }

    /** A pawn of the side to move on its far row becomes a queen. */
    method MakePromotionBlock(er: int, ec: int)
      requires WfTable(hasher) && WfGrid(squares) && InBounds(er, ec)
      modifies this`squares, this`zobristHash
      ensures var h := old(zobristHash); var sq := 8 * er + ec;
        if whitesTurn && er == 0 && old(squares)[er][ec] == 'P' then
          squares == Put(old(squares), er, ec, 'Q') &&
          zobristHash == Xor(Xor(h, Feature(hasher, sq, 'P')), Feature(hasher, sq, 'Q'))
        else if !whitesTurn && er == 7 && old(squares)[er][ec] == 'p' then
          squares == Put(old(squares), er, ec, 'q') &&
          zobristHash == Xor(Xor(h, Feature(hasher, sq, 'p')), Feature(hasher, sq, 'q'))
        else squares == old(squares) && zobristHash == h
    {
      if whitesTurn && er == 0 && squares[er][ec] == 'P' {
        squares := Put(squares, er, ec, 'Q');
        zobristHash := Xor(zobristHash, hasher.piece[er * 8 + ec][PieceIndex('P')]);
        zobristHash := Xor(zobristHash, hasher.piece[er * 8 + ec][PieceIndex('Q')]);
      } else if !whitesTurn && er == 7 && squares[er][ec] == 'p' {
        squares := Put(squares, er, ec, 'q');
        zobristHash := Xor(zobristHash, hasher.piece[er * 8 + ec][PieceIndex('p')]);
        zobristHash := Xor(zobristHash, hasher.piece[er * 8 + ec][PieceIndex('q')]);
      }
    }

    method PromotionStep(ghost s: Position, er: int, ec: int)
      requires At(s) && InBounds(er, ec)
      modifies this`squares, this`zobristHash
      ensures At(PromotionStage(s, er, ec))
    {
      PromotionStageHash(hasher, s, er, ec);
      MakePromotionBlock(er, ec);
    }

    /** A king's two-file move from its home square also moves the rook beside
        it and marks that side as castled. */
    method MakeCastlingBlock(piece: char, sr: int, sc: int, er: int, ec: int)
      requires WfTable(hasher) && WfGrid(squares)
      modifies this`squares, this`zobristHash, this`whiteCastled, this`blackCastled
      ensures var k := CastlingOf(piece, sr, sc, er, ec); var h := old(zobristHash);
        if k.Castling? then
          squares == Put(Put(old(squares), k.row, k.rookTo, old(squares)[k.row][k.rookFrom]), k.row, k.rookFrom, '.') &&
          zobristHash == Xor(Xor(h, Feature(hasher, 8 * k.row + k.rookTo, k.rook)), Feature(hasher, 8 * k.row + k.rookFrom, k.rook)) &&
          whiteCastled == (k.row == 7 || old(whiteCastled)) && blackCastled == (k.row == 0 || old(blackCastled))
        else
          squares == old(squares) && zobristHash == h &&
          whiteCastled == old(whiteCastled) && blackCastled == old(blackCastled)
    {
      if piece == 'K' && sr == 7 && sc == 4 && er == 7 && ec == 6 {
        squares := Put(squares, 7, 5, squares[7][7]);
        squares := Put(squares, 7, 7, '.');
        zobristHash := Xor(zobristHash, hasher.piece[61][PieceIndex('R')]);
        zobristHash := Xor(zobristHash, hasher.piece[63][PieceIndex('R')]);
        whiteCastled := true;
      } else if piece == 'K' && sr == 7 && sc == 4 && er == 7 && ec == 2 {
        squares := Put(squares, 7, 3, squares[7][0]);
        squares := Put(squares, 7, 0, '.');
        zobristHash := Xor(zobristHash, hasher.piece[59][PieceIndex('R')]);
        zobristHash := Xor(zobristHash, hasher.piece[56][PieceIndex('R')]);
        whiteCastled := true;
      } else if piece == 'k' && sr == 0 && sc == 4 && er == 0 && ec == 6 {
        squares := Put(squares, 0, 5, squares[0][7]);
        squares := Put(squares, 0, 7, '.');
        zobristHash := Xor(zobristHash, hasher.piece[5][PieceIndex('r')]);
        zobristHash := Xor(zobristHash, hasher.piece[7][PieceIndex('r')]);
        blackCastled := true;
      } else if piece == 'k' && sr == 0 && sc == 4 && er == 0 && ec == 2 {
        squares := Put(squares, 0, 3, squares[0][0]);
        squares := Put(squares, 0, 0, '.');
        zobristHash := Xor(zobristHash, hasher.piece[3][PieceIndex('r')]);
        zobristHash := Xor(zobristHash, hasher.piece[0][PieceIndex('r')]);
        blackCastled := true;
      }
    }

    method CastlingStep(ghost s: Position, piece: char, sr: int, sc: int, er: int, ec: int)
      requires At(s)
      requires var k := CastlingOf(piece, sr, sc, er, ec);
        k.Castling? ==> s.squares[k.row][k.rookFrom] == k.rook && s.squares[k.row][k.rookTo] == '.'
      modifies this`squares, this`zobristHash, this`whiteCastled, this`blackCastled
      ensures At(CastlingStage(s, piece, sr, sc, er, ec))
    {
      CastlingStageHash(hasher, s, piece, sr, sc, er, ec);
      MakeCastlingBlock(piece, sr, sc, er, ec);
    }

    /** Which castling rights survive the move, computed as the source does:
        all start true and each rule clears one or two of them. */
    method RightsKept(piece: char, captured: char, sr: int, sc: int, er: int, ec: int)
      returns (wqs: bool, wks: bool, bqs: bool, bks: bool)
      ensures wqs == KeepsWhiteQs(whitesTurn, piece, captured, sr, sc, er, ec)
      ensures wks == KeepsWhiteKs(whitesTurn, piece, captured, sr, sc, er, ec)
      ensures bqs == KeepsBlackQs(whitesTurn, piece, captured, sr, sc, er, ec)
      ensures bks == KeepsBlackKs(whitesTurn, piece, captured, sr, sc, er, ec)
    {
      wqs, wks, bqs, bks := true, true, true, true;
      if whitesTurn && piece == 'K' && sr == 7 && sc == 4 {
        wqs, wks := false, false;
      }
      if !whitesTurn && piece == 'k' && sr == 0 && sc == 4 {
        bqs, bks := false, false;
      }
      if whitesTurn && piece == 'R' && sr == 7 && sc == 0 {
        wqs := false;
      }
      if whitesTurn && piece == 'R' && sr == 7 && sc == 7 {
        wks := false;
      }
      if !whitesTurn && piece == 'r' && sr == 0 && sc == 0 {
        bqs := false;
      }
      if !whitesTurn && piece == 'r' && sr == 0 && sc == 7 {
        bks := false;
      }
      if whitesTurn && captured == 'r' && er == 0 && ec == 0 {
        bqs := false;
      }
      if whitesTurn && captured == 'r' && er == 0 && ec == 7 {
        bks := false;
      }
      if !whitesTurn && captured == 'R' && er == 7 && ec == 0 {
        wqs := false;
      }
      if !whitesTurn && captured == 'R' && er == 7 && ec == 7 {
        wks := false;
      }
    }

    /** Each right that is lost is cleared and toggled in the hash, in the
        order white queen side, white king side, black queen side, black king
        side; no right is ever granted. */
    method MakeRightsBlock(piece: char, captured: char, sr: int, sc: int, er: int, ec: int)
      requires WfTable(hasher)
      modifies this`whiteKs, this`whiteQs, this`blackKs, this`blackQs, this`zobristHash
      ensures whiteQs == (old(whiteQs) && KeepsWhiteQs(whitesTurn, piece, captured, sr, sc, er, ec))
      ensures whiteKs == (old(whiteKs) && KeepsWhiteKs(whitesTurn, piece, captured, sr, sc, er, ec))
      ensures blackQs == (old(blackQs) && KeepsBlackQs(whitesTurn, piece, captured, sr, sc, er, ec))
      ensures blackKs == (old(blackKs) && KeepsBlackKs(whitesTurn, piece, captured, sr, sc, er, ec))
      ensures var w := whitesTurn;
        var h1 := XorIf(old(whiteQs) && !KeepsWhiteQs(w, piece, captured, sr, sc, er, ec), old(zobristHash), hasher.whiteQs);
        var h2 := XorIf(old(whiteKs) && !KeepsWhiteKs(w, piece, captured, sr, sc, er, ec), h1, hasher.whiteKs);
        var h3 := XorIf(old(blackQs) && !KeepsBlackQs(w, piece, captured, sr, sc, er, ec), h2, hasher.blackQs);
        zobristHash == XorIf(old(blackKs) && !KeepsBlackKs(w, piece, captured, sr, sc, er, ec), h3, hasher.blackKs)
    {
      var wqs, wks, bqs, bks := RightsKept(piece, captured, sr, sc, er, ec);
      if whiteQs && !wqs {
        whiteQs := false;
        zobristHash := Xor(zobristHash, hasher.whiteQs);
      }
      if whiteKs && !wks {
        whiteKs := false;
        zobristHash := Xor(zobristHash, hasher.whiteKs);
      }
      if blackQs && !bqs {
        blackQs := false;
        zobristHash := Xor(zobristHash, hasher.blackQs);
      }
      if blackKs && !bks {
        blackKs := false;
        zobristHash := Xor(zobristHash, hasher.blackKs);
      }
    }

    method RightsStep(ghost s: Position, piece: char, captured: char, sr: int, sc: int, er: int, ec: int)
      requires At(s)
      modifies this`whiteKs, this`whiteQs, this`blackKs, this`blackQs, this`zobristHash
      ensures At(RightsStage(s, piece, captured, sr, sc, er, ec))
    {
      RightsStageHash(hasher, s, piece, captured, sr, sc, er, ec);
      MakeRightsBlock(piece, captured, sr, sc, er, ec);
    }

    /** The side to move changes, and the side-to-move value enters or leaves
        the hash. */
    method PassTurnStep(ghost s: Position)
      requires At(s)
      modifies this`whitesTurn, this`zobristHash
      ensures At(s.(whitesTurn := !s.whitesTurn))
    {
      FullHashTurn(hasher, s);
      whitesTurn := !whitesTurn;
      zobristHash := Xor(zobristHash, hasher.blacksTurn);
    }

    /** The first blocks of make_move, in order: the en-passant target, the
        move itself, the en-passant capture. */
    method MakeOpeningSteps(ghost p: Position, sr: int, sc: int, er: int, ec: int, piece: char, captured: char, isEp: bool)
      requires At(p) && MovePre(p, sr, sc, er, ec) && EpTargetSound(p)
      requires piece == p.squares[sr][sc] && captured == Captured(p, sr, sc, er, ec) && isEp == IsEnPassant(p, sr, sc, er, ec)
      modifies this`squares, this`zobristHash, this`epRow, this`epCol
      ensures At(AfterEpCapture(p, sr, sc, er, ec))
    {
      MakeFacts(p, sr, sc, er, ec);
      EnPassantStep(p, sr, sc, er, ec, piece);
      ghost var s1 := EpStage(p, sr, sc, er, ec);
      MoveStep(s1, sr, sc, er, ec, piece, captured, isEp);
      EpCaptureStep(MoveStage(s1, sr, sc, er, ec), er, ec, captured, isEp);
    }

    /** The remaining blocks of make_move, in order: promotion, castling, the
        castling rights, and the turn change. */
    method MakeClosingSteps(ghost p: Position, sr: int, sc: int, er: int, ec: int, piece: char, captured: char)
      requires MovePre(p, sr, sc, er, ec) && EpTargetSound(p) && At(AfterEpCapture(p, sr, sc, er, ec))
      requires piece == p.squares[sr][sc] && captured == Captured(p, sr, sc, er, ec)
      modifies this`squares, this`whitesTurn, this`zobristHash, this`whiteCastled, this`blackCastled,
               this`whiteKs, this`whiteQs, this`blackKs, this`blackQs
      ensures At(Apply(p, sr, sc, er, ec))
    {
      MakeFacts(p, sr, sc, er, ec);
      ghost var s3 := AfterEpCapture(p, sr, sc, er, ec);
      PromotionStep(s3, er, ec);
      ghost var s4 := PromotionStage(s3, er, ec);
      CastlingStep(s4, piece, sr, sc, er, ec);
      ghost var s5 := CastlingStage(s4, piece, sr, sc, er, ec);
      RightsStep(s5, piece, captured, sr, sc, er, ec);
      PassTurnStep(RightsStage(s5, piece, captured, sr, sc, er, ec));
    }

    /** The history entry, computed as make_move does before it changes
        anything: the en-passant test, the piece taken, the promotion square. */
    method RecordFor(sr: int, sc: int, er: int, ec: int) returns (rec: MoveRecord)
      requires MovePre(Pos(), sr, sc, er, ec)
      ensures rec == Record(Pos(), sr, sc, er, ec)
    {
      var piece := squares[sr][sc];
      var isEnPassant := Upper(piece) == 'P' && er == epRow && ec == epCol;
      if isEnPassant {
        EnPassantRows(Pos(), sr, sc, er, ec);
      }
      var captured: char;
      if isEnPassant && whitesTurn {
        captured := squares[er + 1][ec];
      } else if isEnPassant && !whitesTurn {
        captured := squares[er - 1][ec];
      } else {
        captured := squares[er][ec];
      }
      var promoRow, promoCol := -1, -1;
      if (whitesTurn && er == 0 && squares[sr][sc] == 'P') || (!whitesTurn && er == 7 && squares[sr][sc] == 'p') {
        promoRow, promoCol := er, ec;
      }
      rec := MoveRecord(sr, sc, er, ec, piece, captured, isEnPassant, epRow, epCol, whiteCastled, blackCastled,
                        whiteKs, whiteQs, blackKs, blackQs, promoRow, promoCol);
    }

    /** Every block of make_move after the record is taken, in order. */
    method MakeOnBoard(ghost p: Position, sr: int, sc: int, er: int, ec: int, rec: MoveRecord)
      requires At(p) && MovePre(p, sr, sc, er, ec) && EpTargetSound(p) && rec == Record(p, sr, sc, er, ec)
      modifies this`squares, this`whitesTurn, this`zobristHash, this`epRow, this`epCol, this`whiteCastled,
               this`blackCastled, this`whiteKs, this`whiteQs, this`blackKs, this`blackQs
      ensures At(Apply(p, sr, sc, er, ec))
    {
      MakeOpeningSteps(p, sr, sc, er, ec, rec.piece, rec.captured, rec.isEnPassant);
      MakeClosingSteps(p, sr, sc, er, ec, rec.piece, rec.captured);
    }

    /** The ghost line of positions is set to one that, with the histories
        and the running hash, makes the board valid again. */
    method SetLine(ghost newLine: seq<Position>)
      requires Game(hasher, newLine, moveHistory, zobristHistory)
      requires newLine[|newLine| - 1] == Pos() && zobristHash == FullHash(hasher, Pos())
      modifies this`line
      ensures Valid() && line == newLine
      ensures moveHistory == old(moveHistory) && zobristHistory == old(zobristHistory) && Pos() == old(Pos())
    {
      line := newLine;
    }

    /** make_move: the position becomes Apply of the old one, its record is
        pushed on the move history and its hash on the hash history, and the
        running hash is the new position's hash. The source stops the program
        when the start square does not hold a piece of the side to move; that
        is part of MovePre here. */
    method MakeMove(sr: int, sc: int, er: int, ec: int)
      requires Valid() && MovePre(Pos(), sr, sc, er, ec)
      modifies this
      ensures Valid()
      ensures Pos() == Apply(old(Pos()), sr, sc, er, ec)
      ensures moveHistory == old(moveHistory) + [Record(old(Pos()), sr, sc, er, ec)]
      ensures zobristHistory == old(zobristHistory) + [zobristHash]
      ensures line == old(line) + [Pos()]
    {
      ghost var p, L := Pos(), line;
      ValidInv();
      GameExtend(hasher, line, moveHistory, zobristHistory, sr, sc, er, ec);
      var rec := RecordFor(sr, sc, er, ec);
      moveHistory := moveHistory + [rec];
      MakeOnBoard(p, sr, sc, er, ec, rec);
      zobristHistory := zobristHistory + [zobristHash];
      SetLine(L + [Pos()]);
    }

    // -------------------------------------------------------------------------
    // The blocks of unmake_move.

    /** The recorded en-passant target is restored when it differs from the
        current one: the current file leaves the hash and the recorded one
        enters it. */
    method UnmakeEnPassantBlock(rec: MoveRecord)
      requires WfTable(hasher) && -1 <= epCol < 8 && -1 <= rec.priorEpCol < 8
      modifies this`epRow, this`epCol, this`zobristHash
      ensures epRow == rec.priorEpRow && epCol == rec.priorEpCol
      ensures var h := old(zobristHash);
        var h1 := if old(epCol) != -1 then Xor(h, hasher.enPassant[old(epCol)]) else h;
        zobristHash ==
          if rec.priorEpRow != old(epRow) || rec.priorEpCol != old(epCol) then
            (if rec.priorEpCol != -1 then Xor(h1, hasher.enPassant[rec.priorEpCol]) else h1)
          else h
    {
      if rec.priorEpRow != epRow || rec.priorEpCol != epCol {
        if epCol != -1 {
          zobristHash := Xor(zobristHash, hasher.enPassant[epCol]);
        }
        if rec.priorEpCol != -1 {
          zobristHash := Xor(zobristHash, hasher.enPassant[rec.priorEpCol]);
        }
        epRow, epCol := rec.priorEpRow, rec.priorEpCol;
      }
    }

    method UnmakeEnPassantStep(ghost s: Position, rec: MoveRecord)
      requires At(s) && -1 <= rec.priorEpCol < 8
      modifies this`epRow, this`epCol, this`zobristHash
      ensures At(UndoEp(s, rec))
    {
      UndoEpHash(hasher, s, rec);
      UnmakeEnPassantBlock(rec);
    }

    /** Each castling right that differs from the recorded one is restored and
        toggled: white king side, white queen side, black king side, black
        queen side. */
    method UnmakeRightsBlock(rec: MoveRecord)
      requires WfTable(hasher)
      modifies this`whiteKs, this`whiteQs, this`blackKs, this`blackQs, this`zobristHash
      ensures whiteKs == rec.priorWhiteKs && whiteQs == rec.priorWhiteQs
      ensures blackKs == rec.priorBlackKs && blackQs == rec.priorBlackQs
      ensures var h1 := XorIf(rec.priorWhiteKs != old(whiteKs), old(zobristHash), hasher.whiteKs);
        var h2 := XorIf(rec.priorWhiteQs != old(whiteQs), h1, hasher.whiteQs);
        var h3 := XorIf(rec.priorBlackKs != old(blackKs), h2, hasher.blackKs);
        zobristHash == XorIf(rec.priorBlackQs != old(blackQs), h3, hasher.blackQs)
    {
      if rec.priorWhiteKs != whiteKs {
        whiteKs := rec.priorWhiteKs;
        zobristHash := Xor(zobristHash, hasher.whiteKs);
      }
      if rec.priorWhiteQs != whiteQs {
        whiteQs := rec.priorWhiteQs;
        zobristHash := Xor(zobristHash, hasher.whiteQs);
      }
      if rec.priorBlackKs != blackKs {
        blackKs := rec.priorBlackKs;
        zobristHash := Xor(zobristHash, hasher.blackKs);
      }
      if rec.priorBlackQs != blackQs {
        blackQs := rec.priorBlackQs;
        zobristHash := Xor(zobristHash, hasher.blackQs);
      }
    }

    method UnmakeRightsStep(ghost s: Position, rec: MoveRecord)
      requires At(s)
      modifies this`whiteKs, this`whiteQs, this`blackKs, this`blackQs, this`zobristHash
      ensures At(UndoRights(s, rec))
    {
      UndoRightsHash(hasher, s, rec);
      UnmakeRightsBlock(rec);
    }

    /** A castling move's rook goes back from beside the king to its corner. */
    method UnmakeCastlingBlock(rec: MoveRecord)
      requires WfTable(hasher) && WfGrid(squares)
      modifies this`squares, this`zobristHash
      ensures var k := CastlingOf(rec.piece, rec.startRow, rec.startCol, rec.endRow, rec.endCol);
        var h := old(zobristHash);
        if k.Castling? then
          squares == Put(Put(old(squares), k.row, k.rookTo, '.'), k.row, k.rookFrom, k.rook) &&
          zobristHash == Xor(Xor(h, Feature(hasher, 8 * k.row + k.rookTo, k.rook)), Feature(hasher, 8 * k.row + k.rookFrom, k.rook))
        else squares == old(squares) && zobristHash == h
    {
      var piece, sr, sc, er, ec := rec.piece, rec.startRow, rec.startCol, rec.endRow, rec.endCol;
      if piece == 'K' && sr == 7 && sc == 4 && er == 7 && ec == 6 {
        squares := Put(squares, 7, 5, '.');
        squares := Put(squares, 7, 7, 'R');
        zobristHash := Xor(zobristHash, hasher.piece[61][PieceIndex('R')]);
        zobristHash := Xor(zobristHash, hasher.piece[63][PieceIndex('R')]);
      } else if piece == 'K' && sr == 7 && sc == 4 && er == 7 && ec == 2 {
        squares := Put(squares, 7, 3, '.');
        squares := Put(squares, 7, 0, 'R');
        zobristHash := Xor(zobristHash, hasher.piece[59][PieceIndex('R')]);
        zobristHash := Xor(zobristHash, hasher.piece[56][PieceIndex('R')]);
      } else if piece == 'k' && sr == 0 && sc == 4 && er == 0 && ec == 6 {
        squares := Put(squares, 0, 5, '.');
        squares := Put(squares, 0, 7, 'r');
        zobristHash := Xor(zobristHash, hasher.piece[5][PieceIndex('r')]);
        zobristHash := Xor(zobristHash, hasher.piece[7][PieceIndex('r')]);
      } else if piece == 'k' && sr == 0 && sc == 4 && er == 0 && ec == 2 {
        squares := Put(squares, 0, 3, '.');
        squares := Put(squares, 0, 0, 'r');
        zobristHash := Xor(zobristHash, hasher.piece[3][PieceIndex('r')]);
        zobristHash := Xor(zobristHash, hasher.piece[0][PieceIndex('r')]);
      }
    }

    method UnmakeCastlingStep(ghost s: Position, rec: MoveRecord)
      requires At(s)
      requires var k := CastlingOf(rec.piece, rec.startRow, rec.startCol, rec.endRow, rec.endCol);
        k.Castling? ==> s.squares[k.row][k.rookTo] == k.rook && s.squares[k.row][k.rookFrom] == '.'
      modifies this`squares, this`zobristHash
      ensures At(UndoCastling(s, rec))
    {
      UndoCastlingHash(hasher, s, rec);
      UnmakeCastlingBlock(rec);
    }

    /** A promotion is undone by putting the mover's pawn back on the
        promotion square. The source stops the program when the recorded
        promotion square is not the destination, or not on the mover's far
        row; the precondition rules both out. */
    method UnmakePromotionBlock(rec: MoveRecord)
      requires WfTable(hasher) && WfGrid(squares) && InBounds(rec.endRow, rec.endCol)
      requires PromotionSquareOk(whitesTurn, rec)
      modifies this`squares, this`zobristHash
      ensures var h := old(zobristHash); var sq := 8 * rec.endRow + rec.endCol;
        if rec.promoRow != -1 || rec.promoCol != -1 then
          squares == Put(old(squares), FarRow(whitesTurn), rec.promoCol, Pawn(whitesTurn)) &&
          zobristHash == Xor(Xor(h, Feature(hasher, sq, Queen(whitesTurn))), Feature(hasher, sq, Pawn(whitesTurn)))
        else squares == old(squares) && zobristHash == h
    {
      var er, ec := rec.endRow, rec.endCol;
      if rec.promoRow != -1 || rec.promoCol != -1 {
        if rec.promoRow != er || rec.promoCol != ec {
          assert false;
        }
        if whitesTurn {
          if rec.promoRow != 0 {
            assert false;
          }
          squares := Put(squares, 0, rec.promoCol, 'P');
          zobristHash := Xor(zobristHash, hasher.piece[er * 8 + ec][PieceIndex('Q')]);
          zobristHash := Xor(zobristHash, hasher.piece[er * 8 + ec][PieceIndex('P')]);
        } else {
          if rec.promoRow != 7 {
            assert false;
          }
          squares := Put(squares, 7, rec.promoCol, 'p');
          zobristHash := Xor(zobristHash, hasher.piece[er * 8 + ec][PieceIndex('q')]);
          zobristHash := Xor(zobristHash, hasher.piece[er * 8 + ec][PieceIndex('p')]);
        }
      }
    }

    method UnmakePromotionStep(ghost s: Position, rec: MoveRecord)
      requires At(s) && InBounds(rec.endRow, rec.endCol) && PromotionSquareOk(s.whitesTurn, rec)
      requires UndoPromotionHashes(hasher, s, rec)
      modifies this`squares, this`zobristHash
      ensures At(UndoPromotion(s, rec))
    {
      UnmakePromotionBlock(rec);
    }

    /** The pawn taken en passant comes back behind the destination. */
    method UnmakeEpCaptureBlock(rec: MoveRecord)
      requires WfTable(hasher) && WfGrid(squares)
      requires rec.isEnPassant ==> InBounds(Behind(whitesTurn, rec.endRow), rec.endCol)
      modifies this`squares, this`zobristHash
      ensures squares ==
        if rec.isEnPassant then Put(old(squares), Behind(whitesTurn, rec.endRow), rec.endCol, EnemyPawn(whitesTurn))
        else old(squares)
      ensures zobristHash ==
        if rec.isEnPassant
        then Xor(old(zobristHash), Feature(hasher, 8 * Behind(whitesTurn, rec.endRow) + rec.endCol, EnemyPawn(whitesTurn)))
        else old(zobristHash)
    {
      var er, ec := rec.endRow, rec.endCol;
      if rec.isEnPassant && whitesTurn {
        squares := Put(squares, er + 1, ec, 'p');
        zobristHash := Xor(zobristHash, hasher.piece[(er + 1) * 8 + ec][PieceIndex('p')]);
      } else if rec.isEnPassant && !whitesTurn {
        squares := Put(squares, er - 1, ec, 'P');
        zobristHash := Xor(zobristHash, hasher.piece[(er - 1) * 8 + ec][PieceIndex('P')]);
      }
    }

    method UnmakeEpCaptureStep(ghost s: Position, rec: MoveRecord)
      requires At(s) && (rec.isEnPassant ==> InBounds(Behind(s.whitesTurn, rec.endRow), rec.endCol))
      requires UndoEpCaptureHashes(hasher, s, rec)
      modifies this`squares, this`zobristHash
      ensures At(UndoEpCapture(s, rec))
    {
      assert whitesTurn == s.whitesTurn && squares == s.squares;
      UnmakeEpCaptureBlock(rec);
    }

    /** The piece on the destination goes back to its start square. */
    method UnmakeSourceBlock(rec: MoveRecord)
      requires WfTable(hasher) && WfGrid(squares) && IsPiece(rec.piece)
      requires InBounds(rec.startRow, rec.startCol) && InBounds(rec.endRow, rec.endCol)
      modifies this`squares, this`zobristHash
      ensures squares ==
        Put(Put(old(squares), rec.startRow, rec.startCol, old(squares)[rec.endRow][rec.endCol]), rec.endRow, rec.endCol, '.')
      ensures zobristHash ==
        Xor(Xor(old(zobristHash), Feature(hasher, 8 * rec.startRow + rec.startCol, rec.piece)),
            Feature(hasher, 8 * rec.endRow + rec.endCol, rec.piece))
    {
      var sr, sc, er, ec := rec.startRow, rec.startCol, rec.endRow, rec.endCol;
      squares := Put(squares, sr, sc, squares[er][ec]);
      zobristHash := Xor(zobristHash, hasher.piece[sr * 8 + sc][PieceIndex(rec.piece)]);
      zobristHash := Xor(zobristHash, hasher.piece[er * 8 + ec][PieceIndex(rec.piece)]);
      squares := Put(squares, er, ec, '.');
    }

    method UnmakeSourceStep(ghost s: Position, rec: MoveRecord)
      requires At(s) && IsPiece(rec.piece)
      requires InBounds(rec.startRow, rec.startCol) && InBounds(rec.endRow, rec.endCol)
      requires rec.startRow != rec.endRow || rec.startCol != rec.endCol
      requires s.squares[rec.startRow][rec.startCol] == '.' && s.squares[rec.endRow][rec.endCol] == rec.piece
      modifies this`squares, this`zobristHash
      ensures At(UndoSource(s, rec))
    {
      UndoSourceHash(hasher, s, rec);
      UnmakeSourceBlock(rec);
    }

    /** A piece captured normally comes back on the destination. */
    method UnmakeCaptureBlock(rec: MoveRecord)
      requires WfTable(hasher) && WfGrid(squares) && InBounds(rec.endRow, rec.endCol) && IsSquareChar(rec.captured)
      modifies this`squares, this`zobristHash
      ensures squares ==
        if rec.captured != '.' && !rec.isEnPassant then Put(old(squares), rec.endRow, rec.endCol, rec.captured)
        else old(squares)
      ensures zobristHash ==
        if rec.captured != '.' && !rec.isEnPassant
        then Xor(old(zobristHash), Feature(hasher, 8 * rec.endRow + rec.endCol, rec.captured))
        else old(zobristHash)
    {
      if rec.captured != '.' && !rec.isEnPassant {
        squares := Put(squares, rec.endRow, rec.endCol, rec.captured);
        zobristHash := Xor(zobristHash, hasher.piece[rec.endRow * 8 + rec.endCol][PieceIndex(rec.captured)]);
      }
    }

    method UnmakeCaptureStep(ghost s: Position, rec: MoveRecord)
      requires At(s) && InBounds(rec.endRow, rec.endCol) && IsSquareChar(rec.captured)
      requires s.squares[rec.endRow][rec.endCol] == '.'
      modifies this`squares, this`zobristHash
      ensures At(UndoCapture(s, rec))
    {
      UndoCaptureHash(hasher, s, rec);
      UnmakeCaptureBlock(rec);
    }

    /** The castled flags return to their recorded values; they are not part
        of the hash. */
    method RestoreCastledStep(ghost s: Position, rec: MoveRecord)
      requires At(s)
      modifies this`whiteCastled, this`blackCastled
      ensures At(UndoCastled(s, rec))
    {
      UndoCastledHash(hasher, s, rec);
      whiteCastled := rec.priorWhiteCastled;
      blackCastled := rec.priorBlackCastled;
    }

    /** The first blocks of unmake_move, in order: the turn, the castled flags,
        the en-passant target, the castling rights, the castling rook. */
    method UnmakeOpeningSteps(ghost q: Position, rec: MoveRecord)
      requires At(q) && UndoReady(q, rec)
      modifies this`squares, this`whitesTurn, this`zobristHash, this`epRow, this`epCol, this`whiteCastled,
               this`blackCastled, this`whiteKs, this`whiteQs, this`blackKs, this`blackQs
      ensures At(AfterCastlingBack(q, rec))
    {
      PassTurnStep(q);
      RestoreCastledStep(UndoTurn(q), rec);
      ghost var s1 := UndoCastled(UndoTurn(q), rec);
      UnmakeEnPassantStep(s1, rec);
      UnmakeRightsStep(UndoEp(s1, rec), rec);
      UnmakeCastlingStep(BeforeCastlingBack(q, rec), rec);
    }

    /** The remaining blocks of unmake_move, in order: the promotion, the
        en-passant pawn, the moved piece, the captured piece. */
    method UnmakeClosingSteps(ghost q: Position, rec: MoveRecord)
      requires UndoReady(q, rec) && At(AfterCastlingBack(q, rec))
      modifies this`squares, this`zobristHash
      ensures At(Undo(q, rec))
    {
      UndoPromotionHash(hasher, AfterCastlingBack(q, rec), rec);
      UndoEpCaptureHash(hasher, AfterPromotionBack(q, rec), rec);
      UnmakePromotionStep(AfterCastlingBack(q, rec), rec);
      UnmakeEpCaptureStep(AfterPromotionBack(q, rec), rec);
      UnmakeSourceStep(AfterEpBack(q, rec), rec);
      UnmakeCaptureStep(AfterSourceBack(q, rec), rec);
    }

    /** Every block of unmake_move after the record is read, in order. */
    method UnmakeOnBoard(ghost q: Position, rec: MoveRecord)
      requires At(q) && UndoReady(q, rec)
      modifies this`squares, this`whitesTurn, this`zobristHash, this`epRow, this`epCol, this`whiteCastled,
               this`blackCastled, this`whiteKs, this`whiteQs, this`blackKs, this`blackQs
      ensures At(Undo(q, rec))
      ensures moveHistory == old(moveHistory) && zobristHistory == old(zobristHistory) && line == old(line)
    {
      UnmakeOpeningSteps(q, rec);
      UnmakeClosingSteps(q, rec);
    }

    /** What unmake_move relies on: the last record undoes the current
        position to the one before it, and the shorter lists form a game. */
    lemma LastUndo()
      requires Valid() && |moveHistory| > 0
      ensures var n := |moveHistory|;
        |line| == n + 1 && |zobristHistory| == n && At(Pos()) &&
        UndoReady(Pos(), moveHistory[n - 1]) && Undo(Pos(), moveHistory[n - 1]) == line[n - 1] &&
        Game(hasher, line[..n], moveHistory[..n - 1], zobristHistory[..n - 1])
    {
      UndoFacts(hasher, line, moveHistory, zobristHistory);
      ValidInv();
    }

    /** The opening of unmake_move: the last hash and the last move record
        are popped, and the record is handed back; the board is untouched. */
    method PopHistories() returns (rec: MoveRecord)
      requires |moveHistory| > 0 && |zobristHistory| == |moveHistory|
      modifies this`moveHistory, this`zobristHistory
      ensures rec == old(moveHistory)[|old(moveHistory)| - 1]
      ensures moveHistory == old(moveHistory)[..|old(moveHistory)| - 1]
      ensures zobristHistory == old(zobristHistory)[..|old(zobristHistory)| - 1]
      ensures Pos() == old(Pos()) && zobristHash == old(zobristHash) && line == old(line)
    {
      zobristHistory := zobristHistory[..|zobristHistory| - 1];
      rec := moveHistory[|moveHistory| - 1];
      moveHistory := moveHistory[..|moveHistory| - 1];
    }

    /** unmake_move: both histories lose their last entry and the position
        and running hash return to those before the last move. The source
        pops the hash history before it checks that there is a move to take
        back; either way an empty history is an error, excluded here. */
    method UnmakeMove()
      requires Valid() && |moveHistory| > 0
      modifies this
      ensures Valid()
      ensures moveHistory == old(moveHistory)[..|old(moveHistory)| - 1]
      ensures zobristHistory == old(zobristHistory)[..|old(zobristHistory)| - 1]
      ensures line == old(line)[..|old(line)| - 1]
      ensures Pos() == old(line)[|old(line)| - 2]
    {
      ghost var q, L, n := Pos(), line, |moveHistory|;
      LastUndo();
      var rec := PopHistories();
      UnmakeOnBoard(q, rec);
      assert L[..n][n - 1] == L[n - 1];
      SetLine(L[..n]);
    }
  }
}
