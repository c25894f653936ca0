/** The hash side of make_move and unmake_move. For each block of the source,
    the XOR updates it applies to the running hash take the from-scratch hash
    of the position before the block to that of the position after it. Each
    lemma's right-hand side follows the source's updates in order, including
    the ones made only under a condition; what the updates assume about the
    squares (the piece the code believes is there) is a precondition, and the
    Facts lemmas establish it for the positions a move passes through. */
module MoveHash {
  import opened ChessTypes
  import opened Zobrist
  import opened MoveSpec

  // ---------------------------------------------------------------------------
  // Single fields.

  /** The running hash after `if c: h ^= v`. */
  function XorIf(c: bool, h: Hash, v: Hash): Hash {
    if c then Xor(h, v) else h
  }

  /** Setting one castling right toggles its value exactly when it changes. */
  lemma SetWhiteKs(t: Table, q: Position, b: bool)
    requires WfTable(t) && Hashable(q)
    ensures FullHash(t, q.(whiteKs := b)) == XorIf(b != q.whiteKs, FullHash(t, q), t.whiteKs)
  {
    if b != q.whiteKs { FullHashWhiteKs(t, q); } else { assert q.(whiteKs := b) == q; }
  }

  lemma SetWhiteQs(t: Table, q: Position, b: bool)
    requires WfTable(t) && Hashable(q)
    ensures FullHash(t, q.(whiteQs := b)) == XorIf(b != q.whiteQs, FullHash(t, q), t.whiteQs)
  {
    if b != q.whiteQs { FullHashWhiteQs(t, q); } else { assert q.(whiteQs := b) == q; }
  }

  lemma SetBlackKs(t: Table, q: Position, b: bool)
    requires WfTable(t) && Hashable(q)
    ensures FullHash(t, q.(blackKs := b)) == XorIf(b != q.blackKs, FullHash(t, q), t.blackKs)
  {
    if b != q.blackKs { FullHashBlackKs(t, q); } else { assert q.(blackKs := b) == q; }
  }

  lemma SetBlackQs(t: Table, q: Position, b: bool)
    requires WfTable(t) && Hashable(q)
    ensures FullHash(t, q.(blackQs := b)) == XorIf(b != q.blackQs, FullHash(t, q), t.blackQs)
  {
    if b != q.blackQs { FullHashBlackQs(t, q); } else { assert q.(blackQs := b) == q; }
  }

  /** A new en-passant target: the old file's value is removed (if there was
      one) and the new file's value added (if there is one). */
  lemma EpHash(t: Table, q: Position, row: int, col: int)
    requires WfTable(t) && Hashable(q) && -1 <= col < 8
    ensures Hashable(q.(epRow := row, epCol := col))
    ensures var h := FullHash(t, q);
      var off := if q.epCol != -1 then Xor(h, t.enPassant[q.epCol]) else h;
      FullHash(t, q.(epRow := row, epCol := col)) == if col != -1 then Xor(off, t.enPassant[col]) else off
  {
    var h := FullHash(t, q);
    FullHashEnPassant(t, q, row, col);
    XorZero(h);
    if q.epCol != -1 {
      XorZero(Xor(h, t.enPassant[q.epCol]));
    }
  }

  // ---------------------------------------------------------------------------
  // The blocks of make_move.

  /** The en-passant block: the old file is removed and, when a target is
      granted, the moved pawn's file added. */
  lemma EpStageHash(t: Table, p: Position, sr: int, sc: int, er: int, ec: int)
    requires WfTable(t) && Hashable(p) && InBounds(sr, sc) && InBounds(er, ec)
    ensures Hashable(EpStage(p, sr, sc, er, ec))
    ensures var h := FullHash(t, p);
      var off := if p.epCol != -1 then Xor(h, t.enPassant[p.epCol]) else h;
      FullHash(t, EpStage(p, sr, sc, er, ec)) ==
        if Grants(p, sr, sc, er, ec) then Xor(off, t.enPassant[ec]) else off
  {
    var q := EpStage(p, sr, sc, er, ec);
    assert q == p.(epRow := q.epRow, epCol := q.epCol);
    EpHash(t, p, q.epRow, q.epCol);
  }

  /** Moving the piece: a piece captured on the destination leaves it (not for
      en passant, whose destination is empty), the piece arrives there and
      leaves its start square. */
  lemma MoveStageHash(t: Table, q: Position, sr: int, sc: int, er: int, ec: int, cap: char, isEp: bool)
    requires WfTable(t) && Hashable(q) && InBounds(sr, sc) && InBounds(er, ec) && (sr != er || sc != ec)
    requires IsSquareChar(cap) && q.squares[er][ec] == if cap != '.' && !isEp then cap else '.'
    ensures Hashable(MoveStage(q, sr, sc, er, ec))
    ensures var h := FullHash(t, q);
      var piece := q.squares[sr][sc];
      var h1 := if cap != '.' && !isEp then Xor(h, Feature(t, 8 * er + ec, cap)) else h;
      FullHash(t, MoveStage(q, sr, sc, er, ec)) ==
        Xor(Xor(h1, Feature(t, 8 * er + ec, piece)), Feature(t, 8 * sr + sc, piece))
  {
    var piece := q.squares[sr][sc];
    var h := FullHash(t, q);
    FullHashPut(t, q, er, ec, piece);
    var q1 := q.(squares := Put(q.squares, er, ec, piece));
    assert q1.squares[sr][sc] == piece;
    FullHashPut(t, q1, sr, sc, '.');
    assert MoveStage(q, sr, sc, er, ec) == q1.(squares := Put(q1.squares, sr, sc, '.'));
    XorZero(h);
    XorZero(Xor(Xor(h, Feature(t, 8 * er + ec, q.squares[er][ec])), Feature(t, 8 * er + ec, piece)));
  }

  /** An en-passant capture removes the taken pawn from its own square. */
  lemma EpCaptureStageHash(t: Table, q: Position, er: int, ec: int, isEp: bool, cap: char)
    requires WfTable(t) && Hashable(q) && IsSquareChar(cap)
    requires isEp ==> InBounds(Behind(q.whitesTurn, er), ec) && q.squares[Behind(q.whitesTurn, er)][ec] == cap
    ensures Hashable(EpCaptureStage(q, er, ec, isEp))
    ensures FullHash(t, EpCaptureStage(q, er, ec, isEp)) ==
      if isEp then Xor(FullHash(t, q), Feature(t, 8 * Behind(q.whitesTurn, er) + ec, cap)) else FullHash(t, q)
  {
    if isEp {
      FullHashPut(t, q, Behind(q.whitesTurn, er), ec, '.');
      XorZero(Xor(FullHash(t, q), Feature(t, 8 * Behind(q.whitesTurn, er) + ec, cap)));
    }
  }

  /** A promotion replaces the pawn's value by the queen's on the destination. */
  lemma PromotionStageHash(t: Table, q: Position, er: int, ec: int)
    requires WfTable(t) && Hashable(q) && InBounds(er, ec)
    ensures Hashable(PromotionStage(q, er, ec))
    ensures var h := FullHash(t, q);
      FullHash(t, PromotionStage(q, er, ec)) ==
        if q.whitesTurn && er == 0 && q.squares[er][ec] == 'P' then
          Xor(Xor(h, Feature(t, 8 * er + ec, 'P')), Feature(t, 8 * er + ec, 'Q'))
        else if !q.whitesTurn && er == 7 && q.squares[er][ec] == 'p' then
          Xor(Xor(h, Feature(t, 8 * er + ec, 'p')), Feature(t, 8 * er + ec, 'q'))
        else h
  {
    if q.whitesTurn && er == 0 && q.squares[er][ec] == 'P' {
      FullHashPut(t, q, er, ec, 'Q');
    } else if !q.whitesTurn && er == 7 && q.squares[er][ec] == 'p' {
      FullHashPut(t, q, er, ec, 'q');
    }
  }

  /** Castling adds the rook on its new square and removes it from its corner;
      the castled flags are not hashed. */
  lemma CastlingStageHash(t: Table, q: Position, piece: char, sr: int, sc: int, er: int, ec: int)
    requires WfTable(t) && Hashable(q)
    requires var k := CastlingOf(piece, sr, sc, er, ec);
      k.Castling? ==> q.squares[k.row][k.rookFrom] == k.rook && q.squares[k.row][k.rookTo] == '.'
    ensures Hashable(CastlingStage(q, piece, sr, sc, er, ec))
    ensures var k := CastlingOf(piece, sr, sc, er, ec); var h := FullHash(t, q);
      FullHash(t, CastlingStage(q, piece, sr, sc, er, ec)) ==
        if k.Castling? then Xor(Xor(h, Feature(t, 8 * k.row + k.rookTo, k.rook)), Feature(t, 8 * k.row + k.rookFrom, k.rook))
        else h
  {
    var k := CastlingOf(piece, sr, sc, er, ec);
    if k.Castling? {
      var h := FullHash(t, q);
      FullHashPut(t, q, k.row, k.rookTo, k.rook);
      var q1 := q.(squares := Put(q.squares, k.row, k.rookTo, k.rook));
      FullHashPut(t, q1, k.row, k.rookFrom, '.');
      var q2 := q1.(squares := Put(q1.squares, k.row, k.rookFrom, '.'));
      FullHashIgnores(t, q2, CastlingStage(q, piece, sr, sc, er, ec));
      XorZero(h);
      XorZero(Xor(Xor(h, Feature(t, 8 * k.row + k.rookTo, k.rook)), Feature(t, 8 * k.row + k.rookFrom, k.rook)));
    }
  }

  /** Clearing white's rights a (queen side) and b (king side), in that order,
      toggles each one lost; likewise for black. */
  lemma ClearWhiteRights(t: Table, q: Position, a: bool, b: bool)
    requires WfTable(t) && Hashable(q)
    ensures FullHash(t, q.(whiteQs := q.whiteQs && a, whiteKs := q.whiteKs && b)) ==
      XorIf(q.whiteKs && !b, XorIf(q.whiteQs && !a, FullHash(t, q), t.whiteQs), t.whiteKs)
  {
    var q1 := q.(whiteQs := q.whiteQs && a);
    SetWhiteQs(t, q, q.whiteQs && a);
    SetWhiteKs(t, q1, q.whiteKs && b);
  }

  lemma ClearBlackRights(t: Table, q: Position, c: bool, d: bool)
    requires WfTable(t) && Hashable(q)
    ensures FullHash(t, q.(blackQs := q.blackQs && c, blackKs := q.blackKs && d)) ==
      XorIf(q.blackKs && !d, XorIf(q.blackQs && !c, FullHash(t, q), t.blackQs), t.blackKs)
  {
    var q1 := q.(blackQs := q.blackQs && c);
    SetBlackQs(t, q, q.blackQs && c);
    SetBlackKs(t, q1, q.blackKs && d);
  }

  /** The rights block clears rights in the order white queen side, white king
      side, black queen side, black king side, toggling each one lost. */
  lemma RightsStageHash(t: Table, q: Position, piece: char, cap: char, sr: int, sc: int, er: int, ec: int)
    requires WfTable(t) && Hashable(q)
    ensures Hashable(RightsStage(q, piece, cap, sr, sc, er, ec))
    ensures var w := q.whitesTurn;
      var h1 := XorIf(q.whiteQs && !KeepsWhiteQs(w, piece, cap, sr, sc, er, ec), FullHash(t, q), t.whiteQs);
      var h2 := XorIf(q.whiteKs && !KeepsWhiteKs(w, piece, cap, sr, sc, er, ec), h1, t.whiteKs);
      var h3 := XorIf(q.blackQs && !KeepsBlackQs(w, piece, cap, sr, sc, er, ec), h2, t.blackQs);
      FullHash(t, RightsStage(q, piece, cap, sr, sc, er, ec)) ==
        XorIf(q.blackKs && !KeepsBlackKs(w, piece, cap, sr, sc, er, ec), h3, t.blackKs)
  {
    var w := q.whitesTurn;
    var a := KeepsWhiteQs(w, piece, cap, sr, sc, er, ec);
    var b := KeepsWhiteKs(w, piece, cap, sr, sc, er, ec);
    var c := KeepsBlackQs(w, piece, cap, sr, sc, er, ec);
    var d := KeepsBlackKs(w, piece, cap, sr, sc, er, ec);
    var q1 := q.(whiteQs := q.whiteQs && a, whiteKs := q.whiteKs && b);
    ClearWhiteRights(t, q, a, b);
    ClearBlackRights(t, q1, c, d);
    assert q1.(blackQs := q1.blackQs && c, blackKs := q1.blackKs && d) == RightsStage(q, piece, cap, sr, sc, er, ec);
  }

  /** What the hash updates of make_move assume about the squares, for the
      positions the move passes through. */
  lemma MakeFactsMove(p: Position, sr: int, sc: int, er: int, ec: int)
    requires MovePre(p, sr, sc, er, ec) && EpTargetSound(p)
    ensures var cap := Captured(p, sr, sc, er, ec);
      IsSquareChar(cap) &&
      AfterEp(p, sr, sc, er, ec).squares[er][ec] ==
        if cap != '.' && !IsEnPassant(p, sr, sc, er, ec) then cap else '.'
  {
    if IsEnPassant(p, sr, sc, er, ec) {
      EnPassantRows(p, sr, sc, er, ec);
    }
  }

  lemma MakeFactsEpCapture(p: Position, sr: int, sc: int, er: int, ec: int)
    requires MovePre(p, sr, sc, er, ec) && EpTargetSound(p) && IsEnPassant(p, sr, sc, er, ec)
    ensures InBounds(Behind(p.whitesTurn, er), ec) && Captured(p, sr, sc, er, ec) == EnemyPawn(p.whitesTurn)
    ensures AfterMove(p, sr, sc, er, ec).squares[Behind(p.whitesTurn, er)][ec] == Captured(p, sr, sc, er, ec)
  {
    EnPassantRows(p, sr, sc, er, ec);
    MoveStageAt(AfterEp(p, sr, sc, er, ec), sr, sc, er, ec, Behind(p.whitesTurn, er), ec);
  }

  lemma MakeFactsCastling(p: Position, sr: int, sc: int, er: int, ec: int)
    requires MovePre(p, sr, sc, er, ec)
    ensures var k := CastlingOf(p.squares[sr][sc], sr, sc, er, ec);
      k.Castling? ==>
        AfterPromotion(p, sr, sc, er, ec).squares[k.row][k.rookFrom] == k.rook &&
        AfterPromotion(p, sr, sc, er, ec).squares[k.row][k.rookTo] == '.'
  {
    var k := CastlingOf(p.squares[sr][sc], sr, sc, er, ec);
    if k.Castling? {
      AfterPromotionAt(p, sr, sc, er, ec, k.row, k.rookFrom);
      AfterEpCaptureAt(p, sr, sc, er, ec, k.row, k.rookFrom);
      AfterPromotionAt(p, sr, sc, er, ec, k.row, k.rookTo);
      AfterEpCaptureAt(p, sr, sc, er, ec, k.row, k.rookTo);
    }
  }

  /** Everything the hash updates of make_move assume, for a move make_move
      accepts on a position whose en-passant target is sound. */
  lemma MakeFacts(p: Position, sr: int, sc: int, er: int, ec: int)
    requires MovePre(p, sr, sc, er, ec) && EpTargetSound(p)
    ensures var cap := Captured(p, sr, sc, er, ec);
      IsSquareChar(cap) &&
      AfterEp(p, sr, sc, er, ec).squares[er][ec] ==
        if cap != '.' && !IsEnPassant(p, sr, sc, er, ec) then cap else '.'
    ensures IsEnPassant(p, sr, sc, er, ec) ==>
      InBounds(Behind(p.whitesTurn, er), ec) && Captured(p, sr, sc, er, ec) == EnemyPawn(p.whitesTurn) &&
      AfterMove(p, sr, sc, er, ec).squares[Behind(p.whitesTurn, er)][ec] == Captured(p, sr, sc, er, ec)
    ensures var k := CastlingOf(p.squares[sr][sc], sr, sc, er, ec);
      k.Castling? ==>
        AfterPromotion(p, sr, sc, er, ec).squares[k.row][k.rookFrom] == k.rook &&
        AfterPromotion(p, sr, sc, er, ec).squares[k.row][k.rookTo] == '.'
  {
    MakeFactsMove(p, sr, sc, er, ec);
    if IsEnPassant(p, sr, sc, er, ec) {
      MakeFactsEpCapture(p, sr, sc, er, ec);
    }
    MakeFactsCastling(p, sr, sc, er, ec);
  }

  // ---------------------------------------------------------------------------
  // The blocks of unmake_move.

  /** The castled flags are not hashed. */
  lemma UndoCastledHash(t: Table, q: Position, rec: MoveRecord)
    requires WfTable(t) && Hashable(q)
    ensures Hashable(UndoCastled(q, rec)) && FullHash(t, UndoCastled(q, rec)) == FullHash(t, q)
  {
    FullHashIgnores(t, q, UndoCastled(q, rec));
  }

  /** The target is restored only when it differs; its file value is removed
      (if any) and the recorded file's value added (if any). */
  lemma UndoEpHash(t: Table, q: Position, rec: MoveRecord)
    requires WfTable(t) && Hashable(q) && -1 <= rec.priorEpCol < 8
    ensures Hashable(UndoEp(q, rec))
    ensures var h := FullHash(t, q);
      var h1 := if q.epCol != -1 then Xor(h, t.enPassant[q.epCol]) else h;
      FullHash(t, UndoEp(q, rec)) ==
        if rec.priorEpRow != q.epRow || rec.priorEpCol != q.epCol then
          (if rec.priorEpCol != -1 then Xor(h1, t.enPassant[rec.priorEpCol]) else h1)
        else h
  {
    EpHash(t, q, rec.priorEpRow, rec.priorEpCol);
    if rec.priorEpRow == q.epRow && rec.priorEpCol == q.epCol {
      assert UndoEp(q, rec) == q;
    }
  }

  /** Restoring white's king-side right a and queen-side right b, in that
      order, toggles each one that changes; likewise for black. */
  lemma RestoreWhiteRights(t: Table, q: Position, a: bool, b: bool)
    requires WfTable(t) && Hashable(q)
    ensures FullHash(t, q.(whiteKs := a, whiteQs := b)) ==
      XorIf(b != q.whiteQs, XorIf(a != q.whiteKs, FullHash(t, q), t.whiteKs), t.whiteQs)
  {
    var q1 := q.(whiteKs := a);
    SetWhiteKs(t, q, a);
    SetWhiteQs(t, q1, b);
  }

  lemma RestoreBlackRights(t: Table, q: Position, c: bool, d: bool)
    requires WfTable(t) && Hashable(q)
    ensures FullHash(t, q.(blackKs := c, blackQs := d)) ==
      XorIf(d != q.blackQs, XorIf(c != q.blackKs, FullHash(t, q), t.blackKs), t.blackQs)
  {
    var q1 := q.(blackKs := c);
    SetBlackKs(t, q, c);
    SetBlackQs(t, q1, d);
  }

  /** Each right that differs from the recorded one is restored and toggled:
      white king side, white queen side, black king side, black queen side. */
  lemma UndoRightsHash(t: Table, q: Position, rec: MoveRecord)
    requires WfTable(t) && Hashable(q)
    ensures Hashable(UndoRights(q, rec))
    ensures var h1 := XorIf(rec.priorWhiteKs != q.whiteKs, FullHash(t, q), t.whiteKs);
      var h2 := XorIf(rec.priorWhiteQs != q.whiteQs, h1, t.whiteQs);
      var h3 := XorIf(rec.priorBlackKs != q.blackKs, h2, t.blackKs);
      FullHash(t, UndoRights(q, rec)) == XorIf(rec.priorBlackQs != q.blackQs, h3, t.blackQs)
  {
    var q1 := q.(whiteKs := rec.priorWhiteKs, whiteQs := rec.priorWhiteQs);
    RestoreWhiteRights(t, q, rec.priorWhiteKs, rec.priorWhiteQs);
    RestoreBlackRights(t, q1, rec.priorBlackKs, rec.priorBlackQs);
    assert q1.(blackKs := rec.priorBlackKs, blackQs := rec.priorBlackQs) == UndoRights(q, rec);
  }

  /** The rook leaves the square next to the king and returns to its corner. */
  lemma UndoCastlingHash(t: Table, q: Position, rec: MoveRecord)
    requires WfTable(t) && Hashable(q)
    requires var k := CastlingOf(rec.piece, rec.startRow, rec.startCol, rec.endRow, rec.endCol);
      k.Castling? ==> q.squares[k.row][k.rookTo] == k.rook && q.squares[k.row][k.rookFrom] == '.'
    ensures Hashable(UndoCastling(q, rec))
    ensures var k := CastlingOf(rec.piece, rec.startRow, rec.startCol, rec.endRow, rec.endCol);
      var h := FullHash(t, q);
      FullHash(t, UndoCastling(q, rec)) ==
        if k.Castling? then Xor(Xor(h, Feature(t, 8 * k.row + k.rookTo, k.rook)), Feature(t, 8 * k.row + k.rookFrom, k.rook))
        else h
  {
    var k := CastlingOf(rec.piece, rec.startRow, rec.startCol, rec.endRow, rec.endCol);
    if k.Castling? {
      var h := FullHash(t, q);
      FullHashPut(t, q, k.row, k.rookTo, '.');
      var q1 := q.(squares := Put(q.squares, k.row, k.rookTo, '.'));
      FullHashPut(t, q1, k.row, k.rookFrom, k.rook);
      assert UndoCastling(q, rec) == q1.(squares := Put(q1.squares, k.row, k.rookFrom, k.rook));
      XorZero(Xor(h, Feature(t, 8 * k.row + k.rookTo, k.rook)));
    }
  }

  /** How undoing a promotion changes the from-scratch hash: the queen's value
      leaves the promotion square and the pawn's comes back. */
  predicate UndoPromotionHashes(t: Table, q: Position, rec: MoveRecord)
    requires WfTable(t) && Hashable(q) && InBounds(rec.endRow, rec.endCol) && PromotionSquareOk(q.whitesTurn, rec)
  {
    var h := FullHash(t, q); var sq := 8 * rec.endRow + rec.endCol;
    var holds := Hashable(UndoPromotion(q, rec)) &&
      FullHash(t, UndoPromotion(q, rec)) ==
        if rec.promoRow != -1 || rec.promoCol != -1
        then Xor(Xor(h, Feature(t, sq, Queen(q.whitesTurn))), Feature(t, sq, Pawn(q.whitesTurn)))
        else h;
    holds
  }

  /** A promotion is undone by swapping the queen's value for the pawn's on the
      destination, which is the recorded promotion square. */
  lemma UndoPromotionHash(t: Table, q: Position, rec: MoveRecord)
    requires WfTable(t) && Hashable(q) && PromotionUndoable(q, rec)
    ensures UndoPromotionHashes(t, q, rec)
  {
    if rec.promoRow != -1 || rec.promoCol != -1 {
      if q.whitesTurn {
        FullHashPut(t, q, 0, rec.promoCol, 'P');
      } else {
        FullHashPut(t, q, 7, rec.promoCol, 'p');
      }
    }
  }

  /** How putting back the pawn taken en passant changes the from-scratch
      hash: that pawn's value comes back on its square. */
  predicate UndoEpCaptureHashes(t: Table, q: Position, rec: MoveRecord)
    requires WfTable(t) && Hashable(q)
    requires rec.isEnPassant ==> InBounds(Behind(q.whitesTurn, rec.endRow), rec.endCol)
  {
    var holds := Hashable(UndoEpCapture(q, rec)) &&
      FullHash(t, UndoEpCapture(q, rec)) ==
        if rec.isEnPassant
        then Xor(FullHash(t, q), Feature(t, 8 * Behind(q.whitesTurn, rec.endRow) + rec.endCol, EnemyPawn(q.whitesTurn)))
        else FullHash(t, q);
    holds
  }

  /** The pawn taken en passant is added back on its square. */
  lemma UndoEpCaptureHash(t: Table, q: Position, rec: MoveRecord)
    requires WfTable(t) && Hashable(q)
    requires rec.isEnPassant ==>
      InBounds(Behind(q.whitesTurn, rec.endRow), rec.endCol) &&
      q.squares[Behind(q.whitesTurn, rec.endRow)][rec.endCol] == '.'
    ensures UndoEpCaptureHashes(t, q, rec)
  {
    if rec.isEnPassant {
      FullHashPut(t, q, Behind(q.whitesTurn, rec.endRow), rec.endCol, EnemyPawn(q.whitesTurn));
      XorZero(FullHash(t, q));
    }
  }

  /** The piece's value is added back on its start square and removed from the
      destination. */
  lemma UndoSourceHash(t: Table, q: Position, rec: MoveRecord)
    requires WfTable(t) && Hashable(q)
    requires InBounds(rec.startRow, rec.startCol) && InBounds(rec.endRow, rec.endCol)
    requires rec.startRow != rec.endRow || rec.startCol != rec.endCol
    requires q.squares[rec.startRow][rec.startCol] == '.' && q.squares[rec.endRow][rec.endCol] == rec.piece
    ensures Hashable(UndoSource(q, rec))
    ensures FullHash(t, UndoSource(q, rec)) ==
      Xor(Xor(FullHash(t, q), Feature(t, 8 * rec.startRow + rec.startCol, rec.piece)),
          Feature(t, 8 * rec.endRow + rec.endCol, rec.piece))
  {
    var h := FullHash(t, q);
    var piece := rec.piece;
    FullHashPut(t, q, rec.startRow, rec.startCol, piece);
    var q1 := q.(squares := Put(q.squares, rec.startRow, rec.startCol, piece));
    assert q1.squares[rec.endRow][rec.endCol] == piece;
    FullHashPut(t, q1, rec.endRow, rec.endCol, '.');
    assert UndoSource(q, rec) == q1.(squares := Put(q1.squares, rec.endRow, rec.endCol, '.'));
    XorZero(h);
    XorZero(Xor(Xor(h, Feature(t, 8 * rec.startRow + rec.startCol, piece)), Feature(t, 8 * rec.endRow + rec.endCol, piece)));
  }

  /** A piece captured normally is added back on the destination. */
  lemma UndoCaptureHash(t: Table, q: Position, rec: MoveRecord)
    requires WfTable(t) && Hashable(q) && InBounds(rec.endRow, rec.endCol) && IsSquareChar(rec.captured)
    requires q.squares[rec.endRow][rec.endCol] == '.'
    ensures Hashable(UndoCapture(q, rec))
    ensures FullHash(t, UndoCapture(q, rec)) ==
      if rec.captured != '.' && !rec.isEnPassant
      then Xor(FullHash(t, q), Feature(t, 8 * rec.endRow + rec.endCol, rec.captured))
      else FullHash(t, q)
  {
    if rec.captured != '.' && !rec.isEnPassant {
      FullHashPut(t, q, rec.endRow, rec.endCol, rec.captured);
      XorZero(FullHash(t, q));
    }
  }

  /** What the hash updates of unmake_move assume about the squares, for the
      positions the undo of a move passes through. */
  lemma UndoFactsCastling(p: Position, sr: int, sc: int, er: int, ec: int)
    requires MovePre(p, sr, sc, er, ec)
    ensures var q := Apply(p, sr, sc, er, ec); var rec := Record(p, sr, sc, er, ec);
      var k := CastlingOf(rec.piece, rec.startRow, rec.startCol, rec.endRow, rec.endCol);
      k.Castling? ==> q.squares[k.row][k.rookTo] == k.rook && q.squares[k.row][k.rookFrom] == '.'
  {
    var k := CastlingOf(p.squares[sr][sc], sr, sc, er, ec);
    if k.Castling? {
      ApplyAtPoint(p, sr, sc, er, ec, k.row, k.rookTo);
      ApplyAtPoint(p, sr, sc, er, ec, k.row, k.rookFrom);
    }
  }

  lemma UndoFactsPromotion(p: Position, sr: int, sc: int, er: int, ec: int)
    requires MovePre(p, sr, sc, er, ec)
    ensures var q := Apply(p, sr, sc, er, ec); var rec := Record(p, sr, sc, er, ec);
      Undoable(q, rec) &&
      ((rec.promoRow != -1 || rec.promoCol != -1) ==>
        AfterCastlingBack(q, rec).squares[er][ec] == Queen(p.whitesTurn))
  {
    var q := Apply(p, sr, sc, er, ec);
    var rec := Record(p, sr, sc, er, ec);
    RecordUndoable(p, sr, sc, er, ec);
    if rec.promoRow != -1 || rec.promoCol != -1 {
      CastlingBackAt(q, rec, er, ec);
      ApplyAtPoint(p, sr, sc, er, ec, er, ec);
    }
  }

  lemma UndoFactsEpCapture(p: Position, sr: int, sc: int, er: int, ec: int)
    requires MovePre(p, sr, sc, er, ec)
    ensures var q := Apply(p, sr, sc, er, ec); var rec := Record(p, sr, sc, er, ec);
      Undoable(q, rec) &&
      (rec.isEnPassant ==>
        InBounds(Behind(p.whitesTurn, er), ec) &&
        AfterPromotionBack(q, rec).squares[Behind(p.whitesTurn, er)][ec] == '.')
  {
    var q := Apply(p, sr, sc, er, ec);
    var rec := Record(p, sr, sc, er, ec);
    RecordUndoable(p, sr, sc, er, ec);
    if rec.isEnPassant {
      EnPassantRows(p, sr, sc, er, ec);
      var b := Behind(p.whitesTurn, er);
      PromotionBackAt(q, rec, b, ec);
      CastlingBackAt(q, rec, b, ec);
      ApplyAtPoint(p, sr, sc, er, ec, b, ec);
    }
  }

  lemma UndoFactsStart(p: Position, sr: int, sc: int, er: int, ec: int)
    requires MovePre(p, sr, sc, er, ec) && EpTargetSound(p)
    ensures var q := Apply(p, sr, sc, er, ec); var rec := Record(p, sr, sc, er, ec);
      Undoable(q, rec) && AfterEpBack(q, rec).squares[sr][sc] == '.'
  {
    var q := Apply(p, sr, sc, er, ec);
    var rec := Record(p, sr, sc, er, ec);
    RecordUndoable(p, sr, sc, er, ec);
    if rec.isEnPassant {
      EnPassantRows(p, sr, sc, er, ec);
    }
    EpBackAt(q, rec, sr, sc);
    PromotionBackAt(q, rec, sr, sc);
    CastlingBackAt(q, rec, sr, sc);
    ApplyAtPoint(p, sr, sc, er, ec, sr, sc);
  }

  lemma UndoFactsEnd(p: Position, sr: int, sc: int, er: int, ec: int)
    requires MovePre(p, sr, sc, er, ec)
    ensures var q := Apply(p, sr, sc, er, ec); var rec := Record(p, sr, sc, er, ec);
      Undoable(q, rec) && AfterEpBack(q, rec).squares[er][ec] == p.squares[sr][sc]
  {
    var q := Apply(p, sr, sc, er, ec);
    var rec := Record(p, sr, sc, er, ec);
    RecordUndoable(p, sr, sc, er, ec);
    if rec.isEnPassant {
      EnPassantRows(p, sr, sc, er, ec);
    }
    EpBackAt(q, rec, er, ec);
    PromotionBackAt(q, rec, er, ec);
    CastlingBackAt(q, rec, er, ec);
    ApplyAtPoint(p, sr, sc, er, ec, er, ec);
  }

  lemma UndoFactsCapture(p: Position, sr: int, sc: int, er: int, ec: int)
    requires MovePre(p, sr, sc, er, ec)
    ensures var q := Apply(p, sr, sc, er, ec); var rec := Record(p, sr, sc, er, ec);
      Undoable(q, rec) && AfterSourceBack(q, rec).squares[er][ec] == '.'
  {
    var q := Apply(p, sr, sc, er, ec);
    var rec := Record(p, sr, sc, er, ec);
    RecordUndoable(p, sr, sc, er, ec);
    assert rec.endRow == er && rec.endCol == ec;
    SourceBackAt(q, rec, er, ec);
  }

  /** What unmake_move relies on when it takes back record rec from position
      q: the record is consistent with q, and each block finds the squares it
      rewrites as the make left them. */
  predicate UndoReady(q: Position, rec: MoveRecord) {
    var ready :=
      Undoable(q, rec) && WfPosition(q) && -1 <= rec.priorEpCol < 8 &&
      (var k := CastlingOf(rec.piece, rec.startRow, rec.startCol, rec.endRow, rec.endCol);
       k.Castling? ==> q.squares[k.row][k.rookTo] == k.rook && q.squares[k.row][k.rookFrom] == '.') &&
      ((rec.promoRow != -1 || rec.promoCol != -1) ==>
        AfterCastlingBack(q, rec).squares[rec.endRow][rec.endCol] == Queen(!q.whitesTurn)) &&
      (rec.isEnPassant ==>
        AfterPromotionBack(q, rec).squares[Behind(!q.whitesTurn, rec.endRow)][rec.endCol] == '.') &&
      IsPiece(rec.piece) && (rec.startRow != rec.endRow || rec.startCol != rec.endCol) &&
      AfterEpBack(q, rec).squares[rec.startRow][rec.startCol] == '.' &&
      AfterEpBack(q, rec).squares[rec.endRow][rec.endCol] == rec.piece &&
      AfterSourceBack(q, rec).squares[rec.endRow][rec.endCol] == '.';
    ready
  }

  /** Taking back the last move of a game: the record undoes to the position
      before it, the shorter lists are a game, and unmake_move's blocks find
      what they need. */
  lemma UndoFacts(t: Table, line: seq<Position>, hist: seq<MoveRecord>, hashes: seq<Hash>)
    requires Game(t, line, hist, hashes) && |hist| > 0
    ensures var n := |hist|; var q := line[n]; var rec := hist[n - 1];
      UndoReady(q, rec) && Undo(q, rec) == line[n - 1] &&
      Game(t, line[..n], hist[..n - 1], hashes[..n - 1])
  {
    var n := |hist|;
    var p, q, rec := line[n - 1], line[n], hist[n - 1];
    GameTruncate(t, line, hist, hashes);
    assert Step(p, rec, q);
    assert Inv(p, hist[..n - 1]);
    var sr, sc, er, ec := rec.startRow, rec.startCol, rec.endRow, rec.endCol;
    UndoFactsCastling(p, sr, sc, er, ec);
    UndoFactsPromotion(p, sr, sc, er, ec);
    UndoFactsEpCapture(p, sr, sc, er, ec);
    UndoFactsStart(p, sr, sc, er, ec);
    UndoFactsEnd(p, sr, sc, er, ec);
    UndoFactsCapture(p, sr, sc, er, ec);
  }
}
