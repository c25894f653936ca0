/** What Board.make_move and Board.unmake_move do to a position, as functions:
    one function per block of the source, composed into Apply (make_move),
    Record (the history entry it pushes) and Undo (unmake_move). */
module MoveSpec {
  import opened ChessTypes
  import opened Zobrist

  /** The rook hop that accompanies a king's two-file move from its home square. */
  datatype Castling = NoCastling | Castling(row: int, rookFrom: int, rookTo: int, rook: char)

  /** The four castling shapes make_move recognises, by piece and squares only. */
  function CastlingOf(piece: char, sr: int, sc: int, er: int, ec: int): (k: Castling)
    ensures k.Castling? ==> sr == k.row && er == k.row && sc == 4
    ensures k.Castling? ==> (k.row == 7 && k.rook == 'R' && piece == 'K') || (k.row == 0 && k.rook == 'r' && piece == 'k')
    ensures k.Castling? ==> (ec == 6 && k.rookFrom == 7 && k.rookTo == 5) || (ec == 2 && k.rookFrom == 0 && k.rookTo == 3)
  {
    if piece == 'K' && sr == 7 && sc == 4 && er == 7 && ec == 6 then Castling(7, 7, 5, 'R')
    else if piece == 'K' && sr == 7 && sc == 4 && er == 7 && ec == 2 then Castling(7, 0, 3, 'R')
    else if piece == 'k' && sr == 0 && sc == 4 && er == 0 && ec == 6 then Castling(0, 7, 5, 'r')
    else if piece == 'k' && sr == 0 && sc == 4 && er == 0 && ec == 2 then Castling(0, 0, 3, 'r')
    else NoCastling
  }

  /** A pawn leaving its start row two rows forward. */
  predicate DoubleStep(whitesTurn: bool, piece: char, sr: int, er: int) {
    (whitesTurn && piece == 'P' && sr == 6 && er == 4) ||
    (!whitesTurn && piece == 'p' && sr == 1 && er == 3)
  }

  /** What make_move relies on without checking (it "assumes the move is legal"):
      both squares on the board and distinct, a piece of the side to move on the
      start square (the one condition it does check, by stopping the program), a
      pawn's double step straight ahead over an empty square, and for a castling
      shape the rook on its corner with an empty square to land on. */
  predicate MovePre(p: Position, sr: int, sc: int, er: int, ec: int) {
    var admissible :=
      WfPosition(p) && InBounds(sr, sc) && InBounds(er, ec) && (sr != er || sc != ec) &&
      OwnPiece(p.whitesTurn, p.squares[sr][sc]) &&
      (DoubleStep(p.whitesTurn, p.squares[sr][sc], sr, er) ==>
         sc == ec && p.squares[(sr + er) / 2][sc] == '.') &&
      (var k := CastlingOf(p.squares[sr][sc], sr, sc, er, ec);
       k.Castling? ==> p.squares[k.row][k.rookFrom] == k.rook && p.squares[k.row][k.rookTo] == '.');
    admissible
  }

  /** The row of the pawn an en-passant capture removes: behind the target square
      as seen by the capturing side. */
  function Behind(whitesTurn: bool, er: int): int {
    if whitesTurn then er + 1 else er - 1
  }

  /** The pawn of the side not to move. */
  function EnemyPawn(whitesTurn: bool): char {
    if whitesTurn then 'p' else 'P'
  }

  /** The pawn of the side to move. */
  function Pawn(whitesTurn: bool): char {
    if whitesTurn then 'P' else 'p'
  }

  /** The row where pawns of the side to move promote. */
  function FarRow(whitesTurn: bool): int {
    if whitesTurn then 0 else 7
  }

  /** The queen a pawn of the side to move promotes to. */
  function Queen(whitesTurn: bool): char {
    if whitesTurn then 'Q' else 'q'
  }

  /** A pawn moving onto the en-passant target captures en passant. */
  predicate IsEnPassant(p: Position, sr: int, sc: int, er: int, ec: int)
    requires WfGrid(p.squares) && InBounds(sr, sc)
  {
    Upper(p.squares[sr][sc]) == 'P' && er == p.epRow && ec == p.epCol
  }

  /** An en-passant target always has the captured pawn's square on the board. */
  lemma EnPassantRows(p: Position, sr: int, sc: int, er: int, ec: int)
    requires MovePre(p, sr, sc, er, ec) && IsEnPassant(p, sr, sc, er, ec)
    ensures er == (if p.whitesTurn then 2 else 5)
    ensures InBounds(Behind(p.whitesTurn, er), ec)
  {
  }

  /** The piece taken: the pawn behind the target for an en-passant capture,
      otherwise whatever stands on the destination ('.' for none). */
  function Captured(p: Position, sr: int, sc: int, er: int, ec: int): char
    requires MovePre(p, sr, sc, er, ec)
  {
    if IsEnPassant(p, sr, sc, er, ec) then p.squares[Behind(p.whitesTurn, er)][ec]
    else p.squares[er][ec]
  }

  /** A pawn reaching the far row. */
  predicate Promotes(p: Position, sr: int, sc: int, er: int)
    requires WfGrid(p.squares) && InBounds(sr, sc)
  {
    (p.whitesTurn && er == 0 && p.squares[sr][sc] == 'P') ||
    (!p.whitesTurn && er == 7 && p.squares[sr][sc] == 'p')
  }

  /** The history entry make_move pushes before changing anything. */
  function Record(p: Position, sr: int, sc: int, er: int, ec: int): MoveRecord
    requires MovePre(p, sr, sc, er, ec)
  {
    var promotes := Promotes(p, sr, sc, er);
    MoveRecord(sr, sc, er, ec, p.squares[sr][sc], Captured(p, sr, sc, er, ec),
      IsEnPassant(p, sr, sc, er, ec), p.epRow, p.epCol,
      p.whiteCastled, p.blackCastled,
      p.whiteKs, p.whiteQs, p.blackKs, p.blackQs,
      if promotes then er else -1, if promotes then ec else -1)
  }

  // ---------------------------------------------------------------------------
  // The blocks of make_move, in order.

  /** Everything but the grid is the same in both positions. */
  predicate SameState(q: Position, r: Position) {
    r.whitesTurn == q.whitesTurn &&
    r.whiteKs == q.whiteKs && r.whiteQs == q.whiteQs && r.blackKs == q.blackKs && r.blackQs == q.blackQs &&
    r.whiteCastled == q.whiteCastled && r.blackCastled == q.blackCastled &&
    r.epRow == q.epRow && r.epCol == q.epCol
  }

  /** A pawn's double step gives the opponent an en-passant target when an enemy
      pawn now stands beside it; piece is what stands on the start square. */
  predicate GrantsOn(g: seq<seq<char>>, whitesTurn: bool, piece: char, sr: int, er: int, ec: int)
    requires WfGrid(g) && 0 <= ec < 8
  {
    if whitesTurn && piece == 'P' then
      sr == 6 && er == 4 &&
      ((ec > 0 && g[4][ec - 1] == 'p') || (ec < 7 && g[4][ec + 1] == 'p'))
    else if !whitesTurn && piece == 'p' then
      sr == 1 && er == 3 &&
      ((ec > 0 && g[3][ec - 1] == 'P') || (ec < 7 && g[3][ec + 1] == 'P'))
    else false
  }

  predicate Grants(p: Position, sr: int, sc: int, er: int, ec: int)
    requires WfGrid(p.squares) && InBounds(sr, sc) && InBounds(er, ec)
  {
    GrantsOn(p.squares, p.whitesTurn, p.squares[sr][sc], sr, er, ec)
  }

  /** New en-passant target: the square passed over, or none. */
  function EpStage(p: Position, sr: int, sc: int, er: int, ec: int): (q: Position)
    requires WfGrid(p.squares) && InBounds(sr, sc) && InBounds(er, ec)
    ensures q.squares == p.squares && q.whitesTurn == p.whitesTurn
    ensures q.whiteKs == p.whiteKs && q.whiteQs == p.whiteQs && q.blackKs == p.blackKs && q.blackQs == p.blackQs
    ensures q.whiteCastled == p.whiteCastled && q.blackCastled == p.blackCastled
    ensures WfEnPassant(!p.whitesTurn, q.epRow, q.epCol)
  {
    if Grants(p, sr, sc, er, ec) then p.(epRow := if p.whitesTurn then 5 else 2, epCol := ec)
    else p.(epRow := -1, epCol := -1)
  }

  /** The piece goes from the start square to the destination. */
  function MoveStage(q: Position, sr: int, sc: int, er: int, ec: int): (r: Position)
    requires WfGrid(q.squares) && InBounds(sr, sc) && InBounds(er, ec)
    ensures WfGrid(r.squares) && SameState(q, r)
  {
    q.(squares := Put(Put(q.squares, er, ec, q.squares[sr][sc]), sr, sc, '.'))
  }

  /** An en-passant capture also empties the square of the pawn taken. */
  function EpCaptureStage(q: Position, er: int, ec: int, isEp: bool): (r: Position)
    requires WfGrid(q.squares) && (isEp ==> InBounds(Behind(q.whitesTurn, er), ec))
    ensures WfGrid(r.squares) && SameState(q, r)
  {
    if isEp then q.(squares := Put(q.squares, Behind(q.whitesTurn, er), ec, '.')) else q
  }

  /** A pawn on the far row becomes a queen. */
  function PromotionStage(q: Position, er: int, ec: int): (r: Position)
    requires WfGrid(q.squares) && InBounds(er, ec)
    ensures WfGrid(r.squares) && SameState(q, r)
  {
    if q.whitesTurn && er == 0 && q.squares[er][ec] == 'P' then q.(squares := Put(q.squares, er, ec, 'Q'))
    else if !q.whitesTurn && er == 7 && q.squares[er][ec] == 'p' then q.(squares := Put(q.squares, er, ec, 'q'))
    else q
  }

  /** A castling move also moves the rook and marks that side as castled. */
  function CastlingStage(q: Position, piece: char, sr: int, sc: int, er: int, ec: int): (r: Position)
    requires WfGrid(q.squares)
    ensures WfGrid(r.squares) && r.whitesTurn == q.whitesTurn && r.epRow == q.epRow && r.epCol == q.epCol
    ensures r.whiteKs == q.whiteKs && r.whiteQs == q.whiteQs && r.blackKs == q.blackKs && r.blackQs == q.blackQs
  {
    var k := CastlingOf(piece, sr, sc, er, ec);
    if k.Castling? then
      q.(squares := Put(Put(q.squares, k.row, k.rookTo, q.squares[k.row][k.rookFrom]), k.row, k.rookFrom, '.'),
         whiteCastled := if k.row == 7 then true else q.whiteCastled,
         blackCastled := if k.row == 0 then true else q.blackCastled)
    else q
  }

  /** Whether each castling right survives the move: it is lost when that side's
      king leaves its home square, when that rook leaves its corner, or when the
      opponent captures on that corner. */
  predicate KeepsWhiteKs(whitesTurn: bool, piece: char, captured: char, sr: int, sc: int, er: int, ec: int) {
    !(whitesTurn && piece == 'K' && sr == 7 && sc == 4) &&
    !(whitesTurn && piece == 'R' && sr == 7 && sc == 7) &&
    !(!whitesTurn && captured == 'R' && er == 7 && ec == 7)
  }

  predicate KeepsWhiteQs(whitesTurn: bool, piece: char, captured: char, sr: int, sc: int, er: int, ec: int) {
    !(whitesTurn && piece == 'K' && sr == 7 && sc == 4) &&
    !(whitesTurn && piece == 'R' && sr == 7 && sc == 0) &&
    !(!whitesTurn && captured == 'R' && er == 7 && ec == 0)
  }

  predicate KeepsBlackKs(whitesTurn: bool, piece: char, captured: char, sr: int, sc: int, er: int, ec: int) {
    !(!whitesTurn && piece == 'k' && sr == 0 && sc == 4) &&
    !(!whitesTurn && piece == 'r' && sr == 0 && sc == 7) &&
    !(whitesTurn && captured == 'r' && er == 0 && ec == 7)
  }

  predicate KeepsBlackQs(whitesTurn: bool, piece: char, captured: char, sr: int, sc: int, er: int, ec: int) {
    !(!whitesTurn && piece == 'k' && sr == 0 && sc == 4) &&
    !(!whitesTurn && piece == 'r' && sr == 0 && sc == 0) &&
    !(whitesTurn && captured == 'r' && er == 0 && ec == 0)
  }

  /** Rights are only ever cleared, never granted. */
  function RightsStage(q: Position, piece: char, captured: char, sr: int, sc: int, er: int, ec: int): (r: Position)
    ensures r.squares == q.squares && r.whitesTurn == q.whitesTurn && r.epRow == q.epRow && r.epCol == q.epCol
    ensures r.whiteCastled == q.whiteCastled && r.blackCastled == q.blackCastled
  {
    q.(whiteQs := q.whiteQs && KeepsWhiteQs(q.whitesTurn, piece, captured, sr, sc, er, ec),
       whiteKs := q.whiteKs && KeepsWhiteKs(q.whitesTurn, piece, captured, sr, sc, er, ec),
       blackQs := q.blackQs && KeepsBlackQs(q.whitesTurn, piece, captured, sr, sc, er, ec),
       blackKs := q.blackKs && KeepsBlackKs(q.whitesTurn, piece, captured, sr, sc, er, ec))
  }

  /** The position after each block of make_move, from the position before it. */
  function AfterEp(p: Position, sr: int, sc: int, er: int, ec: int): Position
    requires MovePre(p, sr, sc, er, ec)
  {
    EpStage(p, sr, sc, er, ec)
  }

  function AfterMove(p: Position, sr: int, sc: int, er: int, ec: int): (q: Position)
    requires MovePre(p, sr, sc, er, ec)
    ensures WfGrid(q.squares) && SameState(AfterEp(p, sr, sc, er, ec), q)
  {
    MoveStage(AfterEp(p, sr, sc, er, ec), sr, sc, er, ec)
  }

  function AfterEpCapture(p: Position, sr: int, sc: int, er: int, ec: int): (q: Position)
    requires MovePre(p, sr, sc, er, ec)
    ensures WfGrid(q.squares) && SameState(AfterEp(p, sr, sc, er, ec), q)
  {
    var isEp := IsEnPassant(p, sr, sc, er, ec);
    if isEp then EnPassantRows(p, sr, sc, er, ec); EpCaptureStage(AfterMove(p, sr, sc, er, ec), er, ec, true)
    else EpCaptureStage(AfterMove(p, sr, sc, er, ec), er, ec, false)
  }

  function AfterPromotion(p: Position, sr: int, sc: int, er: int, ec: int): (q: Position)
    requires MovePre(p, sr, sc, er, ec)
    ensures WfGrid(q.squares) && SameState(AfterEp(p, sr, sc, er, ec), q)
  {
    PromotionStage(AfterEpCapture(p, sr, sc, er, ec), er, ec)
  }

  function AfterCastling(p: Position, sr: int, sc: int, er: int, ec: int): (q: Position)
    requires MovePre(p, sr, sc, er, ec)
    ensures WfGrid(q.squares) && q.whitesTurn == p.whitesTurn
    ensures WfEnPassant(!p.whitesTurn, q.epRow, q.epCol)
    ensures q.whiteKs == p.whiteKs && q.whiteQs == p.whiteQs && q.blackKs == p.blackKs && q.blackQs == p.blackQs
  {
    CastlingStage(AfterPromotion(p, sr, sc, er, ec), p.squares[sr][sc], sr, sc, er, ec)
  }

  function AfterRights(p: Position, sr: int, sc: int, er: int, ec: int): (q: Position)
    requires MovePre(p, sr, sc, er, ec)
    ensures WfGrid(q.squares) && q.whitesTurn == p.whitesTurn
    ensures WfEnPassant(!p.whitesTurn, q.epRow, q.epCol)
  {
    RightsStage(AfterCastling(p, sr, sc, er, ec), p.squares[sr][sc], Captured(p, sr, sc, er, ec), sr, sc, er, ec)
  }

  /** The position make_move leaves: every block, then the turn passes. */
  function Apply(p: Position, sr: int, sc: int, er: int, ec: int): (q: Position)
    requires MovePre(p, sr, sc, er, ec)
    ensures WfGrid(q.squares) && q.whitesTurn == !p.whitesTurn
  {
    var r := AfterRights(p, sr, sc, er, ec);
    r.(whitesTurn := !r.whitesTurn)
  }

  // ---------------------------------------------------------------------------
  // The blocks of unmake_move, in order; each takes the position before it.

  function UndoTurn(q: Position): (r: Position)
    ensures r.squares == q.squares
  {
    q.(whitesTurn := !q.whitesTurn)
  }

  function UndoCastled(q: Position, rec: MoveRecord): (r: Position)
    ensures r.squares == q.squares && r.whitesTurn == q.whitesTurn
  {
    q.(whiteCastled := rec.priorWhiteCastled, blackCastled := rec.priorBlackCastled)
  }

  /** The en-passant target is put back (the source only writes it when it
      differs, which comes to the same position). */
  function UndoEp(q: Position, rec: MoveRecord): (r: Position)
    ensures r.squares == q.squares && r.whitesTurn == q.whitesTurn
  {
    q.(epRow := rec.priorEpRow, epCol := rec.priorEpCol)
  }

  function UndoRights(q: Position, rec: MoveRecord): (r: Position)
    ensures r.squares == q.squares && r.whitesTurn == q.whitesTurn
  {
    q.(whiteKs := rec.priorWhiteKs, whiteQs := rec.priorWhiteQs,
       blackKs := rec.priorBlackKs, blackQs := rec.priorBlackQs)
  }

  /** A castling move's rook goes back to its corner; the corner gets the rook
      letter itself, not what stood on the square the rook went to. */
  function UndoCastling(q: Position, rec: MoveRecord): (r: Position)
    requires WfGrid(q.squares)
    ensures WfGrid(r.squares) && SameState(q, r)
  {
    var k := CastlingOf(rec.piece, rec.startRow, rec.startCol, rec.endRow, rec.endCol);
    if k.Castling? then
      q.(squares := Put(Put(q.squares, k.row, k.rookTo, '.'), k.row, k.rookFrom, k.rook))
    else q
  }

  /** A promotion is undone by writing the mover's pawn on the promotion square. */
  function UndoPromotion(q: Position, rec: MoveRecord): (r: Position)
    requires WfGrid(q.squares)
    requires (rec.promoRow != -1 || rec.promoCol != -1) ==> 0 <= rec.promoCol < 8
    ensures WfGrid(r.squares) && SameState(q, r)
  {
    if rec.promoRow != -1 || rec.promoCol != -1
    then q.(squares := Put(q.squares, FarRow(q.whitesTurn), rec.promoCol, Pawn(q.whitesTurn)))
    else q
  }

  /** The pawn taken en passant comes back behind the target square. */
  function UndoEpCapture(q: Position, rec: MoveRecord): (r: Position)
    requires WfGrid(q.squares)
    requires rec.isEnPassant ==> InBounds(Behind(q.whitesTurn, rec.endRow), rec.endCol)
    ensures WfGrid(r.squares) && SameState(q, r)
  {
    if rec.isEnPassant then
      q.(squares := Put(q.squares, Behind(q.whitesTurn, rec.endRow), rec.endCol, EnemyPawn(q.whitesTurn)))
    else q
  }

  /** The piece on the destination goes back to the start square. */
  function UndoSource(q: Position, rec: MoveRecord): (r: Position)
    requires WfGrid(q.squares)
    requires InBounds(rec.startRow, rec.startCol) && InBounds(rec.endRow, rec.endCol)
    ensures WfGrid(r.squares) && SameState(q, r)
  {
    q.(squares := Put(Put(q.squares, rec.startRow, rec.startCol, q.squares[rec.endRow][rec.endCol]),
                      rec.endRow, rec.endCol, '.'))
  }

  /** A piece captured normally comes back on the destination. */
  function UndoCapture(q: Position, rec: MoveRecord): (r: Position)
    requires WfGrid(q.squares) && InBounds(rec.endRow, rec.endCol) && IsSquareChar(rec.captured)
    ensures WfGrid(r.squares) && SameState(q, r)
  {
    if rec.captured != '.' && !rec.isEnPassant then
      q.(squares := Put(q.squares, rec.endRow, rec.endCol, rec.captured))
    else q
  }

  /** What unmake_move needs of the last record to avoid its fatal errors and
      to stay on the board: the squares are on the board, a promotion square is
      the destination on the mover's far row, and an en-passant pawn's square
      is on the board. q is the position before the undo, so the mover is the
      side not to move in q. */
  predicate Undoable(q: Position, rec: MoveRecord) {
    var consistent :=
      WfGrid(q.squares) &&
      InBounds(rec.startRow, rec.startCol) && InBounds(rec.endRow, rec.endCol) &&
      IsSquareChar(rec.captured) &&
      ((rec.promoRow == -1 && rec.promoCol == -1) ||
       (rec.promoRow == rec.endRow && rec.promoCol == rec.endCol &&
        rec.promoRow == (if q.whitesTurn then 7 else 0))) &&
      (rec.isEnPassant ==> InBounds(Behind(!q.whitesTurn, rec.endRow), rec.endCol));
    consistent
  }

  /** The position after each block of unmake_move. */
  function BeforeCastlingBack(q: Position, rec: MoveRecord): (r: Position)
    ensures r.squares == q.squares && r.whitesTurn == !q.whitesTurn
  {
    UndoRights(UndoEp(UndoCastled(UndoTurn(q), rec), rec), rec)
  }

  function AfterCastlingBack(q: Position, rec: MoveRecord): (r: Position)
    requires Undoable(q, rec)
    ensures WfGrid(r.squares) && SameState(BeforeCastlingBack(q, rec), r)
  {
    UndoCastling(BeforeCastlingBack(q, rec), rec)
  }

  function AfterPromotionBack(q: Position, rec: MoveRecord): (r: Position)
    requires Undoable(q, rec)
    ensures WfGrid(r.squares) && SameState(BeforeCastlingBack(q, rec), r)
  {
    UndoPromotion(AfterCastlingBack(q, rec), rec)
  }

  function AfterEpBack(q: Position, rec: MoveRecord): (r: Position)
    requires Undoable(q, rec)
    ensures WfGrid(r.squares) && SameState(BeforeCastlingBack(q, rec), r)
  {
    UndoEpCapture(AfterPromotionBack(q, rec), rec)
  }

  function AfterSourceBack(q: Position, rec: MoveRecord): (r: Position)
    requires Undoable(q, rec)
    ensures WfGrid(r.squares) && SameState(BeforeCastlingBack(q, rec), r)
  {
    UndoSource(AfterEpBack(q, rec), rec)
  }

  /** The position unmake_move leaves. */
  function Undo(q: Position, rec: MoveRecord): Position
    requires Undoable(q, rec)
  {
    UndoCapture(AfterSourceBack(q, rec), rec)
  }

  // ---------------------------------------------------------------------------
  // The squares after a move.

  /** What make_move leaves on square (i, j): the start square empties, the
      destination gets the piece (a queen for a pawn reaching the far row), an
      en-passant capture empties the taken pawn's square, castling moves the
      rook next to the king, and every other square is unchanged. */
  function SquareAfter(p: Position, sr: int, sc: int, er: int, ec: int, i: int, j: int): char
    requires MovePre(p, sr, sc, er, ec) && InBounds(i, j)
  {
    var piece := p.squares[sr][sc];
    var k := CastlingOf(piece, sr, sc, er, ec);
    if i == sr && j == sc then '.'
    else if i == er && j == ec then (if Promotes(p, sr, sc, er) then Queen(p.whitesTurn) else piece)
    else if IsEnPassant(p, sr, sc, er, ec) && i == Behind(p.whitesTurn, er) && j == ec then '.'
    else if k.Castling? && i == k.row && j == k.rookTo then k.rook
    else if k.Castling? && i == k.row && j == k.rookFrom then '.'
    else p.squares[i][j]
  }

  lemma MoveStageAt(q: Position, sr: int, sc: int, er: int, ec: int, i: int, j: int)
    requires WfGrid(q.squares) && InBounds(sr, sc) && InBounds(er, ec) && InBounds(i, j)
    ensures MoveStage(q, sr, sc, er, ec).squares[i][j] ==
      if i == sr && j == sc then '.' else if i == er && j == ec then q.squares[sr][sc] else q.squares[i][j]
  {
  }

  lemma EpCaptureStageAt(q: Position, er: int, ec: int, isEp: bool, i: int, j: int)
    requires WfGrid(q.squares) && (isEp ==> InBounds(Behind(q.whitesTurn, er), ec)) && InBounds(i, j)
    ensures EpCaptureStage(q, er, ec, isEp).squares[i][j] ==
      if isEp && i == Behind(q.whitesTurn, er) && j == ec then '.' else q.squares[i][j]
  {
  }

  lemma PromotionStageAt(q: Position, er: int, ec: int, i: int, j: int)
    requires WfGrid(q.squares) && InBounds(er, ec) && InBounds(i, j)
    ensures PromotionStage(q, er, ec).squares[i][j] ==
      if i == er && j == ec &&
         ((q.whitesTurn && er == 0 && q.squares[er][ec] == 'P') || (!q.whitesTurn && er == 7 && q.squares[er][ec] == 'p'))
      then Queen(q.whitesTurn) else q.squares[i][j]
  {
  }

  lemma CastlingStageAt(q: Position, piece: char, sr: int, sc: int, er: int, ec: int, i: int, j: int)
    requires WfGrid(q.squares) && InBounds(i, j)
    ensures var k := CastlingOf(piece, sr, sc, er, ec);
      CastlingStage(q, piece, sr, sc, er, ec).squares[i][j] ==
      if k.Castling? && i == k.row && j == k.rookTo then q.squares[k.row][k.rookFrom]
      else if k.Castling? && i == k.row && j == k.rookFrom then '.'
      else q.squares[i][j]
  {
  }

  /** The squares after each block of make_move, from those before the move. */
  lemma AfterEpCaptureAt(p: Position, sr: int, sc: int, er: int, ec: int, i: int, j: int)
    requires MovePre(p, sr, sc, er, ec) && InBounds(i, j)
    ensures AfterEpCapture(p, sr, sc, er, ec).squares[i][j] ==
      if IsEnPassant(p, sr, sc, er, ec) && i == Behind(p.whitesTurn, er) && j == ec then '.'
      else if i == sr && j == sc then '.' else if i == er && j == ec then p.squares[sr][sc] else p.squares[i][j]
  {
    var isEp := IsEnPassant(p, sr, sc, er, ec);
    if isEp {
      EnPassantRows(p, sr, sc, er, ec);
    }
    MoveStageAt(AfterEp(p, sr, sc, er, ec), sr, sc, er, ec, i, j);
    EpCaptureStageAt(AfterMove(p, sr, sc, er, ec), er, ec, isEp, i, j);
  }

  lemma AfterPromotionAt(p: Position, sr: int, sc: int, er: int, ec: int, i: int, j: int)
    requires MovePre(p, sr, sc, er, ec) && InBounds(i, j)
    ensures AfterPromotion(p, sr, sc, er, ec).squares[i][j] ==
      if i == er && j == ec && Promotes(p, sr, sc, er) then Queen(p.whitesTurn)
      else AfterEpCapture(p, sr, sc, er, ec).squares[i][j]
  {
    PromotionStageAt(AfterEpCapture(p, sr, sc, er, ec), er, ec, i, j);
    AfterEpCaptureAt(p, sr, sc, er, ec, er, ec);
  }

  lemma AfterCastlingAt(p: Position, sr: int, sc: int, er: int, ec: int, i: int, j: int)
    requires MovePre(p, sr, sc, er, ec) && InBounds(i, j)
    ensures var k := CastlingOf(p.squares[sr][sc], sr, sc, er, ec);
      AfterCastling(p, sr, sc, er, ec).squares[i][j] ==
      if k.Castling? && i == k.row && j == k.rookTo then k.rook
      else if k.Castling? && i == k.row && j == k.rookFrom then '.'
      else AfterPromotion(p, sr, sc, er, ec).squares[i][j]
  {
    var k := CastlingOf(p.squares[sr][sc], sr, sc, er, ec);
    CastlingStageAt(AfterPromotion(p, sr, sc, er, ec), p.squares[sr][sc], sr, sc, er, ec, i, j);
    if k.Castling? {
      AfterPromotionAt(p, sr, sc, er, ec, k.row, k.rookFrom);
      AfterEpCaptureAt(p, sr, sc, er, ec, k.row, k.rookFrom);
    }
  }

  /** make_move leaves SquareAfter on square (i, j). */
  lemma ApplyAtPoint(p: Position, sr: int, sc: int, er: int, ec: int, i: int, j: int)
    requires MovePre(p, sr, sc, er, ec) && InBounds(i, j)
    ensures Apply(p, sr, sc, er, ec).squares[i][j] == SquareAfter(p, sr, sc, er, ec, i, j)
  {
    AfterCastlingAt(p, sr, sc, er, ec, i, j);
    AfterPromotionAt(p, sr, sc, er, ec, i, j);
    AfterEpCaptureAt(p, sr, sc, er, ec, i, j);
  }

  /** Square by square, make_move leaves SquareAfter. */
  lemma ApplyAt(p: Position, sr: int, sc: int, er: int, ec: int)
    requires MovePre(p, sr, sc, er, ec)
    ensures WfGrid(Apply(p, sr, sc, er, ec).squares)
    ensures forall i, j :: InBounds(i, j) ==>
      Apply(p, sr, sc, er, ec).squares[i][j] == SquareAfter(p, sr, sc, er, ec, i, j)
  {
    forall i, j | InBounds(i, j)
      ensures Apply(p, sr, sc, er, ec).squares[i][j] == SquareAfter(p, sr, sc, er, ec, i, j)
    {
      ApplyAtPoint(p, sr, sc, er, ec, i, j);
    }
  }

  // ---------------------------------------------------------------------------
  // The rest of the state after a move.

  /** make_move passes the turn and leaves a well-formed position. */
  lemma ApplyWf(p: Position, sr: int, sc: int, er: int, ec: int)
    requires MovePre(p, sr, sc, er, ec)
    ensures Apply(p, sr, sc, er, ec).whitesTurn == !p.whitesTurn
    ensures WfPosition(Apply(p, sr, sc, er, ec))
  {
  }

  /** Castling rights are only ever cleared. A king leaving its home square
      clears both of its side's rights; a rook leaving its corner, or being
      captured there, clears that corner's right; nothing else clears one. */
  lemma RightsAfterMove(p: Position, sr: int, sc: int, er: int, ec: int)
    requires MovePre(p, sr, sc, er, ec)
    ensures var q := Apply(p, sr, sc, er, ec);
      (q.whiteKs ==> p.whiteKs) && (q.whiteQs ==> p.whiteQs) &&
      (q.blackKs ==> p.blackKs) && (q.blackQs ==> p.blackQs)
    ensures var q := Apply(p, sr, sc, er, ec); var piece := p.squares[sr][sc];
      (piece == 'K' && sr == 7 && sc == 4 ==> !q.whiteKs && !q.whiteQs) &&
      (piece == 'k' && sr == 0 && sc == 4 ==> !q.blackKs && !q.blackQs)
    ensures var q := Apply(p, sr, sc, er, ec); var piece := p.squares[sr][sc];
      (piece == 'R' && sr == 7 && sc == 7 ==> !q.whiteKs) &&
      (piece == 'R' && sr == 7 && sc == 0 ==> !q.whiteQs) &&
      (piece == 'r' && sr == 0 && sc == 7 ==> !q.blackKs) &&
      (piece == 'r' && sr == 0 && sc == 0 ==> !q.blackQs)
    ensures var q := Apply(p, sr, sc, er, ec); var cap := Captured(p, sr, sc, er, ec);
      (!p.whitesTurn && cap == 'R' && er == 7 && ec == 7 ==> !q.whiteKs) &&
      (!p.whitesTurn && cap == 'R' && er == 7 && ec == 0 ==> !q.whiteQs) &&
      (p.whitesTurn && cap == 'r' && er == 0 && ec == 7 ==> !q.blackKs) &&
      (p.whitesTurn && cap == 'r' && er == 0 && ec == 0 ==> !q.blackQs)
    ensures var q := Apply(p, sr, sc, er, ec);
      (p.whiteKs && !q.whiteKs ==> (sr == 7 && (sc == 4 || sc == 7)) || (er == 7 && ec == 7)) &&
      (p.whiteQs && !q.whiteQs ==> (sr == 7 && (sc == 4 || sc == 0)) || (er == 7 && ec == 0)) &&
      (p.blackKs && !q.blackKs ==> (sr == 0 && (sc == 4 || sc == 7)) || (er == 0 && ec == 7)) &&
      (p.blackQs && !q.blackQs ==> (sr == 0 && (sc == 4 || sc == 0)) || (er == 0 && ec == 0))
  {
  }

  /** The castled flags: set by a castling move of that side, otherwise kept. */
  lemma CastledAfterMove(p: Position, sr: int, sc: int, er: int, ec: int)
    requires MovePre(p, sr, sc, er, ec)
    ensures var q := Apply(p, sr, sc, er, ec); var k := CastlingOf(p.squares[sr][sc], sr, sc, er, ec);
      q.whiteCastled == (p.whiteCastled || (k.Castling? && k.row == 7)) &&
      q.blackCastled == (p.blackCastled || (k.Castling? && k.row == 0))
  {
  }

  /** A pawn of the side to move now stands beside the square (er, ec). */
  predicate EnemyPawnBeside(g: seq<seq<char>>, whitesTurn: bool, er: int, ec: int)
    requires WfGrid(g) && InBounds(er, ec)
  {
    (ec > 0 && g[er][ec - 1] == EnemyPawn(!whitesTurn)) ||
    (ec < 7 && g[er][ec + 1] == EnemyPawn(!whitesTurn))
  }

  /** The en-passant target make_move leaves is the one its first block set. */
  lemma EnPassantFields(p: Position, sr: int, sc: int, er: int, ec: int)
    requires MovePre(p, sr, sc, er, ec)
    ensures var q := Apply(p, sr, sc, er, ec);
      q.epRow == (if Grants(p, sr, sc, er, ec) then (if p.whitesTurn then 5 else 2) else -1) &&
      q.epCol == (if Grants(p, sr, sc, er, ec) then ec else -1)
  {
    var q1 := AfterEp(p, sr, sc, er, ec);
    assert AfterPromotion(p, sr, sc, er, ec).epRow == q1.epRow;
    assert AfterPromotion(p, sr, sc, er, ec).epCol == q1.epCol;
  }

  /** After a move there is an en-passant target exactly when a pawn made its
      double step and an enemy pawn now stands beside it; the target is then
      the square it passed over. */
  lemma EnPassantAfterMove(p: Position, sr: int, sc: int, er: int, ec: int)
    requires MovePre(p, sr, sc, er, ec)
    ensures var q := Apply(p, sr, sc, er, ec);
      (q.epRow != -1) <==>
        (DoubleStep(p.whitesTurn, p.squares[sr][sc], sr, er) && EnemyPawnBeside(q.squares, q.whitesTurn, er, ec))
    ensures var q := Apply(p, sr, sc, er, ec);
      q.epRow != -1 ==> q.epRow == (sr + er) / 2 && q.epCol == ec && q.epCol == sc
    ensures var q := Apply(p, sr, sc, er, ec);
      q.epRow == -1 ==> q.epCol == -1
  {
    EnPassantFields(p, sr, sc, er, ec);
    if DoubleStep(p.whitesTurn, p.squares[sr][sc], sr, er) {
      if ec > 0 {
        ApplyAtPoint(p, sr, sc, er, ec, er, ec - 1);
      }
      if ec < 7 {
        ApplyAtPoint(p, sr, sc, er, ec, er, ec + 1);
      }
    }
  }

  // ---------------------------------------------------------------------------
  // The squares after an undo.

  lemma UndoCastlingAt(q: Position, rec: MoveRecord, i: int, j: int)
    requires WfGrid(q.squares) && InBounds(i, j)
    ensures var k := CastlingOf(rec.piece, rec.startRow, rec.startCol, rec.endRow, rec.endCol);
      UndoCastling(q, rec).squares[i][j] ==
      if k.Castling? && i == k.row && j == k.rookTo then '.'
      else if k.Castling? && i == k.row && j == k.rookFrom then k.rook
      else q.squares[i][j]
  {
  }

  /** The recorded promotion square of `rec` is its destination, on the far row
      of the side `whitesTurn`: what the source checks before undoing a
      promotion. */
  predicate PromotionSquareOk(whitesTurn: bool, rec: MoveRecord) {
    var ok := (rec.promoRow != -1 || rec.promoCol != -1) ==>
      rec.promoRow == rec.endRow && rec.promoCol == rec.endCol && rec.endRow == FarRow(whitesTurn);
    ok
  }

  /** ... and the promoted queen stands there. */
  predicate PromotionUndoable(q: Position, rec: MoveRecord) {
    var ok := WfGrid(q.squares) && InBounds(rec.endRow, rec.endCol) && PromotionSquareOk(q.whitesTurn, rec) &&
      ((rec.promoRow != -1 || rec.promoCol != -1) ==> q.squares[rec.endRow][rec.endCol] == Queen(q.whitesTurn));
    ok
  }

  lemma UndoPromotionAt(q: Position, rec: MoveRecord, i: int, j: int)
    requires WfGrid(q.squares) && InBounds(i, j)
    requires (rec.promoRow != -1 || rec.promoCol != -1) ==> 0 <= rec.promoCol < 8
    ensures UndoPromotion(q, rec).squares[i][j] ==
      if (rec.promoRow != -1 || rec.promoCol != -1) && i == (if q.whitesTurn then 0 else 7) && j == rec.promoCol
      then (if q.whitesTurn then 'P' else 'p')
      else q.squares[i][j]
  {
  }

  lemma UndoEpCaptureAt(q: Position, rec: MoveRecord, i: int, j: int)
    requires WfGrid(q.squares) && InBounds(i, j)
    requires rec.isEnPassant ==> InBounds(Behind(q.whitesTurn, rec.endRow), rec.endCol)
    ensures UndoEpCapture(q, rec).squares[i][j] ==
      if rec.isEnPassant && i == Behind(q.whitesTurn, rec.endRow) && j == rec.endCol then EnemyPawn(q.whitesTurn)
      else q.squares[i][j]
  {
  }

  lemma UndoSourceAt(q: Position, rec: MoveRecord, i: int, j: int)
    requires WfGrid(q.squares) && InBounds(i, j)
    requires InBounds(rec.startRow, rec.startCol) && InBounds(rec.endRow, rec.endCol)
    ensures UndoSource(q, rec).squares[i][j] ==
      if i == rec.endRow && j == rec.endCol then '.'
      else if i == rec.startRow && j == rec.startCol then q.squares[rec.endRow][rec.endCol]
      else q.squares[i][j]
  {
  }

  lemma UndoCaptureAt(q: Position, rec: MoveRecord, i: int, j: int)
    requires WfGrid(q.squares) && InBounds(rec.endRow, rec.endCol) && IsSquareChar(rec.captured) && InBounds(i, j)
    ensures UndoCapture(q, rec).squares[i][j] ==
      if rec.captured != '.' && !rec.isEnPassant && i == rec.endRow && j == rec.endCol then rec.captured
      else q.squares[i][j]
  {
  }

  /** The en-passant target, when there is one, is empty and has the pawn that
      made the double step behind it. */
  predicate EpTargetSound(p: Position)
    requires WfPosition(p)
  {
    p.epRow == -1 ||
    (p.squares[p.epRow][p.epCol] == '.' &&
     p.squares[Behind(p.whitesTurn, p.epRow)][p.epCol] == EnemyPawn(p.whitesTurn))
  }

  /** The record of a move is one unmake_move accepts on the position after it. */
  lemma RecordUndoable(p: Position, sr: int, sc: int, er: int, ec: int)
    requires MovePre(p, sr, sc, er, ec)
    ensures Undoable(Apply(p, sr, sc, er, ec), Record(p, sr, sc, er, ec))
  {
    var rec := Record(p, sr, sc, er, ec);
    if rec.isEnPassant {
      EnPassantRows(p, sr, sc, er, ec);
      assert InBounds(Behind(p.whitesTurn, er), ec);
    }
  }

  /** The squares after each block of unmake_move, from those before it. */
  lemma CastlingBackAt(q: Position, rec: MoveRecord, i: int, j: int)
    requires Undoable(q, rec) && InBounds(i, j)
    ensures var k := CastlingOf(rec.piece, rec.startRow, rec.startCol, rec.endRow, rec.endCol);
      AfterCastlingBack(q, rec).squares[i][j] ==
      if k.Castling? && i == k.row && j == k.rookTo then '.'
      else if k.Castling? && i == k.row && j == k.rookFrom then k.rook
      else q.squares[i][j]
  {
    UndoCastlingAt(BeforeCastlingBack(q, rec), rec, i, j);
  }

  lemma PromotionBackAt(q: Position, rec: MoveRecord, i: int, j: int)
    requires Undoable(q, rec) && InBounds(i, j)
    ensures AfterPromotionBack(q, rec).squares[i][j] ==
      if rec.promoRow != -1 && i == rec.endRow && j == rec.endCol then (if q.whitesTurn then 'p' else 'P')
      else AfterCastlingBack(q, rec).squares[i][j]
  {
    UndoPromotionAt(AfterCastlingBack(q, rec), rec, i, j);
  }

  lemma EpBackAt(q: Position, rec: MoveRecord, i: int, j: int)
    requires Undoable(q, rec) && InBounds(i, j)
    ensures AfterEpBack(q, rec).squares[i][j] ==
      if rec.isEnPassant && i == Behind(!q.whitesTurn, rec.endRow) && j == rec.endCol then EnemyPawn(!q.whitesTurn)
      else AfterPromotionBack(q, rec).squares[i][j]
  {
    UndoEpCaptureAt(AfterPromotionBack(q, rec), rec, i, j);
  }

  lemma SourceBackAt(q: Position, rec: MoveRecord, i: int, j: int)
    requires Undoable(q, rec) && InBounds(i, j)
    ensures AfterSourceBack(q, rec).squares[i][j] ==
      if i == rec.endRow && j == rec.endCol then '.'
      else if i == rec.startRow && j == rec.startCol then AfterEpBack(q, rec).squares[rec.endRow][rec.endCol]
      else AfterEpBack(q, rec).squares[i][j]
  {
    UndoSourceAt(AfterEpBack(q, rec), rec, i, j);
  }

  lemma CaptureBackAt(q: Position, rec: MoveRecord, i: int, j: int)
    requires Undoable(q, rec) && InBounds(i, j)
    ensures Undo(q, rec).squares[i][j] ==
      if rec.captured != '.' && !rec.isEnPassant && i == rec.endRow && j == rec.endCol then rec.captured
      else AfterSourceBack(q, rec).squares[i][j]
  {
    UndoCaptureAt(AfterSourceBack(q, rec), rec, i, j);
  }

  lemma RoundTripAt(p: Position, sr: int, sc: int, er: int, ec: int, i: int, j: int)
    requires MovePre(p, sr, sc, er, ec) && EpTargetSound(p) && InBounds(i, j)
    requires Undoable(Apply(p, sr, sc, er, ec), Record(p, sr, sc, er, ec))
    ensures Undo(Apply(p, sr, sc, er, ec), Record(p, sr, sc, er, ec)).squares[i][j] == p.squares[i][j]
  {
    var q := Apply(p, sr, sc, er, ec);
    var rec := Record(p, sr, sc, er, ec);
    CaptureBackAt(q, rec, i, j);
    SourceBackAt(q, rec, i, j);
    EpBackAt(q, rec, i, j);
    PromotionBackAt(q, rec, i, j);
    CastlingBackAt(q, rec, i, j);
    ApplyAtPoint(p, sr, sc, er, ec, i, j);
    EpBackAt(q, rec, er, ec);
    PromotionBackAt(q, rec, er, ec);
    CastlingBackAt(q, rec, er, ec);
    ApplyAtPoint(p, sr, sc, er, ec, er, ec);
    if IsEnPassant(p, sr, sc, er, ec) {
      EnPassantRows(p, sr, sc, er, ec);
    }
  }

  /** unmake_move undoes make_move exactly: the record make_move pushes takes
      the position it leaves back to the one it started from. */
  lemma RoundTrip(p: Position, sr: int, sc: int, er: int, ec: int)
    requires MovePre(p, sr, sc, er, ec) && EpTargetSound(p)
    ensures Undoable(Apply(p, sr, sc, er, ec), Record(p, sr, sc, er, ec))
    ensures Undo(Apply(p, sr, sc, er, ec), Record(p, sr, sc, er, ec)) == p
  {
    var q := Apply(p, sr, sc, er, ec);
    var rec := Record(p, sr, sc, er, ec);
    RecordUndoable(p, sr, sc, er, ec);
    var u := Undo(q, rec);
    forall i, j | 0 <= i < 8 && 0 <= j < 8 ensures u.squares[i][j] == p.squares[i][j] {
      RoundTripAt(p, sr, sc, er, ec, i, j);
    }
    GridExt(u.squares, p.squares);
  }

  // ---------------------------------------------------------------------------
  // What stays true along a game.

  predicate StartsAt(rec: MoveRecord, row: int, col: int) {
    rec.startRow == row && rec.startCol == col
  }

  predicate EndsAt(rec: MoveRecord, row: int, col: int) {
    rec.endRow == row && rec.endCol == col
  }

  /** The history scan valid_moves makes before castling with the rook on
      (row, rookCol): no recorded move started on the king's home square or on
      the rook's corner, and none ended on the corner. It looks at coordinates
      only, whatever piece moved. */
  predicate CastlingScanClear(hist: seq<MoveRecord>, row: int, rookCol: int) {
    forall i :: 0 <= i < |hist| ==>
      !StartsAt(hist[i], row, 4) && !StartsAt(hist[i], row, rookCol) && !EndsAt(hist[i], row, rookCol)
  }

  /** No recorded move started on (row, col). */
  predicate NeverLeft(hist: seq<MoveRecord>, row: int, col: int) {
    forall i :: 0 <= i < |hist| ==> !StartsAt(hist[i], row, col)
  }

  function HomeRook(row: int): char {
    if row == 7 then 'R' else 'r'
  }

  function HomeKing(row: int): char {
    if row == 7 then 'K' else 'k'
  }

  predicate NoPiece(g: seq<seq<char>>, x: char)
    requires WfGrid(g)
  {
    forall r, c :: 0 <= r < 8 && 0 <= c < 8 ==> g[r][c] != x
  }

  predicate AtMostOne(g: seq<seq<char>>, x: char)
    requires WfGrid(g)
  {
    forall r1, c1, r2, c2 ::
      0 <= r1 < 8 && 0 <= c1 < 8 && 0 <= r2 < 8 && 0 <= c2 < 8 && g[r1][c1] == x && g[r2][c2] == x ==>
      r1 == r2 && c1 == c2
  }

  /** A rook whose corner passes the castling scan is still on it. */
  predicate RookHome(p: Position, hist: seq<MoveRecord>, row: int, rookCol: int)
    requires WfPosition(p) && InBounds(row, rookCol)
  {
    CastlingScanClear(hist, row, rookCol) ==> p.squares[row][rookCol] == HomeRook(row)
  }

  /** A king that never left its home square is still on it, unless that side
      has no king at all. */
  predicate KingHome(p: Position, hist: seq<MoveRecord>, row: int)
    requires WfPosition(p) && 0 <= row < 8
  {
    NeverLeft(hist, row, 4) ==> p.squares[row][4] == HomeKing(row) || NoPiece(p.squares, HomeKing(row))
  }

  /** What holds of every position reached from the start by make_move, given
      the history that led to it. It is what lets valid_moves' castling probe
      call make_move on the king's home square. */
  predicate Inv(p: Position, hist: seq<MoveRecord>) {
    WfPosition(p) && EpTargetSound(p) &&
    RookHome(p, hist, 7, 7) && RookHome(p, hist, 7, 0) && RookHome(p, hist, 0, 7) && RookHome(p, hist, 0, 0) &&
    KingHome(p, hist, 7) && KingHome(p, hist, 0) &&
    AtMostOne(p.squares, 'K') && AtMostOne(p.squares, 'k')
  }

  lemma StartKings(r: int, c: int)
    requires InBounds(r, c)
    ensures StartSquares[r][c] == 'K' ==> r == 7 && c == 4
    ensures StartSquares[r][c] == 'k' ==> r == 0 && c == 4
  {
    assert r == 0 || r == 1 || r == 2 || r == 3 || r == 4 || r == 5 || r == 6 || r == 7;
  }

  lemma InvStart()
    ensures Inv(StartPosition, [])
  {
    StartPositionWf();
    forall r, c | InBounds(r, c)
      ensures (StartSquares[r][c] == 'K' ==> r == 7 && c == 4) && (StartSquares[r][c] == 'k' ==> r == 0 && c == 4)
    {
      StartKings(r, c);
    }
  }

  lemma EpSoundStep(p: Position, sr: int, sc: int, er: int, ec: int)
    requires MovePre(p, sr, sc, er, ec)
    ensures WfPosition(Apply(p, sr, sc, er, ec)) && EpTargetSound(Apply(p, sr, sc, er, ec))
  {
    ApplyWf(p, sr, sc, er, ec);
    EnPassantFields(p, sr, sc, er, ec);
    if Grants(p, sr, sc, er, ec) {
      ApplyAtPoint(p, sr, sc, er, ec, (sr + er) / 2, ec);
      ApplyAtPoint(p, sr, sc, er, ec, er, ec);
    }
  }

  lemma RookHomeStep(p: Position, hist: seq<MoveRecord>, sr: int, sc: int, er: int, ec: int, row: int, rookCol: int)
    requires MovePre(p, sr, sc, er, ec) && EpTargetSound(p)
    requires (row == 0 || row == 7) && (rookCol == 0 || rookCol == 7)
    requires RookHome(p, hist, row, rookCol)
    ensures WfPosition(Apply(p, sr, sc, er, ec))
    ensures RookHome(Apply(p, sr, sc, er, ec), hist + [Record(p, sr, sc, er, ec)], row, rookCol)
  {
    ApplyWf(p, sr, sc, er, ec);
    var hist' := hist + [Record(p, sr, sc, er, ec)];
    if CastlingScanClear(hist', row, rookCol) {
      assert CastlingScanClear(hist, row, rookCol) by {
        forall i | 0 <= i < |hist| ensures hist'[i] == hist[i] { }
      }
      assert !StartsAt(hist'[|hist|], row, 4);
      RookStays(p, sr, sc, er, ec, row, rookCol);
    }
  }

  /** A rook on its corner stays there through a move that neither starts on
      the corner or the king's home square nor ends on the corner. */
  lemma RookStays(p: Position, sr: int, sc: int, er: int, ec: int, row: int, rookCol: int)
    requires MovePre(p, sr, sc, er, ec) && EpTargetSound(p)
    requires (row == 0 || row == 7) && (rookCol == 0 || rookCol == 7)
    requires p.squares[row][rookCol] == HomeRook(row)
    requires !(sr == row && sc == rookCol) && !(sr == row && sc == 4) && !(er == row && ec == rookCol)
    ensures Apply(p, sr, sc, er, ec).squares[row][rookCol] == HomeRook(row)
  {
    if IsEnPassant(p, sr, sc, er, ec) {
      EnPassantRows(p, sr, sc, er, ec);
    }
    var k := CastlingOf(p.squares[sr][sc], sr, sc, er, ec);
    assert k.Castling? ==> k.row != row;
    assert SquareAfter(p, sr, sc, er, ec, row, rookCol) == p.squares[row][rookCol];
    ApplyAtPoint(p, sr, sc, er, ec, row, rookCol);
  }

  /** Where a king on the board after a move came from. */
  lemma KingOrigin(p: Position, sr: int, sc: int, er: int, ec: int, i: int, j: int, king: char)
    requires MovePre(p, sr, sc, er, ec) && InBounds(i, j) && (king == 'K' || king == 'k')
    requires Apply(p, sr, sc, er, ec).squares[i][j] == king
    ensures (i == er && j == ec && p.squares[sr][sc] == king) ||
            (!(i == sr && j == sc) && !(i == er && j == ec) && p.squares[i][j] == king)
  {
    ApplyAtPoint(p, sr, sc, er, ec, i, j);
  }

  lemma OneKingStep(p: Position, sr: int, sc: int, er: int, ec: int, king: char)
    requires MovePre(p, sr, sc, er, ec) && (king == 'K' || king == 'k')
    requires AtMostOne(p.squares, king)
    ensures WfGrid(Apply(p, sr, sc, er, ec).squares)
    ensures AtMostOne(Apply(p, sr, sc, er, ec).squares, king)
  {
    var g := Apply(p, sr, sc, er, ec).squares;
    forall r1, c1, r2, c2 |
      0 <= r1 < 8 && 0 <= c1 < 8 && 0 <= r2 < 8 && 0 <= c2 < 8 && g[r1][c1] == king && g[r2][c2] == king
      ensures r1 == r2 && c1 == c2
    {
      KingOrigin(p, sr, sc, er, ec, r1, c1, king);
      KingOrigin(p, sr, sc, er, ec, r2, c2, king);
    }
  }

  lemma KingHomeStep(p: Position, hist: seq<MoveRecord>, sr: int, sc: int, er: int, ec: int, row: int)
    requires MovePre(p, sr, sc, er, ec) && (row == 0 || row == 7)
    requires KingHome(p, hist, row) && AtMostOne(p.squares, HomeKing(row))
    ensures WfPosition(Apply(p, sr, sc, er, ec))
    ensures KingHome(Apply(p, sr, sc, er, ec), hist + [Record(p, sr, sc, er, ec)], row)
  {
    ApplyWf(p, sr, sc, er, ec);
    var q := Apply(p, sr, sc, er, ec);
    var king := HomeKing(row);
    var hist' := hist + [Record(p, sr, sc, er, ec)];
    if NeverLeft(hist', row, 4) {
      assert NeverLeft(hist, row, 4) by {
        forall i | 0 <= i < |hist| ensures hist'[i] == hist[i] { }
      }
      assert !StartsAt(hist'[|hist|], row, 4);
      if p.squares[row][4] == king && !(er == row && ec == 4) {
        if IsEnPassant(p, sr, sc, er, ec) {
          EnPassantRows(p, sr, sc, er, ec);
        }
        ApplyAtPoint(p, sr, sc, er, ec, row, 4);
      } else {
        assert NoPiece(p.squares, king) || (er == row && ec == 4 && p.squares[row][4] == king);
        forall r, c | 0 <= r < 8 && 0 <= c < 8 ensures q.squares[r][c] != king {
          if q.squares[r][c] == king {
            KingOrigin(p, sr, sc, er, ec, r, c, king);
          }
        }
      }
    }
  }

  /** Every move make_move accepts keeps Inv, with its record appended. */
  lemma InvStep(p: Position, hist: seq<MoveRecord>, sr: int, sc: int, er: int, ec: int)
    requires Inv(p, hist) && MovePre(p, sr, sc, er, ec)
    ensures Inv(Apply(p, sr, sc, er, ec), hist + [Record(p, sr, sc, er, ec)])
  {
    EpSoundStep(p, sr, sc, er, ec);
    RookHomeStep(p, hist, sr, sc, er, ec, 7, 7);
    RookHomeStep(p, hist, sr, sc, er, ec, 7, 0);
    RookHomeStep(p, hist, sr, sc, er, ec, 0, 7);
    RookHomeStep(p, hist, sr, sc, er, ec, 0, 0);
    KingHomeStep(p, hist, sr, sc, er, ec, 7);
    KingHomeStep(p, hist, sr, sc, er, ec, 0);
    OneKingStep(p, sr, sc, er, ec, 'K');
    OneKingStep(p, sr, sc, er, ec, 'k');
  }

  /** rec is the record of a move make_move accepts on p, and q the position it leaves. */
  predicate Step(p: Position, rec: MoveRecord, q: Position) {
    MovePre(p, rec.startRow, rec.startCol, rec.endRow, rec.endCol) &&
    rec == Record(p, rec.startRow, rec.startCol, rec.endRow, rec.endCol) &&
    q == Apply(p, rec.startRow, rec.startCol, rec.endRow, rec.endCol)
  }

  /** A game so far: positions line[0 .. n] joined by the n recorded moves,
      with Inv at each position for the history before it, and hashes[i] the
      hash of the position after move i. */
  predicate Game(t: Table, line: seq<Position>, hist: seq<MoveRecord>, hashes: seq<Hash>)
    decreases |hist|, 1
  {
    var game :=
      WfTable(t) && |line| == |hist| + 1 && |hashes| == |hist| && WfPosition(line[|hist|]) &&
      GameLinks(t, line, hist, hashes);
    game
  }

  /** The links of a game, from the last: Inv holds at the last position, the
      last record is a Step from the position before it with its hash beside
      it, and the lists without their last entries are a game. */
  predicate GameLinks(t: Table, line: seq<Position>, hist: seq<MoveRecord>, hashes: seq<Hash>)
    requires WfTable(t) && |line| == |hist| + 1 && |hashes| == |hist| && WfPosition(line[|hist|])
    decreases |hist|, 0
  {
    Inv(line[|hist|], hist) &&
    (|hist| > 0 ==>
      var n := |hist|;
      Step(line[n - 1], hist[n - 1], line[n]) && hashes[n - 1] == FullHash(t, line[n]) &&
      Game(t, line[..n], hist[..n - 1], hashes[..n - 1]))
  }

  lemma GameStart(t: Table)
    requires WfTable(t)
    ensures Game(t, [StartPosition], [], [])
  {
    InvStart();
    assert GameLinks(t, [StartPosition], [], []);
  }

  /** The last position of a game satisfies Inv for the whole history. */
  lemma GameInv(t: Table, line: seq<Position>, hist: seq<MoveRecord>, hashes: seq<Hash>)
    requires Game(t, line, hist, hashes)
    ensures Inv(line[|hist|], hist)
  {
    assert GameLinks(t, line, hist, hashes);
  }

  /** A move make_move accepts extends a game by one position, one record and
      the new position's hash. */
  lemma GameExtend(t: Table, line: seq<Position>, hist: seq<MoveRecord>, hashes: seq<Hash>,
                   sr: int, sc: int, er: int, ec: int)
    requires Game(t, line, hist, hashes)
    requires MovePre(line[|line| - 1], sr, sc, er, ec)
    ensures var p := line[|line| - 1]; var q := Apply(p, sr, sc, er, ec);
      Game(t, line + [q], hist + [Record(p, sr, sc, er, ec)], hashes + [FullHash(t, q)])
  {
    var p := line[|line| - 1];
    var q := Apply(p, sr, sc, er, ec);
    var rec := Record(p, sr, sc, er, ec);
    var line', hist', hashes' := line + [q], hist + [rec], hashes + [FullHash(t, q)];
    GameInv(t, line, hist, hashes);
    InvStep(p, hist, sr, sc, er, ec);
    assert line'[..|hist'|] == line && hist'[..|hist|] == hist && hashes'[..|hist|] == hashes;
    assert GameLinks(t, line', hist', hashes');
  }

  /** Dropping the last move of a game leaves a game, and the dropped record
      undoes exactly to the position before it. */
  lemma GameTruncate(t: Table, line: seq<Position>, hist: seq<MoveRecord>, hashes: seq<Hash>)
    requires Game(t, line, hist, hashes) && |hist| > 0
    ensures var n := |hist|; var rec := hist[n - 1];
      Undoable(line[n], rec) && Undo(line[n], rec) == line[n - 1] &&
      Inv(line[n - 1], hist[..n - 1]) &&
      Game(t, line[..n], hist[..n - 1], hashes[..n - 1])
  {
    var n := |hist|;
    var rec := hist[n - 1];
    assert GameLinks(t, line, hist, hashes);
    GameInv(t, line[..n], hist[..n - 1], hashes[..n - 1]);
    assert line[..n][n - 1] == line[n - 1];
    RoundTrip(line[n - 1], rec.startRow, rec.startCol, rec.endRow, rec.endCol);
  }
}
