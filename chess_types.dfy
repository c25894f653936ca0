/** Values shared by the board, the hash and the rule book: square contents,
    the position, the move record pushed by a move, and the move tuples the
    generator produces. */
module ChessTypes {

  datatype Option<+T> = None | Some(value: T)

  /** A white piece letter: one of "KQRBNP". */
  predicate IsWhite(c: char) {
    c == 'K' || c == 'Q' || c == 'R' || c == 'B' || c == 'N' || c == 'P'
  }

  /** A black piece letter: one of "kqrbnp". */
  predicate IsBlack(c: char) {
    c == 'k' || c == 'q' || c == 'r' || c == 'b' || c == 'n' || c == 'p'
  }

  predicate IsPiece(c: char) { IsWhite(c) || IsBlack(c) }

  /** What a square of the grid may hold: '.' for empty, or a piece letter. */
  predicate IsSquareChar(c: char) { c == '.' || IsPiece(c) }

  /** A piece of the side to move. */
  predicate OwnPiece(whitesTurn: bool, c: char) {
    if whitesTurn then IsWhite(c) else IsBlack(c)
  }

  /** A piece of the colour opposite to `white`. */
  predicate Enemy(white: bool, c: char) {
    if white then IsBlack(c) else IsWhite(c)
  }

  /** Upper-casing of a letter; other characters are left alone. */
  function Upper(c: char): char {
    if 'a' <= c <= 'z' then (c as int - 32) as char else c
  }

  /** Both coordinates lie in 0..7. */
  predicate InBounds(row: int, col: int) {
    var onBoard := row >= 0 && row <= 7 && col >= 0 && col <= 7;
    onBoard
  }

  /** A square on the board is identified by its flat index 8*row+col, which
      decodes back to the same row and column. */
  lemma FlatIndex(row: int, col: int)
    requires InBounds(row, col)
    ensures 0 <= 8 * row + col < 64
    ensures (8 * row + col) / 8 == row && (8 * row + col) % 8 == col
  {
  }

  /** An 8x8 grid of square characters; row 0 is rank 8. */
  predicate WfGrid(g: seq<seq<char>>) {
    var wellFormed :=
      |g| == 8 &&
      (forall r :: 0 <= r < 8 ==> |g[r]| == 8) &&
      (forall r, c :: 0 <= r < 8 && 0 <= c < 8 ==> IsSquareChar(g[r][c]));
    wellFormed
  }

  /** Assignment of one square, squares[r][c] = x. */
  function Put(g: seq<seq<char>>, r: int, c: int, x: char): (g': seq<seq<char>>)
    requires 0 <= r < |g| && 0 <= c < |g[r]|
    ensures |g'| == |g|
    ensures forall i :: 0 <= i < |g| ==> |g'[i]| == |g[i]|
    ensures forall i, j :: 0 <= i < |g| && 0 <= j < |g[i]| ==>
      g'[i][j] == if i == r && j == c then x else g[i][j]
    ensures WfGrid(g) && IsSquareChar(x) ==> WfGrid(g')
  {
    g[r := g[r][c := x]]
  }

  /** Two well-formed grids that agree on every square are equal. */
  lemma GridExt(a: seq<seq<char>>, b: seq<seq<char>>)
    requires WfGrid(a) && WfGrid(b)
    requires forall r, c :: 0 <= r < 8 && 0 <= c < 8 ==> a[r][c] == b[r][c]
    ensures a == b
  {
    forall r | 0 <= r < 8 ensures a[r] == b[r] {
      assert forall c :: 0 <= c < 8 ==> a[r][c] == b[r][c];
    }
  }

  /** The whole position a move changes: the grid, the side to move, the four
      castling rights (white/black, king side/queen side), whether each side has
      castled, and the en-passant target (epRow, epCol), (-1, -1) when there is
      none. */
  datatype Position = Position(
    squares: seq<seq<char>>,
    whitesTurn: bool,
    whiteKs: bool, whiteQs: bool, blackKs: bool, blackQs: bool,
    whiteCastled: bool, blackCastled: bool,
    epRow: int, epCol: int)

  /** The en-passant target is absent, or is the square a pawn of the side that
      just moved passed over: row 2 when white is to move, row 5 when black is. */
  predicate WfEnPassant(whitesTurn: bool, epRow: int, epCol: int) {
    (epRow == -1 && epCol == -1) ||
    (epRow == (if whitesTurn then 2 else 5) && 0 <= epCol < 8)
  }

  predicate WfPosition(p: Position) {
    var wellFormed := WfGrid(p.squares) && WfEnPassant(p.whitesTurn, p.epRow, p.epCol);
    wellFormed
  }

  /** One entry of the move history: the move, the piece moved and the piece
      captured, and everything else the move changes, so that it can be undone
      exactly. */
  datatype MoveRecord = MoveRecord(
    startRow: int, startCol: int, endRow: int, endCol: int,
    piece: char,
    captured: char,
    isEnPassant: bool,
    priorEpRow: int, priorEpCol: int,
    priorWhiteCastled: bool, priorBlackCastled: bool,
    priorWhiteKs: bool, priorWhiteQs: bool, priorBlackKs: bool, priorBlackQs: bool,
    promoRow: int, promoCol: int)   // the promotion square, or (-1, -1)

  /** A generated move of one piece: destination, en-passant flag, capture flag. */
  datatype Move = Move(row: int, col: int, isEnPassant: bool, isCapture: bool)

  /** The standard initial grid. */
  const StartSquares: seq<seq<char>> := [
    "rnbqkbnr",
    "pppppppp",
    "........",
    "........",
    "........",
    "........",
    "PPPPPPPP",
    "RNBQKBNR"]

  /** The position after a reset: white to move, all rights held, nobody has
      castled, no en-passant target. */
  const StartPosition: Position :=
    Position(StartSquares, true, true, true, true, true, false, false, -1, -1)

  lemma StartPositionWf()
    ensures WfPosition(StartPosition)
  {
    assert forall r, c :: 0 <= r < 8 && 0 <= c < 8 ==> IsSquareChar(StartSquares[r][c]) by {
      forall r, c | 0 <= r < 8 && 0 <= c < 8 ensures IsSquareChar(StartSquares[r][c]) {
        assert r == 0 || r == 1 || r == 2 || r == 3 || r == 4 || r == 5 || r == 6 || r == 7;
      }
    }
  }

  /** Concatenation regroups freely. */
  lemma AppendAssoc<T>(a: seq<T>, b: seq<T>, c: seq<T>)
    ensures (a + b) + c == a + (b + c)
  {
  }
}
