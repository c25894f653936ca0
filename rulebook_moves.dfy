/** The move lists valid_moves of rulebook.py produces, as functions of the
    position and the move history, and what they are proved to contain. */
module MoveRules {
  import opened ChessTypes
  import opened MoveSpec
  import opened Attacks

  // ---------------------------------------------------------------------------
  // Single targets and straight lines.

  /** The move onto (r, c) when that square is on the board and empty (a quiet
      move) or holds a piece of the other colour (a capture); none otherwise. */
  function Target(white: bool, g: seq<seq<char>>, r: int, c: int): seq<Move>
    requires WfGrid(g)
  {
    if InBounds(r, c) && g[r][c] == '.' then [Move(r, c, false, false)]
    else if InBounds(r, c) && Enemy(white, g[r][c]) then [Move(r, c, false, true)]
    else []
  }

  /** straight_probe's list for the line that continues at (r, c) in direction
      (dr, dc): the empty squares in turn, then the first enemy piece as a
      capture; the edge of the board or a piece of its own colour ends it. */
  function Ray(white: bool, g: seq<seq<char>>, r: int, c: int, dr: int, dc: int): seq<Move>
    requires WfGrid(g) && UnitStep(dr, dc)
    decreases Room(r, c, dr, dc)
  {
    if InBounds(r, c) && g[r][c] == '.' then [Move(r, c, false, false)] + Ray(white, g, r + dr, c + dc, dr, dc)
    else if InBounds(r, c) && Enemy(white, g[r][c]) then [Move(r, c, false, true)]
    else []
  }

  const RookLines: seq<(int, int)> := [(-1, 0), (1, 0), (0, -1), (0, 1)]

  const BishopLines: seq<(int, int)> := [(-1, -1), (-1, 1), (1, -1), (1, 1)]

  predicate AllSteps(dirs: seq<(int, int)>) {
    forall i :: 0 <= i < |dirs| ==> UnitStep(dirs[i].0, dirs[i].1)
  }

  /** The straight_probe lists from (row, col) along each direction of dirs,
      one after another. */
  function Lines(white: bool, g: seq<seq<char>>, row: int, col: int, dirs: seq<(int, int)>): seq<Move>
    requires WfGrid(g) && AllSteps(dirs)
  {
    if |dirs| == 0 then []
    else
      var d := dirs[|dirs| - 1];
      Lines(white, g, row, col, dirs[..|dirs| - 1]) + Ray(white, g, row + d.0, col + d.1, d.0, d.1)
  }

  // ---------------------------------------------------------------------------
  // Kings and knights.

  /** The row and column offsets of cell k (0 to 8) of the 3x3 block around
      a square, scanned row by row, each left to right; cell 4 is the centre. */
  function CellRow(k: int): int {
    if k < 3 then -1 else if k < 6 then 0 else 1
  }

  function CellCol(k: int): int {
    k - 3 * CellRow(k) - 4
  }

  /** The king's moves from the first n cells of the 3x3 block around
      (row, col), skipping the centre. */
  function KingScan(white: bool, g: seq<seq<char>>, row: int, col: int, n: nat): seq<Move>
    requires WfGrid(g) && n <= 9
  {
    if n == 0 then []
    else
      var k := n - 1;
      KingScan(white, g, row, col, k) +
      (if k == 4 then [] else Target(white, g, row + CellRow(k), col + CellCol(k)))
  }

  /** The knight jumps in the order valid_moves tries them. */
  const KnightOffsets: seq<(int, int)> :=
    [(-2, -1), (-1, -2), (-2, 1), (-1, 2), (2, -1), (1, -2), (2, 1), (1, 2)]

  /** The knight's moves from the first n jumps of KnightOffsets. */
  function KnightScan(white: bool, g: seq<seq<char>>, row: int, col: int, n: nat): seq<Move>
    requires WfGrid(g) && n <= 8
  {
    if n == 0 then []
    else
      KnightScan(white, g, row, col, n - 1) +
      Target(white, g, row + KnightOffsets[n - 1].0, col + KnightOffsets[n - 1].1)
  }

  predicate KingReach(row: int, col: int, r: int, c: int) {
    -1 <= r - row <= 1 && -1 <= c - col <= 1 && (r != row || c != col)
  }

  predicate KnightReach(row: int, col: int, r: int, c: int) {
    var dr, dc := r - row, c - col;
    ((dr == 1 || dr == -1) && (dc == 2 || dc == -2)) || ((dr == 2 || dr == -2) && (dc == 1 || dc == -1))
  }

  /** A move onto (r, c) of a piece of colour `white` that is not en passant,
      is a capture exactly when the square holds an enemy piece and quiet
      exactly when it is empty. */
  predicate Lands(white: bool, g: seq<seq<char>>, m: Move)
    requires WfGrid(g)
  {
    InBounds(m.row, m.col) && !m.isEnPassant &&
    if m.isCapture then Enemy(white, g[m.row][m.col]) else g[m.row][m.col] == '.'
  }

  // ---------------------------------------------------------------------------
  // Pawns.

  /** The en-passant capture toward column col + side that valid_moves offers a
      pawn on (row, col): the last recorded move was the enemy pawn's double
      step onto the square beside it, and the square behind that pawn is
      empty. */
  function EpMove(white: bool, g: seq<seq<char>>, hist: seq<MoveRecord>, row: int, col: int, side: int): seq<Move>
    requires WfGrid(g) && (side == -1 || side == 1)
  {
    var fromRow, toRow, dest, pawn := if white then 1 else 6, if white then 3 else 4, if white then 2 else 5, if white then 'p' else 'P';
    if |hist| > 0 && row == toRow && InBounds(row, col + side) && g[dest][col + side] == '.' &&
       hist[|hist| - 1].piece == pawn &&
       hist[|hist| - 1].startRow == fromRow && hist[|hist| - 1].startCol == col + side &&
       hist[|hist| - 1].endRow == toRow && hist[|hist| - 1].endCol == col + side
    then [Move(dest, col + side, true, true)]
    else []
  }

  /** A pawn's pushes and diagonal captures toward row + dir: one step onto an
      empty square, two from its start row over two empty squares, then the
      captures of enemy pieces, left then right for white (dir -1) and right
      then left for black (dir 1). */
  function PawnSteps(g: seq<seq<char>>, row: int, col: int, dir: int): seq<Move>
    requires WfGrid(g) && InBounds(row, col) && (dir == -1 || dir == 1)
  {
    PawnPushes(g, row, col, dir) + PawnCaptures(g, row, col, dir)
  }

  /** One step ahead onto an empty square, then two from the start row over
      two empty squares. */
  function PawnPushes(g: seq<seq<char>>, row: int, col: int, dir: int): seq<Move>
    requires WfGrid(g) && InBounds(row, col) && (dir == -1 || dir == 1)
  {
    if dir == -1 then
      (if row >= 1 && g[row - 1][col] == '.' then [Move(row - 1, col, false, false)] else []) +
      (if row == 6 && g[row - 1][col] == '.' && g[row - 2][col] == '.' then [Move(row - 2, col, false, false)] else [])
    else
      (if row <= 6 && g[row + 1][col] == '.' then [Move(row + 1, col, false, false)] else []) +
      (if row == 1 && g[row + 1][col] == '.' && g[row + 2][col] == '.' then [Move(row + 2, col, false, false)] else [])
  }

  /** The diagonal captures of enemy pieces: left then right for white,
      right then left for black. */
  function PawnCaptures(g: seq<seq<char>>, row: int, col: int, dir: int): seq<Move>
    requires WfGrid(g) && InBounds(row, col) && (dir == -1 || dir == 1)
  {
    if dir == -1 then
      (if row >= 1 && col >= 1 && IsBlack(g[row - 1][col - 1]) then [Move(row - 1, col - 1, false, true)] else []) +
      (if row >= 1 && col <= 6 && IsBlack(g[row - 1][col + 1]) then [Move(row - 1, col + 1, false, true)] else [])
    else
      (if row <= 6 && col <= 6 && IsWhite(g[row + 1][col + 1]) then [Move(row + 1, col + 1, false, true)] else []) +
      (if row <= 6 && col >= 1 && IsWhite(g[row + 1][col - 1]) then [Move(row + 1, col - 1, false, true)] else [])
  }

  /** The white pawn's list: one step up onto an empty square, two from row 6
      over two empty squares, the diagonal captures left then right, then the
      en-passant captures left then right. */
  function WhitePawnMoves(g: seq<seq<char>>, hist: seq<MoveRecord>, row: int, col: int): seq<Move>
    requires WfGrid(g) && InBounds(row, col)
  {
    PawnSteps(g, row, col, -1) + EpMove(true, g, hist, row, col, -1) + EpMove(true, g, hist, row, col, 1)
  }

  /** The black pawn's list: one step down, two from row 1, the diagonal
      captures right then left, then the en-passant captures left then right. */
  function BlackPawnMoves(g: seq<seq<char>>, hist: seq<MoveRecord>, row: int, col: int): seq<Move>
    requires WfGrid(g) && InBounds(row, col)
  {
    PawnSteps(g, row, col, 1) + EpMove(false, g, hist, row, col, -1) + EpMove(false, g, hist, row, col, 1)
  }

  // ---------------------------------------------------------------------------
  // Castling.

  function HomeRow(white: bool): int {
    if white then 7 else 0
  }

  /** The squares between the king's home square and the rook's corner are
      empty. */
  predicate SpacesEmpty(g: seq<seq<char>>, row: int, rookCol: int)
    requires WfGrid(g) && 0 <= row < 8
  {
    if rookCol == 7 then g[row][5] == '.' && g[row][6] == '.'
    else g[row][1] == '.' && g[row][2] == '.' && g[row][3] == '.'
  }

  /** The king stepped from its home square to column c (the board's own
      make_move) would not be in check. The admissibility conjunct always
      holds where valid_moves makes the probe (lemma ProbeAdmissible). */
  predicate ProbeSafe(p: Position, white: bool, c: int) {
    var row := HomeRow(white);
    MovePre(p, row, 4, row, c) && !InCheck(white, Apply(p, row, 4, row, c).squares)
  }

  /** The castling move toward the rook on rookCol that valid_moves offers the
      king of colour `white`: the history scan finds neither king nor rook
      moved nor the rook's corner captured, the squares between are empty, the
      king is not in check, and neither probe square (5 then 6, or 3 then 2)
      leaves it in check. */
  function CastleSide(p: Position, hist: seq<MoveRecord>, white: bool, rookCol: int): seq<Move>
    requires WfPosition(p)
  {
    var row := HomeRow(white);
    var first, second := if rookCol == 7 then 5 else 3, if rookCol == 7 then 6 else 2;
    if CastlingScanClear(hist, row, rookCol) && SpacesEmpty(p.squares, row, rookCol) &&
       !InCheck(white, p.squares) && ProbeSafe(p, white, first) && ProbeSafe(p, white, second)
    then [Move(row, second, false, false)]
    else []
  }

  /** Short castling, then long. */
  function CastlingMoves(p: Position, hist: seq<MoveRecord>, white: bool): seq<Move>
    requires WfPosition(p)
  {
    CastleSide(p, hist, white, 7) + CastleSide(p, hist, white, 0)
  }

  // ---------------------------------------------------------------------------
  // valid_moves.

  /** valid_moves' list before pruning: by the piece on (row, col); castling is
      looked at only when `castling` (check_for_checks) holds. */
  function PseudoMoves(p: Position, hist: seq<MoveRecord>, row: int, col: int, castling: bool): seq<Move>
    requires WfPosition(p) && InBounds(row, col)
  {
    var g := p.squares;
    var piece := g[row][col];
    if piece == 'P' then WhitePawnMoves(g, hist, row, col)
    else if piece == 'p' then BlackPawnMoves(g, hist, row, col)
    else if piece == 'K' || piece == 'k' then
      KingScan(piece == 'K', g, row, col, 9) + (if castling then CastlingMoves(p, hist, piece == 'K') else [])
    else if piece == 'N' || piece == 'n' then KnightScan(piece == 'N', g, row, col, 8)
    else if piece == 'R' || piece == 'r' then Lines(piece == 'R', g, row, col, RookLines)
    else if piece == 'B' || piece == 'b' then Lines(piece == 'B', g, row, col, BishopLines)
    else if piece == 'Q' || piece == 'q' then Lines(piece == 'Q', g, row, col, RookLines + BishopLines)
    else []
  }

  /** A move prune_moves_to_avoid_checks keeps: made on the board it does not
      leave the mover's king in check. The admissibility conjunct always holds
      for generated moves (lemma PseudoMovesAdmissible). */
  predicate Legal(p: Position, row: int, col: int, m: Move) {
    MovePre(p, row, col, m.row, m.col) &&
    !InCheck(IsWhite(p.squares[row][col]), Apply(p, row, col, m.row, m.col).squares)
  }

  /** prune_moves_to_avoid_checks: the legal moves of ms, in order. */
  function Prune(p: Position, row: int, col: int, ms: seq<Move>): seq<Move> {
    if |ms| == 0 then []
    else
      Prune(p, row, col, ms[..|ms| - 1]) +
      (if Legal(p, row, col, ms[|ms| - 1]) then [ms[|ms| - 1]] else [])
  }

  /** valid_moves: the pseudo-legal list, pruned when check_for_checks. */
  function ValidMoveList(p: Position, hist: seq<MoveRecord>, row: int, col: int, checkForChecks: bool): seq<Move>
    requires WfPosition(p) && InBounds(row, col)
  {
    var ms := PseudoMoves(p, hist, row, col, checkForChecks);
    if checkForChecks then Prune(p, row, col, ms) else ms
  }

  // ---------------------------------------------------------------------------
  // What the lists contain.

  /** The lines of dirs + more are those of dirs, then those of more. */
  lemma {:induction false} LinesAppend(white: bool, g: seq<seq<char>>, row: int, col: int, dirs: seq<(int, int)>, more: seq<(int, int)>)
    requires WfGrid(g) && AllSteps(dirs) && AllSteps(more)
    ensures AllSteps(dirs + more)
    ensures Lines(white, g, row, col, dirs + more) == Lines(white, g, row, col, dirs) + Lines(white, g, row, col, more)
    decreases |more|
  {
    assert AllSteps(dirs + more);
    if |more| > 0 {
      var init, d := more[..|more| - 1], more[|more| - 1];
      var ray := Ray(white, g, row + d.0, col + d.1, d.0, d.1);
      assert (dirs + more)[..|dirs + more| - 1] == dirs + init && (dirs + more)[|dirs + more| - 1] == d;
      assert Lines(white, g, row, col, dirs + more) == Lines(white, g, row, col, dirs + init) + ray;
      LinesAppend(white, g, row, col, dirs, init);
      assert Lines(white, g, row, col, more) == Lines(white, g, row, col, init) + ray;
      AppendAssoc(Lines(white, g, row, col, dirs), Lines(white, g, row, col, init), ray);
    } else {
      assert dirs + more == dirs;
    }
  }

  /** Some piece of the side to move has a move in valid_moves' checked list
      (the answer are_there_any_valid_moves gives). */
  predicate HasValidMove(p: Position, hist: seq<MoveRecord>)
    requires WfPosition(p)
  {
    exists r, c :: 0 <= r < 8 && 0 <= c < 8 && OwnPiece(p.whitesTurn, p.squares[r][c]) &&
      |ValidMoveList(p, hist, r, c, true)| > 0
  }

  lemma RoomShrinks(r: int, c: int, dr: int, dc: int)
    requires UnitStep(dr, dc) && InBounds(r, c)
    ensures Room(r + dr, c + dc, dr, dc) < Room(r, c, dr, dc)
  {
  }

  /** straight_probe's list, move by move: every move lands on the board, a
      quiet move on an empty square and a capture on an enemy piece (so none on
      a piece of the mover's colour); only the last can be a capture; and none
      lies behind the line's first square. */
  lemma {:induction false} RayLands(white: bool, g: seq<seq<char>>, r: int, c: int, dr: int, dc: int)
    requires WfGrid(g) && UnitStep(dr, dc)
    ensures forall k :: 0 <= k < |Ray(white, g, r, c, dr, dc)| ==>
      var m := Ray(white, g, r, c, dr, dc)[k];
      Lands(white, g, m) && (k < |Ray(white, g, r, c, dr, dc)| - 1 ==> !m.isCapture) &&
      Room(m.row, m.col, dr, dc) <= Room(r, c, dr, dc)
    decreases Room(r, c, dr, dc)
  {
    if InBounds(r, c) && g[r][c] == '.' {
      var ms, rest := Ray(white, g, r, c, dr, dc), Ray(white, g, r + dr, c + dc, dr, dc);
      RayLands(white, g, r + dr, c + dc, dr, dc);
      RoomShrinks(r, c, dr, dc);
      forall k | 1 <= k < |ms|
        ensures Lands(white, g, ms[k]) && (k < |ms| - 1 ==> !ms[k].isCapture) &&
          Room(ms[k].row, ms[k].col, dr, dc) <= Room(r, c, dr, dc)
      {
        assert ms[k] == rest[k - 1];
        assert Lands(white, g, rest[k - 1]) && (k - 1 < |rest| - 1 ==> !rest[k - 1].isCapture) &&
          Room(rest[k - 1].row, rest[k - 1].col, dr, dc) <= Room(r + dr, c + dc, dr, dc);
      }
    }
  }

  /** The coordinate k steps from x in direction d. */
  function Along(x: int, k: int, d: int): int {
    x + k * d
  }

  lemma AlongZero(x: int, d: int)
    ensures Along(x, 0, d) == x
  {
  }

  lemma AlongStep(x: int, k: int, d: int)
    requires -1 <= d <= 1
    ensures Along(x + d, k - 1, d) == Along(x, k, d)
  {
    if d == 1 {
    } else if d == -1 {
    }
  }

  /** straight_probe's list goes out in order of distance: its k-th move is
      k steps beyond the line's first square (r, c). */
  lemma {:induction false} RayPositions(white: bool, g: seq<seq<char>>, r: int, c: int, dr: int, dc: int)
    requires WfGrid(g) && UnitStep(dr, dc)
    ensures forall k :: 0 <= k < |Ray(white, g, r, c, dr, dc)| ==>
      Ray(white, g, r, c, dr, dc)[k].row == Along(r, k, dr) && Ray(white, g, r, c, dr, dc)[k].col == Along(c, k, dc)
    decreases Room(r, c, dr, dc)
  {
    var ms := Ray(white, g, r, c, dr, dc);
    if InBounds(r, c) && g[r][c] == '.' {
      var rest := Ray(white, g, r + dr, c + dc, dr, dc);
      assert ms == [Move(r, c, false, false)] + rest;
      RoomShrinks(r, c, dr, dc);
      RayPositions(white, g, r + dr, c + dc, dr, dc);
      forall k | 0 <= k < |ms|
        ensures ms[k].row == Along(r, k, dr) && ms[k].col == Along(c, k, dc)
      {
        if k == 0 {
          AlongZero(r, dr);
          AlongZero(c, dc);
        } else {
          assert ms[k] == rest[k - 1];
          AlongStep(r, k, dr);
          AlongStep(c, k, dc);
        }
      }
    } else if |ms| > 0 {
      assert ms == [Move(r, c, false, true)];
      AlongZero(r, dr);
      AlongZero(c, dc);
    }
  }

  /** The edge of the board or a piece of the mover's own colour on (r, c). */
  predicate Blocked(white: bool, g: seq<seq<char>>, r: int, c: int)
    requires WfGrid(g)
  {
    !InBounds(r, c) || (g[r][c] != '.' && !Enemy(white, g[r][c]))
  }

  /** straight_probe stops only where it must: a list that does not end in a
      capture ends where the line is blocked, at its first square when empty,
      else just past its last move. */
  lemma {:induction false} RayStops(white: bool, g: seq<seq<char>>, r: int, c: int, dr: int, dc: int)
    requires WfGrid(g) && UnitStep(dr, dc)
    ensures var ms := Ray(white, g, r, c, dr, dc);
      (|ms| == 0 ==> Blocked(white, g, r, c)) &&
      (|ms| > 0 && !ms[|ms| - 1].isCapture ==> Blocked(white, g, ms[|ms| - 1].row + dr, ms[|ms| - 1].col + dc))
    decreases Room(r, c, dr, dc)
  {
    if InBounds(r, c) && g[r][c] == '.' {
      var ms, rest := Ray(white, g, r, c, dr, dc), Ray(white, g, r + dr, c + dc, dr, dc);
      RayStops(white, g, r + dr, c + dc, dr, dc);
      assert ms[|ms| - 1] == if |rest| == 0 then Move(r, c, false, false) else rest[|rest| - 1];
    }
  }

  /** valid_moves' king moves are exactly the quiet moves onto the empty
      squares and the captures of the enemy pieces among the eight around it. */
  lemma KingScanExact(white: bool, g: seq<seq<char>>, row: int, col: int)
    requires WfGrid(g)
    ensures forall m :: m in KingScan(white, g, row, col, 9) <==>
      KingReach(row, col, m.row, m.col) && Lands(white, g, m)
  {
    forall m ensures m in KingScan(white, g, row, col, 9) <==> KingReach(row, col, m.row, m.col) && Lands(white, g, m) {
      KingScanUpTo(white, g, row, col, 9, m);
    }
  }

  /** Where m lands in the scan order of the 3x3 block around (row, col). */
  function CellIndex(row: int, col: int, m: Move): int {
    3 * (m.row - row) + (m.col - col) + 4
  }

  lemma {:induction false} KingScanUpTo(white: bool, g: seq<seq<char>>, row: int, col: int, n: nat, m: Move)
    requires WfGrid(g) && n <= 9
    ensures m in KingScan(white, g, row, col, n) <==>
      Lands(white, g, m) && KingReach(row, col, m.row, m.col) && CellIndex(row, col, m) < n
  {
    if n > 0 {
      KingScanUpTo(white, g, row, col, n - 1, m);
      var k := n - 1;
      if k != 4 {
        var r, c := row + CellRow(k), col + CellCol(k);
        CellOf(row, col, k, m);
        TargetIff(white, g, r, c, m);
        InAppend(KingScan(white, g, row, col, k), Target(white, g, r, c), m);
      } else {
        assert KingScan(white, g, row, col, n) == KingScan(white, g, row, col, k);
        assert KingReach(row, col, m.row, m.col) ==> CellIndex(row, col, m) != 4;
      }
    }
  }

  /** The one-move list of a single target square holds exactly the move
      that lands there. */
  lemma TargetIff(white: bool, g: seq<seq<char>>, r: int, c: int, m: Move)
    requires WfGrid(g)
    ensures m in Target(white, g, r, c) <==> Lands(white, g, m) && m.row == r && m.col == c
  {
  }

  /** Cell k of the 3x3 block is the square one step from (row, col) whose
      scan index is k. */
  lemma CellOf(row: int, col: int, k: int, m: Move)
    requires 0 <= k < 9 && k != 4
    ensures (m.row == row + CellRow(k) && m.col == col + CellCol(k)) <==>
      (KingReach(row, col, m.row, m.col) && CellIndex(row, col, m) == k)
  {
  }

  /** valid_moves' knight moves are exactly the quiet moves onto the empty
      squares and the captures of the enemy pieces a knight's jump away. */
  lemma KnightScanExact(white: bool, g: seq<seq<char>>, row: int, col: int)
    requires WfGrid(g)
    ensures forall m :: m in KnightScan(white, g, row, col, 8) <==>
      KnightReach(row, col, m.row, m.col) && Lands(white, g, m)
  {
    forall m ensures m in KnightScan(white, g, row, col, 8) <==> KnightReach(row, col, m.row, m.col) && Lands(white, g, m) {
      KnightScanUpTo(white, g, row, col, 8, m);
      JumpOf(row, col, 0, m);
    }
  }

  /** Where m lands in the order of KnightOffsets seen from (row, col); 8 when
      it is not a knight's jump away. */
  function JumpIndex(row: int, col: int, m: Move): int {
    var dr, dc := m.row - row, m.col - col;
    if dr == -2 && dc == -1 then 0 else if dr == -1 && dc == -2 then 1
    else if dr == -2 && dc == 1 then 2 else if dr == -1 && dc == 2 then 3
    else if dr == 2 && dc == -1 then 4 else if dr == 1 && dc == -2 then 5
    else if dr == 2 && dc == 1 then 6 else if dr == 1 && dc == 2 then 7 else 8
  }

  /** Jump k of KnightOffsets is the square a knight's jump away whose index is k. */
  lemma JumpOf(row: int, col: int, k: int, m: Move)
    requires 0 <= k < 8
    ensures (m.row == row + KnightOffsets[k].0 && m.col == col + KnightOffsets[k].1) <==> JumpIndex(row, col, m) == k
    ensures KnightReach(row, col, m.row, m.col) <==> JumpIndex(row, col, m) < 8
  {
  }

  /** The list of the single target square of jump k holds exactly the move
      that lands there. */
  lemma JumpTarget(white: bool, g: seq<seq<char>>, row: int, col: int, k: int, m: Move)
    requires WfGrid(g) && 0 <= k < 8
    ensures m in Target(white, g, row + KnightOffsets[k].0, col + KnightOffsets[k].1) <==>
      Lands(white, g, m) && JumpIndex(row, col, m) == k
  {
    JumpOf(row, col, k, m);
    TargetIff(white, g, row + KnightOffsets[k].0, col + KnightOffsets[k].1, m);
  }

  lemma {:induction false} KnightScanUpTo(white: bool, g: seq<seq<char>>, row: int, col: int, n: nat, m: Move)
    requires WfGrid(g) && n <= 8
    ensures m in KnightScan(white, g, row, col, n) <==> Lands(white, g, m) && JumpIndex(row, col, m) < n
  {
    if n > 0 {
      KnightScanUpTo(white, g, row, col, n - 1, m);
      KnightScanStep(white, g, row, col, n, m);
    }
  }

  /** The scan of n jumps holds what the scan of n - 1 holds and the move
      onto jump n - 1. */
  lemma KnightScanStep(white: bool, g: seq<seq<char>>, row: int, col: int, n: nat, m: Move)
    requires WfGrid(g) && 0 < n <= 8
    ensures m in KnightScan(white, g, row, col, n) <==>
      m in KnightScan(white, g, row, col, n - 1) || (Lands(white, g, m) && JumpIndex(row, col, m) == n - 1)
  {
    var jump := Target(white, g, row + KnightOffsets[n - 1].0, col + KnightOffsets[n - 1].1);
    JumpTarget(white, g, row, col, n - 1, m);
    InAppend(KnightScan(white, g, row, col, n - 1), jump, m);
  }

  /** x is in a + b exactly when it is in a or in b. */
  lemma InAppend<T>(a: seq<T>, b: seq<T>, x: T)
    ensures x in a + b <==> x in a || x in b
  {
  }

  /** A subsequence: ys with some entries left out, the rest in order. */
  predicate Subsequence<T(==)>(xs: seq<T>, ys: seq<T>)
    decreases |ys|
  {
    if |xs| == 0 then true
    else if |ys| == 0 then false
    else if xs[|xs| - 1] == ys[|ys| - 1] then Subsequence(xs[..|xs| - 1], ys[..|ys| - 1])
    else Subsequence(xs, ys[..|ys| - 1])
  }

  /** A subsequence of ys is one of ys + [y]. */
  lemma {:induction false} SubsequenceDrop<T>(xs: seq<T>, ys: seq<T>, y: T)
    requires Subsequence(xs, ys)
    ensures Subsequence(xs, ys + [y])
    decreases |ys|, 1
  {
    var zs := ys + [y];
    assert zs[..|zs| - 1] == ys;
    if |xs| > 0 && xs[|xs| - 1] == y {
      SubsequenceShorter(xs, ys);
    }
  }

  /** Dropping the last entry of xs keeps a subsequence a subsequence. */
  lemma {:induction false} SubsequenceShorter<T>(xs: seq<T>, ys: seq<T>)
    requires |xs| > 0 && Subsequence(xs, ys)
    ensures Subsequence(xs[..|xs| - 1], ys)
    decreases |ys|, 0
  {
    assert |ys| > 0;
    var xs', ys', y := xs[..|xs| - 1], ys[..|ys| - 1], ys[|ys| - 1];
    if xs[|xs| - 1] != y {
      SubsequenceShorter(xs, ys');
    }
    SubsequenceDrop(xs', ys', y);
    assert ys' + [y] == ys;
  }

  /** prune_moves_to_avoid_checks keeps a subsequence of the moves it is given:
      exactly the legal ones, in their original order. */
  lemma {:induction false} PruneExact(p: Position, row: int, col: int, ms: seq<Move>)
    ensures Subsequence(Prune(p, row, col, ms), ms)
    ensures forall m :: m in Prune(p, row, col, ms) <==> m in ms && Legal(p, row, col, m)
  {
    if |ms| > 0 {
      var init, last := ms[..|ms| - 1], ms[|ms| - 1];
      PruneExact(p, row, col, init);
      assert init + [last] == ms;
      var pr := Prune(p, row, col, init);
      if Legal(p, row, col, last) {
        assert (pr + [last])[..|pr|] == pr;
      } else {
        assert Prune(p, row, col, ms) == pr;
        SubsequenceDrop(pr, init, last);
      }
    }
  }

  // ---------------------------------------------------------------------------
  // Generated moves are moves make_move accepts.

  /** Every move of the straight_probe lists lands on the board, quiet on an
      empty square or capturing an enemy piece, and never on (row, col). */
  lemma {:induction false} LinesLand(white: bool, g: seq<seq<char>>, row: int, col: int, dirs: seq<(int, int)>)
    requires WfGrid(g) && AllSteps(dirs) && InBounds(row, col)
    ensures forall m :: m in Lines(white, g, row, col, dirs) ==> Lands(white, g, m) && (m.row != row || m.col != col)
  {
    if |dirs| > 0 {
      var d := dirs[|dirs| - 1];
      var ray := Ray(white, g, row + d.0, col + d.1, d.0, d.1);
      LinesLand(white, g, row, col, dirs[..|dirs| - 1]);
      RayLands(white, g, row + d.0, col + d.1, d.0, d.1);
      RoomShrinks(row, col, d.0, d.1);
      forall m | m in ray ensures Lands(white, g, m) && (m.row != row || m.col != col) {
        var k :| 0 <= k < |ray| && ray[k] == m;
      }
    }
  }

  /** A king of the side to move that passes the castling scan stands on its
      home square, and the rook on the scanned corner is there too: the scan
      looks at coordinates only, but in a game the pieces that started there
      are the only ones that can have stayed. */
  lemma CastlingPiecesHome(p: Position, hist: seq<MoveRecord>, white: bool, rookCol: int, kr: int, kc: int)
    requires Inv(p, hist) && (rookCol == 7 || rookCol == 0)
    requires InBounds(kr, kc) && p.squares[kr][kc] == KingLetter(white)
    requires CastlingScanClear(hist, HomeRow(white), rookCol)
    ensures kr == HomeRow(white) && kc == 4
    ensures p.squares[HomeRow(white)][rookCol] == HomeRook(HomeRow(white))
  {
    var row := HomeRow(white);
    assert NeverLeft(hist, row, 4);
    assert KingHome(p, hist, row) && RookHome(p, hist, row, rookCol);
    assert !NoPiece(p.squares, HomeKing(row));
  }

  /** The probes of valid_moves' castling test are moves make_move accepts. */
  lemma ProbeAdmissible(p: Position, hist: seq<MoveRecord>, white: bool, rookCol: int, c: int, kr: int, kc: int)
    requires Inv(p, hist) && p.whitesTurn == white
    requires InBounds(kr, kc) && p.squares[kr][kc] == KingLetter(white)
    requires (rookCol == 7 && (c == 5 || c == 6)) || (rookCol == 0 && (c == 3 || c == 2))
    requires CastlingScanClear(hist, HomeRow(white), rookCol) && SpacesEmpty(p.squares, HomeRow(white), rookCol)
    ensures MovePre(p, HomeRow(white), 4, HomeRow(white), c)
  {
    CastlingPiecesHome(p, hist, white, rookCol, kr, kc);
  }

  /** The castling moves valid_moves offers are moves make_move accepts from
      the king's square. */
  lemma CastlingAdmissible(p: Position, hist: seq<MoveRecord>, white: bool, kr: int, kc: int)
    requires Inv(p, hist) && p.whitesTurn == white
    requires InBounds(kr, kc) && p.squares[kr][kc] == KingLetter(white)
    ensures forall m :: m in CastlingMoves(p, hist, white) ==> MovePre(p, kr, kc, m.row, m.col)
  {
    CastleSideAdmissible(p, hist, white, 7, kr, kc);
    CastleSideAdmissible(p, hist, white, 0, kr, kc);
  }

  lemma CastleSideAdmissible(p: Position, hist: seq<MoveRecord>, white: bool, rookCol: int, kr: int, kc: int)
    requires Inv(p, hist) && p.whitesTurn == white && (rookCol == 7 || rookCol == 0)
    requires InBounds(kr, kc) && p.squares[kr][kc] == KingLetter(white)
    ensures forall m :: m in CastleSide(p, hist, white, rookCol) ==> MovePre(p, kr, kc, m.row, m.col)
  {
    if CastleSide(p, hist, white, rookCol) != [] {
      CastlingPiecesHome(p, hist, white, rookCol, kr, kc);
    }
  }

  lemma PawnAdmissible(p: Position, hist: seq<MoveRecord>, row: int, col: int)
    requires WfPosition(p) && InBounds(row, col) && OwnPiece(p.whitesTurn, p.squares[row][col])
    requires p.squares[row][col] == 'P' || p.squares[row][col] == 'p'
    ensures forall m :: m in PseudoMoves(p, hist, row, col, true) ==> MovePre(p, row, col, m.row, m.col)
  {
    var g := p.squares;
    if g[row][col] == 'P' {
      PawnStepsAdmissible(p, row, col, -1);
      EpAdmissible(p, hist, row, col, -1);
      EpAdmissible(p, hist, row, col, 1);
    } else {
      PawnStepsAdmissible(p, row, col, 1);
      EpAdmissible(p, hist, row, col, -1);
      EpAdmissible(p, hist, row, col, 1);
    }
  }

  lemma PawnStepsAdmissible(p: Position, row: int, col: int, dir: int)
    requires WfPosition(p) && InBounds(row, col) && OwnPiece(p.whitesTurn, p.squares[row][col])
    requires p.squares[row][col] == (if dir == -1 then 'P' else 'p') && (dir == -1 || dir == 1)
    ensures forall m :: m in PawnSteps(p.squares, row, col, dir) ==> MovePre(p, row, col, m.row, m.col)
  {
    PawnStepsExact(p.squares, row, col, dir);
    forall m | m in PawnSteps(p.squares, row, col, dir) ensures MovePre(p, row, col, m.row, m.col) {
      PawnMovePre(p, row, col, dir, m);
    }
  }

  /** A pawn push or diagonal capture within the pawn's reach that lands
      legally is one make_move accepts. */
  lemma PawnMovePre(p: Position, row: int, col: int, dir: int, m: Move)
    requires WfPosition(p) && InBounds(row, col) && OwnPiece(p.whitesTurn, p.squares[row][col])
    requires p.squares[row][col] == (if dir == -1 then 'P' else 'p') && (dir == -1 || dir == 1)
    requires PawnReach(row, col, dir, m) && Lands(dir == -1, p.squares, m)
    requires m.row == row + 2 * dir ==> p.squares[row + dir][col] == '.'
    ensures MovePre(p, row, col, m.row, m.col)
  {
  }

  /** Where a pawn moving toward row + dir may go other than en passant:
      straight ahead one row, or two from its start row, without capturing;
      one row ahead on a neighbouring column when capturing. */
  predicate PawnReach(row: int, col: int, dir: int, m: Move) {
    if m.isCapture then m.row == row + dir && (m.col == col - 1 || m.col == col + 1)
    else m.col == col && (m.row == row + dir || (row == (if dir == -1 then 6 else 1) && m.row == row + 2 * dir))
  }

  /** valid_moves' pushes and diagonal captures for a pawn are exactly the
      moves within its reach that land legally, a double step also needing
      the square it crosses to be empty. */
  lemma PawnStepsExact(g: seq<seq<char>>, row: int, col: int, dir: int)
    requires WfGrid(g) && InBounds(row, col) && (dir == -1 || dir == 1)
    ensures forall m :: m in PawnSteps(g, row, col, dir) <==>
      PawnReach(row, col, dir, m) && Lands(dir == -1, g, m) &&
      (m.row == row + 2 * dir ==> g[row + dir][col] == '.')
  {
    forall m ensures m in PawnSteps(g, row, col, dir) <==>
      PawnReach(row, col, dir, m) && Lands(dir == -1, g, m) &&
      (m.row == row + 2 * dir ==> g[row + dir][col] == '.')
    {
      PawnStepsAt(g, row, col, dir, m);
    }
  }

  lemma PawnStepsAt(g: seq<seq<char>>, row: int, col: int, dir: int, m: Move)
    requires WfGrid(g) && InBounds(row, col) && (dir == -1 || dir == 1)
    ensures m in PawnSteps(g, row, col, dir) <==>
      PawnReach(row, col, dir, m) && Lands(dir == -1, g, m) &&
      (m.row == row + 2 * dir ==> g[row + dir][col] == '.')
  {
    if dir == -1 {
      WhitePawnStepsAt(g, row, col, m);
    } else {
      BlackPawnStepsAt(g, row, col, m);
    }
  }

  lemma WhitePawnStepsAt(g: seq<seq<char>>, row: int, col: int, m: Move)
    requires WfGrid(g) && InBounds(row, col)
    ensures m in PawnSteps(g, row, col, -1) <==>
      PawnReach(row, col, -1, m) && Lands(true, g, m) && (m.row == row - 2 ==> g[row - 1][col] == '.')
  {
    var pushes := PawnPushes(g, row, col, -1);
    var captures := PawnCaptures(g, row, col, -1);
    assert PawnSteps(g, row, col, -1) == pushes + captures;
    InAppend(pushes, captures, m);
    if m.isCapture {
      assert m !in pushes;
      WhitePawnCapturesAt(g, row, col, m);
    } else {
      assert m !in captures;
      WhitePawnPushesAt(g, row, col, m);
    }
  }

  lemma WhitePawnPushesAt(g: seq<seq<char>>, row: int, col: int, m: Move)
    requires WfGrid(g) && InBounds(row, col) && !m.isCapture
    ensures m in PawnPushes(g, row, col, -1) <==>
      PawnReach(row, col, -1, m) && Lands(true, g, m) && (m.row == row - 2 ==> g[row - 1][col] == '.')
  {
    var one := if row >= 1 && g[row - 1][col] == '.' then [Move(row - 1, col, false, false)] else [];
    var two := if row == 6 && g[row - 1][col] == '.' && g[row - 2][col] == '.' then [Move(row - 2, col, false, false)] else [];
    assert PawnPushes(g, row, col, -1) == one + two;
    InAppend(one, two, m);
  }

  lemma WhitePawnCapturesAt(g: seq<seq<char>>, row: int, col: int, m: Move)
    requires WfGrid(g) && InBounds(row, col) && m.isCapture
    ensures m in PawnCaptures(g, row, col, -1) <==> PawnReach(row, col, -1, m) && Lands(true, g, m)
  {
    var left := if row >= 1 && col >= 1 && IsBlack(g[row - 1][col - 1]) then [Move(row - 1, col - 1, false, true)] else [];
    var right := if row >= 1 && col <= 6 && IsBlack(g[row - 1][col + 1]) then [Move(row - 1, col + 1, false, true)] else [];
    assert PawnCaptures(g, row, col, -1) == left + right;
    InAppend(left, right, m);
  }

  lemma BlackPawnStepsAt(g: seq<seq<char>>, row: int, col: int, m: Move)
    requires WfGrid(g) && InBounds(row, col)
    ensures m in PawnSteps(g, row, col, 1) <==>
      PawnReach(row, col, 1, m) && Lands(false, g, m) && (m.row == row + 2 ==> g[row + 1][col] == '.')
  {
    var pushes := PawnPushes(g, row, col, 1);
    var captures := PawnCaptures(g, row, col, 1);
    assert PawnSteps(g, row, col, 1) == pushes + captures;
    InAppend(pushes, captures, m);
    if m.isCapture {
      assert m !in pushes;
      BlackPawnCapturesAt(g, row, col, m);
    } else {
      assert m !in captures;
      BlackPawnPushesAt(g, row, col, m);
    }
  }

  lemma BlackPawnPushesAt(g: seq<seq<char>>, row: int, col: int, m: Move)
    requires WfGrid(g) && InBounds(row, col) && !m.isCapture
    ensures m in PawnPushes(g, row, col, 1) <==>
      PawnReach(row, col, 1, m) && Lands(false, g, m) && (m.row == row + 2 ==> g[row + 1][col] == '.')
  {
    var one := if row <= 6 && g[row + 1][col] == '.' then [Move(row + 1, col, false, false)] else [];
    var two := if row == 1 && g[row + 1][col] == '.' && g[row + 2][col] == '.' then [Move(row + 2, col, false, false)] else [];
    assert PawnPushes(g, row, col, 1) == one + two;
    InAppend(one, two, m);
  }

  lemma BlackPawnCapturesAt(g: seq<seq<char>>, row: int, col: int, m: Move)
    requires WfGrid(g) && InBounds(row, col) && m.isCapture
    ensures m in PawnCaptures(g, row, col, 1) <==> PawnReach(row, col, 1, m) && Lands(false, g, m)
  {
    var right := if row <= 6 && col <= 6 && IsWhite(g[row + 1][col + 1]) then [Move(row + 1, col + 1, false, true)] else [];
    var left := if row <= 6 && col >= 1 && IsWhite(g[row + 1][col - 1]) then [Move(row + 1, col - 1, false, true)] else [];
    assert PawnCaptures(g, row, col, 1) == right + left;
    InAppend(right, left, m);
  }

  lemma EpAdmissible(p: Position, hist: seq<MoveRecord>, row: int, col: int, side: int)
    requires WfPosition(p) && InBounds(row, col) && OwnPiece(p.whitesTurn, p.squares[row][col])
    requires (p.squares[row][col] == 'P' || p.squares[row][col] == 'p') && (side == -1 || side == 1)
    ensures forall m :: m in EpMove(p.squares[row][col] == 'P', p.squares, hist, row, col, side) ==>
      MovePre(p, row, col, m.row, m.col)
  {
  }

  lemma StepperAdmissible(p: Position, hist: seq<MoveRecord>, row: int, col: int)
    requires Inv(p, hist) && InBounds(row, col) && OwnPiece(p.whitesTurn, p.squares[row][col])
    requires p.squares[row][col] in "KkNn"
    ensures forall m :: m in PseudoMoves(p, hist, row, col, true) ==> MovePre(p, row, col, m.row, m.col)
  {
    var g, piece := p.squares, p.squares[row][col];
    if piece == 'K' || piece == 'k' {
      KingScanExact(piece == 'K', g, row, col);
      CastlingAdmissible(p, hist, piece == 'K', row, col);
    } else {
      KnightScanExact(piece == 'N', g, row, col);
    }
  }

  lemma SliderAdmissible(p: Position, hist: seq<MoveRecord>, row: int, col: int)
    requires WfPosition(p) && InBounds(row, col) && OwnPiece(p.whitesTurn, p.squares[row][col])
    requires p.squares[row][col] in "RrBbQq"
    ensures forall m :: m in PseudoMoves(p, hist, row, col, true) ==> MovePre(p, row, col, m.row, m.col)
  {
    var piece := p.squares[row][col];
    assert piece != 'P' && piece != 'p' && piece != 'K' && piece != 'k';
    if piece == 'R' || piece == 'r' {
      LinesAdmissible(p, row, col, RookLines);
    } else if piece == 'B' || piece == 'b' {
      LinesAdmissible(p, row, col, BishopLines);
    } else {
      assert AllSteps(RookLines + BishopLines);
      LinesAdmissible(p, row, col, RookLines + BishopLines);
    }
  }

  /** The straight_probe lists of a piece other than a pawn or a king hold
      only moves make_move accepts. */
  lemma LinesAdmissible(p: Position, row: int, col: int, dirs: seq<(int, int)>)
    requires WfPosition(p) && InBounds(row, col) && OwnPiece(p.whitesTurn, p.squares[row][col])
    requires p.squares[row][col] != 'P' && p.squares[row][col] != 'p'
    requires p.squares[row][col] != 'K' && p.squares[row][col] != 'k'
    requires AllSteps(dirs)
    ensures forall m :: m in Lines(IsWhite(p.squares[row][col]), p.squares, row, col, dirs) ==>
      MovePre(p, row, col, m.row, m.col)
  {
    LinesLand(IsWhite(p.squares[row][col]), p.squares, row, col, dirs);
  }

  /** Every move valid_moves generates for a piece of the side to move, in a
      position a game reaches, is one make_move accepts: so the pruning and
      the castling probes never reach make_move's fatal error. */
  lemma PseudoMovesAdmissible(p: Position, hist: seq<MoveRecord>, row: int, col: int)
    requires Inv(p, hist) && InBounds(row, col) && OwnPiece(p.whitesTurn, p.squares[row][col])
    ensures forall m :: m in PseudoMoves(p, hist, row, col, true) ==> MovePre(p, row, col, m.row, m.col)
  {
    var piece := p.squares[row][col];
    if piece == 'P' || piece == 'p' {
      PawnAdmissible(p, hist, row, col);
    } else if piece in "KkNn" {
      StepperAdmissible(p, hist, row, col);
    } else {
      SliderAdmissible(p, hist, row, col);
    }
  }

  /** valid_moves with check_for_checks, for a piece of the side to move: its
      list is a subsequence of the pseudo-legal list, and it holds exactly the
      pseudo-legal moves after which, made on the board, the mover's own king
      is not in check. */
  lemma ValidMovesLegal(p: Position, hist: seq<MoveRecord>, row: int, col: int)
    requires Inv(p, hist) && InBounds(row, col) && OwnPiece(p.whitesTurn, p.squares[row][col])
    ensures Subsequence(ValidMoveList(p, hist, row, col, true), PseudoMoves(p, hist, row, col, true))
    ensures forall m :: m in ValidMoveList(p, hist, row, col, true) <==>
      m in PseudoMoves(p, hist, row, col, true) &&
      MovePre(p, row, col, m.row, m.col) && !InCheck(p.whitesTurn, Apply(p, row, col, m.row, m.col).squares)
  {
    PseudoMovesAdmissible(p, hist, row, col);
    PruneExact(p, row, col, PseudoMoves(p, hist, row, col, true));
  }
}
