/** The move generator of rulebook.py on the board: valid_moves, its helpers
    straight_probe and prune_moves_to_avoid_checks, the castling test, and the
    two whole-board passes compute_all_valid_moves and
    are_there_any_valid_moves. Each is proved to compute the list MoveRules
    defines and to leave the board as it found it. */
module MoveGen {
  import opened ChessTypes
  import opened MoveSpec
  import opened Attacks
  import opened MoveRules
  import opened ChessBoard

  /** straight_probe: the squares along (dr, dc) from (row, col) up to the
      edge, the first own piece, or the first enemy piece, which is captured. */
  method StraightProbe(row: int, col: int, white: bool, dr: int, dc: int, g: seq<seq<char>>)
    returns (moves: seq<Move>)
    requires WfGrid(g) && UnitStep(dr, dc)
    ensures moves == Ray(white, g, row + dr, col + dc, dr, dc)
  {
    ghost var target := Ray(white, g, row + dr, col + dc, dr, dc);
    moves := [];
    var validSquares := if white then ".kqrnbp" else ".KQRNBP";
    var r, c := row + dr, col + dc;
    while InBounds(r, c) && g[r][c] in validSquares
      invariant moves + Ray(white, g, r, c, dr, dc) == target
      decreases Room(r, c, dr, dc)
    {
      if g[r][c] == '.' {
        RayEmpty(white, g, r, c, dr, dc, moves, target);
        moves := moves + [Move(r, c, false, false)];
        r, c := r + dr, c + dc;
      } else {
        RayCapture(white, g, r, c, dr, dc, moves, target);
        moves := moves + [Move(r, c, false, true)];
        break;
      }
    }
    if !(InBounds(r, c) && g[r][c] in validSquares) {
      RayStop(white, g, r, c, dr, dc, moves, target);
    }
  }

  /** straight_probe steps over an empty square: it is listed, and the
      rest of the ray follows. */
  lemma RayEmpty(white: bool, g: seq<seq<char>>, r: int, c: int, dr: int, dc: int,
                 moves: seq<Move>, target: seq<Move>)
    requires WfGrid(g) && UnitStep(dr, dc) && InBounds(r, c) && g[r][c] == '.'
    requires moves + Ray(white, g, r, c, dr, dc) == target
    ensures (moves + [Move(r, c, false, false)]) + Ray(white, g, r + dr, c + dc, dr, dc) == target
    ensures Room(r + dr, c + dc, dr, dc) < Room(r, c, dr, dc)
  {
    var m, rest := Move(r, c, false, false), Ray(white, g, r + dr, c + dc, dr, dc);
    assert Ray(white, g, r, c, dr, dc) == [m] + rest;
    AppendAssoc(moves, [m], rest);
  }

  /** straight_probe meets an enemy piece: it is listed as a capture and the
      ray ends there. */
  lemma RayCapture(white: bool, g: seq<seq<char>>, r: int, c: int, dr: int, dc: int,
                   moves: seq<Move>, target: seq<Move>)
    requires WfGrid(g) && UnitStep(dr, dc) && InBounds(r, c) && g[r][c] != '.'
    requires g[r][c] in (if white then ".kqrnbp" else ".KQRNBP")
    requires moves + Ray(white, g, r, c, dr, dc) == target
    ensures moves + [Move(r, c, false, true)] == target
  {
  }

  /** straight_probe's loop test fails: the edge or an own piece ends the ray. */
  lemma RayStop(white: bool, g: seq<seq<char>>, r: int, c: int, dr: int, dc: int,
                moves: seq<Move>, target: seq<Move>)
    requires WfGrid(g) && UnitStep(dr, dc)
    requires !(InBounds(r, c) && g[r][c] in (if white then ".kqrnbp" else ".KQRNBP"))
    requires moves + Ray(white, g, r, c, dr, dc) == target
    ensures moves == target
  {
    assert Ray(white, g, r, c, dr, dc) == [];
  }

  /** The four straight_probe calls for a rook. */
  method RookMoves(row: int, col: int, white: bool, g: seq<seq<char>>) returns (moves: seq<Move>)
    requires WfGrid(g)
    ensures moves == Lines(white, g, row, col, RookLines)
  {
    var up := StraightProbe(row, col, white, -1, 0, g);
    var down := StraightProbe(row, col, white, 1, 0, g);
    var left := StraightProbe(row, col, white, 0, -1, g);
    var right := StraightProbe(row, col, white, 0, 1, g);
    moves := up + down + left + right;
    LinesOfFour(white, g, row, col, RookLines, up, down, left, right);
  }

  /** The four straight_probe calls for a bishop. */
  method BishopMoves(row: int, col: int, white: bool, g: seq<seq<char>>) returns (moves: seq<Move>)
    requires WfGrid(g)
    ensures moves == Lines(white, g, row, col, BishopLines)
  {
    var a := StraightProbe(row, col, white, -1, -1, g);
    var b := StraightProbe(row, col, white, -1, 1, g);
    var c := StraightProbe(row, col, white, 1, -1, g);
    var d := StraightProbe(row, col, white, 1, 1, g);
    moves := a + b + c + d;
    LinesOfFour(white, g, row, col, BishopLines, a, b, c, d);
  }

  /** Lines of four directions, one Ray after another. */
  lemma LinesOfFour(white: bool, g: seq<seq<char>>, row: int, col: int, dirs: seq<(int, int)>,
                    a: seq<Move>, b: seq<Move>, c: seq<Move>, d: seq<Move>)
    requires WfGrid(g) && |dirs| == 4 && AllSteps(dirs)
    requires a == Ray(white, g, row + dirs[0].0, col + dirs[0].1, dirs[0].0, dirs[0].1)
    requires b == Ray(white, g, row + dirs[1].0, col + dirs[1].1, dirs[1].0, dirs[1].1)
    requires c == Ray(white, g, row + dirs[2].0, col + dirs[2].1, dirs[2].0, dirs[2].1)
    requires d == Ray(white, g, row + dirs[3].0, col + dirs[3].1, dirs[3].0, dirs[3].1)
    ensures Lines(white, g, row, col, dirs) == a + b + c + d
  {
    var d1, d2, d3 := dirs[..1], dirs[..2], dirs[..3];
    assert AllSteps(d1) && AllSteps(d2) && AllSteps(d3);
    assert d1[..0] == [] && d1[0] == dirs[0];
    assert d2[..1] == d1 && d2[1] == dirs[1];
    assert d3[..2] == d2 && d3[2] == dirs[2];
    assert dirs[..3] == d3 && dirs[3] == dirs[3];
    assert Lines(white, g, row, col, d1) == a;
    assert Lines(white, g, row, col, d2) == a + b;
    assert Lines(white, g, row, col, d3) == a + b + c;
  }

  /** The square test the king and knight loops of valid_moves share: an
      empty square on the board is a quiet move, an enemy piece a capture. */
  method TargetMove(white: bool, g: seq<seq<char>>, r: int, c: int) returns (cell: seq<Move>)
    requires WfGrid(g)
    ensures cell == Target(white, g, r, c)
  {
    var enemies := if white then "kqrnbp" else "KQRNBP";
    cell := [];
    if InBounds(r, c) && g[r][c] == '.' {
      cell := [Move(r, c, false, false)];
    } else if InBounds(r, c) && g[r][c] in enemies {
      cell := [Move(r, c, false, true)];
    }
  }

  /** The king's 3x3 scan: an empty square gives a quiet move, an enemy piece
      a capture. */
  method KingSteps(row: int, col: int, white: bool, g: seq<seq<char>>) returns (moves: seq<Move>)
    requires WfGrid(g)
    ensures moves == KingScan(white, g, row, col, 9)
  {
    moves := [];
    var i := 0;
    while i < 3
      invariant 0 <= i <= 3
      invariant moves == KingScan(white, g, row, col, 3 * i)
    {
      var r := row - 1 + i;
      var j := 0;
      while j < 3
        invariant 0 <= j <= 3
        invariant moves == KingScan(white, g, row, col, 3 * i + j)
      {
        var cell := KingCell(row, col, white, g, r, col - 1 + j, i, j);
        moves := moves + cell;
        j := j + 1;
      }
      i := i + 1;
    }
  }

  /** One square (r, c) = (row - 1 + i, col - 1 + j) of the king's scan: the
      king's own square is skipped, any other is tried as a target. */
  method KingCell(row: int, col: int, white: bool, g: seq<seq<char>>, r: int, c: int, i: int, j: int)
    returns (cell: seq<Move>)
    requires WfGrid(g) && 0 <= i < 3 && 0 <= j < 3 && r == row - 1 + i && c == col - 1 + j
    ensures KingScan(white, g, row, col, 3 * i + j + 1) == KingScan(white, g, row, col, 3 * i + j) + cell
  {
    cell := [];
    if !(r == row && c == col) {
      cell := TargetMove(white, g, r, c);
    }
    assert CellRow(3 * i + j) == i - 1 && CellCol(3 * i + j) == j - 1;
  }

  /** The knight's eight jumps in valid_moves' order. */
  method KnightMoves(row: int, col: int, white: bool, g: seq<seq<char>>) returns (moves: seq<Move>)
    requires WfGrid(g)
    ensures moves == KnightScan(white, g, row, col, 8)
  {
    moves := [];
    var i := 0;
    while i < 8
      invariant 0 <= i <= 8
      invariant moves == KnightScan(white, g, row, col, i)
    {
      var cell := TargetMove(white, g, row + KnightOffsets[i].0, col + KnightOffsets[i].1);
      moves := moves + cell;
      i := i + 1;
    }
  }

  /** The history scan before castling toward rookCol: it stops at the first
      record that starts on the king's home square or the rook's corner, or
      ends on the corner. */
  method CastlingScan(hist: seq<MoveRecord>, row: int, rookCol: int) returns (clear: bool)
    ensures clear == CastlingScanClear(hist, row, rookCol)
  {
    var i := 0;
    while i < |hist|
      invariant 0 <= i <= |hist|
      invariant CastlingScanClear(hist[..i], row, rookCol)
    {
      var m := hist[i];
      if (m.startRow == row && m.startCol == 4) || (m.startRow == row && m.startCol == rookCol) ||
         (m.endRow == row && m.endCol == rookCol) {
        assert !CastlingScanClear(hist, row, rookCol) by {
          assert !(!StartsAt(hist[i], row, 4) && !StartsAt(hist[i], row, rookCol) && !EndsAt(hist[i], row, rookCol));
        }
        return false;
      }
      assert hist[..i + 1] == hist[..i] + [m];
      i := i + 1;
    }
    assert hist[..i] == hist;
    return true;
  }

  /** The squares strictly between the king's home column 4 and rookCol. */
  method SpacesClear(g: seq<seq<char>>, row: int, rookCol: int) returns (empty: bool)
    requires WfGrid(g) && 0 <= row < 8 && (rookCol == 7 || rookCol == 0)
    ensures empty == SpacesEmpty(g, row, rookCol)
  {
    var lo, hi := if rookCol < 4 then rookCol else 4, if rookCol < 4 then 4 else rookCol;
    var spaceCol := lo + 1;
    while spaceCol < hi
      invariant lo + 1 <= spaceCol <= hi
      invariant forall k :: lo + 1 <= k < spaceCol ==> g[row][k] == '.'
    {
      if g[row][spaceCol] != '.' {
        return false;
      }
      spaceCol := spaceCol + 1;
    }
    return true;
  }

  /** The state of the board did not change: same position, histories,
      hash and game. */
  twostate predicate Kept(board: Board)
    reads board
  {
    board.Valid() && board.Pos() == old(board.Pos()) && board.moveHistory == old(board.moveHistory) &&
    board.zobristHistory == old(board.zobristHistory) && board.zobristHash == old(board.zobristHash) &&
    board.line == old(board.line)
  }

  /** make_move followed by unmake_move leaves the board as it was. */
  twostate lemma MakeUnmakeKept(board: Board)
    requires old(board.Valid()) && board.Valid()
    requires board.moveHistory == old(board.moveHistory) && board.zobristHistory == old(board.zobristHistory)
    requires board.line == old(board.line)
    ensures Kept(board)
  {
    assert board.Pos() == board.line[|board.line| - 1] == old(board.Pos());
  }

  /** One make_move / is_king_in_check / unmake_move probe: whether the king
      of colour `white` stands in check once the move is made. */
  method TryMove(board: Board, sr: int, sc: int, er: int, ec: int, white: bool) returns (inCheck: bool)
    requires board.Valid() && MovePre(board.Pos(), sr, sc, er, ec)
    modifies board
    ensures Kept(board)
    ensures inCheck == InCheck(white, Apply(old(board.Pos()), sr, sc, er, ec).squares)
  {
    board.MakeMove(sr, sc, er, ec);
    inCheck := IsKingInCheck(white, board.squares);
    board.UnmakeMove();
    MakeUnmakeKept(board);
  }

  /** The king probes of the castling test: the king is made to step from its
      home square to each of the two columns in turn, the check test is run,
      and the step is unmade; the first probe in check ends the test. */
  method ProbePath(board: Board, white: bool, rookCol: int, kr: int, kc: int) returns (safe: bool)
    requires board.Valid() && board.whitesTurn == white && (rookCol == 7 || rookCol == 0)
    requires InBounds(kr, kc) && board.squares[kr][kc] == KingLetter(white)
    requires CastlingScanClear(board.moveHistory, HomeRow(white), rookCol)
    requires SpacesEmpty(board.squares, HomeRow(white), rookCol)
    modifies board
    ensures Kept(board)
    ensures safe == (ProbeSafe(old(board.Pos()), white, if rookCol == 7 then 5 else 3) &&
                     ProbeSafe(old(board.Pos()), white, if rookCol == 7 then 6 else 2))
  {
    ghost var p, hist := board.Pos(), board.moveHistory;
    board.ValidInv();
    var row := HomeRow(white);
    var cols := if rookCol == 7 then [5, 6] else [3, 2];
    var i := 0;
    while i < 2
      invariant 0 <= i <= 2
      invariant Kept(board)
      invariant forall k :: 0 <= k < i ==> ProbeSafe(p, white, cols[k])
    {
      ProbeAdmissible(p, hist, white, rookCol, cols[i], kr, kc);
      var isInCheck := TryMove(board, row, 4, row, cols[i], white);
      if isInCheck {
        assert !ProbeSafe(p, white, cols[i]);
        return false;
      }
      i := i + 1;
    }
    assert ProbeSafe(p, white, cols[0]) && ProbeSafe(p, white, cols[1]);
    return true;
  }

  /** valid_moves' castling test for the king of colour `white` standing on
      (kr, kc): short castling first, then long. */
  method ProbeCastling(board: Board, white: bool, kr: int, kc: int) returns (moves: seq<Move>)
    requires board.Valid() && board.whitesTurn == white
    requires InBounds(kr, kc) && board.squares[kr][kc] == KingLetter(white)
    modifies board
    ensures Kept(board)
    ensures moves == CastlingMoves(old(board.Pos()), old(board.moveHistory), white)
  {
    ghost var p, hist := board.Pos(), board.moveHistory;
    var row := HomeRow(white);
    moves := [];
    var rookCols := [7, 0];
    var k := 0;
    while k < 2
      invariant 0 <= k <= 2
      invariant Kept(board)
      invariant moves == if k == 0 then [] else if k == 1 then CastleSide(p, hist, white, 7) else CastlingMoves(p, hist, white)
    {
      var rookCol := rookCols[k];
      var side: seq<Move> := [];
      var clear := CastlingScan(board.moveHistory, row, rookCol);
      if clear {
        var empty := SpacesClear(board.squares, row, rookCol);
        if empty {
          var inCheck := IsKingInCheck(white, board.squares);
          if !inCheck {
            var safe := ProbePath(board, white, rookCol, kr, kc);
            if safe {
              side := [Move(row, if rookCol == 7 then 6 else 2, false, false)];
            }
          }
        }
      }
      assert side == CastleSide(p, hist, white, rookCol);
      moves := moves + side;
      k := k + 1;
    }
  }

  /** prune_moves_to_avoid_checks: each move is made, the mover's king checked
      for check, and the move unmade; the moves that pass are kept in order. */
  method PruneMovesToAvoidChecks(row: int, col: int, moves: seq<Move>, board: Board) returns (pruned: seq<Move>)
    requires board.Valid() && InBounds(row, col)
    requires forall m :: m in moves ==> MovePre(board.Pos(), row, col, m.row, m.col)
    modifies board
    ensures Kept(board)
    ensures pruned == Prune(old(board.Pos()), row, col, moves)
  {
    ghost var p := board.Pos();
    pruned := [];
    var white := board.squares[row][col] in "KQRNBP";
    var i := 0;
    while i < |moves|
      invariant 0 <= i <= |moves|
      invariant Kept(board)
      invariant pruned == Prune(p, row, col, moves[..i])
    {
      var m := moves[i];
      var inCheck := TryPruned(board, row, col, m, white, p);
      if !inCheck {
        pruned := pruned + [m];
      }
      assert moves[..i + 1][..i] == moves[..i] && moves[..i + 1][i] == m;
      i := i + 1;
    }
    assert moves[..i] == moves;
  }

  /** One move of prune_moves_to_avoid_checks: tried on the board, it leaves
      the mover in check exactly when it is not legal. */
  method TryPruned(board: Board, row: int, col: int, m: Move, white: bool, ghost p: Position) returns (inCheck: bool)
    requires board.Valid() && board.Pos() == p && InBounds(row, col)
    requires MovePre(p, row, col, m.row, m.col) && white == (p.squares[row][col] in "KQRNBP")
    modifies board
    ensures Kept(board)
    ensures inCheck == !Legal(p, row, col, m)
  {
    inCheck := TryMove(board, row, col, m.row, m.col, white);
  }

  /** valid_moves: the piece's list by its letter, pruned of the moves that
      leave the mover's king in check when check_for_checks. With
      check_for_checks the piece must belong to the side to move (make_move
      stops the program otherwise). */
  method ValidMoves(row: int, col: int, board: Board, checkForChecks: bool) returns (moves: seq<Move>)
    requires board.Valid() && InBounds(row, col)
    requires checkForChecks ==> board.squares[row][col] == '.' || OwnPiece(board.whitesTurn, board.squares[row][col])
    modifies board
    ensures Kept(board)
    ensures moves == ValidMoveList(old(board.Pos()), old(board.moveHistory), row, col, checkForChecks)
  {
    ghost var p, hist := board.Pos(), board.moveHistory;
    board.ValidInv();
    moves := PieceMoves(row, col, board, checkForChecks);
    if checkForChecks {
      if p.squares[row][col] != '.' {
        PseudoMovesAdmissible(p, hist, row, col);
      }
      assert board.Pos() == p;
      moves := PruneMovesToAvoidChecks(row, col, moves, board);
    }
  }

  /** valid_moves before the check test: the moves of the piece on (row,
      col) by its letter, castling included for a king when checks count. */
  method PieceMoves(row: int, col: int, board: Board, checkForChecks: bool) returns (moves: seq<Move>)
    requires board.Valid() && InBounds(row, col)
    requires checkForChecks ==> board.squares[row][col] == '.' || OwnPiece(board.whitesTurn, board.squares[row][col])
    modifies board
    ensures Kept(board)
    ensures moves == PseudoMoves(old(board.Pos()), old(board.moveHistory), row, col, checkForChecks)
  {
    ghost var p, hist := board.Pos(), board.moveHistory;
    board.ValidInv();
    var g := board.squares;
    var piece := g[row][col];
    moves := [];
    if piece == 'P' {
      moves := WhitePawnMoves(g, board.moveHistory, row, col);
    } else if piece == 'p' {
      moves := BlackPawnMoves(g, board.moveHistory, row, col);
    } else if piece == 'K' || piece == 'k' {
      moves := KingSteps(row, col, piece == 'K', g);
      if checkForChecks {
        var castles := ProbeCastling(board, piece == 'K', row, col);
        moves := moves + castles;
      }
    } else if piece == 'N' || piece == 'n' {
      moves := KnightMoves(row, col, piece == 'N', g);
    } else if piece == 'R' || piece == 'r' {
      moves := RookMoves(row, col, piece == 'R', g);
    } else if piece == 'B' || piece == 'b' {
      moves := BishopMoves(row, col, piece == 'B', g);
    } else if piece == 'Q' || piece == 'q' {
      var straight := RookMoves(row, col, piece == 'Q', g);
      var diagonal := BishopMoves(row, col, piece == 'Q', g);
      moves := straight + diagonal;
      LinesAppend(piece == 'Q', g, row, col, RookLines, BishopLines);
    }
  }

  /** The loop body shared by compute_all_valid_moves and
      are_there_any_valid_moves: whether the square holds a piece of the side
      to move and, if so, its checked move list. */
  method SquareMoves(board: Board, row: int, col: int) returns (own: bool, moves: seq<Move>)
    requires board.Valid() && InBounds(row, col)
    modifies board
    ensures Kept(board)
    ensures own == OwnPiece(old(board.whitesTurn), old(board.squares)[row][col])
    ensures own ==> moves == ValidMoveList(old(board.Pos()), old(board.moveHistory), row, col, true)
  {
    var piece := board.squares[row][col];
    own := (board.whitesTurn && piece in "KQRNBP") || (!board.whitesTurn && piece in "kqrnbp");
    if !own {
      return false, [];
    }
    moves := ValidMoves(row, col, board, true);
  }

  /** compute_all_valid_moves: the checked list of every piece of the side to
      move, keyed by its square. */
  method ComputeAllValidMoves(board: Board) returns (all: map<(int, int), seq<Move>>)
    requires board.Valid()
    modifies board
    ensures Kept(board)
    ensures forall r, c :: (r, c) in all <==> InBounds(r, c) && OwnPiece(old(board.whitesTurn), old(board.squares)[r][c])
    ensures forall r, c :: (r, c) in all ==>
      InBounds(r, c) && all[(r, c)] == ValidMoveList(old(board.Pos()), old(board.moveHistory), r, c, true)
  {
    ghost var p, hist := board.Pos(), board.moveHistory;
    all := map[];
    var row := 0;
    while row < 8
      invariant 0 <= row <= 8
      invariant Kept(board)
      invariant forall r, c :: (r, c) in all <==> InBounds(r, c) && r < row && OwnPiece(p.whitesTurn, p.squares[r][c])
      invariant forall r, c :: (r, c) in all ==> InBounds(r, c) && all[(r, c)] == ValidMoveList(p, hist, r, c, true)
    {
      var col := 0;
      while col < 8
        invariant 0 <= col <= 8
        invariant Kept(board)
        invariant forall r, c :: (r, c) in all <==>
          InBounds(r, c) && (r < row || (r == row && c < col)) && OwnPiece(p.whitesTurn, p.squares[r][c])
        invariant forall r, c :: (r, c) in all ==> InBounds(r, c) && all[(r, c)] == ValidMoveList(p, hist, r, c, true)
      {
        var own, moves := SquareMoves(board, row, col);
        if own {
          all := all[(row, col) := moves];
        }
        col := col + 1;
      }
      row := row + 1;
    }
  }

  /** are_there_any_valid_moves: scans the squares in order and stops at the
      first piece of the side to move with a non-empty checked list. */
  method AreThereAnyValidMoves(board: Board) returns (any: bool)
    requires board.Valid()
    modifies board
    ensures Kept(board)
    ensures any == HasValidMove(old(board.Pos()), old(board.moveHistory))
  {
    ghost var p, hist := board.Pos(), board.moveHistory;
    board.ValidInv();
    var row := 0;
    while row < 8
      invariant 0 <= row <= 8
      invariant Kept(board)
      invariant NoneBefore(p, hist, row, 0)
    {
      var col := 0;
      while col < 8
        invariant 0 <= col <= 8
        invariant Kept(board)
        invariant NoneBefore(p, hist, row, col)
      {
        assert board.Pos() == p && board.moveHistory == hist;
        var own, moves := SquareMoves(board, row, col);
        if own && |moves| > 0 {
          HasValidMoveAt(p, hist, row, col);
          return true;
        }
        NoneBeforeNext(p, hist, row, col);
        col := col + 1;
      }
      NoneBeforeRow(p, hist, row);
      row := row + 1;
    }
    NoneAtAll(p, hist);
    return false;
  }

  /** No piece of the side to move on a square before (row, col) in scan
      order has a move in its checked list. */
  ghost predicate NoneBefore(p: Position, hist: seq<MoveRecord>, row: int, col: int)
    requires WfPosition(p)
  {
    forall r, c ::
      (0 <= r < 8 && 0 <= c < 8 && (r < row || (r == row && c < col)) && OwnPiece(p.whitesTurn, p.squares[r][c]))
      ==> |ValidMoveList(p, hist, r, c, true)| == 0
  }

  lemma NoneBeforeNext(p: Position, hist: seq<MoveRecord>, row: int, col: int)
    requires WfPosition(p) && InBounds(row, col) && NoneBefore(p, hist, row, col)
    requires OwnPiece(p.whitesTurn, p.squares[row][col]) ==> |ValidMoveList(p, hist, row, col, true)| == 0
    ensures NoneBefore(p, hist, row, col + 1)
  {
  }

  lemma NoneBeforeRow(p: Position, hist: seq<MoveRecord>, row: int)
    requires WfPosition(p) && NoneBefore(p, hist, row, 8)
    ensures NoneBefore(p, hist, row + 1, 0)
  {
  }

  lemma NoneAtAll(p: Position, hist: seq<MoveRecord>)
    requires WfPosition(p) && NoneBefore(p, hist, 8, 0)
    ensures !HasValidMove(p, hist)
  {
  }

  lemma HasValidMoveAt(p: Position, hist: seq<MoveRecord>, row: int, col: int)
    requires WfPosition(p) && InBounds(row, col) && OwnPiece(p.whitesTurn, p.squares[row][col])
    requires |ValidMoveList(p, hist, row, col, true)| > 0
    ensures HasValidMove(p, hist)
  {
  }
}
