/** The end-of-game tests of rulebook.py: draw by insufficient material, draw
    by threefold repetition, and the classification
    check_for_terminal_states_and_king_checks returns. */
module Terminal {
  import opened ChessTypes
  import opened MoveSpec
  import opened Zobrist
  import opened Attacks
  import opened ChessBoard

  // ---------------------------------------------------------------------------
  // Insufficient material.

  /** The non-empty squares of a row, in column order. */
  function RowPieces(row: seq<char>): seq<char> {
    if |row| == 0 then []
    else RowPieces(row[..|row| - 1]) + (if row[|row| - 1] != '.' then [row[|row| - 1]] else [])
  }

  /** The non-empty squares of rows 0..n-1 in row-major order: the list
      is_draw_by_insufficient_material builds for n = 8. */
  function Pieces(g: seq<seq<char>>, n: nat): seq<char>
    requires n <= |g|
  {
    if n == 0 then [] else Pieces(g, n - 1) + RowPieces(g[n - 1])
  }

  /** How often ch occurs in s (list.count). */
  function Count(s: seq<char>, ch: char): nat {
    if |s| == 0 then 0 else Count(s[..|s| - 1], ch) + (if s[|s| - 1] == ch then 1 else 0)
  }

  /** is_draw_by_insufficient_material: no queen, rook or pawn of either
      colour, and each side has at most one bishop or knight. */
  function IsDrawByInsufficientMaterial(g: seq<seq<char>>): bool
    requires WfGrid(g)
  {
    var all := Pieces(g, 8);
    if 'Q' in all || 'R' in all || 'P' in all || 'q' in all || 'r' in all || 'p' in all then false
    else if Count(all, 'b') + Count(all, 'n') <= 1 && Count(all, 'B') + Count(all, 'N') <= 1 then true
    else false
  }

  /** The squares that hold ch, in rows 0..n-1. */
  ghost function SquaresOf(g: seq<seq<char>>, ch: char, n: int): set<(int, int)>
    requires WfGrid(g)
  {
    set r, c | 0 <= r < n && 0 <= r < 8 && 0 <= c < 8 && g[r][c] == ch :: (r, c)
  }

  /** The squares of row r, among its first m, that hold ch. */
  ghost function RowSquaresOf(g: seq<seq<char>>, ch: char, r: int, m: int): set<(int, int)>
    requires WfGrid(g) && 0 <= r < 8
  {
    set c | 0 <= c < m && 0 <= c < 8 && g[r][c] == ch :: (r, c)
  }

  lemma {:induction false} CountAppend(a: seq<char>, b: seq<char>, ch: char)
    ensures Count(a + b, ch) == Count(a, ch) + Count(b, ch)
    decreases |b|
  {
    if |b| == 0 {
      assert a + b == a;
    } else {
      assert (a + b)[..|a + b| - 1] == a + b[..|b| - 1];
      CountAppend(a, b[..|b| - 1], ch);
    }
  }

  /** A piece letter occurs in the row's list as often as on the row's first
      m squares. */
  lemma {:induction false} RowCount(g: seq<seq<char>>, ch: char, r: int, m: nat)
    requires WfGrid(g) && 0 <= r < 8 && m <= 8 && ch != '.'
    ensures Count(RowPieces(g[r][..m]), ch) == |RowSquaresOf(g, ch, r, m)|
  {
    if m > 0 {
      RowCount(g, ch, r, m - 1);
      var row := g[r][..m];
      assert row[..|row| - 1] == g[r][..m - 1];
      var tail := if row[|row| - 1] != '.' then [row[|row| - 1]] else [];
      assert RowPieces(row) == RowPieces(g[r][..m - 1]) + tail;
      CountAppend(RowPieces(g[r][..m - 1]), tail, ch);
      CountLast(tail, g[r][m - 1], ch);
      RowSquaresStep(g, ch, r, m);
    } else {
      assert RowSquaresOf(g, ch, r, m) == {};
    }
  }

  lemma CountLast(tail: seq<char>, x: char, ch: char)
    requires ch != '.' && tail == if x != '.' then [x] else []
    ensures Count(tail, ch) == if x == ch then 1 else 0
  {
    if |tail| == 1 {
      assert tail[..0] == [];
    }
  }

  /** Square m - 1 of row r adds itself to the squares holding ch exactly
      when it holds ch. */
  lemma RowSquaresStep(g: seq<seq<char>>, ch: char, r: int, m: nat)
    requires WfGrid(g) && 0 <= r < 8 && 0 < m <= 8
    ensures |RowSquaresOf(g, ch, r, m)| == |RowSquaresOf(g, ch, r, m - 1)| + (if g[r][m - 1] == ch then 1 else 0)
  {
    var last := if g[r][m - 1] == ch then {(r, m - 1)} else {};
    assert RowSquaresOf(g, ch, r, m) == RowSquaresOf(g, ch, r, m - 1) + last;
    assert (r, m - 1) !in RowSquaresOf(g, ch, r, m - 1);
  }

  /** Row n - 1 adds its own squares holding ch to those of the rows above. */
  lemma SquaresStep(g: seq<seq<char>>, ch: char, n: nat)
    requires WfGrid(g) && 0 < n <= 8
    ensures |SquaresOf(g, ch, n)| == |SquaresOf(g, ch, n - 1)| + |RowSquaresOf(g, ch, n - 1, 8)|
  {
    assert SquaresOf(g, ch, n) == SquaresOf(g, ch, n - 1) + RowSquaresOf(g, ch, n - 1, 8);
    assert SquaresOf(g, ch, n - 1) !! RowSquaresOf(g, ch, n - 1, 8);
  }

  /** A piece letter occurs in the list of rows 0..n-1 as often as it stands
      on their squares. */
  lemma {:induction false} PiecesCount(g: seq<seq<char>>, ch: char, n: nat)
    requires WfGrid(g) && n <= 8 && ch != '.'
    ensures Count(Pieces(g, n), ch) == |SquaresOf(g, ch, n)|
  {
    if n > 0 {
      PiecesCount(g, ch, n - 1);
      RowCount(g, ch, n - 1, 8);
      assert g[n - 1][..8] == g[n - 1];
      CountAppend(Pieces(g, n - 1), RowPieces(g[n - 1]), ch);
      SquaresStep(g, ch, n);
    } else {
      assert SquaresOf(g, ch, n) == {};
    }
  }

  /** A letter occurs in the list exactly when it stands on the board. */
  lemma PiecesHas(g: seq<seq<char>>, ch: char)
    requires WfGrid(g) && ch != '.'
    ensures ch in Pieces(g, 8) <==> exists r, c :: 0 <= r < 8 && 0 <= c < 8 && g[r][c] == ch
  {
    PiecesCount(g, ch, 8);
    CountIn(Pieces(g, 8), ch);
    if exists r, c :: 0 <= r < 8 && 0 <= c < 8 && g[r][c] == ch {
      var r, c :| 0 <= r < 8 && 0 <= c < 8 && g[r][c] == ch;
      assert (r, c) in SquaresOf(g, ch, 8);
    } else {
      assert SquaresOf(g, ch, 8) == {};
    }
  }

  lemma {:induction false} CountIn(s: seq<char>, ch: char)
    ensures ch in s <==> Count(s, ch) > 0
    decreases |s|
  {
    if |s| > 0 {
      CountIn(s[..|s| - 1], ch);
      assert s == s[..|s| - 1] + [s[|s| - 1]];
    }
  }

  /** No queen, rook or pawn of either colour stands on the board. */
  ghost predicate NoMajorOrPawn(g: seq<seq<char>>)
    requires WfGrid(g)
  {
    forall r, c :: 0 <= r < 8 && 0 <= c < 8 ==> g[r][c] !in "QRPqrp"
  }

  /** The draw holds exactly when no queen, rook or pawn stands on the board
      and each side has at most one bishop-or-knight on it, counted by
      squares. */
  lemma InsufficientMaterialIff(g: seq<seq<char>>)
    requires WfGrid(g)
    ensures IsDrawByInsufficientMaterial(g) <==>
      NoMajorOrPawn(g) &&
      |SquaresOf(g, 'b', 8)| + |SquaresOf(g, 'n', 8)| <= 1 && |SquaresOf(g, 'B', 8)| + |SquaresOf(g, 'N', 8)| <= 1
  {
    PiecesHas(g, 'Q');
    PiecesHas(g, 'R');
    PiecesHas(g, 'P');
    PiecesHas(g, 'q');
    PiecesHas(g, 'r');
    PiecesHas(g, 'p');
    PiecesCount(g, 'b', 8);
    PiecesCount(g, 'n', 8);
    PiecesCount(g, 'B', 8);
    PiecesCount(g, 'N', 8);
    if !NoMajorOrPawn(g) {
      var r, c :| 0 <= r < 8 && 0 <= c < 8 && g[r][c] in "QRPqrp";
      assert g[r][c] in Pieces(g, 8);
    }
  }

  // ---------------------------------------------------------------------------
  // Threefold repetition.

  /** The entries of the hash history at an even distance from its end (the
      positions with the current side to move) that equal h, among those at
      index k or later. */
  ghost function MatchesFrom(h: Hash, hist: seq<Hash>, k: int): set<int> {
    set i | k <= i < |hist| && 0 <= i && (|hist| - 1 - i) % 2 == 0 && hist[i] == h
  }

  /** is_draw_by_threefold_repeition: the history is read from its last entry
      back, every other entry compared with the current hash; the draw is
      declared once three equal entries are counted. */
  method IsDrawByThreefoldRepetition(board: Board) returns (draw: bool)
    ensures draw <==> |MatchesFrom(board.zobristHash, board.zobristHistory, 0)| >= 3
  {
    var hash := board.zobristHash;
    var hist := board.zobristHistory;
    var appearances := 0;
    var check := true;
    var k := |hist|;
    while k > 0
      invariant 0 <= k <= |hist|
      invariant check <==> (|hist| - k) % 2 == 0
      invariant appearances == |MatchesFrom(hash, hist, k)| < 3
    {
      k := k - 1;
      if check && hash == hist[k] {
        appearances := appearances + 1;
      }
      assert MatchesFrom(hash, hist, k) ==
        MatchesFrom(hash, hist, k + 1) + (if check && hash == hist[k] then {k} else {});
      if appearances == 3 {
        MatchesGrow(hash, hist, k);
        return true;
      }
      check := !check;
    }
    return false;
  }

  lemma MatchesGrow(h: Hash, hist: seq<Hash>, k: int)
    requires 0 <= k
    ensures |MatchesFrom(h, hist, k)| <= |MatchesFrom(h, hist, 0)|
  {
    var all, part := MatchesFrom(h, hist, 0), MatchesFrom(h, hist, k);
    assert all == part + (all - part);
  }

  /** The history's last entry is the current hash (make_move pushes the hash
      of the position it reaches), so the current position always counts
      once when the history is not empty. */
  lemma CurrentCounts(board: Board)
    requires board.Valid() && |board.zobristHistory| > 0
    ensures |board.zobristHistory| - 1 in MatchesFrom(board.zobristHash, board.zobristHistory, 0)
  {
    var n := |board.moveHistory|;
    assert GameLinks(board.hasher, board.line, board.moveHistory, board.zobristHistory);
    assert board.zobristHistory[n - 1] == board.zobristHash;
  }

  // ---------------------------------------------------------------------------
  // The classification.

  /** check_for_terminal_states_and_king_checks as a value: whether the game
      is over, and the code: 0.1 insufficient material, 0.2 repetition, 0
      stalemate, -1 / 1 black / white wins when over; -1 / 1 black / white
      gives check, 0 otherwise when not. */
  function Outcome(insufficient: bool, repetition: bool, inCheck: bool, anyValidMoves: bool, whitesTurn: bool)
    : (bool, real)
  {
    if insufficient then (true, 0.1)
    else if repetition then (true, 0.2)
    else if !inCheck && !anyValidMoves then (true, 0.0)
    else if whitesTurn && inCheck && !anyValidMoves then (true, -1.0)
    else if whitesTurn && inCheck then (false, -1.0)
    else if !whitesTurn && inCheck && !anyValidMoves then (true, 1.0)
    else if !whitesTurn && inCheck then (false, 1.0)
    else (false, 0.0)
  }

  /** What the classification means: the game is over exactly on a draw or
      when the side to move has no move; a draw code comes only from the two
      draw tests, insufficient material first; otherwise the code is nonzero
      exactly when the side to move is in check, and its sign names the side
      giving check (or winning): -1 black, 1 white. */
  lemma OutcomeMeaning(insufficient: bool, repetition: bool, inCheck: bool, anyValidMoves: bool, whitesTurn: bool)
    ensures var (over, code) := Outcome(insufficient, repetition, inCheck, anyValidMoves, whitesTurn);
      (over <==> insufficient || repetition || !anyValidMoves) &&
      (code == 0.1 <==> insufficient) &&
      (code == 0.2 <==> !insufficient && repetition) &&
      (!insufficient && !repetition ==>
        (code != 0.0 <==> inCheck) &&
        (inCheck ==> code == (if whitesTurn then -1.0 else 1.0)))
  {
  }

  /** check_for_terminal_states_and_king_checks, for the side to move and the
      answer of are_there_any_valid_moves. */
  method CheckForTerminalStatesAndKingChecks(board: Board, anyValidMoves: bool) returns (over: bool, code: real)
    requires WfGrid(board.squares)
    ensures (over, code) == Outcome(IsDrawByInsufficientMaterial(board.squares),
      |MatchesFrom(board.zobristHash, board.zobristHistory, 0)| >= 3,
      InCheck(board.whitesTurn, board.squares), anyValidMoves, board.whitesTurn)
  {
    if IsDrawByInsufficientMaterial(board.squares) {
      return true, 0.1;
    }
    var repetition := IsDrawByThreefoldRepetition(board);
    if repetition {
      return true, 0.2;
    }
    var inCheck := IsKingInCheck(board.whitesTurn, board.squares);
    if !inCheck && !anyValidMoves {
      return true, 0.0;
    }
    if board.whitesTurn {
      if inCheck && !anyValidMoves {
        return true, -1.0;
      }
      if inCheck {
        return false, -1.0;
      }
    } else {
      if inCheck && !anyValidMoves {
        return true, 1.0;
      }
      if inCheck {
        return false, 1.0;
      }
    }
    return false, 0.0;
  }
}
