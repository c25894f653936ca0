/** Square names and the move text of rulebook.py: loc_to_notation,
    notation_to_loc and algebraic_notation (Standard Algebraic Notation as in
    section 8.2.3 of the PGN Standard, with the program's own choices). */
module Notation {
  import opened ChessTypes
  import opened ChessBoard

  const Files: string := "abcdefgh"

  /** The text of a number 0..9, as str gives it. */
  function DigitChar(n: int): char
    requires 0 <= n <= 9
  {
    ('0' as int + n) as char
  }

  predicate IsDigit(ch: char) {
    '0' <= ch <= '9'
  }

  function DigitValue(ch: char): (d: int)
    requires IsDigit(ch)
    ensures 0 <= d <= 9 && DigitChar(d) == ch
  {
    ch as int - '0' as int
  }

  /** The position of a file letter in "abcdefgh" (index gives the first). */
  function FileIndex(ch: char): (i: int)
    requires ch in Files
    ensures 0 <= i < 8 && Files[i] == ch
    ensures forall j :: 0 <= j < i ==> Files[j] != ch
  {
    if ch == 'a' then 0 else if ch == 'b' then 1 else if ch == 'c' then 2 else if ch == 'd' then 3
    else if ch == 'e' then 4 else if ch == 'f' then 5 else if ch == 'g' then 6 else 7
  }

  /** loc_to_notation: the file letter of the column, then the rank 8 - row.
      Reading the name back gives the square again. */
  function LocToNotation(row: int, col: int): (n: string)
    requires InBounds(row, col)
    ensures |n| == 2 && n[0] in Files && '1' <= n[1] <= '8'
    ensures NotationToLoc(n) == Some((row, col))
  {
    [Files[col], DigitChar(8 - row)]
  }

  /** notation_to_loc: the row and column a square name denotes. A name
      shorter than two characters, a first character that is not a file
      letter, or a second that is not a digit is an error (None); a digit
      outside 1..8 gives a row off the board, as the program's arithmetic does.
      Characters after the second are ignored. */
  function NotationToLoc(n: string): (loc: Option<(int, int)>)
    ensures loc.Some? <==> |n| >= 2 && n[0] in Files && IsDigit(n[1])
    ensures loc.Some? ==>
      0 <= loc.value.1 < 8 && Files[loc.value.1] == n[0] && -1 <= loc.value.0 <= 8 && DigitChar(8 - loc.value.0) == n[1]
  {
    if |n| < 1 || n[0] !in Files then None
    else if |n| < 2 || !IsDigit(n[1]) then None
    else Some((8 - DigitValue(n[1]), FileIndex(n[0])))
  }

  /** Every two-character square name denotes a square on the board whose
      name is that text again. */
  lemma NameRoundTrip(n: string)
    requires |n| == 2 && n[0] in Files && '1' <= n[1] <= '8'
    ensures NotationToLoc(n).Some?
    ensures InBounds(NotationToLoc(n).value.0, NotationToLoc(n).value.1)
    ensures LocToNotation(NotationToLoc(n).value.0, NotationToLoc(n).value.1) == n
  {
    var loc := NotationToLoc(n).value;
    assert LocToNotation(loc.0, loc.1)[1] == n[1];
  }

  // ---------------------------------------------------------------------------
  // algebraic_notation.

  /** Another piece of the same kind, listed in all_valid_moves with a
      non-empty list, that reaches (er, ec) by one of the tuples the program
      looks for. The program's list names the ordinary (non-en-passant)
      capture tuple twice and never the en-passant capture; only pawns have en-passant moves and pawns
      never reach this test, so nothing depends on it. */
  predicate Rival(g: seq<seq<char>>, sr: int, sc: int, er: int, ec: int,
                  all: map<(int, int), seq<Move>>, r: int, c: int)
    requires WfGrid(g) && InBounds(sr, sc) && InBounds(r, c)
  {
    (r, c) != (sr, sc) && (r, c) in all && |all[(r, c)]| > 0 && Upper(g[sr][sc]) == Upper(g[r][c]) &&
    (Move(er, ec, false, false) in all[(r, c)] || Move(er, ec, true, false) in all[(r, c)] ||
     Move(er, ec, false, true) in all[(r, c)] || Move(er, ec, false, true) in all[(r, c)])
  }

  ghost predicate Ambiguous(g: seq<seq<char>>, sr: int, sc: int, er: int, ec: int, all: map<(int, int), seq<Move>>)
    requires WfGrid(g) && InBounds(sr, sc)
  {
    exists r, c :: InBounds(r, c) && Rival(g, sr, sc, er, ec, all, r, c)
  }

  /** Some rival stands on the moving piece's file. */
  ghost predicate RivalOnFile(g: seq<seq<char>>, sr: int, sc: int, er: int, ec: int, all: map<(int, int), seq<Move>>)
    requires WfGrid(g) && InBounds(sr, sc)
  {
    exists r, c :: InBounds(r, c) && Rival(g, sr, sc, er, ec, all, r, c) && c == sc
  }

  /** Some rival stands on the moving piece's rank. */
  ghost predicate RivalOnRank(g: seq<seq<char>>, sr: int, sc: int, er: int, ec: int, all: map<(int, int), seq<Move>>)
    requires WfGrid(g) && InBounds(sr, sc)
  {
    exists r, c :: InBounds(r, c) && Rival(g, sr, sc, er, ec, all, r, c) && r == sr
  }

  /** What follows the piece letter to tell rivals apart: nothing, the file,
      the rank, or the whole square. */
  ghost function Disambiguation(g: seq<seq<char>>, sr: int, sc: int, er: int, ec: int,
                                all: map<(int, int), seq<Move>>): string
    requires WfGrid(g) && InBounds(sr, sc)
  {
    var from := LocToNotation(sr, sc);
    if !Ambiguous(g, sr, sc, er, ec, all) then ""
    else if !RivalOnFile(g, sr, sc, er, ec, all) then [from[0]]
    else if !RivalOnRank(g, sr, sc, er, ec, all) then [from[1]]
    else from
  }

  /** A pawn leaving its file for an empty square: the program's en-passant
      test. */
  predicate EnPassantMove(g: seq<seq<char>>, sr: int, sc: int, er: int, ec: int)
    requires WfGrid(g) && InBounds(sr, sc) && InBounds(er, ec)
  {
    Upper(g[sr][sc]) == 'P' && sc != ec && g[er][ec] == '.'
  }

  predicate CaptureMove(g: seq<seq<char>>, sr: int, sc: int, er: int, ec: int)
    requires WfGrid(g) && InBounds(sr, sc) && InBounds(er, ec)
  {
    g[er][ec] != '.' || EnPassantMove(g, sr, sc, er, ec)
  }

  /** The side to move's pawn reaching the far rank. */
  predicate PromotionMove(g: seq<seq<char>>, whitesTurn: bool, sr: int, sc: int, er: int)
    requires WfGrid(g) && InBounds(sr, sc)
  {
    (whitesTurn && er == 0 && g[sr][sc] == 'P') || (!whitesTurn && er == 7 && g[sr][sc] == 'p')
  }

  predicate CastlingMove(g: seq<seq<char>>, sr: int, sc: int, ec: int)
    requires WfGrid(g) && InBounds(sr, sc)
  {
    Upper(g[sr][sc]) == 'K' && (sc - ec == 2 || sc - ec == -2)
  }

  /** The move text algebraic_notation gives for the move (sr, sc) to
      (er, ec) made by the side to move, given every legal list of that side. */
  ghost function San(g: seq<seq<char>>, whitesTurn: bool, sr: int, sc: int, er: int, ec: int,
                     all: map<(int, int), seq<Move>>): string
    requires WfGrid(g) && InBounds(sr, sc) && InBounds(er, ec)
  {
    var up := Upper(g[sr][sc]);
    var capture := CaptureMove(g, sr, sc, er, ec);
    if up == 'K' && sc - ec == 2 then "O-O-O"
    else if up == 'K' && sc - ec == -2 then "O-O"
    else
      (if up == 'P' && capture then [LocToNotation(sr, sc)[0]]
       else if up != 'P' then [up] + Disambiguation(g, sr, sc, er, ec, all)
       else "") +
      (if capture then "x" else "") + LocToNotation(er, ec) +
      (if PromotionMove(g, whitesTurn, sr, sc, er) then "=Q" else "")
  }

  /** algebraic_notation: the castling texts, or the piece letter (a pawn
      capture: the file it leaves), the disambiguation found by scanning the
      board for rivals, "x" for a capture, the destination and "=Q" for a
      promotion. */
  method AlgebraicNotation(sr: int, sc: int, er: int, ec: int, all: map<(int, int), seq<Move>>, board: Board)
    returns (notation: string)
    requires WfGrid(board.squares) && InBounds(sr, sc) && InBounds(er, ec)
    ensures notation == San(board.squares, board.whitesTurn, sr, sc, er, ec, all)
  {
    var g := board.squares;
    var piece := g[sr][sc];
    var pieceUpper := Upper(piece);
    var isEnPassant := pieceUpper == 'P' && sc != ec && g[er][ec] == '.';
    var isPromotion := (board.whitesTurn && er == 0 && piece == 'P') || (!board.whitesTurn && er == 7 && piece == 'p');
    var capture := g[er][ec] != '.' || isEnPassant;
    assert capture == CaptureMove(g, sr, sc, er, ec);
    assert isPromotion == PromotionMove(g, board.whitesTurn, sr, sc, er);
    if pieceUpper == 'K' && sc - ec == 2 {
      return "O-O-O";
    } else if pieceUpper == 'K' && sc - ec == -2 {
      return "O-O";
    }
    notation := "";
    if pieceUpper == 'P' && capture {
      notation := notation + [LocToNotation(sr, sc)[0]];
    } else if pieceUpper != 'P' {
      notation := notation + [pieceUpper];
      var ambiguous, sameFile, sameRank := Disambiguate(g, sr, sc, er, ec, all);
      if ambiguous {
        if !sameFile {
          notation := notation + [LocToNotation(sr, sc)[0]];
        } else if !sameRank {
          notation := notation + [LocToNotation(sr, sc)[1]];
        } else {
          notation := notation + LocToNotation(sr, sc);
        }
      }
      assert notation == [pieceUpper] + Disambiguation(g, sr, sc, er, ec, all);
    }
    ghost var lead := notation;
    assert lead == if pieceUpper == 'P' && capture then [LocToNotation(sr, sc)[0]]
      else if pieceUpper != 'P' then [pieceUpper] + Disambiguation(g, sr, sc, er, ec, all)
      else "";
    if capture {
      notation := notation + "x";
    }
    ghost var marked := notation;
    assert marked == lead + (if capture then "x" else "");
    var dest := LocToNotation(er, ec);
    notation := notation + dest;
    if isPromotion {
      notation := notation + "=Q";
    }
    assert notation == marked + dest + (if isPromotion then "=Q" else "");
  }

  /** The ambiguity scan of algebraic_notation: every square in row-major
      order is examined for a rival, and the three flags record whether one was
      found, one on the same file, one on the same rank. */
  method Disambiguate(g: seq<seq<char>>, sr: int, sc: int, er: int, ec: int, all: map<(int, int), seq<Move>>)
    returns (ambiguous: bool, sameFile: bool, sameRank: bool)
    requires WfGrid(g) && InBounds(sr, sc)
    ensures ambiguous == Ambiguous(g, sr, sc, er, ec, all)
    ensures sameFile == RivalOnFile(g, sr, sc, er, ec, all)
    ensures sameRank == RivalOnRank(g, sr, sc, er, ec, all)
  {
    ambiguous, sameFile, sameRank := false, false, false;
    // Where the flags were last set: a rival, one on the file, one on the rank.
    ghost var ar, ac, fr, rc := 0, 0, 0, 0;
    var row := 0;
    while row < 8
      invariant 0 <= row <= 8
      invariant ambiguous ==> 0 <= ar < row && 0 <= ac < 8 && Rival(g, sr, sc, er, ec, all, ar, ac)
      invariant sameFile ==> 0 <= fr < row && Rival(g, sr, sc, er, ec, all, fr, sc)
      invariant sameRank ==> sr < row && 0 <= rc < 8 && Rival(g, sr, sc, er, ec, all, sr, rc)
      invariant forall r, c :: 0 <= r < row && 0 <= c < 8 && Rival(g, sr, sc, er, ec, all, r, c) ==>
        ambiguous && (c == sc ==> sameFile) && (r == sr ==> sameRank)
    {
      var col := 0;
      while col < 8
        invariant 0 <= col <= 8
        invariant ambiguous ==>
          0 <= ar <= row && 0 <= ac < 8 && (ar < row || ac < col) && Rival(g, sr, sc, er, ec, all, ar, ac)
        invariant sameFile ==> 0 <= fr <= row && (fr < row || sc < col) && Rival(g, sr, sc, er, ec, all, fr, sc)
        invariant sameRank ==>
          sr <= row && 0 <= rc < 8 && (sr < row || rc < col) && Rival(g, sr, sc, er, ec, all, sr, rc)
        invariant forall r, c ::
          (0 <= r <= row && 0 <= c < 8 && (r < row || c < col) && Rival(g, sr, sc, er, ec, all, r, c)) ==>
          ambiguous && (c == sc ==> sameFile) && (r == sr ==> sameRank)
      {
        if (row, col) != (sr, sc) && (row, col) in all {
          var moves := all[(row, col)];
          if |moves| > 0 && Upper(g[sr][sc]) == Upper(g[row][col]) &&
             (Move(er, ec, false, false) in moves || Move(er, ec, true, false) in moves ||
              Move(er, ec, false, true) in moves || Move(er, ec, false, true) in moves) {
            ambiguous := true;
            ar, ac := row, col;
            if sc == col {
              sameFile := true;
              fr := row;
            }
            if sr == row {
              sameRank := true;
              rc := col;
            }
          }
        }
        col := col + 1;
      }
      row := row + 1;
    }
  }

  // ---------------------------------------------------------------------------
  // What the move text says.

  /** A king moving two files to the left is written "O-O-O", two files to the
      right "O-O". */
  lemma SanCastling(g: seq<seq<char>>, whitesTurn: bool, sr: int, sc: int, er: int, ec: int,
                    all: map<(int, int), seq<Move>>)
    requires WfGrid(g) && InBounds(sr, sc) && InBounds(er, ec) && CastlingMove(g, sr, sc, ec)
    ensures San(g, whitesTurn, sr, sc, er, ec, all) == (if ec < sc then "O-O-O" else "O-O")
  {
  }

  /** Outside castling the text ends with the destination square, followed by
      "=Q" exactly for a promotion; it holds an "x" exactly for a capture, and
      then the "x" stands right before the destination. */
  lemma SanParts(g: seq<seq<char>>, whitesTurn: bool, sr: int, sc: int, er: int, ec: int,
                 all: map<(int, int), seq<Move>>)
    requires WfGrid(g) && InBounds(sr, sc) && InBounds(er, ec) && !CastlingMove(g, sr, sc, ec)
    ensures var s := San(g, whitesTurn, sr, sc, er, ec, all);
      var k := if PromotionMove(g, whitesTurn, sr, sc, er) then 2 else 0;
      |s| >= k + 2 && s[|s| - k - 2..|s| - k] == LocToNotation(er, ec) &&
      (PromotionMove(g, whitesTurn, sr, sc, er) <==> s[|s| - 2..] == "=Q") &&
      (CaptureMove(g, sr, sc, er, ec) <==> 'x' in s) &&
      (CaptureMove(g, sr, sc, er, ec) ==> |s| >= k + 3 && s[|s| - k - 3] == 'x')
  {
    var s := San(g, whitesTurn, sr, sc, er, ec, all);
    var up := Upper(g[sr][sc]);
    var lead := if up == 'P' && CaptureMove(g, sr, sc, er, ec) then [LocToNotation(sr, sc)[0]]
      else if up != 'P' then [up] + Disambiguation(g, sr, sc, er, ec, all)
      else "";
    var mark := if CaptureMove(g, sr, sc, er, ec) then "x" else "";
    var dest := LocToNotation(er, ec);
    var promo := if PromotionMove(g, whitesTurn, sr, sc, er) then "=Q" else "";
    assert s == lead + mark + dest + promo;
    NoMarkBefore(g, sr, sc, er, ec, all);
    assert 'x' !in lead by {
      assert up != 'x';
    }
    NoMarkBefore(g, er, ec, er, ec, all);
    TextLayout(lead, mark, dest, promo);
  }

  /** Neither a square name nor a disambiguation holds an 'x' or starts
      with '='. */
  lemma NoMarkBefore(g: seq<seq<char>>, sr: int, sc: int, er: int, ec: int, all: map<(int, int), seq<Move>>)
    requires WfGrid(g) && InBounds(sr, sc)
    ensures 'x' !in LocToNotation(sr, sc) && LocToNotation(sr, sc)[0] != '='
    ensures 'x' !in Disambiguation(g, sr, sc, er, ec, all)
  {
    var from := LocToNotation(sr, sc);
    assert from[0] != 'x' && from[1] != 'x';
  }

  /** Where the pieces of a move text sit: the destination square just
      before the promotion suffix, the capture mark just before it, and no
      other 'x'. */
  lemma TextLayout(lead: string, mark: string, dest: string, promo: string)
    requires |dest| == 2 && dest[0] != '='
    requires (mark == "" || mark == "x") && (promo == "" || promo == "=Q")
    requires 'x' !in lead && 'x' !in dest
    ensures var s, k := lead + mark + dest + promo, |promo|;
      |s| >= k + 2 && s[|s| - k - 2..|s| - k] == dest &&
      (promo == "=Q" <==> s[|s| - 2..] == "=Q") &&
      (mark == "x" <==> 'x' in s) &&
      (mark == "x" ==> |s| >= k + 3 && s[|s| - k - 3] == 'x')
  {
    var s, k := lead + mark + dest + promo, |promo|;
    assert s == lead + mark + (dest + promo);
    assert s[|s| - k - 2..|s| - k] == dest;
    if promo == "" {
      assert s[|s| - 2..] == dest;
    }
    if mark == "x" {
      assert s[|lead|] == 'x';
    } else {
      assert s == lead + (dest + promo);
    }
  }

  /** A pawn capture begins with the file the pawn leaves, then "x". */
  lemma SanPawnCapture(g: seq<seq<char>>, whitesTurn: bool, sr: int, sc: int, er: int, ec: int,
                       all: map<(int, int), seq<Move>>)
    requires WfGrid(g) && InBounds(sr, sc) && InBounds(er, ec)
    requires Upper(g[sr][sc]) == 'P' && CaptureMove(g, sr, sc, er, ec)
    ensures var s := San(g, whitesTurn, sr, sc, er, ec, all);
      |s| >= 4 && s[0] == Files[sc] && s[1] == 'x'
  {
  }

  /** Whether a disambiguation d fits the square (r, c): empty, the square's
      file or rank, or the square itself. */
  predicate Fits(d: string, r: int, c: int)
    requires InBounds(r, c)
  {
    d == "" || (|d| == 1 && (d[0] == Files[c] || d[0] == DigitChar(8 - r))) || d == LocToNotation(r, c)
  }

  /** The disambiguation fits the moving piece's square and no rival's: read
      with the destination it names the one piece that moves, as section
      8.2.3.4 of the PGN Standard asks. */
  lemma DisambiguationSeparates(g: seq<seq<char>>, sr: int, sc: int, er: int, ec: int,
                                all: map<(int, int), seq<Move>>)
    requires WfGrid(g) && InBounds(sr, sc)
    ensures Fits(Disambiguation(g, sr, sc, er, ec, all), sr, sc)
    ensures forall r, c :: InBounds(r, c) && Rival(g, sr, sc, er, ec, all, r, c) ==>
      !Fits(Disambiguation(g, sr, sc, er, ec, all), r, c)
  {
    var d := Disambiguation(g, sr, sc, er, ec, all);
    forall r, c | InBounds(r, c) && Rival(g, sr, sc, er, ec, all, r, c)
      ensures !Fits(d, r, c)
    {
      assert Ambiguous(g, sr, sc, er, ec, all);
      var from, other := LocToNotation(sr, sc), LocToNotation(r, c);
      assert from != other by {
        assert NotationToLoc(from) != NotationToLoc(other);
      }
      if !RivalOnFile(g, sr, sc, er, ec, all) {
        assert c != sc;
        assert d == [Files[sc]];
      } else if !RivalOnRank(g, sr, sc, er, ec, all) {
        assert r != sr;
        assert d == [DigitChar(8 - sr)];
      } else {
        assert d == from;
      }
    }
  }
}
