/** opening_finder.py: the piece-placement field of FEN (section 16.1.3.1 of
    the PGN Standard) built from the board, and the lookup of that text in the
    opening table. */
module Openings {
  import opened ChessTypes
  import opened Notation
  import opened ChessBoard

  // ---------------------------------------------------------------------------
  // The placement text.

  /** The text find_opening writes for the rest of a row, when `skip` empty
      squares before it are not yet written: pieces as their letters, each
      maximal run of empty squares as its length. */
  function RowCode(row: seq<char>, skip: nat): string
    requires skip + |row| <= 8
  {
    if |row| == 0 then (if skip > 0 then [DigitChar(skip)] else [])
    else if row[0] == '.' then RowCode(row[1..], skip + 1)
    else (if skip > 0 then [DigitChar(skip)] else []) + [row[0]] + RowCode(row[1..], 0)
  }

  /** The text for rows 0..n-1 (ranks 8 down), each but row 7 followed by '/'. */
  function Placement(g: seq<seq<char>>, n: nat): string
    requires WfGrid(g) && n <= 8
  {
    if n == 0 then ""
    else Placement(g, n - 1) + RowCode(g[n - 1], 0) + (if n - 1 != 7 then "/" else "")
  }

  // ---------------------------------------------------------------------------
  // Reading the text back.

  function Dots(n: nat): seq<char> {
    if n == 0 then [] else Dots(n - 1) + ['.']
  }

  /** A rank segment read back: a digit stands for that many empty squares. */
  function Expand(code: string): seq<char> {
    if |code| == 0 then []
    else (if IsDigit(code[0]) then Dots(DigitValue(code[0])) else [code[0]]) + Expand(code[1..])
  }

  /** The width a segment covers: piece characters count one, digits their
      value. */
  function Width(code: string): nat {
    if |code| == 0 then 0
    else (if IsDigit(code[0]) then DigitValue(code[0]) else 1) + Width(code[1..])
  }

  /** No two digits stand next to each other. */
  predicate NoAdjacentDigits(code: string) {
    forall i :: 0 <= i < |code| - 1 && IsDigit(code[i]) ==> !IsDigit(code[i + 1])
  }

  /** The '/'-separated segments of a text. */
  function Split(s: string): (segments: seq<string>)
    ensures |segments| > 0
  {
    if |s| == 0 then [""]
    else
      var init := Split(s[..|s| - 1]);
      if s[|s| - 1] == '/' then init + [""]
      else init[..|init| - 1] + [init[|init| - 1] + [s[|s| - 1]]]
  }

  function Slashes(s: string): nat {
    if |s| == 0 then 0 else Slashes(s[..|s| - 1]) + (if s[|s| - 1] == '/' then 1 else 0)
  }

  // ---------------------------------------------------------------------------
  // Row lemmas.

  lemma {:induction false} ExpandAppend(a: string, b: string)
    ensures Expand(a + b) == Expand(a) + Expand(b)
    ensures Width(a + b) == Width(a) + Width(b)
    decreases |a|
  {
    if |a| == 0 {
      assert a + b == b;
    } else {
      assert (a + b)[1..] == a[1..] + b;
      ExpandAppend(a[1..], b);
    }
  }

  lemma DigitExpands(n: nat)
    requires 0 < n <= 8
    ensures Expand([DigitChar(n)]) == Dots(n) && Width([DigitChar(n)]) == n
  {
    assert [DigitChar(n)][1..] == [];
    assert DigitValue(DigitChar(n)) == n;
  }

  lemma {:induction false} DotsLength(n: nat)
    ensures |Dots(n)| == n
  {
    if n > 0 {
      DotsLength(n - 1);
    }
  }

  /** A row's text reads back as the row (after the pending empty squares),
      and covers its width. */
  lemma {:induction false} RowCodeExpands(row: seq<char>, skip: nat)
    requires skip + |row| <= 8 && forall i :: 0 <= i < |row| ==> IsSquareChar(row[i])
    ensures Expand(RowCode(row, skip)) == Dots(skip) + row
    ensures Width(RowCode(row, skip)) == skip + |row|
    decreases |row|
  {
    if |row| == 0 {
      FlushExpands(skip);
      assert Dots(skip) + row == Dots(skip);
    } else if row[0] == '.' {
      RowCodeExpands(row[1..], skip + 1);
      DotStep(row, skip);
    } else {
      RowCodeExpands(row[1..], 0);
      PieceStep(row, skip);
    }
  }

  /** An empty square joins the pending run. */
  lemma DotStep(row: seq<char>, skip: nat)
    requires skip + |row| <= 8 && |row| > 0 && row[0] == '.'
    requires Expand(RowCode(row[1..], skip + 1)) == Dots(skip + 1) + row[1..]
    requires Width(RowCode(row[1..], skip + 1)) == skip + 1 + |row[1..]|
    ensures Expand(RowCode(row, skip)) == Dots(skip) + row
    ensures Width(RowCode(row, skip)) == skip + |row|
  {
    assert RowCode(row, skip) == RowCode(row[1..], skip + 1);
    assert Dots(skip + 1) == Dots(skip) + ['.'];
    AppendAssoc(Dots(skip), ['.'], row[1..]);
    assert ['.'] + row[1..] == row;
  }

  /** A piece flushes the pending run and is written as itself. */
  lemma PieceStep(row: seq<char>, skip: nat)
    requires skip + |row| <= 8 && |row| > 0 && row[0] != '.' && IsSquareChar(row[0])
    requires Expand(RowCode(row[1..], 0)) == row[1..]
    requires Width(RowCode(row[1..], 0)) == |row[1..]|
    ensures Expand(RowCode(row, skip)) == Dots(skip) + row
    ensures Width(RowCode(row, skip)) == skip + |row|
  {
    var flush: string := if skip > 0 then [DigitChar(skip)] else [];
    var rest := RowCode(row[1..], 0);
    assert RowCode(row, skip) == flush + [row[0]] + rest;
    FlushExpands(skip);
    PieceExpands(flush, row[0], rest);
    assert row == [row[0]] + row[1..];
  }

  /** The digit written for `skip` pending empty squares (none for zero)
      reads back as that many empty squares. */
  lemma FlushExpands(skip: nat)
    requires skip <= 8
    ensures var flush: string := if skip > 0 then [DigitChar(skip)] else [];
      Expand(flush) == Dots(skip) && Width(flush) == skip
  {
    if skip > 0 {
      DigitExpands(skip);
    }
  }

  /** A piece letter between the pending digit and the rest reads back as
      itself and covers one square. */
  lemma PieceExpands(flush: string, piece: char, rest: string)
    requires IsSquareChar(piece) && piece != '.'
    ensures Expand(flush + [piece] + rest) == Expand(flush) + [piece] + Expand(rest)
    ensures Width(flush + [piece] + rest) == Width(flush) + 1 + Width(rest)
  {
    ExpandAppend(flush + [piece], rest);
    ExpandAppend(flush, [piece]);
    assert !IsDigit(piece);
    assert [piece][1..] == [];
  }

  /** Runs of empty squares are written as one digit each, so no two digits
      are adjacent; and the text holds no '/'. */
  lemma {:induction false} RowCodeDigits(row: seq<char>, skip: nat)
    requires skip + |row| <= 8 && forall i :: 0 <= i < |row| ==> IsSquareChar(row[i])
    ensures NoAdjacentDigits(RowCode(row, skip))
    ensures '/' !in RowCode(row, skip)
    ensures |RowCode(row, skip)| > 0 && IsDigit(RowCode(row, skip)[0]) ==> skip > 0 || (|row| > 0 && row[0] == '.')
    decreases |row|
  {
    if |row| > 0 {
      if row[0] == '.' {
        RowCodeDigits(row[1..], skip + 1);
      } else {
        RowCodeDigits(row[1..], 0);
        var flush: string := if skip > 0 then [DigitChar(skip)] else [];
        var rest := RowCode(row[1..], 0);
        var code := flush + [row[0]] + rest;
        assert RowCode(row, skip) == code;
        assert !IsDigit(row[0]);
        forall i | 0 <= i < |code| - 1 && IsDigit(code[i])
          ensures !IsDigit(code[i + 1])
        {
          if i >= |flush| + 1 {
            assert code[i] == rest[i - |flush| - 1] && code[i + 1] == rest[i - |flush|];
          }
        }
      }
    }
  }

  // ---------------------------------------------------------------------------
  // The whole text.

  lemma {:induction false} SplitSlash(s: string)
    ensures Split(s + "/") == Split(s) + [""]
  {
    assert (s + "/")[..|s + "/"| - 1] == s;
  }

  /** Appending text without '/' extends the last segment. */
  lemma {:induction false} SplitExtend(s: string, t: string)
    requires '/' !in t
    ensures |Split(s + t)| == |Split(s)|
    ensures Split(s + t)[..|Split(s)| - 1] == Split(s)[..|Split(s)| - 1]
    ensures Split(s + t)[|Split(s)| - 1] == Split(s)[|Split(s)| - 1] + t
    decreases |t|
  {
    if |t| == 0 {
      assert s + t == s;
    } else {
      var u := t[..|t| - 1];
      SplitExtend(s, u);
      assert (s + t)[..|s + t| - 1] == s + u;
      assert t[|t| - 1] in t;
      assert u + [t[|t| - 1]] == t;
    }
  }

  /** The texts of rows 0..n-1. */
  function Codes(g: seq<seq<char>>, n: nat): (codes: seq<string>)
    requires WfGrid(g) && n <= 8
    ensures |codes| == n && forall i :: 0 <= i < n ==> codes[i] == RowCode(g[i], 0)
  {
    if n == 0 then [] else Codes(g, n - 1) + [RowCode(g[n - 1], 0)]
  }

  /** Writing a segment after a '/' (or at the start) fills the last, empty
      segment; a '/' after it opens a new one. */
  lemma AppendSegment(s: string, code: string, slash: bool)
    requires '/' !in code && Split(s)[|Split(s)| - 1] == ""
    ensures var a := Split(s);
      Split(s + code + (if slash then "/" else "")) == a[..|a| - 1] + [code] + (if slash then [""] else [])
    ensures Slashes(s + code + (if slash then "/" else "")) == Slashes(s) + (if slash then 1 else 0)
  {
    var a, t := Split(s), s + code;
    var b := Split(t);
    SplitExtend(s, code);
    assert a[|a| - 1] + code == code;
    assert b[..|b| - 1] == a[..|a| - 1] && b[|b| - 1] == code;
    assert b == a[..|a| - 1] + [code] by {
      assert b == b[..|b| - 1] + [b[|b| - 1]];
    }
    NoSlashes(code);
    SlashesAppend(s, code);
    if slash {
      assert s + code + "/" == t + "/";
      SplitSlash(t);
      SlashesAppend(t, "/");
    } else {
      assert s + code + "" == t;
    }
  }

  /** The segments of the text of rows 0..n-1: one per row, and an empty one
      after the last '/'. */
  lemma {:induction false} PlacementSegments(g: seq<seq<char>>, n: nat)
    requires WfGrid(g) && n <= 8
    ensures Split(Placement(g, n)) == Codes(g, n) + (if n < 8 then [""] else [])
    ensures Slashes(Placement(g, n)) == (if n == 8 then 7 else n)
  {
    if n > 0 {
      PlacementSegments(g, n - 1);
      RowCodeDigits(g[n - 1], 0);
      var before := Placement(g, n - 1);
      var a := Split(before);
      assert a == Codes(g, n - 1) + [""];
      assert a[..|a| - 1] == Codes(g, n - 1);
      AppendSegment(before, RowCode(g[n - 1], 0), n - 1 != 7);
    }
  }

  lemma {:induction false} SlashesAppend(a: string, b: string)
    ensures Slashes(a + b) == Slashes(a) + Slashes(b)
    decreases |b|
  {
    if |b| == 0 {
      assert a + b == a;
    } else {
      assert (a + b)[..|a + b| - 1] == a + b[..|b| - 1];
      SlashesAppend(a, b[..|b| - 1]);
    }
  }

  lemma {:induction false} NoSlashes(s: string)
    requires '/' !in s
    ensures Slashes(s) == 0
    decreases |s|
  {
    if |s| > 0 {
      assert s[..|s| - 1] + [s[|s| - 1]] == s;
      NoSlashes(s[..|s| - 1]);
    }
  }

  /** The placement text of a board: eight rank segments, row 0 first,
      separated by exactly seven '/'; each reads back as its row, covers eight
      squares and has no two adjacent digits. */
  lemma PlacementRoundTrip(g: seq<seq<char>>)
    requires WfGrid(g)
    ensures var segs := Split(Placement(g, 8));
      Slashes(Placement(g, 8)) == 7 && |segs| == 8 &&
      forall i :: 0 <= i < 8 ==> Expand(segs[i]) == g[i] && Width(segs[i]) == 8 && NoAdjacentDigits(segs[i])
  {
    PlacementSegments(g, 8);
    assert Split(Placement(g, 8)) == Codes(g, 8);
    forall i | 0 <= i < 8
      ensures Expand(RowCode(g[i], 0)) == g[i] && Width(RowCode(g[i], 0)) == 8 && NoAdjacentDigits(RowCode(g[i], 0))
    {
      RowCodeExpands(g[i], 0);
      RowCodeDigits(g[i], 0);
      assert Dots(0) + g[i] == g[i];
    }
  }

  /** Boards with the same placement text are the same board: the text is a
      faithful key. */
  lemma PlacementInjective(g: seq<seq<char>>, h: seq<seq<char>>)
    requires WfGrid(g) && WfGrid(h) && Placement(g, 8) == Placement(h, 8)
    ensures g == h
  {
    PlacementRoundTrip(g);
    PlacementRoundTrip(h);
    GridExt(g, h);
  }

  // ---------------------------------------------------------------------------
  // The finder.

  /** OpeningFinder: the opening table, keyed by placement text, and how many
      openings were loaded into it. */
  class OpeningFinder {
    var totalOpeningsLoaded: nat
    var openings: map<string, string>

    constructor ()
      ensures totalOpeningsLoaded == 0 && openings == map[]
    {
      totalOpeningsLoaded := 0;
      openings := map[];
    }

    /** find_opening: the board's placement text, built square by square, and
        the table's name for it, or None when the table has no entry. */
    method FindOpening(board: Board) returns (name: Option<string>)
      requires WfGrid(board.squares)
      ensures name.Some? <==> Placement(board.squares, 8) in openings
      ensures name.Some? ==> name.value == openings[Placement(board.squares, 8)]
    {
      var g := board.squares;
      var fen := "";
      var row := 0;
      while row < 8
        invariant 0 <= row <= 8
        invariant fen == Placement(g, row)
      {
        var skip := 0;
        var col := 0;
        while col < 8
          invariant 0 <= col <= 8 && skip <= col
          invariant fen + RowCode(g[row][col..], skip) == Placement(g, row) + RowCode(g[row], 0)
        {
          var c := g[row][col];
          assert g[row][col..][1..] == g[row][col + 1..];
          if c == '.' {
            skip := skip + 1;
          } else {
            if skip > 0 {
              fen := fen + [DigitChar(skip)];
              skip := 0;
            }
            fen := fen + [c];
          }
          col := col + 1;
        }
        if skip > 0 {
          fen := fen + [DigitChar(skip)];
        }
        if row != 7 {
          fen := fen + "/";
        }
        row := row + 1;
      }
      if fen in openings {
        return Some(openings[fen]);
      }
      return None;
    }
  }
}
