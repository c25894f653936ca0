/** Attack detection of rulebook.py: fast_straight_probe and is_king_in_check.
    Each is a loop proved against a recursive definition, and the definitions
    are characterised square by square. */
module Attacks {
  import opened ChessTypes

  /** One of the eight unit directions along a rank, file or diagonal. */
  predicate UnitStep(dr: int, dc: int) {
    -1 <= dr <= 1 && -1 <= dc <= 1 && (dr != 0 || dc != 0)
  }

  /** How many squares lie from (r, c) to the edge of the board along (dr, dc),
      (r, c) included; none when (r, c) is off the board. */
  function Room(r: int, c: int, dr: int, dc: int): nat
    requires UnitStep(dr, dc)
  {
    if !InBounds(r, c) then 0
    else if dr == 1 then 8 - r
    else if dr == -1 then r + 1
    else if dc == 1 then 8 - c
    else c + 1
  }

  function KingLetter(whiteKing: bool): char {
    if whiteKing then 'K' else 'k'
  }

  /** The king of the other side. */
  function EnemyKing(whiteKing: bool): char {
    if whiteKing then 'k' else 'K'
  }

  /** An enemy piece that moves any distance along (dr, dc): a rook or queen
      along a rank or file, a bishop or queen along a diagonal. */
  predicate Slider(whiteKing: bool, piece: char, dr: int, dc: int) {
    if dr == 0 || dc == 0 then
      (if whiteKing then piece == 'r' || piece == 'q' else piece == 'R' || piece == 'Q')
    else
      (if whiteKing then piece == 'b' || piece == 'q' else piece == 'B' || piece == 'Q')
  }

  /** fast_straight_probe's answer for the ray that continues at (r, c) in
      direction (dr, dc); `adjacent` holds for the first square of the ray,
      the only one where the enemy king counts. */
  predicate RayAttack(whiteKing: bool, g: seq<seq<char>>, r: int, c: int, dr: int, dc: int, adjacent: bool)
    requires WfGrid(g) && UnitStep(dr, dc)
    decreases Room(r, c, dr, dc)
  {
    if !InBounds(r, c) then false
    else
      var piece := g[r][c];
      if adjacent && piece == EnemyKing(whiteKing) then true
      else if Slider(whiteKing, piece, dr, dc) then true
      else if piece != '.' then false
      else RayAttack(whiteKing, g, r + dr, c + dc, dr, dc, false)
  }

  /** fast_straight_probe: walks from the square next to (tr, tc) in direction
      (dr, dc) and reports whether the king on (tr, tc) is attacked along it. */
  method FastStraightProbe(whiteKing: bool, g: seq<seq<char>>, tr: int, tc: int, dr: int, dc: int)
    returns (attacked: bool)
    requires WfGrid(g) && UnitStep(dr, dc)
    ensures attacked == RayAttack(whiteKing, g, tr + dr, tc + dc, dr, dc, true)
  {
    var aRow, aCol := tr + dr, tc + dc;
    var step := 1;
    while InBounds(aRow, aCol)
      invariant step >= 1
      invariant RayAttack(whiteKing, g, tr + dr, tc + dc, dr, dc, true) ==
                RayAttack(whiteKing, g, aRow, aCol, dr, dc, step == 1)
      decreases Room(aRow, aCol, dr, dc)
    {
      var piece := g[aRow][aCol];
      if step == 1 {
        if (!whiteKing && piece == 'K') || (whiteKing && piece == 'k') {
          return true;
        }
      }
      if dr == 0 || dc == 0 {
        if (!whiteKing && (piece == 'R' || piece == 'Q')) || (whiteKing && (piece == 'r' || piece == 'q')) {
          return true;
        }
      } else {
        if (!whiteKing && (piece == 'B' || piece == 'Q')) || (whiteKing && (piece == 'b' || piece == 'q')) {
          return true;
        }
      }
      if piece != '.' {
        return false;
      }
      aRow := aRow + dr;
      aCol := aCol + dc;
      step := step + 1;
    }
    return false;
  }

  // ---------------------------------------------------------------------------
  // The ray, square by square.

  /** The square k steps from (r, c) along (dr, dc) is on the board and empty. */
  predicate EmptyAt(g: seq<seq<char>>, r: int, c: int, dr: int, dc: int, k: int)
    requires WfGrid(g)
  {
    InBounds(r + k * dr, c + k * dc) && g[r + k * dr][c + k * dc] == '.'
  }

  /** The square k steps from (r, c) along (dr, dc) holds an enemy piece that
      attacks (r, c) from there, given a clear line. */
  predicate AttackerAt(whiteKing: bool, g: seq<seq<char>>, r: int, c: int, dr: int, dc: int, k: int)
    requires WfGrid(g)
  {
    InBounds(r + k * dr, c + k * dc) &&
    (Slider(whiteKing, g[r + k * dr][c + k * dc], dr, dc) ||
     (k == 1 && g[r + k * dr][c + k * dc] == EnemyKing(whiteKing)))
  }

  /** Every square from n to k - 1 steps along the ray is empty. */
  ghost predicate Clear(g: seq<seq<char>>, r: int, c: int, dr: int, dc: int, n: int, k: int)
    requires WfGrid(g)
  {
    forall j :: n <= j < k ==> EmptyAt(g, r, c, dr, dc, j)
  }

  /** Some square n or more steps along the ray holds an attacker, and the
      squares from n up to it are empty. */
  ghost predicate HitFrom(whiteKing: bool, g: seq<seq<char>>, r: int, c: int, dr: int, dc: int, n: int)
    requires WfGrid(g)
  {
    exists k :: n <= k && AttackerAt(whiteKing, g, r, c, dr, dc, k) && Clear(g, r, c, dr, dc, n, k)
  }

  /** The first occupied square along the ray from (r, c) holds an attacker. */
  ghost predicate RayHit(whiteKing: bool, g: seq<seq<char>>, r: int, c: int, dr: int, dc: int)
    requires WfGrid(g)
  {
    exists k :: 1 <= k && AttackerAt(whiteKing, g, r, c, dr, dc, k) &&
      forall j :: 1 <= j < k ==> EmptyAt(g, r, c, dr, dc, j)
  }

  /** From the n-th square of the ray on, with the squares before it empty,
      RayAttack finds an attacker exactly when one stands behind a clear line. */
  lemma {:induction false} RayAttackFrom(whiteKing: bool, g: seq<seq<char>>, r: int, c: int, dr: int, dc: int, n: int)
    requires WfGrid(g) && UnitStep(dr, dc) && n >= 1
    ensures RayAttack(whiteKing, g, r + n * dr, c + n * dc, dr, dc, n == 1) == HitFrom(whiteKing, g, r, c, dr, dc, n)
    decreases Room(r + n * dr, c + n * dc, dr, dc)
  {
    var a, b := r + n * dr, c + n * dc;
    if !InBounds(a, b) {
      NothingPast(whiteKing, g, r, c, dr, dc, n);
    } else if (n == 1 && g[a][b] == EnemyKing(whiteKing)) || Slider(whiteKing, g[a][b], dr, dc) {
      assert AttackerAt(whiteKing, g, r, c, dr, dc, n) && Clear(g, r, c, dr, dc, n, n);
    } else if g[a][b] != '.' {
      NothingPast(whiteKing, g, r, c, dr, dc, n);
    } else {
      assert r + (n + 1) * dr == a + dr && c + (n + 1) * dc == b + dc;
      RayAttackFrom(whiteKing, g, r, c, dr, dc, n + 1);
      StepPast(whiteKing, g, r, c, dr, dc, n);
    }
  }

  /** An empty square that is not an attacker passes the question on to the
      next square. */
  lemma StepPast(whiteKing: bool, g: seq<seq<char>>, r: int, c: int, dr: int, dc: int, n: int)
    requires WfGrid(g)
    requires EmptyAt(g, r, c, dr, dc, n) && !AttackerAt(whiteKing, g, r, c, dr, dc, n)
    ensures HitFrom(whiteKing, g, r, c, dr, dc, n) == HitFrom(whiteKing, g, r, c, dr, dc, n + 1)
  {
    if HitFrom(whiteKing, g, r, c, dr, dc, n + 1) {
      var k :| n + 1 <= k && AttackerAt(whiteKing, g, r, c, dr, dc, k) && Clear(g, r, c, dr, dc, n + 1, k);
      assert Clear(g, r, c, dr, dc, n, k);
    }
    if HitFrom(whiteKing, g, r, c, dr, dc, n) {
      var k :| n <= k && AttackerAt(whiteKing, g, r, c, dr, dc, k) && Clear(g, r, c, dr, dc, n, k);
      assert k != n;
      assert Clear(g, r, c, dr, dc, n + 1, k);
    }
  }

  /** A square that is neither empty nor an attacker ends the ray: nothing
      from there on attacks. */
  lemma NothingPast(whiteKing: bool, g: seq<seq<char>>, r: int, c: int, dr: int, dc: int, n: int)
    requires WfGrid(g)
    requires !EmptyAt(g, r, c, dr, dc, n) && !AttackerAt(whiteKing, g, r, c, dr, dc, n)
    ensures !HitFrom(whiteKing, g, r, c, dr, dc, n)
  {
    forall k | n <= k && AttackerAt(whiteKing, g, r, c, dr, dc, k)
      ensures !Clear(g, r, c, dr, dc, n, k)
    {
      assert n < k;
    }
  }

  /** fast_straight_probe reports an attack exactly when the first occupied
      square along the ray holds an enemy rook or queen (rank or file), an
      enemy bishop or queen (diagonal), or the enemy king right next to it. */
  lemma RayAttackIff(whiteKing: bool, g: seq<seq<char>>, r: int, c: int, dr: int, dc: int)
    requires WfGrid(g) && UnitStep(dr, dc)
    ensures RayAttack(whiteKing, g, r + dr, c + dc, dr, dc, true) <==> RayHit(whiteKing, g, r, c, dr, dc)
  {
    RayAttackFrom(whiteKing, g, r, c, dr, dc, 1);
    assert r + 1 * dr == r + dr && c + 1 * dc == c + dc;
    if RayHit(whiteKing, g, r, c, dr, dc) {
      var k :| 1 <= k && AttackerAt(whiteKing, g, r, c, dr, dc, k) &&
        forall j :: 1 <= j < k ==> EmptyAt(g, r, c, dr, dc, j);
      assert Clear(g, r, c, dr, dc, 1, k);
    }
  }

  // ---------------------------------------------------------------------------
  // is_king_in_check.

  /** The first square, in row-major order from flat index i on, that holds
      `king`. */
  function FindKing(g: seq<seq<char>>, king: char, i: nat): Option<(int, int)>
    requires WfGrid(g) && i <= 64
    decreases 64 - i
  {
    if i == 64 then None
    else if g[i / 8][i % 8] == king then Some((i / 8, i % 8))
    else FindKing(g, king, i + 1)
  }

  /** Where is_king_in_check takes the king to be: the first one found
      scanning rows top to bottom, each left to right. */
  function KingSquare(whiteKing: bool, g: seq<seq<char>>): Option<(int, int)>
    requires WfGrid(g)
  {
    FindKing(g, KingLetter(whiteKing), 0)
  }

  const KnightJumps: seq<(int, int)> := [(-1, -2), (-1, 2), (1, -2), (1, 2), (-2, -1), (-2, 1), (2, -1), (2, 1)]

  const Directions: seq<(int, int)> := [(-1, 0), (-1, 1), (0, 1), (1, 1), (1, 0), (1, -1), (0, -1), (-1, -1)]

  lemma DirectionsAreSteps()
    ensures |Directions| == 8
    ensures forall i :: 0 <= i < 8 ==> UnitStep(Directions[i].0, Directions[i].1)
  {
  }

  /** An enemy knight stands a knight's jump away from (kr, kc). */
  predicate KnightAttack(whiteKing: bool, g: seq<seq<char>>, kr: int, kc: int)
    requires WfGrid(g)
  {
    exists i :: 0 <= i < 8 && KnightFrom(whiteKing, g, kr, kc, i)
  }

  /** The i-th knight jump from (kr, kc) lands on an enemy knight. */
  predicate KnightFrom(whiteKing: bool, g: seq<seq<char>>, kr: int, kc: int, i: int)
    requires WfGrid(g) && 0 <= i < 8
  {
    var r, c := kr + KnightJumps[i].0, kc + KnightJumps[i].1;
    InBounds(r, c) && g[r][c] == (if whiteKing then 'n' else 'N')
  }

  /** An enemy pawn stands diagonally in front of the king, as seen from the
      king's side: a black pawn one row up for the white king, a white pawn one
      row down for the black king. */
  predicate PawnAttack(whiteKing: bool, g: seq<seq<char>>, kr: int, kc: int)
    requires WfGrid(g)
  {
    if whiteKing then
      (InBounds(kr - 1, kc - 1) && g[kr - 1][kc - 1] == 'p') ||
      (InBounds(kr - 1, kc + 1) && g[kr - 1][kc + 1] == 'p')
    else
      (InBounds(kr + 1, kc - 1) && g[kr + 1][kc - 1] == 'P') ||
      (InBounds(kr + 1, kc + 1) && g[kr + 1][kc + 1] == 'P')
  }

  /** Some direction's fast_straight_probe reports an attack. */
  predicate LineAttack(whiteKing: bool, g: seq<seq<char>>, kr: int, kc: int)
    requires WfGrid(g)
  {
    exists i :: 0 <= i < 8 && DirectionAttack(whiteKing, g, kr, kc, i)
  }

  predicate DirectionAttack(whiteKing: bool, g: seq<seq<char>>, kr: int, kc: int, i: int)
    requires WfGrid(g) && 0 <= i < 8
  {
    var d := Directions[i];
    DirectionsAreSteps();
    RayAttack(whiteKing, g, kr + d.0, kc + d.1, d.0, d.1, true)
  }

  /** is_king_in_check's answer: false when there is no such king, otherwise
      whether a knight, a pawn, or a piece along one of the eight lines
      attacks its square. */
  predicate InCheck(whiteKing: bool, g: seq<seq<char>>)
    requires WfGrid(g)
  {
    match KingSquare(whiteKing, g)
    case None => false
    case Some(sq) =>
      KnightAttack(whiteKing, g, sq.0, sq.1) || PawnAttack(whiteKing, g, sq.0, sq.1) ||
      LineAttack(whiteKing, g, sq.0, sq.1)
  }

  /** is_king_in_check: finds the king, then looks for an attack on its
      square; no king means no check. */
  method IsKingInCheck(whiteKing: bool, g: seq<seq<char>>) returns (inCheck: bool)
    requires WfGrid(g)
    ensures inCheck == InCheck(whiteKing, g)
  {
    var kingRow, kingCol := LocateKing(whiteKing, g);
    if kingRow == -1 && kingCol == -1 {
      return false;
    }
    inCheck := KingAttacked(whiteKing, g, kingRow, kingCol);
  }

  /** The king search of is_king_in_check: rows top to bottom, each left to
      right, stopping at the first square holding the king; (-1, -1) when
      there is none. */
  method LocateKing(whiteKing: bool, g: seq<seq<char>>) returns (kingRow: int, kingCol: int)
    requires WfGrid(g)
    ensures KingSquare(whiteKing, g).None? ==> kingRow == -1 && kingCol == -1
    ensures KingSquare(whiteKing, g).Some? ==> KingSquare(whiteKing, g).value == (kingRow, kingCol) && InBounds(kingRow, kingCol)
  {
    var king := KingLetter(whiteKing);
    kingRow, kingCol := -1, -1;
    var row := 0;
    while row < 8
      invariant 0 <= row <= 8
      invariant kingRow == -1 && kingCol == -1
      invariant FindKing(g, king, 0) == FindKing(g, king, 8 * row)
    {
      var col := 0;
      while col < 8
        invariant 0 <= col <= 8
        invariant (kingRow == -1 && kingCol == -1) || InBounds(kingRow, kingCol)
        invariant FindKing(g, king, 0) ==
          if kingRow == -1 && kingCol == -1 then FindKing(g, king, 8 * row + col) else Some((kingRow, kingCol))
      {
        FlatIndex(row, col);
        if (whiteKing && g[row][col] == 'K') || (!whiteKing && g[row][col] == 'k') {
          kingRow, kingCol := row, col;
          break;
        }
        col := col + 1;
      }
      if kingRow != -1 || kingCol != -1 {
        return;
      }
      row := row + 1;
    }
  }

  /** The attack search of is_king_in_check on the king at (kingRow, kingCol):
      knight jumps, then the two pawn squares, then the eight lines. */
  method KingAttacked(whiteKing: bool, g: seq<seq<char>>, kingRow: int, kingCol: int) returns (attacked: bool)
    requires WfGrid(g)
    ensures attacked == (KnightAttack(whiteKing, g, kingRow, kingCol) ||
      PawnAttack(whiteKing, g, kingRow, kingCol) || LineAttack(whiteKing, g, kingRow, kingCol))
  {
    var i := 0;
    while i < 8
      invariant 0 <= i <= 8
      invariant forall j :: 0 <= j < i ==> !KnightFrom(whiteKing, g, kingRow, kingCol, j)
    {
      var aRow, aCol := kingRow + KnightJumps[i].0, kingCol + KnightJumps[i].1;
      if InBounds(aRow, aCol) {
        if (!whiteKing && g[aRow][aCol] == 'N') || (whiteKing && g[aRow][aCol] == 'n') {
          assert KnightFrom(whiteKing, g, kingRow, kingCol, i);
          return true;
        }
      }
      i := i + 1;
    }

    if whiteKing {
      if InBounds(kingRow - 1, kingCol - 1) && g[kingRow - 1][kingCol - 1] == 'p' {
        return true;
      }
      if InBounds(kingRow - 1, kingCol + 1) && g[kingRow - 1][kingCol + 1] == 'p' {
        return true;
      }
    } else {
      if InBounds(kingRow + 1, kingCol - 1) && g[kingRow + 1][kingCol - 1] == 'P' {
        return true;
      }
      if InBounds(kingRow + 1, kingCol + 1) && g[kingRow + 1][kingCol + 1] == 'P' {
        return true;
      }
    }

    attacked := LineAttacked(whiteKing, g, kingRow, kingCol);
  }

  /** The eight fast_straight_probe calls of is_king_in_check, in order. */
  method LineAttacked(whiteKing: bool, g: seq<seq<char>>, kingRow: int, kingCol: int) returns (attacked: bool)
    requires WfGrid(g)
    ensures attacked == LineAttack(whiteKing, g, kingRow, kingCol)
  {
    DirectionsAreSteps();
    var i := 0;
    while i < 8
      invariant 0 <= i <= 8
      invariant forall j :: 0 <= j < i ==> !DirectionAttack(whiteKing, g, kingRow, kingCol, j)
    {
      var d := Directions[i];
      var attacked := FastStraightProbe(whiteKing, g, kingRow, kingCol, d.0, d.1);
      if attacked {
        assert DirectionAttack(whiteKing, g, kingRow, kingCol, i);
        return true;
      }
      i := i + 1;
    }
    return false;
  }

  // ---------------------------------------------------------------------------
  // The king search and the check, characterised.

  lemma {:induction false} FindKingFrom(g: seq<seq<char>>, king: char, i: nat)
    requires WfGrid(g) && i <= 64
    ensures FindKing(g, king, i).None? <==> forall j :: i <= j < 64 ==> g[j / 8][j % 8] != king
    ensures FindKing(g, king, i).Some? ==>
      var j := 8 * FindKing(g, king, i).value.0 + FindKing(g, king, i).value.1;
      i <= j < 64 && InBounds(FindKing(g, king, i).value.0, FindKing(g, king, i).value.1) &&
      g[j / 8][j % 8] == king && forall m :: i <= m < j ==> g[m / 8][m % 8] != king
    decreases 64 - i
  {
    if i < 64 && g[i / 8][i % 8] != king {
      FindKingFrom(g, king, i + 1);
    }
  }

  /** The square is_king_in_check settles on holds that king, and no square
      before it in row-major order does; there is none exactly when the king is
      missing from the board. */
  lemma KingSquareFirst(whiteKing: bool, g: seq<seq<char>>)
    requires WfGrid(g)
    ensures KingSquare(whiteKing, g).None? <==>
      forall r, c :: InBounds(r, c) ==> g[r][c] != KingLetter(whiteKing)
    ensures KingSquare(whiteKing, g).Some? ==>
      var (kr, kc) := KingSquare(whiteKing, g).value;
      InBounds(kr, kc) && g[kr][kc] == KingLetter(whiteKing) &&
      forall r, c :: InBounds(r, c) && 8 * r + c < 8 * kr + kc ==> g[r][c] != KingLetter(whiteKing)
  {
    var king := KingLetter(whiteKing);
    FindKingFrom(g, king, 0);
    if KingSquare(whiteKing, g).None? {
      forall r, c | InBounds(r, c) ensures g[r][c] != king {
        FlatIndex(r, c);
      }
    } else {
      var (kr, kc) := KingSquare(whiteKing, g).value;
      forall r, c | InBounds(r, c) && 8 * r + c < 8 * kr + kc ensures g[r][c] != king {
        FlatIndex(r, c);
      }
      FlatIndex(kr, kc);
    }
    if forall r, c :: InBounds(r, c) ==> g[r][c] != king {
      forall j | 0 <= j < 64 ensures g[j / 8][j % 8] != king {
        assert InBounds(j / 8, j % 8);
      }
    }
  }

  /** The king is in check exactly when its square (the first one holding it)
      is attacked by an enemy knight a jump away, by an enemy pawn on its
      forward diagonal, or along one of the eight lines by the first piece
      met there: rook or queen on a rank or file, bishop or queen on a
      diagonal, or the enemy king next to it. */
  lemma InCheckIff(whiteKing: bool, g: seq<seq<char>>)
    requires WfGrid(g)
    ensures InCheck(whiteKing, g) <==>
      KingSquare(whiteKing, g).Some? &&
      var (kr, kc) := KingSquare(whiteKing, g).value;
      KnightAttack(whiteKing, g, kr, kc) || PawnAttack(whiteKing, g, kr, kc) ||
      exists i :: 0 <= i < 8 && RayHit(whiteKing, g, kr, kc, Directions[i].0, Directions[i].1)
  {
    DirectionsAreSteps();
    if KingSquare(whiteKing, g).Some? {
      var (kr, kc) := KingSquare(whiteKing, g).value;
      forall i | 0 <= i < 8
        ensures DirectionAttack(whiteKing, g, kr, kc, i) <==> RayHit(whiteKing, g, kr, kc, Directions[i].0, Directions[i].1)
      {
        RayAttackIff(whiteKing, g, kr, kc, Directions[i].0, Directions[i].1);
      }
    }
  }
}
