/** Zobrist hashing of a position: one table value per (square, piece), one for
    "black to move", one per castling right and one per en-passant file. The
    position's hash is the XOR of the values of the features it has. */
module Zobrist {
  import opened ChessTypes

  /** Hash values are non-negative integers combined with bitwise XOR, as in the
      source, where they are unbounded integers. */
  type Hash = nat

  /** Bitwise exclusive or of two non-negative integers. */
  function Xor(a: nat, b: nat): nat
    decreases a + b, 1
  {
    if a == 0 then b
    else if b == 0 then a
    else XorAbove(a, b) + (if a % 2 == b % 2 then 0 else 1)
  }

  /** The bits of `Xor(a, b)` above the lowest one: the XOR of the halves,
      shifted back up. */
  function XorAbove(a: nat, b: nat): nat
    requires a > 0 && b > 0
    decreases a + b, 0
  {
    2 * Xor(a / 2, b / 2)
  }

  /** The lowest bit of a XOR is the XOR of the lowest bits; the remaining bits
      are the XOR of the remaining bits. */
  lemma XorBits(a: nat, b: nat)
    ensures Xor(a, b) % 2 == (a % 2 + b % 2) % 2
    ensures Xor(a, b) / 2 == Xor(a / 2, b / 2)
  {
  }

  /** Two numbers with the same lowest bit and the same remaining bits are equal. */
  lemma BitsEqual(x: nat, y: nat)
    requires x % 2 == y % 2 && x / 2 == y / 2
    ensures x == y
  {
  }

  lemma XorZero(a: nat)
    ensures Xor(a, 0) == a && Xor(0, a) == a
  {
  }

  lemma {:induction false} XorSelf(a: nat)
    ensures Xor(a, a) == 0
    decreases a
  {
    if a != 0 {
      XorSelf(a / 2);
    }
  }

  lemma {:induction false} XorComm(a: nat, b: nat)
    ensures Xor(a, b) == Xor(b, a)
    decreases a + b
  {
    if a != 0 && b != 0 {
      XorComm(a / 2, b / 2);
    }
  }

  lemma {:induction false} XorAssoc(a: nat, b: nat, c: nat)
    ensures Xor(Xor(a, b), c) == Xor(a, Xor(b, c))
    decreases a + b + c
  {
    if a != 0 && b != 0 && c != 0 {
      XorBits(Xor(a, b), c);
      XorBits(a, b);
      XorBits(a, Xor(b, c));
      XorBits(b, c);
      XorAssoc(a / 2, b / 2, c / 2);
      BitsEqual(Xor(Xor(a, b), c), Xor(a, Xor(b, c)));
    } else {
      XorZero(a);
      XorZero(b);
      XorZero(c);
      XorZero(Xor(a, b));
      XorZero(Xor(b, c));
    }
  }

  /** Two values XORed into an accumulator can be XORed in either order. */
  lemma XorSwap(x: nat, a: nat, b: nat)
    ensures Xor(Xor(x, a), b) == Xor(Xor(x, b), a)
  {
    XorAssoc(x, a, b);
    XorAssoc(x, b, a);
    XorComm(a, b);
  }

  /** XORing the same value in twice leaves the accumulator as it was. */
  lemma XorCancel(x: nat, a: nat)
    ensures Xor(Xor(x, a), a) == x
  {
    XorAssoc(x, a, a);
    XorSelf(a);
    XorZero(x);
  }

  /** Numbers below 2^k stay below 2^k under XOR. */
  lemma {:induction false} XorBound(a: nat, b: nat, k: nat)
    requires a < Pow2(k) && b < Pow2(k)
    ensures Xor(a, b) < Pow2(k)
    decreases a + b
  {
    if a != 0 && b != 0 {
      assert k > 0;
      XorBound(a / 2, b / 2, k - 1);
    }
  }

  function Pow2(k: nat): (r: nat)
    ensures r >= 1
  {
    if k == 0 then 1 else 2 * Pow2(k - 1)
  }

  /** The random table, generated once and then treated as a constant. */
  datatype Table = Table(
    piece: seq<seq<Hash>>,        // piece[square][PieceIndex(p)], square = 8*row+col
    blacksTurn: Hash,
    whiteKs: Hash, whiteQs: Hash, blackKs: Hash, blackQs: Hash,
    enPassant: seq<Hash>)         // one value per file

  /** 64 squares by 12 piece kinds, and 8 en-passant files. */
  predicate WfTable(t: Table) {
    var shaped := |t.piece| == 64 && (forall sq :: 0 <= sq < 64 ==> |t.piece[sq]| == 12) && |t.enPassant| == 8;
    shaped
  }

  /** 2^64, the largest value the table generator can draw. */
  const MaxDrawn: nat := 0x1_0000_0000_0000_0000

  /** Every value was drawn from 0 .. 2^64 inclusive. */
  predicate DrawnValues(t: Table)
    requires WfTable(t)
  {
    (forall sq, i :: 0 <= sq < 64 && 0 <= i < 12 ==> t.piece[sq][i] <= MaxDrawn) &&
    t.blacksTurn <= MaxDrawn &&
    t.whiteKs <= MaxDrawn && t.whiteQs <= MaxDrawn && t.blackKs <= MaxDrawn && t.blackQs <= MaxDrawn &&
    (forall f :: 0 <= f < 8 ==> t.enPassant[f] <= MaxDrawn)
  }

  /** The 65-bit range the hash values live in. */
  lemma Pow2Big()
    ensures Pow2(64) == MaxDrawn
  {
    var p8 := Pow2(8);
    assert p8 == 256;
    Pow2Add(8, 8);
    var p16 := Pow2(16);
    assert p16 == 0x1_0000;
    Pow2Add(16, 16);
    var p32 := Pow2(32);
    assert p32 == 0x1_0000_0000;
    Pow2Add(32, 32);
  }

  lemma {:induction false} Pow2Add(a: nat, b: nat)
    ensures Pow2(a + b) == Pow2(a) * Pow2(b)
  {
    if a > 0 {
      Pow2Add(a - 1, b);
    }
  }

  /** The piece letters in index order. */
  const PieceOrder: string := "PNBRQKpnbrqk"

  /** The unique number of each piece letter. */
  function PieceIndex(p: char): (i: nat)
    requires IsPiece(p)
    ensures i < 12 && PieceOrder[i] == p
  {
    if p == 'P' then 0 else if p == 'N' then 1 else if p == 'B' then 2
    else if p == 'R' then 3 else if p == 'Q' then 4 else if p == 'K' then 5
    else if p == 'p' then 6 else if p == 'n' then 7 else if p == 'b' then 8
    else if p == 'r' then 9 else if p == 'q' then 10 else 11
  }

  /** PieceIndex is a bijection from the twelve piece letters onto 0..11. */
  lemma PieceIndexBijective()
    ensures forall i :: 0 <= i < 12 ==> IsPiece(PieceOrder[i]) && PieceIndex(PieceOrder[i]) == i
    ensures forall a, b :: IsPiece(a) && IsPiece(b) && PieceIndex(a) == PieceIndex(b) ==> a == b
  {
    forall i | 0 <= i < 12 ensures IsPiece(PieceOrder[i]) && PieceIndex(PieceOrder[i]) == i {
      assert i == 0 || i == 1 || i == 2 || i == 3 || i == 4 || i == 5 || i == 6
          || i == 7 || i == 8 || i == 9 || i == 10 || i == 11;
    }
  }

  /** XOR of a list of values, folded left to right as an accumulator does. */
  function XorAll(s: seq<Hash>): Hash {
    if |s| == 0 then 0 else Xor(XorAll(s[..|s| - 1]), s[|s| - 1])
  }

  /** Replacing one value of the list changes the fold by XOR with the old and
      the new value. */
  lemma {:induction false} XorAllUpdate(s: seq<Hash>, i: int, v: Hash)
    requires 0 <= i < |s|
    ensures XorAll(s[i := v]) == Xor(Xor(XorAll(s), s[i]), v)
  {
    var n := |s| - 1;
    var s' := s[i := v];
    var a := XorAll(s[..n]);
    if i == n {
      assert s'[..n] == s[..n];
      XorCancel(a, s[n]);
    } else {
      assert s'[..n] == s[..n][i := v];
      XorAllUpdate(s[..n], i, v);
      XorSwap(Xor(a, s[i]), v, s[n]);
      XorSwap(a, s[i], s[n]);
    }
  }

  /** The fold of values below 2^k is below 2^k. */
  lemma {:induction false} XorAllBound(s: seq<Hash>, k: nat)
    requires forall i :: 0 <= i < |s| ==> s[i] < Pow2(k)
    ensures XorAll(s) < Pow2(k)
  {
    if |s| > 0 {
      XorAllBound(s[..|s| - 1], k);
      XorBound(XorAll(s[..|s| - 1]), s[|s| - 1], k);
    }
  }

  /** The value of a feature when it is present, nothing when it is absent. */
  function Toggle(present: bool, v: Hash): Hash {
    if present then v else 0
  }

  /** The table value of content `p` on square `sq`; an empty square has none. */
  function Feature(t: Table, sq: int, p: char): Hash
    requires WfTable(t) && 0 <= sq < 64 && IsSquareChar(p)
  {
    if p == '.' then 0 else t.piece[sq][PieceIndex(p)]
  }

  /** The features of squares 0 .. n-1 (square i is row i/8, column i%8). */
  function SquareFeatures(t: Table, g: seq<seq<char>>, n: nat): (r: seq<Hash>)
    requires WfTable(t) && WfGrid(g) && n <= 64
    ensures |r| == n
    ensures forall i :: 0 <= i < n ==> r[i] == Feature(t, i, g[i / 8][i % 8])
  {
    if n == 0 then [] else SquareFeatures(t, g, n - 1) + [Feature(t, n - 1, g[(n - 1) / 8][(n - 1) % 8])]
  }

  /** The value of the en-passant file `col`, none when `col` is -1. */
  function EnPassantFeature(t: Table, col: int): Hash
    requires WfTable(t) && -1 <= col < 8
  {
    if col != -1 then t.enPassant[col] else 0
  }

  predicate Hashable(p: Position) {
    var hashable := WfGrid(p.squares) && -1 <= p.epCol < 8;
    hashable
  }

  /** The values the from-scratch hash folds, in the order it visits them: side
      to move, the 64 squares, the four castling rights, the en-passant file. */
  function Features(t: Table, p: Position): (r: seq<Hash>)
    requires WfTable(t) && Hashable(p)
    ensures |r| == 70
  {
    [Toggle(!p.whitesTurn, t.blacksTurn)] +
    SquareFeatures(t, p.squares, 64) +
    [Toggle(p.whiteKs, t.whiteKs), Toggle(p.whiteQs, t.whiteQs),
     Toggle(p.blackKs, t.blackKs), Toggle(p.blackQs, t.blackQs),
     EnPassantFeature(t, p.epCol)]
  }

  /** The i-th value the from-scratch hash visits (the i-th entry of
      `Features`), computed on its own. */
  function FeatureAt(t: Table, p: Position, i: int): Hash
    requires WfTable(t) && Hashable(p) && 0 <= i < 70
  {
    if i == 0 then Toggle(!p.whitesTurn, t.blacksTurn)
    else if i < 65 then Feature(t, i - 1, p.squares[(i - 1) / 8][(i - 1) % 8])
    else if i == 65 then Toggle(p.whiteKs, t.whiteKs)
    else if i == 66 then Toggle(p.whiteQs, t.whiteQs)
    else if i == 67 then Toggle(p.blackKs, t.blackKs)
    else if i == 68 then Toggle(p.blackQs, t.blackQs)
    else EnPassantFeature(t, p.epCol)
  }

  /** The accumulator of the from-scratch hash after its first n values. */
  function HashUpTo(t: Table, p: Position, n: nat): Hash
    requires WfTable(t) && Hashable(p) && n <= 70
  {
    if n == 0 then 0 else Xor(HashUpTo(t, p, n - 1), FeatureAt(t, p, n - 1))
  }

  /** The from-scratch hash of a position. */
  function FullHash(t: Table, p: Position): Hash
    requires WfTable(t) && Hashable(p)
  {
    HashUpTo(t, p, 70)
  }

  /** full_hash: the side to move, then the 64 squares in row-major order,
      then the four castling rights, then the en-passant file, each XORed into
      an accumulator that starts at 0. */
  method ComputeFullHash(t: Table, p: Position) returns (h: Hash)
    requires WfTable(t) && Hashable(p)
    ensures h == FullHash(t, p)
  {
    XorZero(0);
    h := 0;
    if !p.whitesTurn {
      h := Xor(h, t.blacksTurn);
    }
    XorZero(h);
    assert h == HashUpTo(t, p, 1);
    var i := 0;
    while i < 64
      invariant 0 <= i <= 64
      invariant h == HashUpTo(t, p, i + 1)
    {
      var row, col := i / 8, i % 8;
      var piece := p.squares[row][col];
      XorZero(h);
      if piece != '.' {
        h := Xor(h, t.piece[i][PieceIndex(piece)]);
      }
      i := i + 1;
    }
    assert h == HashUpTo(t, p, 65);
    XorZero(h);
    if p.whiteKs {
      h := Xor(h, t.whiteKs);
    }
    assert h == HashUpTo(t, p, 66);
    XorZero(h);
    if p.whiteQs {
      h := Xor(h, t.whiteQs);
    }
    assert h == HashUpTo(t, p, 67);
    XorZero(h);
    if p.blackKs {
      h := Xor(h, t.blackKs);
    }
    assert h == HashUpTo(t, p, 68);
    XorZero(h);
    if p.blackQs {
      h := Xor(h, t.blackQs);
    }
    assert h == HashUpTo(t, p, 69);
    XorZero(h);
    if p.epCol != -1 {
      h := Xor(h, t.enPassant[p.epCol]);
    }
    assert h == HashUpTo(t, p, 70);
  }

  /** Where each feature sits in the list. */
  lemma FeaturesAt(t: Table, p: Position)
    requires WfTable(t) && Hashable(p)
    ensures Features(t, p)[0] == Toggle(!p.whitesTurn, t.blacksTurn)
    ensures forall i :: 1 <= i < 65 ==> Features(t, p)[i] == Feature(t, i - 1, p.squares[(i - 1) / 8][(i - 1) % 8])
    ensures Features(t, p)[65] == Toggle(p.whiteKs, t.whiteKs)
    ensures Features(t, p)[66] == Toggle(p.whiteQs, t.whiteQs)
    ensures Features(t, p)[67] == Toggle(p.blackKs, t.blackKs)
    ensures Features(t, p)[68] == Toggle(p.blackQs, t.blackQs)
    ensures Features(t, p)[69] == EnPassantFeature(t, p.epCol)
  {
  }

  /** The accumulator is the fold of the first n features. */
  lemma {:induction false} HashUpToFolds(t: Table, p: Position, n: nat)
    requires WfTable(t) && Hashable(p) && n <= 70
    ensures HashUpTo(t, p, n) == XorAll(Features(t, p)[..n])
  {
    if n > 0 {
      var f := Features(t, p);
      HashUpToFolds(t, p, n - 1);
      FeaturesAt(t, p);
      assert f[..n][..n - 1] == f[..n - 1];
      assert f[n - 1] == FeatureAt(t, p, n - 1);
    }
  }

  /** The from-scratch hash is the fold of all 70 features. */
  lemma FullHashFolds(t: Table, p: Position)
    requires WfTable(t) && Hashable(p)
    ensures FullHash(t, p) == XorAll(Features(t, p))
  {
    HashUpToFolds(t, p, 70);
    assert Features(t, p)[..70] == Features(t, p);
  }

  lemma FeatureBound(t: Table, sq: int, c: char)
    requires WfTable(t) && DrawnValues(t) && 0 <= sq < 64 && IsSquareChar(c)
    ensures Feature(t, sq, c) <= MaxDrawn
  {
  }

  /** With a table drawn as the source draws it, every feature value is at
      most 2^64. */
  lemma FeaturesBound(t: Table, p: Position)
    requires WfTable(t) && DrawnValues(t) && Hashable(p)
    ensures forall i :: 0 <= i < 70 ==> Features(t, p)[i] <= MaxDrawn
  {
    FeaturesAt(t, p);
    forall i | 1 <= i < 65 ensures Features(t, p)[i] <= MaxDrawn {
      FeatureBound(t, i - 1, p.squares[(i - 1) / 8][(i - 1) % 8]);
    }
  }

  /** ... and so every hash fits in 65 bits. */
  lemma FullHashBound(t: Table, p: Position)
    requires WfTable(t) && DrawnValues(t) && Hashable(p)
    ensures FullHash(t, p) < 2 * MaxDrawn
  {
    FeaturesBound(t, p);
    FullHashFolds(t, p);
    Pow2Big();
    assert Pow2(65) == 2 * MaxDrawn;
    XorAllBound(Features(t, p), 65);
  }

  /** Adding, removing or replacing the piece on one square changes the
      from-scratch hash by XOR with exactly the features involved. */
  lemma FullHashPut(t: Table, p: Position, r: int, c: int, x: char)
    requires WfTable(t) && Hashable(p) && InBounds(r, c) && IsSquareChar(x)
    ensures Hashable(p.(squares := Put(p.squares, r, c, x)))
    ensures FullHash(t, p.(squares := Put(p.squares, r, c, x))) ==
      Xor(Xor(FullHash(t, p), Feature(t, 8 * r + c, p.squares[r][c])), Feature(t, 8 * r + c, x))
  {
    var q := p.(squares := Put(p.squares, r, c, x));
    FeaturesPut(t, p, r, c, x);
    FeaturesAt(t, p);
    FullHashReplace(t, p, q, 1 + 8 * r + c, Feature(t, 8 * r + c, x));
  }

  /** Putting `x` on one square replaces that square's feature and no other. */
  lemma FeaturesPut(t: Table, p: Position, r: int, c: int, x: char)
    requires WfTable(t) && Hashable(p) && InBounds(r, c) && IsSquareChar(x)
    ensures Hashable(p.(squares := Put(p.squares, r, c, x)))
    ensures Features(t, p.(squares := Put(p.squares, r, c, x))) ==
      Features(t, p)[1 + 8 * r + c := Feature(t, 8 * r + c, x)]
  {
    var q := p.(squares := Put(p.squares, r, c, x));
    var sq := 8 * r + c;
    FlatIndex(r, c);
    FeaturesAt(t, p);
    FeaturesAt(t, q);
    var f := Features(t, p);
    forall i | 0 <= i < 70 ensures Features(t, q)[i] == f[1 + sq := Feature(t, sq, x)][i] {
      if 1 <= i < 65 {
        SquareFeaturePut(t, p, r, c, x, i - 1);
      }
    }
  }

  /** Putting `x` on square (r, c) changes the feature of that square only. */
  lemma SquareFeaturePut(t: Table, p: Position, r: int, c: int, x: char, j: int)
    requires WfTable(t) && Hashable(p) && InBounds(r, c) && IsSquareChar(x) && 0 <= j < 64
    ensures Feature(t, j, Put(p.squares, r, c, x)[j / 8][j % 8]) ==
      if j == 8 * r + c then Feature(t, j, x) else Feature(t, j, p.squares[j / 8][j % 8])
  {
    var a, b := j / 8, j % 8;
    assert InBounds(a, b) && 8 * a + b == j;
    FlatIndex(r, c);
  }

  /** Positions whose feature lists differ in one entry have hashes that differ
      by XOR with the old and the new value of that entry. */
  lemma FullHashReplace(t: Table, p: Position, q: Position, i: int, v: Hash)
    requires WfTable(t) && Hashable(p) && Hashable(q) && 0 <= i < 70
    requires Features(t, q) == Features(t, p)[i := v]
    ensures FullHash(t, q) == Xor(Xor(FullHash(t, p), Features(t, p)[i]), v)
  {
    FullHashFolds(t, p);
    FullHashFolds(t, q);
    XorAllUpdate(Features(t, p), i, v);
  }

  /** A feature and its absence differ by exactly its value. */
  lemma ToggleFlip(x: nat, b: bool, v: Hash)
    ensures Xor(Xor(x, Toggle(b, v)), Toggle(!b, v)) == Xor(x, v)
  {
    XorAssoc(x, Toggle(b, v), Toggle(!b, v));
    XorZero(v);
  }

  /** Passing the move toggles the side-to-move value once. */
  lemma FullHashTurn(t: Table, p: Position)
    requires WfTable(t) && Hashable(p)
    ensures FullHash(t, p.(whitesTurn := !p.whitesTurn)) == Xor(FullHash(t, p), t.blacksTurn)
  {
    var f := Features(t, p);
    FeaturesAt(t, p);
    assert Features(t, p.(whitesTurn := !p.whitesTurn)) == f[0 := Toggle(p.whitesTurn, t.blacksTurn)];
    FullHashReplace(t, p, p.(whitesTurn := !p.whitesTurn), 0, Toggle(p.whitesTurn, t.blacksTurn));
    ToggleFlip(FullHash(t, p), !p.whitesTurn, t.blacksTurn);
  }

  /** Flipping one castling right toggles that right's value once. */
  lemma FullHashWhiteKs(t: Table, p: Position)
    requires WfTable(t) && Hashable(p)
    ensures FullHash(t, p.(whiteKs := !p.whiteKs)) == Xor(FullHash(t, p), t.whiteKs)
  {
    var f := Features(t, p);
    FeaturesAt(t, p);
    assert Features(t, p.(whiteKs := !p.whiteKs)) == f[65 := Toggle(!p.whiteKs, t.whiteKs)];
    FullHashReplace(t, p, p.(whiteKs := !p.whiteKs), 65, Toggle(!p.whiteKs, t.whiteKs));
    ToggleFlip(FullHash(t, p), p.whiteKs, t.whiteKs);
  }

  lemma FullHashWhiteQs(t: Table, p: Position)
    requires WfTable(t) && Hashable(p)
    ensures FullHash(t, p.(whiteQs := !p.whiteQs)) == Xor(FullHash(t, p), t.whiteQs)
  {
    var f := Features(t, p);
    FeaturesAt(t, p);
    assert Features(t, p.(whiteQs := !p.whiteQs)) == f[66 := Toggle(!p.whiteQs, t.whiteQs)];
    FullHashReplace(t, p, p.(whiteQs := !p.whiteQs), 66, Toggle(!p.whiteQs, t.whiteQs));
    ToggleFlip(FullHash(t, p), p.whiteQs, t.whiteQs);
  }

  lemma FullHashBlackKs(t: Table, p: Position)
    requires WfTable(t) && Hashable(p)
    ensures FullHash(t, p.(blackKs := !p.blackKs)) == Xor(FullHash(t, p), t.blackKs)
  {
    var f := Features(t, p);
    FeaturesAt(t, p);
    assert Features(t, p.(blackKs := !p.blackKs)) == f[67 := Toggle(!p.blackKs, t.blackKs)];
    FullHashReplace(t, p, p.(blackKs := !p.blackKs), 67, Toggle(!p.blackKs, t.blackKs));
    ToggleFlip(FullHash(t, p), p.blackKs, t.blackKs);
  }

  lemma FullHashBlackQs(t: Table, p: Position)
    requires WfTable(t) && Hashable(p)
    ensures FullHash(t, p.(blackQs := !p.blackQs)) == Xor(FullHash(t, p), t.blackQs)
  {
    var f := Features(t, p);
    FeaturesAt(t, p);
    assert Features(t, p.(blackQs := !p.blackQs)) == f[68 := Toggle(!p.blackQs, t.blackQs)];
    FullHashReplace(t, p, p.(blackQs := !p.blackQs), 68, Toggle(!p.blackQs, t.blackQs));
    ToggleFlip(FullHash(t, p), p.blackQs, t.blackQs);
  }

  /** Moving the en-passant target toggles out the old file and in the new one;
      the target's row does not enter the hash. */
  lemma FullHashEnPassant(t: Table, p: Position, row: int, col: int)
    requires WfTable(t) && Hashable(p) && -1 <= col < 8
    ensures FullHash(t, p.(epRow := row, epCol := col)) ==
      Xor(Xor(FullHash(t, p), EnPassantFeature(t, p.epCol)), EnPassantFeature(t, col))
  {
    var f := Features(t, p);
    FeaturesAt(t, p);
    assert Features(t, p.(epRow := row, epCol := col)) == f[69 := EnPassantFeature(t, col)];
    FullHashReplace(t, p, p.(epRow := row, epCol := col), 69, EnPassantFeature(t, col));
  }

  /** The hash depends only on the squares, the side to move, the four rights and
      the en-passant file: not on the castled flags nor on the en-passant row. */
  lemma FullHashIgnores(t: Table, p: Position, q: Position)
    requires WfTable(t) && Hashable(p) && Hashable(q)
    requires p.squares == q.squares && p.whitesTurn == q.whitesTurn
    requires p.whiteKs == q.whiteKs && p.whiteQs == q.whiteQs
    requires p.blackKs == q.blackKs && p.blackQs == q.blackQs
    requires p.epCol == q.epCol
    ensures FullHash(t, p) == FullHash(t, q)
  {
    FullHashFolds(t, p);
    FullHashFolds(t, q);
    assert Features(t, p) == Features(t, q);
  }
}
