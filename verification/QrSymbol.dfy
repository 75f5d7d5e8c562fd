/** The finished symbol module by module: which bit each one shows, where the format
    word stands, and what the masks flip, each said by its place in the grid
    (class QrCode, web/src/lib/qr.ts; sections 7.7 to 7.9 of ISO/IEC 18004:2015). */
module QrSymbol {
  import opened Bits
  import opened Common
  import opened QrGrid

  // ---- which way the zigzag runs ----

  /** The moment the zigzag comes to a module: column pairs from the right, passing
      over column 6, the first pair upwards and every other one, the right module of
      each row before the left. */
  function Turn(size: nat, c: Cell): int
  {
    var column := if c.x > 6 then size - 1 - c.x else size - 2 - c.x;
    var pair := column / 2;
    2 * size * pair + 2 * (if pair % 2 == 0 then size - 1 - c.y else c.y) + column % 2
  }

  lemma {:induction false} PathToRuns(size: nat, n: nat, c: nat, r: nat, j: nat)
    requires size % 4 == 1 && 2 * n < size && c < n && r < size && j < 2
    ensures |PathTo(size, n)| == 2 * size * n && 0 <= 2 * size * c + 2 * r + j < 2 * size * n
    ensures var x := if size - 1 - 2 * c > 6 then size - 1 - 2 * c else size - 2 - 2 * c;
            x >= j && PathTo(size, n)[2 * size * c + 2 * r + j]
                      == Cell(x - j, if c % 2 == 0 then size - 1 - r else r)
  {
    hide PairPath;
    PathLength(size, n);
    PathLength(size, n - 1);
    InRun(size, n, c, 2 * r + j);
    if c < n - 1 {
      PathToRuns(size, n - 1, c, r, j);
    } else {
      PairRuns(size, c, r, j);
    }
  }

  lemma {:induction false} PathLength(size: nat, n: nat)
    requires 2 * n < size
    ensures |PathTo(size, n)| == 2 * size * n
  {
    if n > 0 {
      PathLength(size, n - 1);
      assert 2 * size * n == 2 * size * (n - 1) + 2 * size;
    }
  }

  lemma InRun(size: nat, n: nat, c: nat, s: nat)
    requires c < n && s < 2 * size
    ensures 0 <= 2 * size * c + s < 2 * size * n
    ensures c < n - 1 ==> 2 * size * c + s < 2 * size * (n - 1)
  {
    assert 2 * size * (c + 1) <= 2 * size * n by {
      Times(c + 1, n, 2 * size);
    }
    if c < n - 1 {
      Times(c + 1, n - 1, 2 * size);
    }
  }

  lemma Times(a: nat, b: nat, m: nat)
    requires a <= b
    ensures m * a <= m * b
  {
  }

  lemma PairRuns(size: nat, c: nat, r: nat, j: nat)
    requires size % 4 == 1 && 2 * c + 2 < size && r < size && j < 2
    ensures var x := if size - 1 - 2 * c > 6 then size - 1 - 2 * c else size - 2 - 2 * c;
            && Right(size, c) == x && x >= 1
            && PairPath(size, x, 2 * size)[2 * r + j] == Cell(x - j, if c % 2 == 0 then size - 1 - r else r)
  {
    assert (2 * r + j) / 2 == r && (2 * r + j) % 2 == j;
  }

  /** The zigzag, step by step: the `r`-th row of the `c`-th column pair, right module
      and left. */
  lemma PathRuns(size: nat, c: nat, r: nat, j: nat)
    requires size % 4 == 1 && c < (size - 1) / 2 && r < size && j < 2
    ensures 0 <= 2 * size * c + 2 * r + j < |Path(size)|
    ensures var x := if size - 1 - 2 * c > 6 then size - 1 - 2 * c else size - 2 - 2 * c;
            x >= j && Path(size)[2 * size * c + 2 * r + j] == Cell(x - j, if c % 2 == 0 then size - 1 - r else r)
  {
    PathToRuns(size, (size - 1) / 2, c, r, j);
  }

  lemma PathAtTurn(size: nat, c: Cell)
    requires size % 4 == 1 && size >= 9 && c.x < size && c.x != 6 && c.y < size
    ensures 0 <= Turn(size, c) < |Path(size)| && Path(size)[Turn(size, c)] == c
  {
    hide Path;
    var column := if c.x > 6 then size - 1 - c.x else size - 2 - c.x;
    var pair := column / 2;
    var r := if pair % 2 == 0 then size - 1 - c.y else c.y;
    assert column < size - 1 && column == 2 * pair + column % 2;
    PathRuns(size, pair, r, column % 2);
  }

  // ---- the k-th free module ----

  /** The free modules the zigzag comes to before this one. */
  function Earlier(size: nat, reserved: set<Cell>, c: Cell): set<Cell>
  {
    set x: nat, y: nat | x < size && y < size && x != 6 && Cell(x, y) !in reserved
                         && Turn(size, Cell(x, y)) < Turn(size, c) :: Cell(x, y)
  }

  lemma {:induction false} FreeAt(path: seq<Cell>, reserved: set<Cell>, p: nat)
    requires p < |path| && path[p] !in reserved
    ensures |Free(path[..p], reserved)| < |Free(path, reserved)|
    ensures Free(path, reserved)[|Free(path[..p], reserved)|] == path[p]
  {
    var n := |path| - 1;
    if p < n {
      FreeAt(path[..n], reserved, p);
      assert path[..n][..p] == path[..p];
    }
  }

  lemma {:induction false} DistinctSize<T>(s: seq<T>)
    requires Distinct(s)
    ensures |Elems(s)| == |s|
  {
    if s != [] {
      var n := |s| - 1;
      DistinctSize(s[..n]);
      assert s == s[..n] + [s[n]];
      ElemsNext(s, n);
      assert s[..n + 1] == s && s[n] !in Elems(s[..n]);
    }
  }

  /** A free module is the `k`-th of the walk, `k` being how many come before it. */
  lemma FreeByTurn(size: nat, reserved: set<Cell>, c: Cell)
    requires size % 4 == 1 && size >= 9 && c.x < size && c.x != 6 && c.y < size && c !in reserved
    ensures var free, k := Free(Path(size), reserved), |Earlier(size, reserved, c)|;
            k < |free| && free[k] == c
  {
    hide Path, Turn, Free;
    var path, p := Path(size), Turn(size, c);
    PathAtTurn(size, c);
    ZigzagIsComplete(size);
    FreeAt(path, reserved, p);
    FreeCells(path[..p], reserved);
    var before := Free(path[..p], reserved);
    forall d
      ensures d in before <==> d in Earlier(size, reserved, c)
    {
      if d in path {
        PathAtTurn(size, d);
        BeforeTurn(path, p, Turn(size, d));
      }
      assert d in path[..p] ==> d in path;
    }
    assert Elems(before) == Earlier(size, reserved, c);
    DistinctSize(before);
  }

  lemma BeforeTurn(path: seq<Cell>, p: nat, q: nat)
    requires Distinct(path) && p < |path| && q < |path|
    ensures path[q] in path[..p] <==> q < p
  {
    if q < p {
      assert path[..p][q] == path[q];
    }
  }

  // ---- the masks ----

  /** What each mask flips, for column `x` and row `y`. */
  predicate Flipped(mask: nat, x: nat, y: nat)
  {
    || (mask == 0 && (x + y) % 2 == 0)
    || (mask == 1 && y % 2 == 0)
    || (mask == 2 && x % 3 == 0)
    || (mask == 3 && (x + y) % 3 == 0)
    || (mask == 4 && (x / 3) % 2 == (y / 2) % 2)
    || (mask == 5 && (x * y) % 6 == 0)
    || (mask == 6 && (x * y) % 6 < 3)
    || (mask == 7 && ((x * y) % 3 == 1 <==> (x + y) % 2 == 1))
  }

  /** A mask flips exactly those modules, where they are not reserved. */
  lemma MaskFlips(p: Picture, reserved: set<Cell>, mask: nat, c: Cell)
    requires mask < 8 && InGrid(p, c)
    ensures Get(Masked(p, reserved, mask), c) == (Get(p, c) != (c !in reserved && Flipped(mask, c.x, c.y)))
  {
    MaskedGet(p, reserved, mask, c);
    hide Masked;
    InvertsFlipped(mask, c.x, c.y);
  }

  lemma InvertsFlipped(mask: nat, x: nat, y: nat)
    requires mask < 8
    ensures Invert(mask, x, y) <==> Flipped(mask, x, y)
  {
    if mask < 5 {
      EvenSum(x / 3, y / 2);
      InvertsBySums(mask, x, y);
    } else {
      var p := x * y;
      BySixths(p);
      EvenSum(x + y, p % 3);
      InvertsByProduct(mask, x, y, p);
    }
  }

  lemma InvertsByProduct(mask: nat, x: nat, y: nat, p: nat)
    requires 5 <= mask < 8 && p == x * y
    requires p % 2 + p % 3 == 0 <==> p % 6 == 0
    requires (p % 2 + p % 3) % 2 == 0 <==> p % 6 < 3
    requires ((x + y) + p % 3) % 2 == 0 <==> (x + y) % 2 == p % 3 % 2
    ensures Invert(mask, x, y) <==> Flipped(mask, x, y)
  {
    EvenSum((x + y) % 2, p % 3);
  }

  lemma InvertsBySums(mask: nat, x: nat, y: nat)
    requires mask < 5 && ((x / 3 + y / 2) % 2 == 0 <==> (x / 3) % 2 == (y / 2) % 2)
    ensures Invert(mask, x, y) <==> Flipped(mask, x, y)
  {
  }

  lemma EvenSum(a: nat, b: nat)
    ensures (a + b) % 2 == 0 <==> a % 2 == b % 2
  {
  }

  lemma BySixths(p: nat)
    ensures p % 2 + p % 3 == 0 <==> p % 6 == 0
    ensures (p % 2 + p % 3) % 2 == 0 <==> p % 6 < 3
  {
    SameRemainder(3 * (p / 6), p % 6, 2);
    SameRemainder(2 * (p / 6), p % 6, 3);
    SmallSixths(p % 6);
  }

  lemma SameRemainder(q: nat, r: nat, m: nat)
    requires m == 2 || m == 3
    ensures (m * q + r) % m == r % m
  {
  }

  lemma SmallSixths(r: nat)
    requires r < 6
    ensures r % 2 + r % 3 == 0 <==> r == 0
    ensures (r % 2 + r % 3) % 2 == 0 <==> r < 3
  {
  }

  // ---- the whole symbol ----

  /** Each free module shows one bit of the codewords: as many bits on as there are
      free modules the zigzag comes to before it, most significant bit first, flipped
      where the mask says. Past the last bit it shows what was there. */
  lemma ModuleTellsBit(
    size: nat, formatBits: nat, start: Picture, reserved: set<Cell>, data: seq<Byte>, mask: nat, symbol: Picture,
    c: Cell)
    requires size % 4 == 1 && size >= 21 && Square(start, size) && FormatCells(size) <= reserved && mask < 8
    requires var drawn := PlaceAll(Drawing(start, 0), Path(size), reserved, data).picture;
             symbol == Finished(size, formatBits, drawn, reserved, mask)
    requires c.x < size && c.x != 6 && c.y < size && c !in reserved
    ensures var k := |Earlier(size, reserved, c)|;
            && InGrid(symbol, c)
            && Get(symbol, c) == ((if k < 8 * |data| then Bit(data[k / 8], 7 - k % 8) == 1 else Get(start, c))
                                  != Flipped(mask, c.x, c.y))
  {
    hide Path, PlaceAll, Free, Earlier, Finished, FormatCells, Invert, Flipped;
    SymbolShowsData(size, formatBits, start, reserved, data, mask);
    FreeByTurn(size, reserved, c);
    InvertsFlipped(mask, c.x, c.y);
    var free, k := Free(Path(size), reserved), |Earlier(size, reserved, c)|;
    assert Shows(symbol, start, free, data, mask, k);
  }

  /** Where both copies of the format word stand, and the dark module. The word is
      the multiple of 0x537 that carries level and mask, flipped by 0x5412. */
  lemma FormatModules(size: nat, formatBits: nat, base: Picture, reserved: set<Cell>, mask: nat) returns (word: nat)
    requires size >= 21 && Square(base, size) && formatBits < 4 && mask < 8
    ensures word < 32768 && Shr(Xor(word, 0x5412), 10) == 8 * formatBits + mask
    ensures exists q :: Xor(word, 0x5412) == ClMul(0x537, q)
    ensures var symbol := Finished(size, formatBits, base, reserved, mask);
            && Square(symbol, size)
            && (forall i :: 0 <= i < 6 ==> Get(symbol, Cell(8, i)) == (Bit(word, i) == 1))
            && Get(symbol, Cell(8, 7)) == (Bit(word, 6) == 1) && Get(symbol, Cell(8, 8)) == (Bit(word, 7) == 1)
            && Get(symbol, Cell(7, 8)) == (Bit(word, 8) == 1)
            && (forall i :: 9 <= i < 15 ==> Get(symbol, Cell(14 - i, 8)) == (Bit(word, i) == 1))
            && (forall i :: 0 <= i < 8 ==> Get(symbol, Cell(size - 1 - i, 8)) == (Bit(word, i) == 1))
            && (forall i :: 8 <= i < 15 ==> Get(symbol, Cell(8, size - 15 + i)) == (Bit(word, i) == 1))
            && Get(symbol, Cell(8, size - 8))
  {
    hide Xor, Shr, FormatWord, FormatWrites, WriteAll, Masked, Pow2, ClMul, BchQuotient;
    word := FormatWord(formatBits, mask);
    FormatWordIsCodeword(formatBits, mask);
    FormatWordWidth(formatBits, mask);
    Pow2Fifteen();
    var masked, writes, symbol := Masked(base, reserved, mask), FormatWrites(size, word),
        Finished(size, formatBits, base, reserved, mask);
    MaskedIsSquare(base, size, reserved, mask);
    WriteAllGets(masked, writes);
    forall second, i | 0 <= i < 15
      ensures Get(symbol, FormatCell(size, second, i)) == (Bit(word, i) == 1)
    {
      FormatBitStands(size, word, second, i);
    }
    forall i | 9 <= i < 15
      ensures Get(symbol, Cell(14 - i, 8)) == (Bit(word, i) == 1)
    {
      assert FormatCell(size, false, i) == Cell(14 - i, 8);
    }
    forall i | 0 <= i < 8
      ensures Get(symbol, Cell(size - 1 - i, 8)) == (Bit(word, i) == 1)
    {
      assert FormatCell(size, true, i) == Cell(size - 1 - i, 8);
    }
    forall i | 8 <= i < 15
      ensures Get(symbol, Cell(8, size - 15 + i)) == (Bit(word, i) == 1)
    {
      assert FormatCell(size, true, i) == Cell(8, size - 15 + i);
    }
    forall i | 0 <= i < 6
      ensures Get(symbol, Cell(8, i)) == (Bit(word, i) == 1)
    {
      assert FormatCell(size, false, i) == Cell(8, i);
    }
    assert FormatCell(size, false, 6) == Cell(8, 7) && FormatCell(size, false, 7) == Cell(8, 8);
    assert FormatCell(size, false, 8) == Cell(7, 8);
    DarkStands(size, word);
  }

  lemma Pow2Fifteen()
    ensures Pow2(15) == 32768
  {
    assert Pow2(5) == 32;
  }

  lemma DarkStands(size: nat, word: nat)
    requires size >= 21
    ensures LastWrite(FormatWrites(size, word), Cell(8, size - 8)) == Some(true)
  {
    hide FormatBit;
    var writes := FormatWrites(size, word);
    assert |writes| == 31 && writes[30] == (Cell(8, size - 8), true);
    hide FormatWrites;
    LastWriteAt(writes, 30);
  }
}
