/** Splitting data codewords into blocks, appending error correction and
    interleaving (QrCode.addEccAndInterleave, web/src/lib/qr.ts), with the
    inverse a reader applies. */
module Interleave {
  import opened Bits
  import opened Gf256
  import opened ReedSolomon

  /** One row of the version tables: how many blocks, how many error-correction
      codewords in each, and how many codewords in all. */
  datatype Layout = Layout(blocks: nat, ecc: nat, raw: nat) {
    /** Every row of the tables has at least one block and codewords to spare. */
    ghost predicate Fits()
    {
      blocks >= 1 && ecc >= 1 && raw / blocks >= ecc
    }

    function ShortBlocks(): (n: nat)
      requires Fits()
      ensures 1 <= n <= blocks
    {
      blocks - raw % blocks
    }

    /** Data codewords in a short block; a long block has one more. */
    function ShortData(): nat
      requires Fits()
    {
      raw / blocks - ecc
    }

    function DataLength(j: nat): nat
      requires Fits()
    {
      ShortData() + if j < ShortBlocks() then 0 else 1
    }

    function DataStart(j: nat): nat
      requires Fits()
    {
      if j == 0 then 0 else DataStart(j - 1) + DataLength(j - 1)
    }

    /** Codewords in interleaved row `i`: the short blocks skip row `ShortData()`. */
    function RowLength(i: nat): nat
      requires Fits()
    {
      if i == ShortData() then blocks - ShortBlocks() else blocks
    }

    function RowStart(i: nat): nat
      requires Fits()
    {
      if i == 0 then 0 else RowStart(i - 1) + RowLength(i - 1)
    }

    function Rows(): nat
      requires Fits()
    {
      ShortData() + 1 + ecc
    }

    function DataTotal(): nat
      requires Fits()
    {
      DataStart(blocks)
    }
  }

  // ---- lengths ----

  lemma {:induction false} DataStartClosed(l: Layout, j: nat)
    requires l.Fits()
    ensures l.DataStart(j) == j * l.ShortData() + if j < l.ShortBlocks() then 0 else j - l.ShortBlocks()
  {
    if j != 0 {
      DataStartClosed(l, j - 1);
      assert j * l.ShortData() == (j - 1) * l.ShortData() + l.ShortData();
    }
  }

  lemma {:induction false} RowStartClosed(l: Layout, i: nat)
    requires l.Fits()
    ensures l.RowStart(i) == i * l.blocks - if i <= l.ShortData() then 0 else l.ShortBlocks()
  {
    if i != 0 {
      RowStartClosed(l, i - 1);
      assert i * l.blocks == (i - 1) * l.blocks + l.blocks;
    }
  }

  lemma TotalsArithmetic(n: nat, q: nat, e: nat, raw: nat)
    requires n >= 1 && q == raw / n && q >= e
    ensures n * (q - e) + raw % n == raw - n * e
    ensures (q + 1) * n - (n - raw % n) == raw
  {
    assert raw == q * n + raw % n;
    assert n * (q - e) == q * n - n * e;
  }

  /** The blocks take exactly the data a version holds, and the rows fill it. */
  lemma Totals(l: Layout)
    requires l.Fits()
    ensures l.DataTotal() == l.raw - l.blocks * l.ecc
    ensures l.RowStart(l.Rows()) == l.raw
  {
    DataStartClosed(l, l.blocks);
    RowStartClosed(l, l.Rows());
    TotalsArithmetic(l.blocks, l.raw / l.blocks, l.ecc, l.raw);
  }

  lemma {:induction false} DataStartMonotone(l: Layout, i: nat, j: nat)
    requires l.Fits() && i <= j
    ensures l.DataStart(i) <= l.DataStart(j)
    decreases j
  {
    if i < j {
      DataStartMonotone(l, i, j - 1);
    }
  }

  // ---- specification ----

  function DataBlock(l: Layout, data: seq<Byte>, j: nat): (b: seq<Byte>)
    requires l.Fits() && j < l.blocks && |data| == l.DataTotal()
    ensures |b| == l.DataLength(j)
  {
    DataStartMonotone(l, j + 1, l.blocks);
    data[l.DataStart(j)..l.DataStart(j + 1)]
  }

  function EccBlock(l: Layout, data: seq<Byte>, j: nat): (b: seq<Byte>)
    requires l.Fits() && j < l.blocks && |data| == l.DataTotal()
    ensures |b| == l.ecc
  {
    Remainder(DataBlock(l, data, j), Generator(l.ecc)[1..])
  }

  /** A block as the encoder stores it: a short one carries a filler byte. */
  function Padded(l: Layout, data: seq<Byte>, j: nat): (b: seq<Byte>)
    requires l.Fits() && j < l.blocks && |data| == l.DataTotal()
    ensures |b| == l.Rows()
  {
    DataBlock(l, data, j) + (if j < l.ShortBlocks() then [0] else []) + EccBlock(l, data, j)
  }

  ghost predicate Rectangular(l: Layout, blocks: seq<seq<Byte>>)
    requires l.Fits()
  {
    |blocks| == l.blocks && forall j :: 0 <= j < l.blocks ==> |blocks[j]| == l.Rows()
  }

  /** Row `i`, from the first block that has a codeword there. */
  function Row(l: Layout, blocks: seq<seq<Byte>>, i: nat): (r: seq<Byte>)
    requires l.Fits() && Rectangular(l, blocks) && i < l.Rows()
    ensures |r| == l.RowLength(i)
  {
    var skip := l.blocks - l.RowLength(i);
    seq(l.RowLength(i), k requires 0 <= k < l.RowLength(i) => blocks[skip + k][i])
  }

  function Weave(l: Layout, blocks: seq<seq<Byte>>, n: nat): (r: seq<Byte>)
    requires l.Fits() && Rectangular(l, blocks) && n <= l.Rows()
    ensures |r| == l.RowStart(n)
  {
    if n == 0 then [] else Weave(l, blocks, n - 1) + Row(l, blocks, n - 1)
  }

  function PaddedBlocks(l: Layout, data: seq<Byte>): (b: seq<seq<Byte>>)
    requires l.Fits() && |data| == l.DataTotal()
    ensures Rectangular(l, b)
  {
    seq(l.blocks, j requires 0 <= j < l.blocks => Padded(l, data, j))
  }

  function Codewords(l: Layout, data: seq<Byte>): seq<Byte>
    requires l.Fits() && |data| == l.DataTotal()
  {
    Weave(l, PaddedBlocks(l, data), l.Rows())
  }

  // ---- the two loops ----

  /** `addEccAndInterleave`. */
  method AddEccAndInterleave(l: Layout, data: seq<Byte>) returns (result: seq<Byte>)
    requires l.Fits() && |data| == l.raw - l.blocks * l.ecc
    ensures |data| == l.DataTotal() && result == Codewords(l, data)
    ensures |result| == l.raw
  {
    hide Weave, Remainder, Generator;
    Totals(l);
    var numShortBlocks := l.blocks - l.raw % l.blocks;
    var shortBlockLen := l.raw / l.blocks;
    var blocks: seq<seq<Byte>> := [];
    var rsDiv := ReedSolomonComputeDivisor(l.ecc);
    var i, k := 0, 0;
    while i < l.blocks
      invariant 0 <= i == |blocks| <= l.blocks
      invariant k == l.DataStart(i)
      invariant rsDiv[..] == Generator(l.ecc)[1..]
      invariant forall j :: 0 <= j < i ==> blocks[j] == Padded(l, data, j)
    {
      DataStartMonotone(l, i + 1, l.blocks);
      var dat := data[k..k + shortBlockLen - l.ecc + if i < numShortBlocks then 0 else 1];
      k := k + |dat|;
      var ecc := ReedSolomonComputeRemainder(dat, rsDiv[..]);
      if i < numShortBlocks {
        dat := dat + [0];
      }
      blocks := blocks + [dat + ecc];
      i := i + 1;
    }
    assert blocks == PaddedBlocks(l, data);
    result := WeaveRows(l, blocks);
  }

  /** The column-wise emission loop, passing over the filler slot. */
  method WeaveRows(l: Layout, blocks: seq<seq<Byte>>) returns (result: seq<Byte>)
    requires l.Fits() && Rectangular(l, blocks)
    ensures result == Weave(l, blocks, l.Rows())
  {
    result := [];
    var i := 0;
    while i < |blocks[0]|
      invariant 0 <= i <= l.Rows()
      invariant result == Weave(l, blocks, i)
    {
      var j := 0;
      while j < |blocks|
        invariant 0 <= j <= |blocks|
        invariant var skip := l.blocks - l.RowLength(i);
                  result == Weave(l, blocks, i) + if j <= skip then [] else Row(l, blocks, i)[..j - skip]
      {
        if i != l.ShortData() || j >= l.ShortBlocks() {
          result := result + [blocks[j][i]];
        }
        j := j + 1;
      }
      assert Row(l, blocks, i)[..l.RowLength(i)] == Row(l, blocks, i);
      i := i + 1;
    }
  }

  // ---- the reader's inverse ----

  /** The codeword of block `j` in row `i` of the interleaved stream. */
  function Pick(l: Layout, stream: seq<Byte>, j: nat, i: nat): Byte
    requires l.Fits() && |stream| == l.raw
    requires j < l.blocks && i < l.Rows() && (i == l.ShortData() ==> j >= l.ShortBlocks())
  {
    PickInRange(l, j, i);
    stream[l.RowStart(i) + j - (l.blocks - l.RowLength(i))]
  }

  lemma PickInRange(l: Layout, j: nat, i: nat)
    requires l.Fits()
    requires j < l.blocks && i < l.Rows() && (i == l.ShortData() ==> j >= l.ShortBlocks())
    ensures 0 <= l.RowStart(i) + j - (l.blocks - l.RowLength(i)) < l.RowStart(i + 1) <= l.raw
  {
    Totals(l);
    RowStartMonotone(l, i + 1, l.Rows());
  }

  lemma {:induction false} RowStartMonotone(l: Layout, i: nat, j: nat)
    requires l.Fits() && i <= j
    ensures l.RowStart(i) <= l.RowStart(j)
    decreases j
  {
    if i < j {
      RowStartMonotone(l, i, j - 1);
    }
  }

  /** `n` codewords of block `j`, from row `first` down. */
  function ReadRun(l: Layout, stream: seq<Byte>, j: nat, first: nat, n: nat): (r: seq<Byte>)
    requires l.Fits() && |stream| == l.raw && j < l.blocks && first + n <= l.Rows()
    requires first <= l.ShortData() < first + n ==> j >= l.ShortBlocks()
    ensures |r| == n
    ensures forall i :: 0 <= i < n ==> r[i] == Pick(l, stream, j, first + i)
  {
    if n == 0 then [] else ReadRun(l, stream, j, first, n - 1) + [Pick(l, stream, j, first + n - 1)]
  }

  function ReadData(l: Layout, stream: seq<Byte>, j: nat): seq<Byte>
    requires l.Fits() && |stream| == l.raw && j < l.blocks
  {
    ReadRun(l, stream, j, 0, l.DataLength(j))
  }

  function ReadEcc(l: Layout, stream: seq<Byte>, j: nat): seq<Byte>
    requires l.Fits() && |stream| == l.raw && j < l.blocks
  {
    ReadRun(l, stream, j, l.ShortData() + 1, l.ecc)
  }

  /** The data of blocks 0 to `n - 1`, in order. */
  function Deinterleave(l: Layout, stream: seq<Byte>, n: nat): seq<Byte>
    requires l.Fits() && |stream| == l.raw && n <= l.blocks
  {
    if n == 0 then [] else Deinterleave(l, stream, n - 1) + ReadData(l, stream, n - 1)
  }

  lemma {:induction false} WeaveAt(l: Layout, blocks: seq<seq<Byte>>, n: nat, j: nat, i: nat)
    requires l.Fits() && Rectangular(l, blocks) && i < n <= l.Rows()
    requires j < l.blocks && (i == l.ShortData() ==> j >= l.ShortBlocks())
    ensures var at := l.RowStart(i) + j - (l.blocks - l.RowLength(i));
            0 <= at < |Weave(l, blocks, n)| && Weave(l, blocks, n)[at] == blocks[j][i]
  {
    PickInRange(l, j, i);
    RowStartMonotone(l, i + 1, n);
    if i < n - 1 {
      RowStartMonotone(l, i + 1, n - 1);
      WeaveAt(l, blocks, n - 1, j, i);
    }
  }

  /** Every block comes back whole, data and error correction alike. */
  lemma BlocksComeBack(l: Layout, data: seq<Byte>, j: nat)
    requires l.Fits() && |data| == l.DataTotal() && j < l.blocks
    ensures |Codewords(l, data)| == l.raw
    ensures ReadData(l, Codewords(l, data), j) == DataBlock(l, data, j)
    ensures ReadEcc(l, Codewords(l, data), j) == EccBlock(l, data, j)
  {
    hide Weave, EccBlock, DataBlock;
    Totals(l);
    var blocks, stream := PaddedBlocks(l, data), Codewords(l, data);
    forall i | 0 <= i < l.DataLength(j)
      ensures Pick(l, stream, j, i) == DataBlock(l, data, j)[i]
    {
      WeaveAt(l, blocks, l.Rows(), j, i);
    }
    forall i | 0 <= i < l.ecc
      ensures Pick(l, stream, j, l.ShortData() + 1 + i) == EccBlock(l, data, j)[i]
    {
      WeaveAt(l, blocks, l.Rows(), j, l.ShortData() + 1 + i);
    }
  }

  lemma PrefixGrows(l: Layout, data: seq<Byte>, j: nat)
    requires l.Fits() && |data| == l.DataTotal() && j < l.blocks
    requires l.DataStart(j + 1) <= |data|
    ensures data[..l.DataStart(j)] + DataBlock(l, data, j) == data[..l.DataStart(j + 1)]
  {
  }

  lemma {:induction false} PrefixComesBack(l: Layout, data: seq<Byte>, n: nat)
    requires l.Fits() && |data| == l.DataTotal() && n <= l.blocks
    ensures |Codewords(l, data)| == l.raw && l.DataStart(n) <= |data|
    ensures Deinterleave(l, Codewords(l, data), n) == data[..l.DataStart(n)]
  {
    hide Codewords, ReadData, DataBlock;
    Totals(l);
    DataStartMonotone(l, n, l.blocks);
    if n == 0 {
      BlocksComeBack(l, data, 0);
    } else {
      PrefixComesBack(l, data, n - 1);
      BlocksComeBack(l, data, n - 1);
      PrefixGrows(l, data, n - 1);
    }
  }

  /** Interleaving loses nothing. */
  lemma InterleaveRoundTrip(l: Layout, data: seq<Byte>)
    requires l.Fits() && |data| == l.DataTotal()
    ensures |Codewords(l, data)| == l.raw
    ensures Deinterleave(l, Codewords(l, data), l.blocks) == data
  {
    PrefixComesBack(l, data, l.blocks);
  }

  /** Every block read back is a Reed-Solomon codeword. */
  lemma BlocksAreCodewords(l: Layout, data: seq<Byte>, j: nat, i: nat)
    requires l.Fits() && |data| == l.DataTotal() && j < l.blocks && i < l.ecc
    ensures |Codewords(l, data)| == l.raw
    ensures Eval(ReadData(l, Codewords(l, data), j) + ReadEcc(l, Codewords(l, data), j), Power(2, i)) == 0
  {
    hide Codewords, DataBlock;
    BlocksComeBack(l, data, j);
    CodewordHasRoots(DataBlock(l, data, j), l.ecc, i);
  }

  /** Where the stream takes codeword `i` of block `j` from, in plain numbers: the
      blocks lie in the data one after the other, those that are one longer at the
      end, and the stream takes from each in turn. */
  lemma DataInText(l: Layout, data: seq<Byte>, j: nat, i: nat)
    requires l.Fits() && |data| == l.DataTotal() && j < l.blocks
    ensures |data| == l.raw - l.blocks * l.ecc && |Codewords(l, data)| == l.raw
    ensures var n, d, short := l.blocks, l.raw / l.blocks - l.ecc, l.blocks - l.raw % l.blocks;
            var from, to := j * d + (if j < short then 0 else j - short) + i, i * n + j - if i == d then short else 0;
            i < d + (if j < short then 0 else 1) ==>
              from < |data| && 0 <= to < l.raw && Codewords(l, data)[to] == data[from]
  {
    hide Weave, EccBlock, DataBlock, Codewords;
    Totals(l);
    BlocksComeBack(l, data, j);
    if i < l.DataLength(j) {
      Places(l, j, i);
      DataAt(l, data, j, i);
    }
  }

  lemma Places(l: Layout, j: nat, i: nat)
    requires l.Fits() && j < l.blocks && i < l.DataLength(j)
    ensures var n, d, short := l.blocks, l.raw / l.blocks - l.ecc, l.blocks - l.raw % l.blocks;
            && l.DataStart(j) == j * d + (if j < short then 0 else j - short)
            && l.RowStart(i) + j - (l.blocks - l.RowLength(i)) == i * n + j - if i == d then short else 0
  {
    DataStartClosed(l, j);
    RowStartClosed(l, i);
  }

  lemma DataAt(l: Layout, data: seq<Byte>, j: nat, i: nat)
    requires l.Fits() && |data| == l.DataTotal() && j < l.blocks && i < l.DataLength(j)
    ensures |Codewords(l, data)| == l.raw
    ensures var to := l.RowStart(i) + j - (l.blocks - l.RowLength(i));
            && l.DataStart(j) + i < |data| && 0 <= to < l.raw
            && Codewords(l, data)[to] == data[l.DataStart(j) + i]
  {
    hide Weave, EccBlock;
    Totals(l);
    DataStartMonotone(l, j + 1, l.blocks);
    PickInRange(l, j, i);
    WeaveAt(l, PaddedBlocks(l, data), l.Rows(), j, i);
  }

  lemma EccRow(l: Layout, i: nat)
    requires l.Fits()
    ensures l.RowStart(l.ShortData() + 1 + i) == l.raw - l.blocks * l.ecc + i * l.blocks
  {
    var n, q, e := l.blocks, l.raw / l.blocks, l.ecc;
    RowStartClosed(l, q - e + 1 + i);
    TotalsArithmetic(n, q, e, l.raw);
    assert (q - e + 1 + i) * n == n * (q - e) + n + i * n;
  }

  /** Which of the data a block is. */
  lemma BlockInText(l: Layout, data: seq<Byte>, j: nat)
    requires l.Fits() && |data| == l.DataTotal() && j < l.blocks
    ensures var d, short := l.raw / l.blocks - l.ecc, l.blocks - l.raw % l.blocks;
            var from, length := j * d + (if j < short then 0 else j - short), d + if j < short then 0 else 1;
            from + length <= |data| && DataBlock(l, data, j) == data[from..from + length]
  {
    DataStartClosed(l, j);
    DataStartMonotone(l, j + 1, l.blocks);
  }

  /** After all the data the stream carries the error correction, again from each
      block in turn, and with its own a block is zero at the first powers of two. */
  lemma EccInText(l: Layout, data: seq<Byte>, j: nat, i: nat)
    requires l.Fits() && |data| == l.DataTotal() && j < l.blocks && i < l.ecc
    ensures |data| == l.raw - l.blocks * l.ecc && |data| + i * l.blocks + j < l.raw == |Codewords(l, data)|
    ensures Codewords(l, data)[|data| + i * l.blocks + j] == EccBlock(l, data, j)[i]
    ensures Eval(DataBlock(l, data, j) + EccBlock(l, data, j), Power(2, i)) == 0
  {
    hide Codewords, DataBlock, Eval, Remainder, Generator, Power;
    CodewordHasRoots(DataBlock(l, data, j), l.ecc, i);
    EccAt(l, data, j, i);
  }

  lemma EccAt(l: Layout, data: seq<Byte>, j: nat, i: nat)
    requires l.Fits() && |data| == l.DataTotal() && j < l.blocks && i < l.ecc
    ensures |data| == l.raw - l.blocks * l.ecc && |data| + i * l.blocks + j < l.raw == |Codewords(l, data)|
    ensures Codewords(l, data)[|data| + i * l.blocks + j] == EccBlock(l, data, j)[i]
  {
    hide Weave, EccBlock, DataBlock, Layout.RowStart;
    Totals(l);
    EccRow(l, i);
    PickInRange(l, j, l.ShortData() + 1 + i);
    WeaveAt(l, PaddedBlocks(l, data), l.Rows(), j, l.ShortData() + 1 + i);
  }
}
