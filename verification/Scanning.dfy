/** The whole encoder against a reader: the text that went in is the text a scan
    of the finished symbol gives back (qrMatrix, web/src/lib/qr.ts). */
module Scanning {
  import opened Bits
  import opened Common
  import Interleave
  import QrGrid
  import Segment

  /** The bit a scanner reads off a module, once it knows the mask. */
  predicate ScannedBit(symbol: QrGrid.Picture, mask: nat, c: QrGrid.Cell)
    requires QrGrid.InGrid(symbol, c)
  {
    QrGrid.Get(symbol, c) != QrGrid.Invert(mask, c.x, c.y)
  }

  /** The codewords `read` are those the free modules of the symbol show. */
  ghost predicate Scans(read: seq<Byte>, symbol: QrGrid.Picture, mask: nat, free: seq<QrGrid.Cell>)
  {
    8 * |read| <= |free| &&
    forall k :: 0 <= k < 8 * |read| ==>
      QrGrid.InGrid(symbol, free[k]) && QrGrid.DataBit(read, k) == ScannedBit(symbol, mask, free[k])
  }

  lemma {:induction false} BitsDecide(v: nat, w: nat, n: nat)
    requires v < Pow2(n) && w < Pow2(n) && forall i :: 0 <= i < n ==> Bit(v, i) == Bit(w, i)
    ensures v == w
  {
    if n > 0 {
      assert Bit(v, 0) == v % 2 && Bit(w, 0) == w % 2;
      forall i | 0 <= i < n - 1
        ensures Bit(v / 2, i) == Bit(w / 2, i)
      {
        assert Bit(v, i + 1) == Bit(v / 2, i) && Bit(w, i + 1) == Bit(w / 2, i);
      }
      BitsDecide(v / 2, w / 2, n - 1);
    }
  }

  lemma DataBitsDecide(a: seq<Byte>, b: seq<Byte>)
    requires |a| == |b| && forall k :: 0 <= k < 8 * |a| ==> QrGrid.DataBit(a, k) == QrGrid.DataBit(b, k)
    ensures a == b
  {
    forall i | 0 <= i < |a|
      ensures a[i] == b[i]
    {
      forall j | 0 <= j < 8
        ensures Bit(a[i], j) == Bit(b[i], j)
      {
        var k := 8 * i + (7 - j);
        assert k / 8 == i && k % 8 == 7 - j;
        assert QrGrid.DataBit(a, k) == QrGrid.DataBit(b, k);
      }
      assert Pow2(8) == 256;
      BitsDecide(a[i], b[i], 8);
    }
  }

  /** Whatever the mask, the reserved modules and what they show: if the symbol
      has room for the codewords, reading the mask off either copy of the format
      word and the free modules in zigzag order, unmasking, taking the blocks apart
      and decoding the segment gives the text. */
  lemma ScanGivesText(
    s: Segment.Symbol, l: Interleave.Layout, text: seq<Byte>, data: seq<Byte>, size: nat, formatBits: nat,
    start: QrGrid.Picture, reserved: set<QrGrid.Cell>, mask: nat, symbol: QrGrid.Picture, second: bool, read: seq<Byte>)
    requires s.Holds(text) && s.Tabulated() && Segment.Unpack(data) == Segment.Stream(s, text)
    requires l.Fits() && |data| == l.DataTotal() && |read| == l.raw && formatBits < 4 && mask < 8
    requires size % 2 == 1 && size >= 21 && QrGrid.Square(start, size) && QrGrid.FormatCells(size) <= reserved
    requires var codewords := Interleave.Codewords(l, data);
             var drawn := QrGrid.PlaceAll(QrGrid.Drawing(start, 0), QrGrid.Path(size), reserved, codewords).picture;
             symbol == QrGrid.Finished(size, formatBits, drawn, reserved, mask)
    requires QrGrid.Square(symbol, size)
    requires Scans(read, symbol, QrGrid.ReadFormat(symbol, size, second) % 8, QrGrid.Free(QrGrid.Path(size), reserved))
    ensures Segment.Decode(s, Interleave.Deinterleave(l, read, l.blocks)) == Some(text)
  {
    hide *;
    Interleave.InterleaveRoundTrip(l, data);
    var codewords := Interleave.Codewords(l, data);
    QrGrid.SymbolShowsData(size, formatBits, start, reserved, codewords, mask);
    var free := QrGrid.Free(QrGrid.Path(size), reserved);
    MaskIsRead(codewords, size, formatBits, start, reserved, mask, symbol, second);
    SameAsDrawn(symbol, start, free, codewords, mask, read);
    Segment.SegmentRoundTrip(s, text, data);
  }

  /** Either copy of the format word names the mask the symbol was finished with. */
  lemma MaskIsRead(codewords: seq<Byte>, size: nat, formatBits: nat, start: QrGrid.Picture,
                   reserved: set<QrGrid.Cell>, mask: nat, symbol: QrGrid.Picture, second: bool)
    requires size % 2 == 1 && size >= 21 && QrGrid.Square(start, size) && formatBits < 4 && mask < 8
    requires var drawn := QrGrid.PlaceAll(QrGrid.Drawing(start, 0), QrGrid.Path(size), reserved, codewords).picture;
             symbol == QrGrid.Finished(size, formatBits, drawn, reserved, mask)
    ensures QrGrid.Square(symbol, size) && QrGrid.ReadFormat(symbol, size, second) % 8 == mask
  {
    hide *;
    var drawing := QrGrid.PlaceAll(QrGrid.Drawing(start, 0), QrGrid.Path(size), reserved, codewords);
    QrGrid.PlacingKeepsShape(start, QrGrid.Path(size), reserved, codewords);
    StillSquare(drawing.picture, start, size);
    QrGrid.FormatReadsBack(size, formatBits, drawing.picture, reserved, mask, second);
  }

  lemma StillSquare(p: QrGrid.Picture, q: QrGrid.Picture, size: nat)
    requires QrGrid.SameShape(p, q) && QrGrid.Square(q, size)
    ensures QrGrid.Square(p, size)
  {
  }

  lemma SameAsDrawn(symbol: QrGrid.Picture, start: QrGrid.Picture, free: seq<QrGrid.Cell>, codewords: seq<Byte>,
                    mask: nat, read: seq<Byte>)
    requires |read| == |codewords| && Scans(read, symbol, mask, free)
    requires forall k :: 0 <= k < |free| ==> QrGrid.Shows(symbol, start, free, codewords, mask, k)
    ensures read == codewords
  {
    hide QrGrid.Invert, QrGrid.DataBit, QrGrid.Get, QrGrid.InGrid;
    forall k | 0 <= k < 8 * |read|
      ensures QrGrid.DataBit(read, k) == QrGrid.DataBit(codewords, k)
    {
      assert QrGrid.Shows(symbol, start, free, codewords, mask, k);
    }
    DataBitsDecide(read, codewords);
  }
}
