/** Placing codewords on the QR module grid, masking, and the search for a mask
    by apply, score and undo (class QrCode, web/src/lib/qr.ts). */
module QrGrid {
  import opened Bits
  import opened Common

  /** A module of the grid, by column and row. */
  datatype Cell = Cell(x: nat, y: nat)

  /** The modules by row, dark is true. */
  type Picture = seq<seq<bool>>

  predicate InGrid(p: Picture, c: Cell)
  {
    c.y < |p| && c.x < |p[c.y]|
  }

  function Get(p: Picture, c: Cell): bool
    requires InGrid(p, c)
  {
    p[c.y][c.x]
  }

  function Put(p: Picture, c: Cell, b: bool): Picture
  {
    if InGrid(p, c) then p[c.y := p[c.y][c.x := b]] else p
  }

  ghost predicate SameShape(p: Picture, q: Picture)
  {
    |p| == |q| && forall y :: 0 <= y < |p| ==> |p[y]| == |q[y]|
  }

  lemma PutGets(p: Picture, c: Cell, b: bool)
    ensures SameShape(Put(p, c, b), p)
    ensures forall d :: InGrid(p, d) ==> Get(Put(p, c, b), d) == if d == c then b else Get(p, d)
  {
  }

  lemma SamePicture(p: Picture, q: Picture)
    requires SameShape(p, q) && forall c :: InGrid(p, c) ==> Get(p, c) == Get(q, c)
    ensures p == q
  {
    forall y | 0 <= y < |p|
      ensures p[y] == q[y]
    {
      forall x | 0 <= x < |p[y]|
        ensures p[y][x] == q[y][x]
      {
        assert Get(p, Cell(x, y)) == Get(q, Cell(x, y));
      }
    }
  }

  // ---- the zigzag ----

  /** The right column of the `c`-th column pair: pairs run leftwards from the
      edge and step over column 6. */
  function Right(size: nat, c: nat): nat
    requires 2 * c + 2 < size
  {
    var r := size - 1 - 2 * c;
    if r <= 6 then r - 1 else r
  }

  predicate Upward(right: nat)
  {
    (right + 1) / 2 % 2 == 0
  }

  function Row(size: nat, right: nat, vert: nat): nat
    requires vert < size
  {
    if Upward(right) then size - 1 - vert else vert
  }

  /** The first `n` modules of a column pair, in the order they are visited. */
  function PairPath(size: nat, right: nat, n: nat): (p: seq<Cell>)
    requires 1 <= right < size && n <= 2 * size
    ensures |p| == n
  {
    seq(n, s requires 0 <= s < n => Cell(right - s % 2, Row(size, right, s / 2)))
  }

  /** The modules of the first `c` column pairs. */
  function PathTo(size: nat, c: nat): seq<Cell>
    requires 2 * c < size
  {
    if c == 0 then [] else PathTo(size, c - 1) + PairPath(size, Right(size, c - 1), 2 * size)
  }

  function Path(size: nat): seq<Cell>
    requires size >= 1
  {
    PathTo(size, (size - 1) / 2)
  }

  // ---- filling ----

  /** Bit `k` of the codeword stream, most significant bit of each first. */
  function DataBit(data: seq<Byte>, k: nat): bool
    requires k < 8 * |data|
  {
    Bit(data[k / 8], 7 - k % 8) == 1
  }

  datatype Drawing = Drawing(picture: Picture, used: nat)

  function Place(d: Drawing, cell: Cell, layout: set<Cell>, data: seq<Byte>): Drawing
  {
    if cell !in layout && d.used < 8 * |data|
    then Drawing(Put(d.picture, cell, DataBit(data, d.used)), d.used + 1)
    else d
  }

  function PlaceAll(d: Drawing, cells: seq<Cell>, layout: set<Cell>, data: seq<Byte>): Drawing
  {
    if cells == [] then d
    else Place(PlaceAll(d, cells[..|cells| - 1], layout, data), cells[|cells| - 1], layout, data)
  }

  // ---- masks and format bits ----

  predicate Invert(mask: int, x: nat, y: nat)
  {
    match mask
    case 0 => (x + y) % 2 == 0
    case 1 => y % 2 == 0
    case 2 => x % 3 == 0
    case 3 => (x + y) % 3 == 0
    case 4 => (x / 3 + y / 2) % 2 == 0
    case 5 => (x * y) % 2 + (x * y) % 3 == 0
    case 6 => ((x * y) % 2 + (x * y) % 3) % 2 == 0
    case 7 => ((x + y) % 2 + (x * y) % 3) % 2 == 0
    case _ => false
  }

  function MaskedRow(row: seq<bool>, y: nat, layout: set<Cell>, mask: int): (r: seq<bool>)
    ensures |r| == |row|
  {
    seq(|row|, x requires 0 <= x < |row| => row[x] != (Cell(x, y) !in layout && Invert(mask, x, y)))
  }

  function Masked(p: Picture, layout: set<Cell>, mask: int): (m: Picture)
    ensures SameShape(m, p)
  {
    seq(|p|, y requires 0 <= y < |p| => MaskedRow(p[y], y, layout, mask))
  }

  /** `n` turns of the division of the five format bits by 0x537. */
  function Bch(data: nat, n: nat): nat
  {
    if n == 0 then data
    else
      var rem := Bch(data, n - 1);
      Xor(2 * rem, (rem / 512) * 0x537)
  }

  function FormatWord(formatBits: nat, mask: nat): nat
  {
    var data := 8 * formatBits + mask;
    Xor(1024 * data + Bch(data, 10), 0x5412)
  }

  predicate FormatBit(word: nat, i: nat)
  {
    Bit(word, i) == 1
  }

  /** The module writes that draw the copy of a format word beside the top left
      finder, in order. */
  function FirstCopy(word: nat): seq<(Cell, bool)>
  {
    seq(6, i requires 0 <= i < 6 => (Cell(8, i), FormatBit(word, i)))
    + [(Cell(8, 7), FormatBit(word, 6)), (Cell(8, 8), FormatBit(word, 7)), (Cell(7, 8), FormatBit(word, 8))]
    + seq(6, i requires 0 <= i < 6 => (Cell(5 - i, 8), FormatBit(word, 9 + i)))
  }

  /** Both copies and the dark module. */
  function FormatWrites(size: nat, word: nat): seq<(Cell, bool)>
    requires size >= 21
  {
    FirstCopy(word)
    + seq(8, i requires 0 <= i < 8 => (Cell(size - 1 - i, 8), FormatBit(word, i)))
    + seq(7, i requires 0 <= i < 7 => (Cell(8, size - 7 + i), FormatBit(word, 8 + i)))
    + [(Cell(8, size - 8), true)]
  }

  function WriteAll(p: Picture, writes: seq<(Cell, bool)>): Picture
  {
    if writes == [] then p
    else
      var last := writes[|writes| - 1];
      Put(WriteAll(p, writes[..|writes| - 1]), last.0, last.1)
  }

  function Cells(writes: seq<(Cell, bool)>): set<Cell>
  {
    set i | 0 <= i < |writes| :: writes[i].0
  }

  /** The modules a format word takes, whatever it says. */
  function FormatCells(size: nat): set<Cell>
    requires size >= 21
  {
    Cells(FormatWrites(size, 0))
  }

  /** The finished symbol for one mask. */
  function Finished(size: nat, formatBits: nat, base: Picture, layout: set<Cell>, mask: nat): Picture
    requires size >= 21
  {
    WriteAll(Masked(base, layout, mask), FormatWrites(size, FormatWord(formatBits, mask)))
  }

  /** `best` is the first mask whose finished symbol scores lowest. */
  ghost predicate FirstBest(size: nat, formatBits: nat, base: Picture, layout: set<Cell>,
                            penalty: Picture -> int, best: int, n: nat)
    requires size >= 21
  {
    && 0 <= best < n
    && (forall i: nat :: i < best ==>
          penalty(Finished(size, formatBits, base, layout, best))
          < penalty(Finished(size, formatBits, base, layout, i)))
    && (forall i: nat :: best <= i < n ==>
          penalty(Finished(size, formatBits, base, layout, best))
          <= penalty(Finished(size, formatBits, base, layout, i)))
  }

  class QrCode {
    const size: nat
    const formatBits: nat
    const modules: array2<bool>
    const isFunction: array2<bool>

    ghost predicate Valid()
    {
      && size >= 21 && size % 2 == 1
      && modules.Length0 == modules.Length1 == size
      && isFunction.Length0 == isFunction.Length1 == size
      && modules != isFunction
    }

    function RowOf(y: nat): (r: seq<bool>)
      requires Valid() && y < size
      reads modules
      ensures |r| == size && forall x :: 0 <= x < size ==> r[x] == modules[y, x]
    {
      seq(size, x requires 0 <= x < size && Valid() && y < size reads modules => modules[y, x])
    }

    function Picture(): (p: Picture)
      requires Valid()
      reads modules
      ensures |p| == size
      ensures forall y, x :: 0 <= y < size && 0 <= x < size ==> |p[y]| == size && p[y][x] == modules[y, x]
    {
      seq(size, y requires 0 <= y < size && Valid() reads modules => RowOf(y))
    }

    /** The cells reserved for function patterns. */
    ghost function Layout(): set<Cell>
      requires Valid()
      reads isFunction
    {
      set x, y | 0 <= x < size && 0 <= y < size && isFunction[y, x] :: Cell(x, y)
    }

    method SetFunctionModule(x: nat, y: nat, isDark: bool)
      requires Valid() && x < size && y < size
      modifies modules, isFunction
      ensures Picture() == Put(old(Picture()), Cell(x, y), isDark)
      ensures Layout() == old(Layout()) + {Cell(x, y)}
    {
      ghost var was := Picture();
      modules[y, x] := isDark;
      isFunction[y, x] := true;
      OnePut(was, Picture(), Cell(x, y), isDark);
    }

    /** One visited module: takes the next data bit unless it is reserved or
        the data has run out. */
    method DrawModule(data: seq<Byte>, x: nat, y: nat, used: nat) returns (i: nat)
      requires Valid() && x < size && y < size
      modifies modules
      ensures Drawing(Picture(), i) == Place(Drawing(old(Picture()), used), Cell(x, y), Layout(), data)
    {
      hide DataBit;
      i := used;
      if !isFunction[y, x] && i < |data| * 8 {
        ghost var was := Picture();
        modules[y, x] := DataBit(data, i);
        OnePut(was, Picture(), Cell(x, y), DataBit(data, i));
        i := i + 1;
      }
    }

    method DrawCodewords(data: seq<Byte>)
      requires Valid()
      modifies modules
      ensures Picture() == PlaceAll(Drawing(old(Picture()), 0), Path(size), Layout(), data).picture
    {
      hide PlaceAll, PairPath;
      ghost var layout, start := Layout(), Drawing(Picture(), 0);
      PlaceNone(start, layout, data);
      var i := 0;
      var right: int := size - 1;
      ghost var c := 0;
      while right >= 1
        invariant 0 <= c <= (size - 1) / 2
        invariant right == if size - 1 - 2 * c >= 6 then size - 1 - 2 * c else size - 2 - 2 * c
        invariant Layout() == layout
        invariant Drawing(Picture(), i) == PlaceAll(start, PathTo(size, c), layout, data)
      {
        if right == 6 {
          right := 5;
        }
        i := DrawPair(data, right, i, start, PathTo(size, c));
        right := right - 2;
        c := c + 1;
      }
    }

    /** One column pair of the zigzag, two modules a row. */
    method DrawPair(data: seq<Byte>, right: nat, first: nat, ghost start: Drawing, ghost path: seq<Cell>)
      returns (i: nat)
      requires Valid() && 1 <= right < size
      requires Drawing(Picture(), first) == PlaceAll(start, path, Layout(), data)
      modifies modules
      ensures Drawing(Picture(), i) == PlaceAll(start, path + PairPath(size, right, 2 * size), Layout(), data)
    {
      hide PlaceAll, Place;
      ghost var layout := Layout();
      i := first;
      assert path + PairPath(size, right, 0) == path;
      var vert := 0;
      while vert < size
        invariant 0 <= vert <= size && Layout() == layout
        invariant Drawing(Picture(), i) == PlaceAll(start, path + PairPath(size, right, 2 * vert), layout, data)
      {
        var j := 0;
        while j < 2
          invariant 0 <= j <= 2 && Layout() == layout
          invariant Drawing(Picture(), i) == PlaceAll(start, path + PairPath(size, right, 2 * vert + j), layout, data)
        {
          var x := right - j;
          var upward := (right + 1) / 2 % 2 == 0;
          var y := if upward then size - 1 - vert else vert;
          ghost var visited := path + PairPath(size, right, 2 * vert + j);
          PlaceNext(start, visited, Cell(x, y), layout, data);
          assert path + PairPath(size, right, 2 * vert + j + 1) == visited + [Cell(x, y)];
          i := DrawModule(data, x, y, i);
          j := j + 1;
        }
        vert := vert + 1;
      }
    }

    method ApplyMask(mask: int)
      requires Valid()
      modifies modules
      ensures Picture() == Masked(old(Picture()), Layout(), mask)
    {
      hide Invert;
      ghost var was := Picture();
      var y := 0;
      while y < size
        invariant 0 <= y <= size
        invariant forall x', y' :: 0 <= x' < size && 0 <= y' < size ==>
                    modules[y', x'] == (was[y'][x'] != (y' < y && !isFunction[y', x'] && Invert(mask, x', y')))
      {
        var x := 0;
        while x < size
          invariant 0 <= x <= size
          invariant forall x', y' :: 0 <= x' < size && 0 <= y' < size ==>
                      modules[y', x'] == (was[y'][x'] !=
                        ((y' < y || (y' == y && x' < x)) && !isFunction[y', x'] && Invert(mask, x', y')))
        {
          if !isFunction[y, x] && Invert(mask, x, y) {
            modules[y, x] := !modules[y, x];
          }
          x := x + 1;
        }
        y := y + 1;
      }
      SamePicture(Picture(), Masked(was, Layout(), mask));
    }

    /** The grid holds `base` overwritten by `done`, all of it reserved. */
    ghost predicate Drawn(base: Picture, reserved: set<Cell>, done: seq<(Cell, bool)>)
      requires Valid()
      reads modules, isFunction
    {
      Picture() == WriteAll(base, done) && Layout() == reserved + Cells(done)
    }

    method DrawFormatModule(x: nat, y: nat, isDark: bool, ghost base: Picture, ghost reserved: set<Cell>,
                            ghost done: seq<(Cell, bool)>)
      requires Valid() && x < size && y < size && Drawn(base, reserved, done)
      modifies modules, isFunction
      ensures Drawn(base, reserved, done + [(Cell(x, y), isDark)])
    {
      hide WriteAll, Cells;
      WriteNext(base, reserved, done, Cell(x, y), isDark);
      SetFunctionModule(x, y, isDark);
    }

    method FormatBitsOf(mask: nat) returns (bits: nat)
      ensures bits == FormatWord(formatBits, mask)
    {
      hide Xor;
      var data := 8 * formatBits + mask;
      var rem := data;
      for i := 0 to 10
        invariant rem == Bch(data, i)
      {
        rem := Xor(2 * rem, (rem / 512) * 0x537);
      }
      bits := Xor(1024 * data + rem, 0x5412);
    }

    method DrawFormatBits(mask: nat)
      requires Valid()
      modifies modules, isFunction
      ensures Picture() == WriteAll(old(Picture()), FormatWrites(size, FormatWord(formatBits, mask)))
      ensures Layout() == old(Layout()) + Cells(FormatWrites(size, FormatWord(formatBits, mask)))
    {
      var bits := FormatBitsOf(mask);
      ghost var base, reserved := Picture(), Layout();
      NothingWritten(base, reserved);
      DrawFirstCopy(bits, base, reserved);
      DrawSecondCopy(bits, base, reserved);
    }

    method DrawFirstCopy(bits: nat, ghost base: Picture, ghost reserved: set<Cell>)
      requires Valid() && Drawn(base, reserved, [])
      modifies modules, isFunction
      ensures Drawn(base, reserved, FirstCopy(bits))
    {
      hide WriteAll, Cells, FormatBit, Drawn, Picture, Layout;
      ghost var done: seq<(Cell, bool)> := [];
      for i := 0 to 6
        invariant done == seq(i, k requires 0 <= k < i => (Cell(8, k), FormatBit(bits, k)))
        invariant Drawn(base, reserved, done)
      {
        DrawFormatModule(8, i, FormatBit(bits, i), base, reserved, done);
        done := done + [(Cell(8, i), FormatBit(bits, i))];
      }
      DrawFormatModule(8, 7, FormatBit(bits, 6), base, reserved, done);
      done := done + [(Cell(8, 7), FormatBit(bits, 6))];
      DrawFormatModule(8, 8, FormatBit(bits, 7), base, reserved, done);
      done := done + [(Cell(8, 8), FormatBit(bits, 7))];
      DrawFormatModule(7, 8, FormatBit(bits, 8), base, reserved, done);
      done := done + [(Cell(7, 8), FormatBit(bits, 8))];
      ghost var first := done;
      for i := 9 to 15
        invariant done == first + seq(i - 9, k requires 0 <= k < i - 9 => (Cell(5 - k, 8), FormatBit(bits, 9 + k)))
        invariant Drawn(base, reserved, done)
      {
        DrawFormatModule(14 - i, 8, FormatBit(bits, i), base, reserved, done);
        done := done + [(Cell(14 - i, 8), FormatBit(bits, i))];
      }
      assert done == FirstCopy(bits);
    }

    method DrawSecondCopy(bits: nat, ghost base: Picture, ghost reserved: set<Cell>)
      requires Valid() && Drawn(base, reserved, FirstCopy(bits))
      modifies modules, isFunction
      ensures Drawn(base, reserved, FormatWrites(size, bits))
    {
      hide WriteAll, Cells, FormatBit, FirstCopy, Drawn, Picture, Layout;
      ghost var done := FirstCopy(bits);
      for i := 0 to 8
        invariant done == FirstCopy(bits) + seq(i, k requires 0 <= k < i => (Cell(size - 1 - k, 8), FormatBit(bits, k)))
        invariant Drawn(base, reserved, done)
      {
        DrawFormatModule(size - 1 - i, 8, FormatBit(bits, i), base, reserved, done);
        done := done + [(Cell(size - 1 - i, 8), FormatBit(bits, i))];
      }
      ghost var row := done;
      for i := 8 to 15
        invariant done == row + seq(i - 8, k requires 0 <= k < i - 8 => (Cell(8, size - 7 + k), FormatBit(bits, 8 + k)))
        invariant Drawn(base, reserved, done)
      {
        DrawFormatModule(8, size - 15 + i, FormatBit(bits, i), base, reserved, done);
        done := done + [(Cell(8, size - 15 + i), FormatBit(bits, i))];
      }
      DrawFormatModule(8, size - 8, true, base, reserved, done);
      done := done + [(Cell(8, size - 8), true)];
      assert done == FormatWrites(size, bits);
    }

    /** The constructor once the function patterns stand: draw the codewords,
        try the eight masks if none is given, and leave the chosen one applied.
        `penalty` stands for getPenaltyScore. */
    method Finish(data: seq<Byte>, mask: int, penalty: Picture -> int) returns (chosen: nat)
      requires Valid() && mask < 8
      requires FormatCells(size) <= Layout()
      modifies modules, isFunction
      ensures Layout() == old(Layout())
      ensures var base := PlaceAll(Drawing(old(Picture()), 0), Path(size), Layout(), data).picture;
              && Picture() == Finished(size, formatBits, base, Layout(), chosen)
              && chosen < 8 && (mask >= 0 ==> chosen == mask)
              && forall other: nat :: mask < 0 && other < 8 ==>
                   && penalty(Picture()) <= penalty(Finished(size, formatBits, base, Layout(), other))
                   && (other < chosen ==>
                         penalty(Picture()) < penalty(Finished(size, formatBits, base, Layout(), other)))
    {
      hide Invert, PlaceAll, Path, FormatWrites, FormatWord, Masked, WriteAll, Cells;
      ghost var layout := Layout();
      DrawCodewords(data);
      ghost var base := Picture();
      ghost var drawn: seq<(Cell, bool)> := [];
      NothingWritten(base, layout);
      var best: int := mask;
      if mask < 0 {
        var minPenalty := 0;
        for i := 0 to 8
          invariant Layout() == layout
          invariant Cells(drawn) <= FormatCells(size) && Picture() == WriteAll(base, drawn)
          invariant if i == 0 then best == mask else FirstBest(size, formatBits, base, layout, penalty, best, i)
          invariant i > 0 ==> minPenalty == penalty(Finished(size, formatBits, base, layout, best))
        {
          TryMask(base, drawn, i);
          var score := penalty(Picture());
          if best < 0 || score < minPenalty {
            best := i;
            minPenalty := score;
          }
          ApplyMask(i);
          drawn := FormatWrites(size, FormatWord(formatBits, i));
          FormatCellsFixed(size, FormatWord(formatBits, i));
          MaskKeepsReserved(Masked(base, layout, i), drawn, layout, i);
          MaskTwice(base, layout, i);
        }
      }
      chosen := best;
      TryMask(base, drawn, chosen);
    }

    /** Mask and draw the matching format bits over whatever format bits stand. */
    method TryMask(ghost base: Picture, ghost drawn: seq<(Cell, bool)>, mask: nat)
      requires Valid() && FormatCells(size) <= Layout() && Cells(drawn) <= FormatCells(size)
      requires Picture() == WriteAll(base, drawn)
      modifies modules, isFunction
      ensures Layout() == old(Layout()) && Picture() == Finished(size, formatBits, base, Layout(), mask)
    {
      hide Invert, FormatWrites, FormatWord, Masked, WriteAll, Cells;
      ghost var layout := Layout();
      ApplyMask(mask);
      MaskKeepsReserved(base, drawn, layout, mask);
      DrawFormatBits(mask);
      FormatCellsFixed(size, FormatWord(formatBits, mask));
      Overwritten(Masked(base, layout, mask), drawn, FormatWrites(size, FormatWord(formatBits, mask)));
    }
  }

  lemma OnePut(was: Picture, now: Picture, c: Cell, b: bool)
    requires SameShape(was, now) && InGrid(was, c) && Get(now, c) == b
    requires forall d :: InGrid(was, d) && d != c ==> Get(now, d) == Get(was, d)
    ensures now == Put(was, c, b)
  {
    PutGets(was, c, b);
    SamePicture(now, Put(was, c, b));
  }

  lemma PlaceNone(d: Drawing, layout: set<Cell>, data: seq<Byte>)
    ensures PlaceAll(d, [], layout, data) == d
  {
  }

  lemma PlaceNext(d: Drawing, cells: seq<Cell>, cell: Cell, layout: set<Cell>, data: seq<Byte>)
    ensures PlaceAll(d, cells + [cell], layout, data) == Place(PlaceAll(d, cells, layout, data), cell, layout, data)
  {
    assert (cells + [cell])[..|cells|] == cells;
  }

  // ---- masks are undone, format bits overwritten ----

  /** Trying a mask and applying it again restores every module. */
  lemma MaskTwice(p: Picture, layout: set<Cell>, mask: int)
    ensures Masked(Masked(p, layout, mask), layout, mask) == p
  {
    hide Invert;
    SamePicture(Masked(Masked(p, layout, mask), layout, mask), p);
  }

  /** The value last written to a module, if any. */
  function LastWrite(writes: seq<(Cell, bool)>, c: Cell): Option<bool>
  {
    if writes == [] then None
    else if writes[|writes| - 1].0 == c then Some(writes[|writes| - 1].1)
    else LastWrite(writes[..|writes| - 1], c)
  }

  lemma {:induction false} WriteAllGets(p: Picture, writes: seq<(Cell, bool)>)
    ensures SameShape(WriteAll(p, writes), p)
    ensures forall c :: InGrid(p, c) ==> Get(WriteAll(p, writes), c) == LastWrite(writes, c).GetOr(Get(p, c))
  {
    if writes != [] {
      var n := |writes| - 1;
      WriteAllGets(p, writes[..n]);
      PutGets(WriteAll(p, writes[..n]), writes[n].0, writes[n].1);
      hide Put;
    }
  }

  lemma {:induction false} WrittenCells(writes: seq<(Cell, bool)>, c: Cell)
    ensures c in Cells(writes) <==> LastWrite(writes, c).Some?
  {
    if writes != [] {
      var n := |writes| - 1;
      WrittenCells(writes[..n], c);
      CellsNext(writes[..n], writes[n]);
      assert writes == writes[..n] + [writes[n]];
    }
  }

  lemma CellsNext(done: seq<(Cell, bool)>, w: (Cell, bool))
    ensures Cells(done + [w]) == Cells(done) + {w.0}
  {
    var all := done + [w];
    assert forall i :: 0 <= i < |done| ==> all[i] == done[i];
    assert all[|done|] == w;
    assert Cells(done) <= Cells(all) by {
      forall c | c in Cells(done)
        ensures c in Cells(all)
      {
        var i :| 0 <= i < |done| && done[i].0 == c;
        assert all[i].0 == c;
      }
    }
  }

  lemma MaskKeepsReserved(p: Picture, writes: seq<(Cell, bool)>, layout: set<Cell>, mask: int)
    requires Cells(writes) <= layout
    ensures Masked(WriteAll(p, writes), layout, mask) == WriteAll(Masked(p, layout, mask), writes)
  {
    hide Invert, WriteAll, Cells;
    WriteAllGets(p, writes);
    WriteAllGets(Masked(p, layout, mask), writes);
    forall c
      ensures c in Cells(writes) <==> LastWrite(writes, c).Some?
    {
      WrittenCells(writes, c);
    }
    SamePicture(Masked(WriteAll(p, writes), layout, mask), WriteAll(Masked(p, layout, mask), writes));
  }

  lemma Overwritten(p: Picture, under: seq<(Cell, bool)>, over: seq<(Cell, bool)>)
    requires Cells(under) <= Cells(over)
    ensures WriteAll(WriteAll(p, under), over) == WriteAll(p, over)
  {
    hide WriteAll, Cells;
    WriteAllGets(p, under);
    WriteAllGets(p, over);
    WriteAllGets(WriteAll(p, under), over);
    forall c
      ensures LastWrite(under, c).Some? ==> LastWrite(over, c).Some?
    {
      WrittenCells(under, c);
      WrittenCells(over, c);
    }
    SamePicture(WriteAll(WriteAll(p, under), over), WriteAll(p, over));
  }

  lemma WriteNext(p: Picture, reserved: set<Cell>, done: seq<(Cell, bool)>, c: Cell, b: bool)
    ensures WriteAll(p, done + [(c, b)]) == Put(WriteAll(p, done), c, b)
    ensures reserved + Cells(done + [(c, b)]) == reserved + Cells(done) + {c}
  {
    hide Cells;
    assert (done + [(c, b)])[..|done|] == done;
    CellsNext(done, (c, b));
  }

  lemma NothingWritten(p: Picture, reserved: set<Cell>)
    ensures p == WriteAll(p, []) && reserved == reserved + Cells([]) && Cells([]) == {}
  {
  }

  lemma FormatCellsFixed(size: nat, word: nat)
    requires size >= 21
    ensures Cells(FormatWrites(size, word)) == FormatCells(size)
  {
    hide FormatBit;
    var v, w := FormatWrites(size, word), FormatWrites(size, 0);
    assert |v| == |w| && forall i :: 0 <= i < |v| ==> v[i].0 == w[i].0;
    hide FormatWrites;
  }

  // ---- the zigzag visits every module outside column 6 once ----

  /** The columns right of this one are done after `c` pairs. */
  function Frontier(size: nat, c: nat): int
  {
    var r := size - 1 - 2 * c;
    if r <= 6 then r - 1 else r
  }

  lemma PairVisits(size: nat, right: nat, cell: Cell)
    requires 1 <= right < size
    ensures cell in PairPath(size, right, 2 * size) <==> right - 1 <= cell.x <= right && cell.y < size
  {
    if right - 1 <= cell.x <= right && cell.y < size {
      var vert := if Upward(right) then size - 1 - cell.y else cell.y;
      var s := 2 * vert + right - cell.x;
      assert PairPath(size, right, 2 * size)[s] == cell;
    }
  }

  lemma PairDistinct(size: nat, right: nat)
    requires 1 <= right < size
    ensures Distinct(PairPath(size, right, 2 * size))
  {
  }

  lemma DistinctConcat<T>(p: seq<T>, q: seq<T>)
    requires Distinct(p) && Distinct(q) && forall t :: t in p ==> t !in q
    ensures Distinct(p + q)
  {
    forall i, j | 0 <= i < j < |p + q|
      ensures (p + q)[i] != (p + q)[j]
    {
      if i < |p| <= j {
        assert p[i] in p;
      }
    }
  }

  lemma {:induction false} PathVisits(size: nat, c: nat)
    requires size % 2 == 1 && 2 * c < size && size >= 9
    ensures Distinct(PathTo(size, c))
    ensures forall cell :: cell in PathTo(size, c) <==>
              Frontier(size, c) < cell.x < size && cell.x != 6 && cell.y < size
  {
    hide PairPath;
    if c != 0 {
      PathVisits(size, c - 1);
      var p, right := PathTo(size, c - 1), Right(size, c - 1);
      var q := PairPath(size, right, 2 * size);
      PairDistinct(size, right);
      forall cell
        ensures cell in q <==> right - 1 <= cell.x <= right && cell.y < size
      {
        PairVisits(size, right, cell);
      }
      DistinctConcat(p, q);
    }
  }

  /** No module is visited twice, and all but those of column 6 are visited. */
  lemma ZigzagIsComplete(size: nat)
    requires size % 2 == 1 && size >= 9
    ensures Distinct(Path(size))
    ensures forall cell :: cell in Path(size) <==> cell.x < size && cell.x != 6 && cell.y < size
  {
    PathVisits(size, (size - 1) / 2);
  }

  // ---- where each data bit lands ----

  /** The unreserved modules of a walk, in order. */
  function Free(cells: seq<Cell>, layout: set<Cell>): seq<Cell>
  {
    if cells == [] then []
    else
      var last := cells[|cells| - 1];
      Free(cells[..|cells| - 1], layout) + if last in layout then [] else [last]
  }

  lemma {:induction false} FreeCells(cells: seq<Cell>, layout: set<Cell>)
    ensures forall c :: c in Free(cells, layout) <==> c in cells && c !in layout
    ensures Distinct(cells) ==> Distinct(Free(cells, layout))
  {
    if cells != [] {
      var n := |cells| - 1;
      FreeCells(cells[..n], layout);
      assert cells == cells[..n] + [cells[n]];
    }
  }

  function Min(a: nat, b: nat): nat
  {
    if a < b then a else b
  }

  /** What drawing owes after a walk whose unreserved modules were `free`: bit
      `k` on the `k`-th of them, as far as modules and bits last, and nothing
      else touched. */
  ghost predicate Placed(d: Drawing, p: Picture, free: seq<Cell>, data: seq<Byte>)
  {
    && SameShape(d.picture, p)
    && d.used == Min(|free|, 8 * |data|)
    && (forall k :: 0 <= k < |free| ==> InGrid(p, free[k]))
    && (forall k :: 0 <= k < d.used ==> Get(d.picture, free[k]) == DataBit(data, k))
    && (forall c :: InGrid(p, c) && c !in free[..d.used] ==> Get(d.picture, c) == Get(p, c))
  }

  lemma {:induction false} WalkPlaces(p: Picture, cells: seq<Cell>, layout: set<Cell>, data: seq<Byte>)
    requires Distinct(cells) && forall c :: c in cells ==> InGrid(p, c)
    ensures Placed(PlaceAll(Drawing(p, 0), cells, layout, data), p, Free(cells, layout), data)
  {
    hide DataBit, Placed;
    if cells == [] {
      NothingPlaced(p, data);
    } else {
      var n := |cells| - 1;
      assert cells == cells[..n] + [cells[n]];
      WalkPlaces(p, cells[..n], layout, data);
      FreeCells(cells[..n], layout);
      var most := PlaceAll(Drawing(p, 0), cells[..n], layout, data);
      PlaceOneMore(most, Free(cells[..n], layout), cells[n], layout, data, p);
    }
  }

  lemma {:induction false} PlacingKeepsShape(p: Picture, cells: seq<Cell>, layout: set<Cell>, data: seq<Byte>)
    ensures SameShape(PlaceAll(Drawing(p, 0), cells, layout, data).picture, p)
  {
    if cells != [] {
      PlacingKeepsShape(p, cells[..|cells| - 1], layout, data);
    }
  }

  lemma NothingPlaced(p: Picture, data: seq<Byte>)
    ensures Placed(Drawing(p, 0), p, [], data)
  {
  }

  lemma PlaceOneMore(was: Drawing, seen: seq<Cell>, cell: Cell, layout: set<Cell>, data: seq<Byte>, p: Picture)
    requires Placed(was, p, seen, data) && cell !in seen && InGrid(p, cell)
    ensures Placed(Place(was, cell, layout, data), p, seen + if cell in layout then [] else [cell], data)
  {
    hide DataBit, Put;
    var d, free := Place(was, cell, layout, data), seen + if cell in layout then [] else [cell];
    if cell !in layout && was.used < 8 * |data| {
      PutGets(was.picture, cell, DataBit(data, was.used));
      assert free[..d.used] == seen + [cell];
      assert seen[..was.used] == seen;
    } else {
      assert free[..d.used] == seen[..was.used];
    }
  }

  predicate Square(p: Picture, size: nat)
  {
    |p| == size && forall y :: 0 <= y < size ==> |p[y]| == size
  }

  /** Free module `k` of the symbol: data bit `k` while they last, and its old
      value after that, xor the mask. */
  ghost predicate Shows(symbol: Picture, start: Picture, free: seq<Cell>, data: seq<Byte>, mask: nat, k: nat)
    requires k < |free|
  {
    var c := free[k];
    && InGrid(symbol, c) && InGrid(start, c)
    && Get(symbol, c) == ((if k < 8 * |data| then DataBit(data, k) else Get(start, c)) != Invert(mask, c.x, c.y))
  }

  /** The finished symbol: every unreserved module outside the timing column is on
      the walk exactly once, and the `k`-th of them shows data bit `k` xor the
      mask. */
  lemma SymbolShowsData(size: nat, formatBits: nat, start: Picture, layout: set<Cell>, data: seq<Byte>, mask: nat)
    requires size % 2 == 1 && size >= 21 && Square(start, size)
    requires FormatCells(size) <= layout
    ensures var free := Free(Path(size), layout);
            var base := PlaceAll(Drawing(start, 0), Path(size), layout, data).picture;
            var symbol := Finished(size, formatBits, base, layout, mask);
            && Distinct(free)
            && (forall c :: c in free <==> InGrid(start, c) && c.x != 6 && c !in layout)
            && (forall k :: 0 <= k < |free| ==> Shows(symbol, start, free, data, mask, k))
  {
    hide PlaceAll, Path, FormatWrites, FormatWord, Invert, DataBit, Free, WriteAll, Cells, Shows, Placed;
    ZigzagIsComplete(size);
    FreeCells(Path(size), layout);
    WalkPlaces(start, Path(size), layout, data);
    var free, writes := Free(Path(size), layout), FormatWrites(size, FormatWord(formatBits, mask));
    var d := PlaceAll(Drawing(start, 0), Path(size), layout, data);
    FormatCellsFixed(size, FormatWord(formatBits, mask));
    forall k | 0 <= k < |free|
      ensures Shows(Finished(size, formatBits, d.picture, layout, mask), start, free, data, mask, k)
    {
      assert free[k] in free;
      ModuleShows(d, start, free, layout, writes, data, mask, k);
    }
  }

  lemma ModuleShows(d: Drawing, start: Picture, free: seq<Cell>, layout: set<Cell>, writes: seq<(Cell, bool)>,
                    data: seq<Byte>, mask: nat, k: nat)
    requires Placed(d, start, free, data) && Distinct(free)
    requires k < |free| && free[k] !in layout && Cells(writes) <= layout
    ensures Shows(WriteAll(Masked(d.picture, layout, mask), writes), start, free, data, mask, k)
  {
    hide Invert, DataBit, WriteAll, Cells, Masked;
    var c := free[k];
    WriteAllGets(Masked(d.picture, layout, mask), writes);
    WrittenCells(writes, c);
    MaskedGet(d.picture, layout, mask, c);
    if k >= d.used {
      assert c !in free[..d.used];
    }
  }

  lemma MaskedGet(p: Picture, layout: set<Cell>, mask: int, c: Cell)
    requires InGrid(p, c)
    ensures Get(Masked(p, layout, mask), c) == (Get(p, c) != (c !in layout && Invert(mask, c.x, c.y)))
  {
    hide Invert;
  }

  // ---- the format word is a BCH codeword ----

  ghost function BchQuotient(data: nat, n: nat): nat
  {
    if n == 0 then 0 else 2 * BchQuotient(data, n - 1) + Bch(data, n - 1) / 512
  }

  lemma {:induction false} BchDivides(data: nat, n: nat)
    requires data < 1024
    ensures Bch(data, n) < 1024
    ensures Pow2(n) * data == Xor(ClMul(0x537, BchQuotient(data, n)), Bch(data, n))
  {
    hide Xor, ClMul;
    if n == 0 {
      XorZero(data);
      ClMulNone(0x537);
    } else {
      BchDivides(data, n - 1);
      BchTurn(Bch(data, n - 1), BchQuotient(data, n - 1));
      Twice(Pow2(n - 1), data);
    }
  }

  lemma Twice(p: nat, d: nat)
    ensures 2 * p * d == 2 * (p * d)
  {
  }

  lemma ClMulNone(x: nat)
    ensures ClMul(x, 0) == 0
  {
  }

  lemma BchTurn(rem: nat, q: nat)
    requires rem < 1024
    ensures Xor(2 * rem, (rem / 512) * 0x537) < 1024
    ensures 2 * Xor(ClMul(0x537, q), rem)
         == Xor(ClMul(0x537, 2 * q + rem / 512), Xor(2 * rem, (rem / 512) * 0x537))
  {
    hide Xor;
    var m, t := ClMul(0x537, q), (rem / 512) * 0x537;
    Pow2Kilo();
    if rem < 512 {
      XorZero(2 * rem);
    } else {
      XorHighBit(2 * rem, 0x537, 10);
    }
    XorDouble(m, rem);
    ClMulStep(0x537, 2 * q + rem / 512);
    assert (2 * q + rem / 512) / 2 == q && (2 * q + rem / 512) % 2 == rem / 512;
    XorCommutes(2 * rem, t);
    XorAssociates(2 * m, t, Xor(t, 2 * rem));
    XorCancel(t, 2 * rem);
  }

  lemma Pow2Kilo()
    ensures Pow2(10) == 1024
  {
    Pow2Byte();
  }

  /** The fifteen format bits before the final xor, `data << 10 | rem`, are a
      multiple of the generator 0x537, and the word itself is that multiple
      xor 0x5412. */
  lemma FormatWordIsCodeword(formatBits: nat, mask: nat)
    requires formatBits < 4 && mask < 8
    ensures var data := 8 * formatBits + mask;
            Xor(FormatWord(formatBits, mask), 0x5412) == ClMul(0x537, BchQuotient(data, 10))
    ensures Shr(Xor(FormatWord(formatBits, mask), 0x5412), 10) == 8 * formatBits + mask
  {
    hide Xor, Bch, ClMul, Shr;
    var data := 8 * formatBits + mask;
    Pow2Kilo();
    BchDivides(data, 10);
    var rem, m := Bch(data, 10), ClMul(0x537, BchQuotient(data, 10));
    XorCancel(1024 * data + rem, 0x5412);
    XorCancel(m, rem);
    XorDisjoint(data, rem, 10);
    ShrRange(1024 * data + rem, 10);
  }

  // ---- reading the format back ----

  /** Where bit `i` of the format word stands, in either copy. */
  function FormatCell(size: nat, second: bool, i: nat): Cell
    requires size >= 21 && i < 15
  {
    if second then if i < 8 then Cell(size - 1 - i, 8) else Cell(8, size - 15 + i)
    else if i < 6 then Cell(8, i)
    else if i < 8 then Cell(8, i + 1)
    else if i == 8 then Cell(7, 8)
    else Cell(14 - i, 8)
  }

  /** The number the modules at bits `i` and up of one copy spell. */
  function ReadWord(p: Picture, size: nat, second: bool, i: nat): nat
    requires size >= 21 && Square(p, size) && i <= 15
    decreases 15 - i
  {
    if i == 15 then 0
    else (if Get(p, FormatCell(size, second, i)) then 1 else 0) + 2 * ReadWord(p, size, second, i + 1)
  }

  /** What a reader makes of one copy: error correction level and mask. */
  function ReadFormat(p: Picture, size: nat, second: bool): nat
    requires size >= 21 && Square(p, size)
  {
    Shr(Xor(ReadWord(p, size, second, 0), 0x5412), 10)
  }

  lemma {:induction false} LastWriteAt(writes: seq<(Cell, bool)>, k: nat)
    requires k < |writes| && forall j :: k < j < |writes| ==> writes[j].0 != writes[k].0
    ensures LastWrite(writes, writes[k].0) == Some(writes[k].1)
  {
    if k < |writes| - 1 {
      LastWriteAt(writes[..|writes| - 1], k);
    }
  }

  /** No module of either copy is written twice. */
  lemma FormatBitStands(size: nat, word: nat, second: bool, i: nat)
    requires size >= 21 && i < 15
    ensures LastWrite(FormatWrites(size, word), FormatCell(size, second, i)) == Some(FormatBit(word, i))
  {
    hide FormatBit;
    var writes := FormatWrites(size, word);
    var k := if second then 15 + i else i;
    assert |writes| == 31 && writes[k].0 == FormatCell(size, second, i) && writes[k].1 == FormatBit(word, i);
    assert forall j :: k < j < |writes| ==> writes[j].0 != writes[k].0;
    hide FormatWrites;
    LastWriteAt(writes, k);
  }

  lemma NothingAbove(v: nat, n: nat)
    requires v < Pow2(n)
    ensures Shr(v, n) == 0
  {
    hide Shr, Pow2;
    ShrRange(v, n);
    AtLeastOnce(Pow2(n), Shr(v, n));
  }

  lemma AtLeastOnce(p: nat, q: nat)
    ensures q > 0 ==> p * q >= p
  {
  }

  lemma {:induction false} WordReads(p: Picture, size: nat, second: bool, word: nat, i: nat)
    requires size >= 21 && Square(p, size) && i <= 15 && word < Pow2(15)
    requires forall j :: 0 <= j < 15 ==> Get(p, FormatCell(size, second, j)) == FormatBit(word, j)
    ensures ReadWord(p, size, second, i) == Shr(word, i)
    decreases 15 - i
  {
    hide Shr, Get, FormatCell, Pow2;
    if i == 15 {
      NothingAbove(word, 15);
    } else {
      WordReads(p, size, second, word, i + 1);
      ShrNext(word, i);
    }
  }

  lemma FormatWordWidth(formatBits: nat, mask: nat)
    requires formatBits < 4 && mask < 8
    ensures FormatWord(formatBits, mask) < Pow2(15)
  {
    hide Xor, Bch;
    Pow2Kilo();
    BchDivides(8 * formatBits + mask, 10);
    assert Pow2(15) == 32768;
    XorWidth(1024 * (8 * formatBits + mask) + Bch(8 * formatBits + mask, 10), 0x5412, 15);
  }

  /** Either copy of the format word in the finished symbol gives back the level and
      the mask it was drawn with. */
  lemma FormatReadsBack(size: nat, formatBits: nat, base: Picture, layout: set<Cell>, mask: nat, second: bool)
    requires size >= 21 && Square(base, size) && formatBits < 4 && mask < 8
    ensures var symbol := Finished(size, formatBits, base, layout, mask);
            Square(symbol, size) && ReadFormat(symbol, size, second) == 8 * formatBits + mask
  {
    hide Xor, Shr, FormatWord, FormatWrites, WriteAll, Masked, Pow2, ReadWord;
    var word, symbol := FormatWord(formatBits, mask), Finished(size, formatBits, base, layout, mask);
    var masked, writes := Masked(base, layout, mask), FormatWrites(size, word);
    MaskedIsSquare(base, size, layout, mask);
    WriteAllGets(masked, writes);
    forall j | 0 <= j < 15
      ensures Get(symbol, FormatCell(size, second, j)) == FormatBit(word, j)
    {
      FormatBitStands(size, word, second, j);
    }
    FormatWordWidth(formatBits, mask);
    WordReads(symbol, size, second, word, 0);
    FormatWordIsCodeword(formatBits, mask);
    ShrNone(word);
  }

  lemma ShrNone(v: nat)
    ensures Shr(v, 0) == v
  {
  }

  lemma MaskedIsSquare(p: Picture, size: nat, layout: set<Cell>, mask: nat)
    requires Square(p, size)
    ensures Square(Masked(p, layout, mask), size)
  {
    hide Invert;
  }
}
