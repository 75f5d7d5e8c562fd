/** The byte-mode segment of a QR symbol: header, payload, terminator and
    padding packed into data codewords (encodeByteSegment, web/src/lib/qr.ts),
    and the reader that undoes it. */
module Segment {
  import opened Bits
  import opened Common

  type Bit01 = b: int | 0 <= b < 2

  /** The low `len` bits of `v`, most significant first. */
  function BitsOf(v: nat, len: nat): (b: seq<Bit01>)
    ensures |b| == len
  {
    if len == 0 then [] else [Bit(v, len - 1)] + BitsOf(v, len - 1)
  }

  function Value(bits: seq<Bit01>): (v: nat)
    ensures v < Pow2(|bits|)
  {
    if bits == [] then 0 else 2 * Value(bits[..|bits| - 1]) + bits[|bits| - 1]
  }

  /** A symbol's byte-mode parameters: the width of the character count and the
      number of data codewords. */
  datatype Symbol = Symbol(version: nat, capacity: nat) {
    function CountBits(): nat
    {
      if version < 10 then 8 else 16
    }

    /** The data codewords of every version below 10 number under 256, and of
        every version under 65536. */
    ghost predicate Tabulated()
    {
      capacity < Pow2(CountBits())
    }

    predicate Holds(data: seq<Byte>)
    {
      4 + CountBits() + 8 * |data| <= 8 * capacity
    }
  }

  /** Bytes as bits, most significant first. */
  function Unpack(data: seq<Byte>): (b: seq<Bit01>)
    ensures |b| == 8 * |data|
  {
    if data == [] then [] else Unpack(data[..|data| - 1]) + BitsOf(data[|data| - 1], 8)
  }

  function PadByte(i: nat): Byte
  {
    if i % 2 == 0 then 0xec else 0x11
  }

  function PadBits(n: nat): (b: seq<Bit01>)
    ensures |b| == 8 * n
  {
    if n == 0 then [] else PadBits(n - 1) + BitsOf(PadByte(n - 1), 8)
  }

  /** Mode 0100, character count and payload. */
  function Header(s: Symbol, data: seq<Byte>): (b: seq<Bit01>)
    ensures |b| == 4 + s.CountBits() + 8 * |data|
  {
    BitsOf(4, 4) + BitsOf(|data|, s.CountBits()) + Unpack(data)
  }

  /** How many pad bytes follow; the header and terminator fill whole bytes. */
  function Pads(s: Symbol, data: seq<Byte>): (n: nat)
    requires s.Holds(data)
    ensures |Header(s, data)| + 4 + 8 * n == 8 * s.capacity
  {
    s.capacity - |data| - if s.version < 10 then 2 else 3
  }

  /** The whole bit stream: header, a four-bit terminator that ends on a byte
      boundary, and alternating pad bytes. */
  function Stream(s: Symbol, data: seq<Byte>): (b: seq<Bit01>)
    requires s.Holds(data)
    ensures |b| == 8 * s.capacity
  {
    Header(s, data) + BitsOf(0, 4) + PadBits(Pads(s, data))
  }

  // ---- the encoder ----

  lemma OneMoreBit(bits: seq<Bit01>, b: Bit01, room: nat)
    requires |bits| + 1 + room == 8
    ensures Value(bits) * Pow2(room + 1) + b * Pow2(room) == Value(bits + [b]) * Pow2(room) < 256
  {
    assert (bits + [b])[..|bits|] == bits;
    Pow2Adds(|bits| + 1, room);
    Pow2Byte();
    hide Value, Pow2;
    Weighted(Value(bits), b, Pow2(room), Value(bits + [b]), Pow2(|bits| + 1));
  }

  lemma Weighted(v: nat, b: nat, p: nat, w: nat, top: nat)
    requires w == 2 * v + b < top && top * p == 256
    ensures v * (2 * p) + b * p == w * p < 256
  {
    assert v * (2 * p) + b * p == (2 * v + b) * p;
    assert p > 0;
    assert w * p <= (top - 1) * p;
  }

  lemma {:induction false} Pow2Adds(m: nat, n: nat)
    ensures Pow2(m) * Pow2(n) == Pow2(m + n)
  {
    if m != 0 {
      Pow2Adds(m - 1, n);
    }
  }

  lemma {:induction false} UnpackValues(words: seq<Byte>, bb: seq<Bit01>)
    requires |bb| == 8 * |words|
    requires forall m :: 0 <= m < |words| ==> words[m] == Value(bb[8 * m..8 * m + 8])
    ensures Unpack(words) == bb
  {
    hide Value, BitsOf;
    if words != [] {
      var n := |words| - 1;
      var last := bb[8 * n..8 * n + 8];
      forall m | 0 <= m < n
        ensures words[..n][m] == Value(bb[..8 * n][8 * m..8 * m + 8])
      {
        assert bb[..8 * n][8 * m..8 * m + 8] == bb[8 * m..8 * m + 8];
      }
      UnpackValues(words[..n], bb[..8 * n]);
      BitsOfValue(last);
      assert BitsOf(words[n], 8) == last;
      assert bb == bb[..8 * n] + last;
    }
  }

  lemma EmptyValue()
    ensures Value([]) == 0 && Pow2(0) == 1 && Pow2(8) == 256
  {
    Pow2Byte();
  }

  method AppendBits(bb: seq<Bit01>, val: nat, len: nat) returns (out: seq<Bit01>)
    ensures out == bb + BitsOf(val, len)
  {
    out := bb;
    var i: int := len - 1;
    while i >= 0
      invariant -1 <= i < len
      invariant out + BitsOf(val, i + 1) == bb + BitsOf(val, len)
    {
      out := out + [Bit(val, i)];
      i := i - 1;
    }
  }

  lemma PadToggle(i: nat)
    ensures Xor(PadByte(i), Xor(0xec, 0x11)) == PadByte(i + 1)
  {
    hide Xor;
    XorCancel(0xec, 0x11);
    XorCommutes(0x11, Xor(0xec, 0x11));
  }

  /** Packing eight bits to a codeword. Each bit is clear when it is or-ed in, so
      the or is written as a sum. */
  method Pack(bb: seq<Bit01>) returns (codewords: seq<Byte>)
    requires |bb| % 8 == 0
    ensures |codewords| == |bb| / 8 && Unpack(codewords) == bb
  {
    hide BitsOf, Value, Unpack, Pow2;
    var words := new Byte[|bb| / 8](_ => 0);
    EmptyValue();
    var i := 0;
    while i < |bb|
      invariant 0 <= i <= |bb|
      invariant forall m :: 0 <= m < i / 8 ==> words[m] == Value(bb[8 * m..8 * m + 8])
      invariant i < |bb| ==> words[i / 8] == Value(bb[8 * (i / 8)..i]) * Pow2(8 - i % 8)
      invariant forall m :: i / 8 < m < words.Length ==> words[m] == 0
    {
      var seen := bb[8 * (i / 8)..i];
      OneMoreBit(seen, bb[i], 7 - i % 8);
      assert seen + [bb[i]] == bb[8 * (i / 8)..i + 1];
      words[i / 8] := words[i / 8] + bb[i] * Pow2(7 - i % 8);
      i := i + 1;
    }
    codewords := words[..];
    UnpackValues(codewords, bb);
  }

  lemma UnpackNext(data: seq<Byte>, n: nat)
    requires n < |data|
    ensures Unpack(data[..n + 1]) == Unpack(data[..n]) + BitsOf(data[n], 8)
    ensures Unpack(data[..0]) == []
  {
    assert data[..n + 1][..n] == data[..n];
  }

  lemma EmptyBits()
    ensures BitsOf(0, 0) == [] && Unpack([]) == []
  {
  }

  method AppendHeader(s: Symbol, data: seq<Byte>) returns (bb: seq<Bit01>)
    ensures bb == Header(s, data)
  {
    hide BitsOf, Value, Pow2, Unpack;
    bb := AppendBits([], 0x4, 4); // byte mode
    bb := AppendBits(bb, |data|, s.CountBits());
    EmptyBits();
    var n := 0;
    while n < |data|
      invariant 0 <= n <= |data|
      invariant bb == BitsOf(4, 4) + BitsOf(|data|, s.CountBits()) + Unpack(data[..n])
    {
      UnpackNext(data, n);
      bb := AppendBits(bb, data[n], 8);
      n := n + 1;
    }
    assert data[..n] == data;
  }

  method PadToCapacity(bits: seq<Bit01>, dataCapacityBits: nat) returns (bb: seq<Bit01>)
    requires |bits| % 8 == 0 && dataCapacityBits % 8 == 0 && |bits| <= dataCapacityBits
    ensures bb == bits + PadBits((dataCapacityBits - |bits|) / 8)
  {
    hide BitsOf, Bit, Xor;
    bb := bits;
    var padByte := 0xec;
    ghost var pads := 0;
    while |bb| < dataCapacityBits
      invariant padByte == PadByte(pads)
      invariant bb == bits + PadBits(pads) && |bb| <= dataCapacityBits
    {
      bb := AppendBits(bb, padByte, 8);
      PadToggle(pads);
      padByte := Xor(padByte, Xor(0xec, 0x11));
      pads := pads + 1;
    }
  }

  /** `encodeByteSegment`. */
  method EncodeByteSegment(s: Symbol, data: seq<Byte>) returns (codewords: seq<Byte>)
    requires s.Holds(data)
    ensures |codewords| == s.capacity && Unpack(codewords) == Stream(s, data)
  {
    hide BitsOf, Unpack, Header, Pow2, PadBits;
    var bb := AppendHeader(s, data);
    var dataCapacityBits := s.capacity * 8;
    assert |bb| + 4 + 8 * Pads(s, data) == dataCapacityBits;
    var terminator := if 4 < dataCapacityBits - |bb| then 4 else dataCapacityBits - |bb|;
    bb := AppendBits(bb, 0, terminator);
    bb := AppendBits(bb, 0, (8 - |bb| % 8) % 8);
    EmptyBits();
    assert bb == Header(s, data) + BitsOf(0, 4);
    bb := PadToCapacity(bb, dataCapacityBits);
    codewords := Pack(bb);
  }

  // ---- bits and values ----

  lemma {:induction false} BitsOfSnoc(v: nat, len: nat)
    requires len >= 1
    ensures BitsOf(v, len) == BitsOf(v / 2, len - 1) + [v % 2]
  {
    if len > 1 {
      BitsOfSnoc(v, len - 1);
    }
  }

  lemma {:induction false} BitsOfValue(bits: seq<Bit01>)
    ensures BitsOf(Value(bits), |bits|) == bits
  {
    if bits != [] {
      BitsOfValue(bits[..|bits| - 1]);
      BitsOfSnoc(Value(bits), |bits|);
    }
  }

  lemma {:induction false} ValueOfBits(v: nat, len: nat)
    ensures Value(BitsOf(v, len)) == v % Pow2(len)
    decreases len
  {
    if len > 0 {
      ValueOfBits(v / 2, len - 1);
      BitsOfSnoc(v, len);
      assert BitsOf(v, len)[..len - 1] == BitsOf(v / 2, len - 1);
      hide Value, BitsOf;
      ModDouble(v, Pow2(len - 1));
    }
  }

  lemma ModDouble(v: nat, p: nat)
    requires p >= 1
    ensures 2 * (v / 2 % p) + v % 2 == v % (2 * p)
  {
    var q, r := v / 2 / p, 2 * (v / 2 % p) + v % 2;
    assert v == q * (2 * p) + r && 0 <= r < 2 * p;
    ModIsRemainder(v, 2 * p, q, r);
  }

  lemma ModIsRemainder(v: nat, m: nat, q: nat, r: nat)
    requires m >= 1 && v == q * m + r && r < m
    ensures v % m == r
  {
    var k := v / m;
    assert v == k * m + v % m;
    if k < q {
      Times(k + 1, q, m);
    } else if k > q {
      Times(q + 1, k, m);
    }
  }

  lemma Times(a: nat, b: nat, m: nat)
    requires a <= b
    ensures a * m <= b * m
  {
  }

  // ---- the reader ----

  /** What a reader recovers from the codewords of a byte-mode symbol. */
  function Decode(s: Symbol, codewords: seq<Byte>): Option<seq<Byte>>
  {
    var bits, head := Unpack(codewords), 4 + s.CountBits();
    if |bits| < head || Value(bits[..4]) != 4 then None
    else
      var n := Value(bits[4..head]);
      if |bits| < head + 8 * n then None else Some(Octets(bits[head..head + 8 * n]))
  }

  function Octets(bits: seq<Bit01>): (r: seq<Byte>)
    requires |bits| % 8 == 0
  {
    if bits == [] then []
    else
      Pow2Byte();
      Octets(bits[..|bits| - 8]) + [Value(bits[|bits| - 8..])]
  }

  lemma {:induction false} OctetsOfUnpack(data: seq<Byte>)
    ensures Octets(Unpack(data)) == data
  {
    hide Value, BitsOf;
    if data != [] {
      var n := |data| - 1;
      OctetsOfUnpack(data[..n]);
      Pow2Byte();
      ValueOfBits(data[n], 8);
      assert Unpack(data)[..8 * n] == Unpack(data[..n]);
      assert Unpack(data)[8 * n..] == BitsOf(data[n], 8);
    }
  }

  lemma Pow2Nibble()
    ensures Pow2(4) == 16
  {
    assert Pow2(2) == 4;
  }

  /** What is read back from any codewords that carry the stream: as many bytes
      as the count field can express. */
  lemma SegmentReads(s: Symbol, data: seq<Byte>, codewords: seq<Byte>)
    requires s.Holds(data) && Unpack(codewords) == Stream(s, data)
    ensures |data| % Pow2(s.CountBits()) <= |data|
    ensures Decode(s, codewords) == Some(data[..|data| % Pow2(s.CountBits())])
  {
    hide Unpack, Octets, Value, Pow2, BitsOf, PadBits;
    var bits, cc := Stream(s, data), s.CountBits();
    var head, n := 4 + cc, |data| % Pow2(cc);
    assert bits[..4] == BitsOf(4, 4);
    assert bits[4..head] == BitsOf(|data|, cc);
    UnpackPrefix(data, n);
    assert bits[head..head + 8 * n] == Unpack(data)[..8 * n];
    Pow2Nibble();
    ValueOfBits(4, 4);
    ValueOfBits(|data|, cc);
    OctetsOfUnpack(data[..n]);
  }

  lemma {:induction false} UnpackPrefix(data: seq<Byte>, n: nat)
    requires n <= |data|
    ensures Unpack(data)[..8 * n] == Unpack(data[..n])
    decreases |data|
  {
    if n == |data| {
      assert data[..n] == data;
    } else {
      var m := |data| - 1;
      UnpackPrefix(data[..m], n);
      assert data[..m][..n] == data[..n];
    }
  }

  /** Exactly the inputs whose length fits the count field come back whole; for
      the tabulated symbols that is every input they hold. */
  lemma SegmentRoundTrip(s: Symbol, data: seq<Byte>, codewords: seq<Byte>)
    requires s.Holds(data) && Unpack(codewords) == Stream(s, data)
    ensures Decode(s, codewords) == Some(data) <==> |data| < Pow2(s.CountBits())
    ensures s.Tabulated() ==> Decode(s, codewords) == Some(data)
  {
    hide Unpack, Pow2, Stream, Decode;
    SegmentReads(s, data, codewords);
    var n := |data| % Pow2(s.CountBits());
    assert |data[..n]| == n;
    assert data[..|data|] == data;
    if |data| < Pow2(s.CountBits()) {
      ModIsRemainder(|data|, Pow2(s.CountBits()), 0, |data|);
    }
  }

  // ---- the codewords themselves ----

  lemma {:induction false} UnpackConcat(a: seq<Byte>, b: seq<Byte>)
    ensures Unpack(a + b) == Unpack(a) + Unpack(b)
  {
    hide BitsOf;
    if b == [] {
      assert a + b == a;
    } else {
      var n := |b| - 1;
      UnpackConcat(a, b[..n]);
      assert (a + b)[..|a + b| - 1] == a + b[..n];
    }
  }

  lemma UnpackOne(v: Byte, rest: seq<Byte>)
    ensures Unpack([v] + rest) == BitsOf(v, 8) + Unpack(rest)
  {
    hide BitsOf;
    UnpackConcat([v], rest);
    assert [v][..0] == [] && Unpack([]) == [];
  }

  lemma {:induction false} BitsOfSplit(v: nat, m: nat, n: nat)
    ensures BitsOf(v, m + n) == BitsOf(Shr(v, n), m) + BitsOf(v, n)
    decreases n
  {
    if n > 0 {
      BitsOfSplit(v / 2, m, n - 1);
      BitsOfSnoc(v, m + n);
      BitsOfSnoc(v, n);
      hide BitsOf;
    }
  }

  /** Only the low bits matter. */
  lemma LowBits(v: nat, len: nat, p: nat)
    requires p == Pow2(len)
    ensures BitsOf(v, len) == BitsOf(v % p, len)
  {
    hide BitsOf, Value;
    ValueOfBits(v, len);
    BitsOfValue(BitsOf(v, len));
  }

  lemma Nibbles(v: nat)
    ensures BitsOf(v, 8) == BitsOf(v / 16, 4) + BitsOf(v % 16, 4)
  {
    hide BitsOf, Pow2;
    BitsOfSplit(v, 4, 4);
    assert Shr(v, 4) == v / 16;
    Pow2Nibble();
    LowBits(v, 4, 16);
  }

  /** Bytes shifted by half a byte, `a` coming in before them. */
  function Shifted(a: nat, t: seq<Byte>): (r: seq<Byte>)
    requires a < 16
    ensures |r| == |t| + 1
    decreases |t|
  {
    if t == [] then [16 * a] else [16 * a + t[0] / 16] + Shifted(t[0] % 16, t[1..])
  }

  lemma {:induction false} ShiftedBits(a: nat, t: seq<Byte>)
    requires a < 16
    ensures Unpack(Shifted(a, t)) == BitsOf(a, 4) + Unpack(t) + BitsOf(0, 4)
    decreases |t|
  {
    hide BitsOf, Unpack;
    if t == [] {
      UnpackOne(16 * a, []);
      EmptyBits();
      Nibbles(16 * a);
      assert [16 * a] + [] == [16 * a];
    } else {
      var x := 16 * a + t[0] / 16;
      Nibbles(x);
      Nibbles(t[0]);
      ShiftedBits(t[0] % 16, t[1..]);
      UnpackOne(x, Shifted(t[0] % 16, t[1..]));
      UnpackOne(t[0], t[1..]);
      assert t == [t[0]] + t[1..];
    }
  }

  lemma {:induction false} ShiftedAt(a: nat, t: seq<Byte>, i: nat)
    requires a < 16 && i <= |t|
    ensures Shifted(a, t)[i]
         == 16 * (if i == 0 then a else t[i - 1] % 16) + (if i < |t| then t[i] / 16 else 0)
    decreases |t|
  {
    if t != [] && i > 0 {
      ShiftedAt(t[0] % 16, t[1..], i - 1);
    }
  }

  function PadSeq(n: nat): (r: seq<Byte>)
    ensures |r| == n && forall i :: 0 <= i < n ==> r[i] == if i % 2 == 0 then 236 else 17
  {
    seq(n, i requires 0 <= i < n => if i % 2 == 0 then 236 else 17)
  }

  lemma {:induction false} PadSeqBits(n: nat)
    ensures Unpack(PadSeq(n)) == PadBits(n)
  {
    hide BitsOf;
    if n > 0 {
      PadSeqBits(n - 1);
      assert PadSeq(n)[..n - 1] == PadSeq(n - 1);
    }
  }

  /** The count and the payload, a byte each and the count of large versions two. */
  function Counted(s: Symbol, data: seq<Byte>): seq<Byte>
  {
    (if s.version < 10 then [|data| % 256] else [|data| / 256 % 256, |data| % 256]) + data
  }

  lemma CountedBits(s: Symbol, data: seq<Byte>)
    ensures Unpack(Counted(s, data)) == BitsOf(|data|, s.CountBits()) + Unpack(data)
  {
    hide BitsOf, Unpack;
    if s.version < 10 {
      ByteCount(|data|);
      UnpackOne(|data| % 256, data);
    } else {
      TwoByteCount(|data|);
      TwoFirst(|data| / 256 % 256, |data| % 256, data);
    }
  }

  lemma TwoFirst(high: Byte, low: Byte, data: seq<Byte>)
    ensures Unpack([high, low] + data) == BitsOf(high, 8) + BitsOf(low, 8) + Unpack(data)
  {
    hide BitsOf, Unpack;
    UnpackOne(low, data);
    UnpackOne(high, [low] + data);
    assert [high, low] + data == [high] + ([low] + data);
  }

  lemma ByteCount(n: nat)
    ensures BitsOf(n, 8) == BitsOf(n % 256, 8)
  {
    hide BitsOf, Pow2;
    Pow2Byte();
    LowBits(n, 8, 256);
  }

  lemma TwoByteCount(n: nat)
    ensures BitsOf(n, 16) == BitsOf(n / 256 % 256, 8) + BitsOf(n % 256, 8)
  {
    hide BitsOf, Shr;
    BitsOfSplit(n, 8, 8);
    ShrByte(n);
    ByteCount(n / 256);
    ByteCount(n);
  }

  lemma ShrByte(n: nat)
    ensures Shr(n, 8) == n / 256
  {
    hide Shr, Pow2;
    Pow2Byte();
    ShrRange(n, 8);
  }

  lemma SameBits(a: seq<Byte>, b: seq<Byte>)
    requires Unpack(a) == Unpack(b)
    ensures a == b
  {
    OctetsOfUnpack(a);
    OctetsOfUnpack(b);
  }

  /** The codewords, byte for byte: the mode 4 in the first half byte, the count and
      the payload shifted by half a byte, the terminator in the last half byte, and 236
      and 17 by turns as far as the symbol goes. */
  lemma CodewordsInBytes(s: Symbol, data: seq<Byte>, codewords: seq<Byte>)
    requires s.Holds(data) && Unpack(codewords) == Stream(s, data)
    ensures |Counted(s, data)| == |data| + if s.version < 10 then 1 else 2
    ensures |Counted(s, data)| < s.capacity == |codewords|
    ensures InBytes(Counted(s, data), codewords)
  {
    hide BitsOf, Unpack, Shifted, PadSeq, Stream, Counted, Pads, Pow2, InBytes;
    CountedLength(s, data);
    CodewordsAreShifted(s, data, codewords);
    ShiftedEach(4, Counted(s, data));
    PadsFill(s, data);
    LaidOut(Counted(s, data), Shifted(4, Counted(s, data)), PadSeq(Pads(s, data)), codewords);
  }

  /** The mode 4, `t` shifted by half a byte, and the pads. */
  ghost predicate InBytes(t: seq<Byte>, codewords: seq<Byte>)
  {
    && 0 < |t| < |codewords|
    && codewords[0] == 64 + t[0] / 16 && codewords[|t|] == 16 * (t[|t| - 1] % 16)
    && (forall i {:trigger codewords[i]} :: 0 < i < |t| ==> codewords[i] == 16 * (t[i - 1] % 16) + t[i] / 16)
    && (forall i :: |t| < i < |codewords| ==> codewords[i] == if (i - |t|) % 2 == 1 then 236 else 17)
  }

  lemma PadsFill(s: Symbol, data: seq<Byte>)
    requires s.Holds(data)
    ensures |data| + (if s.version < 10 then 1 else 2) + 1 + Pads(s, data) == s.capacity
  {
  }

  lemma LaidOut(t: seq<Byte>, w: seq<Byte>, pads: seq<Byte>, codewords: seq<Byte>)
    requires 0 < |t| && |w| == |t| + 1 && codewords == w + pads
    requires w[0] == 64 + t[0] / 16 && w[|t|] == 16 * (t[|t| - 1] % 16)
    requires forall i {:trigger w[i]} :: 0 < i < |t| ==> w[i] == 16 * (t[i - 1] % 16) + t[i] / 16
    requires forall i :: 0 <= i < |pads| ==> pads[i] == if i % 2 == 0 then 236 else 17
    ensures InBytes(t, codewords)
  {
    forall i | |t| < i < |codewords|
      ensures codewords[i] == if (i - |t|) % 2 == 1 then 236 else 17
    {
      assert codewords[i] == pads[i - |t| - 1];
    }
  }

  lemma CountedLength(s: Symbol, data: seq<Byte>)
    ensures |Counted(s, data)| == |data| + if s.version < 10 then 1 else 2
  {
  }

  lemma ShiftedEach(a: nat, t: seq<Byte>)
    requires a < 16 && |t| > 0
    ensures Shifted(a, t)[0] == 16 * a + t[0] / 16
    ensures forall i {:trigger Shifted(a, t)[i]} :: 0 < i < |t| ==>
              Shifted(a, t)[i] == 16 * (t[i - 1] % 16) + t[i] / 16
    ensures Shifted(a, t)[|t|] == 16 * (t[|t| - 1] % 16)
  {
    hide Shifted;
    forall i | 0 < i < |t|
      ensures Shifted(a, t)[i] == 16 * (t[i - 1] % 16) + t[i] / 16
    {
      ShiftedAt(a, t, i);
    }
    ShiftedAt(a, t, 0);
    ShiftedAt(a, t, |t|);
  }

  lemma CodewordsAreShifted(s: Symbol, data: seq<Byte>, codewords: seq<Byte>)
    requires s.Holds(data) && Unpack(codewords) == Stream(s, data)
    ensures codewords == Shifted(4, Counted(s, data)) + PadSeq(Pads(s, data))
  {
    hide BitsOf, Unpack, PadBits, Octets, Shifted, PadSeq, Counted, Pads;
    var t := Counted(s, data);
    CountedBits(s, data);
    ShiftedBits(4, t);
    PadSeqBits(Pads(s, data));
    UnpackConcat(Shifted(4, t), PadSeq(Pads(s, data)));
    JoinBits(BitsOf(4, 4), BitsOf(|data|, s.CountBits()), Unpack(data), BitsOf(0, 4), PadBits(Pads(s, data)));
    SameBits(Shifted(4, t) + PadSeq(Pads(s, data)), codewords);
  }

  lemma JoinBits(a: seq<Bit01>, b: seq<Bit01>, c: seq<Bit01>, d: seq<Bit01>, e: seq<Bit01>)
    ensures a + (b + c) + d + e == a + b + c + d + e
  {
  }
}
