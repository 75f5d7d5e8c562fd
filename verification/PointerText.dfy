/** The text of a pointer file: one manifest address a line, oldest first
    (crates/barme-store/src/pointer_store.rs, crates/barme-core/src/hash.rs). */
module PointerText {
  import opened Bits
  import opened Common
  import opened Hashing

  const LF: Byte := 10
  const CR: Byte := 13

  /** "blake3:" */
  const ALGO: Bytes := [98, 108, 97, 107, 101, 51, 58]

  // ---- one address ----

  function HexDigit(n: int): Byte
    requires 0 <= n < 16
  {
    if n < 10 then 48 + n else 87 + n
  }

  function Hex(b: Bytes): Bytes
  {
    if b == [] then [] else [HexDigit(b[0] / 16), HexDigit(b[0] % 16)] + Hex(b[1..])
  }

  /** Either case is read. */
  function HexValue(c: Byte): Option<int>
  {
    if 48 <= c <= 57 then Some(c - 48)
    else if 97 <= c <= 102 then Some(c - 87)
    else if 65 <= c <= 70 then Some(c - 55)
    else None
  }

  function Unhex(t: Bytes): Option<Bytes>
  {
    if t == [] then Some([])
    else if |t| == 1 then None
    else
      match (HexValue(t[0]), HexValue(t[1]), Unhex(t[2..]))
      case (Some(hi), Some(lo), Some(rest)) => Byteful(hi, lo, rest)
      case _ => None
  }

  function Byteful(hi: int, lo: int, rest: Bytes): Option<Bytes>
  {
    if 0 <= hi < 16 && 0 <= lo < 16 then Some([16 * hi + lo] + rest) else None
  }

  function Print(h: Digest): Bytes
  {
    ALGO + Hex(h.bytes)
  }

  function Parse(line: Bytes): Option<Digest>
  {
    if ALGO <= line then
      match Unhex(line[|ALGO|..])
      case Some(b) => if |b| == 32 then Found(Address(b)) else None
      case None => None
    else None
  }

  function Found(h: Digest): Option<Digest>
  {
    Some(h)
  }

  lemma {:induction false} HexReads(b: Bytes)
    ensures Unhex(Hex(b)) == Some(b)
    ensures forall i :: 0 <= i < |Hex(b)| ==> HexValue(Hex(b)[i]).Some?
  {
    if b != [] {
      HexReads(b[1..]);
      assert Hex(b)[2..] == Hex(b[1..]);
      assert b == [b[0]] + b[1..];
    }
  }

  lemma PrintReads(h: Digest)
    ensures Parse(Print(h)) == Some(h) && LF !in Print(h) && CR !in Print(h) && Print(h) != []
  {
    HexReads(h.bytes);
    assert Print(h)[|ALGO|..] == Hex(h.bytes);
  }

  /** `c` is the digit `n`, in either case. */
  ghost predicate IsDigit(c: Byte, n: int)
    requires 0 <= n < 16
  {
    c == "0123456789abcdef"[n] as int || c == "0123456789ABCDEF"[n] as int
  }

  /** These two digits are byte `i`. */
  ghost predicate IsByte(t: Bytes, b: Bytes, i: nat)
    requires 2 * i + 1 < |t| && i < |b|
  {
    IsDigit(t[2 * i], b[i] / 16) && IsDigit(t[2 * i + 1], b[i] % 16)
  }

  ghost predicate AreBytes(t: Bytes, b: Bytes)
  {
    |t| == 2 * |b| && forall i :: 0 <= i < |b| ==> IsByte(t, b, i)
  }

  /** The text is the address `h`: its algorithm, a colon and two digits a byte. */
  ghost predicate Spells(t: Bytes, h: Digest)
  {
    |t| > 7 && (forall i :: 0 <= i < 7 ==> t[i] == "blake3:"[i] as int) && AreBytes(t[7..], h.bytes)
  }

  lemma DigitIsRead(c: Byte, n: int)
    requires 0 <= n < 16
    ensures HexValue(c) == Some(n) <==> IsDigit(c, n)
  {
  }

  lemma ReadIsDigit(c: Byte)
    requires HexValue(c).Some?
    ensures 0 <= HexValue(c).value < 16
  {
  }

  lemma Halves(hi: int, lo: int, b: int)
    requires 0 <= hi < 16 && 0 <= lo < 16
    ensures 16 * hi + lo == b <==> hi == b / 16 && lo == b % 16
  {
  }

  lemma {:induction false} UnhexExactly(t: Bytes, b: Bytes)
    ensures Unhex(t) == Some(b) <==> AreBytes(t, b)
  {
    hide HexValue, IsDigit, IsByte;
    if |t| >= 2 && b != [] {
      UnhexExactly(t[2..], b[1..]);
      FirstByte(t, b);
      UnhexFirst(t, b);
      BytesShift(t, b);
    }
  }

  lemma FirstByte(t: Bytes, b: Bytes)
    requires |t| >= 2 && b != []
    ensures HexValue(t[0]).Some? && HexValue(t[1]).Some? && 16 * HexValue(t[0]).value + HexValue(t[1]).value == b[0]
            <==> IsByte(t, b, 0)
  {
    hide HexValue, IsDigit;
    DigitIsRead(t[0], b[0] / 16);
    DigitIsRead(t[1], b[0] % 16);
    if HexValue(t[0]).Some? && HexValue(t[1]).Some? {
      ReadIsDigit(t[0]);
      ReadIsDigit(t[1]);
      Halves(HexValue(t[0]).value, HexValue(t[1]).value, b[0]);
    }
  }

  lemma UnhexFirst(t: Bytes, b: Bytes)
    requires |t| >= 2 && b != []
    ensures Unhex(t) == Some(b) <==>
            && HexValue(t[0]).Some? && HexValue(t[1]).Some? && Unhex(t[2..]) == Some(b[1..])
            && 16 * HexValue(t[0]).value + HexValue(t[1]).value == b[0]
  {
    assert b == [b[0]] + b[1..];
  }

  lemma BytesShift(t: Bytes, b: Bytes)
    requires |t| >= 2 && b != []
    ensures AreBytes(t, b) <==> |t| == 2 * |b| && IsByte(t, b, 0) && AreBytes(t[2..], b[1..])
  {
    hide IsDigit;
    if |t| == 2 * |b| {
      forall i | 0 <= i < |b| - 1
        ensures IsByte(t[2..], b[1..], i) <==> IsByte(t, b, i + 1)
      {
        assert t[2..][2 * i] == t[2 * (i + 1)] && t[2..][2 * i + 1] == t[2 * (i + 1) + 1];
      }
      if IsByte(t, b, 0) && AreBytes(t[2..], b[1..]) {
        forall i | 0 <= i < |b|
          ensures IsByte(t, b, i)
        {
          assert i > 0 ==> IsByte(t[2..], b[1..], i - 1);
        }
      }
    }
  }

  lemma AlgoInText(line: Bytes)
    requires |line| >= 7
    ensures ALGO <= line <==> forall i :: 0 <= i < 7 ==> line[i] == "blake3:"[i] as int
  {
    assert forall i :: 0 <= i < 7 ==> ALGO[i] == "blake3:"[i] as int;
    assert ALGO <= line <==> forall i :: 0 <= i < 7 ==> line[i] == ALGO[i];
  }

  /** A line reads as an address exactly when it spells it. */
  lemma ParseExactly(line: Bytes, h: Digest)
    ensures Parse(line) == Some(h) <==> Spells(line, h)
  {
    hide Unhex, IsByte;
    if |line| >= 7 {
      UnhexExactly(line[7..], h.bytes);
      AlgoInText(line);
      assert h == Address(h.bytes);
    }
  }

  /** An address is printed in lower case. */
  lemma PrintSpells(h: Digest)
    ensures Spells(Print(h), h)
    ensures forall i :: 0 <= i < |Print(h)| ==> !('A' as int <= Print(h)[i] <= 'Z' as int)
  {
    hide Spells, Parse;
    PrintReads(h);
    ParseExactly(Print(h), h);
    forall i | 0 <= i < |Print(h)|
      ensures !('A' as int <= Print(h)[i] <= 'Z' as int)
    {
      if i >= 7 {
        HexIsLower(h.bytes, i - 7);
      }
    }
  }

  lemma {:induction false} HexIsLower(b: Bytes, i: nat)
    requires i < |Hex(b)|
    ensures !('A' as int <= Hex(b)[i] <= 'Z' as int)
  {
    if i >= 2 {
      HexIsLower(b[1..], i - 2);
    }
  }

  // ---- text ----

  predicate Tail(t: Bytes, i: nat)
  {
    i < |t| && 128 <= t[i] < 192
  }

  /** How many bytes the first character takes, 0 if it is not well-formed UTF-8:
      no overlong form, no surrogate, nothing above U+10FFFF. */
  function Width(t: Bytes): (n: nat)
    requires t != []
    ensures n <= |t|
  {
    var c := t[0];
    if 0 <= c < 128 then 1
    else if 194 <= c < 224 then if Tail(t, 1) then 2 else 0
    else if 224 <= c < 240 then
      if Tail(t, 1) && Tail(t, 2) && (c == 224 ==> t[1] >= 160) && (c == 237 ==> t[1] < 160) then 3 else 0
    else if 240 <= c < 245 then
      if Tail(t, 1) && Tail(t, 2) && Tail(t, 3) && (c == 240 ==> t[1] >= 144) && (c == 244 ==> t[1] < 144) then 4 else 0
    else 0
  }

  /** What `read_to_string` accepts. */
  predicate Utf8(t: Bytes)
    decreases |t|
  {
    t == [] || (Width(t) > 0 && Utf8(t[Width(t)..]))
  }

  /** A Unicode character: no surrogate. */
  predicate Scalar(c: int)
  {
    0 <= c < 0xD800 || 0xE000 <= c < 0x110000
  }

  /** Its UTF-8 form (section 3 of RFC 3629). */
  function Encoded(c: int): Bytes
    requires Scalar(c)
  {
    if c < 0x80 then [c]
    else if c < 0x800 then [0xC0 + c / 64, 0x80 + c % 64]
    else if c < 0x10000 then [0xE0 + c / 4096, 0x80 + c / 64 % 64, 0x80 + c % 64]
    else [0xF0 + c / 262144, 0x80 + c / 4096 % 64, 0x80 + c / 64 % 64, 0x80 + c % 64]
  }

  function Text(characters: seq<int>): Bytes
    requires AreScalars(characters)
  {
    if characters == [] then [] else Encoded(characters[0]) + Text(characters[1..])
  }

  lemma EncodedHasWidth(c: int, t: Bytes)
    requires Scalar(c) && t != [] && Encoded(c) <= t
    ensures Width(t) == |Encoded(c)| && t[..Width(t)] == Encoded(c)
  {
    assert forall i :: 0 <= i < |Encoded(c)| ==> t[i] == Encoded(c)[i];
  }

  /** Six bits at a time. */
  lemma Sextets(a: nat, b: nat, c: nat, d: nat)
    requires b < 64 && c < 64 && d < 64
    ensures (a * 64 + d) / 64 == a && (a * 64 + d) % 64 == d
    ensures var v := (a * 64 + b) * 64 + d; v / 4096 == a && v / 64 % 64 == b && v % 64 == d
    ensures var v := ((a * 64 + b) * 64 + c) * 64 + d;
            v / 262144 == a && v / 4096 % 64 == b && v / 64 % 64 == c && v % 64 == d
  {
  }

  lemma OfTwo(a: Byte, b: Byte) returns (c: int)
    requires 194 <= a < 224 && 128 <= b < 192
    ensures Scalar(c) && Encoded(c) == [a, b]
  {
    Sextets(a - 0xC0, 0, 0, b - 0x80);
    c := (a - 0xC0) as int * 64 + (b - 0x80);
  }

  lemma OfThree(a: Byte, b: Byte, d: Byte) returns (c: int)
    requires 224 <= a < 240 && 128 <= b < 192 && 128 <= d < 192 && (a == 224 ==> b >= 160) && (a == 237 ==> b < 160)
    ensures Scalar(c) && Encoded(c) == [a, b, d]
  {
    Sextets(a - 0xE0, b - 0x80, 0, d - 0x80);
    c := ((a - 0xE0) as int * 64 + (b - 0x80)) * 64 + (d - 0x80);
  }

  lemma OfFour(a: Byte, b: Byte, d: Byte, e: Byte) returns (c: int)
    requires 240 <= a < 245 && 128 <= b < 192 && 128 <= d < 192 && 128 <= e < 192
    requires (a == 240 ==> b >= 144) && (a == 244 ==> b < 144)
    ensures Scalar(c) && Encoded(c) == [a, b, d, e]
  {
    Sextets(a - 0xF0, b - 0x80, d - 0x80, e - 0x80);
    c := (((a - 0xF0) as int * 64 + (b - 0x80)) * 64 + (d - 0x80)) * 64 + (e - 0x80);
  }

  lemma WidthIsEncoded(t: Bytes) returns (c: int)
    requires t != [] && Width(t) > 0
    ensures Scalar(c) && t[..Width(t)] == Encoded(c)
  {
    hide Encoded;
    var n := Width(t);
    if n == 1 {
      c := OfOne(t[0]);
    } else if n == 2 {
      c := OfTwo(t[0], t[1]);
    } else if n == 3 {
      c := OfThree(t[0], t[1], t[2]);
    } else {
      c := OfFour(t[0], t[1], t[2], t[3]);
    }
  }

  lemma OfOne(a: Byte) returns (c: int)
    requires a < 128
    ensures Scalar(c) && Encoded(c) == [a]
  {
    c := a;
  }

  ghost predicate AreScalars(cs: seq<int>)
  {
    forall i :: 0 <= i < |cs| ==> Scalar(cs[i])
  }

  lemma {:induction false} TextIsUtf8(cs: seq<int>)
    requires AreScalars(cs)
    ensures Utf8(Text(cs))
  {
    hide Width;
    if cs != [] {
      assert AreScalars(cs[1..]);
      TextIsUtf8(cs[1..]);
      EncodedHasWidth(cs[0], Text(cs));
      assert Text(cs)[|Encoded(cs[0])|..] == Text(cs[1..]);
    }
  }

  lemma {:induction false} Utf8IsText(t: Bytes) returns (cs: seq<int>)
    requires Utf8(t)
    ensures AreScalars(cs) && Text(cs) == t
    decreases |t|
  {
    hide Width, Encoded;
    cs := [];
    if t != [] {
      var c := WidthIsEncoded(t);
      var rest := Utf8IsText(t[Width(t)..]);
      cs := [c] + rest;
      assert cs[1..] == rest;
    }
  }

  /** A text is UTF-8 exactly when it is some characters' forms, one after the other. */
  lemma Utf8Exactly(t: Bytes)
    ensures Utf8(t) <==> exists cs: seq<int> :: AreScalars(cs) && Text(cs) == t
  {
    hide Utf8, Text;
    if Utf8(t) {
      var cs := Utf8IsText(t);
    }
    forall cs: seq<int> | AreScalars(cs) && Text(cs) == t
      ensures Utf8(t)
    {
      TextIsUtf8(cs);
    }
  }

  /** A line feed stands for itself alone, so it cuts no character. */
  lemma WidthStops(a: Bytes, rest: Bytes)
    requires a != []
    ensures Width(a + [LF] + rest) == Width(a)
  {
    var t := a + [LF] + rest;
    assert forall i :: 0 <= i < |a| ==> t[i] == a[i];
    assert t[|a|] == LF;
  }

  lemma {:induction false} Utf8Splits(a: Bytes, b: Bytes)
    ensures Utf8(a + [LF] + b) <==> Utf8(a) && Utf8(b)
    decreases |a|
  {
    var t := a + [LF] + b;
    assert a == [] ==> Width(t) == 1;
    hide Width;
    if a == [] {
      assert t[1..] == b;
    } else {
      WidthStops(a, b);
      var n := Width(a);
      if n > 0 {
        Utf8Splits(a[n..], b);
        assert t[n..] == a[n..] + [LF] + b;
      }
    }
  }

  lemma {:induction false} Utf8Joins(a: Bytes, b: Bytes)
    requires Utf8(a) && Utf8(b)
    ensures Utf8(a + b)
    decreases |a|
  {
    hide Width;
    if a == [] {
      assert a + b == b;
    } else {
      var n := Width(a);
      assert Width(a + b) == n by {
        WidthStays(a, b);
      }
      Utf8Joins(a[n..], b);
      assert (a + b)[n..] == a[n..] + b;
    }
  }

  lemma WidthStays(a: Bytes, b: Bytes)
    requires a != [] && Width(a) > 0
    ensures Width(a + b) == Width(a)
  {
    assert forall i :: 0 <= i < |a| ==> (a + b)[i] == a[i];
  }

  predicate Ascii(t: Bytes)
  {
    forall i :: 0 <= i < |t| ==> 0 <= t[i] < 128
  }

  lemma {:induction false} AsciiIsUtf8(t: Bytes)
    requires Ascii(t)
    ensures Utf8(t)
    decreases |t|
  {
    if t != [] {
      AsciiIsUtf8(t[1..]);
    }
  }

  /** One byte of an ASCII text changed: it is still text exactly when the new byte
      is ASCII. */
  lemma {:induction false} OneByteIsTextExactly(t: Bytes, i: nat, c: Byte)
    requires Ascii(t) && i < |t|
    ensures Utf8(t[i := c]) <==> 0 <= c < 128
    decreases |t|
  {
    var u := t[i := c];
    if 0 <= c < 128 {
      AsciiIsUtf8(u);
    } else if i == 0 {
      assert |t| > 1 ==> u[1] == t[1];
    } else {
      assert u[0] == t[0] && Width(u) == 1 && u[1..] == t[1..][i - 1 := c];
      OneByteIsTextExactly(t[1..], i - 1, c);
    }
  }

  // ---- the file ----

  function FirstLf(t: Bytes): (i: nat)
    ensures i <= |t| && LF !in t[..i] && (i < |t| ==> t[i] == LF)
  {
    if t == [] || t[0] == LF then 0
    else
      var i := 1 + FirstLf(t[1..]);
      assert t[..i] == [t[0]] + t[1..][..i - 1];
      i
  }

  /** A carriage return before the line feed belongs to the line ending. */
  function Trimmed(line: Bytes): Bytes
  {
    if line != [] && line[|line| - 1] == CR then line[..|line| - 1] else line
  }

  function Parsed(line: Bytes): seq<Digest>
  {
    match Parse(line)
    case Some(h) => [h]
    case None => []
  }

  /** The addresses that can be read; a line that cannot is passed over. */
  function History(t: Bytes): seq<Digest>
    decreases |t|
  {
    var i := FirstLf(t);
    if i == |t| then Parsed(t) else Parsed(Trimmed(t[..i])) + History(t[i + 1..])
  }

  predicate Ended(t: Bytes)
  {
    t == [] || t[|t| - 1] == LF
  }

  lemma FirstLfOf(line: Bytes, rest: Bytes)
    requires LF !in line
    ensures FirstLf(line + [LF] + rest) == |line| && FirstLf(line) == |line|
  {
    assert (line + [LF] + rest)[|line|] == LF;
  }

  lemma HistoryOfLine(line: Bytes, rest: Bytes)
    requires LF !in line
    ensures History(line + [LF] + rest) == Parsed(Trimmed(line)) + History(rest)
  {
    var t := line + [LF] + rest;
    FirstLfOf(line, rest);
    assert t[..|line|] == line && t[|line| + 1..] == rest;
  }

  lemma NothingListed()
    ensures History([]) == []
  {
  }

  /** A text that ends its last line splits at its first. */
  lemma FirstLine(t: Bytes) returns (line: Bytes, rest: Bytes)
    requires Ended(t) && t != []
    ensures t == line + [LF] + rest && LF !in line && Ended(rest)
  {
    var i := FirstLf(t);
    assert t[|t| - 1] == LF && t[..|t|] == t;
    line, rest := t[..i], t[i + 1..];
  }

  lemma {:induction false} HistoryOfJoined(a: Bytes, b: Bytes)
    requires Ended(a)
    ensures History(a + b) == History(a) + History(b)
    decreases |a|
  {
    hide History, Ended, Parsed;
    if a == [] {
      NothingListed();
      assert a + b == b;
    } else {
      var line, rest := FirstLine(a);
      assert a + b == line + [LF] + (rest + b);
      HistoryOfLine(line, rest);
      HistoryOfLine(line, rest + b);
      HistoryOfJoined(rest, b);
      Regroup(Parsed(Trimmed(line)), History(rest), History(b));
    }
  }

  function Line(h: Digest): Bytes
  {
    Print(h) + [LF]
  }

  /** A line as the store writes it: the address in lower case and a line feed. */
  lemma LineInText(h: Digest)
    ensures |Line(h)| == 72 && Line(h)[71] == '\n' as int && Spells(Line(h)[..71], h)
    ensures forall i :: 0 <= i < 71 ==> !('A' as int <= Line(h)[i] <= 'Z' as int)
  {
    hide Spells, Print;
    PrintSpells(h);
    SpelledEnds(Print(h), h);
    assert Line(h)[..71] == Print(h);
  }

  /** Whatever ends a line but a line feed alone or a carriage return before one is
      part of it, and a line that spells no address is passed over. */
  lemma HistoryInLines(line: Bytes, h: Digest, rest: Bytes)
    requires '\n' as int !in line
    ensures var lf, crlf := ['\n' as int], ['\r' as int, '\n' as int];
            && (Spells(line, h) ==> History(line) == [h] && History(line + ['\r' as int]) == [])
            && (Spells(line, h) ==> History(line + lf + rest) == History(line + crlf + rest) == [h] + History(rest))
            && ((forall g :: !Spells(line, g)) ==> History(line) == [] && History(line + crlf + rest) == History(rest))
            && ((forall g :: !Spells(line, g)) && (line == [] || line[|line| - 1] != '\r' as int) ==>
                  History(line + lf + rest) == History(rest))
  {
    hide Parse, Spells, History;
    var lf, crlf := ['\n' as int], ['\r' as int, '\n' as int];
    ParseExactly(line, h);
    if Parse(line).Some? {
      ParseExactly(line, Parse(line).value);
      SpelledEnds(line, Parse(line).value);
    }
    assert line + crlf + rest == (line + [CR]) + [LF] + rest;
    HistoryOfLine(line, rest);
    HistoryOfLine(line + [CR], rest);
    assert Trimmed(line + [CR]) == line;
    LastLine(line);
    LastLine(line + [CR]);
    if Spells(line, h) {
      SpelledEnds(line, h);
    }
  }

  lemma LastLine(line: Bytes)
    requires LF !in line
    ensures History(line) == Parsed(line)
  {
    FirstLfOf(line, []);
  }

  lemma SpelledEnds(line: Bytes, h: Digest)
    requires Spells(line, h)
    ensures |line| == 71 && line[70] != CR && Parse(line + [CR]) == None
  {
    hide IsByte;
    assert line[7..][63] == line[70] && IsByte(line[7..], h.bytes, 31);
    assert IsByte(line[7..], h.bytes, 31) ==> line[70] != CR by {
      LastDigit(line[7..], h.bytes);
    }
    if Parse(line + [CR]).Some? {
      ParseExactly(line + [CR], Parse(line + [CR]).value);
    }
  }

  lemma LastDigit(t: Bytes, b: Bytes)
    requires |t| == 64 && |b| == 32 && IsByte(t, b, 31)
    ensures t[63] != CR
  {
  }

  lemma HistoryOfPrinted(h: Digest, rest: Bytes)
    ensures History(Line(h) + rest) == [h] + History(rest)
  {
    PrintReads(h);
    assert Line(h) + rest == Print(h) + [LF] + rest;
    HistoryOfLine(Print(h), rest);
  }

  /** Appending a line adds exactly its address when the text ended a line. */
  lemma AppendReads(t: Bytes, h: Digest)
    requires Ended(t)
    ensures History(t + Line(h)) == History(t) + [h] && Ended(t + Line(h))
  {
    HistoryOfJoined(t, Line(h));
    HistoryOfPrinted(h, []);
    assert Line(h) + [] == Line(h);
  }

  /** What reading the file gives: nothing at all unless all of it is UTF-8. */
  function Read(t: Bytes): Option<seq<Digest>>
  {
    if Utf8(t) then Some(History(t)) else None
  }

  lemma EndedSplits(a: Bytes, b: Bytes)
    requires Ended(a)
    ensures Utf8(a + b) <==> Utf8(a) && Utf8(b)
  {
    assert Utf8([]);
    hide Utf8;
    if a == [] {
      assert a + b == b;
    } else {
      var x := a[..|a| - 1];
      assert a == x + [LF] + [] && a + b == x + [LF] + b;
      Utf8Splits(x, b);
      Utf8Splits(x, []);
    }
  }

  /** A line that cannot be read takes no other version with it exactly when it is
      at least text; else it takes them all. */
  lemma CorruptLineIsSkippedExactly(before: Bytes, bad: Bytes, after: Bytes)
    requires Ended(before) && LF !in bad && Parse(Trimmed(bad)).None? && Utf8(before) && Utf8(after)
    ensures Read(before + bad + [LF] + after) == if Utf8(bad) then Some(History(before) + History(after)) else None
  {
    hide Utf8, History, Ended, Parse, Trimmed;
    var rest := bad + [LF] + after;
    assert before + bad + [LF] + after == before + rest;
    HistoryOfJoined(before, rest);
    HistoryOfLine(bad, after);
    assert Parsed(Trimmed(bad)) + History(after) == History(after);
    EndedSplits(before, rest);
    Utf8Splits(bad, after);
  }

  lemma PrintedIsText(h: Digest)
    ensures Ascii(Line(h)) && Utf8(Line(h))
  {
    HexReads(h.bytes);
    forall i | 0 <= i < |Line(h)|
      ensures 0 <= Line(h)[i] < 128
    {
      if |ALGO| <= i < |Print(h)| {
        assert Line(h)[i] == Hex(h.bytes)[i - |ALGO|];
      }
    }
    AsciiIsUtf8(Line(h));
  }

  lemma NoTextAtAll()
    ensures !Utf8([255]) && Parse(Trimmed([255])) == None
  {
  }

  lemma LineEnds(t: Bytes, h: Digest)
    ensures Ended(t + Line(h))
  {
    assert (t + Line(h))[|t + Line(h)| - 1] == LF;
  }

  /** Two versions with a byte 0xff on a line between them: both are listed, and
      neither can be had. */
  lemma OneByteTakesThemAll(h: Digest, g: Digest)
    ensures var t := Line(h) + [255] + [LF] + Line(g);
            History(t) == [h, g] && Read(t) == None && Append(t, h) == None
  {
    hide Utf8, History, Line, Parse, Trimmed;
    LineEnds([], h);
    NoTextAtAll();
    PrintedIsText(h);
    PrintedIsText(g);
    HistoryOfPrinted(h, []);
    HistoryOfPrinted(g, []);
    NothingListed();
    assert Line(h) + [] == Line(h) && Line(g) + [] == Line(g) && [] + Line(h) == Line(h);
    HistoryOfJoined(Line(h), [255] + [LF] + Line(g));
    HistoryOfLine([255], Line(g));
    assert Line(h) + [255] + [LF] + Line(g) == Line(h) + ([255] + [LF] + Line(g));
    CorruptLineIsSkippedExactly(Line(h), [255], Line(g));
  }

  /** A file as the store writes it, one byte gone bad: it reads exactly when the
      top bit is clear, so flipping that bit of any byte loses the whole history. */
  lemma DamagedByteReadsExactly(ids: seq<Digest>, i: nat, c: Byte)
    requires i < |Listing(ids)|
    ensures Read(Listing(ids)[i := c]).Some? <==> 0 <= c < 128
  {
    ListingIsAscii(ids);
    OneByteIsTextExactly(Listing(ids), i, c);
  }

  lemma {:induction false} ListingIsAscii(ids: seq<Digest>)
    ensures Ascii(Listing(ids))
  {
    hide Line;
    if ids != [] {
      ListingIsAscii(ids[..|ids| - 1]);
      PrintedIsText(ids[|ids| - 1]);
    }
  }

  /** What `set` writes back, if it can read what is there. */
  function Append(t: Bytes, h: Digest): Option<Bytes>
  {
    if Utf8(t) then Some(t + Line(h)) else None
  }

  /** A text cut off inside a line swallows what is appended to it. */
  lemma GluedLineIsLost(stump: Bytes, h: Digest)
    requires stump != [] && LF !in stump
    ensures Parse(stump + Print(h)).None?
  {
    var line := stump + Print(h);
    if ALGO <= line {
      HexReads(h.bytes);
      if |stump| >= |ALGO| {
        var at := |stump| - |ALGO| + 6;
        assert line[|ALGO|..][at] == 58;
        BadDigit(line[|ALGO|..], at);
      }
    }
  }

  lemma {:induction false} BadDigit(t: Bytes, i: nat)
    requires i < |t| && HexValue(t[i]).None?
    ensures Unhex(t).None?
  {
    if i >= 2 {
      BadDigit(t[2..], i - 2);
    }
  }

  /** `set` adds its version exactly when the file it found was text, and empty or
      with its last line ended, as every file the store writes is. */
  lemma SetAppendsExactly(t: Bytes, h: Digest)
    ensures Append(t, h).Some? && Read(Append(t, h).value) == Some(History(t) + [h]) <==> Utf8(t) && Ended(t)
  {
    hide History, Utf8, Line, Ended;
    PrintedIsText(h);
    LineAddsExactly(t, h);
    if Utf8(t) {
      Utf8Joins(t, Line(h));
    }
  }

  lemma LineAddsExactly(t: Bytes, h: Digest)
    ensures History(t + Line(h)) == History(t) + [h] <==> Ended(t)
  {
    hide History, Print, Parse;
    if Ended(t) {
      AppendReads(t, h);
    } else {
      var whole, stump := SplitStump(t);
      HistoryOfJoined(whole, stump);
      HistoryOfJoined(whole, stump + Line(h));
      assert t + Line(h) == whole + (stump + Line(h));
      assert stump + Line(h) == (stump + Print(h)) + [LF] + [];
      PrintReads(h);
      HistoryOfLine(stump + Print(h), []);
      GluedLineIsLost(stump, h);
      NothingListed();
      assert (stump + Print(h))[|stump + Print(h)| - 1] == Print(h)[|Print(h)| - 1];
      assert |History(t + Line(h))| == |History(whole)|;
    }
  }

  lemma {:induction false} SplitStump(t: Bytes) returns (whole: Bytes, stump: Bytes)
    requires !Ended(t)
    ensures t == whole + stump && Ended(whole) && stump != [] && LF !in stump
    decreases |t|
  {
    var i := FirstLf(t);
    if i == |t| {
      whole, stump := [], t;
    } else {
      assert t[i + 1..] != [] && t[i + 1..][|t| - i - 2] == t[|t| - 1];
      whole, stump := SplitStump(t[i + 1..]);
      assert t == t[..i + 1] + t[i + 1..];
      whole := t[..i + 1] + whole;
    }
  }

  /** The text that lists these versions. */
  function Listing(ids: seq<Digest>): Bytes
  {
    if ids == [] then [] else Listing(ids[..|ids| - 1]) + Line(ids[|ids| - 1])
  }

  lemma ListingReads(ids: seq<Digest>)
    ensures Read(Listing(ids)) == Some(ids) && Ended(Listing(ids))
  {
    hide Utf8, History, Listing, Ended;
    ListingIsAscii(ids);
    AsciiIsUtf8(Listing(ids));
    ListingLists(ids);
  }

  lemma {:induction false} ListingLists(ids: seq<Digest>)
    ensures History(Listing(ids)) == ids && Ended(Listing(ids))
  {
    hide History, Line;
    NothingListed();
    if ids != [] {
      ListingLists(ids[..|ids| - 1]);
      AppendReads(Listing(ids[..|ids| - 1]), ids[|ids| - 1]);
    }
  }
}
