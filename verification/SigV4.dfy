/** The canonical query string of a signed request, on bytes
    (crates/barme-auth/src/sigv4.rs). */
module SigV4 {
  import opened Bits
  import opened Common
  import opened Sorting

  const AMP: Byte := 0x26
  const EQUALS: Byte := 0x3d
  const PERCENT: Byte := 0x25
  const PLUS: Byte := 0x2b
  const SLASH: Byte := 0x2f

  /** Decoded text made valid UTF-8. Identity on what is valid already. */
  type Lossy = Bytes -> Bytes

  // ---- percent codec ----

  predicate Unreserved(b: Byte)
  {
    || 0x41 <= b <= 0x5a || 0x61 <= b <= 0x7a || 0x30 <= b <= 0x39
    || b == 0x2d || b == 0x5f || b == 0x2e || b == 0x7e
  }

  function HexDigit(n: nat): Byte
    requires n < 16
  {
    if n < 10 then 0x30 + n else 0x41 + n - 10
  }

  function HexValue(b: Byte): (v: Option<nat>)
    ensures v.Some? ==> v.value < 16
  {
    if 0x30 <= b <= 0x39 then Some(b - 0x30)
    else if 0x41 <= b <= 0x46 then Some(b - 0x41 + 10)
    else if 0x61 <= b <= 0x66 then Some(b - 0x61 + 10)
    else None
  }

  /** Two bytes read as a base-16 number. A leading plus sign is accepted. */
  function Radix16(a: Byte, b: Byte): Option<Byte>
  {
    if HexValue(b).None? then None
    else if a == PLUS then Some(HexValue(b).value)
    else if HexValue(a).None? then None
    else Some(16 * HexValue(a).value + HexValue(b).value)
  }

  function EncodeByte(b: Byte, encodeSlash: bool): Bytes
  {
    if Unreserved(b) || (b == SLASH && !encodeSlash) then [b]
    else [PERCENT, HexDigit(b / 16), HexDigit(b % 16)]
  }

  function Encode(s: Bytes, encodeSlash: bool): Bytes
  {
    if s == [] then [] else EncodeByte(s[0], encodeSlash) + Encode(s[1..], encodeSlash)
  }

  /** A byte inside a multi-byte character: text cannot be cut before it. */
  predicate Continuation(b: Byte)
  {
    0x80 <= b < 0xc0
  }

  /** `None` when taking the two bytes after a percent sign cuts a character in
      half, which aborts the request. */
  function Decode(s: Bytes): Option<Bytes>
  {
    if s == [] then Some([])
    else if s[0] == PERCENT && |s| > 2 then
      if |s| > 3 && Continuation(s[3]) then None
      else
        match Radix16(s[1], s[2])
        case Some(v) => Prepend(v, Decode(s[3..]))
        case None => Prepend(PERCENT, Decode(s[1..]))
    else Prepend(s[0], Decode(s[1..]))
  }

  function Prepend(b: Byte, rest: Option<Bytes>): Option<Bytes>
  {
    if rest.None? then None else Some([b] + rest.value)
  }

  method UriEncode(s: Bytes, encodeSlash: bool) returns (out: Bytes)
    ensures out == Encode(s, encodeSlash)
  {
    hide EncodeByte;
    out := [];
    var i := 0;
    assert s[0..] == s;
    while i < |s|
      invariant 0 <= i <= |s|
      invariant out + Encode(s[i..], encodeSlash) == Encode(s, encodeSlash)
    {
      assert s[i..][1..] == s[i + 1..];
      Regroup(out, EncodeByte(s[i], encodeSlash), Encode(s[i + 1..], encodeSlash));
      out := out + EncodeByte(s[i], encodeSlash);
      i := i + 1;
    }
  }

  function Append(out: Bytes, rest: Option<Bytes>): Option<Bytes>
  {
    if rest.None? then None else Some(out + rest.value)
  }

  lemma AppendPrepend(out: Bytes, b: Byte, rest: Option<Bytes>)
    ensures Append(out, Prepend(b, rest)) == Append(out + [b], rest)
  {
    if rest.Some? {
      Regroup(out, [b], rest.value);
    }
  }

  method PercentDecode(s: Bytes) returns (decoded: Option<Bytes>)
    ensures decoded == Decode(s)
  {
    hide Append, Prepend, Radix16;
    var out: Bytes := [];
    var i := 0;
    assert s[0..] == s;
    AppendNothing(Decode(s));
    while i < |s|
      invariant 0 <= i <= |s|
      invariant Append(out, Decode(s[i..])) == Decode(s)
    {
      assert s[i..][1..] == s[i + 1..];
      if s[i] == PERCENT && i + 2 < |s| {
        if i + 3 < |s| && Continuation(s[i + 3]) {
          AppendNone(out);
          return None;
        }
        assert s[i..][3..] == s[i + 3..];
        match Radix16(s[i + 1], s[i + 2]) {
          case Some(v) =>
            AppendPrepend(out, v, Decode(s[i + 3..]));
            out := out + [v];
            i := i + 3;
          case None =>
            AppendPrepend(out, s[i], Decode(s[i + 1..]));
            out := out + [s[i]];
            i := i + 1;
        }
      } else {
        AppendPrepend(out, s[i], Decode(s[i + 1..]));
        out := out + [s[i]];
        i := i + 1;
      }
    }
    assert s[i..] == [];
    AppendEmpty(out);
    decoded := Some(out);
  }

  lemma AppendNothing(rest: Option<Bytes>)
    ensures Append([], rest) == rest
  {
    if rest.Some? {
      assert [] + rest.value == rest.value;
    }
  }

  lemma AppendNone(out: Bytes)
    ensures Append(out, None) == None
  {
  }

  lemma AppendEmpty(out: Bytes)
    ensures Append(out, Some([])) == Some(out)
  {
    assert out + [] == out;
  }

  // ---- round trip ----

  ghost predicate Ascii(s: Bytes)
  {
    forall i :: 0 <= i < |s| ==> s[i] < 0x80
  }

  lemma EscapeReads(b: Byte)
    ensures Radix16(HexDigit(b / 16), HexDigit(b % 16)) == Some(b)
  {
  }

  lemma DecodeEncodedByte(b: Byte, encodeSlash: bool, rest: Bytes)
    requires Ascii(rest)
    ensures Decode(EncodeByte(b, encodeSlash) + rest) == Prepend(b, Decode(rest))
  {
    hide Radix16, HexDigit;
    EscapeReads(b);
    var e := EncodeByte(b, encodeSlash);
    assert (e + rest)[|e|..] == rest;
  }

  /** Decoding undoes encoding, and encoded text is plain: nothing in it needs a
      delimiter's meaning. */
  lemma {:induction false} DecodeEncode(s: Bytes, encodeSlash: bool)
    ensures Decode(Encode(s, encodeSlash)) == Some(s)
    ensures Ascii(Encode(s, encodeSlash))
    ensures AMP !in Encode(s, encodeSlash) && EQUALS !in Encode(s, encodeSlash)
  {
    if s != [] {
      DecodeEncode(s[1..], encodeSlash);
      hide Decode, Radix16;
      DecodeEncodedByte(s[0], encodeSlash, Encode(s[1..], encodeSlash));
      assert s == [s[0]] + s[1..];
    }
  }

  /** ASCII text always decodes. */
  lemma {:induction false} AsciiDecodes(s: Bytes)
    requires Ascii(s)
    ensures Decode(s).Some?
  {
    hide Radix16;
    if s != [] {
      AsciiDecodes(s[1..]);
      if |s| > 2 {
        AsciiDecodes(s[3..]);
      }
    }
  }

  /** Some percent sign stands three bytes before the inside of a character. */
  ghost predicate CutsCharacter(s: Bytes)
  {
    exists i: nat :: CutAt(s, i)
  }

  predicate CutAt(s: Bytes, i: nat)
  {
    i + 3 < |s| && s[i] == PERCENT && Continuation(s[i + 3])
  }

  lemma CutInTail(s: Bytes, n: nat, i: nat)
    requires n <= |s|
    ensures CutAt(s[n..], i) <==> CutAt(s, n + i)
  {
  }

  /** No escape swallows a percent sign: it is no digit. */
  lemma PercentIsNoDigit(b: Byte)
    ensures Radix16(PERCENT, b).None? && Radix16(b, PERCENT).None?
  {
  }

  lemma {:induction false} AbortCuts(s: Bytes) returns (i: nat)
    requires Decode(s).None?
    ensures CutAt(s, i)
  {
    hide Radix16, CutAt;
    if s[0] == PERCENT && |s| > 3 && Continuation(s[3]) {
      i := 0;
      CutAtStart(s);
    } else if s[0] == PERCENT && |s| > 2 && Radix16(s[1], s[2]).Some? {
      var j := AbortCuts(s[3..]);
      CutInTail(s, 3, j);
      i := 3 + j;
    } else {
      var j := AbortCuts(s[1..]);
      CutInTail(s, 1, j);
      i := 1 + j;
    }
  }

  lemma CutAtStart(s: Bytes)
    ensures CutAt(s, 0) <==> |s| > 3 && s[0] == PERCENT && Continuation(s[3])
    ensures forall i: nat :: CutAt(s, i) ==> i + 3 < |s| && s[i] == PERCENT
  {
  }

  lemma {:induction false} CutAborts(s: Bytes, i: nat)
    requires CutAt(s, i)
    ensures Decode(s).None?
  {
    hide Radix16, CutAt;
    CutAtStart(s);
    if i > 0 {
      PercentIsNoDigit(s[1]);
      PercentIsNoDigit(s[2]);
      CutInTail(s, 1, i - 1);
      CutAborts(s[1..], i - 1);
      if s[0] == PERCENT && i >= 3 {
        CutInTail(s, 3, i - 3);
        CutAborts(s[3..], i - 3);
      }
    }
  }

  /** The decoder stops the program exactly when a percent sign stands three bytes
      before the inside of a character. */
  lemma DecodeAbortsExactly(s: Bytes)
    ensures Decode(s).None? <==> CutsCharacter(s)
  {
    hide Decode, CutAt;
    if Decode(s).None? {
      var i := AbortCuts(s);
    }
    if i: nat :| CutAt(s, i) {
      CutAborts(s, i);
    }
  }

  /** The text `%4` followed by an accented letter is such a query. */
  lemma AbortHappens()
    ensures Decode([PERCENT, 0x34, 0xc3, 0xa9]) == None
  {
  }

  // ---- splitting and joining ----

  /** `s.split(sep)`: always at least one piece. */
  function Split(s: Bytes, sep: Byte): (pieces: seq<Bytes>)
    ensures |pieces| >= 1
  {
    if s == [] then [[]]
    else
      var rest := Split(s[1..], sep);
      if s[0] == sep then [[]] + rest else ExtendFirst(s[0], rest)
  }

  function ExtendFirst(b: Byte, pieces: seq<Bytes>): (r: seq<Bytes>)
    requires |pieces| >= 1
    ensures |r| == |pieces|
  {
    [[b] + pieces[0]] + pieces[1..]
  }

  /** `splitn(2, '=')`, a missing second half read as empty. */
  function SplitPair(s: Bytes): (Bytes, Bytes)
  {
    if s == [] then ([], [])
    else if s[0] == EQUALS then ([], s[1..])
    else
      var rest := SplitPair(s[1..]);
      ([s[0]] + rest.0, rest.1)
  }

  function NonEmpty(pieces: seq<Bytes>): seq<Bytes>
  {
    if pieces == [] then []
    else (if pieces[0] == [] then [] else [pieces[0]]) + NonEmpty(pieces[1..])
  }

  function Join(parts: seq<Bytes>): Bytes
  {
    if parts == [] then []
    else if |parts| == 1 then parts[0]
    else parts[0] + [AMP] + Join(parts[1..])
  }

  // ---- the canonical query ----

  type Pair = (Bytes, Bytes)

  predicate PairLess(p: Pair, q: Pair)
  {
    Less(p.0, q.0) || (p.0 == q.0 && Less(p.1, q.1))
  }

  /** The key and value a component stands for. */
  function ReadPair(component: Bytes, lossy: Lossy): Option<Pair>
  {
    var (k, v) := SplitPair(component);
    if Decode(k).None? || Decode(v).None? then None
    else Some((lossy(Decode(k).value), lossy(Decode(v).value)))
  }

  function ReadPairs(components: seq<Bytes>, lossy: Lossy): Option<seq<Pair>>
  {
    if components == [] then Some([])
    else
      var first, rest := ReadPair(components[0], lossy), ReadPairs(components[1..], lossy);
      if first.None? || rest.None? then None else Some([first.value] + rest.value)
  }

  /** What a query string says: its decoded pairs, in the order given. */
  function Pairs(raw: Bytes, lossy: Lossy): Option<seq<Pair>>
  {
    ReadPairs(NonEmpty(Split(raw, AMP)), lossy)
  }

  function EncodePair(p: Pair): Pair
  {
    (Encode(p.0, true), Encode(p.1, true))
  }

  function Format(p: Pair): Bytes
  {
    p.0 + [EQUALS] + p.1
  }

  /** `canonical_query`: decode, encode again, sort, join. */
  function CanonicalQuery(raw: Bytes, lossy: Lossy): Option<Bytes>
  {
    match Pairs(raw, lossy)
    case None => None
    case Some(pairs) => Some(Join(Map(Format, Sort(PairLess, Map(EncodePair, pairs)))))
  }

  // ---- joined text parses back ----

  lemma {:induction false} SplitPlain(s: Bytes, sep: Byte)
    requires sep !in s
    ensures Split(s, sep) == [s]
  {
    if s != [] {
      SplitPlain(s[1..], sep);
      assert s == [s[0]] + s[1..];
    }
  }

  lemma SplitTurn(b: Byte, s: Bytes, sep: Byte)
    ensures Split([b] + s, sep) == if b == sep then [[]] + Split(s, sep) else ExtendFirst(b, Split(s, sep))
    ensures Split([], sep) == [[]]
  {
    assert ([b] + s)[1..] == s;
  }

  lemma ExtendFirstOfConcat(b: Byte, p: seq<Bytes>, q: seq<Bytes>)
    requires |p| >= 1
    ensures ExtendFirst(b, p + q) == ExtendFirst(b, p) + q
  {
    assert (p + q)[1..] == p[1..] + q;
  }

  lemma {:induction false} SplitConcat(a: Bytes, sep: Byte, b: Bytes)
    ensures Split(a + [sep] + b, sep) == Split(a, sep) + Split(b, sep)
  {
    hide Split, ExtendFirst;
    if a == [] {
      assert a + [sep] + b == [sep] + b;
      SplitTurn(sep, b, sep);
    } else {
      var rest := a[1..];
      SplitConcat(rest, sep, b);
      assert a == [a[0]] + rest;
      assert a + [sep] + b == [a[0]] + (rest + [sep] + b);
      SplitTurn(a[0], rest + [sep] + b, sep);
      SplitTurn(a[0], rest, sep);
      if a[0] == sep {
        Regroup([[]], Split(rest, sep), Split(b, sep));
      } else {
        ExtendFirstOfConcat(a[0], Split(rest, sep), Split(b, sep));
      }
    }
  }

  lemma NonEmptyTurn(piece: Bytes, pieces: seq<Bytes>)
    ensures NonEmpty([piece] + pieces) == (if piece == [] then [] else [piece]) + NonEmpty(pieces)
    ensures NonEmpty([]) == []
  {
    assert ([piece] + pieces)[1..] == pieces;
  }

  lemma {:induction false} NonEmptyConcat(a: seq<Bytes>, b: seq<Bytes>)
    ensures NonEmpty(a + b) == NonEmpty(a) + NonEmpty(b)
  {
    hide NonEmpty;
    NonEmptyTurn([], []);
    if a == [] {
      assert a + b == b;
    } else {
      NonEmptyConcat(a[1..], b);
      assert a == [a[0]] + a[1..];
      assert a + b == [a[0]] + (a[1..] + b);
      NonEmptyTurn(a[0], a[1..]);
      NonEmptyTurn(a[0], a[1..] + b);
      Regroup(if a[0] == [] then [] else [a[0]], NonEmpty(a[1..]), NonEmpty(b));
    }
  }

  lemma {:induction false} JoinSplits(parts: seq<Bytes>)
    requires forall i :: 0 <= i < |parts| ==> parts[i] != [] && AMP !in parts[i]
    ensures NonEmpty(Split(Join(parts), AMP)) == parts
  {
    if parts != [] {
      SplitPlain(parts[0], AMP);
      if |parts| == 1 {
        assert parts == [parts[0]];
      } else {
        JoinSplits(parts[1..]);
        SplitConcat(parts[0], AMP, Join(parts[1..]));
        NonEmptyConcat([parts[0]], Split(Join(parts[1..]), AMP));
        assert parts == [parts[0]] + parts[1..];
      }
    }
  }

  lemma {:induction false} FormatSplits(k: Bytes, v: Bytes)
    requires EQUALS !in k
    ensures SplitPair(Format((k, v))) == (k, v)
  {
    var s := Format((k, v));
    if k == [] {
      assert s[1..] == v;
    } else {
      FormatSplits(k[1..], v);
      assert s[1..] == Format((k[1..], v));
      assert k == [k[0]] + k[1..];
    }
  }

  /** Encoded pairs, formatted and read again, are the pairs. */
  lemma ReadFormatted(p: Pair, lossy: Lossy)
    ensures ReadPair(Format(EncodePair(p)), lossy) == Some((lossy(p.0), lossy(p.1)))
    ensures Format(EncodePair(p)) != [] && AMP !in Format(EncodePair(p))
  {
    hide Encode, Decode, SplitPair;
    DecodeEncode(p.0, true);
    DecodeEncode(p.1, true);
    FormatSplits(Encode(p.0, true), Encode(p.1, true));
  }

  lemma PairLessIsStrictTotal()
    ensures StrictTotal(PairLess)
  {
    hide Less;
    LessIsStrictTotal();
  }

  // ---- canonical queries are faithful ----

  function DecodeOr(s: Bytes): Bytes
  {
    if Decode(s).None? then [] else Decode(s).value
  }

  function DecodePair(p: Pair): Pair
  {
    (DecodeOr(p.0), DecodeOr(p.1))
  }

  lemma PairsComeBack(pairs: seq<Pair>)
    ensures Map(DecodePair, Map(EncodePair, pairs)) == pairs
  {
    forall i | 0 <= i < |pairs|
      ensures DecodePair(EncodePair(pairs[i])) == pairs[i]
    {
      hide Encode, Decode;
      DecodeEncode(pairs[i].0, true);
      DecodeEncode(pairs[i].1, true);
    }
  }

  /** The sorted, formatted components a canonical query is joined from. */
  function Components(pairs: seq<Pair>): seq<Bytes>
  {
    Map(Format, Sort(PairLess, Map(EncodePair, pairs)))
  }

  /** Each sorted member encodes one of the pairs. */
  lemma SortedMember(pairs: seq<Pair>, i: nat) returns (p: Pair)
    requires i < |Sort(PairLess, Map(EncodePair, pairs))|
    ensures p in pairs && Sort(PairLess, Map(EncodePair, pairs))[i] == EncodePair(p)
  {
    hide Sort, EncodePair, PairLess;
    var encoded := Map(EncodePair, pairs);
    PairLessIsStrictTotal();
    SortSorts(PairLess, encoded);
    var x := Sort(PairLess, encoded)[i];
    assert x in multiset(Sort(PairLess, encoded));
    var j :| 0 <= j < |encoded| && encoded[j] == x;
    p := pairs[j];
  }

  lemma ComponentsSplit(pairs: seq<Pair>, lossy: Lossy)
    ensures NonEmpty(Split(Join(Components(pairs)), AMP)) == Components(pairs)
  {
    hide Sort, Format, EncodePair;
    var parts := Components(pairs);
    forall i | 0 <= i < |parts|
      ensures parts[i] != [] && AMP !in parts[i]
    {
      var p := SortedMember(pairs, i);
      ReadFormatted(p, lossy);
    }
    JoinSplits(parts);
  }

  lemma ComponentsDecide(a: seq<Pair>, b: seq<Pair>, lossy: Lossy)
    requires Components(a) == Components(b)
    ensures Sort(PairLess, Map(EncodePair, a)) == Sort(PairLess, Map(EncodePair, b))
  {
    hide Sort, Format, EncodePair;
    var x, y := Sort(PairLess, Map(EncodePair, a)), Sort(PairLess, Map(EncodePair, b));
    assert |x| == |Components(a)| == |y|;
    forall i | 0 <= i < |x|
      ensures x[i] == y[i]
    {
      assert Format(x[i]) == Components(a)[i] == Format(y[i]);
      var p := SortedMember(a, i);
      var q := SortedMember(b, i);
      EncodedSplits(p);
      EncodedSplits(q);
    }
  }

  lemma EncodedSplits(p: Pair)
    ensures SplitPair(Format(EncodePair(p))) == EncodePair(p)
  {
    hide Encode, SplitPair, Decode;
    DecodeEncode(p.0, true);
    FormatSplits(Encode(p.0, true), Encode(p.1, true));
  }

  lemma ComponentsIgnoreOrder(a: seq<Pair>, b: seq<Pair>, lossy: Lossy)
    ensures Components(a) == Components(b) <==> multiset(a) == multiset(b)
  {
    hide Sort, Format, EncodePair, DecodePair, PairLess;
    PairLessIsStrictTotal();
    var x, y := Map(EncodePair, a), Map(EncodePair, b);
    SortIgnoresOrder(PairLess, x, y);
    if multiset(a) == multiset(b) {
      MapMultiset(EncodePair, a, b);
    }
    if Components(a) == Components(b) {
      ComponentsDecide(a, b, lossy);
      MapMultiset(DecodePair, x, y);
      PairsComeBack(a);
      PairsComeBack(b);
    }
  }

  /** Two queries have one canonical form exactly when they say the same pairs
      the same number of times. */
  lemma CanonicalDecides(a: Bytes, b: Bytes, lossy: Lossy)
    requires Pairs(a, lossy).Some? && Pairs(b, lossy).Some?
    ensures CanonicalQuery(a, lossy) == CanonicalQuery(b, lossy)
       <==> multiset(Pairs(a, lossy).value) == multiset(Pairs(b, lossy).value)
  {
    hide Components, Pairs, Sort, Format, EncodePair, PairLess, Join, Split, NonEmpty;
    var p, q := Pairs(a, lossy).value, Pairs(b, lossy).value;
    CanonicalJoins(a, lossy);
    CanonicalJoins(b, lossy);
    ComponentsIgnoreOrder(p, q, lossy);
    ComponentsSplit(p, lossy);
    ComponentsSplit(q, lossy);
  }

  lemma CanonicalJoins(raw: Bytes, lossy: Lossy)
    requires Pairs(raw, lossy).Some?
    ensures CanonicalQuery(raw, lossy) == Some(Join(Components(Pairs(raw, lossy).value)))
  {
    hide Pairs, Join, Sort;
  }

  // ---- when canonicalisation stops the program ----

  /** Some key or value of the query cuts a character. */
  ghost predicate QueryCuts(raw: Bytes)
  {
    exists c :: c in Split(raw, AMP) && ComponentCuts(c)
  }

  ghost predicate ComponentCuts(c: Bytes)
  {
    CutsCharacter(SplitPair(c).0) || CutsCharacter(SplitPair(c).1)
  }

  lemma ReadPairAborts(c: Bytes, lossy: Lossy)
    ensures ReadPair(c, lossy).None? <==> ComponentCuts(c)
    ensures ComponentCuts(c) ==> c != []
  {
    hide Decode, CutsCharacter;
    DecodeAbortsExactly(SplitPair(c).0);
    DecodeAbortsExactly(SplitPair(c).1);
    if c == [] {
      AsciiDecodes([]);
    }
  }

  lemma {:induction false} ReadPairsAbort(components: seq<Bytes>, lossy: Lossy)
    ensures ReadPairs(NonEmpty(components), lossy).None? <==> exists c :: c in components && ComponentCuts(c)
  {
    hide ReadPair, ComponentCuts, NonEmpty;
    NonEmptyTurn([], []);
    if components != [] {
      var first, rest := components[0], components[1..];
      assert components == [first] + rest;
      ReadPairsAbort(rest, lossy);
      ReadPairAborts(first, lossy);
      NonEmptyTurn(first, rest);
      if first == [] {
        assert NonEmpty(components) == NonEmpty(rest);
      } else {
        assert NonEmpty(components)[0] == first && NonEmpty(components)[1..] == NonEmpty(rest);
      }
    }
  }

  /** A query has a canonical form exactly when none of its keys and values cuts a
      character. */
  lemma CanonicalAbortsExactly(raw: Bytes, lossy: Lossy)
    ensures CanonicalQuery(raw, lossy).None? <==> QueryCuts(raw)
    ensures Pairs(raw, lossy).None? <==> QueryCuts(raw)
  {
    hide Split, NonEmpty, ReadPairs, ComponentCuts, Sort;
    ReadPairsAbort(Split(raw, AMP), lossy);
  }

  // ---- order and repetition of canonicalisation ----

  lemma {:induction false} ReadPairsConcat(a: seq<Bytes>, b: seq<Bytes>, lossy: Lossy)
    ensures var p, q := ReadPairs(a, lossy), ReadPairs(b, lossy);
            ReadPairs(a + b, lossy) == if p.Some? && q.Some? then Some(p.value + q.value) else None
  {
    hide ReadPair;
    if a == [] {
      assert a + b == b;
      assert ReadPairs(b, lossy).Some? ==> [] + ReadPairs(b, lossy).value == ReadPairs(b, lossy).value;
    } else {
      ReadPairsConcat(a[1..], b, lossy);
      assert (a + b)[1..] == a[1..] + b;
      if ReadPairs(a, lossy).Some? && ReadPairs(b, lossy).Some? {
        Regroup([ReadPair(a[0], lossy).value], ReadPairs(a[1..], lossy).value, ReadPairs(b, lossy).value);
      }
    }
  }

  /** Swapping two halves of a query does not change what is signed, or whether
      the program stops. */
  lemma OrderDoesNotMatter(a: Bytes, b: Bytes, lossy: Lossy)
    ensures CanonicalQuery(a + [AMP] + b, lossy) == CanonicalQuery(b + [AMP] + a, lossy)
  {
    hide Split, NonEmpty, ReadPairs, Sort, Format, EncodePair, PairLess, Join;
    SplitConcat(a, AMP, b);
    SplitConcat(b, AMP, a);
    NonEmptyConcat(Split(a, AMP), Split(b, AMP));
    NonEmptyConcat(Split(b, AMP), Split(a, AMP));
    ReadPairsConcat(NonEmpty(Split(a, AMP)), NonEmpty(Split(b, AMP)), lossy);
    ReadPairsConcat(NonEmpty(Split(b, AMP)), NonEmpty(Split(a, AMP)), lossy);
    if Pairs(a, lossy).Some? && Pairs(b, lossy).Some? {
      CanonicalDecides(a + [AMP] + b, b + [AMP] + a, lossy);
    }
  }

  ghost predicate Settled(lossy: Lossy)
  {
    forall s: Bytes :: lossy(lossy(s)) == lossy(s)
  }

  lemma {:induction false} ReadPairsAreSettled(components: seq<Bytes>, lossy: Lossy)
    requires Settled(lossy) && ReadPairs(components, lossy).Some?
    ensures forall p :: p in ReadPairs(components, lossy).value ==> lossy(p.0) == p.0 && lossy(p.1) == p.1
  {
    hide SplitPair, Decode;
    if components != [] {
      ReadPairsAreSettled(components[1..], lossy);
    }
  }

  lemma {:induction false} ReadEach(components: seq<Bytes>, pairs: seq<Pair>, lossy: Lossy)
    requires |components| == |pairs|
    requires forall i :: 0 <= i < |pairs| ==> ReadPair(components[i], lossy) == Some(pairs[i])
    ensures ReadPairs(components, lossy) == Some(pairs)
  {
    hide ReadPair;
    if pairs != [] {
      ReadEach(components[1..], pairs[1..], lossy);
      assert pairs == [pairs[0]] + pairs[1..];
    }
  }

  /** Reading a canonical query gives the original pairs, sorted. */
  lemma CanonicalReads(pairs: seq<Pair>, lossy: Lossy)
    requires forall p :: p in pairs ==> lossy(p.0) == p.0 && lossy(p.1) == p.1
    ensures Pairs(Join(Components(pairs)), lossy) == Some(Map(DecodePair, Sort(PairLess, Map(EncodePair, pairs))))
    ensures multiset(Map(DecodePair, Sort(PairLess, Map(EncodePair, pairs)))) == multiset(pairs)
  {
    hide Sort, Format, EncodePair, DecodePair, PairLess, Join, Split, NonEmpty, ReadPair;
    var encoded := Map(EncodePair, pairs);
    var sorted := Sort(PairLess, encoded);
    var read := Map(DecodePair, sorted);
    forall i | 0 <= i < |sorted|
      ensures ReadPair(Components(pairs)[i], lossy) == Some(read[i])
    {
      var p := SortedMember(pairs, i);
      ReadFormatted(p, lossy);
      DecodeOfEncodePair(p);
    }
    ComponentsSplit(pairs, lossy);
    ReadEach(Components(pairs), read, lossy);
    PairLessIsStrictTotal();
    SortSorts(PairLess, encoded);
    MapMultiset(DecodePair, sorted, encoded);
    PairsComeBack(pairs);
  }

  lemma DecodeOfEncodePair(p: Pair)
    ensures DecodePair(EncodePair(p)) == p
  {
    hide Encode, Decode;
    DecodeEncode(p.0, true);
    DecodeEncode(p.1, true);
  }

  /** A canonical query is its own canonical form. */
  lemma CanonicalIsIdempotent(raw: Bytes, lossy: Lossy)
    requires Settled(lossy) && Pairs(raw, lossy).Some?
    ensures CanonicalQuery(CanonicalQuery(raw, lossy).value, lossy) == CanonicalQuery(raw, lossy)
  {
    hide Components, Sort, Format, EncodePair, DecodePair, PairLess, Join, Split, NonEmpty, ReadPairs;
    ReadPairsAreSettled(NonEmpty(Split(raw, AMP)), lossy);
    CanonicalJoins(raw, lossy);
    CanonicalReads(Pairs(raw, lossy).value, lossy);
    CanonicalDecides(CanonicalQuery(raw, lossy).value, raw, lossy);
  }

  // ---- the text itself, byte for byte ----

  /** A letter, a digit or one of `-_.~`. */
  predicate Kept(b: Byte)
  {
    || 'A' as int <= b <= 'Z' as int || 'a' as int <= b <= 'z' as int || '0' as int <= b <= '9' as int
    || b == '-' as int || b == '_' as int || b == '.' as int || b == '~' as int
  }

  function UpperHex(n: nat): int
    requires n < 16
  {
    "0123456789ABCDEF"[n] as int
  }

  function LowerHex(n: nat): int
    requires n < 16
  {
    "0123456789abcdef"[n] as int
  }

  /** Letters, digits, `-_.~` and, where it may, the slash stand for themselves; every
      other byte becomes a percent sign and two upper-case hexadecimal digits. */
  lemma EscapeInText(b: Byte, encodeSlash: bool)
    ensures Encode([b], encodeSlash)
         == if Kept(b) || (b == '/' as int && !encodeSlash) then [b]
            else ['%' as int, UpperHex(b / 16), UpperHex(b % 16)]
  {
    HexInText(b / 16);
    HexInText(b % 16);
    assert Encode([b], encodeSlash) == EncodeByte(b, encodeSlash) + Encode([], encodeSlash);
  }

  lemma HexInText(n: nat)
    requires n < 16
    ensures UpperHex(n) == HexDigit(n) && 48 <= UpperHex(n) < 71
    ensures HexValue(UpperHex(n)) == Some(n)
    ensures 48 <= LowerHex(n) < 103 && HexValue(LowerHex(n)) == Some(n)
  {
  }

  lemma {:induction false} EncodeConcat(a: Bytes, b: Bytes, encodeSlash: bool)
    ensures Encode(a + b, encodeSlash) == Encode(a, encodeSlash) + Encode(b, encodeSlash)
  {
    hide EncodeByte;
    if a == [] {
      assert a + b == b;
    } else {
      EncodeConcat(a[1..], b, encodeSlash);
      assert (a + b)[1..] == a[1..] + b;
      Regroup(EncodeByte(a[0], encodeSlash), Encode(a[1..], encodeSlash), Encode(b, encodeSlash));
    }
  }

  /** What two bytes after a percent sign are read as: two digits of either case, or a
      plus sign and one. */
  lemma EscapeIsRead(hi: nat, lo: nat, upperHi: bool, upperLo: bool, rest: Bytes)
    requires hi < 16 && lo < 16 && (rest != [] ==> !(0x80 <= rest[0] < 0xc0)) && Decode(rest).Some?
    ensures 0 <= (if upperHi then UpperHex(hi) else LowerHex(hi)) < 256
    ensures 0 <= (if upperLo then UpperHex(lo) else LowerHex(lo)) < 256
    ensures var first: Byte := if upperHi then UpperHex(hi) else LowerHex(hi);
            var second: Byte := if upperLo then UpperHex(lo) else LowerHex(lo);
            && Decode(['%' as int, first, second] + rest) == Some([16 * hi + lo] + Decode(rest).value)
            && Decode(['%' as int, '+' as int, second] + rest) == Some([lo] + Decode(rest).value)
  {
    HexInText(hi);
    HexInText(lo);
    hide UpperHex, LowerHex, HexValue, Decode;
    var first: Byte := if upperHi then UpperHex(hi) else LowerHex(hi);
    var second: Byte := if upperLo then UpperHex(lo) else LowerHex(lo);
    EscapeDecodes(first, second, hi, lo, rest);
  }

  lemma EscapeDecodes(first: Byte, second: Byte, hi: nat, lo: nat, rest: Bytes)
    requires hi < 16 && lo < 16 && HexValue(first) == Some(hi) && HexValue(second) == Some(lo)
    requires (rest != [] ==> !Continuation(rest[0])) && Decode(rest).Some?
    ensures Decode([PERCENT, first, second] + rest) == Some([16 * hi + lo] + Decode(rest).value)
    ensures Decode([PERCENT, PLUS, second] + rest) == Some([lo] + Decode(rest).value)
  {
    hide HexValue, Radix16, Decode, Continuation;
    EscapeNumber(first, second, hi, lo);
    assert ([PERCENT, first, second] + rest)[3..] == rest && ([PERCENT, PLUS, second] + rest)[3..] == rest;
    EscapeTurn([PERCENT, first, second] + rest, 16 * hi + lo, rest);
    EscapeTurn([PERCENT, PLUS, second] + rest, lo, rest);
  }

  lemma EscapeNumber(first: Byte, second: Byte, hi: nat, lo: nat)
    requires hi < 16 && lo < 16 && HexValue(first) == Some(hi) && HexValue(second) == Some(lo)
    ensures Radix16(first, second) == Some(16 * hi + lo) && Radix16(PLUS, second) == Some(lo)
  {
    assert first != PLUS;
    hide HexValue;
  }

  lemma EscapeTurn(s: Bytes, v: Byte, rest: Bytes)
    requires |s| > 2 && s[0] == PERCENT && s[3..] == rest && Radix16(s[1], s[2]) == Some(v)
    requires (rest != [] ==> !Continuation(rest[0])) && Decode(rest).Some?
    ensures Decode(s) == Some([v] + Decode(rest).value)
  {
    hide Radix16;
    assert |s| > 3 ==> s[3] == rest[0];
  }

  /** Any other byte is read as itself. */
  lemma OtherIsRead(b: Byte, rest: Bytes)
    requires b != '%' as int && Decode(rest).Some?
    ensures Decode([]) == Some([]) && Decode([b] + rest) == Some([b] + Decode(rest).value)
  {
    assert ([b] + rest)[1..] == rest;
  }

  ghost predicate IsHex(b: Byte)
  {
    || '0' as int <= b <= '9' as int || 'a' as int <= b <= 'f' as int || 'A' as int <= b <= 'F' as int
  }

  /** So is a percent sign that two digits do not follow. */
  lemma LonePercentIsRead(rest: Bytes)
    requires |rest| >= 2 ==> !IsHex(rest[1]) || !(rest[0] == '+' as int || IsHex(rest[0]))
    requires |rest| >= 3 ==> !(0x80 <= rest[2] < 0xc0)
    requires Decode(rest).Some?
    ensures Decode(['%' as int] + rest) == Some(['%' as int] + Decode(rest).value)
  {
    var s := ['%' as int] + rest;
    assert s[1..] == rest;
    assert |rest| >= 2 ==> Radix16(rest[0], rest[1]) == None;
    hide Radix16;
  }

  /** `k=v`, or a bare `k` with nothing for its value. */
  lemma ComponentIsRead(k: Bytes, v: Bytes, lossy: Lossy)
    requires '=' as int !in k && Decode(k).Some? && Decode(v).Some?
    ensures ReadPair(k + ['=' as int] + v, lossy) == Some((lossy(Decode(k).value), lossy(Decode(v).value)))
    ensures ReadPair(k, lossy) == Some((lossy(Decode(k).value), lossy([])))
  {
    hide Decode;
    FormatSplits(k, v);
    BareSplits(k);
    AsciiDecodes([]);
    DecodeNothing();
  }

  lemma DecodeNothing()
    ensures Decode([]) == Some([])
  {
  }

  lemma {:induction false} BareSplits(k: Bytes)
    requires EQUALS !in k
    ensures SplitPair(k) == (k, [])
  {
    if k != [] {
      BareSplits(k[1..]);
      assert k == [k[0]] + k[1..];
    }
  }

  /** A query is its components, divided by ampersands, the empty ones left out. */
  lemma PairsByAmpersand(a: Bytes, b: Bytes, lossy: Lossy)
    ensures var p, q := Pairs(a, lossy), Pairs(b, lossy);
            Pairs(a + ['&' as int] + b, lossy) == if p.Some? && q.Some? then Some(p.value + q.value) else None
    ensures '&' as int !in a ==>
              Pairs(a, lossy) == if a == [] then Some([])
                                 else if ReadPair(a, lossy).None? then None
                                 else Some([ReadPair(a, lossy).value])
  {
    hide Split, NonEmpty, ReadPair;
    SplitConcat(a, AMP, b);
    NonEmptyConcat(Split(a, AMP), Split(b, AMP));
    ReadPairsConcat(NonEmpty(Split(a, AMP)), NonEmpty(Split(b, AMP)), lossy);
    if AMP !in a {
      SplitPlain(a, AMP);
      NonEmptyTurn(a, []);
      assert [a] + [] == [a];
      ReadEach([], [], lossy);
      assert [a][1..] == [] && (if a == [] then [] else [a]) + [] == if a == [] then [] else [a];
      OneIsRead(a, lossy);
    }
  }

  lemma OneIsRead(c: Bytes, lossy: Lossy)
    ensures ReadPairs([c], lossy)
         == if ReadPair(c, lossy).None? then None else Some([ReadPair(c, lossy).value])
  {
    hide ReadPair;
    assert [c][1..] == [];
    assert ReadPairs([], lossy) == Some([]);
    assert ReadPair(c, lossy).Some? ==> [ReadPair(c, lossy).value] + [] == [ReadPair(c, lossy).value];
  }

  /** Names and values, joined by equals signs and ampersands. */
  function QueryText(pairs: seq<Pair>): Bytes
  {
    if pairs == [] then []
    else pairs[0].0 + ['=' as int] + pairs[0].1
         + if |pairs| == 1 then [] else ['&' as int] + QueryText(pairs[1..])
  }

  ghost predicate PairBefore(p: Pair, q: Pair)
  {
    Before(p.0, q.0) || (p.0 == q.0 && Before(p.1, q.1))
  }

  lemma {:induction false} JoinIsText(pairs: seq<Pair>)
    ensures Join(Map(Format, pairs)) == QueryText(pairs)
  {
    if pairs != [] {
      JoinIsText(pairs[1..]);
      assert Map(Format, pairs)[1..] == Map(Format, pairs[1..]);
    }
  }

  /** The canonical query is the encoded pairs as text, by name and then by value in
      byte order. */
  lemma CanonicalInText(raw: Bytes, lossy: Lossy) returns (encoded: seq<Pair>)
    requires Pairs(raw, lossy).Some?
    ensures CanonicalQuery(raw, lossy) == Some(QueryText(encoded))
    ensures forall i, j :: 0 <= i < j < |encoded| ==> !PairBefore(encoded[j], encoded[i])
    ensures multiset(encoded)
         == multiset(Map((p: Pair) => (Encode(p.0, true), Encode(p.1, true)), Pairs(raw, lossy).value))
  {
    hide Pairs, Sort, Join, Encode, Before, Less;
    var pairs := Pairs(raw, lossy).value;
    encoded := Sort(PairLess, Map(EncodePair, pairs));
    JoinIsText(encoded);
    PairLessIsStrictTotal();
    SortSorts(PairLess, Map(EncodePair, pairs));
    assert Map(EncodePair, pairs) == Map((p: Pair) => (Encode(p.0, true), Encode(p.1, true)), pairs);
    forall i, j | 0 <= i < j < |encoded|
      ensures !PairBefore(encoded[j], encoded[i])
    {
      LessIsBefore(encoded[j].0, encoded[i].0);
      LessIsBefore(encoded[j].1, encoded[i].1);
    }
  }

  predicate UpperHexDigit(b: Byte)
  {
    '0' as int <= b <= '9' as int || 'A' as int <= b <= 'F' as int
  }

  predicate EscapedAt(s: Bytes, i: nat)
    requires i < |s|
  {
    || Kept(s[i]) || s[i] == '&' as int || s[i] == '=' as int
    || (s[i] == '%' as int && i + 2 < |s| && UpperHexDigit(s[i + 1]) && UpperHexDigit(s[i + 2]))
  }

  /** Nothing but kept characters, separators and upper-case escapes. */
  predicate Escaped(s: Bytes)
  {
    forall i :: 0 <= i < |s| ==> EscapedAt(s, i)
  }

  lemma EscapedJoins(a: Bytes, b: Bytes)
    requires Escaped(a) && Escaped(b)
    ensures Escaped(a + b)
  {
    hide Kept, UpperHexDigit;
    var s := a + b;
    forall i | 0 <= i < |s|
      ensures EscapedAt(s, i)
    {
      if i < |a| {
        assert EscapedAt(a, i);
      } else {
        assert EscapedAt(b, i - |a|);
      }
    }
  }

  lemma {:induction false} EncodedIsEscaped(s: Bytes)
    ensures Escaped(Encode(s, true))
  {
    if s != [] {
      EncodedIsEscaped(s[1..]);
      ByteIsEscaped(s[0]);
      hide Escaped;
      EscapedJoins(EncodeByte(s[0], true), Encode(s[1..], true));
    }
  }

  lemma ByteIsEscaped(b: Byte)
    ensures Escaped(EncodeByte(b, true))
  {
    hide HexDigit;
    DigitIsUpper(b / 16);
    DigitIsUpper(b % 16);
    var s := EncodeByte(b, true);
    if Unreserved(b) {
      assert EscapedAt(s, 0);
    } else {
      assert EscapedAt(s, 0) && EscapedAt(s, 1) && EscapedAt(s, 2);
    }
  }

  lemma DigitIsUpper(n: nat)
    requires n < 16
    ensures UpperHexDigit(HexDigit(n)) && Kept(HexDigit(n))
  {
  }

  lemma {:induction false} TextIsEscaped(pairs: seq<Pair>)
    requires forall p :: p in pairs ==> Escaped(p.0) && Escaped(p.1)
    ensures Escaped(QueryText(pairs))
  {
    hide Escaped;
    SeparatorsAreEscaped();
    if pairs != [] {
      TextIsEscaped(pairs[1..]);
      assert pairs[0] in pairs;
      EscapedJoins(pairs[0].0, ['=' as int]);
      EscapedJoins(pairs[0].0 + ['=' as int], pairs[0].1);
      var rest := if |pairs| == 1 then [] else ['&' as int] + QueryText(pairs[1..]);
      if |pairs| > 1 {
        EscapedJoins(['&' as int], QueryText(pairs[1..]));
      }
      EscapedJoins(pairs[0].0 + ['=' as int] + pairs[0].1, rest);
    }
  }

  lemma SeparatorsAreEscaped()
    ensures Escaped([]) && Escaped(['=' as int]) && Escaped(['&' as int])
  {
  }

  /** Every byte of a canonical query is kept, a separator or part of an upper-case
      escape. */
  lemma CanonicalIsEscaped(raw: Bytes, lossy: Lossy)
    requires Pairs(raw, lossy).Some?
    ensures Escaped(CanonicalQuery(raw, lossy).value)
  {
    hide Escaped, Pairs, CanonicalQuery, Encode;
    var encoded := CanonicalInText(raw, lossy);
    var pairs := Pairs(raw, lossy).value;
    var all := Map((p: Pair) => (Encode(p.0, true), Encode(p.1, true)), pairs);
    forall p | p in encoded
      ensures Escaped(p.0) && Escaped(p.1)
    {
      assert p in multiset(encoded);
      assert p in all;
      var i :| 0 <= i < |all| && all[i] == p;
      EncodedIsEscaped(pairs[i].0);
      EncodedIsEscaped(pairs[i].1);
    }
    TextIsEscaped(encoded);
  }
}
