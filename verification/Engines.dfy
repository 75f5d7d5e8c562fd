/** The engine's calls, one at a time, against what a caller may rely on: for
    every key, a list of byte strings (crates/barme-engine/src/lib.rs). */
module Engines {
  import opened Bits
  import opened Common
  import opened Hashing
  import opened Stores
  import opened Objects
  import opened Collector
  import opened Sweeping
  import Merkle
  import opened PointerText

  /** The storage policy in force for one write. */
  datatype Policy = Policy(codec: Codec, exact: bool, snapshot: Bytes)

  datatype Part = Part(chunks: seq<Digest>, storedSize: nat, size: nat, etag: Digest)

  datatype Upload = Upload(key: Key, contentType: Bytes, policy: Policy, parts: map<nat, Part>, pinned: seq<Digest>)

  /** Counted since the process started. */
  datatype GcStats = GcStats(sweeps: nat, condemned: nat, erased: nat, live: nat)

  const MAX_NAME_BYTES: nat := 255

  /** The longest name a store derives is "{hexpot}_{hexkey}.json". */
  predicate GoodKey(k: Key)
  {
    k.name != [] && 2 * |k.bucket| + 2 * |k.name| + 6 <= MAX_NAME_BYTES
  }

  /** Why a write is turned away before it stores anything. */
  function Refusal(k: Key, locked: bool, codec: Codec): Option<Error>
  {
    if !GoodKey(k) then Some(InvalidKey)
    else if locked then Some(Locked)
    else if codec.Unsupported? then Some(UnknownCodec)
    else None
  }

  /** The addresses a write gives its pieces. */
  function Addresses(w: World, c: Codec, pieces: seq<Bytes>): (a: seq<Digest>)
    requires !c.Unsupported?
    ensures |a| == |pieces|
  {
    if pieces == [] then []
    else Addresses(w, c, pieces[..|pieces| - 1]) + [w.hash(Encode(w, c, pieces[|pieces| - 1]))]
  }

  function EncodedSize(w: World, c: Codec, pieces: seq<Bytes>): nat
    requires !c.Unsupported?
  {
    if pieces == [] then 0
    else EncodedSize(w, c, pieces[..|pieces| - 1]) + |Encode(w, c, pieces[|pieces| - 1])|
  }

  /** What came in before the stream broke, if it did. */
  function Arrived(pieces: seq<Bytes>, breaks: Option<nat>): seq<Bytes>
  {
    if breaks.Some? && breaks.value < |pieces| then pieces[..breaks.value] else pieces
  }

  /** How many pieces fit under the limit. */
  function Fitting(pieces: seq<Bytes>, limit: Option<nat>): (n: nat)
    ensures n <= |pieces|
  {
    if pieces == [] then 0
    else
      var most := Fitting(pieces[..|pieces| - 1], limit);
      if most == |pieces| - 1 && (limit.Some? ==> |Joined(pieces)| <= limit.value) then |pieces| else most
  }

  /** The pieces a stream has stored when it ends. */
  function Accepted(pieces: seq<Bytes>, breaks: Option<nat>, limit: Option<nat>): seq<Bytes>
  {
    Arrived(pieces, breaks)[..Fitting(Arrived(pieces, breaks), limit)]
  }

  /** How a stream ends: too large before it breaks, broken, or whole. */
  function StreamError(pieces: seq<Bytes>, breaks: Option<nat>, limit: Option<nat>): Option<Error>
  {
    if limit.Some? && |Joined(Arrived(pieces, breaks))| > limit.value then Some(TooLarge(limit.value))
    else if breaks.Some? then Some(BrokenUpload)
    else None
  }

  lemma {:induction false} FittingAll(pieces: seq<Bytes>, limit: Option<nat>)
    ensures Fitting(pieces, limit) == |pieces| <==> (limit.Some? ==> |Joined(pieces)| <= limit.value)
  {
    if pieces != [] {
      FittingAll(pieces[..|pieces| - 1], limit);
    }
  }

  /** A stream that fits so far has room for all of what has come. */
  lemma {:induction false} FittingPrefix(pieces: seq<Bytes>, limit: Option<nat>, i: nat)
    requires i <= |pieces|
    ensures Fitting(pieces[..i], limit) == if Fitting(pieces, limit) < i then Fitting(pieces, limit) else i
  {
    if i == |pieces| {
      assert pieces[..i] == pieces;
    } else {
      FittingPrefix(pieces[..|pieces| - 1], limit, i);
      assert pieces[..|pieces| - 1][..i] == pieces[..i];
    }
  }

  /** A stream is too large exactly when some of the pieces that came before it broke
      are together over the limit, and otherwise it breaks if it ever does. */
  lemma StreamEndsExactly(pieces: seq<Bytes>, breaks: Option<nat>, limit: Option<nat>)
    ensures var over := limit.Some? && exists n :: 0 <= n <= |pieces| && (breaks.Some? ==> n <= breaks.value)
                                                   && |Joined(pieces[..n])| > limit.value;
            && (limit.Some? && StreamError(pieces, breaks, limit) == Some(TooLarge(limit.value)) <==> over)
            && (StreamError(pieces, breaks, limit) == Some(BrokenUpload) <==> breaks.Some? && !over)
            && (StreamError(pieces, breaks, limit) == None <==> breaks.None? && !over)
  {
    var m := if breaks.Some? && breaks.value < |pieces| then breaks.value else |pieces|;
    assert Arrived(pieces, breaks) == pieces[..m] by {
      assert pieces[..|pieces|] == pieces;
    }
    forall n | 0 <= n <= m
      ensures |Joined(pieces[..n])| <= |Joined(pieces[..m])|
    {
      assert pieces[..m] == pieces[..n] + pieces[n..m];
      JoinedConcat(pieces[..n], pieces[n..m]);
    }
  }

  /** What a stream has stored when it ends is the longest run of its pieces, come in
      before it broke, that is within the limit. */
  lemma AcceptedIsLongest(pieces: seq<Bytes>, breaks: Option<nat>, limit: Option<nat>, n: nat)
    requires n <= |pieces|
    ensures n <= |Accepted(pieces, breaks, limit)| <==>
            (breaks.Some? ==> n <= breaks.value) && (limit.Some? ==> |Joined(pieces[..n])| <= limit.value)
    ensures n <= |Accepted(pieces, breaks, limit)| ==> Accepted(pieces, breaks, limit)[..n] == pieces[..n]
  {
    hide Joined;
    var come := Arrived(pieces, breaks);
    assert come == pieces[..|come|];
    if n <= |come| {
      assert come[..n] == pieces[..n];
      FittingPrefix(come, limit, n);
      FittingAll(come[..n], limit);
    }
  }

  lemma AcceptedAll(pieces: seq<Bytes>, breaks: Option<nat>, limit: Option<nat>)
    ensures StreamError(pieces, breaks, limit) == None ==> Accepted(pieces, breaks, limit) == pieces
  {
    FittingAll(pieces, limit);
  }

  /** What a write has stored. */
  datatype Stored = Stored(chunks: seq<Digest>, storedSize: nat, size: nat, sha256: Digest)

  function StoredOf(w: World, c: Codec, pieces: seq<Bytes>): Stored
    requires !c.Unsupported?
  {
    Stored(Addresses(w, c, pieces), EncodedSize(w, c, pieces), |Joined(pieces)|, w.sha256(Joined(pieces)))
  }

  /** The pieces as they are stored, coded one by one. */
  function Coded(w: World, c: Codec, pieces: seq<Bytes>): (coded: seq<Bytes>)
    requires !c.Unsupported?
    ensures |coded| == |pieces|
    ensures forall i :: 0 <= i < |pieces| ==> coded[i] == if c.Raw? then pieces[i] else w.squeeze(c.level, pieces[i])
  {
    seq(|pieces|, i requires 0 <= i < |pieces| => Encode(w, c, pieces[i]))
  }

  /** These are the addresses of those byte strings, in order, and their length
      altogether. */
  ghost predicate AddressOf(w: World, chunks: seq<Digest>, storedSize: nat, coded: seq<Bytes>)
  {
    && |chunks| == |coded| && (forall i :: 0 <= i < |coded| ==> chunks[i] == w.hash(coded[i]))
    && storedSize == |Joined(coded)|
  }

  lemma {:induction false} CodedIsAddressed(w: World, c: Codec, pieces: seq<Bytes>)
    requires !c.Unsupported?
    ensures AddressOf(w, Addresses(w, c, pieces), EncodedSize(w, c, pieces), Coded(w, c, pieces))
  {
    if pieces != [] {
      var most := pieces[..|pieces| - 1];
      CodedIsAddressed(w, c, most);
      assert Coded(w, c, pieces)[..|most|] == Coded(w, c, most);
    }
  }

  function PartOf(s: Stored): Part
  {
    Part(s.chunks, s.storedSize, s.size, s.sha256)
  }

  /** What receiving a stream comes to. */
  function Received(w: World, c: Codec, pieces: seq<Bytes>, breaks: Option<nat>, limit: Option<nat>): Result<Stored>
    requires !c.Unsupported?
  {
    match StreamError(pieces, breaks, limit)
    case Some(e) => Err(e)
    case None => Ok(StoredOf(w, c, pieces))
  }

  /** The manifest a write records. */
  function ManifestOf(w: World, s: Stored, contentType: Bytes, policy: Policy, now: Bytes): Manifest
  {
    Manifest(MANIFEST_VERSION, w.hash([]), now, s.size, s.sha256, contentType, policy.codec, policy.exact,
             s.storedSize, s.chunks, Some(Merkle.RootOf(w.hash, s.chunks)), policy.snapshot)
  }

  /** The id an object gets, whichever way its pieces came in. */
  function ObjectId(w: World, pieces: seq<Bytes>, contentType: Bytes, policy: Policy, now: Bytes): Digest
    requires !policy.codec.Unsupported?
  {
    w.hash(w.json(ManifestOf(w, StoredOf(w, policy.codec, pieces), contentType, policy, now)))
  }

  /** The manifest says when it was made, so the same bytes written again have the
      same id exactly when written at the same time, or by a collision. */
  lemma SameIdExactly(
    w: World, pieces: seq<Bytes>, contentType: Bytes, policy: Policy, now: Bytes, later: Bytes)
    requires Lawful(w) && !policy.codec.Unsupported?
    ensures var s := StoredOf(w, policy.codec, pieces);
            var first := w.json(ManifestOf(w, s, contentType, policy, now));
            var second := w.json(ManifestOf(w, s, contentType, policy, later));
            ObjectId(w, pieces, contentType, policy, now) == ObjectId(w, pieces, contentType, policy, later)
            <==> now == later || Collision(w.hash, (first, second))
  {
    hide StoredOf, Merkle.RootOf;
    var s := StoredOf(w, policy.codec, pieces);
    var a, b := ManifestOf(w, s, contentType, policy, now), ManifestOf(w, s, contentType, policy, later);
    assert w.json(a) == w.json(b) <==> Unaddressed(a) == Unaddressed(b);
    assert Unaddressed(a).createdAt == now && Unaddressed(b).createdAt == later;
  }

  /** How a write ends that nothing interrupts. */
  function WriteOutcome(key: Key, id: Digest): Result<Digest>
  {
    if GoodBucket(key.bucket) then Ok(id) else Err(BadBucket)
  }

  /** Every part named was uploaded. */
  ghost predicate Names(order: seq<nat>, parts: map<nat, Part>)
  {
    forall i :: 0 <= i < |order| ==> order[i] in parts
  }

  /** When a write of these inputs goes through, and what turns it away if not: the
      key, then the lock, then the codec, and the bucket's name last. */
  lemma WritesExactly(k: Key, locked: bool, codec: Codec, id: Digest)
    ensures var good := k.name != [] && |k.bucket| + |k.bucket| + |"_"| + |k.name| + |k.name| + |".json"| <= 255;
            var coded := codec == Raw || exists level :: codec == Zstd(level);
            && (Refusal(k, locked, codec) == Some(InvalidKey) <==> !good)
            && (Refusal(k, locked, codec) == Some(Locked) <==> good && locked)
            && (Refusal(k, locked, codec) == Some(UnknownCodec) <==> good && !locked && !coded)
            && (Refusal(k, locked, codec) == None <==> good && !locked && coded)
            && (WriteOutcome(k, id) == Ok(id) <==> IsDirectoryName(k.bucket))
            && (WriteOutcome(k, id) == Err(BadBucket) <==> !IsDirectoryName(k.bucket))
  {
    GoodBucketExactly(k.bucket);
    assert codec.Zstd? ==> codec == Zstd(codec.level);
  }

  /** The chunks of the parts named, one part after the other. */
  function PartChunks(parts: map<nat, Part>, order: seq<nat>): seq<Digest>
    requires Names(order, parts)
  {
    if order == [] then [] else PartChunks(parts, order[..|order| - 1]) + parts[order[|order| - 1]].chunks
  }

  function StoredSizes(parts: map<nat, Part>, order: seq<nat>): nat
    requires Names(order, parts)
  {
    if order == [] then 0 else StoredSizes(parts, order[..|order| - 1]) + parts[order[|order| - 1]].storedSize
  }

  /** The bytes of the parts named, one part after the other. */
  function PartBytes(w: World, c: Codec, known: map<Digest, Bytes>, parts: map<nat, Part>, order: seq<nat>): Bytes
    requires Names(order, parts)
  {
    if order == [] then []
    else
      var last := Content(w, c, known, parts[order[|order| - 1]].chunks).GetOr([]);
      PartBytes(w, c, known, parts, order[..|order| - 1]) + last
  }

  /** What a completed upload records: the parts' chunks in order, and the size and
      digest of their bytes together. */
  function Completed(w: World, c: Codec, known: map<Digest, Bytes>, parts: map<nat, Part>, order: seq<nat>): Stored
    requires Names(order, parts)
  {
    var bytes := PartBytes(w, c, known, parts, order);
    Stored(PartChunks(parts, order), StoredSizes(parts, order), |bytes|, w.sha256(bytes))
  }

  /** One part gives its own, */
  lemma PartAlone(w: World, c: Codec, known: map<Digest, Bytes>, parts: map<nat, Part>, n: nat)
    requires n in parts && Content(w, c, known, parts[n].chunks).Some?
    ensures PartChunks(parts, [n]) == parts[n].chunks && StoredSizes(parts, [n]) == parts[n].storedSize
    ensures PartBytes(w, c, known, parts, [n]) == Content(w, c, known, parts[n].chunks).value
  {
    assert [n][..0] == [];
    hide Content;
  }

  /** and two runs of parts give one after the other. */
  lemma {:induction false} PartsInOrder(
    w: World, c: Codec, known: map<Digest, Bytes>, parts: map<nat, Part>, a: seq<nat>, b: seq<nat>)
    requires Names(a, parts) && Names(b, parts)
    ensures Names(a + b, parts)
    ensures PartChunks(parts, a + b) == PartChunks(parts, a) + PartChunks(parts, b)
    ensures StoredSizes(parts, a + b) == StoredSizes(parts, a) + StoredSizes(parts, b)
    ensures PartBytes(w, c, known, parts, a + b) == PartBytes(w, c, known, parts, a) + PartBytes(w, c, known, parts, b)
  {
    hide Content;
    if b == [] {
      assert a + b == a;
    } else {
      var most, last := b[..|b| - 1], b[|b| - 1];
      PartsInOrder(w, c, known, parts, a, most);
      assert (a + b)[..|a + b| - 1] == a + most && (a + b)[|a + b| - 1] == last;
      var bytes := Content(w, c, known, parts[last].chunks).GetOr([]);
      Regroup(PartChunks(parts, a), PartChunks(parts, most), parts[last].chunks);
      Regroup(PartBytes(w, c, known, parts, a), PartBytes(w, c, known, parts, most), bytes);
    }
  }

  /** How completing an upload with these parts turns out. */
  function Completion(w: World, s: Holdings, up: Upload, used: seq<nat>, now: Bytes): Result<Digest>
  {
    match Trouble(s.stored, up.parts, used)
    case Some(e) => Err(e)
    case None =>
      NoTroubleNamesParts(s.stored, up.parts, used);
      var whole := Completed(w, up.policy.codec, s.known, up.parts, used);
      WriteOutcome(up.key, w.hash(w.json(ManifestOf(w, whole, up.contentType, up.policy, now))))
  }

  lemma {:induction false} NoTroubleNamesParts(stored: set<Digest>, parts: map<nat, Part>, used: seq<nat>)
    requires Trouble(stored, parts, used) == None
    ensures Names(used, parts)
  {
    if used != [] {
      NoTroubleNamesParts(stored, parts, used[..|used| - 1]);
    }
  }

  lemma PartNext(w: World, c: Codec, known: map<Digest, Bytes>, parts: map<nat, Part>, order: seq<nat>, i: nat)
    requires i < |order| && Names(order[..i], parts) && order[i] in parts
    requires Content(w, c, known, parts[order[i]].chunks).Some?
    requires Content(w, c, known, PartChunks(parts, order[..i])) == Some(PartBytes(w, c, known, parts, order[..i]))
    ensures PartChunks(parts, order[..i + 1]) == PartChunks(parts, order[..i]) + parts[order[i]].chunks
    ensures StoredSizes(parts, order[..i + 1]) == StoredSizes(parts, order[..i]) + parts[order[i]].storedSize
    ensures PartBytes(w, c, known, parts, order[..i + 1])
         == PartBytes(w, c, known, parts, order[..i]) + Content(w, c, known, parts[order[i]].chunks).value
    ensures Content(w, c, known, PartChunks(parts, order[..i + 1]))
         == Some(PartBytes(w, c, known, parts, order[..i + 1]))
  {
    hide Content;
    assert order[..i + 1][..i] == order[..i];
    ContentConcat(w, c, known, PartChunks(parts, order[..i]), parts[order[i]].chunks);
  }

  lemma PartChunksNext(parts: map<nat, Part>, order: seq<nat>, i: nat)
    requires i < |order| && Names(order[..i], parts) && order[i] in parts
    ensures PartChunks(parts, order[..i + 1]) == PartChunks(parts, order[..i]) + parts[order[i]].chunks
  {
    assert order[..i + 1][..i] == order[..i];
  }

  /** The first chunk that is not there. */
  function Lacking(stored: set<Digest>, chunks: seq<Digest>): Option<Error>
  {
    if chunks == [] then None
    else
      var most := Lacking(stored, chunks[..|chunks| - 1]);
      var last := chunks[|chunks| - 1];
      if most.Some? || last in stored then most else Some(MissingChunk(last))
  }

  /** What keeps an upload from completing, in the order it is come upon. */
  function Trouble(stored: set<Digest>, parts: map<nat, Part>, order: seq<nat>): Option<Error>
  {
    if order == [] then None
    else
      var most := Trouble(stored, parts, order[..|order| - 1]);
      var last := order[|order| - 1];
      if most.Some? then most
      else if last !in parts then Some(InvalidPart(last))
      else Lacking(stored, parts[last].chunks)
  }

  ghost predicate Increasing(s: seq<nat>)
  {
    forall i, j :: 0 <= i < j < |s| ==> s[i] < s[j]
  }

  /** The parts a completion uses: those it names or, if none, all in order. */
  ghost predicate Uses(order: seq<nat>, parts: map<nat, Part>, used: seq<nat>)
  {
    if order != [] then used == order else Increasing(used) && Elems(used) == parts.Keys
  }

  /** How importing a manifest turns out. */
  function ImportOutcome(w: World, stored: set<Digest>, key: Key, m: Manifest, locked: bool): Result<Digest>
  {
    if locked then Err(Locked)
    else
      match Lacking(stored, m.chunks)
      case Some(e) => Err(e)
      case None =>
        if m.merkleRoot.Some? && m.merkleRoot.value != Merkle.RootOf(w.hash, m.chunks) then Err(Mismatch(m.objectId))
        else if w.hash(w.json(m)) != m.objectId then Err(Mismatch(m.objectId))
        else WriteOutcome(key, m.objectId)
  }

  method PartsToUse(order: seq<nat>, parts: map<nat, Part>) returns (used: seq<nat>)
    ensures Uses(order, parts, used)
  {
    if order != [] {
      return order;
    }
    used := [];
    var todo := parts.Keys;
    while todo != {}
      invariant Increasing(used) && Elems(used) + todo == parts.Keys
      invariant forall i, n :: 0 <= i < |used| && n in todo ==> used[i] < n
      decreases todo
    {
      var least := Least(todo);
      ElemsSnoc(used, least);
      used, todo := used + [least], todo - {least};
    }
  }

  method Least(s: set<nat>) returns (least: nat)
    requires s != {}
    ensures least in s && forall n :: n in s ==> least <= n
  {
    least :| least in s;
    var rest := s - {least};
    while rest != {}
      invariant least in s && rest <= s && forall n :: n in s && n !in rest ==> least <= n
      decreases rest
    {
      var n :| n in rest;
      rest := rest - {n};
      if n < least {
        least := n;
      }
    }
  }

  lemma TroubleNext(stored: set<Digest>, parts: map<nat, Part>, order: seq<nat>, i: nat)
    requires i < |order|
    ensures Trouble(stored, parts, order[..i + 1])
         == if Trouble(stored, parts, order[..i]).Some? then Trouble(stored, parts, order[..i])
            else if order[i] !in parts then Some(InvalidPart(order[i]))
            else Lacking(stored, parts[order[i]].chunks)
  {
    assert order[..i + 1][..i] == order[..i];
  }

  lemma {:induction false} TroubleStays(stored: set<Digest>, parts: map<nat, Part>, order: seq<nat>, i: nat)
    requires i <= |order| && Trouble(stored, parts, order[..i]).Some?
    ensures Trouble(stored, parts, order) == Trouble(stored, parts, order[..i])
    decreases |order| - i
  {
    if i == |order| {
      assert order[..i] == order;
    } else {
      TroubleNext(stored, parts, order, i);
      TroubleStays(stored, parts, order, i + 1);
    }
  }

  lemma {:induction false} NothingLacking(stored: set<Digest>, chunks: seq<Digest>)
    ensures Lacking(stored, chunks) == None <==> Elems(chunks) <= stored
  {
    if chunks != [] {
      NothingLacking(stored, chunks[..|chunks| - 1]);
      ElemsNext(chunks, |chunks| - 1);
      assert chunks[..|chunks|] == chunks;
    }
  }

  /** It is the first chunk that is not there. */
  lemma {:induction false} LackingIsFirst(stored: set<Digest>, chunks: seq<Digest>, i: nat)
    requires i < |chunks| && chunks[i] !in stored && forall j :: 0 <= j < i ==> chunks[j] in stored
    ensures Lacking(stored, chunks) == Some(MissingChunk(chunks[i]))
  {
    var last := |chunks| - 1;
    NothingLacking(stored, chunks[..last]);
    if i < last {
      LackingIsFirst(stored, chunks[..last], i);
    }
  }

  lemma {:induction false} LackingIsOfAChunk(stored: set<Digest>, chunks: seq<Digest>)
    ensures Lacking(stored, chunks).Some? ==> Lacking(stored, chunks).value.MissingChunk?
  {
    if chunks != [] {
      LackingIsOfAChunk(stored, chunks[..|chunks| - 1]);
    }
  }

  /** Nothing keeps an upload from completing exactly when every part named was
      uploaded and each of its chunks is still there. */
  lemma {:induction false} NoTroubleExactly(stored: set<Digest>, parts: map<nat, Part>, order: seq<nat>)
    ensures Trouble(stored, parts, order) == None <==> forall i :: 0 <= i < |order| ==> Intact(stored, parts, order[i])
  {
    if order != [] {
      var most, last := order[..|order| - 1], order[|order| - 1];
      NoTroubleExactly(stored, parts, most);
      assert forall i :: 0 <= i < |most| ==> most[i] == order[i];
      if last in parts {
        NothingLacking(stored, parts[last].chunks);
      }
    }
  }

  ghost predicate Intact(stored: set<Digest>, parts: map<nat, Part>, n: nat)
  {
    n in parts && forall h :: h in parts[n].chunks ==> h in stored
  }

  /** Else it fails on the first part that was not uploaded or has lost a chunk, by
      the first it has lost. */
  lemma TroubleIsFirst(stored: set<Digest>, parts: map<nat, Part>, order: seq<nat>, i: nat, k: nat)
    requires i < |order| && forall j :: 0 <= j < i ==> Intact(stored, parts, order[j])
    ensures order[i] !in parts ==> Trouble(stored, parts, order) == Some(InvalidPart(order[i]))
    ensures order[i] in parts && k < |parts[order[i]].chunks| && parts[order[i]].chunks[k] !in stored
            && (forall j :: 0 <= j < k ==> parts[order[i]].chunks[j] in stored) ==>
              Trouble(stored, parts, order) == Some(MissingChunk(parts[order[i]].chunks[k]))
  {
    hide Trouble;
    NoTroubleExactly(stored, parts, order[..i]);
    TroubleNext(stored, parts, order, i);
    if order[i] in parts && k < |parts[order[i]].chunks| && parts[order[i]].chunks[k] !in stored
       && forall j :: 0 <= j < k ==> parts[order[i]].chunks[j] in stored {
      LackingIsFirst(stored, parts[order[i]].chunks, k);
    }
    if Trouble(stored, parts, order[..i + 1]).Some? {
      TroubleStays(stored, parts, order, i + 1);
    }
  }

  /** When completing an upload goes through, and what it fails by if not. */
  lemma CompletesExactly(w: World, s: Holdings, up: Upload, used: seq<nat>, now: Bytes)
    ensures Completion(w, s, up, used, now).Ok?
            <==> (forall i :: 0 <= i < |used| ==> Intact(s.stored, up.parts, used[i])) && IsDirectoryName(up.key.bucket)
    ensures (forall i :: 0 <= i < |used| ==> Intact(s.stored, up.parts, used[i])) && !IsDirectoryName(up.key.bucket) ==>
              Completion(w, s, up, used, now) == Err(BadBucket)
    ensures Trouble(s.stored, up.parts, used).Some? ==>
              Completion(w, s, up, used, now) == Err(Trouble(s.stored, up.parts, used).value)
  {
    hide Trouble, Completed, ManifestOf;
    NoTroubleExactly(s.stored, up.parts, used);
    GoodBucketExactly(up.key.bucket);
  }

  /** When importing a manifest goes through, and what turns it away if not. */
  lemma ImportsExactly(w: World, stored: set<Digest>, key: Key, m: Manifest, locked: bool)
    ensures var out := ImportOutcome(w, stored, key, m, locked);
            var there := forall i :: 0 <= i < |m.chunks| ==> m.chunks[i] in stored;
            var fits := (m.merkleRoot == None || m.merkleRoot == Some(Merkle.RootOf(w.hash, m.chunks)))
                        && w.hash(w.json(m)) == m.objectId;
            && (out == Err(Locked) <==> locked)
            && (out == Ok(m.objectId) <==> !locked && there && fits && IsDirectoryName(key.bucket))
            && (out == Err(Mismatch(m.objectId)) <==> !locked && there && !fits)
            && (out == Err(BadBucket) <==> !locked && there && fits && !IsDirectoryName(key.bucket))
    ensures forall i :: 0 <= i < |m.chunks| && !locked && m.chunks[i] !in stored
                        && (forall j :: 0 <= j < i ==> m.chunks[j] in stored) ==>
              ImportOutcome(w, stored, key, m, locked) == Err(MissingChunk(m.chunks[i]))
  {
    hide Lacking, Merkle.RootOf;
    NothingLacking(stored, m.chunks);
    LackingIsOfAChunk(stored, m.chunks);
    GoodBucketExactly(key.bucket);
    forall i | 0 <= i < |m.chunks| && !locked && m.chunks[i] !in stored
               && forall j :: 0 <= j < i ==> m.chunks[j] in stored
      ensures ImportOutcome(w, stored, key, m, locked) == Err(MissingChunk(m.chunks[i]))
    {
      LackingIsFirst(stored, m.chunks, i);
    }
  }

  lemma LackingNext(stored: set<Digest>, chunks: seq<Digest>, i: nat)
    requires i < |chunks|
    ensures Lacking(stored, chunks[..i + 1])
         == if Lacking(stored, chunks[..i]).Some? || chunks[i] in stored then Lacking(stored, chunks[..i])
            else Some(MissingChunk(chunks[i]))
  {
    assert chunks[..i + 1][..i] == chunks[..i];
  }

  lemma {:induction false} LackingStays(stored: set<Digest>, chunks: seq<Digest>, i: nat)
    requires i <= |chunks| && Lacking(stored, chunks[..i]).Some?
    ensures Lacking(stored, chunks) == Lacking(stored, chunks[..i])
    decreases |chunks| - i
  {
    if i == |chunks| {
      assert chunks[..i] == chunks;
    } else {
      LackingNext(stored, chunks, i);
      LackingStays(stored, chunks, i + 1);
    }
  }

  class Engine {
    const w: World
    const chunks: ChunkStore
    const manifests: ManifestStore
    const pointers: PointerStore
    var uploads: map<nat, Upload>
    var counter: nat
    var stats: GcStats

    ghost function Held(): Holdings
      reads chunks`known, chunks`files, chunks`clash, manifests`files, manifests`clash
    {
      Holdings(chunks.known, chunks.files.Keys, manifests.files, chunks.clash.None? && manifests.clash.None?)
    }

    /** The parts of an object store fit together. */
    ghost predicate Wired()
      reads `uploads, `counter, chunks`known, chunks`files, chunks`clash, manifests, pointers
    {
      && chunks.Valid() && manifests.Valid() && pointers.Valid() && Lawful(w)
      && chunks.hash == w.hash && manifests.hash == w.hash && manifests.json == w.json
      && (forall u :: u in uploads ==> u < counter && !uploads[u].policy.codec.Unsupported?)
    }

    /** A staged part is what its chunks decode to. */
    ghost predicate PartSound(c: Codec, p: Part)
      reads chunks`known
    {
      var b := Content(w, c, chunks.known, p.chunks);
      b.Some? && p.size == |b.value| && p.etag == w.sha256(b.value)
    }

    /** Every listed version can be read, every staged part is sound. */
    ghost predicate Sound()
      reads `uploads, `counter, chunks`known, chunks`files, chunks`clash, manifests, pointers
    {
      && (forall k :: AllReadable(w, Held(), pointers.Versions(k)))
      && (forall u, n :: u in uploads && n in uploads[u].parts ==>
            PartSound(uploads[u].policy.codec, uploads[u].parts[n]))
    }

    ghost predicate Valid()
      reads `uploads, `counter, chunks`known, chunks`files, chunks`clash, manifests, pointers
    {
      Wired() && (Held().clear ==> Sound())
    }

    /** What a caller sees under a key: the bytes of every version, oldest first. */
    ghost function Objects(k: Key): seq<Bytes>
      reads chunks`known, chunks`files, chunks`clash, manifests, pointers
    {
      VersionBytes(w, Held(), pointers.Versions(k))
    }

    constructor (w: World)
      requires Lawful(w)
      ensures Valid() && this.w == w && uploads == map[] && counter == 0 && forall k :: Objects(k) == []
    {
      this.w := w;
      chunks := new ChunkStore(w.hash);
      manifests := new ManifestStore(w.hash, w.json);
      pointers := new PointerStore();
      uploads, counter, stats := map[], 0, GcStats(0, 0, 0, 0);
    }

    /** Encode, store and pin one piece. */
    method StoreChunk(c: Codec, piece: Bytes) returns (h: Digest, size: nat)
      requires chunks.Valid() && chunks.hash == w.hash && Lawful(w) && !c.Unsupported?
      modifies chunks
      ensures chunks.Valid() && h == w.hash(Encode(w, c, piece)) && size == |Encode(w, c, piece)|
      ensures Extends(old(chunks.known), chunks.known) && old(chunks.files).Keys <= chunks.files.Keys
      ensures h in chunks.files && h in chunks.known && chunks.pinned == old(chunks.pinned) + {h}
      ensures chunks.condemned == old(chunks.condemned)
      ensures chunks.clash.None? ==> old(chunks.clash).None? && Decode(w, c, chunks.known[h]) == Some(piece)
    {
      var encoded := Encode(w, c, piece);
      DecodeInvertsEncode(w, c, piece);
      h := chunks.Put(encoded);
      chunks.Pin(h);
      size := |encoded|;
    }

    /** The loop of both write paths: cut pieces come in, from a stream that may
        break, under a limit if there is one. On failure the pins come off. */
    method StorePieces(c: Codec, pieces: seq<Bytes>, breaks: Option<nat>, limit: Option<nat>)
      returns (r: Result<Stored>)
      requires chunks.Valid() && chunks.hash == w.hash && Lawful(w) && !c.Unsupported?
      modifies chunks
      ensures chunks.Valid() && chunks.condemned == old(chunks.condemned)
      ensures Extends(old(chunks.known), chunks.known) && old(chunks.files).Keys <= chunks.files.Keys
      ensures chunks.clash.None? ==> old(chunks.clash).None?
      ensures r == Received(w, c, pieces, breaks, limit)
      ensures r.Ok? ==> chunks.pinned == old(chunks.pinned) + Elems(r.value.chunks)
      ensures r.Ok? ==> Elems(r.value.chunks) <= chunks.files.Keys
      ensures r.Err? ==> chunks.pinned == old(chunks.pinned) - Elems(Addresses(w, c, Accepted(pieces, breaks, limit)))
      ensures r.Ok? && chunks.clash.None? ==> Content(w, c, chunks.known, r.value.chunks) == Some(Joined(pieces))
    {
      hide Lawful, Joined, Addresses, EncodedSize, Fitting, Content, Decode, Encode, Elems, Extends, ChunkStore.Valid;
      var out, fed := Stored([], 0, 0, w.sha256([])), [];
      var arrived := Arrived(pieces, breaks);
      var i := 0;
      BeginStream(w, c, chunks.known, arrived, limit);
      while i < |arrived|
        invariant i <= |arrived| && chunks.Valid() && chunks.condemned == old(chunks.condemned)
        invariant Extends(old(chunks.known), chunks.known) && old(chunks.files).Keys <= chunks.files.Keys
        invariant fed == Joined(arrived[..i]) && out.size == |fed| && Fitting(arrived[..i], limit) == i
        invariant out.chunks == Addresses(w, c, arrived[..i]) && out.storedSize == EncodedSize(w, c, arrived[..i])
        invariant chunks.pinned == old(chunks.pinned) + Elems(out.chunks) && Elems(out.chunks) <= chunks.files.Keys
        invariant chunks.clash.None? ==> old(chunks.clash).None? && Content(w, c, chunks.known, out.chunks) == Some(fed)
      {
        NextPiece(w, c, arrived, i, limit);
        if limit.Some? && |fed| + |arrived[i]| > limit.value {
          chunks.Unpin(out.chunks);
          return Err(TooLarge(limit.value));
        }
        fed := fed + arrived[i];
        ghost var known := chunks.known;
        var h, n := StoreChunk(c, arrived[i]);
        if chunks.clash.None? {
          ContentExtends(w, c, known, chunks.known, out.chunks);
          ContentNext(w, c, chunks.known, out.chunks, h);
        }
        ExtendsMore(old(chunks.known), known, chunks.known);
        ElemsSnoc(out.chunks, h);
        out := out.(chunks := out.chunks + [h], storedSize := out.storedSize + n, size := |fed|);
        i := i + 1;
      }
      FittingAll(arrived, limit);
      assert arrived[..i] == arrived;
      if breaks.Some? {
        chunks.Unpin(out.chunks);
        return Err(BrokenUpload);
      }
      r := Ok(out.(sha256 := w.sha256(fed)));
    }

    /** Storing more chunks and manifests changes no version. */
    twostate lemma MoreIsStored()
      requires old(Sound()) && Grown(old(Held()), Held())
      requires pointers.files == old(pointers.files) && uploads == old(uploads)
      ensures forall k :: AllReadable(w, Held(), pointers.Versions(k)) && Objects(k) == old(Objects(k))
      ensures forall u, n :: u in uploads && n in uploads[u].parts ==>
                PartSound(uploads[u].policy.codec, uploads[u].parts[n])
      ensures Sound()
    {
      hide Content, AllReadable, VersionBytes, Honest;
      var was, is' := old(Held()), Held();
      forall k
        ensures AllReadable(w, is', pointers.Versions(k)) && Objects(k) == old(Objects(k))
      {
        assert pointers.Versions(k) == old(pointers.Versions(k));
        GrownKeepsVersions(w, was, is', pointers.Versions(k));
      }
      forall u, n | u in uploads && n in uploads[u].parts
        ensures PartSound(uploads[u].policy.codec, uploads[u].parts[n])
      {
        assert old(PartSound(uploads[u].policy.codec, uploads[u].parts[n]));
        ContentExtends(w, uploads[u].policy.codec, was.known, is'.known, uploads[u].parts[n].chunks);
      }
    }

    method AdoptManifest(m: Manifest) returns (id: Digest)
      requires Valid()
      modifies manifests
      ensures Valid() && id == w.hash(w.json(m)) && (Held().clear ==> old(Held()).clear)
      ensures Held().clear ==> id in manifests.files && manifests.files[id] == m.(objectId := id)
      ensures Held().clear ==> forall k :: Objects(k) == old(Objects(k))
    {
      hide Content, VersionBytes, AllReadable, PartSound, Lawful;
      id := manifests.Put(m);
      if Held().clear {
        MoreIsStored();
      }
    }

    /** Records what was stored as `data`. */
    method StoreManifest(contentType: Bytes, policy: Policy, s: Stored, now: Bytes, ghost data: Bytes)
      returns (id: Digest)
      requires Valid() && Elems(s.chunks) <= chunks.files.Keys
      requires Held().clear ==> Content(w, policy.codec, chunks.known, s.chunks) == Some(data)
      requires Held().clear ==> s.size == |data| && s.sha256 == w.sha256(data)
      modifies manifests
      ensures Valid() && id == w.hash(w.json(ManifestOf(w, s, contentType, policy, now)))
      ensures Held().clear ==> old(Held()).clear && Readable(w, Held(), id) && BytesOf(w, Held(), id) == data
      ensures Held().clear ==> id in manifests.files
      ensures Held().clear ==>
                var m := manifests.files[id];
                && m.version == 1 && m.objectId == id && m.createdAt == now && m.contentType == contentType
                && m.size == s.size && m.sha256 == s.sha256 && m.chunks == s.chunks && m.storedSize == s.storedSize
                && m.codec == policy.codec && m.exact == policy.exact && m.policy == policy.snapshot
                && m.merkleRoot == Some(Merkle.RootOf(w.hash, s.chunks))
      ensures Held().clear ==> forall k :: Objects(k) == old(Objects(k))
    {
      hide Content, Objects, Sound, Wired, Merkle.RootOf;
      var root := Merkle.Root(w.hash, s.chunks);
      var m := Manifest(MANIFEST_VERSION, w.hash([]), now, s.size, s.sha256, contentType, policy.codec, policy.exact,
                        s.storedSize, s.chunks, Some(root), policy.snapshot);
      id := AdoptManifest(m);
    }

    /** Moves a key's pointer. Every version stays readable exactly when the new one
        is. */
    method SetPointer(key: Key, id: Digest) returns (r: Result<Digest>)
      requires Valid()
      modifies pointers
      ensures Wired() && r == WriteOutcome(key, id) && (r.Err? ==> pointers.files == old(pointers.files))
      ensures Held().clear ==> (Sound() <==> r.Err? || Readable(w, Held(), id))
      ensures Held().clear && r.Ok? ==> Objects(key) == old(Objects(key)) + [BytesOf(w, Held(), id)]
      ensures Held().clear ==> forall k :: k != key || r.Err? ==> Objects(k) == old(Objects(k))
    {
      hide Sound, Objects, BytesOf, Lawful, GoodBucket, Readable, ChunkStore.Valid, ManifestStore.Valid,
        PointerStore.Versions, OthersKept, Utf8, Ended;
      var done := pointers.Set(key, id);
      if done.Err? {
        if Held().clear {
          SameListings();
        }
        return Err(done.error);
      }
      r := Ok(id);
      if Held().clear {
        OtherFilesKept(key);
        VersionListed(key);
      }
    }

    /** The common end of every write: manifest first, pointer last. */
    method FinalizeWrite(key: Key, contentType: Bytes, policy: Policy, s: Stored, now: Bytes, ghost data: Bytes)
      returns (r: Result<Digest>)
      requires Valid() && Elems(s.chunks) <= chunks.files.Keys
      requires Held().clear ==> Content(w, policy.codec, chunks.known, s.chunks) == Some(data)
      requires Held().clear ==> s.size == |data| && s.sha256 == w.sha256(data)
      modifies manifests, pointers
      ensures Valid() && (Held().clear ==> old(Held()).clear)
      ensures r == WriteOutcome(key, w.hash(w.json(ManifestOf(w, s, contentType, policy, now))))
      ensures Held().clear && r.Ok? ==> r.value in manifests.files && Objects(key) == old(Objects(key)) + [data]
      ensures Held().clear && r.Ok? ==>
                var m := manifests.files[r.value];
                && m.version == 1 && m.objectId == r.value && m.createdAt == now && m.contentType == contentType
                && m.size == s.size && m.sha256 == s.sha256 && m.chunks == s.chunks && m.storedSize == s.storedSize
                && m.codec == policy.codec && m.exact == policy.exact && m.policy == policy.snapshot
                && m.merkleRoot == Some(Merkle.RootOf(w.hash, s.chunks))
      ensures Held().clear ==> forall k :: k != key || r.Err? ==> Objects(k) == old(Objects(k))
    {
      hide Content, VersionBytes, BytesOf, Readable, Lawful, ManifestOf, GoodBucket, Wired, Sound;
      var id := StoreManifest(contentType, policy, s, now, data);
      r := SetPointer(key, id);
    }

    /** A stream is stored and pinned for as long as the caller holds it. */
    method Receive(c: Codec, pieces: seq<Bytes>, breaks: Option<nat>, limit: Option<nat>) returns (r: Result<Stored>)
      requires Valid() && !c.Unsupported?
      modifies chunks
      ensures Valid() && chunks.condemned == old(chunks.condemned) && r == Received(w, c, pieces, breaks, limit)
      ensures r.Ok? ==> chunks.pinned == old(chunks.pinned) + Elems(r.value.chunks)
      ensures r.Ok? ==> Elems(r.value.chunks) <= chunks.files.Keys
      ensures r.Err? ==> chunks.pinned == old(chunks.pinned) - Elems(Addresses(w, c, Accepted(pieces, breaks, limit)))
      ensures r.Ok? && Held().clear ==> Content(w, c, chunks.known, r.value.chunks) == Some(Joined(pieces))
      ensures Held().clear ==> old(Held()).clear && forall k :: Objects(k) == old(Objects(k))
    {
      hide Content, VersionBytes, Lawful, Joined, Addresses, EncodedSize, StreamError, Accepted, Elems;
      r := StorePieces(c, pieces, breaks, limit);
      if Held().clear {
        MoreIsStored();
      }
    }

    method Put(key: Key, data: Bytes, contentType: Bytes, policy: Policy, locked: bool, now: Bytes)
      returns (r: Result<Digest>)
      requires Valid()
      modifies chunks, manifests, pointers
      ensures Valid() && (Held().clear ==> old(Held()).clear)
      ensures match Refusal(key, locked, policy.codec)
              case Some(e) => r == Err(e)
              case None => r == WriteOutcome(key, ObjectId(w, w.cut(data), contentType, policy, now))
      ensures chunks.pinned == old(chunks.pinned) - if Refusal(key, locked, policy.codec).Some? then {}
                                                    else Elems(Addresses(w, policy.codec, w.cut(data)))
      ensures Held().clear && r.Ok? ==> r.value in manifests.files && Objects(key) == old(Objects(key)) + [data]
      ensures Held().clear && r.Ok? ==>
                var m := manifests.files[r.value];
                && m.version == 1 && m.objectId == r.value && m.createdAt == now && m.contentType == contentType
                && m.size == |data| && m.sha256 == w.sha256(data)
                && m.codec == policy.codec && m.exact == policy.exact && m.policy == policy.snapshot
                && AddressOf(w, m.chunks, m.storedSize, Coded(w, policy.codec, w.cut(data)))
                && m.merkleRoot == Some(Merkle.RootOf(w.hash, m.chunks))
      ensures Held().clear ==> forall k :: k != key || r.Err? ==> Objects(k) == old(Objects(k))
    {
      hide Content, VersionBytes, GoodBucket, GoodKey, Joined, Addresses, EncodedSize, ManifestOf, Elems, Sound,
        ChunkStore.Valid, ManifestStore.Valid, PointerStore.Valid;
      var refused := Refusal(key, locked, policy.codec);
      if refused.Some? {
        return Err(refused.value);
      }
      assert Joined(w.cut(data)) == data;
      var stored := Receive(policy.codec, w.cut(data), None, None);
      r := FinalizeWrite(key, contentType, policy, stored.value, now, data);
      CodedIsAddressed(w, policy.codec, w.cut(data));
      chunks.Unpin(stored.value.chunks);
    }

    /** The limit is checked before a piece is stored, so a stream is refused
        exactly when it breaks or is too large; the id is the one `Put` would give the
        same bytes at the same moment. */
    method PutStream(key: Key, data: Bytes, breaks: Option<nat>, max: nat, contentType: Bytes, policy: Policy,
                     locked: bool, now: Bytes)
      returns (r: Result<Digest>)
      requires Valid()
      modifies chunks, manifests, pointers
      ensures Valid() && (Held().clear ==> old(Held()).clear)
      ensures match Refusal(key, locked, policy.codec)
              case Some(e) => r == Err(e)
              case None =>
                if breaks.None? && |data| <= max
                then r == WriteOutcome(key, ObjectId(w, w.cut(data), contentType, policy, now))
                else r == Err(StreamError(w.cut(data), breaks, Some(max)).value)
      ensures chunks.pinned == old(chunks.pinned)
                             - if Refusal(key, locked, policy.codec).Some? then {}
                               else Elems(Addresses(w, policy.codec, Accepted(w.cut(data), breaks, Some(max))))
      ensures Held().clear && r.Ok? ==> r.value in manifests.files && Objects(key) == old(Objects(key)) + [data]
      ensures Held().clear && r.Ok? ==>
                var m := manifests.files[r.value];
                && m.version == 1 && m.objectId == r.value && m.createdAt == now && m.contentType == contentType
                && m.size == |data| && m.sha256 == w.sha256(data)
                && m.codec == policy.codec && m.exact == policy.exact && m.policy == policy.snapshot
                && AddressOf(w, m.chunks, m.storedSize, Coded(w, policy.codec, w.cut(data)))
                && m.merkleRoot == Some(Merkle.RootOf(w.hash, m.chunks))
      ensures Held().clear ==> forall k :: k != key || r.Err? ==> Objects(k) == old(Objects(k))
    {
      hide Content, VersionBytes, GoodBucket, GoodKey, Joined, Addresses, EncodedSize, ManifestOf, Elems, Sound,
        ChunkStore.Valid, ManifestStore.Valid, PointerStore.Valid;
      var refused := Refusal(key, locked, policy.codec);
      if refused.Some? {
        return Err(refused.value);
      }
      assert Joined(w.cut(data)) == data;
      AcceptedAll(w.cut(data), breaks, Some(max));
      var stored := Receive(policy.codec, w.cut(data), breaks, Some(max));
      if stored.Err? {
        return Err(stored.error);
      }
      r := FinalizeWrite(key, contentType, policy, stored.value, now, data);
      CodedIsAddressed(w, policy.codec, w.cut(data));
      chunks.Unpin(stored.value.chunks);
    }

    // ---- multipart uploads ----

    method CreateMultipart(key: Key, contentType: Bytes, policy: Policy, locked: bool) returns (r: Result<nat>)
      requires Valid()
      modifies this
      ensures Valid()
      ensures match Refusal(key, locked, policy.codec)
              case Some(e) => r == Err(e) && uploads == old(uploads) && counter == old(counter)
              case None => r == Ok(old(counter)) && r.value !in old(uploads) && counter == old(counter) + 1 &&
                           uploads == old(uploads)[r.value := Upload(key, contentType, policy, map[], [])]
    {
      hide AllReadable, ChunkStore.Valid, ManifestStore.Valid, PointerStore.Valid, GoodKey;
      var refused := Refusal(key, locked, policy.codec);
      if refused.Some? {
        return Err(refused.value);
      }
      uploads, counter := uploads[counter := Upload(key, contentType, policy, map[], [])], counter + 1;
      r := Ok(counter - 1);
    }

    method UploadPart(upload: nat, number: nat, data: Bytes, breaks: Option<nat>, max: nat) returns (r: Result<Part>)
      requires Valid()
      modifies `uploads, chunks
      ensures Valid() && (Held().clear ==> old(Held()).clear)
      ensures r.Ok? <==> upload in old(uploads) && breaks.None? && |data| <= max
      ensures r.Err? ==> uploads == old(uploads)
      ensures upload !in old(uploads) ==> r == Err(NoSuchUpload(upload)) && chunks.pinned == old(chunks.pinned)
      ensures r.Err? && upload in old(uploads) ==>
                && Some(r.error) == StreamError(w.cut(data), breaks, Some(max))
                && chunks.pinned == old(chunks.pinned)
                     - Elems(Addresses(w, old(uploads)[upload].policy.codec, Accepted(w.cut(data), breaks, Some(max))))
      ensures r.Ok? ==> var up := old(uploads)[upload];
                        && r.value == PartOf(StoredOf(w, up.policy.codec, w.cut(data)))
                        && r.value.size == |data| && r.value.etag == w.sha256(data)
                        && AddressOf(w, r.value.chunks, r.value.storedSize, Coded(w, up.policy.codec, w.cut(data)))
                        && uploads == old(uploads)[upload := up.(parts := up.parts[number := r.value],
                                                                 pinned := up.pinned + r.value.chunks)]
                        && chunks.pinned == old(chunks.pinned) + Elems(r.value.chunks)
      ensures r.Ok? && Held().clear ==>
                Content(w, old(uploads)[upload].policy.codec, chunks.known, r.value.chunks) == Some(data)
      ensures Held().clear ==> forall k :: Objects(k) == old(Objects(k))
    {
      hide Content, Joined, AllReadable, Addresses, EncodedSize, Elems,
        ChunkStore.Valid, ManifestStore.Valid, PointerStore.Valid;
      if upload !in uploads {
        return Err(NoSuchUpload(upload));
      }
      var up := uploads[upload];
      assert Joined(w.cut(data)) == data;
      var stored := Receive(up.policy.codec, w.cut(data), breaks, Some(max));
      if stored.Err? {
        return Err(stored.error);
      }
      var part := PartOf(stored.value);
      CodedIsAddressed(w, up.policy.codec, w.cut(data));
      uploads := uploads[upload := up.(parts := up.parts[number := part], pinned := up.pinned + part.chunks)];
      r := Ok(part);
    }

    /** Reads a run of chunks back: all of them decoded, or the first that is not
        there. Of a clear store's known chunks every one decodes. */
    method ReadChunks(c: Codec, hashes: seq<Digest>) returns (r: Result<Bytes>)
      requires Wired()
      ensures Held().clear && Content(w, c, chunks.known, hashes).Some? ==>
                r == match Lacking(Held().stored, hashes)
                     case Some(e) => Err(e)
                     case None => Ok(Content(w, c, chunks.known, hashes).value)
      ensures r.Ok? ==> Elems(hashes) <= chunks.files.Keys
    {
      hide Lawful, Decode, ManifestStore.Valid, PointerStore.Valid;
      var out, i := [], 0;
      ElemsNone(hashes);
      ghost var readable := Content(w, c, chunks.known, hashes).Some?;
      while i < |hashes|
        invariant i <= |hashes| && Elems(hashes[..i]) <= chunks.files.Keys
        invariant Held().clear && readable ==> Lacking(Held().stored, hashes[..i]) == None
        invariant Held().clear && readable ==> Content(w, c, chunks.known, hashes[..i]) == Some(out)
      {
        LackingNext(Held().stored, hashes, i);
        if readable {
          ContentPrefix(w, c, chunks.known, hashes, i);
        }
        ElemsNext(hashes, i);
        var got := chunks.Get(hashes[i]);
        var stored := Required(got, MissingChunk(hashes[i]));
        if stored.Err? {
          if Held().clear && readable {
            LackingStays(Held().stored, hashes, i + 1);
          }
          return Err(stored.error);
        }
        var piece := Decode(w, c, stored.value);
        if piece.None? {
          return Err(Undecodable);
        }
        out, i := out + piece.value, i + 1;
      }
      assert hashes[..i] == hashes;
      r := Ok(out);
    }

    /** Walks the parts to be used: their chunks gathered, their bytes read back
        and digested as one. */
    method GatherParts(c: Codec, parts: map<nat, Part>, used: seq<nat>) returns (r: Result<Stored>)
      requires Wired() && (Held().clear ==> forall n :: n in parts ==> PartSound(c, parts[n]))
      ensures r.Ok? ==> Names(used, parts) && Elems(r.value.chunks) <= chunks.files.Keys
      ensures Held().clear ==>
                match Trouble(Held().stored, parts, used)
                case Some(e) => r == Err(e)
                case None => Names(used, parts) &&
                             r == Ok(Completed(w, c, chunks.known, parts, used)) &&
                             Content(w, c, chunks.known, r.value.chunks)
                               == Some(PartBytes(w, c, chunks.known, parts, used))
    {
      hide Content, Lacking, PartChunks, StoredSizes, PartBytes, Trouble, Wired, Elems;
      var out, fed, i := Stored([], 0, 0, w.sha256([])), [], 0;
      NoParts(w, c, chunks.known, parts, used, Held().stored);
      while i < |used|
        invariant i <= |used| && Names(used[..i], parts)
        invariant out.chunks == PartChunks(parts, used[..i]) && Elems(out.chunks) <= chunks.files.Keys
        invariant Held().clear ==> Trouble(Held().stored, parts, used[..i]) == None
        invariant Held().clear ==> fed == PartBytes(w, c, chunks.known, parts, used[..i]) && out.size == |fed|
        invariant Held().clear ==> Content(w, c, chunks.known, out.chunks) == Some(fed)
        invariant Held().clear ==> out.storedSize == StoredSizes(parts, used[..i])
      {
        TroubleNext(Held().stored, parts, used, i);
        if used[i] !in parts {
          if Held().clear {
            TroubleStays(Held().stored, parts, used, i + 1);
          }
          return Err(InvalidPart(used[i]));
        }
        var part := parts[used[i]];
        var bytes := ReadChunks(c, part.chunks);
        if bytes.Err? {
          if Held().clear {
            assert PartSound(c, part);
            TroubleStays(Held().stored, parts, used, i + 1);
          }
          return Err(bytes.error);
        }
        if Held().clear {
          assert PartSound(c, part);
          PartNext(w, c, chunks.known, parts, used, i);
        }
        PartChunksNext(parts, used, i);
        ElemsConcat(out.chunks, part.chunks);
        fed := fed + bytes.value;
        out := out.(chunks := out.chunks + part.chunks, storedSize := out.storedSize + part.storedSize,
                    size := out.size + part.size);
        i := i + 1;
      }
      assert used[..i] == used;
      r := Ok(out.(sha256 := w.sha256(fed)));
    }

    /** The upload is over whatever happens, and its pins come off. It completes
        unless a part it names was never uploaded or a chunk has gone, and then the
        object is its parts, in the order named. */
    method CompleteMultipart(upload: nat, order: seq<nat>, now: Bytes) returns (r: Result<Digest>, ghost used: seq<nat>)
      requires Valid()
      modifies `uploads, chunks`pinned, manifests, pointers
      ensures Valid() && (Held().clear ==> old(Held()).clear) && uploads == old(uploads) - {upload}
      ensures chunks.pinned
           == old(chunks.pinned) - if upload in old(uploads) then Elems(old(uploads)[upload].pinned) else {}
      ensures upload !in old(uploads) ==> r == Err(NoSuchUpload(upload))
      ensures upload in old(uploads) ==> Uses(order, old(uploads)[upload].parts, used)
      ensures upload in old(uploads) && Held().clear ==>
                r == Completion(w, Held(), old(uploads)[upload], used, now)
      ensures r.Ok? && Held().clear ==>
                upload in old(uploads) && r.value in manifests.files && Names(used, old(uploads)[upload].parts)
      ensures r.Ok? && Held().clear ==>
                var up := old(uploads)[upload];
                var data := PartBytes(w, up.policy.codec, chunks.known, up.parts, used);
                var m := manifests.files[r.value];
                && Objects(up.key) == old(Objects(up.key)) + [data]
                && m.version == 1 && m.objectId == r.value && m.createdAt == now && m.contentType == up.contentType
                && m.size == |data| && m.sha256 == w.sha256(data)
                && m.codec == up.policy.codec && m.exact == up.policy.exact && m.policy == up.policy.snapshot
                && m.chunks == PartChunks(up.parts, used) && m.storedSize == StoredSizes(up.parts, used)
                && m.merkleRoot == Some(Merkle.RootOf(w.hash, m.chunks))
      ensures Held().clear ==>
                forall k :: r.Err? || k != old(uploads)[upload].key ==> Objects(k) == old(Objects(k))
    {
      hide Content, Objects, WriteOutcome, ManifestOf, Elems, Sound, Trouble, PartChunks, StoredSizes, PartBytes, Uses,
        ChunkStore.Valid, ManifestStore.Valid, PointerStore.Valid, Lawful;
      if upload !in uploads {
        return Err(NoSuchUpload(upload)), [];
      }
      var up := TakeUpload(upload);
      var taken := PartsToUse(order, up.parts);
      used := taken;
      var gathered := GatherParts(up.policy.codec, up.parts, taken);
      if gathered.Err? {
        chunks.Unpin(up.pinned);
        return Err(gathered.error), used;
      }
      ghost var bytes := PartBytes(w, up.policy.codec, chunks.known, up.parts, taken);
      r := FinalizeWrite(up.key, up.contentType, up.policy, gathered.value, now, bytes);
      chunks.Unpin(up.pinned);
    }

    /** Out of the map first, so no second completion can commit it. */
    method TakeUpload(upload: nat) returns (up: Upload)
      requires Valid() && upload in uploads
      modifies `uploads
      ensures Valid() && up == old(uploads)[upload] && uploads == old(uploads) - {upload}
      ensures Held().clear ==> forall n :: n in up.parts ==> PartSound(up.policy.codec, up.parts[n])
    {
      hide AllReadable, PartSound, ChunkStore.Valid, ManifestStore.Valid, PointerStore.Valid, Lawful;
      up := uploads[upload];
      uploads := uploads - {upload};
    }

    /** Gives up an upload; an unknown one is no error. */
    method AbortMultipart(upload: nat)
      requires Valid()
      modifies `uploads, chunks`pinned
      ensures Valid() && uploads == old(uploads) - {upload}
      ensures chunks.pinned
           == old(chunks.pinned) - if upload in old(uploads) then Elems(old(uploads)[upload].pinned) else {}
      ensures forall k :: Objects(k) == old(Objects(k))
    {
      hide AllReadable, ChunkStore.Valid, ManifestStore.Valid, PointerStore.Valid, Elems;
      if upload in uploads {
        var up := uploads[upload];
        uploads := uploads - {upload};
        chunks.Unpin(up.pinned);
      }
    }

    // ---- reads ----

    method ReadObject(id: Digest) returns (r: Result<Bytes>)
      requires Valid()
      ensures id !in manifests.files ==> r == Err(DanglingPointer(id))
      ensures !manifests.Supported(id) ==> r == Err(NewerManifest(manifests.files[id].version, MANIFEST_VERSION))
      ensures Held().clear && id in manifests.files && manifests.Supported(id)
              && Honest(w, chunks.known, manifests.files[id]) ==>
                r == match Lacking(Held().stored, manifests.files[id].chunks)
                          case Some(e) => Err(e)
                          case None => Ok(BytesOf(w, Held(), id))
      ensures r.Ok? ==> id in manifests.files
      ensures r.Ok? && manifests.files[id].exact ==> w.sha256(r.value) == manifests.files[id].sha256
    {
      hide Content, Lacking, AllReadable, ChunkStore.Valid, PointerStore.Valid, Lawful;
      var got := manifests.Get(id);
      var found := Required(got, DanglingPointer(id));
      if found.Err? {
        return Err(found.error);
      }
      var m := found.value;
      var bytes := ReadChunks(m.codec, m.chunks);
      if bytes.Ok? && m.exact && w.sha256(bytes.value) != m.sha256 {
        return Err(Mismatch(id));
      }
      r := bytes;
    }

    /** The last version, always. */
    method Get(key: Key) returns (r: Result<Option<Bytes>>)
      requires Valid()
      ensures Held().clear ==>
                r == if !GoodBucket(key.bucket) then Err(BadBucket)
                     else if Objects(key) == [] then Ok(None)
                     else Ok(Some(Objects(key)[|Objects(key)| - 1]))
    {
      hide Content, BytesOf, ChunkStore.Valid, ManifestStore.Valid, PointerStore.Valid, Lawful, GoodBucket,
        VersionBytes, AllReadable, PartSound, Utf8, Lacking, Honest;
      AllLegible(key);
      var current := pointers.Current(key);
      if current.Err? {
        return Err(current.error);
      }
      if current.value.None? {
        return Ok(None);
      }
      var id := current.value.value;
      if Held().clear {
        ListedIsRead(key, |pointers.Versions(key)| - 1);
      }
      var bytes := ReadObject(id);
      r := if bytes.Ok? then Ok(Some(bytes.value)) else Err(bytes.error);
    }

    lemma AllLegible(key: Key)
      requires pointers.Valid()
      ensures pointers.Legible(key)
    {
      hide Utf8;
    }

    /** Any version still listed reads back as its own bytes. */
    lemma ListedIsRead(key: Key, i: nat)
      requires Sound() && i < |pointers.Versions(key)|
      ensures var id := pointers.Versions(key)[i];
              && id in manifests.files && manifests.Supported(id)
              && Lacking(Held().stored, manifests.files[id].chunks) == None
              && Honest(w, chunks.known, manifests.files[id])
              && Objects(key)[i] == BytesOf(w, Held(), id)
    {
      hide BytesOf, Lacking;
      var ids := pointers.Versions(key);
      assert AllReadable(w, Held(), ids) && Readable(w, Held(), ids[i]);
      NothingLacking(Held().stored, manifests.files[ids[i]].chunks);
      VersionAt(w, Held(), ids, i);
    }

    // ---- pointers ----

    /** Listing less, or the same under other keys, leaves every version readable. */
    twostate lemma OnlyRelisted()
      requires old(Sound()) && Held() == old(Held()) && uploads == old(uploads) && Relisted()
      ensures Sound()
    {
      hide Readable, PartSound;
      forall k
        ensures AllReadable(w, Held(), pointers.Versions(k))
      {
        forall i | 0 <= i < |pointers.Versions(k)|
          ensures Readable(w, Held(), pointers.Versions(k)[i])
        {
          var id := pointers.Versions(k)[i];
          assert Lists(k, id);
          var j :| old(Lists(j, id));
          assert old(AllReadable(w, Held(), pointers.Versions(j)));
        }
      }
      forall u, n | u in uploads && n in uploads[u].parts
        ensures PartSound(uploads[u].policy.codec, uploads[u].parts[n])
      {
        assert old(PartSound(uploads[u].policy.codec, uploads[u].parts[n]));
      }
    }

    twostate predicate Relisted()
      reads pointers
    {
      forall k, id :: Lists(k, id) ==> exists j :: old(Lists(j, id))
    }

    predicate Lists(k: Key, id: Digest)
      reads pointers
    {
      id in pointers.Versions(k)
    }

    method Delete(key: Key, locked: bool) returns (r: Result<()>)
      requires Valid()
      modifies pointers
      ensures Valid()
      ensures r == if locked then Err(Locked) else if GoodBucket(key.bucket) then Ok(()) else Err(BadBucket)
      ensures r.Ok? ==> Objects(key) == []
      ensures forall k :: k != key || r.Err? ==> Objects(k) == old(Objects(k))
    {
      hide Sound, GoodBucket, Lawful, BytesOf, ChunkStore.Valid, ManifestStore.Valid;
      if locked {
        return Err(Locked);
      }
      r := pointers.Remove(key);
      if Held().clear {
        forall k, id | Lists(k, id)
          ensures old(Lists(k, id))
        {
        }
        OnlyRelisted();
      }
    }

    /** Adopts a manifest made elsewhere: refused if a chunk is missing or its root
        or id does not fit, the id only after the manifest is stored. Whether its
        chunks decode to the size and digest it states is not checked, nor that this
        build reads its form, and every version stays readable exactly when both
        hold. */
    method ImportObject(key: Key, m: Manifest, locked: bool) returns (r: Result<Digest>)
      requires Valid()
      modifies manifests, pointers
      ensures Wired() && (Held().clear ==> old(Held()).clear)
      ensures r == ImportOutcome(w, Held().stored, key, m, locked)
      ensures Held().clear ==>
                (Sound() <==> r.Err? || (Honest(w, chunks.known, m) && m.version <= MANIFEST_VERSION))
      ensures r.Ok? && Held().clear ==> Objects(key) == old(Objects(key)) + [BytesOf(w, Held(), r.value)]
      ensures Held().clear ==> forall k :: k != key || r.Err? ==> Objects(k) == old(Objects(k))
    {
      hide Sound, Wired, Honest, BytesOf, Lacking, GoodBucket, Objects, Merkle.RootOf;
      if locked {
        return Err(Locked);
      }
      var missing := FirstMissing(m.chunks);
      if missing.Some? {
        return Err(missing.value);
      }
      if m.merkleRoot.Some? {
        var root := Merkle.Root(w.hash, m.chunks);
        if m.merkleRoot.value != root {
          return Err(Mismatch(m.objectId));
        }
      }
      var id := AdoptManifest(m);
      if id != m.objectId {
        return Err(Mismatch(m.objectId));
      }
      NothingLacking(Held().stored, m.chunks);
      r := SetPointer(key, id);
    }

    method FirstMissing(hashes: seq<Digest>) returns (e: Option<Error>)
      ensures e == Lacking(chunks.files.Keys, hashes)
    {
      var i := 0;
      while i < |hashes|
        invariant i <= |hashes| && Lacking(chunks.files.Keys, hashes[..i]) == None
      {
        LackingNext(chunks.files.Keys, hashes, i);
        if !chunks.Has(hashes[i]) {
          LackingStays(chunks.files.Keys, hashes, i + 1);
          return Some(MissingChunk(hashes[i]));
        }
        i := i + 1;
      }
      assert hashes[..i] == hashes;
      e := None;
    }

    /** Lists a stored manifest again. Only its presence is checked: every version
        stays readable exactly when it is honest and its chunks are still there. */
    method RestoreVersion(key: Key, id: Digest, locked: bool) returns (r: Result<()>)
      requires Valid()
      modifies pointers
      ensures Wired() && Held() == old(Held()) && (r.Err? ==> pointers.files == old(pointers.files))
      ensures r == if locked then Err(Locked) else if id !in manifests.files then Err(DanglingPointer(id))
                   else if !manifests.Supported(id)
                   then Err(NewerManifest(manifests.files[id].version, MANIFEST_VERSION))
                   else if GoodBucket(key.bucket) then Ok(()) else Err(BadBucket)
      ensures r.Ok? && Held().clear ==> (Sound() <==> Readable(w, Held(), id))
      ensures r.Ok? && Held().clear ==> Objects(key) == old(Objects(key)) + [BytesOf(w, Held(), id)]
      ensures Held().clear ==> forall k :: k != key ==> Objects(k) == old(Objects(k))
    {
      hide Sound, BytesOf, Readable, GoodBucket, ChunkStore.Valid, Lawful, VersionBytes;
      if locked {
        return Err(Locked);
      }
      var got := manifests.Get(id);
      var found := Required(got, DanglingPointer(id));
      if found.Err? {
        return Err(found.error);
      }
      var moved := SetPointer(key, id);
      r := if moved.Ok? then Ok(()) else Err(moved.error);
    }

    /** The newest version of one key listed under another; the bytes are shared. */
    method CopyObject(from: Key, to: Key) returns (r: Result<bool>)
      requires Valid()
      modifies pointers
      ensures Valid() && r == CopyOutcome(from, to, true, true, old(pointers.Versions(from)))
      ensures r == Ok(true) && Held().clear ==>
                var was := old(Objects(from));
                |was| > 0 && Objects(to) == old(Objects(to)) + [was[|was| - 1]]
      ensures Held().clear ==> forall k :: k != to || r != Ok(true) ==> Objects(k) == old(Objects(k))
    {
      hide Sound, Readable, BytesOf, GoodBucket, Lawful, Objects, ChunkStore.Valid, ManifestStore.Valid,
        PointerStore.Versions, OthersKept, Utf8, Ended;
      if Held().clear && pointers.Versions(from) != [] {
        NewestRead(from);
      }
      r := pointers.Copy(from, to);
      if Held().clear {
        if r == Ok(true) {
          OtherFilesKept(to);
          VersionListed(to);
        } else {
          SameListings();
        }
      }
    }

    twostate lemma SameListings()
      requires old(Sound()) && Held() == old(Held()) && uploads == old(uploads) && pointers.files == old(pointers.files)
      ensures Sound() && forall k :: Objects(k) == old(Objects(k))
    {
      hide Sound;
      assert forall k, id :: Lists(k, id) ==> old(Lists(k, id));
      OnlyRelisted();
    }

    lemma NewestRead(key: Key)
      requires Sound() && pointers.Versions(key) != []
      ensures Readable(w, Held(), Newest(key)) && |Objects(key)| == |pointers.Versions(key)|
      ensures Objects(key)[|Objects(key)| - 1] == BytesOf(w, Held(), Newest(key))
    {
      hide BytesOf;
      assert AllReadable(w, Held(), pointers.Versions(key));
      VersionAt(w, Held(), pointers.Versions(key), |pointers.Versions(key)| - 1);
    }

    /** The whole history arrives, unless the key is moved onto itself. */
    method MoveObject(from: Key, to: Key) returns (r: Result<bool>)
      requires Valid()
      modifies pointers
      ensures Valid() && r == MoveOutcome(from, to, true, old(pointers.Versions(from)))
      ensures r == Ok(true) ==> Objects(from) == [] && (from != to ==> Objects(to) == old(Objects(from)))
      ensures forall k :: (k != to && k != from) || r != Ok(true) ==> Objects(k) == old(Objects(k))
    {
      hide Sound, GoodBucket, Lawful, BytesOf, ChunkStore.Valid, ManifestStore.Valid;
      r := pointers.MoveKey(from, to);
      if Held().clear {
        forall k, id | Lists(k, id)
          ensures old(Lists(k, id)) || old(Lists(from, id))
        {
        }
        OnlyRelisted();
      }
    }

    // ---- collection ----

    /** What a sweep that gets past its mark does to the chunks, and its tally. */
    twostate predicate Swept(now: nat, grace: nat, t: Tally)
      reads chunks, manifests, pointers
    {
      var disk, stamps := old(chunks.files).Keys, old(chunks.Stamps());
      var marked := old(chunks.pinned + Reachable(pointers, manifests.files));
      && chunks.files == old(chunks.files) - Erased(disk, marked, stamps, now, grace)
      && chunks.Stamps() == Condemned(disk, marked, stamps, now, grace)
      && t == PassTally(disk, marked, stamps, now, grace)
    }

    method Collect(now: nat, grace: nat) returns (r: Result<Tally>)
      requires chunks.Valid() && manifests.Valid() && pointers.Valid()
      modifies chunks`files, chunks`condemned
      ensures chunks.Valid() && (r.Ok? <==> old(Walkable(pointers, manifests, pointers.files.Keys)))
      ensures if r.Ok? then Swept(now, grace, r.value)
              else chunks.files == old(chunks.files) && chunks.condemned == old(chunks.condemned)
    {
      hide Erased, Condemned, PassTally, Reachable, ManifestStore.Valid, ChunkStore.Valid, Walkable;
      var gc := new Gc(chunks, manifests, pointers, grace);
      r := gc.Sweep(now);
    }

    /** A sweep with any grace changes no version, and nothing stops it. */
    method GcSweep(now: nat, grace: nat) returns (r: Result<Tally>)
      requires Valid()
      modifies `stats, chunks`files, chunks`condemned
      ensures Valid() && Held().clear == old(Held()).clear && (Held().clear ==> r.Ok?)
      ensures r.Ok? ==> Swept(now, grace, r.value)
      ensures r.Ok? ==> stats == GcStats(old(stats).sweeps + 1, old(stats).condemned + r.value.condemned,
                                         old(stats).erased + r.value.erased, r.value.live)
      ensures r.Err? ==> stats == old(stats) && chunks.files == old(chunks.files)
      ensures Held().clear ==> forall k :: Objects(k) == old(Objects(k))
    {
      hide Sound, Objects, Lawful, Erased, Condemned, PassTally, Reachable, Walkable,
        ManifestStore.Valid, PointerStore.Valid, ChunkStore.Valid;
      if Held().clear {
        SoundIsWalkable();
      }
      r := Collect(now, grace);
      if r.Err? {
        return;
      }
      ghost var marked := old(chunks.pinned + Reachable(pointers, manifests.files));
      ErasedIsUnmarked(old(chunks.files).Keys, marked, old(chunks.Stamps()), now, grace);
      if Held().clear {
        SweptKeepsVersions(Erased(old(chunks.files).Keys, marked, old(chunks.Stamps()), now, grace));
      }
      var t := r.value;
      stats := GcStats(stats.sweeps + 1, stats.condemned + t.condemned, stats.erased + t.erased, t.live);
    }

    /** Versions that can all be read stop no mark. */
    lemma SoundIsWalkable()
      requires Sound() && pointers.Valid()
      ensures Walkable(pointers, manifests, pointers.files.Keys)
    {
      hide Honest;
      forall id | id in Listed(pointers, pointers.files.Keys)
        ensures manifests.Supported(id)
      {
        var k, i :| k in pointers.files && 0 <= i < |pointers.Versions(k)| && pointers.Versions(k)[i] == id;
        assert AllReadable(w, Held(), pointers.Versions(k)) && Readable(w, Held(), pointers.Versions(k)[i]);
      }
    }

    /** Only chunks that no history leads to have been erased. */
    twostate lemma SweptKeepsVersions(erased: set<Digest>)
      requires old(Sound()) && erased !! Reachable(pointers, manifests.files)
      requires Held() == old(Held()).(stored := old(Held()).stored - erased)
      requires pointers.files == old(pointers.files) && uploads == old(uploads)
      ensures Sound() && forall k :: Objects(k) == old(Objects(k))
    {
      hide AllReadable, VersionBytes, PartSound, Reachable;
      forall k
        ensures AllReadable(w, Held(), pointers.Versions(k)) && Objects(k) == old(Objects(k))
      {
        var ids := old(pointers.Versions(k));
        assert AllReadable(w, old(Held()), ids) && pointers.Versions(k) == ids;
        ReachableCovers(pointers, manifests.files, k);
        ReadableIsThere(w, old(Held()), ids);
        ErasedKeepsVersions(w, old(Held()), erased, ids);
      }
      forall u, n | u in uploads && n in uploads[u].parts
        ensures PartSound(uploads[u].policy.codec, uploads[u].parts[n])
      {
        assert old(PartSound(uploads[u].policy.codec, uploads[u].parts[n]));
      }
    }

    twostate predicate OthersKept(key: Key)
      reads pointers
    {
      forall k :: k != key ==> pointers.Versions(k) == old(pointers.Versions(k))
    }

    twostate lemma OtherFilesKept(key: Key)
      requires pointers.files.Keys == old(pointers.files).Keys + {key}
      requires forall j :: j != key && j in pointers.files ==> pointers.files[j] == old(pointers.files)[j]
      ensures OthersKept(key)
    {
    }

    /** The version a key's pointer has just moved to. */
    function Newest(key: Key): Digest
      requires pointers.Versions(key) != []
      reads pointers
    {
      pointers.Versions(key)[|pointers.Versions(key)| - 1]
    }

    /** A version has been listed under a key: all is sound as before exactly when
        it can be read. */
    twostate lemma VersionListed(key: Key)
      requires old(Sound()) && Held() == old(Held()) && uploads == old(uploads) && OthersKept(key)
      requires pointers.Versions(key) != [] && pointers.Versions(key) == old(pointers.Versions(key)) + [Newest(key)]
      ensures Sound() <==> Readable(w, Held(), Newest(key))
      ensures Objects(key) == old(Objects(key)) + [BytesOf(w, Held(), Newest(key))]
      ensures forall k :: k != key ==> Objects(k) == old(Objects(k))
    {
      hide AllReadable, Readable, VersionBytes, BytesOf, PartSound;
      AppendVersion(w, Held(), old(pointers.Versions(key)), Newest(key));
      forall k
        ensures k != key || Readable(w, Held(), Newest(key)) ==> AllReadable(w, Held(), pointers.Versions(k))
      {
        assert old(AllReadable(w, Held(), pointers.Versions(k)));
      }
      assert Sound() ==> AllReadable(w, Held(), pointers.Versions(key));
      forall u, n | u in uploads && n in uploads[u].parts
        ensures PartSound(uploads[u].policy.codec, uploads[u].parts[n])
      {
        assert old(PartSound(uploads[u].policy.codec, uploads[u].parts[n]));
      }
    }
  }

  lemma ElemsSnoc<T>(s: seq<T>, x: T)
    ensures Elems(s + [x]) == Elems(s) + {x}
  {
  }

  lemma ExtendsMore<A, B>(a: map<A, B>, b: map<A, B>, c: map<A, B>)
    requires Extends(a, b) && Extends(b, c)
    ensures Extends(a, c)
  {
  }

  lemma BeginStream(w: World, c: Codec, known: map<Digest, Bytes>, pieces: seq<Bytes>, limit: Option<nat>)
    requires !c.Unsupported?
    ensures Joined(pieces[..0]) == [] && Fitting(pieces[..0], limit) == 0
    ensures Addresses(w, c, pieces[..0]) == [] && EncodedSize(w, c, pieces[..0]) == 0
    ensures Content(w, c, known, []) == Some([]) && Elems<Digest>([]) == {} && Extends(known, known)
  {
  }

  lemma NextPiece(w: World, c: Codec, pieces: seq<Bytes>, i: nat, limit: Option<nat>)
    requires !c.Unsupported? && i < |pieces| && Fitting(pieces[..i], limit) == i
    ensures Joined(pieces[..i + 1]) == Joined(pieces[..i]) + pieces[i]
    ensures Addresses(w, c, pieces[..i + 1]) == Addresses(w, c, pieces[..i]) + [w.hash(Encode(w, c, pieces[i]))]
    ensures EncodedSize(w, c, pieces[..i + 1]) == EncodedSize(w, c, pieces[..i]) + |Encode(w, c, pieces[i])|
    ensures if limit.Some? && |Joined(pieces[..i])| + |pieces[i]| > limit.value
            then Fitting(pieces, limit) == i && |Joined(pieces)| > limit.value
            else Fitting(pieces[..i + 1], limit) == i + 1
  {
    assert pieces[..i + 1][..i] == pieces[..i];
    FittingPrefix(pieces, limit, i + 1);
    FittingAll(pieces, limit);
  }

  lemma NoParts(
    w: World, c: Codec, known: map<Digest, Bytes>, parts: map<nat, Part>, used: seq<nat>, stored: set<Digest>)
    ensures PartChunks(parts, used[..0]) == [] && StoredSizes(parts, used[..0]) == 0
    ensures PartBytes(w, c, known, parts, used[..0]) == []
    ensures Trouble(stored, parts, used[..0]) == None && Content(w, c, known, []) == Some([]) && Elems<Digest>([]) == {}
  {
  }

  lemma ErasedIsUnmarked(disk: set<Digest>, marked: set<Digest>, stamps: map<Digest, nat>, now: nat, grace: nat)
    ensures Erased(disk, marked, stamps, now, grace) !! marked
  {
  }

  /** Every chunk of a listed manifest is reachable. */
  lemma ReachableCovers(pointers: PointerStore, manifests: map<Digest, Manifest>, k: Key)
    ensures var ids := pointers.Versions(k);
            forall i, h :: 0 <= i < |ids| && ids[i] in manifests && h in manifests[ids[i]].chunks ==>
              h in Reachable(pointers, manifests)
  {
    var ids := pointers.Versions(k);
    forall i, h | 0 <= i < |ids| && ids[i] in manifests && h in manifests[ids[i]].chunks
      ensures h in Reachable(pointers, manifests)
    {
      assert ids[i] in Listed(pointers, pointers.files.Keys);
      var j :| 0 <= j < |manifests[ids[i]].chunks| && manifests[ids[i]].chunks[j] == h;
    }
  }

  /** Every chunk of decodable content is known and decodes. */
  lemma {:induction false} ContentPrefix(w: World, c: Codec, known: map<Digest, Bytes>, chunks: seq<Digest>, i: nat)
    requires Content(w, c, known, chunks).Some? && i < |chunks|
    ensures Content(w, c, known, chunks[..i]).Some? && chunks[i] in known && Decode(w, c, known[chunks[i]]).Some?
    ensures Content(w, c, known, chunks[..i + 1])
         == Some(Content(w, c, known, chunks[..i]).value + Decode(w, c, known[chunks[i]]).value)
    decreases |chunks| - i
  {
    hide Decode;
    if i == |chunks| - 1 {
      assert chunks[..i + 1] == chunks;
    } else {
      var most := chunks[..|chunks| - 1];
      ContentPrefix(w, c, known, most, i);
      assert most[..i] == chunks[..i] && most[..i + 1] == chunks[..i + 1];
    }
  }
}
