/** What stored manifests and chunks stand for: the bytes of an object, and when a
    store can give them back (crates/barme-engine/src/lib.rs). */
module Objects {
  import opened Bits
  import opened Common
  import opened Hashing
  import opened Stores
  import Merkle

  /** The foreign code the engine calls: content addressing and digests, the
      chunker, the compressor with its level, the JSON of a manifest. */
  datatype World = World(
    hash: Hasher,
    sha256: Hasher,
    cut: Bytes -> seq<Bytes>,
    squeeze: (int, Bytes) -> Bytes,
    expand: Bytes -> Option<Bytes>,
    json: Manifest -> Bytes)

  function Joined(pieces: seq<Bytes>): Bytes
  {
    if pieces == [] then [] else Joined(pieces[..|pieces| - 1]) + pieces[|pieces| - 1]
  }

  /** Pieces are joined in order. */
  lemma {:induction false} JoinedConcat(a: seq<Bytes>, b: seq<Bytes>)
    ensures Joined(a + b) == Joined(a) + Joined(b)
    ensures |a| == 1 ==> Joined(a) == a[0]
  {
    if b == [] {
      assert a + b == a;
    } else {
      var most, last := b[..|b| - 1], b[|b| - 1];
      JoinedConcat(a, most);
      assert (a + b)[..|a + b| - 1] == a + most && (a + b)[|a + b| - 1] == last;
      Regroup(Joined(a), Joined(most), last);
    }
  }

  /** Pieces join up to what was cut, at any level what was squeezed expands
      again, and the JSON tells manifests apart. */
  ghost predicate Lawful(w: World)
  {
    && (forall b :: Joined(w.cut(b)) == b)
    && (forall level, b :: w.expand(w.squeeze(level, b)) == Some(b))
    && Canonical(w.json)
  }

  function Encode(w: World, c: Codec, b: Bytes): Bytes
    requires !c.Unsupported?
  {
    if c.Raw? then b else w.squeeze(c.level, b)
  }

  /** By the codec's name alone, whatever the level was. */
  function Decode(w: World, c: Codec, stored: Bytes): Option<Bytes>
  {
    match c
    case Raw => Some(stored)
    case Zstd(_) => w.expand(stored)
    case Unsupported(_) => None
  }

  lemma DecodeInvertsEncode(w: World, c: Codec, b: Bytes)
    requires Lawful(w) && !c.Unsupported?
    ensures Decode(w, c, Encode(w, c, b)) == Some(b)
  {
  }

  /** The bytes these chunks decode to, one after the other, if all do. */
  function Content(w: World, c: Codec, known: map<Digest, Bytes>, chunks: seq<Digest>): Option<Bytes>
  {
    if chunks == [] then Some([])
    else
      var last := chunks[|chunks| - 1];
      var most := Content(w, c, known, chunks[..|chunks| - 1]);
      if most.None? || last !in known || Decode(w, c, known[last]).None? then None
      else Some(most.value + Decode(w, c, known[last]).value)
  }

  ghost predicate Extends<A, B>(m: map<A, B>, more: map<A, B>)
  {
    forall a :: a in m ==> a in more && more[a] == m[a]
  }

  lemma {:induction false} ContentExtends(
    w: World, c: Codec, known: map<Digest, Bytes>, more: map<Digest, Bytes>, chunks: seq<Digest>)
    requires Extends(known, more) && Content(w, c, known, chunks).Some?
    ensures Content(w, c, more, chunks) == Content(w, c, known, chunks)
  {
    hide Decode;
    if chunks != [] {
      ContentExtends(w, c, known, more, chunks[..|chunks| - 1]);
    }
  }

  lemma ContentNext(w: World, c: Codec, known: map<Digest, Bytes>, chunks: seq<Digest>, h: Digest)
    requires h in known
    ensures Content(w, c, known, chunks + [h])
         == if Content(w, c, known, chunks).Some? && Decode(w, c, known[h]).Some?
            then Some(Content(w, c, known, chunks).value + Decode(w, c, known[h]).value) else None
  {
    assert (chunks + [h])[..|chunks|] == chunks;
  }

  lemma {:induction false} ContentConcat(w: World, c: Codec, known: map<Digest, Bytes>, a: seq<Digest>, b: seq<Digest>)
    requires Content(w, c, known, a).Some? && Content(w, c, known, b).Some?
    ensures Content(w, c, known, a + b) == Some(Content(w, c, known, a).value + Content(w, c, known, b).value)
  {
    hide Decode;
    if b == [] {
      assert a + b == a && Content(w, c, known, a).value + [] == Content(w, c, known, a).value;
    } else {
      var most, last := b[..|b| - 1], b[|b| - 1];
      ContentConcat(w, c, known, a, most);
      assert a + b == (a + most) + [last];
      ContentNext(w, c, known, a + most, last);
      Regroup(Content(w, c, known, a).value, Content(w, c, known, most).value, Decode(w, c, known[last]).value);
    }
  }

  // ---- what a store holds ----

  /** `stored` are the chunks on disk, `clear` that no two byte strings met at one
      address. */
  datatype Holdings =
    Holdings(known: map<Digest, Bytes>, stored: set<Digest>, manifests: map<Digest, Manifest>, clear: bool)

  /** The manifest records the size and digest of what its chunks decode to, and
      their Merkle root unless it was written before roots were recorded. */
  ghost predicate Honest(w: World, known: map<Digest, Bytes>, m: Manifest)
  {
    var b := Content(w, m.codec, known, m.chunks);
    && b.Some? && m.size == |b.value| && m.sha256 == w.sha256(b.value)
    && (m.merkleRoot.Some? ==> m.merkleRoot.value == Merkle.RootOf(w.hash, m.chunks))
  }

  /** The manifest is there, in a form this build reads, and honest, and its chunks
      are there too. */
  ghost predicate Readable(w: World, s: Holdings, id: Digest)
  {
    && id in s.manifests && s.manifests[id].version <= MANIFEST_VERSION && Honest(w, s.known, s.manifests[id])
    && forall h :: h in s.manifests[id].chunks ==> h in s.stored
  }

  ghost predicate AllReadable(w: World, s: Holdings, ids: seq<Digest>)
  {
    forall i :: 0 <= i < |ids| ==> Readable(w, s, ids[i])
  }

  lemma ReadableIsThere(w: World, s: Holdings, ids: seq<Digest>)
    requires AllReadable(w, s, ids)
    ensures forall i :: 0 <= i < |ids| ==> ids[i] in s.manifests
  {
    forall i | 0 <= i < |ids|
      ensures ids[i] in s.manifests
    {
      assert Readable(w, s, ids[i]);
    }
  }

  function BytesOf(w: World, s: Holdings, id: Digest): Bytes
  {
    if id in s.manifests then Content(w, s.manifests[id].codec, s.known, s.manifests[id].chunks).GetOr([]) else []
  }

  /** The versions these ids stand for. */
  function VersionBytes(w: World, s: Holdings, ids: seq<Digest>): (v: seq<Bytes>)
    ensures |v| == |ids|
  {
    if ids == [] then [] else VersionBytes(w, s, ids[..|ids| - 1]) + [BytesOf(w, s, ids[|ids| - 1])]
  }

  lemma {:induction false} VersionAt(w: World, s: Holdings, ids: seq<Digest>, i: nat)
    requires i < |ids|
    ensures VersionBytes(w, s, ids)[i] == BytesOf(w, s, ids[i])
  {
    if i < |ids| - 1 {
      VersionAt(w, s, ids[..|ids| - 1], i);
    }
  }

  lemma AppendVersion(w: World, s: Holdings, ids: seq<Digest>, id: Digest)
    ensures VersionBytes(w, s, ids + [id]) == VersionBytes(w, s, ids) + [BytesOf(w, s, id)]
    ensures AllReadable(w, s, ids + [id]) <==> AllReadable(w, s, ids) && Readable(w, s, id)
  {
    assert (ids + [id])[..|ids|] == ids;
    if AllReadable(w, s, ids + [id]) {
      assert Readable(w, s, (ids + [id])[|ids|]);
      assert forall i :: 0 <= i < |ids| ==> ids[i] == (ids + [id])[i];
    }
  }

  /** Nothing that was held is lost or changed. */
  ghost predicate Grown(s: Holdings, s': Holdings)
  {
    && Extends(s.known, s'.known) && s.stored <= s'.stored && Extends(s.manifests, s'.manifests)
    && (s'.clear ==> s.clear)
  }

  lemma {:induction false} GrownKeepsVersions(w: World, s: Holdings, s': Holdings, ids: seq<Digest>)
    requires Grown(s, s') && AllReadable(w, s, ids)
    ensures AllReadable(w, s', ids) && VersionBytes(w, s', ids) == VersionBytes(w, s, ids)
  {
    hide Content;
    if ids != [] {
      var most, last := ids[..|ids| - 1], ids[|ids| - 1];
      assert AllReadable(w, s, most);
      GrownKeepsVersions(w, s, s', most);
      assert Readable(w, s, last);
      var m := s.manifests[last];
      ContentExtends(w, m.codec, s.known, s'.known, m.chunks);
    }
  }

  /** Erasing chunks no listed manifest names changes no version. */
  lemma {:induction false} ErasedKeepsVersions(w: World, s: Holdings, erased: set<Digest>, ids: seq<Digest>)
    requires AllReadable(w, s, ids)
    requires forall i, h :: 0 <= i < |ids| && h in s.manifests[ids[i]].chunks ==> h !in erased
    ensures AllReadable(w, s.(stored := s.stored - erased), ids)
    ensures VersionBytes(w, s.(stored := s.stored - erased), ids) == VersionBytes(w, s, ids)
  {
    hide Content;
    if ids != [] {
      var most, last := ids[..|ids| - 1], ids[|ids| - 1];
      assert forall i, h :: 0 <= i < |most| && h in s.manifests[most[i]].chunks ==> most[i] == ids[i];
      ErasedKeepsVersions(w, s, erased, most);
      assert Readable(w, s, last) && last == ids[|ids| - 1];
    }
  }
}
