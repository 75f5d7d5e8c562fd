/** The three stores (crates/barme-store): chunks and manifests under their
    content addresses, pointers with their histories. A directory is a map from
    the names in it to what the files hold. */
module Stores {
  import opened Bits
  import opened Common
  import opened Hashing
  import opened PointerText

  datatype Error =
    | BadBucket
    | NotText
    | NewerManifest(found: nat, supported: nat)
    | Corrupt(addr: Digest)
    | InvalidKey
    | Locked
    | UnknownCodec
    | Undecodable
    | BrokenUpload
    | TooLarge(limit: nat)
    | NoSuchUpload(upload: nat)
    | InvalidPart(number: nat)
    | MissingChunk(chunk: Digest)
    | DanglingPointer(id: Digest)
    | Mismatch(id: Digest)

  datatype Result<T> = Ok(value: T) | Err(error: Error)

  /** A fetch that has to find something. */
  function Required<T>(r: Result<Option<T>>, missing: Error): Result<T>
  {
    match r
    case Err(e) => Err(e)
    case Ok(None) => Err(missing)
    case Ok(Some(v)) => Ok(v)
  }

  // ---- chunks ----

  datatype CondemnedFile = Missing | Unreadable | Saved(stamps: map<Digest, nat>)

  class ChunkStore {
    const hash: Hasher
    var files: map<Digest, Bytes>
    var pinned: set<Digest>
    var condemned: CondemnedFile
    /** What each address was first given for, kept when the file is erased. */
    ghost var known: map<Digest, Bytes>
    /** Two byte strings with one address, once two have come by. */
    ghost var clash: Option<(Bytes, Bytes)>

    ghost predicate Valid()
      reads `files, `known, `clash
    {
      && (forall h :: h in files ==> hash(files[h]) == h)
      && (forall h :: h in known ==> hash(known[h]) == h)
      && (clash.Some? ==> Collision(hash, clash.value))
      && (clash.None? ==> forall h :: h in files ==> h in known && files[h] == known[h])
    }

    constructor (hash: Hasher)
      ensures Valid() && this.hash == hash && files == map[] && pinned == {} && condemned == Missing
      ensures known == map[] && clash == None
    {
      this.hash := hash;
      files, pinned, condemned, known, clash := map[], {}, Missing, map[], None;
    }

    method Pin(h: Digest)
      modifies `pinned
      ensures pinned == old(pinned) + {h}
    {
      pinned := pinned + {h};
    }

    /** Set, not count: one release undoes any number of pins. */
    method Unpin(hashes: seq<Digest>)
      modifies `pinned
      ensures pinned == old(pinned) - Elems(hashes)
    {
      var i := 0;
      while i < |hashes|
        invariant i <= |hashes| && pinned == old(pinned) - Elems(hashes[..i])
      {
        pinned := pinned - {hashes[i]};
        ElemsNext(hashes, i);
        i := i + 1;
      }
      assert hashes[..i] == hashes;
    }

    method Put(data: Bytes) returns (h: Digest)
      requires Valid()
      modifies `files, `known, `clash
      ensures Valid() && h == hash(data)
      ensures files == if h in old(files) then old(files) else old(files)[h := data]
      ensures known == if h in old(known) then old(known) else old(known)[h := data]
      ensures clash.None? ==> old(clash).None? && files[h] == known[h] == data
    {
      h := hash(data);
      if h !in files {
        files := files[h := data];
      }
      if h !in known {
        known := known[h := data];
      } else if known[h] != data {
        clash := Some((known[h], data));
      }
    }

    method Get(h: Digest) returns (r: Result<Option<Bytes>>)
      ensures r == if h !in files then Ok(None) else if hash(files[h]) == h then Ok(Some(files[h])) else Err(Corrupt(h))
      ensures Valid() ==> r.Ok?
    {
      if h !in files {
        r := Ok(None);
      } else if hash(files[h]) != h {
        r := Err(Corrupt(h));
      } else {
        r := Ok(Some(files[h]));
      }
    }

    predicate Has(h: Digest)
      reads `files
    {
      h in files
    }

    method Delete(h: Digest)
      requires Valid()
      modifies `files
      ensures Valid() && files == old(files) - {h}
    {
      files := files - {h};
    }

    /** Every stored chunk once, in whatever order the directories list them. */
    method All() returns (chunks: seq<Digest>)
      ensures Distinct(chunks) && Elems(chunks) == files.Keys
    {
      chunks := [];
      var todo := files.Keys;
      while todo != {}
        invariant Distinct(chunks) && Elems(chunks) !! todo && Elems(chunks) + todo == files.Keys
        decreases todo
      {
        var h :| h in todo;
        ElemsConcat(chunks, [h]);
        chunks, todo := chunks + [h], todo - {h};
      }
    }

    /** A file that cannot be read heals to empty. */
    method LoadCondemned() returns (stamps: map<Digest, nat>)
      ensures stamps == Stamps()
    {
      stamps := match condemned case Saved(s) => s case Missing => map[] case Unreadable => map[];
    }

    ghost function Stamps(): map<Digest, nat>
      reads this
    {
      if condemned.Saved? then condemned.stamps else map[]
    }

    method SaveCondemned(stamps: map<Digest, nat>)
      modifies `condemned
      ensures Stamps() == stamps && condemned.Saved?
    {
      condemned := Saved(stamps);
    }
  }

  // ---- manifests ----

  /** The codec a write chose, by the name its manifest records. */
  datatype Codec = Raw | Zstd(level: int) | Unsupported(name: Bytes)

  /** The newest form of manifest this build reads. */
  const MANIFEST_VERSION: nat := 1

  datatype Manifest = Manifest(
    version: nat,
    objectId: Digest,
    createdAt: Bytes,
    size: nat,
    sha256: Digest,
    contentType: Bytes,
    codec: Codec,
    exact: bool,
    storedSize: nat,
    chunks: seq<Digest>,
    merkleRoot: Option<Digest>,
    policy: Bytes)

  function Unaddressed(m: Manifest): Manifest
  {
    m.(objectId := Address(seq(32, _ => 0)))
  }

  /** The JSON a manifest is addressed by: all of it but the address it carries. */
  ghost predicate Canonical(json: Manifest -> Bytes)
  {
    forall a, b :: json(a) == json(b) <==> Unaddressed(a) == Unaddressed(b)
  }

  class ManifestStore {
    const hash: Hasher
    const json: Manifest -> Bytes
    var files: map<Digest, Manifest>
    ghost var clash: Option<(Bytes, Bytes)>

    ghost predicate Valid()
      reads this
    {
      && Canonical(json)
      && (forall id :: id in files ==> ManifestId(files[id]) == id == files[id].objectId)
      && (clash.Some? ==> Collision(hash, clash.value))
    }

    function ManifestId(m: Manifest): Digest
    {
      hash(json(m))
    }

    constructor (hash: Hasher, json: Manifest -> Bytes)
      requires Canonical(json)
      ensures Valid() && this.hash == hash && this.json == json && files == map[] && clash == None
    {
      this.hash, this.json := hash, json;
      files, clash := map[], None;
    }

    method Put(m: Manifest) returns (id: Digest)
      requires Valid()
      modifies this
      ensures Valid() && id == ManifestId(m)
      ensures files == if id in old(files) then old(files) else old(files)[id := m.(objectId := id)]
      ensures clash.None? ==> old(clash).None? && files[id] == m.(objectId := id)
    {
      hide Canonical;
      id := ManifestId(m);
      var stored := m.(objectId := id);
      SameJson(m, id);
      if id !in files {
        files := files[id := stored];
      } else if files[id] != stored {
        DifferentJson(files[id], m, id);
        clash := Some((json(files[id]), json(m)));
      }
    }

    lemma SameJson(m: Manifest, id: Digest)
      requires Canonical(json)
      ensures json(m.(objectId := id)) == json(m)
    {
      assert Unaddressed(m.(objectId := id)) == Unaddressed(m);
    }

    lemma DifferentJson(a: Manifest, b: Manifest, id: Digest)
      requires Canonical(json) && a.objectId == id && a != b.(objectId := id)
      ensures json(a) != json(b)
    {
      assert Unaddressed(a) == Unaddressed(b) ==> a == b.(objectId := id);
    }

    /** Of a newer form than this build reads, or absent, or what it says. */
    predicate Supported(id: Digest)
      reads `files
    {
      id in files ==> files[id].version <= MANIFEST_VERSION
    }

    /** The version is looked at before the address. */
    method Get(id: Digest) returns (r: Result<Option<Manifest>>)
      ensures r == if id !in files then Ok(None)
                   else if !Supported(id) then Err(NewerManifest(files[id].version, MANIFEST_VERSION))
                   else if ManifestId(files[id]) == id then Ok(Some(files[id]))
                   else Err(Corrupt(id))
      ensures Valid() ==> (r.Ok? <==> Supported(id))
    {
      if id !in files {
        r := Ok(None);
      } else if files[id].version > MANIFEST_VERSION {
        r := Err(NewerManifest(files[id].version, MANIFEST_VERSION));
      } else if ManifestId(files[id]) != id {
        r := Err(Corrupt(id));
      } else {
        r := Ok(Some(files[id]));
      }
    }
  }

  // ---- pointers ----

  const SLASH: Byte := 47
  const BACKSLASH: Byte := 92
  const DOT: Byte := 46

  predicate GoodBucket(b: Bytes)
  {
    b != [] && b != [DOT] && b != [DOT, DOT] && SLASH !in b && BACKSLASH !in b
  }

  /** A path component and no more: not empty, not the directory itself nor the one
      above, and with no separator of either kind in it. */
  ghost predicate IsDirectoryName(b: Bytes)
  {
    && |b| > 0 && b != ['.' as int] && b != ['.' as int, '.' as int]
    && forall i :: 0 <= i < |b| ==> b[i] != '/' as int && b[i] != '\\' as int
  }

  lemma GoodBucketExactly(b: Bytes)
    ensures GoodBucket(b) <==> IsDirectoryName(b)
  {
    if GoodBucket(b) {
      forall i | 0 <= i < |b|
        ensures b[i] != '/' as int && b[i] != '\\' as int
      {
        assert b[i] in b;
      }
    }
  }

  /** How moving a key with these versions turns out: its file has to be read, the
      one it replaces has not. */
  function MoveOutcome(from: Key, to: Key, legible: bool, versions: seq<Digest>): Result<bool>
  {
    if !GoodBucket(from.bucket) then Err(BadBucket)
    else if !legible then Err(NotText)
    else if versions == [] then Ok(false)
    else if GoodBucket(to.bucket) then Ok(true)
    else Err(BadBucket)
  }

  /** How copying turns out: both files have to be read. */
  function CopyOutcome(from: Key, to: Key, legible: bool, toLegible: bool, versions: seq<Digest>): Result<bool>
  {
    var moved := MoveOutcome(from, to, legible, versions);
    if moved == Ok(true) && !toLegible then Err(NotText) else moved
  }

  /** When each of them goes through, and what stops it if not. */
  lemma MovesExactly(from: Key, to: Key, legible: bool, toLegible: bool, versions: seq<Digest>)
    ensures var here, there := IsDirectoryName(from.bucket), IsDirectoryName(to.bucket);
            var moved, copied := MoveOutcome(from, to, legible, versions),
                                 CopyOutcome(from, to, legible, toLegible, versions);
            && (moved == Ok(true) <==> here && there && legible && |versions| > 0)
            && (copied == Ok(true) <==> here && there && legible && toLegible && |versions| > 0)
            && (moved == Ok(false) <==> here && legible && |versions| == 0)
            && (copied == Ok(false) <==> moved == Ok(false))
            && (moved == Err(NotText) <==> here && !legible)
            && (copied == Err(NotText) <==> here && (!legible || (there && !toLegible && |versions| > 0)))
            && (moved == Err(BadBucket) <==> !here || (!there && legible && |versions| > 0))
            && (copied == Err(BadBucket) <==> moved == Err(BadBucket))
  {
    GoodBucketExactly(from.bucket);
    GoodBucketExactly(to.bucket);
  }

  lemma EmptyIsText()
    ensures Utf8([]) && Ended([])
  {
  }

  class PointerStore {
    var files: map<Key, Bytes>

    /** Every file is one the store wrote: text, its last line ended. */
    ghost predicate Valid()
      reads this
    {
      forall k :: k in files ==> Utf8(files[k]) && Ended(files[k]) && GoodBucket(k.bucket)
    }

    /** The key's file, if any, can be read at all. */
    predicate Legible(k: Key)
      reads this
    {
      k in files ==> Utf8(files[k])
    }

    /** Every version the key has pointed at, oldest first, once it is legible. */
    function Versions(k: Key): seq<Digest>
      reads this
    {
      if k in files then History(files[k]) else []
    }

    constructor ()
      ensures Valid() && files == map[]
    {
      files := map[];
    }

    /** `read_to_string_opt` and `history`: nothing of a file that is not text. */
    method ReadHistory(k: Key) returns (r: Result<seq<Digest>>)
      ensures r == if !GoodBucket(k.bucket) then Err(BadBucket)
                   else if !Legible(k) then Err(NotText) else Ok(Versions(k))
    {
      if !GoodBucket(k.bucket) {
        return Err(BadBucket);
      }
      if k in files && !Utf8(files[k]) {
        return Err(NotText);
      }
      r := Ok(Versions(k));
    }

    /** The history grows by the id, and can be read, exactly when the file was text
        that ended its last line, or was not there. */
    method Set(k: Key, id: Digest) returns (r: Result<()>)
      modifies this
      ensures old(Valid()) ==> Valid()
      ensures r == if !GoodBucket(k.bucket) then Err(BadBucket) else if old(!Legible(k)) then Err(NotText) else Ok(())
      ensures r.Err? ==> files == old(files)
      ensures r.Ok? ==> k in files && files[k] == (if k in old(files) then old(files)[k] else []) + Line(id)
      ensures r.Ok? ==> Legible(k)
                        && (Versions(k) == old(Versions(k)) + [id] <==> old(k !in files || Ended(files[k])))
      ensures files.Keys == old(files).Keys + if r.Ok? then {k} else {}
      ensures forall j :: j != k && j in files ==> files[j] == old(files)[j]
    {
      hide GoodBucket, History, Line, Utf8, Ended;
      if !GoodBucket(k.bucket) {
        return Err(BadBucket);
      }
      var contents := if k in files then files[k] else [];
      EmptyIsText();
      if !Utf8(contents) {
        return Err(NotText);
      }
      NothingListed();
      LineAddsExactly(contents, id);
      PrintedIsText(id);
      Utf8Joins(contents, Line(id));
      LineEnds(contents, id);
      files := files[k := contents + Line(id)];
      r := Ok(());
    }

    method Current(k: Key) returns (r: Result<Option<Digest>>)
      ensures r == if !GoodBucket(k.bucket) then Err(BadBucket)
                   else if !Legible(k) then Err(NotText)
                   else if Versions(k) == [] then Ok(None)
                   else Ok(Some(Versions(k)[|Versions(k)| - 1]))
    {
      var history := ReadHistory(k);
      if history.Err? {
        return Err(history.error);
      }
      r := Ok(if history.value == [] then None else Some(history.value[|history.value| - 1]));
    }

    /** Needs no reading, so an illegible key can be removed. */
    method Remove(k: Key) returns (r: Result<()>)
      modifies this
      ensures old(Valid()) ==> Valid()
      ensures r == if GoodBucket(k.bucket) then Ok(()) else Err(BadBucket)
      ensures files == if r.Ok? then old(files) - {k} else old(files)
    {
      if !GoodBucket(k.bucket) {
        return Err(BadBucket);
      }
      files := files - {k};
      r := Ok(());
    }

    /** The text of these versions, built line by line. */
    method Render(ids: seq<Digest>) returns (contents: Bytes)
      ensures contents == Listing(ids)
    {
      contents := [];
      var i := 0;
      while i < |ids|
        invariant i <= |ids| && contents == Listing(ids[..i])
      {
        contents := contents + Line(ids[i]);
        i := i + 1;
        assert ids[..i][..i - 1] == ids[..i - 1];
      }
      assert ids[..i] == ids;
    }

    /** The file rewritten is whole again, whatever it was. */
    method Trim(k: Key, keep: nat) returns (r: Result<()>)
      modifies this
      ensures old(Valid()) ==> Valid()
      ensures r == if keep == 0 then Ok(()) else if !GoodBucket(k.bucket) then Err(BadBucket)
                   else if old(!Legible(k)) then Err(NotText) else Ok(())
      ensures files.Keys == old(files).Keys && (r.Err? ==> files == old(files))
      ensures var was := old(Versions(k));
              r.Ok? ==> Versions(k) == if keep == 0 || |was| <= keep then was else was[|was| - keep..]
      ensures forall j :: j != k && j in files ==> files[j] == old(files)[j]
    {
      hide GoodBucket, History, Listing, Ended, Utf8;
      if keep == 0 {
        return Ok(());
      }
      var read := ReadHistory(k);
      if read.Err? {
        return Err(read.error);
      }
      var history := read.value;
      if |history| <= keep {
        return Ok(());
      }
      var contents := Render(history[|history| - keep..]);
      ListingReads(history[|history| - keep..]);
      files := files[k := contents];
      r := Ok(());
    }

    method Copy(from: Key, to: Key) returns (r: Result<bool>)
      modifies this
      ensures old(Valid()) ==> Valid()
      ensures r == CopyOutcome(from, to, old(Legible(from)), old(Legible(to)), old(Versions(from)))
      ensures r == Ok(true) ==>
                var was := old(Versions(from));
                Versions(to) == old(Versions(to)) + [was[|was| - 1]] <==> old(to !in files || Ended(files[to]))
      ensures r != Ok(true) ==> files == old(files)
      ensures files.Keys == old(files).Keys + if r == Ok(true) then {to} else {}
      ensures forall j :: j != to && j in files ==> files[j] == old(files)[j]
    {
      hide GoodBucket, History, Ended, Utf8;
      var current := Current(from);
      if current.Err? {
        return Err(current.error);
      }
      if current.value.None? {
        return Ok(false);
      }
      var done := Set(to, current.value.value);
      r := if done.Ok? then Ok(true) else Err(done.error);
    }

    /** The history arrives whole, replacing what was there, legible or not, exactly
        when the key is moved somewhere else; moved onto itself it is lost. */
    method MoveKey(from: Key, to: Key) returns (r: Result<bool>)
      modifies this
      ensures old(Valid()) ==> Valid()
      ensures r == MoveOutcome(from, to, old(Legible(from)), old(Versions(from)))
      ensures r != Ok(true) ==> files == old(files)
      ensures r == Ok(true) ==> from !in files && Legible(to) && (Versions(to) == old(Versions(from)) <==> from != to)
      ensures r == Ok(true) ==> files.Keys == old(files).Keys + {to} - {from}
      ensures forall j :: j != to && j in files ==> j in old(files) && files[j] == old(files)[j]
    {
      hide GoodBucket, History, Listing, Ended, Utf8;
      var read := ReadHistory(from);
      if read.Err? {
        return Err(read.error);
      }
      var history := read.value;
      if history == [] {
        return Ok(false);
      }
      var contents := Render(history);
      ListingReads(history);
      if !GoodBucket(to.bucket) {
        return Err(BadBucket);
      }
      files := files[to := contents];
      var removed := Remove(from);
      r := Ok(true);
    }

    /** The keys of the bucket lose all their versions, those of others none. */
    method DeleteBucket(bucket: Bytes) returns (r: Result<()>)
      modifies this
      ensures old(Valid()) ==> Valid()
      ensures r == if GoodBucket(bucket) then Ok(()) else Err(BadBucket)
      ensures r.Ok? ==> forall k :: k in files <==> k in old(files) && k.bucket != bucket
      ensures forall k :: k in files ==> k in old(files) && files[k] == old(files)[k]
      ensures r.Ok? ==> forall k :: Versions(k) == if k.bucket == bucket then [] else old(Versions(k))
      ensures r.Err? ==> files == old(files)
    {
      if !GoodBucket(bucket) {
        return Err(BadBucket);
      }
      files := files - (set k | k in files && k.bucket == bucket);
      r := Ok(());
    }
  }
}
