/** Mark and sweep over the stores (crates/barme-gc/src/lib.rs). */
module Collector {
  import opened Bits
  import opened Common
  import opened Hashing
  import opened Stores
  import opened Sweeping

  /** The ids in the histories of these keys. */
  function Listed(pointers: PointerStore, keys: set<Key>): set<Digest>
    reads pointers
  {
    set k, i | k in keys && 0 <= i < |pointers.Versions(k)| :: pointers.Versions(k)[i]
  }

  /** Nothing stops the walk over these keys: each key's file is text, and no
      manifest it lists is of a newer form than this build reads. */
  ghost predicate Walkable(pointers: PointerStore, manifests: ManifestStore, keys: set<Key>)
    reads pointers, manifests
  {
    (forall k :: k in keys ==> pointers.Legible(k)) && AllSupported(manifests, Listed(pointers, keys))
  }

  ghost predicate AllSupported(manifests: ManifestStore, ids: set<Digest>)
    reads manifests
  {
    forall id :: id in ids ==> manifests.Supported(id)
  }

  /** The chunks the stored manifests under these ids name. */
  function ChunksOf(manifests: map<Digest, Manifest>, ids: set<Digest>): set<Digest>
  {
    set id, i | id in ids && id in manifests && 0 <= i < |manifests[id].chunks| :: manifests[id].chunks[i]
  }

  /** What the collector must keep: everything some history leads to. */
  function Reachable(pointers: PointerStore, manifests: map<Digest, Manifest>): set<Digest>
    reads pointers
  {
    ChunksOf(manifests, Listed(pointers, pointers.files.Keys))
  }

  /** What a sweep did, counted over the chunks it saw. */
  datatype Tally = Tally(condemned: nat, erased: nat, live: nat)

  /** The counts of a pass: newly stamped, erased, and reachable. */
  function PassTally(disk: set<Digest>, marked: set<Digest>, stamps: map<Digest, nat>, now: nat, grace: nat): Tally
  {
    Tally(|Stamped(disk, marked, stamps)|, |Erased(disk, marked, stamps, now, grace)|, |disk * marked|)
  }

  class Gc {
    const chunks: ChunkStore
    const manifests: ManifestStore
    const pointers: PointerStore
    const grace: nat

    constructor (chunks: ChunkStore, manifests: ManifestStore, pointers: PointerStore, grace: nat)
      ensures this.chunks == chunks && this.manifests == manifests && this.pointers == pointers && this.grace == grace
    {
      this.chunks, this.manifests, this.pointers, this.grace := chunks, manifests, pointers, grace;
    }

    /** One key that cannot be read, or one listed manifest of a newer form, and
        nothing is collected at all. */
    method Mark() returns (r: Result<set<Digest>>)
      requires forall k :: k in pointers.files ==> GoodBucket(k.bucket)
      ensures r.Ok? ==> r.value == chunks.pinned + Reachable(pointers, manifests.files)
      ensures manifests.Valid() ==> (r.Ok? <==> Walkable(pointers, manifests, pointers.files.Keys))
    {
      hide GoodBucket, ManifestStore.Valid;
      var reachable, seen: set<Digest> := chunks.pinned, {};
      ghost var walked: set<Key> := {};
      var buckets := set k | k in pointers.files :: k.bucket;
      while buckets != {}
        invariant walked == set k | k in pointers.files && k.bucket !in buckets
        invariant seen == Listed(pointers, walked) && reachable == chunks.pinned + ChunksOf(manifests.files, seen)
        invariant manifests.Valid() ==> Walkable(pointers, manifests, walked)
        decreases buckets
      {
        var bucket :| bucket in buckets;
        var keys := set k | k in pointers.files && k.bucket == bucket;
        ghost var before := walked;
        while keys != {}
          invariant keys !! walked && walked + keys == before + (set k | k in pointers.files && k.bucket == bucket)
          invariant seen == Listed(pointers, walked) && reachable == chunks.pinned + ChunksOf(manifests.files, seen)
          invariant manifests.Valid() ==> Walkable(pointers, manifests, walked)
          decreases keys
        {
          var key :| key in keys;
          var failed;
          failed, reachable, seen := MarkKey(key, reachable, seen, walked);
          if failed.Some? {
            return Err(failed.value);
          }
          keys, walked := keys - {key}, walked + {key};
        }
        buckets := buckets - {bucket};
      }
      assert walked == pointers.files.Keys;
      r := Ok(reachable);
    }

    /** The versions of one key; a manifest already walked is not walked again, a
        missing one leads nowhere. */
    method MarkKey(key: Key, reachable: set<Digest>, seen: set<Digest>, ghost walked: set<Key>)
      returns (failed: Option<Error>, reachable': set<Digest>, seen': set<Digest>)
      requires GoodBucket(key.bucket)
      requires seen == Listed(pointers, walked) && reachable == chunks.pinned + ChunksOf(manifests.files, seen)
      requires manifests.Valid() ==> Walkable(pointers, manifests, walked)
      ensures manifests.Valid() ==> (failed.None? <==> Walkable(pointers, manifests, walked + {key}))
      ensures failed.None? ==> seen' == Listed(pointers, walked + {key})
      ensures failed.None? ==> reachable' == chunks.pinned + ChunksOf(manifests.files, seen')
    {
      hide ChunksOf, Listed, Elems, ManifestStore.Valid, AllSupported;
      OneMoreKey(pointers, walked, key);
      OneMoreSupported(manifests, Listed(pointers, walked), Elems(pointers.Versions(key)));
      var read := pointers.ReadHistory(key);
      if read.Err? {
        return Some(read.error), reachable, seen;
      }
      failed, reachable', seen' := MarkIds(read.value, reachable, seen);
    }

    method MarkIds(history: seq<Digest>, reachable: set<Digest>, seen: set<Digest>)
      returns (failed: Option<Error>, reachable': set<Digest>, seen': set<Digest>)
      requires reachable == chunks.pinned + ChunksOf(manifests.files, seen)
      requires manifests.Valid() ==> AllSupported(manifests, seen)
      ensures manifests.Valid() ==> (failed.None? <==> AllSupported(manifests, seen + Elems(history)))
      ensures failed.None? ==> seen' == seen + Elems(history)
      ensures failed.None? ==> reachable' == chunks.pinned + ChunksOf(manifests.files, seen')
    {
      hide ChunksOf, ManifestStore.Valid, ManifestStore.Supported;
      failed, reachable', seen' := None, reachable, seen;
      var i := 0;
      ElemsNone(history);
      while i < |history|
        invariant i <= |history| && seen' == seen + Elems(history[..i]) && failed.None?
        invariant reachable' == chunks.pinned + ChunksOf(manifests.files, seen')
        invariant manifests.Valid() ==> AllSupported(manifests, seen')
      {
        ElemsNext(history, i);
        failed, reachable', seen' := MarkId(history[i], reachable', seen');
        if failed.Some? {
          return;
        }
        i := i + 1;
      }
      assert history[..i] == history;
    }

    method MarkId(id: Digest, reachable: set<Digest>, seen: set<Digest>)
      returns (failed: Option<Error>, reachable': set<Digest>, seen': set<Digest>)
      requires reachable == chunks.pinned + ChunksOf(manifests.files, seen)
      ensures manifests.Valid() ==> (failed.None? <==> id in seen || manifests.Supported(id))
      ensures failed.None? ==> seen' == seen + {id} && reachable' == chunks.pinned + ChunksOf(manifests.files, seen')
    {
      hide ChunksOf, Elems, ManifestStore.Valid;
      failed, reachable', seen' := None, reachable, seen;
      if id in seen {
        return;
      }
      var found := manifests.Get(id);
      if found.Err? {
        failed := Some(found.error);
        return;
      }
      OneMoreId(manifests.files, seen, id);
      seen' := seen + {id};
      if found.value.Some? {
        reachable' := reachable + Elems(found.value.value.chunks);
      }
    }

    /** A sweep whose mark fails touches nothing, at any grace and however often. */
    method Sweep(now: nat) returns (r: Result<Tally>)
      requires chunks.Valid() && manifests.Valid() && forall k :: k in pointers.files ==> GoodBucket(k.bucket)
      modifies chunks`files, chunks`condemned
      ensures chunks.Valid()
      ensures r.Ok? <==> old(Walkable(pointers, manifests, pointers.files.Keys))
      ensures r.Err? ==> chunks.files == old(chunks.files) && chunks.condemned == old(chunks.condemned)
      ensures var disk, stamps := old(chunks.files.Keys), old(chunks.Stamps());
              var marked := old(chunks.pinned + Reachable(pointers, manifests.files));
              r.Ok? ==>
                && chunks.files == old(chunks.files) - Erased(disk, marked, stamps, now, grace)
                && chunks.Stamps() == Condemned(disk, marked, stamps, now, grace)
                && r == Ok(PassTally(disk, marked, stamps, now, grace))
                && r.value.erased == |disk - chunks.files.Keys|
                && r.value.condemned == |chunks.Stamps().Keys - stamps.Keys|
                && r.value.live == |disk * marked|
    {
      hide Reachable, Condemned, Erased, Stamped, ChunkStore.Valid, ManifestStore.Valid, Walkable, GoodBucket;
      var mark := Mark();
      if mark.Err? {
        return Err(mark.error);
      }
      ghost var disk, stamps := chunks.files.Keys, chunks.Stamps();
      var condemned, out := ReconcileAll(now, mark.value);
      chunks.SaveCondemned(condemned);
      TallyCounts(disk, mark.value, stamps, now, grace);
      r := Ok(out);
    }

    method ReconcileAll(now: nat, marked: set<Digest>) returns (condemned: map<Digest, nat>, out: Tally)
      requires chunks.Valid()
      modifies chunks`files
      ensures chunks.Valid()
      ensures var disk, stamps := old(chunks.files.Keys), chunks.Stamps();
              && chunks.files == old(chunks.files) - Erased(disk, marked, stamps, now, grace)
              && condemned == Condemned(disk, marked, stamps, now, grace)
              && out == PassTally(disk, marked, stamps, now, grace)
    {
      hide Visit, Condemned, Erased, Stamped, Through, Aged, Tallied, Elems, Within;
      condemned := chunks.LoadCondemned();
      var all := chunks.All();
      ghost var start, p := Shelf(chunks.files.Keys, condemned), Pass(now, marked);
      out := Tally(0, 0, 0);
      var i := 0;
      ThroughNone(start, p, grace, all);
      WithinItself(chunks.files);
      while i < |all|
        invariant i <= |all| && chunks.Valid()
        invariant Through(start, p, grace, all[..i], Shelf(chunks.files.Keys, condemned), out)
        invariant Within(chunks.files, old(chunks.files))
      {
        ThroughOne(start, p, grace, all, i, Shelf(chunks.files.Keys, condemned), out);
        ghost var before := chunks.files;
        condemned, out := Reconcile(all[i], now, marked, condemned, out);
        WithinTransitive(chunks.files, before, old(chunks.files));
        i := i + 1;
      }
      ThroughAll(start, p, grace, all, Shelf(chunks.files.Keys, condemned), out);
      WithinIsLess(chunks.files, old(chunks.files));
    }

    /** What the loop does with one stored chunk. */
    method Reconcile(h: Digest, now: nat, marked: set<Digest>, condemned: map<Digest, nat>, out: Tally)
      returns (condemned': map<Digest, nat>, out': Tally)
      requires chunks.Valid() && h in chunks.files
      modifies chunks`files
      ensures chunks.Valid() && Within(chunks.files, old(chunks.files))
      ensures Shelf(chunks.files.Keys, condemned')
           == Visit(Shelf(old(chunks.files).Keys, condemned), Pass(now, marked), grace, h)
      ensures out' == Tallied(condemned, Pass(now, marked), grace, h, out)
    {
      condemned', out' := condemned, out;
      if h in marked {
        condemned' := condemned - {h};
        out' := out.(live := out.live + 1);
      } else if h in condemned {
        if Elapsed(now, condemned[h]) >= grace {
          chunks.Delete(h);
          condemned' := condemned - {h};
          out' := out.(erased := out.erased + 1);
        }
      } else {
        condemned' := condemned[h := now];
        out' := out.(condemned := out.condemned + 1);
      }
    }
  }

  /** Some of the entries, unchanged. */
  ghost predicate Within(part: map<Digest, Bytes>, whole: map<Digest, Bytes>)
  {
    forall h :: h in part ==> h in whole && part[h] == whole[h]
  }

  lemma WithinItself(m: map<Digest, Bytes>)
    ensures Within(m, m)
  {
  }

  lemma WithinTransitive(a: map<Digest, Bytes>, b: map<Digest, Bytes>, c: map<Digest, Bytes>)
    requires Within(a, b) && Within(b, c)
    ensures Within(a, c)
  {
  }

  lemma WithinIsLess(part: map<Digest, Bytes>, whole: map<Digest, Bytes>)
    requires Within(part, whole)
    ensures part == whole - (whole.Keys - part.Keys)
  {
  }

  function Tallied(condemned: map<Digest, nat>, p: Pass, grace: nat, h: Digest, t: Tally): Tally
  {
    if h in p.marked then t.(live := t.live + 1)
    else if Aged(condemned, h, p.now, grace) then t.(erased := t.erased + 1)
    else if h in condemned then t
    else t.(condemned := t.condemned + 1)
  }

  /** The loop has come through these chunks, and the tally is of them. */
  ghost predicate Through(start: Shelf, p: Pass, grace: nat, chunks: seq<Digest>, now: Shelf, t: Tally)
  {
    now == VisitEach(start, p, grace, chunks) && Counted(start, p, grace, Elems(chunks), t)
  }

  /** The tally of what was done with the chunks in `seen`. */
  ghost predicate Counted(start: Shelf, p: Pass, grace: nat, seen: set<Digest>, t: Tally)
  {
    && t.condemned == |Stamped(start.disk, p.marked, start.condemned) * seen|
    && t.erased == |Erased(start.disk, p.marked, start.condemned, p.now, grace) * seen|
    && t.live == |start.disk * p.marked * seen|
  }

  lemma ThroughNone(start: Shelf, p: Pass, grace: nat, all: seq<Digest>)
    ensures Through(start, p, grace, all[..0], start, Tally(0, 0, 0))
  {
  }

  lemma ThroughOne(start: Shelf, p: Pass, grace: nat, all: seq<Digest>, i: nat, now: Shelf, t: Tally)
    requires Distinct(all) && i < |all| && start.disk == Elems(all)
    requires Through(start, p, grace, all[..i], now, t)
    ensures all[i] in now.disk
    ensures Through(start, p, grace, all[..i + 1], Visit(now, p, grace, all[i]),
                    Tallied(now.condemned, p, grace, all[i], t))
  {
    hide Counted, Visit, VisitEach, Elems;
    FirstVisit(start, p, grace, all, i);
    CountOne(start, p, grace, Elems(all[..i]), all[i], t);
    ElemsNext(all, i);
  }

  lemma ThroughAll(start: Shelf, p: Pass, grace: nat, all: seq<Digest>, now: Shelf, t: Tally)
    requires Distinct(all) && start.disk == Elems(all) && Through(start, p, grace, all[..|all|], now, t)
    ensures now == Shelf(start.disk - Erased(start.disk, p.marked, start.condemned, p.now, grace),
                         Condemned(start.disk, p.marked, start.condemned, p.now, grace))
    ensures start.disk - now.disk == Erased(start.disk, p.marked, start.condemned, p.now, grace)
    ensures t == PassTally(start.disk, p.marked, start.condemned, p.now, grace)
  {
    hide Condemned, VisitEach;
    assert all[..|all|] == all;
    VisitingIsThePass(start, p, grace, all);
    CountAll(start, p, grace, t);
  }

  /** The three counts, of the chunks gone, the stamps that are new and the marked
      chunks that were there. */
  lemma TallyCounts(disk: set<Digest>, marked: set<Digest>, stamps: map<Digest, nat>, now: nat, grace: nat)
    ensures var t := PassTally(disk, marked, stamps, now, grace);
            && t.erased == |disk - (disk - Erased(disk, marked, stamps, now, grace))|
            && t.condemned == |Condemned(disk, marked, stamps, now, grace).Keys - stamps.Keys|
            && t.live == |disk * marked|
  {
    assert disk - (disk - Erased(disk, marked, stamps, now, grace)) == Erased(disk, marked, stamps, now, grace);
    assert Condemned(disk, marked, stamps, now, grace).Keys - stamps.Keys == Stamped(disk, marked, stamps);
  }

  lemma CountMore<T>(s: set<T>, seen: set<T>, h: T)
    requires h !in seen
    ensures |s * (seen + {h})| == |s * seen| + if h in s then 1 else 0
  {
    assert s * (seen + {h}) == s * seen + if h in s then {h} else {};
  }

  lemma CountOne(start: Shelf, p: Pass, grace: nat, seen: set<Digest>, h: Digest, t: Tally)
    requires h in start.disk && h !in seen && Counted(start, p, grace, seen, t)
    ensures Counted(start, p, grace, seen + {h}, Tallied(start.condemned, p, grace, h, t))
  {
    CountMore(Stamped(start.disk, p.marked, start.condemned), seen, h);
    CountMore(Erased(start.disk, p.marked, start.condemned, p.now, grace), seen, h);
    CountMore(start.disk * p.marked, seen, h);
  }

  lemma CountAll(start: Shelf, p: Pass, grace: nat, t: Tally)
    requires Counted(start, p, grace, start.disk, t)
    ensures t == PassTally(start.disk, p.marked, start.condemned, p.now, grace)
  {
    assert Stamped(start.disk, p.marked, start.condemned) * start.disk
        == Stamped(start.disk, p.marked, start.condemned);
    assert Erased(start.disk, p.marked, start.condemned, p.now, grace) * start.disk
        == Erased(start.disk, p.marked, start.condemned, p.now, grace);
    assert start.disk * p.marked * start.disk == start.disk * p.marked;
  }

  /** The chunk the loop comes to has the stamp it had when the loop began. */
  lemma FirstVisit(start: Shelf, p: Pass, grace: nat, all: seq<Digest>, i: nat)
    requires Distinct(all) && i < |all| && start.disk == Elems(all)
    ensures var before := VisitEach(start, p, grace, all[..i]);
            && all[i] in before.disk && all[i] in start.disk && all[i] !in Elems(all[..i])
            && (all[i] in before.condemned <==> all[i] in start.condemned)
            && (all[i] in before.condemned ==> before.condemned[all[i]] == start.condemned[all[i]])
            && VisitEach(start, p, grace, all[..i + 1]) == Visit(before, p, grace, all[i])
  {
    VisitedSoFar(start, p, grace, all[..i]);
    assert all[..i + 1][..i] == all[..i];
    assert all[i] !in all[..i];
  }

  lemma OneMoreId(manifests: map<Digest, Manifest>, ids: set<Digest>, id: Digest)
    ensures ChunksOf(manifests, ids + {id})
         == ChunksOf(manifests, ids) + if id in manifests then Elems(manifests[id].chunks) else {}
  {
  }

  lemma OneMoreSupported(manifests: ManifestStore, ids: set<Digest>, more: set<Digest>)
    ensures AllSupported(manifests, ids + more) <==> AllSupported(manifests, ids) && AllSupported(manifests, more)
  {
  }

  lemma OneMoreKey(pointers: PointerStore, keys: set<Key>, key: Key)
    ensures Listed(pointers, keys + {key}) == Listed(pointers, keys) + Elems(pointers.Versions(key))
  {
  }
}
