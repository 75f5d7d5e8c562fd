/** Runs of the protocol with one careless step, each of which loses the data of
    a committed object: one for the pin, the manifest, the end of a write, the abort,
    the adoption (of an import and of a restored id) and the removal. A trim asks
    what a removal asks, so no condition of Protocol.Careful can be spared. */
module Careless {
  import opened Common
  import opened Hashing
  import opened Sweeping
  import opened Protocol

  /** A run that ends in `s` and was careful except, perhaps, at step `slip`. */
  ghost predicate Slips(states: seq<State>, actions: seq<Action>, slip: nat, s: State)
  {
    && Run(states, actions) && states[|actions|] == s
    && forall i :: 0 <= i < |actions| && i != slip ==> Careful(states[i], actions[i])
  }

  lemma Go(states: seq<State>, actions: seq<Action>, slip: nat, s: State, a: Action)
    returns (states': seq<State>, actions': seq<Action>, s': State)
    requires Slips(states, actions, slip, s) && Enabled(s, a)
    requires |actions| == slip || Careful(s, a)
    ensures s' == Apply(s, a) && actions' == actions + [a] && Slips(states', actions', slip, s')
  {
    hide Apply, Enabled, Careful;
    s' := Apply(s, a);
    states', actions' := states + [s'], actions + [a];
    forall i | 0 <= i < |actions'|
      ensures Enabled(states'[i], actions'[i]) && states'[i + 1] == Apply(states'[i], actions'[i])
      ensures i != slip ==> Careful(states'[i], actions'[i])
    {
      assert i < |actions| ==> states'[i] == states[i] && actions'[i] == actions[i] && states'[i + 1] == states[i + 1];
    }
  }

  lemma Start(slip: nat) returns (states: seq<State>, actions: seq<Action>, s: State)
    ensures Slips(states, actions, slip, s) && s == EMPTY && |actions| == 0
  {
    states, actions, s := [EMPTY], [], EMPTY;
  }

  /** A write by `t` of the single chunk `h`, as far as the pin. */
  lemma StoreAndPin(states: seq<State>, actions: seq<Action>, slip: nat, s: State, t: nat, h: Digest)
    returns (states': seq<State>, actions': seq<Action>, s': State)
    requires Slips(states, actions, slip, s) && t !in s.owners && s.sweep.None?
    ensures actions' == actions + [Begin(t), Store(t, h), Pin(t)] && Slips(states', actions', slip, s')
    ensures s' == s.(disk := s.disk + {h}, pinned := s.pinned + {h},
                     owners := s.owners[t := Owner([h], [h], None, Storing, false)])
  {
    states', actions', s' := Go(states, actions, slip, s, Begin(t));
    states', actions', s' := Go(states', actions', slip, s', Store(t, h));
    states', actions', s' := Go(states', actions', slip, s', Pin(t));
    assert [] + [h] == [h];
    assert s'.owners == s.owners[t := Owner([h], [h], None, Storing, false)];
  }

  /** The state holds the chunk `h` alone, and nothing protects it. */
  ghost predicate Loose(s: State, h: Digest)
  {
    s.sweep.None? && s.disk == {h} && h !in s.pinned && s.pointers == map[]
  }

  lemma MarkNothing(s: State, h: Digest)
    requires Loose(s, h)
    ensures Enabled(s, BeginSweep(0, 0)) && Enabled(Apply(s, BeginSweep(0, 0)), EndMark)
    ensures Apply(Apply(s, BeginSweep(0, 0)), EndMark)
         == s.(sweep := Some(Erasing(Pass(0, s.pinned), 0, {}, s.condemned)))
  {
  }

  lemma VisitLoose(s: State, h: Digest)
    requires Loose(s, h)
    ensures var read := s.(sweep := Some(Erasing(Pass(0, s.pinned), 0, {}, s.condemned)));
            && Enabled(read, Reconcile(h))
            && var seen := Apply(read, Reconcile(h));
            && Enabled(seen, EndSweep)
            && Apply(seen, EndSweep) == if h in s.condemned then s.(disk := {}, condemned := s.condemned - {h})
                                        else s.(condemned := s.condemned[h := 0])
  {
    assert {h} - {h} == {};
  }

  /** A pass with no grace over a lone chunk nobody holds: the first stamps it,
      the next erases it. */
  lemma SweepOnce(states: seq<State>, actions: seq<Action>, slip: nat, s: State, h: Digest)
    returns (states': seq<State>, actions': seq<Action>, s': State)
    requires Slips(states, actions, slip, s) && Loose(s, h)
    ensures Slips(states', actions', slip, s') && actions <= actions' && |actions'| == |actions| + 4
    ensures s' == if h in s.condemned then s.(disk := {}, condemned := s.condemned - {h})
                  else s.(condemned := s.condemned[h := 0])
  {
    hide Slips, Apply, Loose, Enabled;
    MarkNothing(s, h);
    VisitLoose(s, h);
    states', actions', s' := Go(states, actions, slip, s, BeginSweep(0, 0));
    states', actions', s' := Go(states', actions', slip, s', EndMark);
    states', actions', s' := Go(states', actions', slip, s', Reconcile(h));
    states', actions', s' := Go(states', actions', slip, s', EndSweep);
  }

  /** Two passes with no grace erase a lone chunk nobody holds. */
  lemma SweepTwice(states: seq<State>, actions: seq<Action>, slip: nat, s: State, h: Digest)
    returns (states': seq<State>, actions': seq<Action>, s': State)
    requires Slips(states, actions, slip, s) && Loose(s, h) && s.condemned == map[]
    ensures Slips(states', actions', slip, s') && actions <= actions' && |actions'| == |actions| + 8
    ensures s' == s.(disk := {}, condemned := s'.condemned)
  {
    hide Slips;
    states', actions', s' := SweepOnce(states, actions, slip, s, h);
    states', actions', s' := SweepOnce(states', actions', slip, s', h);
  }

  /** Two writers share a chunk and one gives up: its unpin takes the other's
      protection with it, and the survivor commits an object without its bytes. */
  lemma SharedPinLosesData(h: Digest, id: Digest, k: Key)
    returns (states: seq<State>, actions: seq<Action>)
    ensures Run(states, actions) && !Safe(states[|actions|])
    ensures forall i :: 0 <= i < |actions| && i != 6 ==> Careful(states[i], actions[i])
    ensures |actions| > 6 && actions[6] == Finish(1)
  {
    hide Slips;
    var s;
    states, actions, s := Start(6);
    states, actions, s := StoreAndPin(states, actions, 6, s, 0, h);
    states, actions, s := StoreAndPin(states, actions, 6, s, 1, h);
    ElemsOne(h);
    states, actions, s := Go(states, actions, 6, s, Finish(1));
    states, actions, s := SweepTwice(states, actions, 6, s, h);
    states, actions, s := Commit(states, actions, 6, s, 0, h, id, k);
    Report(states, actions, 6, s);
  }

  lemma Report(states: seq<State>, actions: seq<Action>, slip: nat, s: State)
    requires Slips(states, actions, slip, s)
    ensures Run(states, actions) && states[|actions|] == s
    ensures forall i :: 0 <= i < |actions| && i != slip ==> Careful(states[i], actions[i])
  {
  }

  /** The end of a write whose only chunk is gone. */
  lemma Commit(states: seq<State>, actions: seq<Action>, slip: nat, s: State, t: nat, h: Digest, id: Digest, k: Key)
    returns (states': seq<State>, actions': seq<Action>, s': State)
    requires Slips(states, actions, slip, s) && |actions| > slip
    requires t in s.owners && s.owners[t].chunks == [h] && s.owners[t].landing.None? && s.owners[t].phase.Storing?
    requires id !in s.manifests && h !in s.disk
    ensures Slips(states', actions', slip, s') && actions <= actions' && !Safe(s')
  {
    hide Slips;
    states', actions', s' := Go(states, actions, slip, s, WriteManifest(t, id));
    assert s'.manifests[id] == [h];
    states', actions', s' := Go(states', actions', slip, s', SetPointer(t, k));
    assert s'.pointers[k][|History(s, k)|] == id;
    assert h in Elems(s'.manifests[id]);
  }

  /** A pass between storing a chunk and pinning it: the pin protects a chunk
      that is no longer there. */
  lemma LatePinLosesData(h: Digest, id: Digest, k: Key)
    returns (states: seq<State>, actions: seq<Action>, slip: nat)
    ensures Run(states, actions) && !Safe(states[|actions|])
    ensures slip < |actions| && actions[slip] == Pin(0)
    ensures forall i :: 0 <= i < |actions| && i != slip ==> Careful(states[i], actions[i])
  {
    hide Slips;
    var s;
    states, actions, s := Start(10);
    states, actions, s := Go(states, actions, 10, s, Begin(0));
    states, actions, s := Go(states, actions, 10, s, Store(0, h));
    assert s.disk == {h};
    states, actions, s := SweepTwice(states, actions, 10, s, h);
    slip := 10;
    states, actions, s := Go(states, actions, 10, s, Pin(0));
    assert s.owners[0].chunks == [h];
    states, actions, s := Commit(states, actions, 10, s, 0, h, id, k);
    Report(states, actions, 10, s);
  }

  /** An object written and deleted again: its manifest and chunk stay behind. */
  lemma WriteAndRemove(slip: nat, h: Digest, id: Digest, k: Key)
    returns (states: seq<State>, actions: seq<Action>, s: State)
    requires slip > 6
    ensures Slips(states, actions, slip, s) && |actions| == 7
    ensures s == State({h}, map[id := [h]], map[], {}, map[], map[], map[], map[], None)
  {
    hide Slips;
    states, actions, s := Start(slip);
    states, actions, s := StoreAndPin(states, actions, slip, s, 0, h);
    states, actions, s := Go(states, actions, slip, s, WriteManifest(0, id));
    assert s.manifests == map[id := [h]];
    states, actions, s := Go(states, actions, slip, s, SetPointer(0, k));
    ElemsOne(h);
    states, actions, s := Go(states, actions, slip, s, Finish(0));
    states, actions, s := Go(states, actions, slip, s, Remove(k));
    assert s.disk == {h} && s.pinned == {} && s.pointers == map[] && s.owners == map[];
  }

  /** The object listed under `k` names a chunk that is gone. */
  lemma Lost(s: State, k: Key, id: Digest, h: Digest)
    requires k in s.pointers && id in s.pointers[k] && id in s.manifests && h in s.manifests[id] && h !in s.disk
    ensures !Safe(s)
  {
    var i :| 0 <= i < |s.pointers[k]| && s.pointers[k][i] == id;
    assert h in Elems(s.manifests[s.pointers[k][i]]);
  }

  /** An id adopted whose chunk is gone. */
  lemma AdoptLost(states: seq<State>, actions: seq<Action>, s: State, k: Key, id: Digest, h: Digest)
    returns (states': seq<State>, actions': seq<Action>, s': State)
    requires Slips(states, actions, |actions|, s)
    requires 0 in s.adopters && s.adopters[0] == Adopting([id], false)
    requires id in s.manifests && h in s.manifests[id] && h !in s.disk
    ensures Slips(states', actions', |actions|, s') && actions' == actions + [Adopt(0, k)] && !Safe(s')
  {
    hide Slips, Careful;
    states', actions', s' := Go(states, actions, |actions|, s, Adopt(0, k));
    Lost(s', k, id, h);
  }

  /** Restoring an id that no history lists any more: the manifest is still
      stored, its chunks are not. */
  lemma UnlistedRestoreLosesData(h: Digest, id: Digest, k: Key)
    returns (states: seq<State>, actions: seq<Action>, slip: nat)
    ensures Run(states, actions) && !Safe(states[|actions|])
    ensures 0 < slip < |actions| && actions[slip - 1] == BeginRestore(0, id) && actions[slip] == Adopt(0, k)
    ensures forall i :: 0 <= i < |actions| && i != slip ==> Careful(states[i], actions[i])
  {
    hide Slips;
    var s;
    slip := 16;
    states, actions, s := WriteAndRemove(slip, h, id, k);
    states, actions, s := SweepTwice(states, actions, slip, s, h);
    states, actions, s := Go(states, actions, slip, s, BeginRestore(0, id));
    states, actions, s := AdoptLost(states, actions, s, k, id, h);
    Report(states, actions, slip, s);
  }

  /** A chunk arrives and an import finds it on disk. */
  lemma CheckImport(slip: nat, h: Digest)
    returns (states: seq<State>, actions: seq<Action>, s: State)
    requires slip >= 3
    ensures Slips(states, actions, slip, s) && actions == [Receive(h), BeginImport(0, [h]), CheckChunk(0)]
    ensures s == EMPTY.(disk := {h}, adopters := map[0 := Checking([h], 1)])
  {
    hide Slips;
    states, actions, s := Start(slip);
    states, actions, s := Go(states, actions, slip, s, Receive(h));
    assert s.disk == {h};
    states, actions, s := Go(states, actions, slip, s, BeginImport(0, [h]));
    states, actions, s := Go(states, actions, slip, s, CheckChunk(0));
    assert s.adopters == map[0 := Checking([h], 1)];
  }

  /** An import that finds its chunk on disk and commits two passes later: nothing
      pinned the chunk meanwhile, and nothing looks again. */
  lemma SlowImportLosesData(h: Digest, id: Digest, k: Key)
    returns (states: seq<State>, actions: seq<Action>, slip: nat)
    ensures Run(states, actions) && !Safe(states[|actions|])
    ensures 3 <= slip < |actions| && actions[..3] == [Receive(h), BeginImport(0, [h]), CheckChunk(0)]
    ensures actions[slip] == Adopt(0, k)
    ensures forall i :: 0 <= i < |actions| && i != slip ==> Careful(states[i], actions[i])
  {
    hide Slips;
    var s;
    slip := 12;
    states, actions, s := CheckImport(slip, h);
    states, actions, s := SweepTwice(states, actions, slip, s, h);
    states, actions, s := Go(states, actions, slip, s, ImportManifest(0, id));
    states, actions, s := AdoptLost(states, actions, s, k, id, h);
    Report(states, actions, slip, s);
  }

  /** An upload staged with the one part `[h]`. */
  lemma StagePart(slip: nat, h: Digest) returns (states: seq<State>, actions: seq<Action>, s: State)
    requires slip >= 5
    ensures Slips(states, actions, slip, s) && |actions| == 5
    ensures s == EMPTY.(disk := {h}, pinned := {h}, staged := map[0 := Upload(map[0 := [h]], [h])])
  {
    hide Slips;
    states, actions, s := Start(slip);
    states, actions, s := Go(states, actions, slip, s, CreateUpload(0));
    states, actions, s := StoreAndPin(states, actions, slip, s, 1, h);
    states, actions, s := Go(states, actions, slip, s, HandOver(1, 0, 0));
    assert s.disk == {h} && s.pinned == {h} && s.owners == map[];
    assert [] + [h] == [h];
    assert s.staged == map[0 := Upload(map[0 := [h]], [h])];
  }

  /** A staged upload shares its chunk with a writer and is aborted. */
  lemma SharedAbortLosesData(h: Digest, id: Digest, k: Key)
    returns (states: seq<State>, actions: seq<Action>, slip: nat)
    ensures Run(states, actions) && !Safe(states[|actions|])
    ensures slip < |actions| && actions[slip] == AbortUpload(0)
    ensures forall i :: 0 <= i < |actions| && i != slip ==> Careful(states[i], actions[i])
  {
    hide Slips;
    var s;
    slip := 8;
    states, actions, s := StagePart(slip, h);
    states, actions, s := StoreAndPin(states, actions, slip, s, 0, h);
    ElemsOne(h);
    states, actions, s := Go(states, actions, slip, s, AbortUpload(0));
    states, actions, s := SweepTwice(states, actions, slip, s, h);
    states, actions, s := Commit(states, actions, slip, s, 0, h, id, k);
    Report(states, actions, slip, s);
  }

  /** Two manifests of one id: the second is not written, and the key names the
      first, whose chunk is gone. */
  lemma CollidingManifestLosesData(h: Digest, g: Digest, id: Digest, k: Key)
    returns (states: seq<State>, actions: seq<Action>, slip: nat)
    requires g != h
    ensures Run(states, actions) && !Safe(states[|actions|])
    ensures slip < |actions| && actions[slip] == WriteManifest(0, id)
    ensures forall i :: 0 <= i < |actions| && i != slip ==> Careful(states[i], actions[i])
  {
    hide Slips;
    var s;
    slip := 18;
    states, actions, s := WriteAndRemove(slip, h, id, k);
    states, actions, s := SweepTwice(states, actions, slip, s, h);
    states, actions, s := StoreAndPin(states, actions, slip, s, 0, g);
    states, actions, s := Go(states, actions, slip, s, WriteManifest(0, id));
    states, actions, s := Go(states, actions, slip, s, SetPointer(0, k));
    Lost(s, k, id, h);
    Report(states, actions, slip, s);
  }

  /** A key is imported whose only chunk was stamped while nothing named it. */
  lemma ImportStamped(slip: nat, h: Digest, id: Digest, k: Key)
    returns (states: seq<State>, actions: seq<Action>, s: State)
    requires slip >= 9
    ensures Slips(states, actions, slip, s) && |actions| == 9
    ensures s == State({h}, map[id := [h]], map[k := [id]], {}, map[h := 0], map[], map[], map[], None)
  {
    hide Slips;
    states, actions, s := Start(slip);
    states, actions, s := Go(states, actions, slip, s, Receive(h));
    assert s.disk == {h};
    states, actions, s := SweepOnce(states, actions, slip, s, h);
    states, actions, s := Go(states, actions, slip, s, BeginImport(0, [h]));
    states, actions, s := Go(states, actions, slip, s, CheckChunk(0));
    states, actions, s := Go(states, actions, slip, s, ImportManifest(0, id));
    ShownOne(s.manifests, id);
    ElemsOne(h);
    states, actions, s := Go(states, actions, slip, s, Adopt(0, k));
    assert s.adopters == map[] && [] + [id] == [id];
  }

  /** A key moved during the mark, from a place the walk has not come to, to one
      it has been past: the walk never sees it, and its aged chunk is erased. */
  lemma MoveDuringMarkLosesData(h: Digest, id: Digest, from: Key, to: Key)
    returns (states: seq<State>, actions: seq<Action>, slip: nat)
    requires from != to
    ensures Run(states, actions) && !Safe(states[|actions|])
    ensures 2 <= slip < |actions| && actions[slip - 2..slip + 1] == [BeginMove(1, from), Adopt(1, to), Remove(from)]
    ensures forall i :: 0 <= i < |actions| && i != slip ==> Careful(states[i], actions[i])
  {
    hide Slips;
    var s;
    slip := 12;
    states, actions, s := ImportStamped(slip, h, id, from);
    states, actions, s := Go(states, actions, slip, s, BeginSweep(0, 0));
    assert map[from := [id]].Keys == {from};
    states, actions, s := MoveKey(states, actions, s, h, id, from, to);
    states, actions, s := EraseUnmarked(states, actions, slip, s, h);
    Lost(s, to, id, h);
    Report(states, actions, slip, s);
  }

  /** The end of a walk that marked nothing, and the visit of an aged chunk. */
  lemma EraseUnmarked(states: seq<State>, actions: seq<Action>, slip: nat, s: State, h: Digest)
    returns (states': seq<State>, actions': seq<Action>, s': State)
    requires Slips(states, actions, slip, s) && s.sweep == Some(Marking(0, 0, {}, {}))
    requires s.disk == {h} && h in s.condemned
    ensures Slips(states', actions', slip, s') && actions <= actions'
    ensures s'.disk == {} && s'.manifests == s.manifests && s'.pointers == s.pointers
  {
    hide Slips;
    states', actions', s' := Go(states, actions, slip, s, EndMark);
    states', actions', s' := Go(states', actions', slip, s', Reconcile(h));
    assert {h} - {h} == {};
  }

  lemma MoveKey(states: seq<State>, actions: seq<Action>, s: State, h: Digest, id: Digest, from: Key, to: Key)
    returns (states': seq<State>, actions': seq<Action>, s': State)
    requires from != to && |actions| == 10 && Slips(states, actions, 12, s)
    requires s == State({h}, map[id := [h]], map[from := [id]], {}, map[h := 0], map[], map[], map[],
                        Some(Marking(0, 0, {}, {from})))
    ensures Slips(states', actions', 12, s')
    ensures actions' == actions + [BeginMove(1, from), Adopt(1, to), Remove(from)]
    ensures s' == s.(pointers := map[to := [id]], sweep := Some(Marking(0, 0, {}, {})))
  {
    hide Slips, Apply, Enabled, Careful;
    MoveSteps(s, h, id, from, to);
    states', actions', s' := Go(states, actions, 12, s, BeginMove(1, from));
    states', actions', s' := Go(states', actions', 12, s', Adopt(1, to));
    states', actions', s' := Go(states', actions', 12, s', Remove(from));
  }

  lemma MoveSteps(s: State, h: Digest, id: Digest, from: Key, to: Key)
    requires from != to
    requires s == State({h}, map[id := [h]], map[from := [id]], {}, map[h := 0], map[], map[], map[],
                        Some(Marking(0, 0, {}, {from})))
    ensures Enabled(s, BeginMove(1, from)) && Careful(s, BeginMove(1, from))
    ensures var read := Apply(s, BeginMove(1, from));
            && Enabled(read, Adopt(1, to)) && Careful(read, Adopt(1, to))
            && var put := Apply(read, Adopt(1, to));
            && Enabled(put, Remove(from))
            && Apply(put, Remove(from)) == s.(pointers := map[to := [id]], sweep := Some(Marking(0, 0, {}, {})))
  {
    var read := s.(adopters := map[1 := Adopting([id], true)]);
    hide Careful, Apply, Enabled;
    MoveBegins(s, from, id);
    OthersAreCareful(s, BeginMove(1, from));
    MoveAdopts(s, read, h, id, from, to);
    var put := s.(pointers := map[from := [id], to := [id]]);
    MoveRemoves(put, from, to, id);
  }

  lemma MoveBegins(s: State, from: Key, id: Digest)
    requires s.adopters == map[] && s.pointers == map[from := [id]]
    ensures Enabled(s, BeginMove(1, from))
    ensures Apply(s, BeginMove(1, from)) == s.(adopters := map[1 := Adopting([id], true)])
  {
  }

  lemma MoveAdopts(s: State, read: State, h: Digest, id: Digest, from: Key, to: Key)
    requires from != to && s.disk == {h} && s.manifests == map[id := [h]] && s.pointers == map[from := [id]]
    requires s.adopters == map[] && Todo(s) == {from} && read == s.(adopters := map[1 := Adopting([id], true)])
    ensures Enabled(read, Adopt(1, to)) && Careful(read, Adopt(1, to))
    ensures Apply(read, Adopt(1, to)) == s.(pointers := map[from := [id], to := [id]])
  {
    hide CanAdopt, HidesNothing;
    ShownOne(s.manifests, id);
    ElemsOne(h);
    MayAdopt(read, [id], from, to);
    assert read.adopters - {1} == map[];
  }

  lemma MoveRemoves(put: State, from: Key, to: Key, id: Digest)
    requires from != to && put.pointers == map[from := [id], to := [id]]
    requires put.sweep == Some(Marking(0, 0, {}, {from}))
    ensures Enabled(put, Remove(from))
    ensures Apply(put, Remove(from)) == put.(pointers := map[to := [id]], sweep := Some(Marking(0, 0, {}, {})))
  {
    assert put.pointers - {from} == map[to := [id]] && {from} - {from} == {};
  }

  /** What a key still to be read lists may be put under a key passed over. */
  lemma MayAdopt(s: State, ids: seq<Digest>, from: Key, to: Key)
    requires from in Todo(s) && to !in Todo(s) && ids == History(s, from)
    requires Shown(s.manifests, ids) <= s.disk
    ensures CanAdopt(s, ids, to) && HidesNothing(s, to, ids)
  {
    hide Shown, Due;
    forall h | h in Shown(s.manifests, ids)
      ensures h in Kept(s)
    {
      ToComeIsKept(s, from, h);
    }
  }
}
