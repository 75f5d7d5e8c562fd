/** The write / pin / commit / collect protocol as a state machine
    (crates/barme-engine, crates/barme-gc, crates/barme-store). Every action is
    one step another thread, the collector or a crash can fall between. */
module Protocol {
  import opened Bits
  import opened Common
  import opened Hashing
  import opened Sweeping

  /** How far a write has come: storing chunks, manifest written under an id, or
      pointer moved. */
  datatype Phase = Storing | Named(id: Digest) | Committed

  /** An in-flight write or multipart completion. `held` is what its guard will
      unpin, `landing` a chunk stored but not yet pinned. */
  datatype Owner =
    Owner(held: seq<Digest>, chunks: seq<Digest>, landing: Option<Digest>, phase: Phase, completing: bool)

  /** A call that pins nothing: an import that has found its first `checked`
      chunks on disk, or ids about to be written to some key, after what that key
      lists (import, restore, copy) or in its place (move). */
  datatype Adopter = Checking(chunks: seq<Digest>, checked: nat) | Adopting(ids: seq<Digest>, replace: bool)

  datatype Upload = Upload(parts: map<nat, seq<Digest>>, pinned: seq<Digest>)

  /** A collector pass under way. While marking: what it has marked, and the keys
      still to be read. While erasing: the chunks its loop has been through, and
      the condemned map it will save. */
  datatype Sweep =
    | Marking(now: nat, grace: nat, marked: set<Digest>, todo: set<Key>)
    | Erasing(pass: Pass, grace: nat, visited: set<Digest>, condemned: map<Digest, nat>)

  type Manifests = map<Digest, seq<Digest>>

  type Pointers = map<Key, seq<Digest>>

  datatype State = State(
    disk: set<Digest>,
    manifests: Manifests,
    pointers: Pointers,
    pinned: set<Digest>,
    condemned: map<Digest, nat>,
    owners: map<nat, Owner>,
    staged: map<nat, Upload>,
    adopters: map<nat, Adopter>,
    sweep: Option<Sweep>)

  const EMPTY: State := State({}, map[], map[], {}, map[], map[], map[], map[], None)

  function Versions(p: Pointers, k: Key): seq<Digest>
  {
    if k in p then p[k] else []
  }

  function History(s: State, k: Key): seq<Digest>
  {
    Versions(s.pointers, k)
  }

  /** The chunks of those of the ids whose manifests are stored. */
  function Shown(m: Manifests, ids: seq<Digest>): set<Digest>
  {
    set i, j | 0 <= i < |ids| && ids[i] in m && 0 <= j < |m[ids[i]]| :: m[ids[i]][j]
  }

  /** The chunks that the histories of these keys lead to. */
  function Leads(m: Manifests, p: Pointers, keys: set<Key>): set<Digest>
  {
    set k, h | k in keys && h in Shown(m, Versions(p, k)) :: h
  }

  function Reachable(s: State): set<Digest>
  {
    Leads(s.manifests, s.pointers, s.pointers.Keys)
  }

  /** Keys the running pass, if it is marking, has still to read. */
  function Todo(s: State): set<Key>
  {
    if s.sweep.Some? && s.sweep.value.Marking? then s.sweep.value.todo else {}
  }

  /** The digests whose stamps have aged. */
  function Due(condemned: map<Digest, nat>, now: nat, grace: nat): set<Digest>
  {
    set h | h in condemned && Aged(condemned, h, now, grace)
  }

  /** Digests the running pass, if any, erases should it come across them and no
      history change before it has read them all. */
  function Doomed(s: State): set<Digest>
  {
    if s.sweep.None? then {}
    else
      match s.sweep.value
      case Marking(now, grace, marked, todo) =>
        Due(s.condemned, now, grace) - marked - Leads(s.manifests, s.pointers, todo)
      case Erasing(pass, grace, visited, condemned) =>
        Due(condemned, pass.now, grace) - pass.marked - visited
  }

  /** Chunks on disk that the running pass, if any, will not erase. */
  function Kept(s: State): set<Digest>
  {
    s.disk - Doomed(s)
  }

  function ConcatParts(parts: map<nat, seq<Digest>>, order: seq<nat>): seq<Digest>
    requires forall i :: 0 <= i < |order| ==> order[i] in parts
  {
    if order == [] then [] else parts[order[0]] + ConcatParts(parts, order[1..])
  }

  /** The parts are taken in the order named. */
  lemma {:induction false} PartsInOrder(parts: map<nat, seq<Digest>>, a: seq<nat>, b: seq<nat>)
    requires forall i :: 0 <= i < |a| ==> a[i] in parts
    requires forall i :: 0 <= i < |b| ==> b[i] in parts
    ensures ConcatParts(parts, a + b) == ConcatParts(parts, a) + ConcatParts(parts, b)
    ensures |a| == 1 ==> ConcatParts(parts, a) == parts[a[0]]
  {
    if a == [] {
      assert a + b == b;
    } else {
      PartsInOrder(parts, a[1..], b);
      assert (a + b)[1..] == a[1..] + b;
    }
  }

  // ---- actions ----

  datatype Action =
    | Begin(t: nat)
    | Store(t: nat, h: Digest)
    | Pin(t: nat)
    | WriteManifest(t: nat, id: Digest)
    | SetPointer(t: nat, k: Key)
    | Finish(t: nat)
    | CreateUpload(u: nat)
    | HandOver(t: nat, u: nat, n: nat)
    | TakeUpload(t: nat, u: nat, order: seq<nat>)
    | AbortUpload(u: nat)
    | Receive(h: Digest)
    | BeginImport(t: nat, chunks: seq<Digest>)
    | CheckChunk(t: nat)
    | ImportManifest(t: nat, id: Digest)
    | BeginRestore(t: nat, id: Digest)
    | BeginCopy(t: nat, from: Key)
    | BeginMove(t: nat, from: Key)
    | Adopt(t: nat, k: Key)
    | GiveUp(t: nat)
    | Trim(k: Key, keep: nat)
    | Remove(k: Key)    // of a key, of a moved key's old place, or of each key of a bucket
    | BeginSweep(now: nat, grace: nat)
    | ListKey(k: Key)
    | MarkKey(k: Key)
    | EndMark
    | Reconcile(h: Digest)
    | EndSweep
    | FailSweep
    | LoseCondemned
    | Crash

  ghost predicate Enabled(s: State, a: Action)
  {
    match a
    case Begin(t) => t !in s.owners
    case Store(t, _) =>
      t in s.owners && !s.owners[t].completing && s.owners[t].landing.None? && s.owners[t].phase.Storing?
    case Pin(t) => t in s.owners && s.owners[t].landing.Some? && s.owners[t].phase.Storing?
    case WriteManifest(t, _) => t in s.owners && s.owners[t].landing.None? && s.owners[t].phase.Storing?
    case SetPointer(t, _) => t in s.owners && s.owners[t].phase.Named?
    case Finish(t) => t in s.owners
    case CreateUpload(u) => u !in s.staged
    case HandOver(t, u, _) =>
      && t in s.owners && !s.owners[t].completing && s.owners[t].landing.None? && s.owners[t].phase.Storing?
      && u in s.staged
    case TakeUpload(t, u, order) =>
      t !in s.owners && u in s.staged && forall i :: 0 <= i < |order| ==> order[i] in s.staged[u].parts
    case AbortUpload(u) => u in s.staged
    case Receive(_) => true
    case BeginImport(t, _) => t !in s.adopters
    case CheckChunk(t) =>
      && t in s.adopters && s.adopters[t].Checking? && s.adopters[t].checked < |s.adopters[t].chunks|
      && s.adopters[t].chunks[s.adopters[t].checked] in s.disk
    case ImportManifest(t, _) =>
      t in s.adopters && s.adopters[t].Checking? && s.adopters[t].checked == |s.adopters[t].chunks|
    case BeginRestore(t, id) => t !in s.adopters && id in s.manifests
    case BeginCopy(t, from) => t !in s.adopters && History(s, from) != []
    case BeginMove(t, from) => t !in s.adopters && History(s, from) != []
    case Adopt(t, _) => t in s.adopters && s.adopters[t].Adopting?
    case GiveUp(t) => t in s.adopters
    case Trim(k, keep) => 0 < keep < |History(s, k)|
    case Remove(_) => true
    case BeginSweep(_, _) => s.sweep.None?
    case ListKey(k) => s.sweep.Some? && s.sweep.value.Marking? && k in s.pointers
    case MarkKey(k) => k in Todo(s)
    case EndMark => s.sweep.Some? && s.sweep.value.Marking? && Todo(s) == {}
    case Reconcile(h) =>
      s.sweep.Some? && s.sweep.value.Erasing? && h in s.disk && h !in s.sweep.value.visited
    case EndSweep => s.sweep.Some? && s.sweep.value.Erasing?    // a chunk stored meanwhile may go unseen
    case FailSweep => s.sweep.Some?
    case LoseCondemned => true
    case Crash => true
  }

  function PutManifest(m: Manifests, id: Digest, chunks: seq<Digest>): Manifests
  {
    if id in m then m else m[id := chunks]
  }

  /** What a key lists once the ids are adopted under it. */
  function Adopted(a: Adopter, before: seq<Digest>): seq<Digest>
    requires a.Adopting?
  {
    if a.replace then a.ids else before + a.ids
  }

  /** The history of a key replaced. */
  function Repoint(s: State, k: Key, ids: seq<Digest>): State
  {
    s.(pointers := s.pointers[k := ids])
  }

  /** A key removed; a walk that has not come to it will not find it. */
  function Unpoint(s: State, k: Key): State
  {
    s.(pointers := s.pointers - {k},
       sweep := if k in Todo(s) then Some(s.sweep.value.(todo := Todo(s) - {k})) else s.sweep)
  }

  ghost function Apply(s: State, a: Action): State
    requires Enabled(s, a)
  {
    match a
    case Begin(t) => s.(owners := s.owners[t := Owner([], [], None, Storing, false)])
    case Store(t, h) => s.(disk := s.disk + {h}, owners := s.owners[t := s.owners[t].(landing := Some(h))])
    case Pin(t) =>
      var o := s.owners[t];
      var h := o.landing.value;
      s.(pinned := s.pinned + {h},
         owners := s.owners[t := o.(held := o.held + [h], chunks := o.chunks + [h], landing := None)])
    case WriteManifest(t, id) =>
      s.(manifests := PutManifest(s.manifests, id, s.owners[t].chunks),
         owners := s.owners[t := s.owners[t].(phase := Named(id))])
    case SetPointer(t, k) =>
      Repoint(s, k, History(s, k) + [s.owners[t].phase.id]).(
        owners := s.owners[t := s.owners[t].(phase := Committed)])
    case Finish(t) => s.(pinned := s.pinned - Elems(s.owners[t].held), owners := s.owners - {t})
    case CreateUpload(u) => s.(staged := s.staged[u := Upload(map[], [])])
    case HandOver(t, u, n) =>
      var o, up := s.owners[t], s.staged[u];
      s.(staged := s.staged[u := Upload(up.parts[n := o.chunks], up.pinned + o.held)], owners := s.owners - {t})
    case TakeUpload(t, u, order) =>
      var up := s.staged[u];
      s.(owners := s.owners[t := Owner(up.pinned, ConcatParts(up.parts, order), None, Storing, true)],
         staged := s.staged - {u})
    case AbortUpload(u) => s.(pinned := s.pinned - Elems(s.staged[u].pinned), staged := s.staged - {u})
    case Receive(h) => s.(disk := s.disk + {h})
    case BeginImport(t, chunks) => s.(adopters := s.adopters[t := Checking(chunks, 0)])
    case CheckChunk(t) =>
      s.(adopters := s.adopters[t := Checking(s.adopters[t].chunks, s.adopters[t].checked + 1)])
    case ImportManifest(t, id) =>
      s.(manifests := PutManifest(s.manifests, id, s.adopters[t].chunks),
         adopters := s.adopters[t := Adopting([id], false)])
    case BeginRestore(t, id) => s.(adopters := s.adopters[t := Adopting([id], false)])
    case BeginCopy(t, from) =>
      var h := History(s, from);
      s.(adopters := s.adopters[t := Adopting([h[|h| - 1]], false)])
    case BeginMove(t, from) => s.(adopters := s.adopters[t := Adopting(History(s, from), true)])
    case Adopt(t, k) =>
      Repoint(s, k, Adopted(s.adopters[t], History(s, k))).(adopters := s.adopters - {t})
    case GiveUp(t) => s.(adopters := s.adopters - {t})
    case Trim(k, keep) =>
      var h := History(s, k);
      Repoint(s, k, h[|h| - keep..])
    case Remove(k) => Unpoint(s, k)
    case BeginSweep(now, grace) => s.(sweep := Some(Marking(now, grace, s.pinned, s.pointers.Keys)))
    case ListKey(k) => s.(sweep := Some(s.sweep.value.(todo := Todo(s) + {k})))
    case MarkKey(k) =>
      var w := s.sweep.value;
      s.(sweep := Some(w.(marked := w.marked + Shown(s.manifests, History(s, k)), todo := w.todo - {k})))
    case EndMark =>
      var w := s.sweep.value;
      s.(sweep := Some(Erasing(Pass(w.now, w.marked), w.grace, {}, s.condemned)))
    case Reconcile(h) =>
      var w := s.sweep.value;
      var after := Visit(Shelf(s.disk, w.condemned), w.pass, w.grace, h);
      s.(disk := after.disk, sweep := Some(w.(visited := w.visited + {h}, condemned := after.condemned)))
    case EndSweep => s.(condemned := s.sweep.value.condemned, sweep := None)
    case FailSweep => s.(sweep := None)
    case LoseCondemned => s.(condemned := map[])
    case Crash => s.(pinned := {}, owners := map[], staged := map[], adopters := map[], sweep := None)
  }

  // ---- what has to hold ----

  /** The ids' manifests are stored and all their chunks are there to stay. */
  ghost predicate Intact(s: State, ids: seq<Digest>)
  {
    && (forall i :: 0 <= i < |ids| ==> ids[i] in s.manifests)
    && Shown(s.manifests, ids) <= Kept(s)
  }

  /** The promise to readers: every id in every history has its manifest and all
      of its chunks. */
  ghost predicate Safe(s: State)
  {
    forall k, i :: k in s.pointers && 0 <= i < |s.pointers[k]| ==>
      s.pointers[k][i] in s.manifests && Elems(s.manifests[s.pointers[k][i]]) <= s.disk
  }

  ghost predicate PointersIntact(s: State)
  {
    forall k :: k in s.pointers ==> Intact(s, s.pointers[k])
  }

  ghost predicate OwnerSound(s: State, o: Owner)
  {
    && Elems(o.held) <= s.pinned * Kept(s)
    && Elems(o.chunks) <= Elems(o.held)
    && (o.phase.Named? ==> o.phase.id in s.manifests && s.manifests[o.phase.id] == o.chunks)
  }

  ghost predicate UploadSound(s: State, u: Upload)
  {
    && Elems(u.pinned) <= s.pinned * Kept(s)
    && forall n :: n in u.parts ==> Elems(u.parts[n]) <= Elems(u.pinned)
  }

  ghost predicate AdopterSound(s: State, a: Adopter)
  {
    a.Adopting? ==> forall i :: 0 <= i < |a.ids| ==> a.ids[i] in s.manifests
  }

  ghost predicate Inv(s: State)
  {
    && PointersIntact(s)
    && (forall t :: t in s.owners ==> OwnerSound(s, s.owners[t]))
    && (forall u :: u in s.staged ==> UploadSound(s, s.staged[u]))
    && (forall t :: t in s.adopters ==> AdopterSound(s, s.adopters[t]))
  }

  /** No other owner or upload holds any of these chunks. */
  ghost predicate HeldElsewhere(s: State, release: set<Digest>, t: Option<nat>, u: Option<nat>)
  {
    || (exists o :: o in s.owners && Some(o) != t && Elems(s.owners[o].held) * release != {})
    || (exists v :: v in s.staged && Some(v) != u && Elems(s.staged[v].pinned) * release != {})
  }

  /** Someone counts on the chunk and the walk will not learn of it from them: a
      key it has read or never lists, a guard, or a staged upload. */
  ghost predicate Relied(s: State, h: Digest)
  {
    || h in Leads(s.manifests, s.pointers, s.pointers.Keys - Todo(s))
    || (exists t :: t in s.owners && h in Elems(s.owners[t].held))
    || (exists u :: u in s.staged && h in Elems(s.staged[u].pinned))
  }

  /** Aged chunks that the walk would have marked when it came to this key, and
      will not once the key's history is cut to `rest`. */
  function Hidden(s: State, k: Key, rest: seq<Digest>): set<Digest>
  {
    if k !in Todo(s) then {}
    else
      var w := s.sweep.value;
      Due(s.condemned, w.now, w.grace) * Shown(s.manifests, History(s, k))
      - w.marked - Shown(s.manifests, rest) - Leads(s.manifests, s.pointers, w.todo - {k})
  }

  ghost predicate HidesNothing(s: State, k: Key, rest: seq<Digest>)
  {
    forall h :: h in Hidden(s, k, rest) ==> !Relied(s, h)
  }

  /** The adopted ids have their chunks: on disk for a key the walk will still
      read, there to stay for any other. */
  ghost predicate CanAdopt(s: State, ids: seq<Digest>, k: Key)
  {
    Shown(s.manifests, ids) <= if k in Todo(s) then s.disk else Kept(s)
  }

  /** What the step must respect. Only seven actions ask for anything. */
  ghost predicate Careful(s: State, a: Action)
    requires Enabled(s, a)
  {
    match a
    case Pin(t) => s.owners[t].landing.value in Kept(s)
    case WriteManifest(t, id) => id in s.manifests ==> s.manifests[id] == s.owners[t].chunks
    case Finish(t) => !HeldElsewhere(s, Elems(s.owners[t].held), Some(t), None)
    case AbortUpload(u) => !HeldElsewhere(s, Elems(s.staged[u].pinned), None, Some(u))
    case Adopt(t, k) =>
      CanAdopt(s, s.adopters[t].ids, k) && HidesNothing(s, k, Adopted(s.adopters[t], History(s, k)))
    case Trim(k, keep) => HidesNothing(s, k, History(s, k)[|History(s, k)| - keep..])
    case Remove(k) => HidesNothing(s, k, [])
    case _ => true
  }

  // ---- one step ----

  /** Nothing that was promised shrinks: pins, kept chunks and manifests. */
  ghost predicate Grows(s: State, s': State)
  {
    && s.pinned <= s'.pinned && Kept(s) <= Kept(s')
    && (forall id :: id in s.manifests ==> id in s'.manifests && s'.manifests[id] == s.manifests[id])
  }

  lemma SoundGrows(s: State, s': State)
    requires Inv(s) && Grows(s, s')
    ensures forall t :: t in s.owners ==> OwnerSound(s', s.owners[t])
    ensures forall u :: u in s.staged ==> UploadSound(s', s.staged[u])
    ensures forall t :: t in s.adopters ==> AdopterSound(s', s.adopters[t])
    ensures forall k :: k in s.pointers ==> Intact(s', s.pointers[k])
  {
    hide Kept, Shown;
    forall k | k in s.pointers
      ensures Intact(s', s.pointers[k])
    {
      assert Intact(s, s.pointers[k]);
      SameShown(s.manifests, s'.manifests, s.pointers[k]);
    }
  }

  lemma SameShown(m: Manifests, m': Manifests, ids: seq<Digest>)
    requires forall id :: id in m ==> id in m' && m'[id] == m[id]
    requires forall i :: 0 <= i < |ids| ==> ids[i] in m
    ensures Shown(m', ids) == Shown(m, ids)
  {
  }

  lemma ShownConcat(m: Manifests, a: seq<Digest>, b: seq<Digest>)
    ensures Shown(m, a + b) == Shown(m, a) + Shown(m, b)
  {
    var c := a + b;
    forall h | h in Shown(m, a) + Shown(m, b)
      ensures h in Shown(m, c)
    {
      if h in Shown(m, a) {
        var i, j :| 0 <= i < |a| && a[i] in m && 0 <= j < |m[a[i]]| && m[a[i]][j] == h;
        assert c[i] == a[i];
      } else {
        var i, j :| 0 <= i < |b| && b[i] in m && 0 <= j < |m[b[i]]| && m[b[i]][j] == h;
        assert c[|a| + i] == b[i];
      }
    }
  }

  lemma ShownEach(m: Manifests, ids: seq<Digest>, i: nat)
    requires i < |ids| && ids[i] in m
    ensures Elems(m[ids[i]]) <= Shown(m, ids)
  {
  }

  lemma ShownNone(m: Manifests)
    ensures Shown(m, []) == {}
  {
  }

  lemma ShownOne(m: Manifests, id: Digest)
    requires id in m
    ensures Shown(m, [id]) == Elems(m[id])
  {
    assert [id][0] == id;
  }

  lemma LeadsFrom(m: Manifests, p: Pointers, keys: set<Key>, h: Digest)
    ensures h in Leads(m, p, keys) <==> exists k :: k in keys && h in Shown(m, Versions(p, k))
  {
  }

  /** A history that leads nowhere new and away from nothing leads where it did. */
  lemma LeadsGrow(m: Manifests, p: Pointers, keys: set<Key>, m': Manifests, p': Pointers, keys': set<Key>)
    requires forall id :: id in m ==> id in m' && m'[id] == m[id]
    requires forall k, h :: k in keys && h in Shown(m, Versions(p, k)) ==> k in keys' && h in Shown(m', Versions(p', k))
    ensures Leads(m, p, keys) <= Leads(m', p', keys')
  {
    hide Shown;
  }

  lemma ShownGrows(m: Manifests, m': Manifests, ids: seq<Digest>)
    requires forall id :: id in m ==> id in m' && m'[id] == m[id]
    ensures Shown(m, ids) <= Shown(m', ids)
  {
  }

  /** With the same histories and stamps, more chunks and manifests doom nothing. */
  lemma KeptGrows(s: State, s': State)
    requires s.disk <= s'.disk && s'.pointers == s.pointers && s'.sweep == s.sweep && s'.condemned == s.condemned
    requires forall id :: id in s.manifests ==> id in s'.manifests && s'.manifests[id] == s.manifests[id]
    ensures Kept(s) <= Kept(s')
  {
    hide Shown, Leads, Due;
    forall k, h | k in Todo(s) && h in Shown(s.manifests, Versions(s.pointers, k))
      ensures h in Shown(s'.manifests, Versions(s'.pointers, k))
    {
      ShownGrows(s.manifests, s'.manifests, Versions(s.pointers, k));
    }
    LeadsGrow(s.manifests, s.pointers, Todo(s), s'.manifests, s'.pointers, Todo(s));
  }

  lemma StoreStep(s: State, t: nat, h: Digest)
    requires Inv(s) && Enabled(s, Store(t, h))
    ensures Inv(Apply(s, Store(t, h)))
  {
    hide Doomed;
    var s' := Apply(s, Store(t, h));
    KeptGrows(s, s');
    SoundGrows(s, s');
  }

  lemma PinStep(s: State, t: nat)
    requires Inv(s) && Enabled(s, Pin(t))
    ensures Inv(Apply(s, Pin(t))) <==> Careful(s, Pin(t))
  {
    hide Doomed, Intact;
    var s', o := Apply(s, Pin(t)), s.owners[t];
    KeptGrows(s, s');
    SoundGrows(s, s');
    ElemsConcat(o.held, [o.landing.value]);
    ElemsConcat(o.chunks, [o.landing.value]);
    assert o.landing.value in Elems(s'.owners[t].held);
    assert Kept(s') <= Kept(s) by {
      KeptGrows(s', s);
    }
    assert Inv(s') ==> OwnerSound(s', s'.owners[t]);
  }

  lemma WriteManifestStep(s: State, t: nat, id: Digest)
    requires Inv(s) && Enabled(s, WriteManifest(t, id))
    ensures Inv(Apply(s, WriteManifest(t, id))) <==> Careful(s, WriteManifest(t, id))
  {
    hide Kept, Intact;
    var s' := Apply(s, WriteManifest(t, id));
    KeptGrows(s, s');
    SoundGrows(s, s');
    assert Inv(s') ==> OwnerSound(s', s'.owners[t]);
  }

  lemma ImportManifestStep(s: State, t: nat, id: Digest)
    requires Inv(s) && Enabled(s, ImportManifest(t, id))
    ensures Inv(Apply(s, ImportManifest(t, id)))
  {
    hide Kept, Intact;
    var s' := Apply(s, ImportManifest(t, id));
    KeptGrows(s, s');
    SoundGrows(s, s');
  }

  // ---- steps that change one key's history ----

  /** One key's history is now `ids`, or gone; nothing else has changed that the
      collector looks at. */
  ghost predicate Repoints(s: State, s': State, k: Key, ids: seq<Digest>)
  {
    && s'.disk == s.disk && s'.manifests == s.manifests && s'.condemned == s.condemned && s'.pinned == s.pinned
    && (|| (s'.pointers == s.pointers[k := ids] && s'.sweep == s.sweep)
        || (ids == [] && s'.pointers == s.pointers - {k} && s'.sweep == Unpoint(s, k).sweep))
  }

  /** What the keys still to be read lead to, before and after. */
  lemma WalkChanges(s: State, s': State, k: Key, ids: seq<Digest>, h: Digest)
    requires Repoints(s, s', k, ids)
    ensures var m, p, rest := s.manifests, s.pointers, Todo(s) - {k};
            && (h in Leads(m, s'.pointers, Todo(s')) <==>
                  h in Leads(m, p, rest) || (k in Todo(s) && h in Shown(m, ids)))
            && (h in Leads(m, p, Todo(s)) <==>
                  h in Leads(m, p, rest) || (k in Todo(s) && h in Shown(m, Versions(p, k))))
  {
    hide Shown, Leads;
    var m, p := s.manifests, s.pointers;
    ShownNone(m);
    LeadsFrom(m, s'.pointers, Todo(s'), h);
    LeadsFrom(m, p, Todo(s) - {k}, h);
    LeadsFrom(m, p, Todo(s), h);
  }

  /** What the change dooms is what it hides. */
  lemma RepointDooms(s: State, s': State, k: Key, ids: seq<Digest>)
    requires Repoints(s, s', k, ids)
    ensures Doomed(s') - Doomed(s) == Hidden(s, k, ids)
    ensures k !in Todo(s) ==> Doomed(s') == Doomed(s)
  {
    hide Due, Shown, Leads;
    forall h
      ensures h in Doomed(s') - Doomed(s) <==> h in Hidden(s, k, ids)
      ensures k !in Todo(s) ==> (h in Doomed(s') <==> h in Doomed(s))
    {
      WalkChanges(s, s', k, ids, h);
    }
  }

  /** What a key still to be read leads to is never doomed. */
  lemma ToComeIsKept(s: State, k: Key, h: Digest)
    requires k in Todo(s) && h in Shown(s.manifests, Versions(s.pointers, k))
    ensures h !in Doomed(s)
  {
    hide Due, Shown;
  }

  /** Everything that is listed, held or pinned has its chunks kept. */
  ghost predicate NeedsKept(s: State)
  {
    && PointersIntact(s)
    && (forall t :: t in s.owners ==> Elems(s.owners[t].held) <= Kept(s))
    && (forall u :: u in s.staged ==> Elems(s.staged[u].pinned) <= Kept(s))
  }

  /** A change of one history keeps all that is needed exactly when the new ids
      may be adopted and nobody relies on what it hides. */
  lemma RepointStep(s: State, s': State, k: Key, ids: seq<Digest>)
    requires NeedsKept(s) && Repoints(s, s', k, ids)
    requires forall i :: 0 <= i < |ids| ==> ids[i] in s.manifests
    requires s'.owners.Keys == s.owners.Keys && s'.staged == s.staged
    requires forall t :: t in s.owners ==> s'.owners[t].held == s.owners[t].held
    ensures NeedsKept(s') <==> CanAdopt(s, ids, k) && HidesNothing(s, k, ids)
  {
    hide Shown, Leads, Doomed, Hidden;
    RepointDooms(s, s', k, ids);
    ShownNone(s.manifests);
    if CanAdopt(s, ids, k) && HidesNothing(s, k, ids) {
      RepointKeeps(s, s', k, ids);
    }
    if NeedsKept(s') {
      RepointKept(s, s', k, ids);
    }
  }

  lemma RepointKeeps(s: State, s': State, k: Key, ids: seq<Digest>)
    requires NeedsKept(s) && Repoints(s, s', k, ids)
    requires forall i :: 0 <= i < |ids| ==> ids[i] in s.manifests
    requires s'.owners.Keys == s.owners.Keys && s'.staged == s.staged
    requires forall t :: t in s.owners ==> s'.owners[t].held == s.owners[t].held
    requires CanAdopt(s, ids, k) && HidesNothing(s, k, ids)
    ensures NeedsKept(s')
  {
    hide Shown, Leads, Doomed, Hidden;
    RepointDooms(s, s', k, ids);
    forall h | h in Kept(s) && Relied(s, h)
      ensures h in Kept(s')
    {
      assert h !in Hidden(s, k, ids);
    }
    forall j | j in s'.pointers
      ensures Intact(s', s'.pointers[j])
    {
      assert j != k ==> Intact(s, s.pointers[j]);
      forall h | h in Shown(s.manifests, s'.pointers[j])
        ensures h in Kept(s')
      {
        assert h in s.disk;
        if j in Todo(s') {
          ToComeIsKept(s', j, h);
        } else if j != k {
          LeadsFrom(s.manifests, s.pointers, s.pointers.Keys - Todo(s), h);
          assert Versions(s.pointers, j) == s'.pointers[j] && j !in Todo(s);
          assert Relied(s, h);
        }
      }
    }
  }

  lemma RepointKept(s: State, s': State, k: Key, ids: seq<Digest>)
    requires Repoints(s, s', k, ids) && NeedsKept(s')
    requires s'.owners.Keys == s.owners.Keys && s'.staged == s.staged
    requires forall t :: t in s.owners ==> s'.owners[t].held == s.owners[t].held
    ensures CanAdopt(s, ids, k) && HidesNothing(s, k, ids)
  {
    hide Shown, Leads, Doomed, Hidden;
    RepointDooms(s, s', k, ids);
    ShownNone(s.manifests);
    assert ids != [] ==> Intact(s', s'.pointers[k]);
    HiddenToRead(s, k, ids);
    forall h | Relied(s, h)
      ensures h !in Hidden(s, k, ids)
    {
      LeadsFrom(s.manifests, s.pointers, s.pointers.Keys - Todo(s), h);
      if j :| j in s.pointers.Keys - Todo(s) && h in Shown(s.manifests, Versions(s.pointers, j)) {
        assert j != k ==> Intact(s', s'.pointers[j]);
      }
    }
  }

  lemma HiddenToRead(s: State, k: Key, ids: seq<Digest>)
    ensures Hidden(s, k, ids) != {} ==> k in Todo(s)
  {
  }

  lemma SetPointerStep(s: State, t: nat, k: Key)
    requires Inv(s) && Enabled(s, SetPointer(t, k))
    ensures Inv(Apply(s, SetPointer(t, k)))
  {
    hide Kept, Shown, CanAdopt, HidesNothing;
    var s', id := Apply(s, SetPointer(t, k)), s.owners[t].phase.id;
    assert OwnerSound(s, s.owners[t]);
    ShownOne(s.manifests, id);
    KeptIsAdoptable(s, [id], k);
    AppendIsCareful(s, k, [id]);
    assert k in s.pointers ==> Intact(s, s.pointers[k]);
    RepointStep(s, s', k, History(s, k) + [id]);
    forall o | o in s'.owners
      ensures OwnerSound(s', s'.owners[o])
    {
      assert OwnerSound(s, s.owners[o]);
    }
    forall u | u in s'.staged
      ensures UploadSound(s', s'.staged[u])
    {
      assert UploadSound(s, s.staged[u]);
    }
  }

  /** Ids put after a history hide nothing, and are all that has to be looked at. */
  lemma AppendIsCareful(s: State, k: Key, ids: seq<Digest>)
    requires PointersIntact(s)
    ensures HidesNothing(s, k, History(s, k) + ids)
    ensures CanAdopt(s, History(s, k) + ids, k) <==> CanAdopt(s, ids, k)
  {
    hide Shown, Leads, Doomed, Due;
    ShownConcat(s.manifests, History(s, k), ids);
    ShownNone(s.manifests);
    assert Shown(s.manifests, History(s, k)) <= Kept(s) by {
      assert k in s.pointers ==> Intact(s, s.pointers[k]);
    }
  }

  lemma FinishStep(s: State, t: nat)
    requires Inv(s) && Enabled(s, Finish(t))
    ensures Inv(Apply(s, Finish(t))) <==> Careful(s, Finish(t))
  {
    ReleaseStep(s, Apply(s, Finish(t)), Elems(s.owners[t].held), Some(t), None);
  }

  lemma AbortStep(s: State, u: nat)
    requires Inv(s) && Enabled(s, AbortUpload(u))
    ensures Inv(Apply(s, AbortUpload(u))) <==> Careful(s, AbortUpload(u))
  {
    ReleaseStep(s, Apply(s, AbortUpload(u)), Elems(s.staged[u].pinned), None, Some(u));
  }

  /** Unpinning on behalf of one owner keeps the invariant exactly when no other
      owner counts on any of those pins: the pin set does not count. */
  lemma ReleaseStep(s: State, s': State, release: set<Digest>, t: Option<nat>, u: Option<nat>)
    requires Inv(s)
    requires s' == s.(pinned := s.pinned - release,
                      owners := if t.Some? then s.owners - {t.value} else s.owners,
                      staged := if u.Some? then s.staged - {u.value} else s.staged)
    ensures Inv(s') <==> !HeldElsewhere(s, release, t, u)
  {
    assert PointersIntact(s');
    forall o | o in s'.owners
      ensures OwnerSound(s', s'.owners[o]) <==> Elems(s.owners[o].held) * release == {}
    {
      assert OwnerSound(s, s.owners[o]);
      Shrunk(Elems(s.owners[o].held), s.pinned, release);
    }
    forall v | v in s'.staged
      ensures UploadSound(s', s'.staged[v]) <==> Elems(s.staged[v].pinned) * release == {}
    {
      assert UploadSound(s, s.staged[v]);
      Shrunk(Elems(s.staged[v].pinned), s.pinned, release);
    }
  }

  lemma Shrunk(held: set<Digest>, pins: set<Digest>, release: set<Digest>)
    requires held <= pins
    ensures held <= pins - release <==> held * release == {}
  {
    if held * release == {} {
      assert forall h :: h in held ==> h !in held * release;
    }
    if held <= pins - release {
      assert forall h :: h in held * release ==> h in pins - release;
    }
  }

  lemma CreateUploadStep(s: State, u: nat)
    requires Inv(s) && Enabled(s, CreateUpload(u))
    ensures Inv(Apply(s, CreateUpload(u)))
  {
    hide Doomed, Intact;
    KeptGrows(s, Apply(s, CreateUpload(u)));
    SoundGrows(s, Apply(s, CreateUpload(u)));
  }

  lemma HandOverStep(s: State, t: nat, u: nat, n: nat)
    requires Inv(s) && Enabled(s, HandOver(t, u, n))
    ensures Inv(Apply(s, HandOver(t, u, n)))
  {
    hide Doomed, Intact;
    KeptGrows(s, Apply(s, HandOver(t, u, n)));
    SoundGrows(s, Apply(s, HandOver(t, u, n)));
    var o, up := s.owners[t], s.staged[u];
    ElemsConcat(up.pinned, o.held);
    assert OwnerSound(s, o) && UploadSound(s, up);
  }

  lemma TakeUploadStep(s: State, t: nat, u: nat, order: seq<nat>)
    requires Inv(s) && Enabled(s, TakeUpload(t, u, order))
    ensures Inv(Apply(s, TakeUpload(t, u, order)))
  {
    hide Doomed, Intact;
    KeptGrows(s, Apply(s, TakeUpload(t, u, order)));
    SoundGrows(s, Apply(s, TakeUpload(t, u, order)));
    assert UploadSound(s, s.staged[u]);
    PartsCovered(s.staged[u], order);
  }

  lemma {:induction false} PartsCovered(up: Upload, order: seq<nat>)
    requires forall i :: 0 <= i < |order| ==> order[i] in up.parts
    requires forall n :: n in up.parts ==> Elems(up.parts[n]) <= Elems(up.pinned)
    ensures Elems(ConcatParts(up.parts, order)) <= Elems(up.pinned)
  {
    if order != [] {
      PartsCovered(up, order[1..]);
      ElemsConcat(up.parts[order[0]], ConcatParts(up.parts, order[1..]));
    }
  }

  // ---- calls that pin nothing ----

  ghost predicate Adopts(a: Action)
  {
    a.BeginImport? || a.CheckChunk? || a.BeginRestore? || a.BeginCopy? || a.BeginMove? || a.GiveUp?
  }

  /** Until they adopt, they change nothing; and what they mean to adopt has its
      manifests, which are never removed. */
  lemma AdopterStep(s: State, a: Action)
    requires Inv(s) && Enabled(s, a) && Adopts(a)
    ensures Inv(Apply(s, a))
  {
    assert forall t :: t in s.adopters ==> AdopterSound(s, s.adopters[t]);
    hide Inv, AdopterSound;
    var s' := Apply(s, a);
    if !a.GiveUp? {
      AdopterIsSound(s, a);
    }
    OtherAdopters(s, s');
  }

  lemma AdopterIsSound(s: State, a: Action)
    requires Inv(s) && Enabled(s, a) && Adopts(a) && !a.GiveUp?
    ensures a.t in Apply(s, a).adopters && AdopterSound(s, Apply(s, a).adopters[a.t])
  {
    hide Inv;
    if a.BeginCopy? || a.BeginMove? {
      ListedIsStored(s, a.from);
    }
  }

  lemma OtherAdopters(s: State, s': State)
    requires Inv(s) && s' == s.(adopters := s'.adopters)
    requires forall t :: t in s'.adopters ==> AdopterSound(s, s'.adopters[t])
    ensures Inv(s')
  {
    hide Doomed, Intact;
    KeptGrows(s, s');
    SoundGrows(s, s');
  }

  lemma ListedIsStored(s: State, k: Key)
    requires Inv(s)
    ensures forall i :: 0 <= i < |History(s, k)| ==> History(s, k)[i] in s.manifests
  {
    assert k in s.pointers ==> Intact(s, s.pointers[k]);
  }

  lemma AdoptStep(s: State, t: nat, k: Key)
    requires Inv(s) && Enabled(s, Adopt(t, k))
    ensures Inv(Apply(s, Adopt(t, k))) <==> Careful(s, Adopt(t, k))
  {
    hide Kept, Shown, CanAdopt, HidesNothing;
    var s', ad := Apply(s, Adopt(t, k)), s.adopters[t];
    var ids := Adopted(ad, History(s, k));
    assert AdopterSound(s, ad);
    assert k in s.pointers ==> Intact(s, s.pointers[k]);
    if !ad.replace {
      AppendIsCareful(s, k, ad.ids);
    }
    OneHistory(s, s', k, ids);
  }

  /** The rest of a sound state stays sound with the needs. */
  lemma OneHistory(s: State, s': State, k: Key, ids: seq<Digest>)
    requires Inv(s) && Repoints(s, s', k, ids)
    requires forall i :: 0 <= i < |ids| ==> ids[i] in s.manifests
    requires s'.owners == s.owners && s'.staged == s.staged && s'.adopters.Keys <= s.adopters.Keys
    requires forall t :: t in s'.adopters ==> s'.adopters[t] == s.adopters[t]
    ensures Inv(s') <==> CanAdopt(s, ids, k) && HidesNothing(s, k, ids)
  {
    assert s'.manifests == s.manifests && s'.pinned == s.pinned;
    hide Kept, Shown, CanAdopt, HidesNothing, Repoints, Intact;
    RepointStep(s, s', k, ids);
  }

  lemma SuffixIntact(s: State, k: Key, n: nat)
    requires Inv(s) && n <= |History(s, k)|
    ensures Intact(s, History(s, k)[n..])
  {
    hide Kept;
    var h := History(s, k);
    ShownNone(s.manifests);
    if k in s.pointers {
      assert Intact(s, s.pointers[k]);
      assert h == h[..n] + h[n..];
      ShownConcat(s.manifests, h[..n], h[n..]);
    }
  }

  lemma KeptIsAdoptable(s: State, ids: seq<Digest>, k: Key)
    requires Shown(s.manifests, ids) <= Kept(s)
    ensures CanAdopt(s, ids, k)
  {
    hide Doomed, Shown;
  }

  lemma IntactIsAdoptable(s: State, ids: seq<Digest>, k: Key)
    requires Intact(s, ids)
    ensures CanAdopt(s, ids, k) && forall i :: 0 <= i < |ids| ==> ids[i] in s.manifests
  {
    hide Doomed, Shown;
  }

  lemma TrimRepoints(s: State, k: Key, keep: nat)
    requires Enabled(s, Trim(k, keep))
    ensures var s', h := Apply(s, Trim(k, keep)), History(s, k);
            && Repoints(s, s', k, h[|h| - keep..])
            && s'.owners == s.owners && s'.staged == s.staged && s'.adopters == s.adopters
  {
  }

  lemma TrimStep(s: State, k: Key, keep: nat)
    requires Inv(s) && Enabled(s, Trim(k, keep))
    ensures Inv(Apply(s, Trim(k, keep))) <==> Careful(s, Trim(k, keep))
  {
    hide Inv, HidesNothing, CanAdopt, Intact, Apply, Repoints, History;
    var h := History(s, k);
    TrimRepoints(s, k, keep);
    SuffixIntact(s, k, |h| - keep);
    IntactIsAdoptable(s, h[|h| - keep..], k);
    OneHistory(s, Apply(s, Trim(k, keep)), k, h[|h| - keep..]);
  }

  lemma RemoveStep(s: State, k: Key)
    requires Inv(s) && Enabled(s, Remove(k))
    ensures Inv(Apply(s, Remove(k))) <==> Careful(s, Remove(k))
  {
    hide Doomed, Shown, HidesNothing;
    ShownNone(s.manifests);
    OneHistory(s, Apply(s, Remove(k)), k, []);
  }

  // ---- the collector's steps ----

  lemma BeginSweepStep(s: State, now: nat, grace: nat)
    requires Inv(s) && Enabled(s, BeginSweep(now, grace))
    ensures Inv(Apply(s, BeginSweep(now, grace)))
  {
    hide Due, Leads, Shown;
    var s' := Apply(s, BeginSweep(now, grace));
    forall k, h | k in s.pointers && h in Shown(s.manifests, s.pointers[k])
      ensures h in Kept(s')
    {
      assert Intact(s, s.pointers[k]);
      LeadsFrom(s.manifests, s.pointers, s.pointers.Keys, h);
    }
    forall k | k in s'.pointers
      ensures Intact(s', s'.pointers[k])
    {
      assert Intact(s, s.pointers[k]);
    }
    forall t | t in s'.owners
      ensures OwnerSound(s', s'.owners[t])
    {
      assert OwnerSound(s, s.owners[t]);
    }
    forall u | u in s'.staged
      ensures UploadSound(s', s'.staged[u])
    {
      assert UploadSound(s, s.staged[u]);
    }
  }

  ghost predicate Collects(a: Action)
  {
    a.ListKey? || a.MarkKey? || a.EndMark? || a.Reconcile? || a.EndSweep? || a.FailSweep? || a.LoseCondemned?
  }

  /** The rest of a pass dooms nothing it had not doomed: a key read moves its
      chunks from those to come to those marked. */
  lemma CollectorDoomsNoMore(s: State, a: Action)
    requires Enabled(s, a) && Collects(a)
    ensures Kept(s) <= Kept(Apply(s, a))
  {
    if a.MarkKey? {
      MarkingDoomsNoMore(s, a.k);
    } else if a.ListKey? {
      ListingDoomsNoMore(s, a.k);
    } else if a.Reconcile? {
      ReconcilingDoomsNoMore(s, a.h);
    } else {
      EndingDoomsNoMore(s, a);
    }
  }

  lemma MarkingDoomsNoMore(s: State, k: Key)
    requires Enabled(s, MarkKey(k))
    ensures Kept(s) <= Kept(Apply(s, MarkKey(k)))
  {
    hide Shown, Leads, Due;
    var s' := Apply(s, MarkKey(k));
    forall h | h in Doomed(s')
      ensures h in Doomed(s)
    {
      LeadsFrom(s.manifests, s.pointers, Todo(s), h);
      LeadsFrom(s.manifests, s.pointers, Todo(s'), h);
    }
  }

  lemma ListingDoomsNoMore(s: State, k: Key)
    requires Enabled(s, ListKey(k))
    ensures Kept(s) <= Kept(Apply(s, ListKey(k)))
  {
    hide Shown, Leads, Due;
    var s' := Apply(s, ListKey(k));
    forall h | h in Doomed(s')
      ensures h in Doomed(s)
    {
      LeadsFrom(s.manifests, s.pointers, Todo(s), h);
      LeadsFrom(s.manifests, s.pointers, Todo(s'), h);
    }
  }

  lemma ReconcilingDoomsNoMore(s: State, h: Digest)
    requires Enabled(s, Reconcile(h))
    ensures Kept(s) <= Kept(Apply(s, Reconcile(h)))
  {
  }

  lemma EndingDoomsNoMore(s: State, a: Action)
    requires Enabled(s, a) && (a.EndMark? || a.EndSweep? || a.FailSweep? || a.LoseCondemned?)
    ensures Kept(s) <= Kept(Apply(s, a))
  {
    hide Shown, Leads;
    if a.EndMark? {
      forall h
        ensures h !in Leads(s.manifests, s.pointers, {})
      {
        LeadsFrom(s.manifests, s.pointers, {}, h);
      }
    }
  }

  lemma CollectorStep(s: State, a: Action)
    requires Inv(s) && Enabled(s, a) && Collects(a)
    ensures Inv(Apply(s, a))
  {
    hide Inv, Kept, Apply, Enabled, Collects;
    CollectorDoomsNoMore(s, a);
    CollectorFrame(s, a);
    StillSound(s, Apply(s, a));
  }

  lemma CollectorFrame(s: State, a: Action)
    requires Enabled(s, a) && Collects(a)
    ensures var s' := Apply(s, a);
            && s'.pointers == s.pointers && s'.manifests == s.manifests && s'.pinned == s.pinned
            && s'.owners == s.owners && s'.staged == s.staged && s'.adopters == s.adopters
  {
    hide Shown, Visit;
  }

  lemma StillSound(s: State, s': State)
    requires Inv(s) && Grows(s, s')
    requires s'.pointers == s.pointers && s'.owners == s.owners && s'.staged == s.staged && s'.adopters == s.adopters
    ensures Inv(s')
  {
    hide Kept, Intact;
    SoundGrows(s, s');
  }

  lemma ReceiveStep(s: State, h: Digest)
    requires Inv(s)
    ensures Inv(Apply(s, Receive(h)))
  {
    hide Inv, Kept;
    KeptGrows(s, Apply(s, Receive(h)));
    StillSound(s, Apply(s, Receive(h)));
  }

  lemma CrashStep(s: State)
    requires Inv(s)
    ensures Inv(Apply(s, Crash))
  {
    var s' := Apply(s, Crash);
    assert Doomed(s') == {};
    hide Shown, Doomed;
    forall k | k in s'.pointers
      ensures Intact(s', s'.pointers[k])
    {
      assert Intact(s, s.pointers[k]);
    }
  }

  /** Every step from a sound state keeps it sound exactly when it is careful. */
  lemma StepKeepsInv(s: State, a: Action)
    requires Inv(s) && Enabled(s, a)
    ensures Inv(Apply(s, a)) <==> Careful(s, a)
  {
    hide Inv, Apply, Careful, Enabled;
    if a.Pin? {
      PinStep(s, a.t);
    } else if a.WriteManifest? {
      WriteManifestStep(s, a.t, a.id);
    } else if a.Finish? {
      FinishStep(s, a.t);
    } else if a.AbortUpload? {
      AbortStep(s, a.u);
    } else if a.Adopt? {
      AdoptStep(s, a.t, a.k);
    } else if a.Trim? {
      TrimStep(s, a.k, a.keep);
    } else if a.Remove? {
      RemoveStep(s, a.k);
    } else {
      OthersAreCareful(s, a);
      OthersKeepInv(s, a);
    }
  }

  lemma OthersKeepInv(s: State, a: Action)
    requires Inv(s) && Enabled(s, a) && !Demanding(a)
    ensures Inv(Apply(s, a))
  {
    hide Inv, Apply, Enabled;
    match a
    case Begin(t) => BeginStep(s, t);
    case Store(t, h) => StoreStep(s, t, h);
    case SetPointer(t, k) => SetPointerStep(s, t, k);
    case CreateUpload(u) => CreateUploadStep(s, u);
    case HandOver(t, u, n) => HandOverStep(s, t, u, n);
    case TakeUpload(t, u, order) => TakeUploadStep(s, t, u, order);
    case Receive(h) => ReceiveStep(s, h);
    case ImportManifest(t, id) => ImportManifestStep(s, t, id);
    case BeginSweep(now, grace) => BeginSweepStep(s, now, grace);
    case Crash => CrashStep(s);
    case _ =>
      if Adopts(a) {
        AdopterStep(s, a);
      } else {
        CollectorStep(s, a);
      }
  }

  lemma BeginStep(s: State, t: nat)
    requires Inv(s) && Enabled(s, Begin(t))
    ensures Inv(Apply(s, Begin(t)))
  {
    hide Doomed, Intact;
    KeptGrows(s, Apply(s, Begin(t)));
    SoundGrows(s, Apply(s, Begin(t)));
  }

  /** The actions that ask for anything. */
  ghost predicate Demanding(a: Action)
  {
    a.Pin? || a.WriteManifest? || a.Finish? || a.AbortUpload? || a.Adopt? || a.Trim? || a.Remove?
  }

  lemma OthersAreCareful(s: State, a: Action)
    requires Enabled(s, a) && !Demanding(a)
    ensures Careful(s, a)
  {
  }

  // ---- whole runs ----

  ghost predicate Run(states: seq<State>, actions: seq<Action>)
  {
    && |states| == |actions| + 1 && states[0] == EMPTY
    && forall i :: 0 <= i < |actions| ==>
         Enabled(states[i], actions[i]) && states[i + 1] == Apply(states[i], actions[i])
  }

  ghost predicate CarefulRun(states: seq<State>, actions: seq<Action>)
    requires Run(states, actions)
  {
    forall i :: 0 <= i < |actions| ==> Careful(states[i], actions[i])
  }

  lemma {:induction false} RunKeepsInv(states: seq<State>, actions: seq<Action>, n: nat)
    requires Run(states, actions) && CarefulRun(states, actions) && n <= |actions|
    ensures Inv(states[n])
  {
    hide Inv, Apply, Enabled, Careful;
    if n == 0 {
      NothingIsSound();
    } else {
      RunKeepsInv(states, actions, n - 1);
      StepKeepsInv(states[n - 1], actions[n - 1]);
    }
  }

  lemma NothingIsSound()
    ensures Inv(EMPTY)
  {
  }

  lemma InvIsSafe(s: State)
    requires Inv(s)
    ensures Safe(s)
  {
    forall k, i | k in s.pointers && 0 <= i < |s.pointers[k]|
      ensures s.pointers[k][i] in s.manifests && Elems(s.manifests[s.pointers[k][i]]) <= s.disk
    {
      assert Intact(s, s.pointers[k]);
      ShownEach(s.manifests, s.pointers[k], i);
    }
  }

  /** Throughout every careful run, with crashes and collector passes falling
      between any two steps, every id in every history has its manifest and all
      of its chunks. */
  lemma CarefulRunIsSafe(states: seq<State>, actions: seq<Action>, n: nat)
    requires Run(states, actions) && CarefulRun(states, actions) && n <= |actions|
    ensures Safe(states[n])
  {
    RunKeepsInv(states, actions, n);
    InvIsSafe(states[n]);
  }

  // ---- when a step is careful ----

  /** A chunk pinned with no step since it was stored is pinned in time, unless a
      running pass has already doomed it. */
  lemma PromptPinIsCareful(s: State, t: nat, h: Digest)
    requires Enabled(s, Store(t, h)) && h !in Doomed(s)
    ensures Enabled(Apply(s, Store(t, h)), Pin(t)) && Careful(Apply(s, Store(t, h)), Pin(t))
  {
  }

  /** An id that some history lists has its chunks kept, so restoring or copying it
      at once is careful. */
  lemma ListedIsCareful(s: State, k: Key, from: Key, i: nat)
    requires Inv(s) && from in s.pointers && i < |s.pointers[from]|
    ensures s.pointers[from][i] in s.manifests && CanAdopt(s, [s.pointers[from][i]], k)
  {
    assert Kept(s) <= s.disk;
    hide Kept;
    var ids := s.pointers[from];
    assert Intact(s, ids);
    assert ids == ids[..i] + [ids[i]] + ids[i + 1..];
    ShownConcat(s.manifests, ids[..i] + [ids[i]], ids[i + 1..]);
    ShownConcat(s.manifests, ids[..i], [ids[i]]);
  }

  /** Taking a key away during the mark loses data exactly when the walk has not
      come to the key, and it alone among the keys still to be read leads to some
      aged unmarked chunk that a key already passed over, a guard or a staged upload
      needs: what a move leaves behind when its target was passed over. */
  lemma RemovalHides(s: State, k: Key)
    requires Inv(s) && s.sweep.Some? && s.sweep.value.Marking?
    ensures var w := s.sweep.value;
            !Inv(Apply(s, Remove(k))) <==>
              k in w.todo && exists h :: Relied(s, h) && h !in w.marked && Aged(s.condemned, h, w.now, w.grace)
                                         && h in Shown(s.manifests, History(s, k))
                                         && h !in Leads(s.manifests, s.pointers, w.todo - {k})
  {
    hide Shown, Leads, Relied, Inv, Aged;
    RemoveStep(s, k);
    ShownNone(s.manifests);
    var w := s.sweep.value;
    forall h
      ensures h in Hidden(s, k, []) <==>
                k in w.todo && h !in w.marked && Aged(s.condemned, h, w.now, w.grace)
                && h in Shown(s.manifests, History(s, k)) && h !in Leads(s.manifests, s.pointers, w.todo - {k})
    {
      DueIsAged(s.condemned, w.now, w.grace, h);
    }
  }

  lemma DueIsAged(condemned: map<Digest, nat>, now: nat, grace: nat, h: Digest)
    ensures h in Due(condemned, now, grace) <==> Aged(condemned, h, now, grace)
  {
  }

  /** No two in-flight owners hold the same chunk. */
  ghost predicate Exclusive(s: State)
  {
    && (forall t, o :: t in s.owners && o in s.owners && t != o ==>
          Elems(s.owners[t].held) * Elems(s.owners[o].held) == {})
    && (forall u, v :: u in s.staged && v in s.staged && u != v ==>
          Elems(s.staged[u].pinned) * Elems(s.staged[v].pinned) == {})
    && (forall t, u :: t in s.owners && u in s.staged ==>
          Elems(s.owners[t].held) * Elems(s.staged[u].pinned) == {})
  }

  lemma ExclusiveReleaseIsCareful(s: State, a: Action)
    requires Exclusive(s) && Enabled(s, a) && (a.Finish? || a.AbortUpload?)
    ensures Careful(s, a)
  {
    if a.AbortUpload? {
      forall o | o in s.owners
        ensures Elems(s.owners[o].held) * Elems(s.staged[a.u].pinned) == {}
      {
      }
    } else {
      forall o | o in s.owners && o != a.t
        ensures Elems(s.owners[o].held) * Elems(s.owners[a.t].held) == {}
      {
      }
    }
  }

  /** The id stands in some history. */
  ghost predicate Listed(s: State, id: Digest)
  {
    exists k :: k in s.pointers && id in s.pointers[k]
  }

  /** The usual discipline, step by step: storing and pinning a chunk are one
      step, so is a whole collector pass, none begins while an import, restore, copy
      or move is between its first look and its commit, in-flight owners share no
      chunk when one lets go, only listed ids are restored, and ids do not collide. */
  ghost predicate Disciplined(states: seq<State>, actions: seq<Action>)
    requires Run(states, actions)
  {
    && (forall i :: 0 <= i < |actions| && states[i].sweep.Some? ==> Collects(actions[i]) || actions[i].Crash?)
    && (forall i :: 0 <= i < |actions| && actions[i].Pin? ==>
          i > 0 && actions[i - 1].Store? && actions[i - 1].t == actions[i].t)
    && (forall i :: 0 <= i < |actions| ==> Orderly(states[i], actions[i]))
  }

  ghost predicate Orderly(s: State, a: Action)
    requires Enabled(s, a)
  {
    match a
    case WriteManifest(t, id) => id in s.manifests ==> s.manifests[id] == s.owners[t].chunks
    case Finish(_) => Exclusive(s)
    case AbortUpload(_) => Exclusive(s)
    case ImportManifest(t, id) => id in s.manifests ==> s.manifests[id] == s.adopters[t].chunks
    case BeginRestore(_, id) => Listed(s, id)
    case BeginSweep(_, _) => s.adopters == map[]
    case _ => true
  }

  /** What has been looked at for adoption is still there. */
  ghost predicate StillThere(s: State, a: Adopter)
  {
    match a
    case Checking(chunks, n) => n <= |chunks| && Elems(chunks[..n]) <= s.disk
    case Adopting(ids, _) => Shown(s.manifests, ids) <= s.disk
  }

  ghost predicate Undisturbed(s: State)
  {
    && (s.sweep.Some? ==> s.adopters == map[])
    && forall t :: t in s.adopters ==> StillThere(s, s.adopters[t])
  }

  lemma OrderlyIsCareful(s: State, a: Action)
    requires Inv(s) && Undisturbed(s) && Enabled(s, a) && Orderly(s, a) && s.sweep.None? && !a.Pin?
    ensures Careful(s, a)
  {
    hide Shown, Leads, Exclusive, HeldElsewhere;
    if a.Finish? || a.AbortUpload? {
      ExclusiveReleaseIsCareful(s, a);
    } else if a.Adopt? {
      assert StillThere(s, s.adopters[a.t]);
    }
  }

  /** A pass finds no adopter waiting, and what is not a pass erases nothing. */
  lemma OrderlyIsUndisturbed(s: State, a: Action)
    requires Inv(s) && Undisturbed(s) && Enabled(s, a) && Orderly(s, a)
    requires s.sweep.Some? ==> Collects(a) || a.Crash?
    ensures Undisturbed(Apply(s, a))
  {
    hide Shown, Inv, StillThere, Orderly, Apply, Enabled, Collects;
    var s' := Apply(s, a);
    PassFindsNone(s, a);
    forall t | t in s'.adopters
      ensures StillThere(s', s'.adopters[t])
    {
      if t in s.adopters && s'.adopters[t] == s.adopters[t] {
        StaysThere(s, a, t);
      } else {
        LookIsThere(s, a, t);
      }
    }
  }

  lemma PassFindsNone(s: State, a: Action)
    requires Undisturbed(s) && Enabled(s, a) && Orderly(s, a)
    requires s.sweep.Some? ==> Collects(a) || a.Crash?
    ensures var s' := Apply(s, a);
            && (s'.sweep.Some? ==> s'.adopters == map[])
            && (s'.adopters != map[] ==> s.sweep.None? && s.disk <= s'.disk)
  {
    hide Shown, Visit, StillThere;
    assert a.BeginSweep? ==> Apply(s, a).adopters == map[];
    assert a.Crash? ==> Apply(s, a).sweep.None? && Apply(s, a).adopters == map[];
    hide Apply, Enabled;
    if s.sweep.None? {
      hide Collects;
      NoPassErasesNothing(s, a);
    } else if !a.Crash? {
      CollectorFrame(s, a);
    }
  }

  lemma NoPassErasesNothing(s: State, a: Action)
    requires Enabled(s, a) && s.sweep.None?
    ensures s.disk <= Apply(s, a).disk && (Apply(s, a).sweep.Some? ==> a.BeginSweep?)
  {
    hide Shown, Visit, Due, Leads;
  }

  lemma StaysThere(s: State, a: Action, t: nat)
    requires Inv(s) && Enabled(s, a) && t in s.adopters && StillThere(s, s.adopters[t])
    requires s.disk <= Apply(s, a).disk
    ensures StillThere(Apply(s, a), s.adopters[t])
  {
    hide Shown, Apply, Enabled, PointersIntact, OwnerSound, UploadSound;
    var s', ad := Apply(s, a), s.adopters[t];
    ManifestsStay(s, a);
    if ad.Adopting? {
      assert AdopterSound(s, ad);
      SameShown(s.manifests, s'.manifests, ad.ids);
    }
  }

  lemma ManifestsStay(s: State, a: Action)
    requires Enabled(s, a)
    ensures var m := Apply(s, a).manifests; forall id :: id in s.manifests ==> id in m && m[id] == s.manifests[id]
  {
    hide Shown, Visit;
    if !a.WriteManifest? && !a.ImportManifest? {
      OtherManifestsStay(s, a);
    }
  }

  /** A step that may change what some key lists. */
  predicate Lists(a: Action)
  {
    a.SetPointer? || a.Adopt? || a.Trim? || a.Remove?
  }

  predicate Relists(a: Action, k: Key)
  {
    match a
    case SetPointer(_, j) => j == k
    case Adopt(_, j) => j == k
    case Trim(j, _) => j == k
    case Remove(j) => j == k
    case _ => false
  }

  lemma ListingFrame(s: State, a: Action, k: Key)
    requires Enabled(s, a) && Lists(a)
    ensures Apply(s, a).manifests == s.manifests
    ensures !Relists(a, k) ==> History(Apply(s, a), k) == History(s, k)
  {
    hide Shown, Visit, Elems;
  }

  lemma QuietFrame(s: State, a: Action)
    requires Enabled(s, a) && !Lists(a) && !Collects(a) && !a.WriteManifest? && !a.ImportManifest?
    ensures Apply(s, a).manifests == s.manifests && Apply(s, a).pointers == s.pointers
  {
    hide Shown, Visit, Elems, ConcatParts, History;
  }

  lemma OtherManifestsStay(s: State, a: Action)
    requires Enabled(s, a) && !a.WriteManifest? && !a.ImportManifest?
    ensures Apply(s, a).manifests == s.manifests
  {
    hide Apply, Enabled;
    if Collects(a) {
      CollectorFrame(s, a);
    } else if Lists(a) {
      ListingFrame(s, a, Key([], []));
    } else {
      QuietFrame(s, a);
    }
  }

  /** What is looked at now is there now. */
  lemma LookIsThere(s: State, a: Action, t: nat)
    requires Inv(s) && Undisturbed(s) && Enabled(s, a) && Orderly(s, a) && s.sweep.None?
    requires var s' := Apply(s, a); t in s'.adopters && (t in s.adopters ==> s'.adopters[t] != s.adopters[t])
    ensures StillThere(Apply(s, a), Apply(s, a).adopters[t])
  {
    hide Shown, Reachable, Visit, Inv, Doomed, Listed, StillThere;
    var s' := Apply(s, a);
    assert t == a.t;
    if a.BeginImport? {
      NothingChecked(s', a.chunks);
    } else if a.CheckChunk? {
      CheckedIsThere(s, t);
    } else if a.ImportManifest? {
      ImportedIsThere(s, t, a.id);
    } else if a.BeginRestore? {
      ListedIsThere(s, a.id);
      AdoptingIsThere(s', [a.id], false);
    } else {
      HistoryIsThere(s, a.from);
      AdoptingIsThere(s', s'.adopters[t].ids, s'.adopters[t].replace);
    }
  }

  lemma NothingChecked(s: State, chunks: seq<Digest>)
    ensures StillThere(s, Checking(chunks, 0))
  {
    ElemsNone(chunks);
  }

  lemma AdoptingIsThere(s: State, ids: seq<Digest>, replace: bool)
    requires Shown(s.manifests, ids) <= s.disk
    ensures StillThere(s, Adopting(ids, replace))
  {
    hide Shown;
  }

  lemma CheckedIsThere(s: State, t: nat)
    requires Enabled(s, CheckChunk(t)) && StillThere(s, s.adopters[t])
    ensures StillThere(Apply(s, CheckChunk(t)), Apply(s, CheckChunk(t)).adopters[t])
  {
    ElemsNext(s.adopters[t].chunks, s.adopters[t].checked);
  }

  lemma ImportedIsThere(s: State, t: nat, id: Digest)
    requires Enabled(s, ImportManifest(t, id)) && StillThere(s, s.adopters[t]) && Orderly(s, ImportManifest(t, id))
    ensures StillThere(Apply(s, ImportManifest(t, id)), Adopting([id], false))
  {
    hide Shown;
    var chunks := s.adopters[t].chunks;
    assert chunks[..|chunks|] == chunks;
    ShownOne(PutManifest(s.manifests, id, chunks), id);
  }

  lemma HistoryIsThere(s: State, k: Key)
    requires Inv(s) && History(s, k) != []
    ensures Shown(s.manifests, History(s, k)) <= s.disk
    ensures Shown(s.manifests, [History(s, k)[|History(s, k)| - 1]]) <= s.disk
  {
    hide Shown, Doomed;
    var h := History(s, k);
    assert Intact(s, s.pointers[k]);
    assert h == h[..|h| - 1] + [h[|h| - 1]];
    ShownConcat(s.manifests, h[..|h| - 1], [h[|h| - 1]]);
  }

  lemma ListedIsThere(s: State, id: Digest)
    requires Inv(s) && Listed(s, id)
    ensures Shown(s.manifests, [id]) <= s.disk
  {
    var k :| k in s.pointers && id in s.pointers[k];
    var i :| 0 <= i < |s.pointers[k]| && s.pointers[k][i] == id;
    ListedIsCareful(s, k, k, i);
  }

  lemma DisciplinedStepIsCareful(states: seq<State>, actions: seq<Action>, i: nat)
    requires Run(states, actions) && Disciplined(states, actions) && i < |actions|
    requires Inv(states[i]) && Undisturbed(states[i])
    ensures Careful(states[i], actions[i])
  {
    hide Inv, Orderly, Undisturbed;
    if actions[i].Pin? {
      PromptPinIsCareful(states[i - 1], actions[i].t, actions[i - 1].h);
    } else if states[i].sweep.Some? {
      OthersAreCareful(states[i], actions[i]);
    } else {
      OrderlyIsCareful(states[i], actions[i]);
    }
  }

  lemma {:induction false} DisciplinedRunKeepsInv(states: seq<State>, actions: seq<Action>, n: nat)
    requires Run(states, actions) && Disciplined(states, actions) && n <= |actions|
    ensures Inv(states[n]) && Undisturbed(states[n])
  {
    hide Inv, Apply, Careful, Orderly;
    if n == 0 {
      NothingIsSound();
    } else {
      DisciplinedRunKeepsInv(states, actions, n - 1);
      DisciplinedStepIsCareful(states, actions, n - 1);
      OrderlyIsUndisturbed(states[n - 1], actions[n - 1]);
      StepKeepsInv(states[n - 1], actions[n - 1]);
    }
  }

  /** Under that discipline, whatever is written, imported, copied, moved, trimmed,
      deleted or collected with whatever grace, and wherever the process crashes, no
      history ever names a manifest or chunk that is not there. */
  lemma DisciplinedRunIsSafe(states: seq<State>, actions: seq<Action>, n: nat)
    requires Run(states, actions) && Disciplined(states, actions) && n <= |actions|
    ensures Safe(states[n])
  {
    DisciplinedRunKeepsInv(states, actions, n);
    InvIsSafe(states[n]);
  }

  // ---- pins never leak ----

  /** Every pin is on record with an owner or an upload that will release it. */
  ghost predicate PinsOwned(s: State)
  {
    forall h :: h in s.pinned ==>
      || (exists t :: t in s.owners && h in Elems(s.owners[t].held))
      || (exists u :: u in s.staged && h in Elems(s.staged[u].pinned))
  }

  lemma StepKeepsPinsOwned(s: State, a: Action)
    requires PinsOwned(s) && Enabled(s, a)
    ensures PinsOwned(Apply(s, a))
  {
    hide Reachable, Visit, Elems;
    var s' := Apply(s, a);
    forall h | h in s'.pinned
      ensures || (exists t :: t in s'.owners && h in Elems(s'.owners[t].held))
              || (exists u :: u in s'.staged && h in Elems(s'.staged[u].pinned))
    {
      PinHasOwner(s, a, h);
    }
  }

  /** Other actions leave the pins and whoever answers for them as they were, or
      add to them. */
  lemma HoldingsStay(s: State, a: Action)
    requires Enabled(s, a) && !(a.Pin? || a.HandOver? || a.TakeUpload? || a.Finish? || a.AbortUpload? || a.Crash?)
    ensures var s' := Apply(s, a);
            && s'.pinned == s.pinned
            && (forall t :: t in s.owners ==> t in s'.owners && s'.owners[t].held == s.owners[t].held)
            && (forall u :: u in s.staged ==> u in s'.staged && s'.staged[u] == s.staged[u])
  {
    hide Shown, Visit;
  }

  lemma PinHasOwner(s: State, a: Action, h: Digest)
    requires PinsOwned(s) && Enabled(s, a) && h in Apply(s, a).pinned
    ensures var s' := Apply(s, a);
            || (exists t :: t in s'.owners && h in Elems(s'.owners[t].held))
            || (exists u :: u in s'.staged && h in Elems(s'.staged[u].pinned))
  {
    hide Shown, Visit, Elems;
    if a.Pin? || a.HandOver? || a.TakeUpload? || a.Finish? || a.AbortUpload? || a.Crash? {
      HeldPinHasOwner(s, a, h);
    } else {
      hide Apply, Enabled;
      HoldingsStay(s, a);
    }
  }

  lemma HeldPinHasOwner(s: State, a: Action, h: Digest)
    requires PinsOwned(s) && Enabled(s, a) && h in Apply(s, a).pinned
    requires a.Pin? || a.HandOver? || a.TakeUpload? || a.Finish? || a.AbortUpload? || a.Crash?
    ensures var s' := Apply(s, a);
            || (exists t :: t in s'.owners && h in Elems(s'.owners[t].held))
            || (exists u :: u in s'.staged && h in Elems(s'.staged[u].pinned))
  {
    hide Shown, Visit, Elems;
    var s' := Apply(s, a);
    if a.Pin? && h == s.owners[a.t].landing.value {
      ElemsConcat(s.owners[a.t].held, [h]);
      ElemsOne(h);
      assert h in Elems(s'.owners[a.t].held);
    } else if t :| t in s.owners && h in Elems(s.owners[t].held) {
      if a.HandOver? && a.t == t {
        ElemsConcat(s.staged[a.u].pinned, s.owners[t].held);
        assert h in Elems(s'.staged[a.u].pinned);
      } else {
        if a.Pin? && a.t == t {
          ElemsConcat(s.owners[t].held, [s.owners[t].landing.value]);
        }
        assert t in s'.owners && h in Elems(s'.owners[t].held);
      }
    } else {
      var u :| u in s.staged && h in Elems(s.staged[u].pinned);
      if a.TakeUpload? && a.u == u {
        assert h in Elems(s'.owners[a.t].held);
      } else {
        if a.HandOver? && a.u == u {
          ElemsConcat(s.staged[u].pinned, s.owners[a.t].held);
        }
        assert u in s'.staged && h in Elems(s'.staged[u].pinned);
      }
    }
  }

  lemma ElemsOne(h: Digest)
    ensures Elems([h]) == {h}
  {
  }

  /** In every run, careful or not, whatever fails wherever: the pins are those
      of live guards and staged uploads, so none is left when nothing is in
      flight. */
  lemma {:induction false} PinsNeverLeak(states: seq<State>, actions: seq<Action>, n: nat)
    requires Run(states, actions) && n <= |actions|
    ensures PinsOwned(states[n])
    ensures states[n].owners == map[] && states[n].staged == map[] ==> states[n].pinned == {}
  {
    hide Apply, Enabled;
    if n > 0 {
      PinsNeverLeak(states, actions, n - 1);
      StepKeepsPinsOwned(states[n - 1], actions[n - 1]);
    }
  }

  // ---- what a key lists ----

  /** Every id committed or adopted under the key since it was last removed or another
      key was moved to it, oldest first, had nothing been trimmed. */
  ghost function Log(states: seq<State>, actions: seq<Action>, k: Key): seq<Digest>
    requires Run(states, actions)
  {
    if actions == [] then []
    else
      var n := |actions| - 1;
      Logged(states[n], actions[n], k, Log(states[..n + 1], actions[..n], k))
  }

  /** What one step makes of the log. */
  ghost function Logged(s: State, a: Action, k: Key, before: seq<Digest>): seq<Digest>
    requires Enabled(s, a)
  {
    match a
    case SetPointer(t, j) => if j == k then before + [s.owners[t].phase.id] else before
    case Adopt(t, j) =>
      if j != k then before else if s.adopters[t].replace then s.adopters[t].ids else before + s.adopters[t].ids
    case Remove(j) => if j == k then [] else before
    case _ => before
  }

  ghost predicate SuffixOf(s: seq<Digest>, whole: seq<Digest>)
  {
    |s| <= |whole| && s == whole[|whole| - |s|..] && (whole != [] ==> s != [])
  }

  /** No call is about to adopt nothing. */
  ghost predicate AdoptsSome(s: State)
  {
    forall t :: t in s.adopters && s.adopters[t].Adopting? ==> s.adopters[t].ids != []
  }

  lemma StepAdoptsSome(s: State, a: Action)
    requires Enabled(s, a) && AdoptsSome(s)
    ensures AdoptsSome(Apply(s, a))
  {
    hide Shown, Visit, PutManifest, ConcatParts, Elems, Adopted;
    if Collects(a) {
      CollectorFrame(s, a);
    }
  }

  lemma SuffixGrows(s: seq<Digest>, whole: seq<Digest>, more: seq<Digest>)
    requires SuffixOf(s, whole) && more != []
    ensures SuffixOf(s + more, whole + more)
  {
  }

  lemma SuffixCut(s: seq<Digest>, whole: seq<Digest>, keep: nat)
    requires SuffixOf(s, whole) && 0 < keep < |s|
    ensures SuffixOf(s[|s| - keep..], whole)
  {
  }

  lemma NothingRelisted(s: State, a: Action, k: Key)
    requires Enabled(s, a) && !Relists(a, k)
    ensures History(Apply(s, a), k) == History(s, k)
  {
    hide Apply, Enabled;
    if Collects(a) {
      CollectorFrame(s, a);
    } else if Lists(a) {
      ListingFrame(s, a, k);
    } else if a.WriteManifest? || a.ImportManifest? {
      NamingFrame(s, a);
    } else {
      QuietFrame(s, a);
    }
  }

  lemma NamingFrame(s: State, a: Action)
    requires Enabled(s, a) && (a.WriteManifest? || a.ImportManifest?)
    ensures Apply(s, a).pointers == s.pointers
  {
  }

  lemma NothingLogged(s: State, a: Action, k: Key, log: seq<Digest>)
    requires Enabled(s, a) && !Relists(a, k)
    ensures Logged(s, a, k, log) == log
  {
  }

  lemma SetPointerLists(s: State, t: nat, k: Key)
    requires Enabled(s, SetPointer(t, k))
    ensures t in s.owners && s.owners[t].phase.Named?
    ensures History(Apply(s, SetPointer(t, k)), k) == History(s, k) + [s.owners[t].phase.id]
  {
  }

  lemma AdoptLists(s: State, t: nat, k: Key)
    requires Enabled(s, Adopt(t, k)) && AdoptsSome(s)
    ensures t in s.adopters && s.adopters[t].Adopting? && s.adopters[t].ids != []
    ensures History(Apply(s, Adopt(t, k)), k) == Adopted(s.adopters[t], History(s, k))
  {
  }

  lemma TrimLists(s: State, k: Key, keep: nat)
    requires Enabled(s, Trim(k, keep))
    ensures 0 < keep < |History(s, k)|
    ensures History(Apply(s, Trim(k, keep)), k) == History(s, k)[|History(s, k)| - keep..]
  {
  }

  lemma RemoveLists(s: State, k: Key)
    ensures Enabled(s, Remove(k)) && History(Apply(s, Remove(k)), k) == []
  {
  }

  lemma StepIsLogged(s: State, a: Action, k: Key, log: seq<Digest>)
    requires Enabled(s, a) && AdoptsSome(s) && SuffixOf(History(s, k), log)
    ensures SuffixOf(History(Apply(s, a), k), Logged(s, a, k, log))
    ensures History(s, k) == log && !(a.Trim? && a.k == k) ==> History(Apply(s, a), k) == Logged(s, a, k, log)
  {
    hide SuffixOf, Apply, History, Enabled;
    var h := History(s, k);
    if !Relists(a, k) {
      NothingRelisted(s, a, k);
      NothingLogged(s, a, k, log);
    } else if a.SetPointer? {
      SetPointerLists(s, a.t, k);
      SuffixGrows(h, log, [s.owners[a.t].phase.id]);
    } else if a.Adopt? {
      AdoptLists(s, a.t, k);
      var ids := s.adopters[a.t].ids;
      SuffixGrows(h, log, ids);
      SuffixGiven(ids, ids);
    } else if a.Trim? {
      TrimLists(s, k, a.keep);
      SuffixCut(h, log, a.keep);
    } else {
      RemoveLists(s, k);
      SuffixGiven([], []);
    }
  }

  lemma SuffixGiven(s: seq<Digest>, whole: seq<Digest>)
    requires s == whole
    ensures SuffixOf(s, whole)
  {
  }

  /** In every run a key lists the newest of what its log holds, all of it unless the
      key was trimmed, and never nothing when there is something. */
  lemma {:induction false} HistoryIsLogged(states: seq<State>, actions: seq<Action>, k: Key)
    requires Run(states, actions)
    ensures SuffixOf(History(states[|actions|], k), Log(states, actions, k)) && AdoptsSome(states[|actions|])
    ensures (forall i :: 0 <= i < |actions| ==> !(actions[i].Trim? && actions[i].k == k)) ==>
              History(states[|actions|], k) == Log(states, actions, k)
  {
    if actions != [] {
      var n := |actions| - 1;
      HistoryIsLogged(states[..n + 1], actions[..n], k);
      hide Apply, Enabled, SuffixOf, AdoptsSome, History, Logged;
      StepAdoptsSome(states[n], actions[n]);
      StepIsLogged(states[n], actions[n], k, Log(states[..n + 1], actions[..n], k));
    }
  }
}
