/** Runs that lose to a power loss what was promised (crates/barme-store/src/lib.rs,
    crates/barme-store/src/chunk_store.rs, crates/barme-store/src/pointer_store.rs). */
module Losses {
  import opened Bits
  import opened Common
  import opened FileSystem
  import opened Durable
  import opened Recovery
  import opened PutOrder

  // ---- a put that failed, and the put that skips ----

  /** The file is there to see, and some power loss takes its name. */
  predicate Pending(fs: Fs, p: Path)
  {
    IsFile(fs.cur(p)) && None in fs.disk(p)
  }

  /** A write that fails between renaming its file and syncing its directory leaves
      just that, where there was no file before. */
  lemma FailureAfterRenameIsPending(before: Fs, fs: Fs, w: Write, dropped: bool)
    requires Midway(before, fs, w) && w.stage.SyncName? && before.cur(w.path) == None
    ensures Pending(GiveUp(fs, w, dropped), w.path) && !Survives(GiveUp(fs, w, dropped), w.path, w.bytes)
  {
    hide OthersUntouched, DirsMidway, IsTemp;
    CurOnDisk(before, w.path);
  }

  /** A write there syncs neither the directory of the file nor a name in it. */
  predicate Elsewhere(path: Path, p: Path)
    requires |path| > 0 && |p| > 0
  {
    Parent(path) != Parent(p) && (|path| > 1 ==> Parent(Parent(path)) != Parent(p))
  }

  ghost predicate LeavesAlone(a: Action, p: Path)
    requires |p| > 0
  {
    && (a.Begin? ==> |a.path| > 0 && Elsewhere(a.path, p))
    && !a.PowerLoss? && a != Unlink(p)
  }

  lemma StepKeepsPending(s: State, a: Action, p: Path)
    requires Whole(s) && Enabled(s, a) && Target(p) && Pending(s.fs, p) && LeavesAlone(a, p)
    requires s.writing.Some? ==> |s.writing.value.path| > 0 && Elsewhere(s.writing.value.path, p)
    ensures var s' := Apply(s, a);
            && Pending(s'.fs, p)
            && (s'.writing.Some? ==> |s'.writing.value.path| > 0 && Elsewhere(s'.writing.value.path, p))
  {
    hide WellFormed, DirsMidway, OthersUntouched, IsTemp, Untorn;
    CurOnDisk(s.fs, p);
  }

  lemma {:induction false} PendingStays(states: seq<State>, actions: seq<Action>, m: nat, n: nat, p: Path)
    requires Run(states, actions) && m <= n <= |actions| && Whole(states[m]) && states[m].writing.None?
    requires Target(p) && Pending(states[m].fs, p) && forall i :: m <= i < n ==> LeavesAlone(actions[i], p)
    ensures Whole(states[n]) && Pending(states[n].fs, p)
    ensures var w := states[n].writing; w.Some? ==> |w.value.path| > 0 && Elsewhere(w.value.path, p)
  {
    hide Whole, Apply, Enabled, Pending, Elsewhere, LeavesAlone, IsTemp;
    if m < n {
      PendingStays(states, actions, m, n - 1, p);
      StepKeepsPending(states[n - 1], actions[n - 1], p);
      StepKeepsWhole(states[n - 1], actions[n - 1]);
    }
  }

  /** Whatever is written elsewhere after such a failure, manifest and pointer
      included, some power loss brings all of it back but the file. */
  lemma PendingIsLostAlone(states: seq<State>, actions: seq<Action>, m: nat, n: nat, p: Path) returns (after: Fs)
    requires Run(states, actions) && m <= n <= |actions| && Whole(states[m]) && states[m].writing.None?
    requires Target(p) && Pending(states[m].fs, p) && forall i :: m <= i < n ==> LeavesAlone(actions[i], p)
    ensures Recovers(states[n].fs, after) && after.cur(p) == None
    ensures forall q: Path :: q != p ==> after.cur(q) == Settled(states[n].fs.cur(q))
  {
    hide LeavesAlone, Elsewhere, IsTemp, Untorn, Midway, Recovers;
    PendingStays(states, actions, m, n, p);
    var fs := states[n].fs;
    AncestorsAreDirs(fs, p, |p| - 1);
    assert ReadsAs(None, None);
    OutcomeRecovers(fs, p, None);
    after := Outcome(fs, p, None);
    forall q: Path | q != p
      ensures after.cur(q) == Settled(fs.cur(q))
    {
      if p <= q && fs.cur(q).Some? {
        NoFileBelow(fs, p, q);
      }
    }
  }

  /** A run that ends idle with `fs`. */
  ghost predicate EndsIdle(states: seq<State>, actions: seq<Action>, fs: Fs)
  {
    Run(states, actions) && states[|actions|].writing.None? && states[|actions|].fs == fs
  }

  lemma Extend(states: seq<State>, actions: seq<Action>, a: Action) returns (states': seq<State>, actions': seq<Action>)
    requires Run(states, actions) && Enabled(states[|actions|], a)
    ensures Run(states', actions') && actions' == actions + [a] && states' == states + [Apply(states[|actions|], a)]
    ensures |states'| == |actions'| + 1
  {
    hide Enabled, Apply;
    states', actions' := states + [Apply(states[|actions|], a)], actions + [a];
    forall i | 0 <= i < |actions'|
      ensures Enabled(states'[i], actions'[i]) && states'[i + 1] == Apply(states'[i], actions'[i])
    {
      assert i < |actions| ==> states'[i] == states[i] && actions'[i] == actions[i] && states'[i + 1] == states[i + 1];
    }
  }

  /** The directory is there, the temp name is free, no directory is in the way. */
  predicate CanWrite(fs: Fs, path: Path, tmp: Path)
  {
    && Target(path) && fs.cur(Parent(path)) == Some(Dir) && fs.cur(path) != Some(Dir)
    && |tmp| > 0 && IsTemp(tmp) && Parent(tmp) == Parent(path) && fs.cur(tmp) == None
  }

  /** A write as far as its rename. */
  function Renamed(fs: Fs, path: Path, bytes: Bytes, tmp: Path): Fs
  {
    var filled := Enter(Enter(fs, tmp, Some(File([], false))), tmp, Some(File(bytes, false)));
    Rename(Enter(filled, tmp, Some(File(bytes, true))), tmp, path)
  }

  function CallOf(path: Path, bytes: Bytes, tmp: Path): seq<Action>
  {
    [Begin(path, bytes), Operate([]), Operate([]), Operate(tmp), Operate([]), Operate([]), Operate([])]
  }

  lemma WriteToRename(states: seq<State>, actions: seq<Action>, fs: Fs, path: Path, bytes: Bytes, tmp: Path)
    returns (states': seq<State>, actions': seq<Action>)
    requires EndsIdle(states, actions, fs) && CanWrite(fs, path, tmp)
    ensures Run(states', actions') && states <= states' && actions' == actions + CallOf(path, bytes, tmp)
    ensures states'[|actions'|] == State(Renamed(fs, path, bytes, tmp), Some(Write(path, bytes, SyncName(false))), fs)
  {
    hide IsTemp, Renamed;
    states', actions' := Extend(states, actions, Begin(path, bytes));
    states', actions' := Extend(states', actions', Operate([]));
    states', actions' := Extend(states', actions', Operate([]));
    assert states'[|actions'|] == State(fs, Some(Write(path, bytes, CreateTemp(false))), fs);
    states', actions' := FillAndRename(states', actions', fs, fs, path, bytes, tmp, false);
  }

  /** From the temp file to its rename. */
  lemma FillAndRename(states: seq<State>, actions: seq<Action>, before: Fs, fs: Fs, path: Path, bytes: Bytes,
                      tmp: Path, isNew: bool)
    returns (states': seq<State>, actions': seq<Action>)
    requires Run(states, actions) && CanWrite(fs, path, tmp)
    requires states[|actions|] == State(fs, Some(Write(path, bytes, CreateTemp(isNew))), before)
    ensures Run(states', actions') && states <= states'
    ensures actions' == actions + [Operate(tmp), Operate([]), Operate([]), Operate([])]
    ensures states'[|actions'|]
         == State(Renamed(fs, path, bytes, tmp), Some(Write(path, bytes, SyncName(isNew))), before)
  {
    hide Run, IsTemp;
    var made := Enter(fs, tmp, Some(File([], false)));
    var filled := Enter(made, tmp, Some(File(bytes, false)));
    var flushed := Enter(filled, tmp, Some(File(bytes, true)));
    states', actions' := Extend(states, actions, Operate(tmp));
    states', actions' := Extend(states', actions', Operate([]));
    states', actions' := Extend(states', actions', Operate([]));
    assert states'[|actions'|] == State(flushed, Some(Write(path, bytes, Persist(isNew, tmp))), before);
    states', actions' := Extend(states', actions', Operate([]));
  }

  lemma AfterRename(fs: Fs, path: Path, bytes: Bytes, tmp: Path, q: Path)
    requires CanWrite(fs, path, tmp)
    ensures Renamed(fs, path, bytes, tmp).cur(q) == if q == path then Some(File(bytes, true)) else fs.cur(q)
    ensures None in fs.disk(path) ==> None in Renamed(fs, path, bytes, tmp).disk(path)
  {
    hide IsTemp;
  }

  /** The same write acknowledged. */
  lemma WriteToAck(states: seq<State>, actions: seq<Action>, fs: Fs, path: Path, bytes: Bytes, tmp: Path)
    returns (states': seq<State>, actions': seq<Action>)
    requires EndsIdle(states, actions, fs) && CanWrite(fs, path, tmp)
    ensures EndsIdle(states', actions', SyncDir(Renamed(fs, path, bytes, tmp), Parent(path)))
    ensures states <= states' && actions' == actions + (CallOf(path, bytes, tmp) + [Operate([])])
  {
    hide Run, IsTemp, Renamed, SyncDir;
    states', actions' := WriteToRename(states, actions, fs, path, bytes, tmp);
    states', actions' := Extend(states', actions', Operate([]));
  }

  /** After a write elsewhere, one may still write here. */
  lemma StillCanWrite(fs: Fs, fs': Fs, path: Path, bytes: Bytes, tmp: Path, other: Path, free: Path)
    requires CanWrite(fs, path, tmp) && CanWrite(fs, other, free) && Parent(other) != Parent(path)
    requires fs'.cur == Renamed(fs, path, bytes, tmp).cur && fs.cur(path) == None
    ensures CanWrite(fs', other, free)
  {
    hide IsTemp, Renamed;
    AfterRename(fs, path, bytes, tmp, other);
    AfterRename(fs, path, bytes, tmp, free);
    AfterRename(fs, path, bytes, tmp, Parent(other));
  }

  /** A chunk's put fails after its rename; the retry finds the file and does
      nothing (`exists`); the manifest and the pointer are written and acknowledged,
      each in its own directory; power is lost. The pointer and the manifest come
      back and the chunk does not. */
  lemma SkippedPutLosesChunk(
    s: State, chunk: Path, cb: Bytes, tc: Path, manifest: Path, mb: Bytes, tm: Path,
    pointer: Path, pb: Bytes, tp: Path)
    returns (states: seq<State>, actions: seq<Action>, after: Fs)
    requires Whole(s) && s.writing.None? && s.fs.cur(chunk) == None == s.fs.cur(manifest)
    requires |chunk| > 0 && |manifest| > 0 && |pointer| > 0
    requires CanWrite(s.fs, chunk, tc) && CanWrite(s.fs, manifest, tm) && CanWrite(s.fs, pointer, tp)
    requires Elsewhere(manifest, chunk) && Elsewhere(pointer, chunk) && Parent(pointer) != Parent(manifest)
    ensures Run(states, actions) && states[0] == s
    ensures actions == CallOf(chunk, cb, tc) + [Fail(false)] + (CallOf(manifest, mb, tm) + [Operate([])])
                       + (CallOf(pointer, pb, tp) + [Operate([])])
    ensures states[8].writing.None? && states[8].fs.cur(chunk) == Some(File(cb, true))
    ensures Recovers(states[|actions|].fs, after) && after.cur(chunk) == None
    ensures after.cur(pointer) == Some(File(pb, true)) && after.cur(manifest) == Some(File(mb, true))
  {
    hide Run, IsTemp, Renamed, SyncDir, Recovers, Whole, CanWrite, Elsewhere;
    NothingDone(s);
    CanWriteTarget(s.fs, chunk, tc);
    states, actions := [s], [];
    states, actions := WriteToRename(states, actions, s.fs, chunk, cb, tc);
    states, actions := Extend(states, actions, Fail(false));
    var a, failed := Renamed(s.fs, chunk, cb, tc), states;
    FailedPutIsPending(s, failed, actions, chunk, cb, tc);
    DifferentPlaces(manifest, pointer, chunk);
    StillCanWrite(s.fs, a, chunk, cb, tc, manifest, tm);
    StillCanWrite(s.fs, a, chunk, cb, tc, pointer, tp);
    AfterRename(s.fs, chunk, cb, tc, manifest);
    states, actions := WriteToAck(states, actions, a, manifest, mb, tm);
    var m := SyncDir(Renamed(a, manifest, mb, tm), Parent(manifest));
    SyncKeepsView(Renamed(a, manifest, mb, tm), Parent(manifest));
    StillCanWrite(a, m, manifest, mb, tm, pointer, tp);
    states, actions := WriteToAck(states, actions, m, pointer, pb, tp);
    SyncKeepsView(Renamed(m, pointer, pb, tp), Parent(pointer));
    AfterRename(a, manifest, mb, tm, manifest);
    AfterRename(m, pointer, pb, tp, manifest);
    AfterRename(m, pointer, pb, tp, pointer);
    assert states[8] == failed[8];
    RestLeavesAlone(chunk, cb, tc, manifest, mb, tm, pointer, pb, tp);
    after := PendingIsLostAlone(states, actions, 8, |actions|, chunk);
  }

  lemma NothingDone(s: State)
    requires s.writing.None?
    ensures EndsIdle([s], [], s.fs)
  {
  }

  lemma CanWriteTarget(fs: Fs, path: Path, tmp: Path)
    requires CanWrite(fs, path, tmp)
    ensures Target(path)
  {
    hide IsTemp;
  }

  lemma DifferentPlaces(manifest: Path, pointer: Path, chunk: Path)
    requires |manifest| > 0 && |pointer| > 0 && |chunk| > 0
    requires Elsewhere(manifest, chunk) && Elsewhere(pointer, chunk) && Parent(pointer) != Parent(manifest)
    ensures manifest != chunk && pointer != chunk && pointer != manifest
    ensures Parent(manifest) != Parent(chunk) && Parent(pointer) != Parent(chunk)
  {
  }

  lemma SyncKeepsView(fs: Fs, d: Path)
    ensures SyncDir(fs, d).cur == fs.cur
  {
  }

  lemma RestLeavesAlone(
    chunk: Path, cb: Bytes, tc: Path, manifest: Path, mb: Bytes, tm: Path, pointer: Path, pb: Bytes, tp: Path)
    requires |manifest| > 0 && |pointer| > 0 && |chunk| > 0
    requires Elsewhere(manifest, chunk) && Elsewhere(pointer, chunk)
    ensures var actions := CallOf(chunk, cb, tc) + [Fail(false)] + (CallOf(manifest, mb, tm) + [Operate([])])
                           + (CallOf(pointer, pb, tp) + [Operate([])]);
            forall i :: 8 <= i < |actions| ==> LeavesAlone(actions[i], chunk)
  {
    hide Elsewhere;
  }

  lemma FailedPutIsPending(s: State, states: seq<State>, actions: seq<Action>, chunk: Path, cb: Bytes, tc: Path)
    requires Run(states, actions) && states[0] == s && Whole(s) && s.fs.cur(chunk) == None && CanWrite(s.fs, chunk, tc)
    requires |actions| == 8 && states[8].fs == Renamed(s.fs, chunk, cb, tc)
    ensures Whole(states[8]) && Pending(states[8].fs, chunk) && states[8].fs.cur(chunk) == Some(File(cb, true))
  {
    hide Run, IsTemp, Renamed, Midway, Untorn, CanWrite;
    CurOnDisk(s.fs, chunk);
    AfterRename(s.fs, chunk, cb, tc, chunk);
    RunKeepsWhole(states, actions, 8);
  }

  // ---- the first session of a store ----

  /** A directory made since it was last seen absent, whose parent nobody has synced
      since: some power loss takes it with all that is in it, and nothing else. */
  lemma OpenedIsLostAlone(states: seq<State>, actions: seq<Action>, m: nat, n: nat, d: Path) returns (after: Fs)
    requires Run(states, actions) && m <= n <= |actions| && Whole(states[0]) && AtRest(states[0].fs)
    requires states[m].fs.cur(d) == None && states[n].fs.cur(d) == Some(Dir) && Unsettled(states, actions, m, n, d)
    ensures Recovers(states[n].fs, after)
    ensures forall p: Path :: after.cur(p) == if d <= p then None else Settled(states[n].fs.cur(p))
  {
    hide Whole, Recovers, Unsettled;
    RunKeepsWhole(states, actions, n);
    WholeIsWellFormed(states[n]);
    assert Recalled(states, actions, n, d, None);
    DiskIsRecalled(states, actions, n, d, None);
    var fs := states[n].fs;
    assert ReadsAs(None, None) && |d| > 0 && fs.cur(Parent(d)) == Some(Dir);
    OutcomeRecovers(fs, d, None);
    after := Outcome(fs, d, None);
  }

  /** Writes three names deep and more settle no name in the root. */
  lemma {:induction false} DeepWritesLeaveRoot(states: seq<State>, actions: seq<Action>, n: nat, d: Path)
    requires Run(states, actions) && n <= |actions| && states[0].writing.None? && |d| == 1
    requires forall i :: 0 <= i < n ==> !actions[i].PowerLoss? && (actions[i].Begin? ==> |actions[i].path| >= 3)
    ensures Unsettled(states, actions, 0, n, d)
    ensures states[n].writing.Some? ==> |states[n].writing.value.path| >= 3
  {
    hide IsTemp, Enter, Settles, Enabled, Apply;
    if n > 0 {
      DeepWritesLeaveRoot(states, actions, n - 1, d);
      DeepStep(states[n - 1], actions[n - 1], d);
    }
  }

  lemma DeepStep(s: State, a: Action, d: Path)
    requires Enabled(s, a) && |d| == 1 && !a.PowerLoss? && (a.Begin? ==> |a.path| >= 3)
    requires s.writing.Some? ==> |s.writing.value.path| >= 3
    ensures !Settles(s, a, d)
    ensures Apply(s, a).writing.Some? ==> |Apply(s, a).writing.value.path| >= 3
  {
    hide IsTemp, Enter;
  }

  /** A write that makes its own directory. */
  function NewCallOf(path: Path, bytes: Bytes, tmp: Path): seq<Action>
    requires |path| > 0
  {
    [Begin(path, bytes), Operate([]), Operate(Parent(path)), Operate([]), Operate(tmp),
     Operate([]), Operate([]), Operate([]), Operate([]), Operate([])]
  }

  predicate CanWriteNew(fs: Fs, path: Path, tmp: Path)
  {
    && Target(path) && |path| > 1 && fs.cur(Parent(path)) == None && fs.cur(Parent(Parent(path))) == Some(Dir)
    && |tmp| > 0 && IsTemp(tmp) && Parent(tmp) == Parent(path)
  }

  /** What is seen after it. */
  ghost predicate Wrote(fs: Fs, fs': Fs, path: Path, bytes: Bytes)
    requires |path| > 0
  {
    forall q: Path :: fs'.cur(q) == if q == path then Some(File(bytes, true))
                                    else if q == Parent(path) then Some(Dir) else fs.cur(q)
  }

  lemma WriteNew(states: seq<State>, actions: seq<Action>, path: Path, bytes: Bytes, tmp: Path)
    returns (states': seq<State>, actions': seq<Action>)
    requires Run(states, actions) && Whole(states[0]) && states[|actions|].writing.None?
    requires CanWriteNew(states[|actions|].fs, path, tmp)
    ensures Run(states', actions') && states <= states' && actions' == actions + NewCallOf(path, bytes, tmp)
    ensures |states'| == |actions'| + 1
    ensures states'[|actions'|].writing.None? && Wrote(states[|actions|].fs, states'[|actions'|].fs, path, bytes)
  {
    hide IsTemp, Whole, Renamed, Wrote, Enabled, Apply, WellFormed;
    var s, dir := states[|actions|], Parent(path);
    RunKeepsWhole(states, actions, |actions|);
    WholeIsWellFormed(s);
    MadeDir(s.fs, path, tmp);
    var made := Enter(s.fs, dir, Some(Dir));
    states', actions' := MakeOwnDir(states, actions, path, bytes, tmp);
    states', actions' := FillAndRename(states', actions', s.fs, made, path, bytes, tmp, true);
    var renamed := Renamed(made, path, bytes, tmp);
    states', actions' := SyncNew(states', actions', renamed, path, bytes, s.fs);
    NewIsWritten(s.fs, path, bytes, tmp, states'[|actions'|].fs);
  }

  lemma MakeOwnDir(states: seq<State>, actions: seq<Action>, path: Path, bytes: Bytes, tmp: Path)
    returns (states': seq<State>, actions': seq<Action>)
    requires Run(states, actions) && states[|actions|].writing.None? && CanWriteNew(states[|actions|].fs, path, tmp)
    ensures Run(states', actions') && states <= states'
    ensures actions' == actions + [Begin(path, bytes), Operate([]), Operate(Parent(path)), Operate([])]
    ensures var fs := states[|actions|].fs;
            states'[|actions'|]
            == State(Enter(fs, Parent(path), Some(Dir)), Some(Write(path, bytes, CreateTemp(true))), fs)
  {
    hide IsTemp;
    var dir := Parent(path);
    states', actions' := Extend(states, actions, Begin(path, bytes));
    hide Run;
    states', actions' := Extend(states', actions', Operate([]));
    states', actions' := Extend(states', actions', Operate(dir));
    states', actions' := Extend(states', actions', Operate([]));
  }

  lemma SyncNew(states: seq<State>, actions: seq<Action>, fs: Fs, path: Path, bytes: Bytes, before: Fs)
    returns (states': seq<State>, actions': seq<Action>)
    requires Run(states, actions) && Target(path) && |path| > 1
    requires states[|actions|] == State(fs, Some(Write(path, bytes, SyncName(true))), before)
    ensures Run(states', actions') && states <= states' && actions' == actions + [Operate([]), Operate([])]
    ensures states'[|actions'|].writing.None? && states'[|actions'|].fs.cur == fs.cur
  {
    hide IsTemp;
    states', actions' := Extend(states, actions, Operate([]));
    hide Run;
    states', actions' := Extend(states', actions', Operate([]));
  }

  lemma MadeDir(fs: Fs, path: Path, tmp: Path)
    requires WellFormed(fs) && CanWriteNew(fs, path, tmp)
    ensures fs.cur(path) == None && fs.cur(tmp) == None
    ensures CanWrite(Enter(fs, Parent(path), Some(Dir)), path, tmp)
  {
    hide IsTemp;
    assert path != Parent(path) && tmp != Parent(path);
  }

  lemma NewIsWritten(fs: Fs, path: Path, bytes: Bytes, tmp: Path, done: Fs)
    requires CanWriteNew(fs, path, tmp) && CanWrite(Enter(fs, Parent(path), Some(Dir)), path, tmp)
    requires done.cur == Renamed(Enter(fs, Parent(path), Some(Dir)), path, bytes, tmp).cur
    ensures Wrote(fs, done, path, bytes)
  {
    hide IsTemp, Renamed;
    var made := Enter(fs, Parent(path), Some(Dir));
    forall q: Path
      ensures done.cur(q) == if q == path then Some(File(bytes, true))
                             else if q == Parent(path) then Some(Dir) else fs.cur(q)
    {
      AfterRename(made, path, bytes, tmp, q);
    }
  }

  /** A chunk, its manifest and a pointer to that, each in its store's tree. */
  datatype Object = Object(chunk: Path, cb: Bytes, manifest: Path, mb: Bytes, pointer: Path, pb: Bytes) {
    /** The directories opening the stores makes. */
    function Roots(): set<Path>
      requires |chunk| == |manifest| == |pointer| == 3
    {
      {chunk[..1], manifest[..1], pointer[..1]}
    }

    predicate Placed()
    {
      && |chunk| == |manifest| == |pointer| == 3 && Plain(chunk) && Plain(manifest) && Plain(pointer)
      && chunk[0] != manifest[0] && chunk[0] != pointer[0] && manifest[0] != pointer[0]
    }

    ghost predicate NamedBy(names: Names)
    {
      && names(cb) == {} && names(mb) == {(chunk, cb)} && names(pb) == {(manifest, mb)}
      && Addresses(names, chunk, cb) && Addresses(names, manifest, mb) && Addresses(names, pointer, pb)
    }

    /** Opening the stores, then writing the object, chunk first and pointer last. */
    function Session(): seq<Action>
      requires Placed()
    {
      [Open(chunk[..1]), Open(manifest[..1]), Open(pointer[..1])]
      + NewCallOf(chunk, cb, TempOf(chunk)) + NewCallOf(manifest, mb, TempOf(manifest))
      + NewCallOf(pointer, pb, TempOf(pointer))
    }
  }

  function TempOf(path: Path): Path
    requires |path| > 0
  {
    Parent(path) + [TMP_PREFIX]
  }

  /** What is seen when the stores are open. */
  ghost predicate Opened(o: Object, fs: Fs)
    requires o.Placed()
  {
    forall q: Path :: fs.cur(q) == if q == [] || q in o.Roots() then Some(Dir) else None
  }

  lemma OpenStores(o: Object) returns (states: seq<State>, actions: seq<Action>)
    requires o.Placed()
    ensures Run(states, actions) && states[0] == State(Blank(), None, Blank())
    ensures actions == [Open(o.chunk[..1]), Open(o.manifest[..1]), Open(o.pointer[..1])]
    ensures |states| == 4 && states[3].writing.None? && Opened(o, states[3].fs)
  {
    states, actions := [State(Blank(), None, Blank())], [];
    states, actions := Extend(states, actions, Open(o.chunk[..1]));
    states, actions := Extend(states, actions, Open(o.manifest[..1]));
    states, actions := Extend(states, actions, Open(o.pointer[..1]));
  }

  /** A tree nobody has written in can be written in. */
  lemma FreshTree(fs: Fs, path: Path)
    requires |path| == 3 && Plain(path) && fs.cur(path[..1]) == Some(Dir) && fs.cur(path[..2]) == None
    ensures CanWriteNew(fs, path, TempOf(path))
  {
    assert Parent(path) == path[..2] && Parent(Parent(path)) == path[..1];
    assert Parent(TempOf(path)) == Parent(path);
  }

  /** What the session leaves to see after its `k`-th write. */
  ghost predicate Seen(o: Object, fs: Fs, k: nat)
    requires o.Placed()
  {
    && fs.cur([]) == Some(Dir) && (forall d :: d in o.Roots() ==> fs.cur(d) == Some(Dir))
    && fs.cur(o.chunk) == (if k >= 1 then Some(File(o.cb, true)) else None)
    && fs.cur(o.manifest) == (if k >= 2 then Some(File(o.mb, true)) else None)
    && fs.cur(o.pointer) == (if k >= 3 then Some(File(o.pb, true)) else None)
    && (k < 1 ==> fs.cur(o.chunk[..2]) == None)
    && (k < 2 ==> fs.cur(o.manifest[..2]) == None)
    && (k < 3 ==> fs.cur(o.pointer[..2]) == None)
  }

  lemma WroteIsSeen(o: Object, fs: Fs, fs': Fs, k: nat)
    requires o.Placed() && k < 3 && Seen(o, fs, k)
    requires var path := if k == 0 then o.chunk else if k == 1 then o.manifest else o.pointer;
             Wrote(fs, fs', path, if k == 0 then o.cb else if k == 1 then o.mb else o.pb)
    ensures Seen(o, fs', k + 1)
  {
    hide IsTemp;
    var path := if k == 0 then o.chunk else if k == 1 then o.manifest else o.pointer;
    assert Parent(path) == path[..2];
    assert forall q: Path :: |q| < 2 ==> fs'.cur(q) == fs.cur(q);
    assert o.chunk[..2][0] == o.chunk[0] && o.manifest[..2][0] == o.manifest[0] && o.pointer[..2][0] == o.pointer[0];
  }

  lemma RunSession(o: Object) returns (states: seq<State>, actions: seq<Action>)
    requires o.Placed()
    ensures Run(states, actions) && states[0] == State(Blank(), None, Blank()) && actions == o.Session()
    ensures |states| == 34 && states[33].writing.None?
    ensures Seen(o, states[3].fs, 0) && Seen(o, states[13].fs, 1)
    ensures Seen(o, states[23].fs, 2) && Seen(o, states[33].fs, 3)
  {
    hide Run, IsTemp, Wrote, Whole, CanWriteNew, Seen;
    states, actions := OpenStores(o);
    BlankIsWhole();
    OpenedIsSeen(o, states[3].fs);
    TreesAreFresh(o, states[3].fs, 0);
    var begun := states;
    states, actions := WriteNew(states, actions, o.chunk, o.cb, TempOf(o.chunk));
    WroteIsSeen(o, begun[3].fs, states[13].fs, 0);
    TreesAreFresh(o, states[13].fs, 1);
    begun := states;
    states, actions := WriteNew(states, actions, o.manifest, o.mb, TempOf(o.manifest));
    WroteIsSeen(o, begun[13].fs, states[23].fs, 1);
    TreesAreFresh(o, states[23].fs, 2);
    begun := states;
    states, actions := WriteNew(states, actions, o.pointer, o.pb, TempOf(o.pointer));
    WroteIsSeen(o, begun[23].fs, states[33].fs, 2);
  }

  lemma BlankIsWhole()
    ensures Whole(State(Blank(), None, Blank())) && AtRest(Blank())
  {
    hide IsTemp;
  }

  lemma OpenedIsSeen(o: Object, fs: Fs)
    requires o.Placed() && Opened(o, fs)
    ensures Seen(o, fs, 0)
  {
    hide IsTemp;
  }

  lemma TreesAreFresh(o: Object, fs: Fs, k: nat)
    requires o.Placed() && k < 3 && Seen(o, fs, k)
    ensures var path := if k == 0 then o.chunk else if k == 1 then o.manifest else o.pointer;
            CanWriteNew(fs, path, TempOf(path))
  {
    hide IsTemp, CanWriteNew;
    FreshTree(fs, if k == 0 then o.chunk else if k == 1 then o.manifest else o.pointer);
  }

  lemma SessionSteps(o: Object, i: nat)
    requires o.Placed() && i < |o.Session()|
    ensures |o.Session()| == 33
    ensures var a := o.Session()[i];
            if i < 3 then a.Open? && a.path in o.Roots()
            else if i == 3 then a == Begin(o.chunk, o.cb)
            else if i == 13 then a == Begin(o.manifest, o.mb)
            else if i == 23 then a == Begin(o.pointer, o.pb)
            else a.Operate?
  {
    hide IsTemp;
  }

  /** The session keeps the engine's order in full. */
  lemma SessionIsOrdered(names: Names, o: Object, states: seq<State>, actions: seq<Action>)
    requires o.Placed() && o.NamedBy(names) && Run(states, actions) && actions == o.Session() && |states| == 34
    requires states[0] == State(Blank(), None, Blank()) && Seen(o, states[3].fs, 0)
    requires Seen(o, states[13].fs, 1) && Seen(o, states[23].fs, 2)
    ensures OrderedRun(names, o.Roots(), states, actions)
  {
    hide IsTemp, Enabled, Apply, Seen, Rested, Ordered, Run;
    BlankIsRested(names);
    SessionSteps(o, 0);
    forall i | 0 <= i < |actions|
      ensures Ordered(names, o.Roots(), states, actions, i)
    {
      SessionStepIsOrdered(names, o, states, actions, i);
    }
  }

  lemma SessionStepIsOrdered(names: Names, o: Object, states: seq<State>, actions: seq<Action>, i: nat)
    requires o.Placed() && o.NamedBy(names) && Run(states, actions) && actions == o.Session() && |states| == 34
    requires Seen(o, states[3].fs, 0) && Seen(o, states[13].fs, 1) && Seen(o, states[23].fs, 2) && i < |actions|
    ensures Ordered(names, o.Roots(), states, actions, i)
  {
    hide IsTemp, Enabled, Apply, Seen, MakesOnly, Addresses, SeenBefore, Run;
    SessionSteps(o, i);
    hide Object.Session, Object.Roots;
    if i == 3 {
      SeenIsRooted(o, states[3].fs, 0);
    } else if i == 13 {
      SeenIsRooted(o, states[13].fs, 1);
      SeenNow(states, actions, 13, o.chunk);
    } else if i == 23 {
      SeenIsRooted(o, states[23].fs, 2);
      SeenNow(states, actions, 23, o.manifest);
    }
  }

  lemma SeenNow(states: seq<State>, actions: seq<Action>, i: nat, p: Path)
    requires Run(states, actions) && i <= |actions| && IsFile(states[i].fs.cur(p))
    ensures SeenBefore(states, actions, i, p)
  {
    hide Enabled, Apply;
    assert Undeleted(actions, i, i, p);
  }

  lemma SeenIsRooted(o: Object, fs: Fs, k: nat)
    requires o.Placed() && k < 3 && Seen(o, fs, k)
    ensures MakesOnly(o.Roots(), fs, if k == 0 then o.chunk else if k == 1 then o.manifest else o.pointer)
    ensures k >= 1 ==> IsFile(fs.cur(o.chunk))
    ensures k >= 2 ==> IsFile(fs.cur(o.manifest))
  {
    hide IsTemp;
    var path := if k == 0 then o.chunk else if k == 1 then o.manifest else o.pointer;
    forall q: Path | q < Parent(path)
      ensures fs.cur(q) == Some(Dir)
    {
      assert Parent(path) == path[..2] && (q == [] || q == path[..1]);
    }
  }

  /** A fresh store is opened and an object written, chunk, manifest and pointer each
      acknowledged, nothing failing: power loss takes the chunks' directory, whose name
      nobody has synced, and the object is listed without its bytes. */
  lemma FirstSessionLosesChunks(names: Names, o: Object)
    returns (states: seq<State>, actions: seq<Action>, after: Fs)
    requires o.Placed() && o.NamedBy(names)
    ensures OrderedRun(names, o.Roots(), states, actions) && actions == o.Session()
    ensures states[0] == State(Blank(), None, Blank()) && states[|actions|].writing.None?
    ensures Recovers(states[|actions|].fs, after) && after.cur(o.chunk) == None
    ensures after.cur(o.manifest) == Some(File(o.mb, true)) && after.cur(o.pointer) == Some(File(o.pb, true))
  {
    hide IsTemp, OrderedRun, Recovers, Whole, Seen;
    states, actions := RunSession(o);
    SessionIsOrdered(names, o, states, actions);
    SessionLeavesRoot(o, states, actions);
    BlankIsWhole();
    SeenAtEnd(o, states[33].fs);
    after := OpenedIsLostAlone(states, actions, 0, 33, o.chunk[..1]);
    assert o.chunk[..1] <= o.chunk && o.chunk[..1][0] == o.chunk[0];
  }

  lemma SeenAtEnd(o: Object, fs: Fs)
    requires o.Placed() && Seen(o, fs, 3)
    ensures fs.cur(o.chunk[..1]) == Some(Dir) && fs.cur(o.manifest) == Some(File(o.mb, true))
    ensures fs.cur(o.pointer) == Some(File(o.pb, true))
  {
    hide IsTemp;
  }

  lemma SessionLeavesRoot(o: Object, states: seq<State>, actions: seq<Action>)
    requires o.Placed() && Run(states, actions) && actions == o.Session() && |states| == 34
    requires states[0].writing.None?
    ensures Unsettled(states, actions, 0, 33, o.chunk[..1])
  {
    hide IsTemp, Enabled, Apply, Settles;
    forall i | 0 <= i < 33
      ensures !actions[i].PowerLoss? && (actions[i].Begin? ==> |actions[i].path| >= 3)
    {
      SessionSteps(o, i);
    }
    DeepWritesLeaveRoot(states, actions, 33, o.chunk[..1]);
  }

  // ---- other ways to lose what was promised ----

  /** Opening a store makes its directories and syncs none of their names, so no
      acknowledgement below them survives until something else does. */
  lemma OpenUngrounds(fs: Fs, d: Path, path: Path)
    requires WellFormed(fs) && |path| > 0 && d <= Parent(path) && fs.cur(d) == None
    ensures !Grounded(Enter(fs, d, Some(Dir)), path) && !Firm({}, Enter(fs, d, Some(Dir)))
  {
    hide IsTemp;
    CurOnDisk(fs, d);
    var dir := Parent(path);
    assert dir[..|d|] == d;
    assert Counts({}, Enter(fs, d, Some(Dir)), d);
  }

  /** A write that makes its directory and then fails, anywhere before its
      acknowledgement, leaves the name of that directory unsynced; later writes
      find it there and do not sync it either, so their acknowledgements do not
      survive (Durable.AckSurvivesExactly). */
  lemma FailureAfterMkdirUngrounds(before: Fs, fs: Fs, w: Write, dropped: bool)
    requires Midway(before, fs, w) && !w.stage.Look? && w.stage.isNew && fs.cur(Parent(w.path)) == Some(Dir)
    ensures !Grounded(GiveUp(fs, w, dropped), w.path)
  {
    hide OthersUntouched, Plain, IsTemp;
    var dir := Parent(w.path);
    CurOnDisk(before, dir);
    assert None in fs.disk(dir);
    if HasTemp(w.stage) {
      assert |w.stage.tmp| > |dir|;
    }
  }

  lemma RecoversMore(fs: Fs, wider: Fs, after: Fs)
    requires Recovers(fs, after) && forall q: Path :: fs.disk(q) <= wider.disk(q)
    ensures Recovers(wider, after)
  {
    forall q: Path | SomeReadsAs(fs.disk(q), after.cur(q))
      ensures SomeReadsAs(wider.disk(q), after.cur(q))
    {
      var v :| v in fs.disk(q) && ReadsAs(v, after.cur(q));
      assert v in wider.disk(q);
    }
  }

  /** Removals sync nothing: a pointer deleted and then its chunk erased, power
      loss can bring back the pointer alone. */
  lemma RemovedPointerDangles(fs: Fs, pointer: Path, chunk: Path, listing: Bytes, bytes: Bytes) returns (after: Fs)
    requires WellFormed(fs) && Target(pointer) && Target(chunk) && pointer != chunk
    requires fs.cur(pointer) == Some(File(listing, true)) && fs.cur(chunk) == Some(File(bytes, true))
    ensures Recovers(Enter(Enter(fs, pointer, None), chunk, None), after)
    ensures after.cur(pointer) == Some(File(listing, true)) && after.cur(chunk) == None
  {
    hide Plain, IsTemp, Recovers;
    var erased := Enter(fs, chunk, None);
    EnterKeepsWellFormed(fs, chunk, None);
    AncestorsAreDirs(fs, chunk, |chunk| - 1);
    assert ReadsAs(None, None);
    OutcomeRecovers(erased, chunk, None);
    after := Outcome(erased, chunk, None);
    NoFileBelow(fs, chunk, pointer);
    RecoversMore(erased, Enter(Enter(fs, pointer, None), chunk, None), after);
  }

  lemma NoFileBelow(fs: Fs, p: Path, q: Path)
    requires WellFormed(fs) && fs.cur(p) != Some(Dir) && fs.cur(q).Some? && p != q
    ensures !(p <= q)
  {
    if p <= q {
      assert q[..|p|] == p;
      AncestorsAreDirs(fs, q, |p|);
    }
  }
}
