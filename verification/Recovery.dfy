/** One process after another writing and deleting files, with power lost between
    any two file operations: what write-then-reference buys
    (crates/barme-store/src/lib.rs, crates/barme-engine/src/lib.rs). */
module Recovery {
  import opened Bits
  import opened Common
  import opened FileSystem
  import opened Durable

  /** What a file's bytes refer to: the manifests a pointer lists, the chunks a
      manifest lists. A content address determines the bytes it stands for. */
  type Names = Bytes -> set<(Path, Bytes)>

  /** The call under way, if any, and the file system it found. */
  datatype State = State(fs: Fs, writing: Option<Write>, before: Fs)

  datatype Action =
    | Begin(path: Path, bytes: Bytes)
    | Operate(aux: Path)
    | Fail(dropped: bool)
    | Open(path: Path)    // one directory, as a store opened for the first time makes it
    | Unlink(path: Path)
    | PowerLoss(after: Fs)

  ghost predicate Enabled(s: State, a: Action)
  {
    match a
    case Begin(path, _) => s.writing.None? && Target(path)
    case Operate(aux) => s.writing.Some? && CanAdvance(s.fs, s.writing.value, aux)
    case Fail(_) => s.writing.Some?
    case Open(path) =>
      && s.writing.None? && |path| > 0 && s.fs.cur(Parent(path)) == Some(Dir)
      && (s.fs.cur(path) == None || s.fs.cur(path) == Some(Dir))
    case Unlink(path) => s.writing.None? && Target(path) && s.fs.cur(path).Some? && s.fs.cur(path).value.File?
    case PowerLoss(after) => Recovers(s.fs, after)
  }

  ghost function Apply(s: State, a: Action): State
    requires Enabled(s, a)
  {
    match a
    case Begin(path, bytes) => State(s.fs, Some(Write(path, bytes, Look)), s.fs)
    case Operate(aux) => var (fs, w) := Advance(s.fs, s.writing.value, aux); State(fs, w, s.before)
    case Fail(dropped) => State(GiveUp(s.fs, s.writing.value, dropped), None, s.before)
    case Open(path) => if s.fs.cur(path) == None then State(Enter(s.fs, path, Some(Dir)), None, s.before) else s
    case Unlink(path) => State(Enter(s.fs, path, None), None, s.before)
    case PowerLoss(after) => State(after, None, after)
  }

  // ---- write-then-reference ----

  /** On the disk for good, or taken for granted: `kept` are directories whose names
      nobody has synced and no power loss is supposed to take. */
  predicate Stands(fs: Fs, kept: set<Path>, d: Path)
  {
    d in kept || fs.disk(d) == {Some(Dir)}
  }

  /** As FileSystem.Survives, but for the directories taken for granted. */
  predicate SurvivesGiven(fs: Fs, kept: set<Path>, p: Path, b: Bytes)
  {
    fs.disk(p) == {Some(File(b, true))} && forall i :: 0 <= i < |p| ==> Stands(fs, kept, p[..i])
  }

  ghost predicate AllSurvive(fs: Fs, kept: set<Path>, refs: set<(Path, Bytes)>)
  {
    forall r :: r in refs ==> Plain(r.0) && SurvivesGiven(fs, kept, r.0, r.1)
  }

  /** The power loss takes none of the directories taken for granted. */
  ghost predicate Keeps(kept: set<Path>, fs: Fs, after: Fs)
  {
    forall d :: d in kept && fs.cur(d) == Some(Dir) ==> after.cur(d) == Some(Dir)
  }

  /** Every file finds all it refers to, byte for byte. */
  ghost predicate AllFound(names: Names, fs: Fs)
  {
    forall q: Path, b, r :: Plain(q) && fs.cur(q) == Some(File(b, true)) && r in names(b) ==>
      Plain(r.0) && fs.cur(r.0) == Some(File(r.1, true))
  }

  /** The disk may hold the file at that name, some time. */
  predicate MayHold(fs: Fs, q: Path, b: Bytes)
  {
    Some(File(b, true)) in fs.disk(q)
  }

  /** Whatever any name may come back with, all it refers to comes back too. */
  ghost predicate Backed(names: Names, kept: set<Path>, fs: Fs)
  {
    forall q: Path, b :: Plain(q) && MayHold(fs, q, b) ==> AllSurvive(fs, kept, names(b))
  }

  /** Nothing the disk may hold refers to this name. */
  ghost predicate Unnamed(names: Names, fs: Fs, path: Path)
  {
    forall q: Path, b, r :: Plain(q) && MayHold(fs, q, b) && r in names(b) ==> r.0 != path
  }

  /** Whoever refers to this name means these bytes. */
  ghost predicate Undisputed(names: Names, fs: Fs, path: Path, bytes: Bytes)
  {
    && (forall q: Path, b, r :: Plain(q) && MayHold(fs, q, b) && r in names(b) ==> r.0 == path ==> r.1 == bytes)
    && (forall r :: r in names(bytes) && r.0 == path ==> r.1 == bytes)
  }

  /** References are written after what they name is there to stay, addressed
      files are never given other bytes, nothing still named is unlinked, and a power
      loss spares the directories taken for granted or whatever refers into them. */
  ghost predicate Careful(names: Names, kept: set<Path>, s: State, a: Action)
  {
    match a
    case Begin(path, bytes) => AllSurvive(s.fs, kept, names(bytes)) && Undisputed(names, s.fs, path, bytes)
    case Unlink(path) => Unnamed(names, s.fs, path)
    case PowerLoss(after) => Keeps(kept, s.fs, after) || AllFound(names, after)
    case _ => true
  }

  /** The shape any run keeps, however careless. */
  ghost predicate Whole(s: State)
  {
    && WellFormed(s.fs) && Untorn(s.fs)
    && (s.writing.Some? ==> Midway(s.before, s.fs, s.writing.value) && Untorn(s.before))
  }

  ghost predicate Inv(names: Names, kept: set<Path>, s: State)
  {
    && Whole(s) && Backed(names, kept, s.fs)
    && (s.writing.Some? ==> WritingSound(names, kept, s.fs, s.writing.value))
  }

  ghost predicate WritingSound(names: Names, kept: set<Path>, fs: Fs, w: Write)
  {
    AllSurvive(fs, kept, names(w.bytes)) && Undisputed(names, fs, w.path, w.bytes)
  }

  /** A disk with nothing but its root. */
  function Blank(): Fs
  {
    Fs(p => if p == [] then Some(Dir) else None, p => {if p == [] then Some(Dir) else None})
  }

  // ---- primitive operations keep survivors ----

  lemma EnterKeepsSurvivor(kept: set<Path>, fs: Fs, p: Path, v: Option<Node>, r: Path, b: Bytes)
    requires WellFormed(fs) && SurvivesGiven(fs, kept, r, b) && fs.cur(p) != Some(Dir)
    requires p == r ==> v == Some(File(b, true))
    ensures SurvivesGiven(Enter(fs, p, v), kept, r, b)
  {
    hide WellFormed;
    forall i | 0 <= i < |r|
      ensures Stands(Enter(fs, p, v), kept, r[..i])
    {
      assert Stands(fs, kept, r[..i]);
      CurOnDisk(fs, r[..i]);
    }
  }

  lemma SyncKeepsSurvivor(kept: set<Path>, fs: Fs, d: Path, r: Path, b: Bytes)
    requires WellFormed(fs) && SurvivesGiven(fs, kept, r, b)
    ensures SurvivesGiven(SyncDir(fs, d), kept, r, b)
  {
    hide WellFormed;
    CurOnDisk(fs, r);
    forall i | 0 <= i < |r|
      ensures Stands(SyncDir(fs, d), kept, r[..i])
    {
      assert Stands(fs, kept, r[..i]);
      CurOnDisk(fs, r[..i]);
    }
  }

  /** No file appears and none that survives is harmed. */
  ghost predicate Gentle(kept: set<Path>, fs: Fs, fs': Fs)
  {
    && (forall q: Path, b :: Plain(q) && MayHold(fs', q, b) ==> MayHold(fs, q, b))
    && (forall q: Path, b :: Plain(q) && SurvivesGiven(fs, kept, q, b) ==> SurvivesGiven(fs', kept, q, b))
  }

  lemma GentleKeeps(names: Names, kept: set<Path>, fs: Fs, fs': Fs)
    requires Gentle(kept, fs, fs') && Backed(names, kept, fs)
    ensures Backed(names, kept, fs')
    ensures forall refs :: AllSurvive(fs, kept, refs) ==> AllSurvive(fs', kept, refs)
    ensures forall path, bytes :: Undisputed(names, fs, path, bytes) ==> Undisputed(names, fs', path, bytes)
  {
    hide Plain, SurvivesGiven;
  }

  lemma TempIsGentle(kept: set<Path>, fs: Fs, tmp: Path, v: Option<Node>)
    requires WellFormed(fs) && IsTemp(tmp) && fs.cur(tmp) != Some(Dir)
    ensures Gentle(kept, fs, Enter(fs, tmp, v))
  {
    hide Survives, WellFormed, IsTemp;
    forall q: Path, b | Plain(q) && SurvivesGiven(fs, kept, q, b)
      ensures SurvivesGiven(Enter(fs, tmp, v), kept, q, b)
    {
      EnterKeepsSurvivor(kept, fs, tmp, v, q, b);
    }
  }

  lemma MakeDirIsGentle(kept: set<Path>, fs: Fs, d: Path)
    requires WellFormed(fs) && fs.cur(d) == None
    ensures Gentle(kept, fs, Enter(fs, d, Some(Dir)))
  {
    hide Plain, WellFormed;
    forall q: Path, b | Plain(q) && SurvivesGiven(fs, kept, q, b)
      ensures SurvivesGiven(Enter(fs, d, Some(Dir)), kept, q, b)
    {
      CurOnDisk(fs, q);
      EnterKeepsSurvivor(kept, fs, d, Some(Dir), q, b);
    }
  }

  lemma SyncIsGentle(kept: set<Path>, fs: Fs, d: Path)
    requires WellFormed(fs)
    ensures Gentle(kept, fs, SyncDir(fs, d))
  {
    hide Plain, SurvivesGiven;
    forall q: Path, b | Plain(q) && MayHold(SyncDir(fs, d), q, b)
      ensures MayHold(fs, q, b)
    {
      CurOnDisk(fs, q);
    }
    forall q: Path, b | Plain(q) && SurvivesGiven(fs, kept, q, b)
      ensures SurvivesGiven(SyncDir(fs, d), kept, q, b)
    {
      SyncKeepsSurvivor(kept, fs, d, q, b);
    }
  }

  /** Every operation of a write is gentle, but for the rename. */
  lemma OperateIsGentle(kept: set<Path>, s: State, aux: Path)
    requires s.writing.Some? && Enabled(s, Operate(aux)) && Midway(s.before, s.fs, s.writing.value)
    requires !s.writing.value.stage.Persist?
    ensures Gentle(kept, s.fs, Apply(s, Operate(aux)).fs)
  {
    hide WellFormed, Plain, IsTemp, Gentle, Enter, SyncDir, DirsMidway, OthersUntouched;
    var fs, w := s.fs, s.writing.value;
    var dir := Parent(w.path);
    match w.stage
    case Look => NothingIsGentle(kept, fs);
    case MakeDirs(_) =>
      NothingIsGentle(kept, fs);
      if fs.cur(dir) != Some(Dir) {
        MakeDirIsGentle(kept, fs, aux);
      }
    case CreateTemp(_) => TempIsGentle(kept, fs, aux, Some(File([], false)));
    case Fill(_, tmp) => TempIsGentle(kept, fs, tmp, Some(File(w.bytes, false)));
    case Flush(_, tmp) => TempIsGentle(kept, fs, tmp, Some(File(w.bytes, true)));
    case SyncName(_) => SyncIsGentle(kept, fs, dir);
    case SyncParent(_) =>
      NothingIsGentle(kept, fs);
      if |dir| > 0 {
        SyncIsGentle(kept, fs, Parent(dir));
      }
  }

  lemma NothingIsGentle(kept: set<Path>, fs: Fs)
    ensures Gentle(kept, fs, fs)
  {
  }

  /** The rename brings in a file all of whose references survive. */
  lemma RenameKeepsBacked(names: Names, kept: set<Path>, fs: Fs, tmp: Path, path: Path, bytes: Bytes)
    requires WellFormed(fs) && Backed(names, kept, fs) && Target(path) && IsTemp(tmp)
    requires fs.cur(tmp) == Some(File(bytes, true)) && fs.cur(path) != Some(Dir)
    requires AllSurvive(fs, kept, names(bytes)) && Undisputed(names, fs, path, bytes)
    ensures Backed(names, kept, Rename(fs, tmp, path)) && AllSurvive(Rename(fs, tmp, path), kept, names(bytes))
    ensures Undisputed(names, Rename(fs, tmp, path), path, bytes)
  {
    hide WellFormed, SurvivesGiven, IsTemp;
    var named, done := Enter(fs, path, Some(File(bytes, true))), Rename(fs, tmp, path);
    forall r, b | Plain(r) && SurvivesGiven(fs, kept, r, b) && (r == path ==> b == bytes)
      ensures SurvivesGiven(done, kept, r, b)
    {
      RenameKeepsSurvivor(kept, fs, tmp, path, bytes, r, b);
    }
    forall q: Path, b | Plain(q) && MayHold(done, q, b)
      ensures MayHold(fs, q, b) || (q == path && b == bytes)
    {
    }
  }

  lemma RenameKeepsSurvivor(kept: set<Path>, fs: Fs, tmp: Path, path: Path, bytes: Bytes, r: Path, b: Bytes)
    requires WellFormed(fs) && SurvivesGiven(fs, kept, r, b) && (r == path ==> b == bytes) && r != tmp && path != tmp
    requires fs.cur(tmp) == Some(File(bytes, true)) && fs.cur(path) != Some(Dir)
    ensures SurvivesGiven(Rename(fs, tmp, path), kept, r, b)
  {
    hide WellFormed;
    CurOnDisk(fs, r);
    forall i | 0 <= i < |r|
      ensures Stands(Rename(fs, tmp, path), kept, r[..i])
    {
      assert Stands(fs, kept, r[..i]);
      CurOnDisk(fs, r[..i]);
    }
  }

  // ---- steps keep the invariant ----

  lemma OperateStep(names: Names, kept: set<Path>, s: State, aux: Path)
    requires Inv(names, kept, s) && Enabled(s, Operate(aux))
    ensures Inv(names, kept, Apply(s, Operate(aux)))
  {
    hide Backed, Untorn, AllSurvive, Undisputed, DirsMidway, OthersUntouched, Plain, IsTemp, WellFormed;
    var s', w := Apply(s, Operate(aux)), s.writing.value;
    if w.stage.Persist? {
      RenameKeepsBacked(names, kept, s.fs, w.stage.tmp, w.path, w.bytes);
    } else {
      OperateIsGentle(kept, s, aux);
      GentleKeeps(names, kept, s.fs, s'.fs);
    }
    OperateKeepsWhole(s, aux);
  }

  lemma OperateKeepsWhole(s: State, aux: Path)
    requires Whole(s) && Enabled(s, Operate(aux))
    ensures Whole(Apply(s, Operate(aux)))
  {
    hide Midway, WellFormed, Untorn, Plain, IsTemp;
    var s', w := Apply(s, Operate(aux)), s.writing.value;
    if s'.writing.Some? {
      AdvanceKeepsMidway(s.before, s.fs, w, aux);
      MidwayIsUntorn(s.before, s'.fs, s'.writing.value);
      MidwayIsWellFormed(s.before, s'.fs, s'.writing.value);
    } else {
      LastStep(s.before, s.fs, w, aux);
      MidwayIsWellFormed(s.before, s.fs, w);
      SyncKeepsUntorn(s.fs, Parent(w.path));
      if |w.path| > 1 {
        SyncKeepsUntorn(s.fs, Parent(Parent(w.path)));
      }
    }
  }

  lemma MidwayIsWellFormed(before: Fs, fs: Fs, w: Write)
    requires Midway(before, fs, w)
    ensures WellFormed(fs) && WellFormed(before) && Target(w.path)
  {
  }

  lemma SyncKeepsUntorn(fs: Fs, d: Path)
    requires WellFormed(fs) && Untorn(fs)
    ensures Untorn(SyncDir(fs, d))
  {
    hide Plain;
    forall q: Path
      ensures SyncDir(fs, d).disk(q) <= fs.disk(q)
    {
      CurOnDisk(fs, q);
    }
  }

  /** A temp name holds a file or nothing. */
  lemma TempIsNoDir(before: Fs, fs: Fs, w: Write)
    requires Midway(before, fs, w) && HasTemp(w.stage)
    ensures |w.stage.tmp| > 0 && IsTemp(w.stage.tmp) && fs.cur(w.stage.tmp) != Some(Dir)
    ensures Parent(w.stage.tmp) == Parent(w.path)
  {
    hide WellFormed, DirsMidway, OthersUntouched, Plain, IsTemp;
  }

  lemma FailStep(names: Names, kept: set<Path>, s: State, dropped: bool)
    requires Inv(names, kept, s) && Enabled(s, Fail(dropped))
    ensures Inv(names, kept, Apply(s, Fail(dropped)))
  {
    hide Backed, Untorn, AllSurvive, Undisputed, Midway, WellFormed, IsTemp;
    var w := s.writing.value;
    FailKeepsWhole(s, dropped);
    if HasTemp(w.stage) && dropped {
      TempIsNoDir(s.before, s.fs, w);
      TempIsGentle(kept, s.fs, w.stage.tmp, None);
      GentleKeeps(names, kept, s.fs, Enter(s.fs, w.stage.tmp, None));
    }
  }

  lemma FailKeepsWhole(s: State, dropped: bool)
    requires Whole(s) && Enabled(s, Fail(dropped))
    ensures Whole(Apply(s, Fail(dropped)))
  {
    hide Untorn, Midway, WellFormed, IsTemp;
    var w := s.writing.value;
    if HasTemp(w.stage) && dropped {
      TempIsNoDir(s.before, s.fs, w);
      EnterKeepsWellFormed(s.fs, w.stage.tmp, None);
      EnterKeepsUntorn(s.fs, w.stage.tmp, None);
    }
  }

  lemma EnterKeepsUntorn(fs: Fs, p: Path, v: Option<Node>)
    requires Untorn(fs) && (v.Some? ==> v.value.Dir?)
    ensures Untorn(Enter(fs, p, v))
  {
    hide Plain;
  }

  /** Unlinking a file keeps every reference backed exactly when nothing the disk
      may still hold names it. */
  lemma UnlinkKeepsBackedExactly(names: Names, kept: set<Path>, fs: Fs, path: Path)
    requires WellFormed(fs) && Backed(names, kept, fs) && Target(path) && fs.cur(path) != Some(Dir)
    ensures Backed(names, kept, Enter(fs, path, None)) <==> Unnamed(names, fs, path)
  {
    hide Plain, WellFormed;
    var fs' := Enter(fs, path, None);
    if Unnamed(names, fs, path) {
      forall q: Path, b | Plain(q) && MayHold(fs', q, b)
        ensures AllSurvive(fs', kept, names(b))
      {
        assert MayHold(fs, q, b);
        forall r | r in names(b)
          ensures Plain(r.0) && SurvivesGiven(fs', kept, r.0, r.1)
        {
          EnterKeepsSurvivor(kept, fs, path, None, r.0, r.1);
        }
      }
    }
    if Backed(names, kept, fs') {
      forall q: Path, b, r | Plain(q) && MayHold(fs, q, b) && r in names(b)
        ensures r.0 != path
      {
        assert MayHold(fs', q, b);
        assert SurvivesGiven(fs', kept, r.0, r.1);
        assert None in fs'.disk(path);
      }
    }
  }

  /** A file whose bytes and name are on the disk for good is found when each directory
      on the way is there for good, or is found. */
  lemma SurvivorFound(fs: Fs, after: Fs, p: Path, b: Bytes)
    requires WellFormed(fs) && Recovers(fs, after) && fs.disk(p) == {Some(File(b, true))}
    requires forall i :: 0 <= i < |p| ==> fs.disk(p[..i]) == {Some(Dir)} || after.cur(p[..i]) == Some(Dir)
    ensures after.cur(p) == Some(File(b, true)) && forall i :: 0 <= i < |p| ==> after.cur(p[..i]) == Some(Dir)
  {
    DirsFound(fs, after, p, |p|);
    if |p| > 0 {
      assert Parent(p) == p[..|p| - 1];
    }
    assert SomeReadsAs(fs.disk(p), after.cur(p));
  }

  lemma {:induction false} DirsFound(fs: Fs, after: Fs, p: Path, n: nat)
    requires WellFormed(fs) && Recovers(fs, after) && n <= |p|
    requires forall i :: 0 <= i < n ==> fs.disk(p[..i]) == {Some(Dir)} || after.cur(p[..i]) == Some(Dir)
    ensures forall i :: 0 <= i < n ==> after.cur(p[..i]) == Some(Dir)
  {
    hide WellFormed;
    if n > 0 {
      DirsFound(fs, after, p, n - 1);
      var d := p[..n - 1];
      if |d| > 0 {
        assert Parent(d) == p[..n - 2];
      }
      if fs.disk(d) == {Some(Dir)} {
        assert SomeReadsAs(fs.disk(d), after.cur(d));
      }
    }
  }

  lemma KeptSurvivorFound(kept: set<Path>, fs: Fs, after: Fs, p: Path, b: Bytes)
    requires WellFormed(fs) && Recovers(fs, after) && Keeps(kept, fs, after) && SurvivesGiven(fs, kept, p, b)
    ensures after.cur(p) == Some(File(b, true)) && SurvivesGiven(after, kept, p, b)
  {
    CurOnDisk(fs, p);
    forall i | 0 <= i < |p|
      ensures fs.disk(p[..i]) == {Some(Dir)} || after.cur(p[..i]) == Some(Dir)
    {
      AncestorsAreDirs(fs, p, i);
    }
    SurvivorFound(fs, after, p, b);
  }

  lemma PowerLossStep(names: Names, kept: set<Path>, s: State, after: Fs)
    requires Inv(names, kept, s) && Enabled(s, PowerLoss(after)) && Careful(names, kept, s, PowerLoss(after))
    ensures Inv(names, kept, Apply(s, PowerLoss(after)))
  {
    hide Plain, SurvivesGiven, Keeps, Recovers;
    var fs := s.fs;
    RecoversWhole(fs, after);
    if Keeps(kept, fs, after) {
      forall q: Path, b | Plain(q) && MayHold(after, q, b)
        ensures AllSurvive(after, kept, names(b))
      {
        FoundWasHeld(fs, after, q, b);
        forall r | r in names(b)
          ensures SurvivesGiven(after, kept, r.0, r.1)
        {
          KeptSurvivorFound(kept, fs, after, r.0, r.1);
        }
      }
    } else {
      RecoveredIsAtRest(fs, after);
      FoundIsBacked(names, kept, after);
    }
  }

  /** The disk holds what is there and nothing else, as after a power loss. */
  ghost predicate AtRest(fs: Fs)
  {
    forall p: Path :: fs.disk(p) == {fs.cur(p)}
  }

  lemma RecoveredIsAtRest(fs: Fs, after: Fs)
    requires Recovers(fs, after)
    ensures AtRest(after)
  {
  }

  lemma FoundIsBacked(names: Names, kept: set<Path>, fs: Fs)
    requires WellFormed(fs) && AtRest(fs) && AllFound(names, fs)
    ensures Backed(names, kept, fs)
  {
    hide Plain, WellFormed, SurvivesGiven;
    forall q: Path, b, r | Plain(q) && MayHold(fs, q, b) && r in names(b)
      ensures SurvivesGiven(fs, kept, r.0, r.1)
    {
      assert fs.disk(q) == {fs.cur(q)};
      RestingSurvives(kept, fs, r.0, r.1);
    }
  }

  lemma RestingSurvives(kept: set<Path>, fs: Fs, p: Path, b: Bytes)
    requires WellFormed(fs) && AtRest(fs) && fs.cur(p) == Some(File(b, true))
    ensures SurvivesGiven(fs, kept, p, b)
  {
    forall i | 0 <= i < |p|
      ensures Stands(fs, kept, p[..i])
    {
      AncestorsAreDirs(fs, p, i);
    }
  }

  lemma RecoversWhole(fs: Fs, after: Fs)
    requires WellFormed(fs) && Untorn(fs) && Recovers(fs, after)
    ensures WellFormed(after) && Untorn(after)
  {
    hide Plain;
    assert SomeReadsAs(fs.disk([]), after.cur([]));
    forall q: Path | Plain(q) && after.cur(q).Some? && after.cur(q).value.File?
      ensures after.cur(q).value.synced
    {
      assert SomeReadsAs(fs.disk(q), after.cur(q));
    }
  }

  /** A file found whole after the reboot is one the disk held. */
  lemma FoundWasHeld(fs: Fs, after: Fs, q: Path, b: Bytes)
    requires Untorn(fs) && Recovers(fs, after) && Plain(q) && MayHold(after, q, b)
    ensures MayHold(fs, q, b)
  {
    hide Plain;
    assert after.cur(q) == Some(File(b, true));
    assert SomeReadsAs(fs.disk(q), after.cur(q));
    var v :| v in fs.disk(q) && ReadsAs(v, after.cur(q));
  }

  /** A directory made and not synced takes nothing away. */
  lemma OpenStep(names: Names, kept: set<Path>, s: State, d: Path)
    requires Inv(names, kept, s) && Enabled(s, Open(d))
    ensures Inv(names, kept, Apply(s, Open(d)))
  {
    hide Backed, Whole, WellFormed;
    StepKeepsWhole(s, Open(d));
    WholeIsWellFormed(s);
    if s.fs.cur(d) == None {
      MakeDirIsGentle(kept, s.fs, d);
      GentleKeeps(names, kept, s.fs, Enter(s.fs, d, Some(Dir)));
    }
  }

  lemma WholeIsWellFormed(s: State)
    requires Whole(s)
    ensures WellFormed(s.fs)
  {
  }

  lemma StepKeepsInv(names: Names, kept: set<Path>, s: State, a: Action)
    requires Inv(names, kept, s) && Enabled(s, a) && Careful(names, kept, s, a)
    ensures Inv(names, kept, Apply(s, a))
  {
    hide Whole, Backed, SurvivesGiven;
    StepKeepsWhole(s, a);
    match a
    case Begin(path, bytes) =>
    case Operate(aux) => OperateStep(names, kept, s, aux);
    case Fail(dropped) => FailStep(names, kept, s, dropped);
    case Open(d) => OpenStep(names, kept, s, d);
    case Unlink(path) =>
      WholeIsWellFormed(s);
      UnlinkKeepsBackedExactly(names, kept, s.fs, path);
    case PowerLoss(after) => PowerLossStep(names, kept, s, after);
  }

  lemma StepKeepsWhole(s: State, a: Action)
    requires Whole(s) && Enabled(s, a)
    ensures Whole(Apply(s, a))
  {
    hide Untorn, Midway, WellFormed, Plain;
    match a
    case Begin(path, bytes) => BeginIsMidway(s.fs, path, bytes);
    case Operate(aux) => OperateKeepsWhole(s, aux);
    case Fail(dropped) => FailKeepsWhole(s, dropped);
    case Open(d) =>
      if s.fs.cur(d) == None {
        EnterKeepsWellFormed(s.fs, d, Some(Dir));
        EnterKeepsUntorn(s.fs, d, Some(Dir));
      }
    case Unlink(path) =>
      EnterKeepsWellFormed(s.fs, path, None);
      EnterKeepsUntorn(s.fs, path, None);
    case PowerLoss(after) => RecoversWhole(s.fs, after);
  }

  // ---- whole runs ----

  ghost predicate Run(states: seq<State>, actions: seq<Action>)
  {
    && |states| == |actions| + 1
    && forall i :: 0 <= i < |actions| ==>
         Enabled(states[i], actions[i]) && states[i + 1] == Apply(states[i], actions[i])
  }

  lemma {:induction false} RunKeepsInv(names: Names, kept: set<Path>, states: seq<State>, actions: seq<Action>, n: nat)
    requires Run(states, actions) && n <= |actions| && Inv(names, kept, states[0])
    requires forall i :: 0 <= i < |actions| ==> Careful(names, kept, states[i], actions[i])
    ensures Inv(names, kept, states[n])
  {
    hide Inv, Apply, Enabled, Careful;
    if n > 0 {
      RunKeepsInv(names, kept, states, actions, n - 1);
      StepKeepsInv(names, kept, states[n - 1], actions[n - 1]);
    }
  }

  /** Power lost anywhere in a careful run, calls failing as they may: if the power
      loss spares the directories taken for granted, every file found after the reboot
      finds all it refers to, byte for byte. With none taken for granted every power
      loss does. */
  lemma FoundReferencesAreFound(
    names: Names, kept: set<Path>, states: seq<State>, actions: seq<Action>, n: nat, after: Fs, q: Path, b: Bytes)
    requires Run(states, actions) && n <= |actions| && Inv(names, kept, states[0])
    requires forall i :: 0 <= i < |actions| ==> Careful(names, kept, states[i], actions[i])
    requires Recovers(states[n].fs, after) && Keeps(kept, states[n].fs, after)
    requires Plain(q) && after.cur(q) == Some(File(b, true))
    ensures forall r :: r in names(b) ==> after.cur(r.0) == Some(File(r.1, true))
  {
    hide Careful, Plain;
    RunKeepsInv(names, kept, states, actions, n);
    var fs := states[n].fs;
    FoundWasHeld(fs, after, q, b);
    forall r | r in names(b)
      ensures after.cur(r.0) == Some(File(r.1, true))
    {
      KeptSurvivorFound(kept, fs, after, r.0, r.1);
    }
  }

  lemma {:induction false} RunKeepsWhole(states: seq<State>, actions: seq<Action>, n: nat)
    requires Run(states, actions) && Whole(states[0]) && n <= |actions|
    ensures Whole(states[n])
  {
    hide Whole, Apply, Enabled;
    if n > 0 {
      RunKeepsWhole(states, actions, n - 1);
      StepKeepsWhole(states[n - 1], actions[n - 1]);
    }
  }

  // ---- what the disk may hold, from what was seen ----

  /** The step leaves nothing pending about the name: it syncs the directory the name
      is in, or power is lost. */
  predicate Settles(s: State, a: Action, p: Path)
  {
    match a
    case PowerLoss(_) => true
    case Operate(_) =>
      && s.writing.Some? && |p| > 0 && |s.writing.value.path| > 0
      && var dir := Parent(s.writing.value.path);
      || (s.writing.value.stage.SyncName? && Parent(p) == dir)
      || (s.writing.value.stage.SyncParent? && |dir| > 0 && Parent(p) == Parent(dir))
    case _ => false
  }

  predicate Unsettled(states: seq<State>, actions: seq<Action>, m: nat, n: nat, p: Path)
    requires m <= n <= |actions| < |states|
  {
    forall j :: m <= j < n ==> !Settles(states[j], actions[j], p)
  }

  /** The name read so at some moment, now or before, and nothing has settled it since. */
  ghost predicate Recalled(states: seq<State>, actions: seq<Action>, n: nat, p: Path, v: Option<Node>)
    requires n <= |actions| < |states|
  {
    exists m :: 0 <= m <= n && states[m].fs.cur(p) == v && Unsettled(states, actions, m, n, p)
  }

  lemma DiskStep(s: State, a: Action, p: Path)
    requires Whole(s) && Enabled(s, a)
    ensures var fs' := Apply(s, a).fs;
            fs'.disk(p) == if Settles(s, a, p) then {fs'.cur(p)} else s.fs.disk(p) + {fs'.cur(p)}
  {
    hide WellFormed, Untorn, Midway, IsTemp;
    WholeIsWellFormed(s);
    CurOnDisk(s.fs, p);
    match a
    case Operate(aux) => OperateDisk(s, aux, p);
    case Fail(dropped) =>
      if HasTemp(s.writing.value.stage) {
        EnterDisk(s.fs, s.writing.value.stage.tmp, None, p);
      }
    case Open(d) => EnterDisk(s.fs, d, Some(Dir), p);
    case Unlink(path) => EnterDisk(s.fs, path, None, p);
    case _ =>
  }

  lemma EnterDisk(fs: Fs, q: Path, v: Option<Node>, p: Path)
    requires fs.cur(p) in fs.disk(p)
    ensures Enter(fs, q, v).cur(p) == if p == q then v else fs.cur(p)
    ensures Enter(fs, q, v).disk(p) == fs.disk(p) + {Enter(fs, q, v).cur(p)}
  {
  }

  lemma OperateDisk(s: State, aux: Path, p: Path)
    requires Whole(s) && Enabled(s, Operate(aux)) && s.fs.cur(p) in s.fs.disk(p)
    ensures var fs' := Apply(s, Operate(aux)).fs;
            fs'.disk(p) == if Settles(s, Operate(aux), p) then {fs'.cur(p)} else s.fs.disk(p) + {fs'.cur(p)}
  {
    hide IsTemp, Enter, Midway, WellFormed, Untorn;
    var fs, w := s.fs, s.writing.value;
    if HasTemp(w.stage) {
      TempIsNoDir(s.before, fs, w);
      MidwayIsWellFormed(s.before, fs, w);
    }
    match w.stage
    case Look =>
    case MakeDirs(_) => EnterDisk(fs, aux, Some(Dir), p);
    case CreateTemp(_) => EnterDisk(fs, aux, Some(File([], false)), p);
    case Fill(_, tmp) => EnterDisk(fs, tmp, Some(File(w.bytes, false)), p);
    case Flush(_, tmp) => EnterDisk(fs, tmp, Some(File(w.bytes, true)), p);
    case Persist(_, tmp) => RenameDisk(fs, tmp, w.path, p);
    case SyncName(_) =>
    case SyncParent(_) =>
  }

  lemma RenameDisk(fs: Fs, tmp: Path, path: Path, p: Path)
    requires fs.cur(p) in fs.disk(p) && tmp != path
    ensures Rename(fs, tmp, path).disk(p) == fs.disk(p) + {Rename(fs, tmp, path).cur(p)}
  {
  }

  /** What the disk may hold under a name is what was seen there, now or since it was
      last settled. */
  lemma {:induction false} DiskIsRecalled(
    states: seq<State>, actions: seq<Action>, n: nat, p: Path, v: Option<Node>)
    requires Run(states, actions) && n <= |actions| && Whole(states[0]) && AtRest(states[0].fs)
    ensures v in states[n].fs.disk(p) <==> Recalled(states, actions, n, p, v)
  {
    hide Whole, Apply, Enabled, Settles;
    if n == 0 {
      assert Unsettled(states, actions, 0, 0, p);
    } else {
      DiskIsRecalled(states, actions, n - 1, p, v);
      RunKeepsWhole(states, actions, n - 1);
      DiskStep(states[n - 1], actions[n - 1], p);
      RecallStep(states, actions, n, p, v);
    }
  }

  lemma RecallStep(states: seq<State>, actions: seq<Action>, n: nat, p: Path, v: Option<Node>)
    requires 0 < n <= |actions| < |states|
    ensures Recalled(states, actions, n, p, v)
       <==> || states[n].fs.cur(p) == v
            || (!Settles(states[n - 1], actions[n - 1], p) && Recalled(states, actions, n - 1, p, v))
  {
    hide Settles;
    assert Unsettled(states, actions, n, n, p);
    if Recalled(states, actions, n, p, v) && states[n].fs.cur(p) != v {
      var m :| 0 <= m <= n && states[m].fs.cur(p) == v && Unsettled(states, actions, m, n, p);
      assert Unsettled(states, actions, m, n - 1, p);
    }
    if !Settles(states[n - 1], actions[n - 1], p) && Recalled(states, actions, n - 1, p, v) {
      var m :| 0 <= m <= n - 1 && states[m].fs.cur(p) == v && Unsettled(states, actions, m, n - 1, p);
      assert Unsettled(states, actions, m, n, p);
    }
  }

  /** A file seen now or earlier names this one, and if it has been unlinked or
      replaced, its directory has not been synced since nor the power lost. */
  ghost predicate StillNamed(names: Names, states: seq<State>, actions: seq<Action>, n: nat, path: Path)
    requires n <= |actions| < |states|
  {
    exists q: Path, b, r ::
      Plain(q) && Recalled(states, actions, n, q, Some(File(b, true))) && r in names(b) && r.0 == path
  }

  lemma StillNamedExactly(names: Names, states: seq<State>, actions: seq<Action>, n: nat, path: Path)
    requires Run(states, actions) && n <= |actions| && Whole(states[0]) && AtRest(states[0].fs)
    ensures Unnamed(names, states[n].fs, path) <==> !StillNamed(names, states, actions, n, path)
  {
    hide Recalled, Whole, Plain;
    forall q, b
      ensures MayHold(states[n].fs, q, b) <==> Recalled(states, actions, n, q, Some(File(b, true)))
    {
      DiskIsRecalled(states, actions, n, q, Some(File(b, true)));
    }
  }

  /** Erasing a file keeps every reference backed exactly when no visible file names
      it, and every file that did and was unlinked or replaced has been settled since. */
  lemma EraseKeepsBackedExactly(
    names: Names, kept: set<Path>, states: seq<State>, actions: seq<Action>, n: nat, path: Path)
    requires Run(states, actions) && n <= |actions| && Whole(states[0]) && AtRest(states[0].fs)
    requires Backed(names, kept, states[n].fs) && Enabled(states[n], Unlink(path))
    ensures Backed(names, kept, Apply(states[n], Unlink(path)).fs) <==> !StillNamed(names, states, actions, n, path)
  {
    hide Whole, Backed;
    RunKeepsWhole(states, actions, n);
    WholeIsWellFormed(states[n]);
    UnlinkKeepsBackedExactly(names, kept, states[n].fs, path);
    StillNamedExactly(names, states, actions, n, path);
  }

  /** An acknowledged write settles every name in its directory. */
  lemma {:induction false} AckSettles(states: seq<State>, actions: seq<Action>, m: nat, n: nat, p: Path)
    requires Run(states, actions) && m < n <= |actions| && |p| > 0
    requires actions[m].Begin? && |actions[m].path| > 0 && Parent(actions[m].path) == Parent(p)
    requires forall j :: m < j < n ==> actions[j].Operate?
    ensures var w := states[n].writing;
            && (w.Some? ==> w.value.path == actions[m].path)
            && (w.None? || w.value.stage.SyncParent? ==> !Unsettled(states, actions, m, n, p))
  {
    hide IsTemp, Settles;
    if n > m + 1 {
      AckSettles(states, actions, m, n - 1, p);
      CallStep(states[n - 1], actions[n - 1].aux, p);
      if !Unsettled(states, actions, m, n - 1, p) {
        var j :| m <= j < n - 1 && Settles(states[j], actions[j], p);
        assert !Unsettled(states, actions, m, n, p);
      }
    }
  }

  lemma CallStep(s: State, aux: Path, p: Path)
    requires Enabled(s, Operate(aux)) && |p| > 0 && Parent(s.writing.value.path) == Parent(p)
    ensures var w := Apply(s, Operate(aux)).writing;
            && (w.Some? ==> w.value.path == s.writing.value.path)
            && (w.None? || w.value.stage.SyncParent? ==>
                  Settles(s, Operate(aux), p) || s.writing.value.stage.SyncParent?)
  {
    hide IsTemp;
  }
}
