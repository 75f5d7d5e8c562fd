/** `write_atomic` under power loss (crates/barme-store/src/lib.rs), one file
    operation at a time, and what it makes of write-then-reference. */
module Durable {
  import opened Bits
  import opened Common
  import opened FileSystem

  /** ".barme-tmp-" */
  const TMP_PREFIX: Bytes := [46, 98, 97, 114, 109, 101, 45, 116, 109, 112, 45]

  predicate IsTemp(p: Path)
  {
    |p| > 0 && TMP_PREFIX <= p[|p| - 1]
  }

  lemma TempIsNamed(p: Path)
    ensures IsTemp(p) <==>
            |p| > 0 &&
            var name := p[|p| - 1];
            |name| >= 11 && forall i :: 0 <= i < 11 ==> name[i] == ".barme-tmp-"[i] as int
  {
    assert forall i :: 0 <= i < 11 ==> TMP_PREFIX[i] == ".barme-tmp-"[i] as int;
    if |p| > 0 {
      var name := p[|p| - 1];
      assert TMP_PREFIX <= name <==> |name| >= 11 && forall i :: 0 <= i < 11 ==> name[i] == TMP_PREFIX[i];
    }
  }

  /** A name the store reads a file under. Directories on the way may be called
      anything: a bucket may bear the name of a temp file. */
  predicate Plain(p: Path)
  {
    !IsTemp(p)
  }

  /** A name the store writes to. */
  predicate Target(p: Path)
  {
    |p| > 0 && Plain(p)
  }

  /** `isNew` is what `dir_is_new` was found to be. */
  datatype Stage =
    | Look
    | MakeDirs(isNew: bool)
    | CreateTemp(isNew: bool)
    | Fill(isNew: bool, tmp: Path)
    | Flush(isNew: bool, tmp: Path)
    | Persist(isNew: bool, tmp: Path)
    | SyncName(isNew: bool)
    | SyncParent(isNew: bool)

  /** A call of `write_atomic` and how far it has come. */
  datatype Write = Write(path: Path, bytes: Bytes, stage: Stage)

  predicate HasTemp(s: Stage)
  {
    s.Fill? || s.Flush? || s.Persist?
  }

  /** The next file operation can succeed; `aux` is the directory it makes or the
      temp name it picks. */
  predicate CanAdvance(fs: Fs, w: Write, aux: Path)
  {
    && Target(w.path)
    && var dir := Parent(w.path);
    match w.stage
    case MakeDirs(_) =>
      fs.cur(dir) != Some(Dir) ==> |aux| > 0 && aux <= dir && fs.cur(aux) == None && fs.cur(Parent(aux)) == Some(Dir)
    case CreateTemp(_) => |aux| > 0 && Parent(aux) == dir && IsTemp(aux) && fs.cur(aux) == None
    case Persist(_, _) => fs.cur(w.path) != Some(Dir)
    case _ => true
  }

  /** The file system after the next operation, and the call if it goes on. */
  function Advance(fs: Fs, w: Write, aux: Path): (Fs, Option<Write>)
    requires CanAdvance(fs, w, aux)
  {
    var dir := Parent(w.path);
    match w.stage
    case Look => (fs, Some(w.(stage := MakeDirs(fs.cur(dir) == None))))
    case MakeDirs(isNew) =>
      if fs.cur(dir) == Some(Dir) then (fs, Some(w.(stage := CreateTemp(isNew))))
      else (Enter(fs, aux, Some(Dir)), Some(w))
    case CreateTemp(isNew) => (Enter(fs, aux, Some(File([], false))), Some(w.(stage := Fill(isNew, aux))))
    case Fill(isNew, tmp) => (Enter(fs, tmp, Some(File(w.bytes, false))), Some(w.(stage := Flush(isNew, tmp))))
    case Flush(isNew, tmp) => (Enter(fs, tmp, Some(File(w.bytes, true))), Some(w.(stage := Persist(isNew, tmp))))
    case Persist(isNew, tmp) => (Rename(fs, tmp, w.path), Some(w.(stage := SyncName(isNew))))
    case SyncName(isNew) => (SyncDir(fs, dir), if isNew then Some(w.(stage := SyncParent(isNew))) else None)
    case SyncParent(_) => (if |dir| > 0 then SyncDir(fs, Parent(dir)) else fs, None)
  }

  /** An operation fails: the temp file is dropped, if that still works. */
  function GiveUp(fs: Fs, w: Write, dropped: bool): Fs
  {
    if HasTemp(w.stage) && dropped then Enter(fs, w.stage.tmp, None) else fs
  }

  // ---- one write ----

  /** How the file system differs from what it was when the call began. */
  ghost predicate Midway(before: Fs, fs: Fs, w: Write)
  {
    && Target(w.path) && WellFormed(before) && WellFormed(fs) && Staged(before, fs, w)
    && DirsMidway(before, fs, w.path) && TargetMidway(before, fs, w) && OthersUntouched(before, fs, w.path)
  }

  predicate Staged(before: Fs, fs: Fs, w: Write)
    requires Target(w.path)
  {
    var dir := Parent(w.path);
    && (if w.stage.Look? then fs.cur(dir) == before.cur(dir) else w.stage.isNew == before.cur(dir).None?)
    && (!w.stage.Look? && !w.stage.MakeDirs? ==> fs.cur(dir) == Some(Dir))
    && (HasTemp(w.stage) ==> |w.stage.tmp| > 0 && IsTemp(w.stage.tmp) && Parent(w.stage.tmp) == dir)
    && (HasTemp(w.stage) ==> fs.cur(w.stage.tmp) != Some(Dir))
    && (w.stage.SyncParent? ==> w.stage.isNew)
    && (w.stage.Persist? ==> fs.cur(w.stage.tmp) == Some(File(w.bytes, true)))
  }

  /** Directories on the way are there as before, or newly made. */
  ghost predicate DirsMidway(before: Fs, fs: Fs, path: Path)
    requires |path| > 0
  {
    forall q: Path :: q <= Parent(path) ==>
      && (fs.cur(q) == before.cur(q) || (before.cur(q) == None && fs.cur(q) == Some(Dir)))
      && fs.disk(q) == before.disk(q) + {fs.cur(q)}
  }

  /** The target is as before, until it is whole and new. */
  predicate TargetMidway(before: Fs, fs: Fs, w: Write)
  {
    match w.stage
    case SyncName(_) =>
      fs.cur(w.path) == Some(File(w.bytes, true)) && fs.disk(w.path) == before.disk(w.path) + {fs.cur(w.path)}
    case SyncParent(_) => fs.cur(w.path) == Some(File(w.bytes, true)) && fs.disk(w.path) == {fs.cur(w.path)}
    case _ => fs.cur(w.path) == before.cur(w.path) && fs.disk(w.path) == before.disk(w.path)
  }

  /** A name the store reads, or a directory. */
  predicate Watched(before: Fs, fs: Fs, q: Path)
  {
    Plain(q) || before.cur(q) == Some(Dir) || fs.cur(q) == Some(Dir)
  }

  /** Every other name the store reads, and every directory not on the way, is as
      before, or better settled. */
  ghost predicate OthersUntouched(before: Fs, fs: Fs, path: Path)
    requires |path| > 0
  {
    forall q: Path :: Watched(before, fs, q) && q != path && !(q <= Parent(path)) ==>
      fs.cur(q) == before.cur(q) && fs.disk(q) <= before.disk(q)
  }

  lemma EnterKeepsWellFormed(fs: Fs, p: Path, v: Option<Node>)
    requires WellFormed(fs) && |p| > 0
    requires v.Some? ==> fs.cur(Parent(p)) == Some(Dir)
    requires fs.cur(p) == Some(Dir) ==> v == Some(Dir)
    ensures WellFormed(Enter(fs, p, v))
  {
  }

  lemma SyncKeepsWellFormed(fs: Fs, d: Path)
    requires WellFormed(fs)
    ensures WellFormed(SyncDir(fs, d))
  {
  }

  lemma BeginIsMidway(fs: Fs, path: Path, bytes: Bytes)
    requires WellFormed(fs) && Target(path)
    ensures Midway(fs, fs, Write(path, bytes, Look))
  {
    hide Plain;
    forall q: Path
      ensures fs.disk(q) == fs.disk(q) + {fs.cur(q)}
    {
      assert fs.cur(q) in fs.disk(q);
    }
  }

  /** Making a directory on the way to the target. */
  lemma MakeDirFrame(before: Fs, fs: Fs, path: Path, d: Path)
    requires Target(path) && WellFormed(before) && d <= Parent(path) && fs.cur(d) == None
    requires DirsMidway(before, fs, path) && OthersUntouched(before, fs, path)
    ensures DirsMidway(before, Enter(fs, d, Some(Dir)), path)
    ensures OthersUntouched(before, Enter(fs, d, Some(Dir)), path)
  {
    hide Plain;
    assert before.cur(d) in before.disk(d);
  }

  /** A temp file is none of the names the store reads, nor a directory. */
  lemma TempFrame(before: Fs, fs: Fs, path: Path, tmp: Path, v: Option<Node>)
    requires Target(path) && |tmp| > 0 && IsTemp(tmp) && Parent(tmp) == Parent(path)
    requires fs.cur(tmp) != Some(Dir) && v != Some(Dir)
    requires DirsMidway(before, fs, path) && OthersUntouched(before, fs, path)
    ensures tmp != path && !(tmp <= Parent(path))
    ensures DirsMidway(before, Enter(fs, tmp, v), path)
    ensures OthersUntouched(before, Enter(fs, tmp, v), path)
  {
    hide IsTemp;
    assert |tmp| == |path|;
  }

  lemma TargetFrame(before: Fs, fs: Fs, path: Path, v: Option<Node>)
    requires Target(path) && v != Some(Dir)
    requires DirsMidway(before, fs, path) && OthersUntouched(before, fs, path)
    ensures DirsMidway(before, Enter(fs, path, v), path)
    ensures OthersUntouched(before, Enter(fs, path, v), path)
  {
    hide IsTemp;
  }

  /** Syncing the target's directory settles the names in it, none of them on the
      way there. */
  lemma SyncNameFrame(before: Fs, fs: Fs, path: Path)
    requires Target(path) && WellFormed(fs)
    requires DirsMidway(before, fs, path) && OthersUntouched(before, fs, path)
    ensures DirsMidway(before, SyncDir(fs, Parent(path)), path)
    ensures OthersUntouched(before, SyncDir(fs, Parent(path)), path)
  {
    hide Plain;
    assert forall q: Path :: fs.cur(q) in fs.disk(q);
  }

  /** Creating, filling or flushing the temp file. */
  lemma TempStep(before: Fs, fs: Fs, w: Write, tmp: Path, v: Option<Node>, stage: Stage)
    requires Midway(before, fs, w) && (w.stage.CreateTemp? || w.stage.Fill? || w.stage.Flush?)
    requires |tmp| > 0 && IsTemp(tmp) && Parent(tmp) == Parent(w.path) && fs.cur(tmp) != Some(Dir)
    requires HasTemp(stage) && stage.tmp == tmp && stage.isNew == w.stage.isNew
    requires v.Some? && v.value.File? && (stage.Persist? ==> v == Some(File(w.bytes, true)))
    ensures Midway(before, Enter(fs, tmp, v), w.(stage := stage))
  {
    hide WellFormed, DirsMidway, OthersUntouched, Plain, IsTemp;
    EnterKeepsWellFormed(fs, tmp, v);
    TempFrame(before, fs, w.path, tmp, v);
  }

  lemma PersistStep(before: Fs, fs: Fs, w: Write)
    requires Midway(before, fs, w) && w.stage.Persist? && fs.cur(w.path) != Some(Dir)
    ensures Midway(before, Rename(fs, w.stage.tmp, w.path), w.(stage := SyncName(w.stage.isNew)))
  {
    hide WellFormed, DirsMidway, OthersUntouched, Plain, IsTemp;
    var tmp := w.stage.tmp;
    var renamed := Enter(fs, w.path, fs.cur(tmp));
    EnterKeepsWellFormed(fs, w.path, fs.cur(tmp));
    TargetFrame(before, fs, w.path, fs.cur(tmp));
    TempFrame(before, renamed, w.path, tmp, None);
    EnterKeepsWellFormed(renamed, tmp, None);
  }

  lemma AdvanceKeepsMidway(before: Fs, fs: Fs, w: Write, aux: Path)
    requires Midway(before, fs, w) && CanAdvance(fs, w, aux) && Advance(fs, w, aux).1.Some?
    ensures Midway(before, Advance(fs, w, aux).0, Advance(fs, w, aux).1.value)
  {
    hide WellFormed, DirsMidway, OthersUntouched, Plain, IsTemp, Enter, Rename;
    var dir := Parent(w.path);
    match w.stage
    case Look =>
    case MakeDirs(_) => MakeDirStep(before, fs, w, aux);
    case CreateTemp(isNew) => TempStep(before, fs, w, aux, Some(File([], false)), Fill(isNew, aux));
    case Fill(isNew, tmp) => TempStep(before, fs, w, tmp, Some(File(w.bytes, false)), Flush(isNew, tmp));
    case Flush(isNew, tmp) => TempStep(before, fs, w, tmp, Some(File(w.bytes, true)), Persist(isNew, tmp));
    case Persist(_, _) => PersistStep(before, fs, w);
    case SyncName(_) =>
      SyncKeepsWellFormed(fs, dir);
      SyncNameFrame(before, fs, w.path);
  }

  lemma MakeDirStep(before: Fs, fs: Fs, w: Write, aux: Path)
    requires Midway(before, fs, w) && CanAdvance(fs, w, aux) && w.stage.MakeDirs?
    ensures Midway(before, Advance(fs, w, aux).0, Advance(fs, w, aux).1.value)
  {
    hide WellFormed, DirsMidway, OthersUntouched, Plain, IsTemp;
    if fs.cur(Parent(w.path)) != Some(Dir) {
      EnterKeepsWellFormed(fs, aux, Some(Dir));
      MakeDirFrame(before, fs, w.path, aux);
    }
  }

  // ---- whole old or whole new ----

  /** No name the store reads can come back torn: what it may hold on disk was
      synced before it was named. */
  ghost predicate Untorn(fs: Fs)
  {
    forall q: Path, v :: Plain(q) && v in fs.disk(q) && v.Some? && v.value.File? ==> v.value.synced
  }

  lemma MidwayIsUntorn(before: Fs, fs: Fs, w: Write)
    requires Midway(before, fs, w) && Untorn(before)
    ensures Untorn(fs)
  {
    hide WellFormed;
    forall q: Path, v | Plain(q) && v in fs.disk(q) && v.Some? && v.value.File?
      ensures v.value.synced
    {
      if q == w.path {
      } else if q <= Parent(w.path) {
        DirIsNoNewFile(before, fs, w, q, v);
      } else {
        assert v in before.disk(q);
      }
    }
  }

  lemma DirIsNoNewFile(before: Fs, fs: Fs, w: Write, q: Path, v: Option<Node>)
    requires Midway(before, fs, w) && q <= Parent(w.path) && v in fs.disk(q) && v != Some(Dir)
    ensures v in before.disk(q)
  {
    assert before.cur(q) in before.disk(q);
  }

  /** Power lost at any point of a write: whatever name is read after the reboot,
      if it reads as a file, reads whole, as it might have before the write began,
      or, for the target alone, with the new contents whole. */
  lemma OldOrNew(before: Fs, fs: Fs, w: Write, after: Fs, q: Path)
    requires Midway(before, fs, w) && Untorn(before) && Recovers(fs, after)
    requires Plain(q) && after.cur(q).Some? && after.cur(q).value.File?
    ensures after.cur(q) in before.disk(q) || (q == w.path && after.cur(q) == Some(File(w.bytes, true)))
  {
    MidwayIsUntorn(before, fs, w);
    assert SomeReadsAs(fs.disk(q), after.cur(q));
    var v :| v in fs.disk(q) && ReadsAs(v, after.cur(q));
    assert v == after.cur(q);
    if q <= Parent(w.path) {
      DirIsNoNewFile(before, fs, w, q, v);
    } else if q != w.path {
      assert fs.disk(q) <= before.disk(q);
    }
  }

  // ---- when an acknowledgement can be trusted ----

  /** The directories above the target's own are on disk for good, and so is its
      own unless the write is the one to make it. */
  predicate Grounded(fs: Fs, path: Path)
    requires |path| > 0
  {
    var dir := Parent(path);
    DirsDurable(fs, dir, |dir|) && (fs.cur(dir) == None || fs.disk(dir) == {Some(Dir)})
  }

  lemma DirAsDurable(before: Fs, fs: Fs, path: Path, d: Path)
    requires |path| > 0 && WellFormed(before) && DirsMidway(before, fs, path) && d <= Parent(path)
    requires fs.cur(d) == Some(Dir)
    ensures fs.disk(d) == {Some(Dir)} <==> before.disk(d) == {Some(Dir)}
  {
    assert before.cur(d) in before.disk(d);
    if fs.disk(d) == {Some(Dir)} {
      assert before.disk(d) <= {Some(Dir)};
    }
  }

  /** Acknowledging syncs nothing above the target's own directory. */
  lemma AboveAsDurable(before: Fs, fs: Fs, w: Write, done: Fs)
    requires Midway(before, fs, w) && fs.cur(Parent(w.path)) == Some(Dir)
    requires forall q: Path :: |q| < |w.path| - 1 ==> done.disk(q) == fs.disk(q)
    ensures DirsDurable(done, w.path, |w.path| - 1) <==> DirsDurable(before, Parent(w.path), |w.path| - 1)
  {
    hide OthersUntouched, Plain, DirsMidway;
    var path, dir := w.path, Parent(w.path);
    forall i | 0 <= i < |dir|
      ensures done.disk(path[..i]) == {Some(Dir)} <==> before.disk(dir[..i]) == {Some(Dir)}
    {
      assert path[..i] == dir[..i] && dir[..i] <= dir;
      AncestorsAreDirs(fs, dir, i);
      DirAsDurable(before, fs, path, dir[..i]);
    }
  }

  lemma LastDir(fs: Fs, path: Path)
    requires |path| > 0
    ensures DirsDurable(fs, path, |path|) <==> DirsDurable(fs, path, |path| - 1) && fs.disk(Parent(path)) == {Some(Dir)}
  {
  }

  /** What the last operation before the acknowledgement leaves. */
  lemma LastStep(before: Fs, fs: Fs, w: Write, aux: Path)
    requires Midway(before, fs, w) && CanAdvance(fs, w, aux) && Advance(fs, w, aux).1.None?
    ensures var done, dir := Advance(fs, w, aux).0, Parent(w.path);
            && WellFormed(done)
            && done.cur(w.path) == Some(File(w.bytes, true)) && done.disk(w.path) == {done.cur(w.path)}
            && (forall q: Path :: |q| < |dir| ==> done.disk(q) == fs.disk(q))
            && fs.cur(dir) == Some(Dir)
            && done.disk(dir) == if before.cur(dir) == None then {Some(Dir)} else fs.disk(dir)
  {
    hide WellFormed, OthersUntouched, Plain, DirsMidway;
    var dir := Parent(w.path);
    SyncKeepsWellFormed(fs, dir);
    if |dir| > 0 {
      SyncKeepsWellFormed(fs, Parent(dir));
    }
    RootIsThere(before);
    assert |dir| == 0 ==> dir == [];
    assert |dir| > 0 ==> Parent(dir) != dir;
  }

  /** An acknowledged write survives every crash exactly when it began grounded. */
  lemma AckSurvivesExactly(before: Fs, fs: Fs, w: Write, aux: Path)
    requires Midway(before, fs, w) && CanAdvance(fs, w, aux) && Advance(fs, w, aux).1.None?
    ensures WellFormed(Advance(fs, w, aux).0) && Advance(fs, w, aux).0.cur(w.path) == Some(File(w.bytes, true))
    ensures Survives(Advance(fs, w, aux).0, w.path, w.bytes) <==> Grounded(before, w.path)
  {
    hide WellFormed, OthersUntouched, Plain, DirsMidway, DirsDurable, TargetMidway, Advance;
    var path, dir, done := w.path, Parent(w.path), Advance(fs, w, aux).0;
    LastStep(before, fs, w, aux);
    AboveAsDurable(before, fs, w, done);
    DirAsDurable(before, fs, path, dir);
    LastDir(done, path);
  }

  lemma CurOnDisk(fs: Fs, p: Path)
    requires WellFormed(fs)
    ensures fs.cur(p) in fs.disk(p)
  {
  }

  lemma RootIsThere(fs: Fs)
    requires WellFormed(fs)
    ensures fs.cur([]) == Some(Dir) && fs.disk([]) == {Some(Dir)}
  {
  }
}
