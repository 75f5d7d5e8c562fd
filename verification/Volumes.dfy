/** The data directory as the process works on it: `write_atomic` and `sweep_temp`
    as the operations they perform, in order (crates/barme-store/src/lib.rs). */
module Volumes {
  import opened Bits
  import opened Common
  import opened FileSystem
  import opened Durable
  import opened Recovery

  /** No file stands where a directory is needed, no directory at the target. */
  predicate NothingInTheWay(fs: Fs, path: Path)
  {
    && fs.cur(path) != Some(Dir)
    && forall i :: 0 <= i < |path| ==> fs.cur(path[..i]) == None || fs.cur(path[..i]) == Some(Dir)
  }

  /** Nothing reads otherwise than before but directories on the way to `dir` that
      were not there. */
  ghost predicate OnlyMakes(before: Path -> Option<Node>, now: Path -> Option<Node>, dir: Path)
  {
    forall q: Path :: now(q) == before(q) || Makes(before, now, dir, q)
  }

  predicate Makes(before: Path -> Option<Node>, now: Path -> Option<Node>, dir: Path, q: Path)
  {
    q <= dir && before(q) == None && now(q) == Some(Dir)
  }

  /** Nor anything but the target. */
  ghost predicate OnlyWrites(before: Path -> Option<Node>, now: Path -> Option<Node>, path: Path)
    requires |path| > 0
  {
    forall q: Path :: q == path || now(q) == before(q) || Makes(before, now, Parent(path), q)
  }

  /** A temp file is gone from where it was, and the target reads as the file. */
  ghost predicate Moved(before: Path -> Option<Node>, now: Path -> Option<Node>, tmp: Path, path: Path, bytes: Bytes)
  {
    forall q: Path :: now(q) == if q == tmp then None else if q == path then Some(File(bytes, true)) else before(q)
  }

  ghost predicate Dropped(before: Path -> Option<Node>, now: Path -> Option<Node>, tmp: Path)
  {
    forall q: Path :: now(q) == if q == tmp then None else before(q)
  }

  /** `states` and `actions` record every operation, so that power can be lost
      after any of them. */
  class Volume {
    var fs: Fs
    ghost var states: seq<State>
    ghost var actions: seq<Action>

    ghost predicate Valid()
      reads this
    {
      && Run(states, actions) && WellFormed(fs)
      && states[|actions|].fs == fs && states[|actions|].writing.None?
    }

    /** Every state noted since the first `n` actions, but for the last, is on the
        way to having written `bytes` at `path`. */
    ghost predicate OnTheWay(n: nat, before: Fs, path: Path, bytes: Bytes)
      reads `states, `actions
    {
      forall i :: n < i < |actions| && i < |states| ==>
        && states[i].writing.Some? && states[i].writing.value.path == path && states[i].writing.value.bytes == bytes
        && Midway(before, states[i].fs, states[i].writing.value)
    }

    /** The record so far ends in a call that had come to `w` with the file system
        at `was`. */
    ghost predicate At(n: nat, before: Fs, was: Fs, w: Write)
      reads `states, `actions
    {
      && Run(states, actions) && n < |actions| && states[|actions|] == State(was, Some(w), before)
      && Midway(before, was, w) && OnTheWay(n, before, w.path, w.bytes)
    }

    constructor (found: Fs)
      requires WellFormed(found)
      ensures Valid() && fs == found && states == [State(found, None, found)] && actions == []
    {
      fs := found;
      states, actions := [State(found, None, found)], [];
    }

    /** Notes an operation that has just been performed. */
    ghost method Note(a: Action)
      requires Run(states, actions) && Enabled(states[|actions|], a)
      modifies this`states, this`actions
      ensures Run(states, actions) && states[|actions|] == Apply(old(states[|actions|]), a)
      ensures states == old(states) + [states[|actions|]] && actions == old(actions) + [a]
    {
      hide Apply, Enabled;
      var s := Apply(states[|actions|], a);
      var more, acts := states + [s], actions + [a];
      forall i | 0 <= i < |acts|
        ensures Enabled(more[i], acts[i]) && more[i + 1] == Apply(more[i], acts[i])
      {
        assert i < |actions| ==> more[i] == states[i] && acts[i] == actions[i] && more[i + 1] == states[i + 1];
      }
      states, actions := more, acts;
    }

    /** Notes an operation of the call that had come to `w`. */
    ghost method NoteOperation(n: nat, before: Fs, was: Fs, w: Write, aux: Path)
      requires At(n, before, was, w) && CanAdvance(was, w, aux) && Advance(was, w, aux).1.Some?
      modifies this`states, this`actions
      ensures At(n, before, Advance(was, w, aux).0, Advance(was, w, aux).1.value)
      ensures old(states) <= states && old(actions) <= actions
    {
      hide Midway, CanAdvance, Advance, Run;
      Note(Operate(aux));
      AdvanceKeepsMidway(before, was, w, aux);
      AdvanceKeepsTarget(was, w, aux);
    }

    /** The call that had come to `w` fails: its temp file goes with it. */
    method Abandon(ghost n: nat, ghost before: Fs, ghost w: Write, tmp: Option<Path>)
      requires At(n, before, fs, w) && tmp == if HasTemp(w.stage) then Some(w.stage.tmp) else None
      modifies this
      ensures Valid() && old(states) <= states && old(actions) <= actions
      ensures OnTheWay(n, before, w.path, w.bytes)
      ensures if tmp.None? then fs == old(fs) else Dropped(old(fs).cur, fs.cur, tmp.value)
    {
      hide DirsMidway, OthersUntouched, Plain, IsTemp, WellFormed;
      Note(Fail(true));
      if tmp.Some? {
        EnterKeepsWellFormed(fs, tmp.value, None);
        fs := Enter(fs, tmp.value, None);
      }
    }

    /** `budget` file operations succeed; the one after fails. `pick` is the temp
        name chosen. With nothing failing or in the way the call succeeds. Whatever
        happens, power lost on the way tears nothing (Durable.OldOrNew); on success
        the write survives exactly when it began grounded. */
    method WriteAtomic(path: Path, bytes: Bytes, pick: Bytes, budget: nat) returns (ok: bool)
      requires Valid() && Target(path)
      requires TMP_PREFIX <= pick && fs.cur(Parent(path) + [pick]) == None
      modifies this
      ensures Valid() && old(states) <= states && old(actions) <= actions
      ensures OnTheWay(old(|actions|), old(fs), path, bytes)
      ensures ok ==> fs.cur(path) == Some(File(bytes, true)) && (Survives(fs, path, bytes) <==> Grounded(old(fs), path))
      ensures fs.cur(path) == old(fs).cur(path) || fs.cur(path) == Some(File(bytes, true))
      ensures OnlyWrites(old(fs).cur, fs.cur, path)
      ensures budget >= |path| + 5 && NothingInTheWay(old(fs), path) ==> ok
    {
      hide Run, Midway, WellFormed, Survives, Grounded, Enter, OnTheWay;
      ghost var before, n := fs, |actions|;
      var dir := Parent(path);
      var isNew := fs.cur(dir) == None;
      StartCall(path, bytes);
      var made, left := CreateDirAll(n, before, Write(path, bytes, MakeDirs(isNew)), budget);
      if !made {
        return false;
      }
      var filled := FillTemp(n, before, path, bytes, dir + [pick], isNew, left);
      if !filled {
        return false;
      }
      ok := Replace(n, before, path, bytes, dir + [pick], isNew, if left < 3 then 0 else left - 3);
    }

    ghost method StartCall(path: Path, bytes: Bytes)
      requires Valid() && Target(path)
      modifies this`states, this`actions
      ensures At(old(|actions|), fs, fs, Write(path, bytes, MakeDirs(fs.cur(Parent(path)) == None)))
      ensures old(states) <= states && old(actions) <= actions
    {
      hide Run, Midway, Plain;
      Note(Begin(path, bytes));
      BeginIsMidway(fs, path, bytes);
      NoteOperation(|actions| - 1, fs, fs, Write(path, bytes, Look), []);
    }

    /** `create_dir_all`. */
    method CreateDirAll(ghost n: nat, ghost before: Fs, w: Write, budget: nat) returns (made: bool, left: nat)
      requires At(n, before, fs, w) && Target(w.path) && w.stage.MakeDirs?
      modifies this
      ensures old(states) <= states && old(actions) <= actions
      ensures if made then At(n, before, fs, w) && fs.cur(Parent(w.path)) == Some(Dir)
              else Valid() && OnTheWay(n, before, w.path, w.bytes)
      ensures OnlyMakes(old(fs).cur, fs.cur, Parent(w.path))
      ensures budget >= |w.path| - 1 && NothingInTheWay(old(fs), w.path) ==> made && left >= budget - (|w.path| - 1)
    {
      assert OnlyMakes(fs.cur, fs.cur, Parent(w.path));
      hide Run, Midway, WellFormed, Plain, OnlyMakes, OnTheWay, Advance, CanAdvance, HasTemp;
      var dir := Parent(w.path);
      left := budget;
      var i := 0;
      MidwayIsWellFormed(before, fs, w);
      RootIsThere(fs);
      assert dir[..0] == [];
      while i < |dir|
        invariant i <= |dir| && At(n, before, fs, w)
        invariant fs.cur(dir[..i]) == Some(Dir) && left >= budget - i
        invariant forall q: Path :: |q| > i ==> fs.cur(q) == old(fs).cur(q)
        invariant OnlyMakes(old(fs).cur, fs.cur, dir)
        invariant old(states) <= states && old(actions) <= actions
      {
        i := i + 1;
        var d := dir[..i];
        assert d == w.path[..i];
        if fs.cur(d) != Some(Dir) {
          assert Parent(d) == dir[..i - 1];
          made := CreateDir(n, before, w, d, left, old(fs));
          if !made {
            return false, left;
          }
          left := left - 1;
        }
      }
      assert dir[..i] == dir;
      made := true;
    }

    /** One directory on the way to the target. */
    method CreateDir(ghost n: nat, ghost before: Fs, w: Write, d: Path, budget: nat, ghost first: Fs)
      returns (made: bool)
      requires At(n, before, fs, w) && Target(w.path) && w.stage.MakeDirs?
      requires |d| > 0 && d <= Parent(w.path) && fs.cur(d) != Some(Dir) && fs.cur(Parent(d)) == Some(Dir)
      requires OnlyMakes(first.cur, fs.cur, Parent(w.path))
      modifies this
      ensures old(states) <= states && old(actions) <= actions
      ensures made <==> budget > 0 && old(fs).cur(d) == None
      ensures if made then At(n, before, fs, w) && fs == Enter(old(fs), d, Some(Dir))
              else Valid() && OnTheWay(n, before, w.path, w.bytes) && fs == old(fs)
      ensures OnlyMakes(first.cur, fs.cur, Parent(w.path))
    {
      hide Run, Midway, WellFormed, Plain, OnTheWay, OnlyMakes;
      if budget == 0 || fs.cur(d).Some? {
        Abandon(n, before, w, None);
        return false;
      }
      NothingBelow(before, fs, w, d);
      NoteOperation(n, before, fs, w, d);
      MadeReads(first, fs, Parent(w.path), d);
      fs := Enter(fs, d, Some(Dir));
      made := true;
    }

    /** Notes the last operation of the call that had come to `w`. */
    ghost method NoteLast(n: nat, before: Fs, was: Fs, w: Write)
      requires At(n, before, was, w) && CanAdvance(was, w, []) && Advance(was, w, []).1.None?
      modifies this`states, this`actions
      ensures Run(states, actions) && states[|actions|].writing.None? && states[|actions|].fs == Advance(was, w, []).0
      ensures old(states) <= states && old(actions) <= actions && OnTheWay(n, before, w.path, w.bytes)
      ensures WellFormed(Advance(was, w, []).0) && Advance(was, w, []).0.cur(w.path) == Some(File(w.bytes, true))
      ensures Survives(Advance(was, w, []).0, w.path, w.bytes) <==> Grounded(before, w.path)
    {
      hide Midway, CanAdvance, Advance, WellFormed, Survives, Grounded;
      Note(Operate([]));
      AckSurvivesExactly(before, was, w, []);
    }

    /** A temp file in the target's directory, written and synced. */
    method FillTemp(ghost n: nat, ghost before: Fs, path: Path, bytes: Bytes, tmp: Path, isNew: bool, budget: nat)
      returns (ok: bool)
      requires At(n, before, fs, Write(path, bytes, MakeDirs(isNew))) && Target(path)
      requires fs.cur(Parent(path)) == Some(Dir)
      requires |tmp| > 0 && IsTemp(tmp) && Parent(tmp) == Parent(path) && fs.cur(tmp) == None
      modifies this
      ensures old(states) <= states && old(actions) <= actions
      ensures if ok then At(n, before, fs, Write(path, bytes, Persist(isNew, tmp)))
              else Valid() && OnTheWay(n, before, path, bytes)
      ensures budget >= 3 ==> ok
      ensures forall q: Path :: q != tmp || !ok ==> fs.cur(q) == old(fs).cur(q)
    {
      hide Run, Midway, WellFormed, Plain, IsTemp, OnTheWay;
      ghost var w := Write(path, bytes, MakeDirs(isNew));
      NoteOperation(n, before, fs, w, []);
      w := w.(stage := CreateTemp(isNew));
      if budget < 1 {
        Abandon(n, before, w, None);
        return false;
      }
      NoteOperation(n, before, fs, w, tmp);
      fs, w := Enter(fs, tmp, Some(File([], false))), w.(stage := Fill(isNew, tmp));
      if budget < 2 {
        Abandon(n, before, w, Some(tmp));
        return false;
      }
      NoteOperation(n, before, fs, w, []);
      fs, w := Enter(fs, tmp, Some(File(bytes, false))), w.(stage := Flush(isNew, tmp));
      if budget < 3 {
        Abandon(n, before, w, Some(tmp));
        return false;
      }
      NoteOperation(n, before, fs, w, []);
      fs := Enter(fs, tmp, Some(File(bytes, true)));
      ok := true;
    }

    /** The synced temp file renamed over the target, and the names synced. */
    method Replace(ghost n: nat, ghost before: Fs, path: Path, bytes: Bytes, tmp: Path, isNew: bool, budget: nat)
      returns (ok: bool)
      requires At(n, before, fs, Write(path, bytes, Persist(isNew, tmp))) && Target(path) && IsTemp(tmp)
      modifies this
      ensures Valid() && old(states) <= states && old(actions) <= actions
      ensures OnTheWay(n, before, path, bytes)
      ensures ok ==> fs.cur(path) == Some(File(bytes, true)) && (Survives(fs, path, bytes) <==> Grounded(before, path))
      ensures Moved(old(fs).cur, fs.cur, tmp, path, bytes) || (!ok && Dropped(old(fs).cur, fs.cur, tmp))
      ensures budget >= 3 && old(fs).cur(path) != Some(Dir) ==> ok
    {
      hide Run, Midway, WellFormed, Plain, Survives, Grounded, Rename, SyncDir, OnTheWay, Moved, Dropped;
      var dir := Parent(path);
      ghost var w := Write(path, bytes, Persist(isNew, tmp));
      if budget < 1 || fs.cur(path) == Some(Dir) {
        Abandon(n, before, w, Some(tmp));
        return false;
      }
      NoteOperation(n, before, fs, w, []);
      RenamedReads(before, fs, w);
      fs, w := Rename(fs, tmp, path), w.(stage := SyncName(isNew));
      if budget < 2 {
        Abandon(n, before, w, None);
        return false;
      }
      if isNew {
        NoteOperation(n, before, fs, w, []);
        SyncedReads(fs, dir);
        fs, w := SyncDir(fs, dir), w.(stage := SyncParent(isNew));
        if budget < 3 {
          Abandon(n, before, w, None);
          return false;
        }
        NoteLast(n, before, fs, w);
        if |dir| > 0 {
          SyncedReads(fs, Parent(dir));
          fs := SyncDir(fs, Parent(dir));
        }
      } else {
        NoteLast(n, before, fs, w);
        SyncedReads(fs, dir);
        fs := SyncDir(fs, dir);
      }
      ok := true;
    }
  }

  lemma MadeReads(before: Fs, fs: Fs, dir: Path, d: Path)
    requires OnlyMakes(before.cur, fs.cur, dir) && d <= dir && fs.cur(d) == None
    ensures OnlyMakes(before.cur, Enter(fs, d, Some(Dir)).cur, dir)
  {
  }

  lemma RenamedReads(before: Fs, fs: Fs, w: Write)
    requires Midway(before, fs, w) && w.stage.Persist?
    ensures Moved(fs.cur, Rename(fs, w.stage.tmp, w.path).cur, w.stage.tmp, w.path, w.bytes)
  {
  }

  lemma SyncedReads(fs: Fs, d: Path)
    ensures SyncDir(fs, d).cur == fs.cur
  {
  }

  lemma AdvanceKeepsTarget(fs: Fs, w: Write, aux: Path)
    requires CanAdvance(fs, w, aux) && Advance(fs, w, aux).1.Some?
    ensures Advance(fs, w, aux).1.value.path == w.path && Advance(fs, w, aux).1.value.bytes == w.bytes
  {
  }

  lemma NothingBelow(before: Fs, fs: Fs, w: Write, d: Path)
    requires Midway(before, fs, w) && d <= Parent(w.path) && fs.cur(d) == None
    ensures fs.cur(Parent(w.path)) == None
  {
    var dir := Parent(w.path);
    if fs.cur(dir).Some? && d != dir {
      assert dir[..|d|] == d;
      AncestorsAreDirs(fs, dir, |d|);
    }
  }

  // ---- leftovers of a crash ----

  function Entries(nodes: map<Path, Node>, dir: Path): set<Path>
  {
    set p | p in nodes && |p| == |dir| + 1 && dir <= p
  }

  /** The temp files below a directory, at any depth. */
  function Leftovers(nodes: map<Path, Node>, dir: Path): set<Path>
  {
    set p | p in nodes && dir < p && nodes[p].File? && IsTemp(p)
  }

  /** Those at or below some of its entries. */
  function LeftoversVia(nodes: map<Path, Node>, dir: Path, entries: set<Path>): set<Path>
  {
    set p | p in nodes && dir < p && nodes[p].File? && IsTemp(p) && p[..|dir| + 1] in entries
  }

  ghost predicate Rooted(nodes: map<Path, Node>)
  {
    forall p :: p in nodes && |p| > 0 ==> Parent(p) in nodes && nodes[Parent(p)].Dir?
  }

  lemma {:induction false} AncestorsRooted(nodes: map<Path, Node>, p: Path, i: nat)
    requires Rooted(nodes) && p in nodes && i < |p|
    ensures p[..i] in nodes && nodes[p[..i]].Dir?
    decreases |p| - i
  {
    if i == |p| - 1 {
      assert Parent(p) == p[..i];
    } else {
      AncestorsRooted(nodes, p, i + 1);
      assert Parent(p[..i + 1]) == p[..i];
    }
  }

  lemma OneMoreEntry(nodes: map<Path, Node>, dir: Path, seen: set<Path>, e: Path)
    requires e !in seen
    ensures LeftoversVia(nodes, dir, seen + {e}) == LeftoversVia(nodes, dir, seen) + LeftoversVia(nodes, dir, {e})
    ensures |LeftoversVia(nodes, dir, seen + {e})| == |LeftoversVia(nodes, dir, seen)| + |LeftoversVia(nodes, dir, {e})|
  {
    hide IsTemp;
    assert LeftoversVia(nodes, dir, seen) !! LeftoversVia(nodes, dir, {e});
  }

  /** Reaping what lies under other entries does not touch this one. */
  lemma SameBelow(nodes: map<Path, Node>, dir: Path, seen: set<Path>, e: Path)
    requires e in Entries(nodes, dir) && e !in seen
    ensures var left := nodes - LeftoversVia(nodes, dir, seen);
            e in Entries(left, dir) && LeftoversVia(left, dir, {e}) == LeftoversVia(nodes, dir, {e})
  {
    hide IsTemp;
    assert e[..|dir| + 1] == e;
  }

  lemma BelowDirectory(nodes: map<Path, Node>, dir: Path, e: Path)
    requires e in Entries(nodes, dir) && nodes[e].Dir?
    ensures Leftovers(nodes, e) == LeftoversVia(nodes, dir, {e})
  {
    hide IsTemp;
    forall p
      ensures p in Leftovers(nodes, e) <==> p in LeftoversVia(nodes, dir, {e})
    {
      if p in nodes && e < p {
        assert p[..|dir| + 1] == e;
      }
      if p in nodes && dir < p && p[..|dir| + 1] == e && p != e {
        assert e < p;
      }
    }
  }

  lemma OnlyItself(nodes: map<Path, Node>, dir: Path, e: Path)
    requires Rooted(nodes) && e in Entries(nodes, dir) && nodes[e].File?
    ensures LeftoversVia(nodes, dir, {e}) == if IsTemp(e) then {e} else {}
  {
    hide IsTemp;
    assert e[..|dir| + 1] == e;
    forall p | p in LeftoversVia(nodes, dir, {e})
      ensures p == e
    {
      if |p| > |dir| + 1 {
        AncestorsRooted(nodes, p, |dir| + 1);
      }
    }
  }

  lemma AllVia(nodes: map<Path, Node>, dir: Path)
    requires Rooted(nodes)
    ensures LeftoversVia(nodes, dir, Entries(nodes, dir)) == Leftovers(nodes, dir)
  {
    hide IsTemp;
    forall p | p in Leftovers(nodes, dir)
      ensures p[..|dir| + 1] in Entries(nodes, dir)
    {
      if |p| > |dir| + 1 {
        AncestorsRooted(nodes, p, |dir| + 1);
      } else {
        assert p[..|dir| + 1] == p;
      }
    }
  }

  lemma {:induction false} DepthBound(paths: set<Path>) returns (depth: nat)
    ensures forall p :: p in paths ==> |p| <= depth
  {
    if paths == {} {
      depth := 0;
    } else {
      var p :| p in paths;
      depth := DepthBound(paths - {p});
      depth := if |p| > depth then |p| else depth;
    }
  }

  /** The data root as the directory walk sees it. */
  class Tree {
    var nodes: map<Path, Node>

    constructor (found: map<Path, Node>)
      ensures nodes == found
    {
      nodes := found;
    }

    /** Reaps every temp file below the root and counts them. */
    method SweepTemp() returns (n: nat)
      requires Rooted(nodes)
      modifies this
      ensures forall p :: p in nodes <==> p in old(nodes) && !(old(nodes)[p].File? && IsTemp(p))
      ensures forall p :: p in nodes ==> nodes[p] == old(nodes)[p]
      ensures n == |old(nodes).Keys - nodes.Keys|
    {
      ghost var depth := DepthBound(nodes.Keys);
      n := Walk([], 0, depth);
      assert old(nodes).Keys - nodes.Keys == Leftovers(old(nodes), []);
    }

    /** `depth` bounds how far down the tree goes. */
    method Walk(dir: Path, before: nat, ghost depth: nat) returns (n: nat)
      requires Rooted(nodes) && forall p :: p in nodes ==> |p| <= |dir| + depth
      modifies this
      ensures Rooted(nodes)
      ensures nodes == old(nodes) - Leftovers(old(nodes), dir)
      ensures n == before + |Leftovers(old(nodes), dir)|
      decreases depth, 1
    {
      hide IsTemp, LeftoversVia, Leftovers, Entries;
      n := before;
      var todo := Entries(nodes, dir);
      ghost var seen: set<Path> := {};
      NothingVia(nodes, dir);
      while todo != {}
        invariant seen !! todo && seen + todo == Entries(old(nodes), dir) && Rooted(nodes)
        invariant nodes == old(nodes) - LeftoversVia(old(nodes), dir, seen)
        invariant n == before + |LeftoversVia(old(nodes), dir, seen)|
        decreases todo
      {
        var e :| e in todo;
        OneMoreEntry(old(nodes), dir, seen, e);
        SameBelow(old(nodes), dir, seen, e);
        n := WalkEntry(dir, e, n, depth);
        todo, seen := todo - {e}, seen + {e};
      }
      assert seen == Entries(old(nodes), dir);
      AllVia(old(nodes), dir);
    }

    method WalkEntry(dir: Path, e: Path, before: nat, ghost depth: nat) returns (n: nat)
      requires Rooted(nodes) && e in Entries(nodes, dir) && forall p :: p in nodes ==> |p| <= |dir| + depth
      modifies this
      ensures Rooted(nodes)
      ensures nodes == old(nodes) - LeftoversVia(old(nodes), dir, {e})
      ensures n == before + |LeftoversVia(old(nodes), dir, {e})|
      decreases depth, 0
    {
      hide IsTemp, LeftoversVia, Leftovers;
      n := before;
      if nodes[e].Dir? {
        BelowDirectory(nodes, dir, e);
        n := Walk(e, n, depth - 1);
      } else {
        OnlyItself(nodes, dir, e);
        if IsTemp(e) {
          nodes, n := nodes - {e}, n + 1;
        }
      }
    }
  }

  lemma NothingVia(nodes: map<Path, Node>, dir: Path)
    ensures LeftoversVia(nodes, dir, {}) == {} && nodes - {} == nodes
  {
    hide IsTemp;
  }
}
