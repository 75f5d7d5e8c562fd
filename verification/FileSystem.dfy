/** A POSIX-like file system under power loss: what a process sees, and what the
    disk may hold of it (crates/barme-store/src/lib.rs leans on exactly this).
    Syncing a file makes its bytes durable, syncing a directory the names in it;
    until then a crash may keep any value the name has had since. */
module FileSystem {
  import opened Bits
  import opened Common

  type Path = seq<Bytes>

  /** `synced` tells whether the file's bytes are on disk. */
  datatype Node = Dir | File(bytes: Bytes, synced: bool)

  /** `cur` is what the process sees; `disk` every value a crash may leave. */
  datatype Fs = Fs(cur: Path -> Option<Node>, disk: Path -> set<Option<Node>>)

  function Parent(p: Path): Path
    requires |p| > 0
  {
    p[..|p| - 1]
  }

  ghost predicate WellFormed(fs: Fs)
  {
    && fs.cur([]) == Some(Dir) && fs.disk([]) == {Some(Dir)}
    && (forall p: Path :: fs.cur(p) in fs.disk(p))
    && (forall p: Path :: |p| > 0 && fs.cur(p).Some? ==> fs.cur(Parent(p)) == Some(Dir))
  }

  // ---- primitive operations ----

  /** Create, overwrite, rename into or unlink: the name has a new value now, and
      on disk perhaps. */
  function Enter(fs: Fs, p: Path, v: Option<Node>): Fs
  {
    Fs(q => if q == p then v else fs.cur(q), q => if q == p then fs.disk(p) + {v} else fs.disk(q))
  }

  function Rename(fs: Fs, from: Path, to: Path): Fs
  {
    Enter(Enter(fs, to, fs.cur(from)), from, None)
  }

  function SyncDir(fs: Fs, d: Path): Fs
  {
    Fs(fs.cur, q => if |q| > 0 && Parent(q) == d then {fs.cur(q)} else fs.disk(q))
  }

  // ---- power loss ----

  /** What a name can read as after the crash, having had value `v` on disk:
      bytes never synced may come back as anything. */
  predicate ReadsAs(v: Option<Node>, w: Option<Node>)
  {
    if v.Some? && v.value.File? && !v.value.synced then w.Some? && w.value.File? && w.value.synced
    else w == v
  }

  predicate SomeReadsAs(values: set<Option<Node>>, w: Option<Node>)
  {
    exists v :: v in values && ReadsAs(v, w)
  }

  /** `after` is a file system that may be found on rebooting from `fs`. */
  ghost predicate Recovers(fs: Fs, after: Fs)
  {
    && (forall p: Path :: after.disk(p) == {after.cur(p)})
    && (forall p: Path :: if |p| > 0 && after.cur(Parent(p)) != Some(Dir) then after.cur(p) == None
                         else SomeReadsAs(fs.disk(p), after.cur(p)))
  }

  /** Neither the file's bytes, nor its name, nor any directory on the way there
      can be lost. */
  predicate Survives(fs: Fs, p: Path, b: Bytes)
  {
    fs.disk(p) == {Some(File(b, true))} && DirsDurable(fs, p, |p|)
  }

  /** The first `n` directories on the way to `p` are on disk for good. */
  predicate DirsDurable(fs: Fs, p: Path, n: nat)
    requires n <= |p|
  {
    forall i :: 0 <= i < n ==> fs.disk(p[..i]) == {Some(Dir)}
  }

  lemma {:induction false} DurableDirsRecover(fs: Fs, after: Fs, p: Path, n: nat)
    requires WellFormed(fs) && Recovers(fs, after) && n <= |p| && DirsDurable(fs, p, n)
    ensures forall i :: 0 <= i < n ==> after.cur(p[..i]) == Some(Dir)
  {
    if n > 0 {
      DurableDirsRecover(fs, after, p, n - 1);
      var d := p[..n - 1];
      if |d| > 0 {
        assert Parent(d) == p[..n - 2];
      }
      assert SomeReadsAs(fs.disk(d), after.cur(d));
    }
  }

  lemma SurvivorRecovers(fs: Fs, after: Fs, p: Path, b: Bytes)
    requires WellFormed(fs) && Recovers(fs, after) && Survives(fs, p, b)
    ensures after.cur(p) == Some(File(b, true)) && Survives(after, p, b)
  {
    DurableDirsRecover(fs, after, p, |p|);
    if |p| > 0 {
      assert Parent(p) == p[..|p| - 1];
    }
    assert SomeReadsAs(fs.disk(p), after.cur(p));
  }

  // ---- the worst that can happen ----

  function Settled(v: Option<Node>): Option<Node>
  {
    if v.Some? && v.value.File? then Some(File(v.value.bytes, true)) else v
  }

  /** The reboot where everything came back but `a`, which reads as `w`. */
  function OutcomeAt(fs: Fs, a: Path, w: Option<Node>, p: Path): Option<Node>
  {
    if p == a then w else if a <= p then None else Settled(fs.cur(p))
  }

  function Outcome(fs: Fs, a: Path, w: Option<Node>): Fs
  {
    Fs(p => OutcomeAt(fs, a, w, p), p => {OutcomeAt(fs, a, w, p)})
  }

  lemma OutcomeRecovers(fs: Fs, a: Path, w: Option<Node>)
    requires WellFormed(fs) && |a| > 0 && SomeReadsAs(fs.disk(a), w) && fs.cur(Parent(a)) == Some(Dir)
    requires w == Some(Dir) ==> fs.cur(a) != Some(Dir)
    ensures Recovers(fs, Outcome(fs, a, w))
  {
    var after := Outcome(fs, a, w);
    forall p: Path
      ensures if |p| > 0 && after.cur(Parent(p)) != Some(Dir) then after.cur(p) == None
              else SomeReadsAs(fs.disk(p), after.cur(p))
    {
      if p == a {
        assert !(a <= Parent(a));
      } else if a <= p {
        assert |p| > |a| && a <= Parent(p);
        if Parent(p) == a && w == Some(Dir) {
          assert fs.cur(p) == None && None in fs.disk(p) && ReadsAs(fs.cur(p), None);
        }
      } else {
        assert |p| > 0 ==> !(a <= Parent(p));
        assert fs.cur(p) in fs.disk(p) && ReadsAs(fs.cur(p), Settled(fs.cur(p)));
      }
    }
  }

  /** A file survives every crash only if nothing about it is pending. */
  lemma LostUnlessSurvives(fs: Fs, p: Path, b: Bytes) returns (after: Fs)
    requires WellFormed(fs) && fs.cur(p) == Some(File(b, true)) && !Survives(fs, p, b)
    ensures Recovers(fs, after) && after.cur(p) != Some(File(b, true))
  {
    if i :| 0 <= i < |p| && fs.disk(p[..i]) != {Some(Dir)} {
      AncestorsAreDirs(fs, p, i);
      assert i > 0;
      AncestorsAreDirs(fs, p, i - 1);
      assert Parent(p[..i]) == p[..i - 1];
      assert fs.cur(p[..i]) in fs.disk(p[..i]);
      var v :| v in fs.disk(p[..i]) && v != Some(Dir);
      assert ReadsAs(v, Settled(v));
      OutcomeRecovers(fs, p[..i], Settled(v));
      after := Outcome(fs, p[..i], Settled(v));
      assert p[..i] <= p && |p[..i]| < |p|;
    } else {
      assert |p| > 0;
      AncestorsAreDirs(fs, p, |p| - 1);
      assert fs.cur(p) in fs.disk(p);
      var v :| v in fs.disk(p) && v != Some(File(b, true));
      var w := if v.Some? && v.value.File? && !v.value.synced then Some(File(b + [0], true)) else v;
      assert ReadsAs(v, w) && |b + [0]| > |b|;
      OutcomeRecovers(fs, p, w);
      after := Outcome(fs, p, w);
    }
  }

  lemma {:induction false} AncestorsAreDirs(fs: Fs, p: Path, i: nat)
    requires WellFormed(fs) && fs.cur(p).Some? && i < |p|
    ensures fs.cur(p[..i]) == Some(Dir)
    decreases |p| - i
  {
    if i == |p| - 1 {
      assert Parent(p) == p[..i];
    } else {
      AncestorsAreDirs(fs, p, i + 1);
      assert Parent(p[..i + 1]) == p[..i];
    }
  }
}
