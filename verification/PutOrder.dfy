/** What a writer has to see to for its references to outlive a power loss: what is
    there already, in which order things are put, and which directories were made and
    never synced (crates/barme-store/src/lib.rs, crates/barme-engine/src/lib.rs). */
module PutOrder {
  import opened Bits
  import opened Common
  import opened FileSystem
  import opened Durable
  import opened Recovery

  // ---- what is there and what survives ----

  /** Whatever is there, file or directory, is there to stay, but for the directories
      taken for granted. */
  ghost predicate Firm(kept: set<Path>, fs: Fs)
  {
    forall q: Path :: Counts(kept, fs, q) ==> fs.disk(q) == {fs.cur(q)}
  }

  /** A directory not taken for granted, or a file under a name the store reads. */
  predicate Counts(kept: set<Path>, fs: Fs, q: Path)
  {
    if fs.cur(q) == Some(Dir) then q !in kept else Plain(q) && fs.cur(q).Some?
  }

  /** On a firm disk a file that exists survives, so a call may refer to it. */
  lemma FirmFilesSurvive(kept: set<Path>, fs: Fs, p: Path, b: Bytes)
    requires WellFormed(fs) && Firm(kept, fs) && Plain(p) && fs.cur(p) == Some(File(b, true))
    ensures SurvivesGiven(fs, kept, p, b)
  {
    hide IsTemp;
    forall i | 0 <= i < |p|
      ensures Stands(fs, kept, p[..i])
    {
      AncestorsAreDirs(fs, p, i);
    }
  }

  /** What a power loss leaves is firm, and a deletion leaves it firm. */
  lemma AtRestIsFirm(kept: set<Path>, fs: Fs)
    requires AtRest(fs)
    ensures Firm(kept, fs)
  {
  }

  lemma UnlinkKeepsFirm(kept: set<Path>, fs: Fs, path: Path)
    requires Firm(kept, fs)
    ensures Firm(kept, Enter(fs, path, None))
  {
    hide IsTemp;
  }

  /** A directory made by opening a store is not there to stay. */
  lemma OpenKeepsFirmExactly(kept: set<Path>, fs: Fs, d: Path)
    requires WellFormed(fs) && Firm(kept, fs) && fs.cur(d) == None
    ensures Firm(kept, Enter(fs, d, Some(Dir))) <==> d in kept
  {
    hide IsTemp, WellFormed;
    CurOnDisk(fs, d);
    var made := Enter(fs, d, Some(Dir));
    assert Counts(kept, made, d) <==> d !in kept;
    assert None in made.disk(d);
    assert forall q: Path :: q != d ==> Counts(kept, made, q) == Counts(kept, fs, q);
  }

  /** Of what is there when a write is done, only directories made above the
      target's own are still pending. */
  lemma PendingAtAck(kept: set<Path>, before: Fs, fs: Fs, w: Write, aux: Path, q: Path)
    requires Midway(before, fs, w) && Firm(kept, before) && CanAdvance(fs, w, aux) && Advance(fs, w, aux).1.None?
    requires Counts(kept, Advance(fs, w, aux).0, q)
    ensures var done := Advance(fs, w, aux).0;
            done.disk(q) == {done.cur(q)} <==> !(q < Parent(w.path) && before.cur(q) == None)
  {
    hide IsTemp, WellFormed;
    var dir, done := Parent(w.path), Advance(fs, w, aux).0;
    LastStep(before, fs, w, aux);
    MidwayIsWellFormed(before, fs, w);
    CurOnDisk(before, q);
    CurOnDisk(fs, q);
    assert done.cur == fs.cur;
    assert done.disk(q) == fs.disk(q) || done.disk(q) == {fs.cur(q)};
    if q < dir {
      AncestorsAreDirs(fs, dir, |q|);
      assert dir[..|q|] == q;
      assert fs.disk(q) == before.disk(q) + {fs.cur(q)};
    } else if q == dir {
      assert fs.disk(q) == before.disk(q) + {fs.cur(q)};
    }
  }

  /** An acknowledged write leaves a firm disk firm exactly when it had to make no
      directory above its own but such as are taken for granted. */
  lemma AckKeepsFirmExactly(kept: set<Path>, before: Fs, fs: Fs, w: Write, aux: Path)
    requires Midway(before, fs, w) && Firm(kept, before) && CanAdvance(fs, w, aux) && Advance(fs, w, aux).1.None?
    ensures Firm(kept, Advance(fs, w, aux).0) <==> MakesOnly(kept, before, w.path)
  {
    hide IsTemp, WellFormed, Advance, CanAdvance, Midway;
    MidwayIsWellFormed(before, fs, w);
    var dir, done := Parent(w.path), Advance(fs, w, aux).0;
    forall q: Path | Counts(kept, done, q)
      ensures done.disk(q) == {done.cur(q)} <==> !(q < dir && before.cur(q) == None)
    {
      PendingAtAck(kept, before, fs, w, aux, q);
    }
    forall q: Path | q < dir
      ensures done.cur(q) == Some(Dir)
    {
      LastStepHasDirs(before, fs, w, aux, q);
    }
  }

  /** Every directory above the target's own is there, or is taken for granted. */
  ghost predicate MakesOnly(kept: set<Path>, fs: Fs, path: Path)
    requires |path| > 0
  {
    forall q: Path :: q < Parent(path) && fs.cur(q) == None ==> q in kept
  }

  /** With nothing taken for granted: the directory above the target's own is there. */
  lemma MakesNoneExactly(fs: Fs, path: Path)
    requires WellFormed(fs) && |path| > 0
    ensures MakesOnly({}, fs, path) <==> |path| == 1 || fs.cur(Parent(Parent(path))).Some?
  {
    hide WellFormed;
    if |path| > 1 {
      var dir, above := Parent(path), Parent(Parent(path));
      assert above < dir;
      if fs.cur(above).Some? {
        forall q: Path | q < dir
          ensures fs.cur(q).Some?
        {
          if q != above {
            AncestorsAreDirs(fs, above, |q|);
            assert above[..|q|] == q;
          }
        }
      }
    }
  }

  lemma LastStepHasDirs(before: Fs, fs: Fs, w: Write, aux: Path, q: Path)
    requires Midway(before, fs, w) && CanAdvance(fs, w, aux) && Advance(fs, w, aux).1.None? && q < Parent(w.path)
    ensures Advance(fs, w, aux).0.cur(q) == Some(Dir)
  {
    hide IsTemp, WellFormed, OthersUntouched;
    MidwayIsWellFormed(before, fs, w);
    LastStep(before, fs, w, aux);
    AncestorsAreDirs(fs, Parent(w.path), |q|);
    assert Parent(w.path)[..|q|] == q;
  }

  /** Nobody can tell the one from the other, but by directories taken for granted. */
  ghost predicate SameView(kept: set<Path>, a: Fs, b: Fs)
  {
    forall q: Path :: Watched(a, b, q) ==> a.cur(q) == b.cur(q) || (q in kept && b.cur(q) == Some(Dir))
  }

  /** With nothing taken for granted a failed write leaves a firm disk firm exactly
      when it left nothing to see: no directory made, and the target not yet replaced
      by other contents. */
  lemma FailureKeepsFirmExactly(before: Fs, fs: Fs, w: Write, dropped: bool)
    requires Midway(before, fs, w) && Firm({}, before)
    ensures Firm({}, GiveUp(fs, w, dropped)) <==> SameView({}, before, GiveUp(fs, w, dropped))
  {
    hide WellFormed, IsTemp, Midway, Watched, Counts;
    var left := GiveUp(fs, w, dropped);
    if Firm({}, left) {
      forall q: Path | Watched(before, left, q)
        ensures before.cur(q) == left.cur(q)
      {
        FirmLooksTheSame(before, fs, w, dropped, q);
      }
    }
    if SameView({}, before, left) {
      FailureKeepsFirm({}, before, fs, w, dropped);
    }
  }

  lemma FailureKeepsFirm(kept: set<Path>, before: Fs, fs: Fs, w: Write, dropped: bool)
    requires Midway(before, fs, w) && Firm(kept, before) && SameView(kept, before, GiveUp(fs, w, dropped))
    ensures Firm(kept, GiveUp(fs, w, dropped))
  {
    hide WellFormed, IsTemp, Midway, Watched, Counts;
    var left := GiveUp(fs, w, dropped);
    forall q: Path | Counts(kept, left, q)
      ensures left.disk(q) == {left.cur(q)}
    {
      SameIsFirm(kept, before, fs, w, dropped, q);
    }
  }

  lemma FirmLooksTheSame(before: Fs, fs: Fs, w: Write, dropped: bool, q: Path)
    requires Midway(before, fs, w) && Firm({}, GiveUp(fs, w, dropped)) && Watched(before, GiveUp(fs, w, dropped), q)
    ensures before.cur(q) == GiveUp(fs, w, dropped).cur(q)
  {
    hide WellFormed, IsTemp;
    var left, dir := GiveUp(fs, w, dropped), Parent(w.path);
    CurOnDisk(before, q);
    CurOnDisk(before, dir);
    if HasTemp(w.stage) {
      assert |w.stage.tmp| == |w.path|;
    }
    assert before.cur(dir) in left.disk(dir) && before.cur(q) in before.disk(q);
    assert Counts({}, left, dir) ==> left.disk(dir) == {left.cur(dir)};
    assert Counts({}, left, q) ==> left.disk(q) == {left.cur(q)};
  }

  lemma SameIsFirm(kept: set<Path>, before: Fs, fs: Fs, w: Write, dropped: bool, q: Path)
    requires Midway(before, fs, w) && Firm(kept, before) && Counts(kept, GiveUp(fs, w, dropped), q)
    requires SameView(kept, before, GiveUp(fs, w, dropped))
    ensures GiveUp(fs, w, dropped).disk(q) == {GiveUp(fs, w, dropped).cur(q)}
  {
    hide WellFormed, IsTemp;
    assert Watched(before, GiveUp(fs, w, dropped), q);
    CurOnDisk(before, q);
    CurOnDisk(fs, q);
    if HasTemp(w.stage) {
      assert |w.stage.tmp| == |w.path|;
    }
  }

  // ---- chunks, then manifest, then pointer ----

  predicate IsFile(v: Option<Node>)
  {
    v.Some? && v.value.File?
  }

  /** A content address: whoever refers to this name means these bytes. */
  ghost predicate Addresses(names: Names, path: Path, bytes: Bytes)
  {
    forall b, r :: r in names(b) && r.0 == path ==> r.1 == bytes
  }

  /** A file the disk may hold under an addressed name has the bytes meant. */
  ghost predicate TrueToName(names: Names, fs: Fs)
  {
    forall b, r, v :: r in names(b) && Plain(r.0) && v in fs.disk(r.0) && IsFile(v) ==> v.value.bytes == r.1
  }

  /** A call refers only to files that exist, writes to an address what it stands for,
      has at most its own directory to make, and leaves nothing to see if it fails;
      opening finds its directory there; nothing still named is unlinked. Directories
      taken for granted may be made in any way. */
  ghost predicate Orderly(names: Names, kept: set<Path>, s: State, a: Action)
    requires Enabled(s, a)
  {
    match a
    case Begin(path, bytes) =>
      && (forall r :: r in names(bytes) ==> Plain(r.0) && IsFile(s.fs.cur(r.0)))
      && Addresses(names, path, bytes) && MakesOnly(kept, s.fs, path)
    case Fail(_) => SameView(kept, s.before, Apply(s, a).fs)
    case Open(d) => s.fs.cur(d) == Some(Dir) || d in kept
    case Unlink(path) => Unnamed(names, s.fs, path)
    case PowerLoss(after) => Keeps(kept, s.fs, after) || AllFound(names, after)
    case _ => true
  }

  ghost predicate Settling(names: Names, kept: set<Path>, s: State)
  {
    && TrueToName(names, s.fs)
    && if s.writing.None? then Firm(kept, s.fs)
       else
         var w := s.writing.value;
         && Firm(kept, s.before) && Target(w.path)
         && MakesOnly(kept, s.before, w.path) && Addresses(names, w.path, w.bytes)
  }

  /** On a firm disk existence is all a writer needs to ask of what it names. */
  lemma OrderlyIsCareful(names: Names, kept: set<Path>, s: State, a: Action)
    requires Whole(s) && Settling(names, kept, s) && Enabled(s, a) && Orderly(names, kept, s, a)
    ensures Careful(names, kept, s, a)
  {
    hide IsTemp, WellFormed, Midway, SurvivesGiven;
    if a.Begin? {
      forall r | r in names(a.bytes)
        ensures Plain(r.0) && SurvivesGiven(s.fs, kept, r.0, r.1)
      {
        CurOnDisk(s.fs, r.0);
        FirmFilesSurvive(kept, s.fs, r.0, r.1);
      }
    }
  }

  lemma OrderlyStaysSettling(names: Names, kept: set<Path>, s: State, a: Action)
    requires Whole(s) && Settling(names, kept, s) && Enabled(s, a) && Orderly(names, kept, s, a)
    ensures Settling(names, kept, Apply(s, a))
  {
    hide WellFormed, Midway, TrueToName, Firm, Addresses, Advance, Untorn, CanAdvance;
    var s' := Apply(s, a);
    StepKeepsTrue(names, s, a);
    match a
    case Begin(_, _) =>
    case Operate(aux) =>
      if s'.writing.None? {
        AckKeepsFirmExactly(kept, s.before, s.fs, s.writing.value, aux);
      } else {
        SameCall(s, aux);
      }
    case Fail(dropped) => FailureKeepsFirm(kept, s.before, s.fs, s.writing.value, dropped);
    case Open(d) =>
      WholeIsWellFormed(s);
      if s.fs.cur(d) == None {
        OpenKeepsFirmExactly(kept, s.fs, d);
      }
    case Unlink(path) => UnlinkKeepsFirm(kept, s.fs, path);
    case PowerLoss(after) =>
      RecoveredIsAtRest(s.fs, after);
      AtRestIsFirm(kept, after);
  }

  lemma SameCall(s: State, aux: Path)
    requires Enabled(s, Operate(aux)) && Apply(s, Operate(aux)).writing.Some?
    ensures var w, w' := s.writing.value, Apply(s, Operate(aux)).writing.value; w'.path == w.path && w'.bytes == w.bytes
  {
    hide IsTemp;
  }

  lemma StepKeepsTrue(names: Names, s: State, a: Action)
    requires Whole(s) && TrueToName(names, s.fs) && Enabled(s, a)
    requires s.writing.Some? ==> Addresses(names, s.writing.value.path, s.writing.value.bytes)
    ensures TrueToName(names, Apply(s, a).fs)
  {
    hide WellFormed, Midway, Untorn, IsTemp, TrueToName;
    var fs, fs' := s.fs, Apply(s, a).fs;
    forall q: Path, v | Plain(q) && v in fs'.disk(q) && IsFile(v)
      ensures v in fs.disk(q)
           || (s.writing.Some? && q == s.writing.value.path && v.value.bytes == s.writing.value.bytes)
    {
      NewOnDisk(s, a, q, v);
    }
    TrueStays(names, s, fs');
  }

  lemma TrueStays(names: Names, s: State, fs': Fs)
    requires TrueToName(names, s.fs)
    requires s.writing.Some? ==> Addresses(names, s.writing.value.path, s.writing.value.bytes)
    requires forall q: Path, v :: Plain(q) && v in fs'.disk(q) && IsFile(v) ==>
               || v in s.fs.disk(q)
               || (s.writing.Some? && q == s.writing.value.path && v.value.bytes == s.writing.value.bytes)
    ensures TrueToName(names, fs')
  {
    hide IsTemp;
  }

  /** The only file a step can bring under a name the store reads is the one being
      written. */
  lemma NewOnDisk(s: State, a: Action, q: Path, v: Option<Node>)
    requires Whole(s) && Enabled(s, a) && Plain(q) && v in Apply(s, a).fs.disk(q) && IsFile(v)
    ensures v in s.fs.disk(q)
         || (s.writing.Some? && q == s.writing.value.path && v.value.bytes == s.writing.value.bytes)
  {
    hide WellFormed, DirsMidway, OthersUntouched, IsTemp, Untorn;
    CurOnDisk(s.fs, q);
    if a.PowerLoss? {
      LossHeld(s, a.after, q, v);
    }
  }

  lemma LossHeld(s: State, after: Fs, q: Path, v: Option<Node>)
    requires Whole(s) && Recovers(s.fs, after) && Plain(q) && v in after.disk(q) && IsFile(v)
    ensures v in s.fs.disk(q)
  {
    hide WellFormed, Midway, IsTemp;
    assert after.cur(q) == v && SomeReadsAs(s.fs.disk(q), v);
    var u :| u in s.fs.disk(q) && ReadsAs(u, v);
  }

  lemma {:induction false} OrderlyRunIsCareful(
    names: Names, kept: set<Path>, states: seq<State>, actions: seq<Action>, n: nat)
    requires Run(states, actions) && n <= |actions| && Whole(states[0]) && Settling(names, kept, states[0])
    requires forall i :: 0 <= i < n ==> Orderly(names, kept, states[i], actions[i])
    ensures Whole(states[n]) && Settling(names, kept, states[n])
    ensures forall i :: 0 <= i < n ==> Careful(names, kept, states[i], actions[i])
  {
    hide Whole, Settling, Orderly, Careful, Apply, Enabled;
    if n > 0 {
      OrderlyRunIsCareful(names, kept, states, actions, n - 1);
      StepKeepsWhole(states[n - 1], actions[n - 1]);
      OrderlyIsCareful(names, kept, states[n - 1], actions[n - 1]);
      OrderlyStaysSettling(names, kept, states[n - 1], actions[n - 1]);
    }
  }

  /** The file was there at some point, found or written by this very process, and
      has not been unlinked since. */
  ghost predicate SeenBefore(states: seq<State>, actions: seq<Action>, i: nat, p: Path)
    requires Run(states, actions) && i <= |actions|
  {
    exists m :: 0 <= m <= i && IsFile(states[m].fs.cur(p)) && Undeleted(actions, m, i, p)
  }

  predicate Undeleted(actions: seq<Action>, m: nat, n: nat, p: Path)
    requires m <= n <= |actions|
  {
    forall j :: m <= j < n ==> !actions[j].PowerLoss? && actions[j] != Unlink(p)
  }

  /** No other step takes away a file the store reads. */
  lemma {:induction false} SeenStays(states: seq<State>, actions: seq<Action>, m: nat, n: nat, p: Path)
    requires Run(states, actions) && m <= n <= |actions| && Plain(p) && IsFile(states[m].fs.cur(p))
    requires Undeleted(actions, m, n, p) && forall j :: 0 <= j <= n ==> Whole(states[j])
    ensures IsFile(states[n].fs.cur(p))
  {
    hide Whole, Apply, Enabled, IsTemp;
    if m < n {
      SeenStays(states, actions, m, n - 1, p);
      StepKeepsFile(states[n - 1], actions[n - 1], p);
    }
  }

  lemma StepKeepsFile(s: State, a: Action, p: Path)
    requires Whole(s) && Enabled(s, a) && Plain(p) && IsFile(s.fs.cur(p)) && !a.PowerLoss? && a != Unlink(p)
    ensures IsFile(Apply(s, a).fs.cur(p))
  {
    hide WellFormed, DirsMidway, OthersUntouched, IsTemp, Untorn;
  }

  /** The engine's own order, in what it can check: everything a file names was put
      before it, being found there or written, and not deleted since; what is deleted is
      named by nothing seen, unless that is gone and its directory has been synced. */
  ghost predicate Ordered(names: Names, kept: set<Path>, states: seq<State>, actions: seq<Action>, i: nat)
    requires Run(states, actions) && i < |actions|
  {
    match actions[i]
    case Begin(path, bytes) =>
      && (forall r :: r in names(bytes) ==> Plain(r.0) && SeenBefore(states, actions, i, r.0))
      && Addresses(names, path, bytes) && MakesOnly(kept, states[i].fs, path)
    case Fail(_) => SameView(kept, states[i].before, states[i + 1].fs)
    case Open(d) => states[i].fs.cur(d) == Some(Dir) || d in kept
    case Unlink(path) => !StillNamed(names, states, actions, i, path)
    case PowerLoss(after) => Keeps(kept, states[i].fs, after) || AllFound(names, after)
    case _ => true
  }

  lemma {:induction false} OrderedIsOrderly(
    names: Names, kept: set<Path>, states: seq<State>, actions: seq<Action>, n: nat)
    requires Run(states, actions) && n <= |actions| && Whole(states[0]) && AtRest(states[0].fs)
    requires forall i :: 0 <= i < n ==> Ordered(names, kept, states, actions, i)
    ensures forall i :: 0 <= i < n ==> Orderly(names, kept, states[i], actions[i])
    ensures forall i :: 0 <= i <= n ==> Whole(states[i])
  {
    hide Whole, Settling, Apply, Enabled, Ordered, Orderly;
    if n > 0 {
      var i := n - 1;
      OrderedIsOrderly(names, kept, states, actions, i);
      OrderlyHere(names, kept, states, actions, i);
      StepKeepsWhole(states[i], actions[i]);
    }
  }

  lemma OrderlyHere(names: Names, kept: set<Path>, states: seq<State>, actions: seq<Action>, i: nat)
    requires Run(states, actions) && i < |actions| && Ordered(names, kept, states, actions, i)
    requires AtRest(states[0].fs) && forall j :: 0 <= j <= i ==> Whole(states[j])
    ensures Orderly(names, kept, states[i], actions[i])
  {
    hide Whole, Apply, IsTemp, StillNamed, Unnamed, Keeps, AllFound;
    if actions[i].Unlink? {
      StillNamedExactly(names, states, actions, i, actions[i].path);
    }
    if actions[i].Begin? {
      forall r | r in names(actions[i].bytes)
        ensures IsFile(states[i].fs.cur(r.0))
      {
        var m :| 0 <= m <= i && IsFile(states[m].fs.cur(r.0)) && Undeleted(actions, m, i, r.0);
        SeenStays(states, actions, m, i, r.0);
      }
    }
  }

  /** How such a run may start: idle, with nothing pending, every reference found and
      every address true. A fresh disk is one, and so is what any power loss leaves
      that leaves no reference dangling. */
  ghost predicate Rested(names: Names, s: State)
  {
    && s.writing.None? && WellFormed(s.fs) && Untorn(s.fs) && AtRest(s.fs)
    && AllFound(names, s.fs) && TrueToName(names, s.fs)
  }

  lemma BlankIsRested(names: Names)
    ensures Rested(names, State(Blank(), None, Blank()))
  {
    hide IsTemp;
  }

  ghost predicate OrderedRun(names: Names, kept: set<Path>, states: seq<State>, actions: seq<Action>)
  {
    && Run(states, actions) && Rested(names, states[0])
    && forall i :: 0 <= i < |actions| ==> Ordered(names, kept, states, actions, i)
  }

  lemma RestedIsSettling(names: Names, kept: set<Path>, s: State)
    requires Rested(names, s)
    ensures Inv(names, kept, s) && Settling(names, kept, s)
  {
    hide IsTemp, Firm, Backed, AtRest, AllFound, TrueToName, WellFormed, Untorn;
    FoundIsBacked(names, kept, s.fs);
    AtRestIsFirm(kept, s.fs);
  }

  lemma OrderedRunKeepsInv(names: Names, kept: set<Path>, states: seq<State>, actions: seq<Action>, n: nat)
    requires OrderedRun(names, kept, states, actions) && n <= |actions|
    ensures Inv(names, kept, states[n])
    ensures forall i :: 0 <= i < |actions| ==> Careful(names, kept, states[i], actions[i])
  {
    hide Settling, Apply, Enabled, Ordered, Orderly, Careful, Inv, Whole;
    RestedIsSettling(names, kept, states[0]);
    InvIsWhole(names, kept, states[0]);
    OrderedIsOrderly(names, kept, states, actions, |actions|);
    OrderlyRunIsCareful(names, kept, states, actions, |actions|);
    RunKeepsInv(names, kept, states, actions, n);
  }

  lemma InvIsWhole(names: Names, kept: set<Path>, s: State)
    requires Inv(names, kept, s)
    ensures Whole(s) && WellFormed(s.fs) && Untorn(s.fs) && Backed(names, kept, s.fs)
  {
  }

  /** Chunks put before their manifest, the manifest before its pointer, each put
      skipped where the file exists, from the first session on: power lost at any
      point, every file found after the reboot finds all it refers to, byte for byte,
      provided that the power loss spares the directories that were made and not
      synced, that no failed call left anything else to see, and that nothing was
      deleted that a file seen still names. */
  lemma PutOrderIsEnough(
    names: Names, kept: set<Path>, states: seq<State>, actions: seq<Action>, n: nat, after: Fs)
    requires OrderedRun(names, kept, states, actions) && n <= |actions|
    requires Recovers(states[n].fs, after) && Keeps(kept, states[n].fs, after)
    ensures AllFound(names, after)
  {
    hide Apply, Enabled, Ordered, Backed, WellFormed, Untorn, IsTemp, Recovers, Keeps, SurvivesGiven, Inv;
    OrderedRunKeepsInv(names, kept, states, actions, n);
    var fs := states[n].fs;
    InvIsWhole(names, kept, states[n]);
    forall q: Path, b, r | Plain(q) && after.cur(q) == Some(File(b, true)) && r in names(b)
      ensures Plain(r.0) && after.cur(r.0) == Some(File(r.1, true))
    {
      FoundIsBackedUp(names, kept, fs, after, q, b, r);
      KeptSurvivorFound(kept, fs, after, r.0, r.1);
    }
  }

  /** A store opened again after a power loss finds its directories there and makes
      none: then every power loss is safe. */
  lemma ReopenedIsSafe(names: Names, states: seq<State>, actions: seq<Action>, n: nat, after: Fs)
    requires OrderedRun(names, {}, states, actions) && n <= |actions| && Recovers(states[n].fs, after)
    ensures AllFound(names, after)
  {
    hide OrderedRun, Recovers, AllFound;
    PutOrderIsEnough(names, {}, states, actions, n, after);
  }

  lemma FoundIsBackedUp(names: Names, kept: set<Path>, fs: Fs, after: Fs, q: Path, b: Bytes, r: (Path, Bytes))
    requires WellFormed(fs) && Untorn(fs) && Backed(names, kept, fs) && Recovers(fs, after)
    requires Plain(q) && after.cur(q) == Some(File(b, true)) && r in names(b)
    ensures MayHold(fs, q, b) && Plain(r.0) && SurvivesGiven(fs, kept, r.0, r.1)
  {
    hide WellFormed, Untorn, IsTemp, SurvivesGiven;
    FoundIsHeld(fs, after, q, b);
  }

  lemma FoundIsHeld(fs: Fs, after: Fs, q: Path, b: Bytes)
    requires Untorn(fs) && Recovers(fs, after) && Plain(q) && after.cur(q) == Some(File(b, true))
    ensures MayHold(fs, q, b)
  {
    hide IsTemp;
    assert after.disk(q) == {after.cur(q)};
    FoundWasHeld(fs, after, q, b);
  }

  // ---- exactly which power losses leave a reference dangling ----

  /** A directory that is new: its name was none when last seen before, and has not
      been settled since. */
  ghost predicate Fresh(states: seq<State>, actions: seq<Action>, n: nat, d: Path)
    requires n <= |actions| < |states|
  {
    states[n].fs.cur(d) == Some(Dir) && exists v :: v != Some(Dir) && Recalled(states, actions, n, d, v)
  }

  /** Something in the new directory `d` is named by a file that is not in it. */
  ghost predicate NamedFromOutside(names: Names, states: seq<State>, actions: seq<Action>, n: nat, d: Path)
    requires n <= |actions| < |states|
  {
    exists q: Path, b, r ::
      Plain(q) && Recalled(states, actions, n, q, Some(File(b, true))) && r in names(b) && d < r.0 && !(d < q)
  }

  ghost predicate Exposed(names: Names, states: seq<State>, actions: seq<Action>, n: nat)
    requires n <= |actions| < |states|
  {
    exists d :: Fresh(states, actions, n, d) && NamedFromOutside(names, states, actions, n, d)
  }

  /** Whatever the disk may hold is in a directory that is there. */
  ghost predicate Homed(fs: Fs)
  {
    forall p: Path, v :: |p| > 0 && v in fs.disk(p) && v.Some? ==> fs.cur(Parent(p)) == Some(Dir)
  }

  lemma {:induction false} RunKeepsHomed(states: seq<State>, actions: seq<Action>, n: nat)
    requires Run(states, actions) && n <= |actions| && Whole(states[0]) && AtRest(states[0].fs)
    ensures Homed(states[n].fs)
  {
    hide Whole, Apply, Enabled;
    RunKeepsWhole(states, actions, n);
    if n == 0 {
      WholeIsWellFormed(states[0]);
    } else {
      RunKeepsHomed(states, actions, n - 1);
      RunKeepsWhole(states, actions, n - 1);
      StepKeepsHomed(states[n - 1], actions[n - 1]);
    }
  }

  lemma StepKeepsHomed(s: State, a: Action)
    requires Whole(s) && Enabled(s, a) && Homed(s.fs) && Whole(Apply(s, a))
    ensures Homed(Apply(s, a).fs)
  {
    hide Whole, Apply, Enabled, IsTemp;
    var fs' := Apply(s, a).fs;
    WholeIsWellFormed(Apply(s, a));
    forall p: Path, v | |p| > 0 && v in fs'.disk(p) && v.Some?
      ensures fs'.cur(Parent(p)) == Some(Dir)
    {
      DiskStep(s, a, p);
      if v != fs'.cur(p) {
        DirStays(s, a, Parent(p));
      }
    }
  }

  /** No step but a power loss takes a directory away. */
  lemma DirStays(s: State, a: Action, d: Path)
    requires Whole(s) && Enabled(s, a) && s.fs.cur(d) == Some(Dir) && !a.PowerLoss?
    ensures Apply(s, a).fs.cur(d) == Some(Dir)
  {
    hide WellFormed, DirsMidway, OthersUntouched, IsTemp, Untorn;
  }

  /** The reboot where all came back but the directory `d`, and `q` as it once was. */
  function OutcomeWith(fs: Fs, d: Path, w: Option<Node>, q: Path, b: Bytes, p: Path): Option<Node>
  {
    if p == q then Some(File(b, true)) else if q <= p then None else OutcomeAt(fs, d, w, p)
  }

  function Without(fs: Fs, d: Path, w: Option<Node>, q: Path, b: Bytes): Fs
  {
    Fs(p => OutcomeWith(fs, d, w, q, b, p), p => {OutcomeWith(fs, d, w, q, b, p)})
  }

  lemma WithoutRecovers(fs: Fs, d: Path, w: Option<Node>, q: Path, b: Bytes)
    requires WellFormed(fs) && Homed(fs) && fs.cur(d) == Some(Dir) && |d| > 0
    requires SomeReadsAs(fs.disk(d), w) && w != Some(Dir)
    requires MayHold(fs, q, b) && !(d <= q)
    ensures Recovers(fs, Without(fs, d, w, q, b))
  {
    hide SomeReadsAs, OutcomeWith, WellFormed, Homed, Outcome;
    CurOnDisk(fs, d);
    HasHome(fs, d, fs.cur(d));
    HasHome(fs, q, Some(File(b, true)));
    OutcomeRecovers(fs, d, w);
    var after := Without(fs, d, w, q, b);
    hide Recovers;
    forall p: Path
      ensures if |p| > 0 && after.cur(Parent(p)) != Some(Dir) then after.cur(p) == None
              else SomeReadsAs(fs.disk(p), after.cur(p))
    {
      WithoutAt(fs, d, w, q, b, p);
    }
    PointwiseRecovers(fs, d, w, q, b);
  }

  lemma PointwiseRecovers(fs: Fs, d: Path, w: Option<Node>, q: Path, b: Bytes)
    requires forall p: Path ::
               if |p| > 0 && OutcomeWith(fs, d, w, q, b, Parent(p)) != Some(Dir)
               then OutcomeWith(fs, d, w, q, b, p) == None
               else SomeReadsAs(fs.disk(p), OutcomeWith(fs, d, w, q, b, p))
    ensures Recovers(fs, Without(fs, d, w, q, b))
  {
    hide SomeReadsAs, OutcomeWith;
  }

  lemma HasHome(fs: Fs, p: Path, v: Option<Node>)
    requires WellFormed(fs) && Homed(fs) && v in fs.disk(p) && v.Some? && (p != [] || v.value.File?)
    ensures |p| > 0 && fs.cur(Parent(p)) == Some(Dir)
  {
  }

  lemma WithoutAt(fs: Fs, d: Path, w: Option<Node>, q: Path, b: Bytes, p: Path)
    requires Recovers(fs, Outcome(fs, d, w)) && MayHold(fs, q, b) && !(d <= q)
    requires |q| > 0 && fs.cur(Parent(q)) == Some(Dir)
    ensures if |p| > 0 && OutcomeWith(fs, d, w, q, b, Parent(p)) != Some(Dir)
            then OutcomeWith(fs, d, w, q, b, p) == None
            else SomeReadsAs(fs.disk(p), OutcomeWith(fs, d, w, q, b, p))
  {
    hide SomeReadsAs, OutcomeAt;
    var base := Outcome(fs, d, w);
    HeldReads(fs, q, b);
    if p == q {
      OutsideStays(fs, d, w, Parent(q));
    } else if q <= p {
      assert q <= Parent(p);
    } else {
      assert |p| > 0 ==> !(q <= Parent(p));
      assert |p| > 0 ==> base.cur(Parent(p)) == OutcomeAt(fs, d, w, Parent(p));
    }
  }

  lemma HeldReads(fs: Fs, q: Path, b: Bytes)
    requires MayHold(fs, q, b)
    ensures SomeReadsAs(fs.disk(q), Some(File(b, true)))
  {
    assert ReadsAs(Some(File(b, true)), Some(File(b, true)));
  }

  lemma OutsideStays(fs: Fs, d: Path, w: Option<Node>, p: Path)
    requires !(d <= p) && fs.cur(p) == Some(Dir)
    ensures OutcomeAt(fs, d, w, p) == Some(Dir)
  {
  }

  /** A new directory with something in it that is named from outside can be lost
      while the file that names it is found. */
  lemma ExposedDangles(fs: Fs, d: Path, v: Option<Node>, q: Path, b: Bytes, r: Path) returns (after: Fs)
    requires WellFormed(fs) && Homed(fs) && fs.cur(d) == Some(Dir) && v in fs.disk(d) && v != Some(Dir)
    requires MayHold(fs, q, b) && d < r && !(d < q)
    ensures Recovers(fs, after) && after.cur(q) == Some(File(b, true)) && after.cur(r) == None
  {
    hide SomeReadsAs, Recovers;
    assert |d| > 0;
    assert fs.cur(Parent(d)) == Some(Dir);
    SettledReads(fs, d, v);
    HeldReads(fs, q, b);
    if q == d {
      OutcomeRecovers(fs, d, Some(File(b, true)));
      after := Outcome(fs, d, Some(File(b, true)));
    } else {
      WithoutRecovers(fs, d, Settled(v), q, b);
      after := Without(fs, d, Settled(v), q, b);
    }
  }

  lemma SettledReads(fs: Fs, d: Path, v: Option<Node>)
    requires v in fs.disk(d)
    ensures SomeReadsAs(fs.disk(d), Settled(v))
  {
    assert ReadsAs(v, Settled(v));
  }

  /** What is backed and found dangles only by a new directory lost that the finder is
      not in. */
  lemma DanglingIsExposed(
    kept: set<Path>, fs: Fs, after: Fs, q: Path, b: Bytes, r: Path, x: Bytes) returns (d: Path, v: Option<Node>)
    requires WellFormed(fs) && Recovers(fs, after) && SurvivesGiven(fs, kept, r, x)
    requires WellFormed(after) && after.cur(q) == Some(File(b, true)) && after.cur(r) != Some(File(x, true))
    ensures fs.cur(d) == Some(Dir) && v in fs.disk(d) && v != Some(Dir) && d < r && !(d < q)
  {
    hide WellFormed, Recovers;
    if forall i :: 0 <= i < |r| ==> fs.disk(r[..i]) == {Some(Dir)} || after.cur(r[..i]) == Some(Dir) {
      SurvivorFound(fs, after, r, x);
    }
    var i :| 0 <= i < |r| && fs.disk(r[..i]) != {Some(Dir)} && after.cur(r[..i]) != Some(Dir);
    d := r[..i];
    CurOnDisk(fs, r);
    AncestorsAreDirs(fs, r, i);
    CurOnDisk(fs, d);
    v :| v in fs.disk(d) && v != Some(Dir);
    if d < q {
      assert q[..i] == d;
      AncestorsAreDirs(after, q, i);
    }
  }

  /** After any ordered run, the first session of a fresh store included: no power loss
      leaves a reference dangling exactly when nothing in a directory made and not
      synced is named by a file outside it. */
  lemma LossIsSafeExactly(
    names: Names, kept: set<Path>, states: seq<State>, actions: seq<Action>, n: nat)
    requires OrderedRun(names, kept, states, actions) && n <= |actions|
    ensures (forall after :: Recovers(states[n].fs, after) ==> AllFound(names, after))
       <==> !Exposed(names, states, actions, n)
  {
    hide Ordered, Enabled, Apply, Recovers, Recalled, IsTemp;
    if !Exposed(names, states, actions, n) {
      forall after | Recovers(states[n].fs, after)
        ensures AllFound(names, after)
      {
        UnexposedIsFound(names, kept, states, actions, n, after);
      }
    } else {
      ExposedLoses(names, kept, states, actions, n);
    }
  }

  lemma ExposedLoses(names: Names, kept: set<Path>, states: seq<State>, actions: seq<Action>, n: nat)
    requires OrderedRun(names, kept, states, actions) && n <= |actions| && Exposed(names, states, actions, n)
    ensures exists after :: Recovers(states[n].fs, after) && !AllFound(names, after)
  {
    hide Ordered, Enabled, Apply, Recovers, Recalled, IsTemp, Inv;
    OrderedRunKeepsInv(names, kept, states, actions, n);
    InvIsWhole(names, kept, states[n]);
    RestedIsSettling(names, kept, states[0]);
    InvIsWhole(names, kept, states[0]);
    RunKeepsHomed(states, actions, n);
    var d :| Fresh(states, actions, n, d) && NamedFromOutside(names, states, actions, n, d);
    var v :| v != Some(Dir) && Recalled(states, actions, n, d, v);
    var q: Path, b, r :|
      Plain(q) && Recalled(states, actions, n, q, Some(File(b, true))) && r in names(b) && d < r.0 && !(d < q);
    DiskIsRecalled(states, actions, n, d, v);
    DiskIsRecalled(states, actions, n, q, Some(File(b, true)));
    var after := ExposedDangles(states[n].fs, d, v, q, b, r.0);
  }

  lemma DanglingShows(
    names: Names, states: seq<State>, actions: seq<Action>, n: nat, d: Path, v: Option<Node>,
    q: Path, b: Bytes, r: (Path, Bytes))
    requires Run(states, actions) && n <= |actions| && Whole(states[0]) && AtRest(states[0].fs)
    requires states[n].fs.cur(d) == Some(Dir) && v in states[n].fs.disk(d) && v != Some(Dir)
    requires Plain(q) && MayHold(states[n].fs, q, b) && r in names(b) && d < r.0 && !(d < q)
    ensures Exposed(names, states, actions, n)
  {
    hide Whole, Recalled, IsTemp;
    DiskIsRecalled(states, actions, n, d, v);
    DiskIsRecalled(states, actions, n, q, Some(File(b, true)));
    assert Fresh(states, actions, n, d) && NamedFromOutside(names, states, actions, n, d);
  }

  lemma UnexposedIsFound(
    names: Names, kept: set<Path>, states: seq<State>, actions: seq<Action>, n: nat, after: Fs)
    requires OrderedRun(names, kept, states, actions) && n <= |actions| && !Exposed(names, states, actions, n)
    requires Recovers(states[n].fs, after)
    ensures AllFound(names, after)
  {
    hide Ordered, Enabled, Apply, Recovers, Recalled, IsTemp, Inv, SurvivesGiven, WellFormed, Backed, Untorn;
    OrderedRunKeepsInv(names, kept, states, actions, n);
    InvIsWhole(names, kept, states[n]);
    RestedIsSettling(names, kept, states[0]);
    InvIsWhole(names, kept, states[0]);
    var fs := states[n].fs;
    RecoversWhole(fs, after);
    forall q: Path, b, r | Plain(q) && after.cur(q) == Some(File(b, true)) && r in names(b)
      ensures Plain(r.0) && after.cur(r.0) == Some(File(r.1, true))
    {
      FoundIsBackedUp(names, kept, fs, after, q, b, r);
      if after.cur(r.0) != Some(File(r.1, true)) {
        var d, v := DanglingIsExposed(kept, fs, after, q, b, r.0, r.1);
        DanglingShows(names, states, actions, n, d, v, q, b, r);
      }
    }
  }
}
