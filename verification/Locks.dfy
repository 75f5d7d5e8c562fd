/** Commits under the sharded key locks, interleaved read by read and write by
    write (crates/barme-engine/src/lib.rs, crates/barme-store/src/pointer_store.rs).
    Each thread runs one call: any number of them, in any order of steps. */
module Locks {
  import opened Bits
  import opened Common
  import opened Hashing

  /** Appends cover the commits of puts, streamed puts, multipart completions,
      restores and imports: all take the key's shard and call `set`. */
  datatype Job = Append(key: Key, id: Digest) | Remove(key: Key) | DeleteIfEmpty(bucket: Bytes)

  /** Where a thread is. `effective` tells whether its change was made. */
  datatype Pc =
    | Waiting
    | Holding
    | HasRead(contents: seq<Digest>)
    | Leaving(effective: bool)
    | Taking(next: nat)
    | SawEmpty
    | Dropping(next: nat, effective: bool)
    | Done(effective: bool)

  datatype Thread = Thread(job: Job, pc: Pc)

  /** `order` remembers, shard by shard, which threads got the lock, in turn, and
      `found` the pointers the process found on disk when it started. */
  datatype State = State(
    threads: seq<Thread>,
    holder: seq<Option<nat>>,
    order: seq<seq<nat>>,
    pointers: map<Key, seq<Digest>>,
    found: map<Key, seq<Digest>>)

  /** Any hash over any number of shards. */
  datatype Sharding = Sharding(hash: Key -> nat, count: nat) {
    function Of(k: Key): (sh: nat)
      requires count > 0
      ensures sh < count
    {
      hash(k) % count
    }
  }

  type Shards = c: Sharding | c.count > 0 witness Sharding(_ => 0, 1)

  function History(s: State, k: Key): seq<Digest>
  {
    if k in s.pointers then s.pointers[k] else []
  }

  /** The history of the key when the process started. */
  function Found(s: State, k: Key): seq<Digest>
  {
    if k in s.found then s.found[k] else []
  }

  function InBucket(pointers: map<Key, seq<Digest>>, b: Bytes): set<Key>
  {
    set k | k in pointers && k.bucket == b
  }

  /** The lock a thread's next step needs. */
  function Wants(c: Shards, th: Thread): Option<nat>
  {
    if th.pc.Waiting? && !th.job.DeleteIfEmpty? then Some(c.Of(th.job.key))
    else if th.pc.Taking? && th.pc.next < c.count then Some(th.pc.next)
    else None
  }

  predicate Holds(c: Shards, th: Thread, sh: nat)
  {
    match th.pc
    case Waiting => false
    case Taking(n) => sh < n
    case SawEmpty => true
    case Dropping(n, _) => n <= sh
    case Done(_) => false
    case _ => !th.job.DeleteIfEmpty? && sh == c.Of(th.job.key)
  }

  // ---- steps ----

  /** A thread takes its next step, or its next file operation fails and it
      leaves with its change unmade. */
  datatype Action = Step(t: nat) | Fail(t: nat)

  predicate Enabled(c: Shards, s: State, a: Action)
    requires Shaped(c, s)
  {
    && a.t < |s.threads|
    && var th := s.threads[a.t];
    match a
    case Step(_) => !th.pc.Done? && (Wants(c, th).Some? ==> s.holder[Wants(c, th).value].None?)
    case Fail(_) => th.pc.Holding? || th.pc.HasRead? || th.pc.SawEmpty? || (th.pc.Taking? && th.pc.next == c.count)
  }

  function Goto(s: State, t: nat, pc: Pc): State
    requires t < |s.threads|
  {
    s.(threads := s.threads[t := s.threads[t].(pc := pc)])
  }

  function Acquire(s: State, t: nat, sh: nat): State
    requires sh < |s.holder| == |s.order|
  {
    s.(holder := s.holder[sh := Some(t)], order := s.order[sh := s.order[sh] + [t]])
  }

  function Release(s: State, sh: nat): State
    requires sh < |s.holder|
  {
    s.(holder := s.holder[sh := None])
  }

  function Apply(c: Shards, s: State, a: Action): State
    requires Shaped(c, s) && Enabled(c, s, a)
  {
    var t, th := a.t, s.threads[a.t];
    if a.Fail? then Goto(s, t, if th.job.DeleteIfEmpty? then Dropping(0, false) else Leaving(false))
    else
      match th.pc
      case Waiting => Goto(Acquire(s, t, c.Of(th.job.key)), t, Holding)
      case Holding =>
        if th.job.Append? then Goto(s, t, HasRead(History(s, th.job.key)))
        else Goto(s.(pointers := s.pointers - {th.job.key}), t, Leaving(true))
      case HasRead(h) => Goto(s.(pointers := s.pointers[th.job.key := h + [th.job.id]]), t, Leaving(true))
      case Leaving(e) => Goto(Release(s, c.Of(th.job.key)), t, Done(e))
      case Taking(n) =>
        if n < c.count then Goto(Acquire(s, t, n), t, Taking(n + 1))
        else Goto(s, t, if InBucket(s.pointers, th.job.bucket) != {} then Dropping(0, false) else SawEmpty)
      case SawEmpty => Goto(s.(pointers := s.pointers - InBucket(s.pointers, th.job.bucket)), t, Dropping(0, true))
      case Dropping(n, e) => if n < c.count then Goto(Release(s, n), t, Dropping(n + 1, e)) else Goto(s, t, Done(e))
  }

  // ---- what the lock order should have produced ----

  predicate Effective(pc: Pc)
  {
    (pc.Leaving? || pc.Dropping? || pc.Done?) && pc.effective
  }

  predicate Appends(th: Thread, k: Key)
  {
    Effective(th.pc) && th.job.Append? && th.job.key == k
  }

  predicate Clears(th: Thread, k: Key)
  {
    Effective(th.pc) && ((th.job.Remove? && th.job.key == k) || (th.job.DeleteIfEmpty? && th.job.bucket == k.bucket))
  }

  function Effect(th: Thread, k: Key, h: seq<Digest>): seq<Digest>
  {
    if Appends(th, k) then h + [th.job.id] else if Clears(th, k) then [] else h
  }

  /** The calls that held the shard, one after the other, on the history found. */
  function Replay(found: seq<Digest>, threads: seq<Thread>, order: seq<nat>, k: Key): seq<Digest>
    requires forall i :: 0 <= i < |order| ==> order[i] < |threads|
  {
    if order == [] then found
    else Effect(threads[order[|order| - 1]], k, Replay(found, threads, order[..|order| - 1], k))
  }

  /** How much of the order lies before the end of the last removal. */
  function SinceRemoval(threads: seq<Thread>, order: seq<nat>, k: Key): (n: nat)
    requires forall i :: 0 <= i < |order| ==> order[i] < |threads|
    ensures n <= |order|
  {
    if order == [] then 0
    else if Clears(threads[order[|order| - 1]], k) then |order|
    else SinceRemoval(threads, order[..|order| - 1], k)
  }

  /** The ids appended to `k`, in order. */
  function Commits(threads: seq<Thread>, order: seq<nat>, k: Key): seq<Digest>
    requires forall i :: 0 <= i < |order| ==> order[i] < |threads|
  {
    if order == [] then []
    else
      var th := threads[order[|order| - 1]];
      Commits(threads, order[..|order| - 1], k) + if Appends(th, k) then [th.job.id] else []
  }

  lemma {:induction false} ReplayIsCommits(found: seq<Digest>, threads: seq<Thread>, order: seq<nat>, k: Key)
    requires forall i :: 0 <= i < |order| ==> order[i] < |threads|
    ensures var n := SinceRemoval(threads, order, k);
            Replay(found, threads, order, k) == (if n == 0 then found else []) + Commits(threads, order[n..], k)
  {
    if order != [] {
      var most := order[..|order| - 1];
      var n := SinceRemoval(threads, order, k);
      ReplayIsCommits(found, threads, most, k);
      if !Clears(threads[order[|order| - 1]], k) {
        assert order[n..][..|order[n..]| - 1] == most[n..];
      }
    }
  }

  // ---- the invariant ----

  predicate WellPaced(c: Shards, th: Thread)
  {
    match th.pc
    case Waiting => !th.job.DeleteIfEmpty?
    case Holding => !th.job.DeleteIfEmpty?
    case HasRead(_) => th.job.Append?
    case Leaving(_) => !th.job.DeleteIfEmpty?
    case Taking(n) => th.job.DeleteIfEmpty? && n <= c.count
    case SawEmpty => th.job.DeleteIfEmpty?
    case Dropping(n, _) => th.job.DeleteIfEmpty? && n <= c.count
    case Done(_) => true
  }

  predicate Shaped(c: Shards, s: State)
  {
    && |s.holder| == c.count == |s.order|
    && (forall t :: 0 <= t < |s.threads| ==> WellPaced(c, s.threads[t]))
    && (forall sh, i :: 0 <= sh < c.count && 0 <= i < |s.order[sh]| ==> s.order[sh][i] < |s.threads|)
  }

  /** Each lock is held by the thread that thinks it holds it, and by no other. */
  predicate LocksMatch(c: Shards, s: State)
    requires Shaped(c, s)
  {
    forall sh, t :: 0 <= sh < c.count && 0 <= t < |s.threads| ==>
      (Holds(c, s.threads[t], sh) <==> s.holder[sh] == Some(t))
  }

  predicate HoldersExist(c: Shards, s: State)
    requires Shaped(c, s)
  {
    forall sh :: 0 <= sh < c.count && s.holder[sh].Some? ==> s.holder[sh].value < |s.threads|
  }

  /** The thread has had this lock, or has it. */
  predicate Reached(c: Shards, th: Thread, sh: nat)
  {
    if th.job.DeleteIfEmpty? then th.pc.Taking? ==> sh < th.pc.next
    else !th.pc.Waiting? && sh == c.Of(th.job.key)
  }

  ghost predicate OrderKept(c: Shards, s: State)
    requires Shaped(c, s)
  {
    && (forall sh :: 0 <= sh < c.count ==> Distinct(s.order[sh]))
    && (forall sh, t :: 0 <= sh < c.count && 0 <= t < |s.threads| ==>
          (t in s.order[sh] <==> Reached(c, s.threads[t], sh)))
    && (forall sh :: 0 <= sh < c.count && s.holder[sh].Some? ==>
          |s.order[sh]| > 0 && s.order[sh][|s.order[sh]| - 1] == s.holder[sh].value)
  }

  /** What a thread has read still stands. */
  predicate Fresh(s: State, th: Thread)
  {
    && (th.pc.HasRead? && th.job.Append? ==> th.pc.contents == History(s, th.job.key))
    && (th.pc.SawEmpty? && th.job.DeleteIfEmpty? ==> InBucket(s.pointers, th.job.bucket) == {})
  }

  ghost predicate Recorded(c: Shards, s: State, k: Key)
    requires Shaped(c, s)
  {
    History(s, k) == Replay(Found(s, k), s.threads, s.order[c.Of(k)], k)
  }

  /** Locks and the order they were granted in. */
  ghost predicate LocksSound(c: Shards, s: State)
  {
    Shaped(c, s) && LocksMatch(c, s) && HoldersExist(c, s) && OrderKept(c, s)
  }

  ghost predicate Inv(c: Shards, s: State)
  {
    && LocksSound(c, s)
    && (forall t :: 0 <= t < |s.threads| ==> Fresh(s, s.threads[t]))
    && (forall k :: Recorded(c, s, k))
  }

  // ---- steps keep the locks sound ----

  lemma MoveKeepsLocks(c: Shards, s: State, t: nat, pc: Pc)
    requires LocksSound(c, s) && t < |s.threads|
    requires var th, th' := s.threads[t], s.threads[t].(pc := pc);
             && WellPaced(c, th')
             && forall sh :: 0 <= sh < c.count ==>
                  Holds(c, th', sh) == Holds(c, th, sh) && Reached(c, th', sh) == Reached(c, th, sh)
    ensures LocksSound(c, Goto(s, t, pc))
  {
    hide Holds, Reached, WellPaced;
    var s' := Goto(s, t, pc);
    forall sh, u | 0 <= sh < c.count && 0 <= u < |s.threads|
      ensures Holds(c, s'.threads[u], sh) == Holds(c, s.threads[u], sh)
      ensures Reached(c, s'.threads[u], sh) == Reached(c, s.threads[u], sh)
    {
      assert u != t ==> s'.threads[u] == s.threads[u];
    }
    assert Shaped(c, s');
    assert LocksMatch(c, s') && HoldersExist(c, s');
    assert OrderKept(c, s');
  }

  lemma AcquireKeepsLocks(c: Shards, s: State, t: nat, sh: nat, pc: Pc)
    requires LocksSound(c, s) && t < |s.threads| && sh < c.count && s.holder[sh].None?
    requires var th, th' := s.threads[t], s.threads[t].(pc := pc);
             && WellPaced(c, th') && !Reached(c, th, sh)
             && forall x :: 0 <= x < c.count ==>
                  && Holds(c, th', x) == (Holds(c, th, x) || x == sh)
                  && Reached(c, th', x) == (Reached(c, th, x) || x == sh)
    ensures LocksSound(c, Goto(Acquire(s, t, sh), t, pc))
  {
    hide Holds, Reached, WellPaced;
    var s' := Goto(Acquire(s, t, sh), t, pc);
    assert Shaped(c, s');
    forall x, u | 0 <= x < c.count && 0 <= u < |s.threads|
      ensures Holds(c, s'.threads[u], x) <==> s'.holder[x] == Some(u)
      ensures Reached(c, s'.threads[u], x) == (Reached(c, s.threads[u], x) || (u == t && x == sh))
    {
      assert u != t ==> s'.threads[u] == s.threads[u];
      assert Holds(c, s.threads[u], x) <==> s.holder[x] == Some(u);
    }
    assert LocksMatch(c, s');
    assert HoldersExist(c, s');
    assert t !in s.order[sh];
    assert forall x :: 0 <= x < c.count ==> Distinct(s'.order[x]);
    assert OrderKept(c, s');
  }

  lemma ReleaseKeepsLocks(c: Shards, s: State, t: nat, sh: nat, pc: Pc)
    requires LocksSound(c, s) && t < |s.threads| && sh < c.count && Holds(c, s.threads[t], sh)
    requires var th, th' := s.threads[t], s.threads[t].(pc := pc);
             && WellPaced(c, th')
             && forall x :: 0 <= x < c.count ==>
                  Holds(c, th', x) == (Holds(c, th, x) && x != sh) && Reached(c, th', x) == Reached(c, th, x)
    ensures LocksSound(c, Goto(Release(s, sh), t, pc))
  {
    hide Holds, Reached, WellPaced;
    var s' := Goto(Release(s, sh), t, pc);
    assert Shaped(c, s');
    forall x, u | 0 <= x < c.count && 0 <= u < |s.threads|
      ensures Holds(c, s'.threads[u], x) <==> s'.holder[x] == Some(u)
      ensures Reached(c, s'.threads[u], x) == Reached(c, s.threads[u], x)
    {
      assert u != t ==> s'.threads[u] == s.threads[u];
      assert Holds(c, s.threads[u], x) <==> s.holder[x] == Some(u);
    }
    assert LocksMatch(c, s');
    assert HoldersExist(c, s');
    assert OrderKept(c, s');
  }

  lemma StepKeepsLocks(c: Shards, s: State, a: Action)
    requires LocksSound(c, s) && Enabled(c, s, a)
    ensures LocksSound(c, Apply(c, s, a))
  {
    hide LocksSound, LocksMatch, HoldersExist, OrderKept;
    SoundIsShaped(c, s);
    var t, th := a.t, s.threads[a.t];
    var s' := Apply(c, s, a);
    if th.pc.Waiting? {
      AcquireKeepsLocks(c, s, t, c.Of(th.job.key), Holding);
    } else if th.pc.Taking? && th.pc.next < c.count {
      AcquireKeepsLocks(c, s, t, th.pc.next, Taking(th.pc.next + 1));
    } else if th.pc.Leaving? {
      ReleaseKeepsLocks(c, s, t, c.Of(th.job.key), s'.threads[t].pc);
    } else if th.pc.Dropping? && th.pc.next < c.count {
      ReleaseKeepsLocks(c, s, t, th.pc.next, s'.threads[t].pc);
    } else {
      MoveKeepsLocks(c, s, t, s'.threads[t].pc);
      OnlyLocksMatter(c, Goto(s, t, s'.threads[t].pc), s');
    }
  }

  lemma SoundIsShaped(c: Shards, s: State)
    requires LocksSound(c, s)
    ensures Shaped(c, s)
  {
  }

  lemma OnlyLocksMatter(c: Shards, s: State, s': State)
    requires LocksSound(c, s) && s' == s.(pointers := s'.pointers)
    ensures LocksSound(c, s')
  {
  }

  // ---- steps keep the record ----

  /** A thread that never held the shard, or whose change to the key's history
      stays the same, leaves the replay as it was. */
  lemma {:induction false} ReplayFrame(
    found: seq<Digest>, threads: seq<Thread>, t: nat, th: Thread, order: seq<nat>, k: Key)
    requires forall i :: 0 <= i < |order| ==> order[i] < |threads|
    requires t < |threads| && threads[t].job == th.job
    requires t in order ==> Appends(threads[t], k) == Appends(th, k) && Clears(threads[t], k) == Clears(th, k)
    ensures Replay(found, threads[t := th], order, k) == Replay(found, threads, order, k)
  {
    hide Appends, Clears;
    if order != [] {
      ReplayFrame(found, threads, t, th, order[..|order| - 1], k);
    }
  }

  /** The last to hold the shard made its change. */
  lemma ReplayLast(found: seq<Digest>, threads: seq<Thread>, t: nat, th: Thread, order: seq<nat>, k: Key)
    requires forall i :: 0 <= i < |order| ==> order[i] < |threads|
    requires t < |threads| && threads[t].job == th.job && !Effective(threads[t].pc)
    requires Distinct(order) && |order| > 0 && order[|order| - 1] == t
    ensures Replay(found, threads[t := th], order, k) == Effect(th, k, Replay(found, threads, order, k))
  {
    assert t !in order[..|order| - 1];
    ReplayFrame(found, threads, t, th, order[..|order| - 1], k);
  }

  /** The thread's next step changes pointers. */
  predicate Writes(th: Thread, a: Action)
  {
    a.Step? && ((th.pc.Holding? && th.job.Remove?) || th.pc.HasRead? || th.pc.SawEmpty?)
  }

  lemma QuietKeepsRecord(c: Shards, s: State, a: Action, k: Key)
    requires Inv(c, s) && Enabled(c, s, a) && !Writes(s.threads[a.t], a)
    ensures Shaped(c, Apply(c, s, a)) && Recorded(c, Apply(c, s, a), k)
  {
    hide Replay, Distinct, LocksMatch, OrderKept;
    StepKeepsLocks(c, s, a);
    assert Recorded(c, s, k);
    var s', t := Apply(c, s, a), a.t;
    var th, th' := s.threads[t], s'.threads[t];
    var before, after := s.order[c.Of(k)], s'.order[c.Of(k)];
    assert s'.threads == s.threads[t := th'];
    assert Effective(th.pc) == Effective(th'.pc);
    ReplayFrame(Found(s, k), s.threads, t, th', before, k);
    if after != before {
      assert after == before + [t];
      AppendQuiet(Found(s, k), s'.threads, before, t, k);
    }
  }

  lemma AppendQuiet(found: seq<Digest>, threads: seq<Thread>, order: seq<nat>, t: nat, k: Key)
    requires forall i :: 0 <= i < |order| ==> order[i] < |threads|
    requires t < |threads| && !Effective(threads[t].pc)
    ensures Replay(found, threads, order + [t], k) == Replay(found, threads, order, k)
  {
    assert (order + [t])[..|order + [t]| - 1] == order;
  }

  lemma WriteKeepsRecord(c: Shards, s: State, a: Action, k: Key)
    requires Inv(c, s) && Enabled(c, s, a) && Writes(s.threads[a.t], a)
    ensures Shaped(c, Apply(c, s, a)) && Recorded(c, Apply(c, s, a), k)
  {
    hide Replay, Distinct, LocksMatch;
    StepKeepsLocks(c, s, a);
    assert Recorded(c, s, k);
    var s', t := Apply(c, s, a), a.t;
    var th, th', order := s.threads[t], s'.threads[t], s.order[c.Of(k)];
    assert s'.threads == s.threads[t := th'] && s'.order == s.order;
    assert Fresh(s, th);
    if Appends(th', k) || Clears(th', k) {
      assert Holds(c, th, c.Of(k));
      assert s.holder[c.Of(k)] == Some(t) by { HolderIs(c, s, c.Of(k), t); }
      ReplayLast(Found(s, k), s.threads, t, th', order, k);
    } else {
      ReplayFrame(Found(s, k), s.threads, t, th', order, k);
    }
  }

  lemma HolderIs(c: Shards, s: State, sh: nat, t: nat)
    requires LocksSound(c, s) && sh < c.count && t < |s.threads|
    ensures Holds(c, s.threads[t], sh) <==> s.holder[sh] == Some(t)
  {
  }

  lemma OwnReadIsFresh(c: Shards, s: State, a: Action)
    requires Inv(c, s) && Enabled(c, s, a)
    ensures Fresh(Apply(c, s, a), Apply(c, s, a).threads[a.t])
  {
    hide LocksMatch, OrderKept, HoldersExist, Recorded;
  }

  /** No write invalidates what another thread has read: a writer holds the shard
      of the key it writes, and so would the reader. */
  lemma OthersReadsStayFresh(c: Shards, s: State, a: Action, u: nat)
    requires Inv(c, s) && Enabled(c, s, a) && u < |s.threads| && u != a.t
    ensures Fresh(Apply(c, s, a), s.threads[u])
  {
    hide LocksMatch, OrderKept, HoldersExist, Recorded;
    var th := s.threads[a.t];
    assert Fresh(s, th) && Fresh(s, s.threads[u]);
    if Writes(th, a) && !th.pc.SawEmpty? {
      HolderIs(c, s, c.Of(th.job.key), a.t);
      HolderIs(c, s, c.Of(th.job.key), u);
    }
  }

  lemma StepKeepsInv(c: Shards, s: State, a: Action)
    requires Inv(c, s) && Enabled(c, s, a)
    ensures Inv(c, Apply(c, s, a))
  {
    hide Apply, Fresh, Recorded, LocksSound;
    SoundIsShaped(c, s);
    StepKeepsLocks(c, s, a);
    var s' := Apply(c, s, a);
    SoundIsShaped(c, s');
    SameThreads(c, s, a);
    forall u | 0 <= u < |s'.threads|
      ensures Fresh(s', s'.threads[u])
    {
      if u == a.t {
        OwnReadIsFresh(c, s, a);
      } else {
        OthersReadsStayFresh(c, s, a, u);
      }
    }
    forall k: Key
      ensures Recorded(c, s', k)
    {
      if Writes(s.threads[a.t], a) {
        WriteKeepsRecord(c, s, a, k);
      } else {
        QuietKeepsRecord(c, s, a, k);
      }
    }
  }

  lemma SameThreads(c: Shards, s: State, a: Action)
    requires Shaped(c, s) && Enabled(c, s, a)
    ensures |Apply(c, s, a).threads| == |s.threads|
    ensures forall u :: 0 <= u < |s.threads| && u != a.t ==> Apply(c, s, a).threads[u] == s.threads[u]
  {
  }

  // ---- whole runs ----

  /** A process starts on the pointers it finds, whatever they are, every lock free
      and every call about to begin. */
  ghost predicate Initial(c: Shards, s: State)
  {
    && |s.holder| == c.count == |s.order| && s.pointers == s.found
    && (forall sh :: 0 <= sh < c.count ==> s.holder[sh] == None && s.order[sh] == [])
    && (forall t :: 0 <= t < |s.threads| ==>
          s.threads[t].pc == if s.threads[t].job.DeleteIfEmpty? then Taking(0) else Waiting)
  }

  ghost predicate Run(c: Shards, states: seq<State>, actions: seq<Action>)
  {
    && |states| == |actions| + 1 && Initial(c, states[0])
    && forall i :: 0 <= i < |actions| ==>
         Shaped(c, states[i]) && Enabled(c, states[i], actions[i]) && states[i + 1] == Apply(c, states[i], actions[i])
  }

  lemma InitialIsSound(c: Shards, s: State)
    requires Initial(c, s)
    ensures Inv(c, s)
  {
    forall k: Key
      ensures Shaped(c, s) && Recorded(c, s, k)
    {
    }
  }

  lemma {:induction false} RunKeepsInv(c: Shards, states: seq<State>, actions: seq<Action>, n: nat)
    requires Run(c, states, actions) && n <= |actions|
    ensures Inv(c, states[n])
  {
    hide Inv, Apply, Enabled;
    if n == 0 {
      InitialIsSound(c, states[0]);
    } else {
      RunKeepsInv(c, states, actions, n - 1);
      StepKeepsInv(c, states[n - 1], actions[n - 1]);
    }
  }

  /** Under every interleaving, with any step failing, each key's history is the
      commits made to it in the order their threads got its lock, since the last
      removal, and before them, if there was no removal, the history found at the
      start: none lost, none twice, none from before. */
  lemma HistoriesAreCommits(c: Shards, states: seq<State>, actions: seq<Action>, n: nat, k: Key)
    requires Run(c, states, actions) && n <= |actions|
    ensures var s := states[n];
            && Shaped(c, s)
            && var order := s.order[c.Of(k)];
            && Distinct(order)
            && s.found == states[0].pointers
            && var n := SinceRemoval(s.threads, order, k);
            && History(s, k) == (if n == 0 then Found(s, k) else []) + Commits(s.threads, order[n..], k)
  {
    RunKeepsInv(c, states, actions, n);
    var s := states[n];
    assert Recorded(c, s, k);
    ReplayIsCommits(Found(s, k), s.threads, s.order[c.Of(k)], k);
    FoundStays(c, states, actions, n);
  }

  lemma {:induction false} FoundStays(c: Shards, states: seq<State>, actions: seq<Action>, n: nat)
    requires Run(c, states, actions) && n <= |actions|
    ensures states[n].found == states[0].pointers
  {
    hide Enabled;
    if n > 0 {
      FoundStays(c, states, actions, n - 1);
    }
  }

  /** Once it has got its locks and made its change, a call stands in the order of
      each of its shards, so the theorem above speaks of every acknowledged call. */
  lemma EffectiveIsOrdered(c: Shards, states: seq<State>, actions: seq<Action>, n: nat, t: nat)
    requires Run(c, states, actions) && n <= |actions| && t < |states[n].threads| && Effective(states[n].threads[t].pc)
    ensures Shaped(c, states[n])
    ensures var th := states[n].threads[t];
            if th.job.DeleteIfEmpty? then forall sh :: 0 <= sh < c.count ==> t in states[n].order[sh]
            else t in states[n].order[c.Of(th.job.key)]
  {
    RunKeepsInv(c, states, actions, n);
  }

  /** Deleting an empty bucket removes no pointer: what the check saw still holds
      when the deletion comes. */
  lemma DeleteIfEmptyWipesNothing(c: Shards, states: seq<State>, actions: seq<Action>, n: nat)
    requires Run(c, states, actions) && n < |actions|
    requires actions[n].Step? && states[n].threads[actions[n].t].job.DeleteIfEmpty?
    ensures states[n + 1].pointers == states[n].pointers
  {
    RunKeepsInv(c, states, actions, n);
    RunStep(c, states, actions, n);
    var th := states[n].threads[actions[n].t];
    assert Fresh(states[n], th) && WellPaced(c, th);
  }

  lemma RunStep(c: Shards, states: seq<State>, actions: seq<Action>, n: nat)
    requires Run(c, states, actions) && n < |actions|
    ensures Shaped(c, states[n]) && Enabled(c, states[n], actions[n])
    ensures states[n + 1] == Apply(c, states[n], actions[n])
  {
  }

  // ---- progress ----

  /** Some thread can step while any is unfinished: a waiting thread waits on a
      holder that either needs nothing or wants a lock of higher index. */
  lemma {:induction false} SomeThreadCanStep(c: Shards, s: State, t: nat) returns (u: nat)
    requires Inv(c, s) && t < |s.threads| && !s.threads[t].pc.Done?
    ensures u < |s.threads| && Enabled(c, s, Step(u))
    decreases if Wants(c, s.threads[t]).Some? then c.count - Wants(c, s.threads[t]).value else 0
  {
    var want := Wants(c, s.threads[t]);
    if want.Some? && s.holder[want.value].Some? {
      u := s.holder[want.value].value;
      HolderIs(c, s, want.value, u);
      if Wants(c, s.threads[u]).Some? {
        u := SomeThreadCanStep(c, s, u);
      }
    } else {
      u := t;
    }
  }

  function StepsLeft(c: Shards, th: Thread): nat
    requires WellPaced(c, th)
  {
    match th.pc
    case Waiting => 5
    case Holding => 4
    case HasRead(_) => 3
    case Leaving(_) => 1
    case Taking(n) => 2 * c.count - n + 5
    case SawEmpty => c.count + 3
    case Dropping(n, _) => c.count - n + 1
    case Done(_) => 0
  }

  function TotalLeft(c: Shards, threads: seq<Thread>): nat
    requires forall t :: 0 <= t < |threads| ==> WellPaced(c, threads[t])
  {
    if threads == [] then 0 else StepsLeft(c, threads[0]) + TotalLeft(c, threads[1..])
  }

  lemma {:induction false} TotalDrops(c: Shards, threads: seq<Thread>, t: nat, th: Thread)
    requires forall i :: 0 <= i < |threads| ==> WellPaced(c, threads[i])
    requires t < |threads| && WellPaced(c, th) && StepsLeft(c, th) < StepsLeft(c, threads[t])
    ensures TotalLeft(c, threads[t := th]) < TotalLeft(c, threads)
  {
    hide WellPaced, StepsLeft;
    if t == 0 {
      assert threads[t := th][1..] == threads[1..];
    } else {
      assert threads[t := th][1..] == threads[1..][t - 1 := th];
      TotalDrops(c, threads[1..], t - 1, th);
    }
  }

  lemma StepComesCloser(c: Shards, s: State, a: Action)
    requires Inv(c, s) && Enabled(c, s, a)
    ensures Shaped(c, Apply(c, s, a)) && TotalLeft(c, Apply(c, s, a).threads) < TotalLeft(c, s.threads)
  {
    StepKeepsInv(c, s, a);
    var s' := Apply(c, s, a);
    assert s'.threads == s.threads[a.t := s'.threads[a.t]];
    TotalDrops(c, s.threads, a.t, s'.threads[a.t]);
  }

  /** No schedule runs for ever, and one that can go no further has finished
      every call: the locks deadlock nobody. */
  lemma EveryScheduleFinishes(c: Shards, states: seq<State>, actions: seq<Action>)
    requires Run(c, states, actions)
    ensures Shaped(c, states[0]) && |actions| <= TotalLeft(c, states[0].threads)
    ensures Shaped(c, states[|actions|])
    ensures (forall t :: 0 <= t < |states[|actions|].threads| ==> !Enabled(c, states[|actions|], Step(t)))
        ==> forall t :: 0 <= t < |states[|actions|].threads| ==> states[|actions|].threads[t].pc.Done?
  {
    hide Enabled;
    RunTakesTime(c, states, actions, |actions|);
    RunKeepsInv(c, states, actions, |actions|);
    var s := states[|actions|];
    forall t | 0 <= t < |s.threads| && !s.threads[t].pc.Done?
      ensures exists u :: 0 <= u < |s.threads| && Enabled(c, s, Step(u))
    {
      var u := SomeThreadCanStep(c, s, t);
    }
  }

  lemma {:induction false} RunTakesTime(c: Shards, states: seq<State>, actions: seq<Action>, n: nat)
    requires Run(c, states, actions) && n <= |actions|
    ensures Shaped(c, states[0]) && Shaped(c, states[n])
    ensures n + TotalLeft(c, states[n].threads) <= TotalLeft(c, states[0].threads)
  {
    hide Apply, Enabled, TotalLeft;
    RunKeepsInv(c, states, actions, n);
    RunKeepsInv(c, states, actions, 0);
    if n > 0 {
      RunTakesTime(c, states, actions, n - 1);
      RunKeepsInv(c, states, actions, n - 1);
      RunStep(c, states, actions, n - 1);
      StepComesCloser(c, states[n - 1], actions[n - 1]);
    }
  }
}
