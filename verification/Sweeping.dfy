/** What one collector pass decides, and what a sequence of passes does to a
    chunk (crates/barme-gc/src/lib.rs). */
module Sweeping {
  import opened Bits
  import opened Common
  import opened Hashing

  /** `now.saturating_sub(at)`. */
  function Elapsed(now: nat, at: nat): nat
  {
    if now < at then 0 else now - at
  }

  predicate Aged(condemned: map<Digest, nat>, h: Digest, now: nat, grace: nat)
  {
    h in condemned && Elapsed(now, condemned[h]) >= grace
  }

  /** The stored chunks a pass erases. */
  function Erased(disk: set<Digest>, marked: set<Digest>, condemned: map<Digest, nat>, now: nat, grace: nat)
    : set<Digest>
  {
    set h | h in disk && h !in marked && Aged(condemned, h, now, grace)
  }

  /** The stored chunks a pass stamps for the first time. */
  function Stamped(disk: set<Digest>, marked: set<Digest>, condemned: map<Digest, nat>): set<Digest>
  {
    set h | h in disk && h !in marked && h !in condemned
  }

  ghost function StampAll(condemned: map<Digest, nat>, newly: set<Digest>, now: nat): (c: map<Digest, nat>)
    ensures c.Keys == condemned.Keys + newly
    ensures forall h :: h in c ==> c[h] == if h in newly then now else condemned[h]
  {
    if newly == {} then condemned
    else
      var h :| h in newly;
      StampAll(condemned, newly - {h}, now)[h := now]
  }

  /** The condemned map a pass leaves: marked and erased chunks lose their stamp,
      new misses gain one, everything else keeps what it had. */
  ghost function Condemned(disk: set<Digest>, marked: set<Digest>, condemned: map<Digest, nat>, now: nat, grace: nat)
    : map<Digest, nat>
  {
    StampAll(condemned - (disk * marked) - Erased(disk, marked, condemned, now, grace),
             Stamped(disk, marked, condemned), now)
  }

  datatype Shelf = Shelf(disk: set<Digest>, condemned: map<Digest, nat>)

  datatype Pass = Pass(now: nat, marked: set<Digest>)

  ghost function AfterPass(s: Shelf, p: Pass, grace: nat): Shelf
  {
    Shelf(s.disk - Erased(s.disk, p.marked, s.condemned, p.now, grace),
          Condemned(s.disk, p.marked, s.condemned, p.now, grace))
  }

  // ---- the loop over stored chunks ----

  /** What the loop does with one stored chunk. */
  function Visit(s: Shelf, p: Pass, grace: nat, h: Digest): Shelf
  {
    if h in p.marked then s.(condemned := s.condemned - {h})
    else if Aged(s.condemned, h, p.now, grace) then Shelf(s.disk - {h}, s.condemned - {h})
    else if h in s.condemned then s
    else s.(condemned := s.condemned[h := p.now])
  }

  function VisitEach(s: Shelf, p: Pass, grace: nat, chunks: seq<Digest>): Shelf
  {
    if chunks == [] then s
    else Visit(VisitEach(s, p, grace, chunks[..|chunks| - 1]), p, grace, chunks[|chunks| - 1])
  }

  lemma {:induction false} VisitedSoFar(s: Shelf, p: Pass, grace: nat, chunks: seq<Digest>)
    requires Distinct(chunks)
    ensures var r := VisitEach(s, p, grace, chunks);
            && r.disk == s.disk - (set h | h in chunks && h !in p.marked && Aged(s.condemned, h, p.now, grace))
            && (forall h :: h in r.condemned <==>
                  if h in chunks then h !in p.marked && !Aged(s.condemned, h, p.now, grace) else h in s.condemned)
            && (forall h :: h in r.condemned ==> r.condemned[h] == if h in s.condemned then s.condemned[h] else p.now)
  {
    if chunks != [] {
      var most, last := chunks[..|chunks| - 1], chunks[|chunks| - 1];
      VisitedSoFar(s, p, grace, most);
      assert chunks == most + [last];
      assert last !in most;
    }
  }

  /** Visiting the stored chunks one by one, in whatever order the directories
      list them, is the pass decided all at once. */
  lemma VisitingIsThePass(s: Shelf, p: Pass, grace: nat, chunks: seq<Digest>)
    requires Distinct(chunks) && s.disk == Elems(chunks)
    ensures VisitEach(s, p, grace, chunks) == AfterPass(s, p, grace)
  {
    hide VisitEach;
    VisitedSoFar(s, p, grace, chunks);
    var r, t := VisitEach(s, p, grace, chunks), AfterPass(s, p, grace);
    assert r.disk == t.disk;
    assert r.condemned.Keys == t.condemned.Keys;
    assert r.condemned == t.condemned;
  }

  // ---- sequences of passes ----

  /** The shelf after the first `n` passes. `lost[i]` tells that pass `i` finds the
      condemned file missing or unreadable. */
  ghost function After(s: Shelf, passes: seq<Pass>, lost: seq<bool>, grace: nat, n: nat): Shelf
    requires n <= |passes| == |lost|
  {
    if n == 0 then s
    else
      var before := After(s, passes, lost, grace, n - 1);
      AfterPass(if lost[n - 1] then before.(condemned := map[]) else before, passes[n - 1], grace)
  }

  function NoneLost(n: nat): (lost: seq<bool>)
    ensures |lost| == n && forall i :: 0 <= i < n ==> !lost[i]
  {
    seq(n, _ => false)
  }

  predicate Missed(passes: seq<Pass>, h: Digest, n: nat)
    requires n < |passes|
  {
    h !in passes[n].marked
  }

  /** The first pass of the unbroken run of misses that ends with pass `n`, no
      further back than the last loss of the file. */
  function RunStart(passes: seq<Pass>, lost: seq<bool>, h: Digest, n: nat): (i: nat)
    requires n < |passes| == |lost|
    ensures i <= n
    ensures Missed(passes, h, n) ==> forall j :: i <= j <= n ==> Missed(passes, h, j)
    ensures forall j :: i < j <= n ==> !lost[j]
    ensures i > 0 ==> lost[i] || !Missed(passes, h, i - 1)
  {
    if n == 0 || lost[n] || !Missed(passes, h, n - 1) then n else RunStart(passes, lost, h, n - 1)
  }

  /** The chunk comes to the first pass with a stamp already. */
  predicate Arrives(s: Shelf, lost: seq<bool>, h: Digest, n: nat)
    requires |lost| > 0
  {
    n == 0 && !lost[0] && h in s.condemned
  }

  /** The time the run's stamp bears: that of its first pass, unless the chunk came
      with one. */
  function StampTime(s: Shelf, passes: seq<Pass>, lost: seq<bool>, h: Digest, n: nat): nat
    requires n < |passes| == |lost|
  {
    var first := RunStart(passes, lost, h, n);
    if Arrives(s, lost, h, first) then s.condemned[h] else passes[first].now
  }

  /** A chunk still stored carries a stamp exactly while it is being missed, and
      the stamp bears the time of the run. */
  lemma {:induction false} StampIsRunStart(s: Shelf, passes: seq<Pass>, lost: seq<bool>, grace: nat, h: Digest, n: nat)
    requires n < |passes| == |lost| && h in After(s, passes, lost, grace, n + 1).disk
    ensures var c := After(s, passes, lost, grace, n + 1).condemned;
            && (h in c <==> Missed(passes, h, n))
            && (h in c ==> c[h] == StampTime(s, passes, lost, h, n))
  {
    if n > 0 {
      StampIsRunStart(s, passes, lost, grace, h, n - 1);
    }
  }

  /** Exactly when a pass erases a stored chunk: it and every pass since the first
      of the current run of misses failed to mark it, the chunk was stamped before
      this pass, and the saturating time since then is at least the grace. */
  lemma ErasedExactlyWhenAged(s: Shelf, passes: seq<Pass>, lost: seq<bool>, grace: nat, h: Digest, n: nat)
    requires n < |passes| == |lost| && h in After(s, passes, lost, grace, n).disk
    ensures h !in After(s, passes, lost, grace, n + 1).disk
       <==> && Missed(passes, h, n)
            && (RunStart(passes, lost, h, n) < n || Arrives(s, lost, h, n))
            && Elapsed(passes[n].now, StampTime(s, passes, lost, h, n)) >= grace
  {
    if n > 0 {
      StampIsRunStart(s, passes, lost, grace, h, n - 1);
    }
  }

  /** A pass that erases a chunk and dies before it saves leaves the stamp behind.
      Stored again, the chunk is erased the first time it is missed. */
  lemma StaleStampErasesAtOnce(s: Shelf, p: Pass, chunks: seq<Digest>, h: Digest, next: Pass, grace: nat)
    requires Distinct(chunks) && h in s.disk && h !in VisitEach(s, p, grace, chunks).disk
    requires h !in next.marked && p.now <= next.now
    ensures h !in AfterPass(Shelf(VisitEach(s, p, grace, chunks).disk + {h}, s.condemned), next, grace).disk
  {
    hide VisitEach;
    VisitedSoFar(s, p, grace, chunks);
  }

  // ---- losing the condemned file ----

  predicate Dips(times: seq<nat>, i: nat, j: nat, k: nat)
  {
    i < j < k < |times| && times[j] < times[i] && times[j] < times[k]
  }

  /** Three readings by which a loss can hasten erasure. The earlier is where a run of
      misses may start: a chunk that comes with a stamp never starts one at the first
      pass, which finds it stamped; and the first pass must leave such a stamp be. */
  predicate Hastes(times: seq<nat>, stamped: bool, i: nat, j: nat, k: nat)
  {
    && Dips(times, i, j, k)
    && (stamped ==> i != 1 && (i == 0 && j >= 2 ==> times[1] + times[j] < times[0] + times[k]))
  }

  ghost predicate NoHaste(times: seq<nat>, stamped: bool)
  {
    forall i: nat, j: nat, k: nat :: !Hastes(times, stamped, i, j, k)
  }

  function Clocks(passes: seq<Pass>): (times: seq<nat>)
    ensures |times| == |passes| && forall i :: 0 <= i < |passes| ==> times[i] == passes[i].now
  {
    if passes == [] then [] else Clocks(passes[..|passes| - 1]) + [passes[|passes| - 1].now]
  }

  function StampOf(s: Shelf, h: Digest): Option<nat>
  {
    if h in s.condemned then Some(s.condemned[h]) else None
  }

  /** The clock readings that bear on a chunk: its stamp, if it comes with one, and
      those of the passes. */
  function Readings(stamp: Option<nat>, times: seq<nat>): seq<nat>
  {
    (if stamp.Some? then [stamp.value] else []) + times
  }

  lemma OnceErased(s: Shelf, passes: seq<Pass>, lost: seq<bool>, grace: nat, n: nat, m: nat)
    requires n <= m <= |passes| == |lost|
    ensures After(s, passes, lost, grace, m).disk <= After(s, passes, lost, grace, n).disk
  {
    if n < m {
      OnceErased(s, passes, lost, grace, n, m - 1);
    }
  }

  lemma {:induction false} LossShortensRun(passes: seq<Pass>, lost: seq<bool>, h: Digest, n: nat)
    requires n < |passes| == |lost|
    ensures RunStart(passes, NoneLost(|passes|), h, n) <= RunStart(passes, lost, h, n)
    ensures var start := RunStart(passes, lost, h, n);
            RunStart(passes, NoneLost(|passes|), h, n) < start ==> lost[start]
  {
    if n > 0 {
      LossShortensRun(passes, lost, h, n - 1);
    }
  }

  /** A pass that erases a chunk after losses and would have kept it without them
      makes a dip: the later stamp bears the earlier time. */
  lemma HasteDips(s: Shelf, passes: seq<Pass>, lost: seq<bool>, grace: nat, h: Digest, n: nat)
    requires n < |passes| == |lost|
    requires h in After(s, passes, lost, grace, n).disk && h !in After(s, passes, lost, grace, n + 1).disk
    requires h in After(s, passes, NoneLost(|passes|), grace, n + 1).disk
    ensures !NoHaste(Readings(StampOf(s, h), Clocks(passes)), h in s.condemned)
  {
    hide After, RunStart, NoHaste, Readings, StampTime, Elapsed;
    var none := NoneLost(|passes|);
    OnceErased(s, passes, none, grace, n, n + 1);
    ErasedExactlyWhenAged(s, passes, lost, grace, h, n);
    ErasedExactlyWhenAged(s, passes, none, grace, h, n);
    LossShortensRun(passes, lost, h, n);
    OlderStamp(passes[n].now, StampTime(s, passes, none, h, n), StampTime(s, passes, lost, h, n), grace);
    if RunStart(passes, none, h, n) == 0 && h in s.condemned {
      OnceErased(s, passes, none, grace, 0, n + 1);
      OnceErased(s, passes, none, grace, 1, n + 1);
      ErasedExactlyWhenAged(s, passes, none, grace, h, 0);
      StartsAtOnce(s, passes, h);
    }
    StampsDip(s, passes, lost, h, n);
  }

  lemma StartsAtOnce(s: Shelf, passes: seq<Pass>, h: Digest)
    requires |passes| > 0 && h in s.condemned
    ensures Arrives(s, NoneLost(|passes|), h, 0)
    ensures StampTime(s, passes, NoneLost(|passes|), h, 0) == s.condemned[h]
  {
  }

  lemma OlderStamp(now: nat, a: nat, b: nat, grace: nat)
    requires Elapsed(now, a) < grace <= Elapsed(now, b)
    ensures b < a && b < now
  {
  }

  /** Where a pass stands among the readings. */
  function Place(stamped: bool, n: nat): nat
  {
    if stamped then n + 1 else n
  }

  lemma PassReading(s: Shelf, passes: seq<Pass>, h: Digest, n: nat)
    requires n < |passes|
    ensures var r := Readings(StampOf(s, h), Clocks(passes));
            && Place(h in s.condemned, n) < |r| && r[Place(h in s.condemned, n)] == passes[n].now
            && (h in s.condemned ==> r[0] == s.condemned[h])
  {
    hide Clocks;
  }

  /** Where the stamp of a run stands among the readings. */
  function StampPlace(stamped: bool, lost: seq<bool>, first: nat): nat
    requires |lost| > 0
  {
    if first == 0 && !lost[0] && stamped then 0 else Place(stamped, first)
  }

  lemma StampReading(s: Shelf, passes: seq<Pass>, lost: seq<bool>, h: Digest, n: nat)
    requires n < |passes| == |lost|
    ensures var i := StampPlace(h in s.condemned, lost, RunStart(passes, lost, h, n));
            && i <= Place(h in s.condemned, n)
            && i < |Readings(StampOf(s, h), Clocks(passes))|
            && Readings(StampOf(s, h), Clocks(passes))[i] == StampTime(s, passes, lost, h, n)
  {
    hide RunStart, Readings, Clocks, StampOf;
    PassReading(s, passes, h, RunStart(passes, lost, h, n));
  }

  lemma StampsDip(s: Shelf, passes: seq<Pass>, lost: seq<bool>, h: Digest, n: nat)
    requires n < |passes| == |lost|
    requires StampTime(s, passes, lost, h, n) < StampTime(s, passes, NoneLost(|passes|), h, n)
    requires StampTime(s, passes, lost, h, n) < passes[n].now
    requires RunStart(passes, NoneLost(|passes|), h, n) == 0 && h in s.condemned ==>
               Elapsed(passes[0].now, s.condemned[h]) < Elapsed(passes[n].now, StampTime(s, passes, lost, h, n))
    ensures !NoHaste(Readings(StampOf(s, h), Clocks(passes)), h in s.condemned)
  {
    hide RunStart, Readings, NoHaste, Clocks, StampOf, StampTime;
    LossShortensRun(passes, lost, h, n);
    var none := NoneLost(|passes|);
    StampReading(s, passes, lost, h, n);
    StampReading(s, passes, none, h, n);
    PassReading(s, passes, h, n);
    PassReading(s, passes, h, 0);
    var stamped := h in s.condemned;
    HasteFound(Readings(StampOf(s, h), Clocks(passes)), stamped,
               StampPlace(stamped, none, RunStart(passes, none, h, n)),
               StampPlace(stamped, lost, RunStart(passes, lost, h, n)), Place(stamped, n));
  }

  lemma HasteFound(times: seq<nat>, stamped: bool, i: nat, j: nat, k: nat)
    requires Hastes(times, stamped, i, j, k)
    ensures !NoHaste(times, stamped)
  {
  }

  /** Without such readings losing the file, however often, only delays erasure,
      whatever is marked and whatever the grace. */
  lemma {:induction false} LossOnlyDelays(s: Shelf, passes: seq<Pass>, lost: seq<bool>, grace: nat, h: Digest, n: nat)
    requires n <= |passes| == |lost| && NoHaste(Readings(StampOf(s, h), Clocks(passes)), h in s.condemned)
    requires h in After(s, passes, NoneLost(|passes|), grace, n).disk
    ensures h in After(s, passes, lost, grace, n).disk
  {
    hide NoHaste, After, Readings;
    if n == 0 {
      NoPasses(s, passes, lost, grace);
      NoPasses(s, passes, NoneLost(|passes|), grace);
    } else {
      OnceErased(s, passes, NoneLost(|passes|), grace, n - 1, n);
      LossOnlyDelays(s, passes, lost, grace, h, n - 1);
      if h !in After(s, passes, lost, grace, n).disk {
        HasteDips(s, passes, lost, grace, h, n - 1);
      }
    }
  }

  ghost predicate Delayed(s: Shelf, passes: seq<Pass>, lost: seq<bool>, grace: nat, h: Digest, n: nat)
    requires n <= |passes| == |lost|
  {
    h in After(s, passes, NoneLost(|passes|), grace, n).disk ==> h in After(s, passes, lost, grace, n).disk
  }

  /** With these clock readings no loss ever hastens the erasure of a chunk that
      starts with that stamp, or without one. */
  ghost predicate NeverHastens(stamp: Option<nat>, times: seq<nat>, h: Digest)
  {
    forall s: Shelf, passes: seq<Pass>, lost: seq<bool>, grace: nat, n: nat
      | n <= |passes| == |lost| && Clocks(passes) == times && StampOf(s, h) == stamp
      :: Delayed(s, passes, lost, grace, h, n)
  }

  /** The latest reading of a stretch. */
  lemma {:induction false} Peak(times: seq<nat>, lo: nat, hi: nat) returns (i: nat)
    requires lo < hi <= |times|
    ensures lo <= i < hi && forall p :: lo <= p < hi ==> times[p] <= times[i]
  {
    i := lo;
    if hi - lo > 1 {
      i := Peak(times, lo, hi - 1);
      i := if times[hi - 1] > times[i] then hi - 1 else i;
    }
  }

  /** Missed from pass `i` to pass `k`, and marked before and after. */
  function MissedBetween(times: seq<nat>, h: Digest, i: nat, k: nat): (passes: seq<Pass>)
    ensures |passes| == |times|
    ensures forall p :: 0 <= p < |times| ==> passes[p] == Pass(times[p], if i <= p <= k then {} else {h})
  {
    seq(|times|, p requires 0 <= p < |times| => Pass(times[p], if i <= p <= k then {} else {h}))
  }

  function LostAt(n: nat, j: nat): (lost: seq<bool>)
    ensures |lost| == n && forall p :: 0 <= p < n ==> lost[p] == (p == j)
  {
    seq(n, p => p == j)
  }

  lemma {:induction false} ClocksOfEqual(passes: seq<Pass>, times: seq<nat>)
    requires |passes| == |times| && forall p :: 0 <= p < |times| ==> passes[p].now == times[p]
    ensures Clocks(passes) == times
  {
  }

  /** Where the run of misses starts, with the file kept and with it lost at `j`. */
  lemma {:induction false} RunsBetween(times: seq<nat>, h: Digest, i: nat, j: nat, k: nat, p: nat)
    requires i <= j <= k < |times| && i <= p <= k
    ensures RunStart(MissedBetween(times, h, i, k), NoneLost(|times|), h, p) == i
    ensures RunStart(MissedBetween(times, h, i, k), LostAt(|times|, j), h, p) == if p < j then i else j
  {
    if p > i {
      RunsBetween(times, h, i, j, k, p - 1);
    }
  }

  /** The chunk alone, with its stamp. */
  function Alone(stamp: Option<nat>, h: Digest): Shelf
  {
    Shelf({h}, if stamp.Some? then map[h := stamp.value] else map[])
  }

  /** What a run of misses that starts with pass `i` is stamped with. */
  function FirstStamp(stamp: Option<nat>, times: seq<nat>, i: nat): nat
    requires i < |times|
  {
    if i == 0 && stamp.Some? then stamp.value else times[i]
  }

  /** Kept: the chunk lives through pass `k` with a grace no reading since the
      first miss has reached. */
  lemma {:induction false} KeptFileKeeps(
    stamp: Option<nat>, times: seq<nat>, h: Digest, i: nat, k: nat, grace: nat, n: nat)
    requires i <= k < |times| && n <= k + 1
    requires forall p :: i <= p <= k ==> Elapsed(times[p], FirstStamp(stamp, times, i)) < grace
    ensures h in After(Alone(stamp, h), MissedBetween(times, h, i, k), NoneLost(|times|), grace, n).disk
  {
    hide After, Elapsed, FirstStamp, Alone, MissedBetween, StampTime, RunStart;
    var s, passes, none := Alone(stamp, h), MissedBetween(times, h, i, k), NoneLost(|times|);
    NoPasses(s, passes, none, grace);
    AloneIsThere(stamp, h);
    if n > 0 {
      KeptFileKeeps(stamp, times, h, i, k, grace, n - 1);
      ErasedExactlyWhenAged(s, passes, none, grace, h, n - 1);
      if i <= n - 1 {
        FirstStampIsRuns(stamp, times, h, i, k, n - 1);
      }
    }
  }

  lemma AloneIsThere(stamp: Option<nat>, h: Digest)
    ensures h in Alone(stamp, h).disk && StampOf(Alone(stamp, h), h) == stamp
  {
  }

  lemma FirstStampIsRuns(stamp: Option<nat>, times: seq<nat>, h: Digest, i: nat, k: nat, p: nat)
    requires i <= p <= k < |times|
    ensures StampTime(Alone(stamp, h), MissedBetween(times, h, i, k), NoneLost(|times|), h, p)
         == FirstStamp(stamp, times, i)
  {
    RunsBetween(times, h, i, k, k, p);
  }

  lemma NoPasses(s: Shelf, passes: seq<Pass>, lost: seq<bool>, grace: nat)
    requires |passes| == |lost|
    ensures After(s, passes, lost, grace, 0) == s
  {
  }

  /** Missed from pass `i` on and lost at pass `j`, the chunk goes at pass `k`, though
      its first stamp would keep it. */
  lemma HasteShown(stamp: Option<nat>, times: seq<nat>, h: Digest, i: nat, j: nat, k: nat, grace: nat)
    requires i <= j < k < |times| && (i == j ==> i == 0 && stamp.Some?)
    requires forall p :: i <= p <= k ==> Elapsed(times[p], FirstStamp(stamp, times, i)) < grace
    requires Elapsed(times[k], times[j]) >= grace
    ensures !NeverHastens(stamp, times, h)
  {
    hide After, Elapsed, Alone, FirstStamp, StampOf;
    AloneIsThere(stamp, h);
    var s, passes, lost := Alone(stamp, h), MissedBetween(times, h, i, k), LostAt(|times|, j);
    ClocksOfEqual(passes, times);
    KeptFileKeeps(stamp, times, h, i, k, grace, k + 1);
    RunsBetween(times, h, i, j, k, k);
    if h in After(s, passes, lost, grace, k).disk {
      ErasedExactlyWhenAged(s, passes, lost, grace, h, k);
    } else {
      OnceErased(s, passes, lost, grace, k, k + 1);
    }
    assert !Delayed(s, passes, lost, grace, h, k + 1);
  }

  lemma ReadingsShift(stamp: Option<nat>, times: seq<nat>)
    ensures var off := if stamp.Some? then 1 else 0;
            && |Readings(stamp, times)| == |times| + off
            && forall p :: 0 <= p < |times| ==> times[p] == Readings(stamp, times)[p + off]
  {
  }

  lemma FirstIsReading(stamp: Option<nat>, times: seq<nat>, i: nat)
    requires i < |times|
    ensures FirstStamp(stamp, times, i) == Readings(stamp, times)[if stamp.Some? && i > 0 then i + 1 else i]
  {
  }

  lemma Rise(now: nat, at: nat, low: nat, high: nat)
    requires low < high
    ensures now + low < at + high ==> Elapsed(now, at) < high - low
    ensures Elapsed(high, low) == high - low
  {
  }

  /** A dip lets a loss hasten erasure: with the file lost at the bottom and the
      grace the later rise, the chunk goes while its first stamp would keep it. */
  lemma DipHastens(stamp: Option<nat>, times: seq<nat>, h: Digest, i: nat, j: nat, k: nat)
    requires Dips(Readings(stamp, times), i, j, k) && (stamp.Some? ==> i >= 2)
    requires forall p :: j < p <= k ==> Readings(stamp, times)[p] <= Readings(stamp, times)[k]
    ensures !NeverHastens(stamp, times, h)
  {
    hide NeverHastens, Elapsed, Readings, FirstStamp;
    var r, off := Readings(stamp, times), if stamp.Some? then 1 else 0;
    var first := Peak(r, i, j);
    ReadingsShift(stamp, times);
    FirstIsReading(stamp, times, first - off);
    forall p | first - off <= p <= k - off
      ensures Elapsed(times[p], r[first]) < r[k] - r[j]
    {
      assert times[p] == r[p + off];
      Rise(times[p], r[first], r[j], r[k]);
    }
    Rise(r[k], r[j], r[j], r[k]);
    HasteShown(stamp, times, h, first - off, j - off, k - off, r[k] - r[j]);
  }

  /** A stamp later than some reading does the same, unless the passes in between
      have aged it. */
  lemma StampHastens(stamp: nat, times: seq<nat>, h: Digest, j: nat, k: nat)
    requires Dips(Readings(Some(stamp), times), 0, j, k)
    requires var r := Readings(Some(stamp), times);
             && (forall p :: j < p <= k ==> r[p] <= r[k])
             && (forall p :: 1 <= p < j ==> r[p] + r[j] < r[0] + r[k])
    ensures !NeverHastens(Some(stamp), times, h)
  {
    hide NeverHastens, Elapsed, Readings, FirstStamp;
    var r := Readings(Some(stamp), times);
    ReadingsShift(Some(stamp), times);
    FirstIsReading(Some(stamp), times, 0);
    forall p | 0 <= p <= k - 1
      ensures Elapsed(times[p], r[0]) < r[k] - r[j]
    {
      assert times[p] == r[p + 1];
      Rise(times[p], r[0], r[j], r[k]);
    }
    Rise(r[k], r[j], r[j], r[k]);
    HasteShown(Some(stamp), times, h, 0, j - 1, k - 1, r[k] - r[j]);
  }

  lemma HastesIsShown(stamp: Option<nat>, times: seq<nat>, h: Digest, i: nat, j: nat, k: nat)
    requires Hastes(Readings(stamp, times), stamp.Some?, i, j, k)
    ensures !NeverHastens(stamp, times, h)
  {
    hide NeverHastens, Readings;
    var r := Readings(stamp, times);
    var last := Peak(r, j + 1, k + 1);
    if stamp.None? || i >= 2 {
      DipHastens(stamp, times, h, i, j, last);
    } else if j == 1 {
      StampHastens(stamp.value, times, h, j, last);
    } else {
      var m := Peak(r, 1, j);
      if r[m] + r[j] < r[0] + r[last] {
        StampHastens(stamp.value, times, h, j, last);
      } else {
        DipHastens(stamp, times, h, m, j, last);
      }
    }
  }

  /** Losing the condemned file only delays erasure, for all marks, losses and
      graces, exactly when no readings can hasten it. For a chunk that starts
      without a stamp: when no reading lies below both an earlier and a later one. */
  lemma LossOnlyDelaysExactly(stamp: Option<nat>, times: seq<nat>, h: Digest)
    ensures NeverHastens(stamp, times, h) <==> NoHaste(Readings(stamp, times), stamp.Some?)
  {
    hide Hastes, Readings;
    if NoHaste(Readings(stamp, times), stamp.Some?) {
      forall s: Shelf, passes: seq<Pass>, lost: seq<bool>, grace: nat, n: nat
        | n <= |passes| == |lost| && Clocks(passes) == times && StampOf(s, h) == stamp
        ensures Delayed(s, passes, lost, grace, h, n)
      {
        if h in After(s, passes, NoneLost(|passes|), grace, n).disk {
          LossOnlyDelays(s, passes, lost, grace, h, n);
        }
      }
    } else {
      var i: nat, j: nat, k: nat :| Hastes(Readings(stamp, times), stamp.Some?, i, j, k);
      HastesIsShown(stamp, times, h, i, j, k);
    }
  }

  // ---- by how much a loss delays ----

  /** Neither stamp nor clock runs backwards. */
  ghost predicate Ticking(readings: seq<nat>)
  {
    forall i, j :: 0 <= i < j < |readings| ==> readings[i] <= readings[j]
  }

  lemma {:induction false} SameBeforeLoss(s: Shelf, passes: seq<Pass>, lost: seq<bool>, grace: nat, n: nat)
    requires n <= |passes| == |lost| && forall i :: 0 <= i < n ==> !lost[i]
    ensures After(s, passes, lost, grace, n) == After(s, passes, NoneLost(|passes|), grace, n)
  {
    hide AfterPass;
    if n > 0 {
      SameBeforeLoss(s, passes, lost, grace, n - 1);
    }
  }

  lemma {:induction false} RunGoesOn(passes: seq<Pass>, lost: seq<bool>, h: Digest, n: nat, p: nat)
    requires n <= p < |passes| == |lost| && forall i :: n <= i <= p ==> Missed(passes, h, i)
    requires forall i :: n < i <= p ==> !lost[i]
    ensures RunStart(passes, lost, h, p) == RunStart(passes, lost, h, n)
  {
    if n < p {
      RunGoesOn(passes, lost, h, n, p - 1);
    }
  }

  /** A loss before pass `q` gives the chunk a new stamp, by the run of misses that ends
      with pass `n`: it falls after the first of the run, or takes the stamp the chunk
      came with. */
  predicate Restamped(s: Shelf, passes: seq<Pass>, h: Digest, n: nat, q: nat)
    requires n < |passes|
  {
    var first := RunStart(passes, NoneLost(|passes|), h, n);
    q <= n && (first < q || (first == q == 0 && h in s.condemned))
  }

  /** The file lost before pass `q` alone, a chunk that pass `n` would have erased and
      that stays missed is erased up to pass `m` exactly when some pass from `n` on
      comes a grace after pass `q`. */
  lemma OneLossDelaysExactly(s: Shelf, passes: seq<Pass>, q: nat, grace: nat, h: Digest, n: nat, m: nat)
    requires n < m <= |passes| && Restamped(s, passes, h, n, q)
    requires NoHaste(Readings(StampOf(s, h), Clocks(passes)), h in s.condemned)
    requires var none := NoneLost(|passes|);
             h in After(s, passes, none, grace, n).disk && h !in After(s, passes, none, grace, n + 1).disk
    requires forall i :: n <= i < m ==> Missed(passes, h, i)
    ensures h !in After(s, passes, LostAt(|passes|, q), grace, m).disk
       <==> exists p :: n <= p < m && q < p && Elapsed(passes[p].now, passes[q].now) >= grace
  {
    hide After, RunStart, NoHaste, Readings, StampTime, Elapsed;
    var none, lost := NoneLost(|passes|), LostAt(|passes|, q);
    if h !in After(s, passes, lost, grace, m).disk {
      OnceErased(s, passes, none, grace, 0, n);
      NoPasses(s, passes, none, grace);
      NoPasses(s, passes, lost, grace);
      var p := ErasingPass(s, passes, lost, grace, h, m);
      if p < n {
        OnceErased(s, passes, none, grace, p + 1, n);
        LossOnlyDelays(s, passes, lost, grace, h, p + 1);
      }
      RestampedRun(s, passes, q, grace, h, n, p);
    }
    if p :| n <= p < m && q < p && Elapsed(passes[p].now, passes[q].now) >= grace {
      OnceErased(s, passes, lost, grace, p + 1, m);
      if h in After(s, passes, lost, grace, p).disk {
        RestampedRun(s, passes, q, grace, h, n, p);
      } else {
        OnceErased(s, passes, lost, grace, p, m);
      }
    }
  }

  lemma {:induction false} ErasingPass(s: Shelf, passes: seq<Pass>, lost: seq<bool>, grace: nat, h: Digest, m: nat)
    returns (p: nat)
    requires m <= |passes| == |lost|
    requires h in After(s, passes, lost, grace, 0).disk && h !in After(s, passes, lost, grace, m).disk
    ensures p < m && h in After(s, passes, lost, grace, p).disk && h !in After(s, passes, lost, grace, p + 1).disk
  {
    hide After;
    p := m - 1;
    if h !in After(s, passes, lost, grace, p).disk {
      p := ErasingPass(s, passes, lost, grace, h, p);
    }
  }

  /** With its new stamp a pass of the run erases the chunk when that has aged. */
  lemma RestampedRun(s: Shelf, passes: seq<Pass>, q: nat, grace: nat, h: Digest, n: nat, p: nat)
    requires n <= p < |passes| && Restamped(s, passes, h, n, q)
    requires forall i :: n <= i <= p ==> Missed(passes, h, i)
    requires h in After(s, passes, LostAt(|passes|, q), grace, p).disk
    ensures h !in After(s, passes, LostAt(|passes|, q), grace, p + 1).disk
       <==> q < p && Elapsed(passes[p].now, passes[q].now) >= grace
  {
    hide After;
    var lost := LostAt(|passes|, q);
    ErasedExactlyWhenAged(s, passes, lost, grace, h, p);
    RunGoesOn(passes, lost, h, n, p);
    OneLossRestarts(passes, q, h, n);
  }

  /** A loss that gives the chunk no new stamp delays nothing. */
  lemma OtherLossDelaysNothing(s: Shelf, passes: seq<Pass>, q: nat, grace: nat, h: Digest, n: nat)
    requires n < |passes| && !Restamped(s, passes, h, n, q)
    requires var none := NoneLost(|passes|);
             h in After(s, passes, none, grace, n).disk && h !in After(s, passes, none, grace, n + 1).disk
    ensures h !in After(s, passes, LostAt(|passes|, q), grace, n + 1).disk
  {
    hide After, RunStart;
    var none, lost := NoneLost(|passes|), LostAt(|passes|, q);
    ErasedExactlyWhenAged(s, passes, none, grace, h, n);
    if q > n {
      SameBeforeLoss(s, passes, lost, grace, n + 1);
    } else if h in After(s, passes, lost, grace, n).disk {
      ErasedExactlyWhenAged(s, passes, lost, grace, h, n);
      OneLossRestarts(passes, q, h, n);
    } else {
      OnceErased(s, passes, lost, grace, n, n + 1);
    }
  }

  lemma TickingNeverHastes(readings: seq<nat>, stamped: bool)
    requires Ticking(readings)
    ensures NoHaste(readings, stamped)
  {
  }

  /** The promise of at most one grace period, on a clock that never runs backwards:
      it is kept exactly when the loss gives no new stamp, or some pass falls between
      a grace after the loss and a grace after the pass that would have erased. */
  lemma WithinOneGraceExactly(s: Shelf, passes: seq<Pass>, q: nat, grace: nat, h: Digest, n: nat, m: nat)
    requires n < m <= |passes| && Ticking(Readings(StampOf(s, h), Clocks(passes)))
    requires var none := NoneLost(|passes|);
             h in After(s, passes, none, grace, n).disk && h !in After(s, passes, none, grace, n + 1).disk
    requires forall i :: n <= i < m ==> Missed(passes, h, i)
    ensures (exists p :: n <= p < m && passes[p].now <= passes[n].now + grace
                         && h !in After(s, passes, LostAt(|passes|, q), grace, p + 1).disk)
       <==> || !Restamped(s, passes, h, n, q)
            || exists p :: n <= p < m && q < p && passes[q].now + grace <= passes[p].now <= passes[n].now + grace
  {
    hide After, Readings, NoHaste, Restamped;
    var lost, readings := LostAt(|passes|, q), Readings(StampOf(s, h), Clocks(passes));
    TickingNeverHastes(readings, h in s.condemned);
    if !Restamped(s, passes, h, n, q) {
      OtherLossDelaysNothing(s, passes, q, grace, h, n);
      assert passes[n].now <= passes[n].now + grace;
    } else {
      if p :| n <= p < m && passes[p].now <= passes[n].now + grace && h !in After(s, passes, lost, grace, p + 1).disk {
        OneLossDelaysExactly(s, passes, q, grace, h, n, p + 1);
        var r :| n <= r < p + 1 && q < r && Elapsed(passes[r].now, passes[q].now) >= grace;
        PassReading(s, passes, h, q);
        PassReading(s, passes, h, r);
        PassReading(s, passes, h, p);
      }
      if p :| n <= p < m && q < p && passes[q].now + grace <= passes[p].now <= passes[n].now + grace {
        OneLossDelaysExactly(s, passes, q, grace, h, n, p + 1);
      }
    }
  }

  /** The run either starts where it did or at the loss. */
  lemma {:induction false} OneLossRestarts(passes: seq<Pass>, q: nat, h: Digest, n: nat)
    requires q <= n < |passes| && Missed(passes, h, n)
    ensures var first := RunStart(passes, NoneLost(|passes|), h, n);
            RunStart(passes, LostAt(|passes|, q), h, n) == if first < q then q else first
  {
    if n > q && Missed(passes, h, n - 1) {
      OneLossRestarts(passes, q, h, n - 1);
    }
  }

  // ---- two inputs ----

  lemma PassOverOne(h: Digest, stamps: map<Digest, nat>, now: nat, grace: nat)
    requires stamps.Keys <= {h}
    ensures AfterPass(Shelf({h}, stamps), Pass(now, {}), grace)
         == if Aged(stamps, h, now, grace) then Shelf({}, map[])
            else Shelf({h}, if h in stamps then stamps else map[h := now])
  {
    VisitingIsThePass(Shelf({h}, stamps), Pass(now, {}), grace, [h]);
    assert VisitEach(Shelf({h}, stamps), Pass(now, {}), grace, []) == Shelf({h}, stamps);
    assert {h} - {h} == {} && stamps - {h} == map[];
  }

  /** Stamped at 100, lost, stamped again at 50, the chunk is erased at 90 under a
      grace of 30, though its first stamp would have kept it. */
  lemma {:induction false} LossHastensOnBackwardClock(h: Digest)
    ensures var passes, s := [Pass(100, {}), Pass(50, {}), Pass(90, {})], Shelf({h}, map[]);
            && After(s, passes, NoneLost(3), 30, 3).disk == {h}
            && After(s, passes, [false, true, false], 30, 3).disk == {}
  {
    hide AfterPass;
    var passes, s := [Pass(100, {}), Pass(50, {}), Pass(90, {})], Shelf({h}, map[]);
    var lost := [false, true, false];
    PassOverOne(h, map[], 100, 30);
    PassOverOne(h, map[h := 100], 50, 30);
    PassOverOne(h, map[h := 100], 90, 30);
    PassOverOne(h, map[], 50, 30);
    PassOverOne(h, map[h := 50], 90, 30);
    assert After(s, passes, NoneLost(3), 30, 1) == Shelf({h}, map[h := 100]) == After(s, passes, lost, 30, 1);
    assert After(s, passes, NoneLost(3), 30, 2) == Shelf({h}, map[h := 100]);
    assert After(s, passes, lost, 30, 2) == Shelf({h}, map[h := 50]);
  }

  /** One loss and sparse passes delay by more than a grace: of a grace of 10, the
      chunk that would have gone at 10 goes at the next pass, however late. */
  lemma {:induction false} SparsePassesDelayLonger(h: Digest, late: nat)
    requires late >= 20
    ensures var passes, s := [Pass(0, {}), Pass(10, {}), Pass(late, {})], Shelf({h}, map[]);
            && After(s, passes, NoneLost(3), 10, 2).disk == {}
            && After(s, passes, [false, true, false], 10, 2).disk == {h}
            && After(s, passes, [false, true, false], 10, 3).disk == {}
  {
    hide AfterPass;
    var passes, s := [Pass(0, {}), Pass(10, {}), Pass(late, {})], Shelf({h}, map[]);
    var lost := [false, true, false];
    PassOverOne(h, map[], 0, 10);
    PassOverOne(h, map[h := 0], 10, 10);
    PassOverOne(h, map[], 10, 10);
    PassOverOne(h, map[h := 10], late, 10);
    assert After(s, passes, NoneLost(3), 10, 1) == Shelf({h}, map[h := 0]) == After(s, passes, lost, 10, 1);
    assert After(s, passes, lost, 10, 2) == Shelf({h}, map[h := 10]);
  }
}
