/** One page of a pot's objects, and following pages to the end
    (Engine::list_objects, crates/barme-engine/src/lib.rs). */
module Listing {
  import opened Bits
  import opened Common
  import opened Sorting

  /** What the pointer and manifest lookup of a listed key finds. `Gone` is a key
      deleted since the directory was read, `Dangling` a missing manifest. */
  datatype Lookup = Gone | Dangling | Found(size: nat, objectId: Bytes, createdAt: Bytes)

  datatype Entry = Entry(key: Bytes, size: nat, objectId: Bytes, createdAt: Bytes)

  datatype Page = Page(entries: seq<Entry>, commonPrefixes: seq<Bytes>, nextAfter: Option<Bytes>)

  datatype Query = Query(prefix: Bytes, delimiter: Bytes)

  // ---- searching ----

  predicate OccursAt(s: Bytes, d: Bytes, at: nat)
  {
    at + |d| <= |s| && s[at..at + |d|] == d
  }

  /** The first place `d` occurs in `s`. */
  function Find(s: Bytes, d: Bytes): (at: Option<nat>)
    ensures at.Some? ==> at.value + |d| <= |s|
  {
    if |s| < |d| then None
    else if s[..|d|] == d then Some(0)
    else if s == [] then None
    else
      match Find(s[1..], d)
      case None => None
      case Some(at) => Some(at + 1)
  }

  lemma {:induction false} FindIsFirst(s: Bytes, d: Bytes)
    ensures match Find(s, d)
            case None => forall j: nat :: !OccursAt(s, d, j)
            case Some(at) => OccursAt(s, d, at) && forall j: nat :: j < at ==> !OccursAt(s, d, j)
  {
    hide OccursAt;
    OccursAtStart(s, d);
    if |s| >= |d| && s[..|d|] != d && s != [] {
      FindIsFirst(s[1..], d);
      forall j: nat | j >= 1
        ensures OccursAt(s, d, j) <==> OccursAt(s[1..], d, j - 1)
      {
        OccursInTail(s, d, j - 1);
      }
    }
  }

  lemma OccursAtStart(s: Bytes, d: Bytes)
    ensures OccursAt(s, d, 0) <==> |d| <= |s| && s[..|d|] == d
    ensures |s| < |d| ==> forall j: nat :: !OccursAt(s, d, j)
  {
  }

  lemma OccursInTail(s: Bytes, d: Bytes, j: nat)
    requires s != []
    ensures OccursAt(s, d, j + 1) <==> OccursAt(s[1..], d, j)
  {
    if j + 1 + |d| <= |s| {
      assert s[j + 1..j + 1 + |d|] == s[1..][j..j + |d|];
    }
  }

  lemma OccursInPrefix(head: Bytes, s: Bytes, d: Bytes, j: nat)
    requires head <= s && j + |d| <= |head|
    ensures OccursAt(s, d, j) <==> OccursAt(head, d, j)
  {
    assert s[j..j + |d|] == head[j..j + |d|];
  }

  /** A first occurrence depends only on the text up to its end. */
  lemma FindOfExtension(s: Bytes, d: Bytes, t: Bytes)
    requires Find(s, d).Some? && s[..Find(s, d).value + |d|] <= t
    ensures Find(t, d) == Find(s, d)
  {
    hide OccursAt, Find;
    var at := Find(s, d).value;
    var head := s[..at + |d|];
    FindIsFirst(s, d);
    FindIsFirst(t, d);
    forall j: nat | j <= at
      ensures OccursAt(s, d, j) <==> OccursAt(t, d, j)
    {
      OccursInPrefix(head, s, d, j);
      OccursInPrefix(head, t, d, j);
    }
    FirstUnique(t, d, at);
  }

  lemma FirstUnique(t: Bytes, d: Bytes, at: nat)
    requires OccursAt(t, d, at) && forall j: nat :: j < at ==> !OccursAt(t, d, j)
    ensures Find(t, d) == Some(at)
  {
    hide OccursAt;
    FindIsFirst(t, d);
  }

  // ---- grouping ----

  /** The common prefix a key folds into, if the delimiter occurs past the prefix. */
  function Group(q: Query, key: Bytes): (g: Option<Bytes>)
    requires q.prefix <= key
    ensures g.Some? ==> q.prefix <= g.value <= key
  {
    if q.delimiter == [] then None
    else
      match Find(key[|q.prefix|..], q.delimiter)
      case None => None
      case Some(at) => Some(key[..|q.prefix| + at + |q.delimiter|])
  }

  /** Every key that starts with a group's text folds into that group. */
  lemma GroupOfExtension(q: Query, a: Bytes, b: Bytes)
    requires q.prefix <= a && q.prefix <= b
    requires Group(q, a).Some? && Group(q, a).value <= b
    ensures Group(q, b) == Group(q, a)
  {
    var n, g := |q.prefix|, Group(q, a).value;
    var s, t := a[n..], b[n..];
    FindOfExtension(s, q.delimiter, t) by {
      assert s[..Find(s, q.delimiter).value + |q.delimiter|] == g[n..];
      assert g[n..] == b[..|g|][n..] == t[..|g| - n];
    }
    assert b[..|g|] == g;
  }

  /** Keys of one group are contiguous in byte order. */
  lemma GroupsContiguous(q: Query, a: Bytes, b: Bytes, c: Bytes)
    requires q.prefix <= a && q.prefix <= b && q.prefix <= c
    requires Less(a, b) && Less(b, c) && Group(q, a).Some? && Group(q, a) == Group(q, c)
    ensures Group(q, b) == Group(q, a)
  {
    PrefixConvex(Group(q, a).value, a, b, c);
    GroupOfExtension(q, a, b);
  }

  /** Different groups are ordered as their keys are. */
  lemma GroupsOrdered(q: Query, a: Bytes, b: Bytes)
    requires q.prefix <= a && q.prefix <= b && Less(a, b)
    requires Group(q, a).Some? && Group(q, b).Some? && Group(q, a) != Group(q, b)
    ensures Less(Group(q, a).value, Group(q, b).value)
  {
    var g, h := Group(q, a).value, Group(q, b).value;
    if g <= h {
      GroupOfExtension(q, a, b);
    } else if h <= g {
      GroupOfExtension(q, b, a);
    } else {
      PrefixesDecide(g, h, a, b);
    }
  }

  // ---- one listing, as plain recursion over the sorted keys ----

  ghost predicate Prefixed(q: Query, ks: seq<Bytes>)
  {
    forall i :: 0 <= i < |ks| ==> q.prefix <= ks[i]
  }

  /** The keys listed as themselves. */
  function Plain(q: Query, ks: seq<Bytes>): (r: seq<Bytes>)
    requires Prefixed(q, ks)
    ensures |r| <= |ks|
  {
    if ks == [] then []
    else
      var n := |ks| - 1;
      Plain(q, ks[..n]) + if Group(q, ks[n]).None? then [ks[n]] else []
  }

  /** The common prefixes, one for each run of keys that fold together. */
  function Folders(q: Query, ks: seq<Bytes>): (r: seq<Bytes>)
    requires Prefixed(q, ks)
    ensures |r| <= |ks|
  {
    if ks == [] then []
    else
      var n := |ks| - 1;
      Fold(Folders(q, ks[..n]), Group(q, ks[n]))
  }

  /** A key's group joins the common prefixes unless it is the latest already. */
  function Fold(before: seq<Bytes>, group: Option<Bytes>): (r: seq<Bytes>)
    ensures |r| <= |before| + 1
  {
    match group
    case None => before
    case Some(g) => if before != [] && before[|before| - 1] == g then before else before + [g]
  }

  function Units(q: Query, ks: seq<Bytes>): nat
    requires Prefixed(q, ks)
  {
    |Plain(q, ks)| + |Folders(q, ks)|
  }

  /** How many keys a page of `max` units accounts for, from the `n`-th on. */
  function Reach(q: Query, ks: seq<Bytes>, max: nat, n: nat): (r: nat)
    requires Prefixed(q, ks) && n <= |ks|
    ensures n <= r <= |ks|
    decreases |ks| - n
  {
    if n == |ks| || Units(q, ks[..n + 1]) > max then n else Reach(q, ks, max, n + 1)
  }

  predicate Listed(q: Query, after: Option<Bytes>, k: Bytes)
  {
    q.prefix <= k && (after.Some? ==> Less(after.value, k))
  }

  function Matching(q: Query, keys: seq<Bytes>, after: Option<Bytes>): seq<Bytes>
  {
    if keys == [] then []
    else (if Listed(q, after, keys[0]) then [keys[0]] else []) + Matching(q, keys[1..], after)
  }

  lemma {:induction false} MatchingMembers(q: Query, keys: seq<Bytes>, after: Option<Bytes>)
    requires Distinct(keys)
    ensures forall k :: k in Matching(q, keys, after) <==> k in keys && Listed(q, after, k)
    ensures Distinct(Matching(q, keys, after))
  {
    hide Listed;
    if keys != [] {
      MatchingMembers(q, keys[1..], after);
      HeadAndTail(keys);
      assert keys[0] !in keys[1..];
      var rest := Matching(q, keys[1..], after);
      assert forall i :: 0 <= i < |rest| ==> rest[i] in rest;
    }
  }

  /** The sorted keys a page is cut from. */
  function Candidates(q: Query, keys: seq<Bytes>, after: Option<Bytes>): (ks: seq<Bytes>)
    requires Distinct(keys)
    ensures Prefixed(q, ks) && StrictlySorted(Less, ks)
  {
    CandidatesMembers(q, keys, after);
    Sort(Less, Matching(q, keys, after))
  }

  lemma CandidatesMembers(q: Query, keys: seq<Bytes>, after: Option<Bytes>)
    requires Distinct(keys)
    ensures var ks := Sort(Less, Matching(q, keys, after));
            && Prefixed(q, ks) && StrictlySorted(Less, ks)
            && (forall k :: k in ks <==> k in keys && Listed(q, after, k))
  {
    hide Less, Sort, Matching;
    LessIsStrictTotal();
    MatchingMembers(q, keys, after);
    SortDistinct(Less, Matching(q, keys, after));
    var ks := Sort(Less, Matching(q, keys, after));
    assert forall i :: 0 <= i < |ks| ==> ks[i] in ks;
  }

  /** Reading the heads of the selected keys: a vanished key is dropped, a
      missing manifest fails the whole page. */
  function Resolve(keys: seq<Bytes>, heads: Bytes -> Lookup): Option<seq<Entry>>
  {
    if keys == [] then Some([])
    else
      var n := |keys| - 1;
      match Resolve(keys[..n], heads)
      case None => None
      case Some(before) =>
        match heads(keys[n])
        case Gone => Some(before)
        case Dangling => None
        case Found(size, id, created) => Some(before + [Entry(keys[n], size, id, created)])
  }

  // ---- the page loop ----

  lemma NextKey(q: Query, ks: seq<Bytes>, i: nat)
    requires Prefixed(q, ks) && i < |ks|
    ensures Plain(q, ks[..i + 1]) == Plain(q, ks[..i]) + if Group(q, ks[i]).None? then [ks[i]] else []
    ensures Folders(q, ks[..i + 1]) == Fold(Folders(q, ks[..i]), Group(q, ks[i]))
  {
    assert ks[..i + 1][..i] == ks[..i];
  }

  /** The walk over the sorted keys, spending one unit of `max` on each entry or
      new common prefix. */
  method SelectPage(q: Query, keys: seq<Bytes>, max: nat)
    returns (selected: seq<Bytes>, commonPrefixes: seq<Bytes>, consumed: nat)
    requires Prefixed(q, keys)
    ensures consumed == Reach(q, keys, max, 0)
    ensures selected == Plain(q, keys[..consumed]) && commonPrefixes == Folders(q, keys[..consumed])
  {
    hide Group, Plain, Folders, Reach;
    PlainNone(q);
    assert keys[..0] == [];
    var units := 0;
    selected, commonPrefixes, consumed := [], [], 0;
    var lastGroup: Option<Bytes> := None;
    while consumed < |keys|
      invariant 0 <= consumed <= |keys|
      invariant selected == Plain(q, keys[..consumed]) && commonPrefixes == Folders(q, keys[..consumed])
      invariant units == Units(q, keys[..consumed]) <= max
      invariant lastGroup == if commonPrefixes == [] then None else Some(commonPrefixes[|commonPrefixes| - 1])
      invariant Reach(q, keys, max, 0) == Reach(q, keys, max, consumed)
    {
      var key := keys[consumed];
      NextKey(q, keys, consumed);
      ReachTurn(q, keys, max, consumed);
      match Group(q, key) {
        case Some(g) =>
          if lastGroup != Some(g) {
            if units == max {
              break;
            }
            commonPrefixes := commonPrefixes + [g];
            lastGroup := Some(g);
            units := units + 1;
          }
        case None =>
          if units == max {
            break;
          }
          selected := selected + [key];
          units := units + 1;
      }
      consumed := consumed + 1;
    }
    ReachTurn(q, keys, max, consumed);
  }

  lemma ReachTurn(q: Query, ks: seq<Bytes>, max: nat, n: nat)
    requires Prefixed(q, ks) && n <= |ks|
    ensures Reach(q, ks, max, n) ==
              if n == |ks| || Units(q, ks[..n + 1]) > max then n else Reach(q, ks, max, n + 1)
  {
  }

  /** `list_objects` over the directory's keys, in whatever order it lists them.
      `None` is the dangling-pointer error. */
  method ListObjects(q: Query, keys: seq<Bytes>, heads: Bytes -> Lookup, startAfter: Option<Bytes>, max: nat)
    returns (page: Option<Page>)
    requires Distinct(keys)
    ensures var ks := Candidates(q, keys, startAfter);
            var n := Reach(q, ks, max, 0);
            match Resolve(Plain(q, ks[..n]), heads)
            case None => page == None
            case Some(entries) =>
              page == Some(Page(entries, Folders(q, ks[..n]), if 0 < n < |ks| then Some(ks[n - 1]) else None))
    ensures page.Some? ==> IsPage(q, keys, heads, startAfter, max, page.value)
  {
    hide Group, Reach, Candidates, Plain, Folders, IsPage;
    var ks := Candidates(q, keys, startAfter);
    var selected, commonPrefixes, consumed := SelectPage(q, ks, max);
    var nextAfter: Option<Bytes> := None;
    if consumed < |ks| && consumed > 0 {
      nextAfter := Some(ks[consumed - 1]);
    }
    var entries: seq<Entry> := [];
    var i := 0;
    while i < |selected|
      invariant 0 <= i <= |selected|
      invariant Resolve(selected[..i], heads) == Some(entries)
    {
      assert selected[..i + 1][..i] == selected[..i];
      match heads(selected[i]) {
        case Gone =>
        case Dangling =>
          ResolveFails(selected, heads, i + 1);
          return None;
        case Found(size, objectId, createdAt) =>
          entries := entries + [Entry(selected[i], size, objectId, createdAt)];
      }
      i := i + 1;
    }
    assert selected[..i] == selected;
    page := Some(Page(entries, commonPrefixes, nextAfter));
    PageIsPage(q, keys, heads, startAfter, max, entries);
  }

  // ---- a page in plain terms ----

  /** The delimiter first occurs past the prefix at the end of `g`. */
  predicate FoldsInto(q: Query, key: Bytes, g: Bytes)
  {
    var d := q.delimiter;
    && d != [] && |q.prefix| + |d| <= |g| && g <= key && g[|g| - |d|..] == d
    && forall n: nat :: |q.prefix| <= n && n + |d| < |g| ==> !OccursAt(key, d, n)
  }

  ghost predicate StandsAlone(q: Query, key: Bytes)
  {
    forall g :: !FoldsInto(q, key, g)
  }

  /** A key the request asks for. */
  ghost predicate Asked(q: Query, keys: seq<Bytes>, after: Option<Bytes>, k: Bytes)
  {
    k in keys && q.prefix <= k && (after.Some? ==> Before(after.value, k))
  }

  /** The page reaches up to this key. */
  ghost predicate Covers(page: Page, k: Bytes)
  {
    page.nextAfter.Some? ==> k == page.nextAfter.value || Before(k, page.nextAfter.value)
  }

  function EntryKeys(entries: seq<Entry>): (ks: seq<Bytes>)
    ensures |ks| == |entries| && forall i :: 0 <= i < |ks| ==> ks[i] == entries[i].key
  {
    seq(|entries|, i requires 0 <= i < |entries| => entries[i].key)
  }

  /** Entries and common prefixes ascend in byte order; each entry is a key asked for
      that folds into nothing, with what its lookup found; each common prefix is one
      such a key folds into. A page that could hold something accounts for every key up
      to its continuation: by an entry, unless it is gone, or by a common prefix. The
      continuation is itself such a key, and there are more after it. */
  ghost predicate IsPage(
    q: Query, keys: seq<Bytes>, heads: Bytes -> Lookup, after: Option<Bytes>, max: nat, page: Page)
  {
    && Ascending(EntryKeys(page.entries)) && Ascending(page.commonPrefixes)
    && |page.entries| + |page.commonPrefixes| <= max
    && (forall e :: e in page.entries ==>
          && Asked(q, keys, after, e.key) && StandsAlone(q, e.key) && Covers(page, e.key)
          && heads(e.key) == Lookup.Found(e.size, e.objectId, e.createdAt))
    && (forall g :: g in page.commonPrefixes ==>
          exists k :: Asked(q, keys, after, k) && FoldsInto(q, k, g) && Covers(page, k))
    && (max > 0 ==> forall k :: Asked(q, keys, after, k) && Covers(page, k) ==>
          if StandsAlone(q, k) then heads(k).Gone? || k in EntryKeys(page.entries)
          else exists g :: FoldsInto(q, k, g) && g in page.commonPrefixes)
    && (page.nextAfter.Some? ==>
          && Asked(q, keys, after, page.nextAfter.value)
          && exists k :: Asked(q, keys, after, k) && Before(page.nextAfter.value, k))
  }

  lemma OccursPast(key: Bytes, n: nat, d: Bytes, j: nat)
    requires n <= |key|
    ensures OccursAt(key[n..], d, j) <==> OccursAt(key, d, n + j)
  {
    if n + j + |d| <= |key| {
      assert key[n..][j..j + |d|] == key[n + j..n + j + |d|];
    }
  }

  lemma GroupIsFold(q: Query, key: Bytes, g: Bytes)
    requires q.prefix <= key
    ensures FoldsInto(q, key, g) <==> Group(q, key) == Some(g)
  {
    hide Find, OccursAt;
    var n, d := |q.prefix|, q.delimiter;
    FindIsFirst(key[n..], d);
    if FoldsInto(q, key, g) {
      var at := |g| - n - |d|;
      EndsWith(key, g, d);
      forall j: nat | j <= at
        ensures OccursAt(key[n..], d, j) <==> j == at
      {
        OccursPast(key, n, d, j);
      }
      FirstUnique(key[n..], d, at);
      assert g == key[..|g|];
    }
    if Group(q, key) == Some(g) {
      var at := Find(key[n..], d).value;
      OccursPast(key, n, d, at);
      EndsWith(key, g, d);
      forall m: nat | n <= m && m + |d| < |g|
        ensures !OccursAt(key, d, m)
      {
        OccursPast(key, n, d, m - n);
      }
    }
  }

  lemma EndsWith(key: Bytes, g: Bytes, d: Bytes)
    requires g <= key && |d| <= |g|
    ensures OccursAt(key, d, |g| - |d|) <==> g[|g| - |d|..] == d
  {
    assert key[|g| - |d|..|g|] == g[|g| - |d|..];
  }

  lemma {:induction false} ResolvedEntries(keys: seq<Bytes>, heads: Bytes -> Lookup)
    requires Resolve(keys, heads).Some?
    ensures var entries := Resolve(keys, heads).value;
            && |entries| <= |keys|
            && (forall e :: e in entries ==>
                  e.key in keys && heads(e.key) == Lookup.Found(e.size, e.objectId, e.createdAt))
            && (forall k :: k in keys ==> heads(k).Gone? || k in EntryKeys(entries))
            && (StrictlySorted(Less, keys) ==> StrictlySorted(Less, EntryKeys(entries)))
  {
    hide Less;
    if keys != [] {
      var n := |keys| - 1;
      ResolvedEntries(keys[..n], heads);
      LastAndRest(keys);
      var before, entries := Resolve(keys[..n], heads).value, Resolve(keys, heads).value;
      if heads(keys[n]).Found? {
        var last := entries[|before|];
        assert entries == before + [last];
        assert EntryKeys(entries) == EntryKeys(before) + [last.key];
        forall i | 0 <= i < |before|
          ensures StrictlySorted(Less, keys) ==> Less(before[i].key, keys[n])
        {
          assert before[i] in before && before[i].key in keys[..n];
        }
      }
    }
  }

  lemma AskedIsCandidate(q: Query, keys: seq<Bytes>, after: Option<Bytes>, k: Bytes)
    requires Distinct(keys)
    ensures k in Candidates(q, keys, after) <==> Asked(q, keys, after, k)
  {
    hide Less, Before, Sort, Matching;
    CandidatesMembers(q, keys, after);
    if after.Some? {
      LessIsBefore(after.value, k);
    }
  }

  /** The keys a page covers are those it reached. */
  lemma CoveredIsReached(ks: seq<Bytes>, n: nat, k: Bytes)
    requires StrictlySorted(Less, ks) && 0 < n <= |ks| && k in ks
    ensures k in ks[..n] <==> k == ks[n - 1] || Before(k, ks[n - 1])
  {
    hide Less, Before;
    LessIsStrictTotal();
    LessIsBefore(k, ks[n - 1]);
    var i :| 0 <= i < |ks| && ks[i] == k;
    if i < n {
      assert ks[..n][i] == k;
    } else {
      assert Less(ks[n - 1], k);
    }
  }

  lemma AloneIsUngrouped(q: Query, k: Bytes)
    requires q.prefix <= k
    ensures StandsAlone(q, k) <==> Group(q, k).None?
  {
    hide FoldsInto, Group;
    forall g
      ensures FoldsInto(q, k, g) <==> Group(q, k) == Some(g)
    {
      GroupIsFold(q, k, g);
    }
  }

  lemma PageIsPage(
    q: Query, keys: seq<Bytes>, heads: Bytes -> Lookup, after: Option<Bytes>, max: nat, entries: seq<Entry>)
    requires Distinct(keys)
    requires var ks := Candidates(q, keys, after);
             Resolve(Plain(q, ks[..Reach(q, ks, max, 0)]), heads) == Some(entries)
    ensures var ks := Candidates(q, keys, after);
            var n := Reach(q, ks, max, 0);
            IsPage(q, keys, heads, after, max,
                   Page(entries, Folders(q, ks[..n]), if 0 < n < |ks| then Some(ks[n - 1]) else None))
  {
    hide Candidates, Reach, Plain, Folders, Resolve, Group, StrictlySorted, IsPage;
    var ks := Candidates(q, keys, after);
    NothingYet(q, ks);
    ReachFills(q, ks, max, 0);
    WindowIsPage(q, keys, heads, after, max, entries, Reach(q, ks, max, 0));
  }

  /** All pages together are one page that covers everything. */
  lemma WholeIsPage(q: Query, keys: seq<Bytes>, heads: Bytes -> Lookup, entries: seq<Entry>)
    requires Distinct(keys) && Resolve(Plain(q, Candidates(q, keys, None)), heads) == Some(entries)
    ensures var ks := Candidates(q, keys, None);
            IsPage(q, keys, heads, None, Units(q, ks) + 1, Page(entries, Folders(q, ks), None))
  {
    hide Candidates, Plain, Folders, Resolve, Group, StrictlySorted, IsPage;
    var ks := Candidates(q, keys, None);
    assert ks[..|ks|] == ks;
    WindowIsPage(q, keys, heads, None, Units(q, ks) + 1, entries, |ks|);
  }

  lemma WindowIsPage(
    q: Query, keys: seq<Bytes>, heads: Bytes -> Lookup, after: Option<Bytes>, max: nat, entries: seq<Entry>, n: nat)
    requires Distinct(keys) && n <= |Candidates(q, keys, after)|
    requires var ks := Candidates(q, keys, after);
             && Resolve(Plain(q, ks[..n]), heads) == Some(entries)
             && Units(q, ks[..n]) <= max && (n == 0 && |ks| > 0 ==> max == 0)
    ensures var ks := Candidates(q, keys, after);
            IsPage(q, keys, heads, after, max,
                   Page(entries, Folders(q, ks[..n]), if 0 < n < |ks| then Some(ks[n - 1]) else None))
  {
    hide Candidates, Reach, Plain, Folders, Less, Before, Resolve, Group, StrictlySorted, FoldsInto, StandsAlone, Asked;
    var ks := Candidates(q, keys, after);
    var page := Page(entries, Folders(q, ks[..n]), if 0 < n < |ks| then Some(ks[n - 1]) else None);
    PageOrder(q, ks, n, heads, entries);
    forall k
      ensures Asked(q, keys, after, k) <==> k in ks
    {
      AskedIsCandidate(q, keys, after, k);
    }
    forall k | k in ks[..n]
      ensures Covers(page, k)
    {
      if 0 < n < |ks| {
        CoveredIsReached(ks, n, k);
      }
    }
    PageSources(q, ks, n, heads, page);
    if max > 0 {
      forall k | k in ks && Covers(page, k)
        ensures k in ks[..n]
      {
        if n < |ks| {
          CoveredIsReached(ks, n, k);
        } else {
          assert ks[..n] == ks;
        }
      }
      PageCovers(q, ks, n, heads, page);
    }
    if 0 < n < |ks| {
      NextAscends(ks, n);
    }
  }

  lemma NextAscends(ks: seq<Bytes>, n: nat)
    requires StrictlySorted(Less, ks) && 0 < n < |ks|
    ensures ks[n - 1] in ks && ks[n] in ks && Before(ks[n - 1], ks[n])
  {
    LessIsBefore(ks[n - 1], ks[n]);
  }

  lemma PageOrder(q: Query, ks: seq<Bytes>, n: nat, heads: Bytes -> Lookup, entries: seq<Entry>)
    requires Prefixed(q, ks) && StrictlySorted(Less, ks) && n <= |ks|
    requires Resolve(Plain(q, ks[..n]), heads) == Some(entries)
    ensures Ascending(EntryKeys(entries)) && Ascending(Folders(q, ks[..n]))
    ensures |entries| + |Folders(q, ks[..n])| <= Units(q, ks[..n])
  {
    hide Less, Before, Resolve, Plain, Folders;
    PlainMembers(q, ks[..n]);
    FoldersSorted(q, ks[..n]);
    ResolvedEntries(Plain(q, ks[..n]), heads);
    SortedAscends(EntryKeys(entries));
    SortedAscends(Folders(q, ks[..n]));
  }

  lemma PageSources(q: Query, ks: seq<Bytes>, n: nat, heads: Bytes -> Lookup, page: Page)
    requires Prefixed(q, ks) && StrictlySorted(Less, ks) && n <= |ks|
    requires Resolve(Plain(q, ks[..n]), heads) == Some(page.entries) && page.commonPrefixes == Folders(q, ks[..n])
    ensures forall e :: e in page.entries ==>
              && e.key in ks[..n] && e.key in ks && StandsAlone(q, e.key)
              && heads(e.key) == Lookup.Found(e.size, e.objectId, e.createdAt)
    ensures forall g :: g in page.commonPrefixes ==> exists k :: k in ks[..n] && k in ks && FoldsInto(q, k, g)
  {
    hide Less, Resolve, Plain, Folders, FoldsInto, StandsAlone, Group;
    PlainMembers(q, ks[..n]);
    ResolvedEntries(Plain(q, ks[..n]), heads);
    forall e | e in page.entries
      ensures StandsAlone(q, e.key)
    {
      AloneIsUngrouped(q, e.key);
    }
    forall g | g in page.commonPrefixes
      ensures exists k :: k in ks[..n] && k in ks && FoldsInto(q, k, g)
    {
      var i :| 0 <= i < |page.commonPrefixes| && page.commonPrefixes[i] == g;
      var p := FolderHasKey(q, ks[..n], i);
      GroupIsFold(q, ks[p], g);
      assert ks[..n][p] == ks[p];
    }
  }

  lemma PageCovers(q: Query, ks: seq<Bytes>, n: nat, heads: Bytes -> Lookup, page: Page)
    requires Prefixed(q, ks) && StrictlySorted(Less, ks) && n <= |ks|
    requires Resolve(Plain(q, ks[..n]), heads) == Some(page.entries) && page.commonPrefixes == Folders(q, ks[..n])
    ensures forall k :: k in ks[..n] ==>
              if StandsAlone(q, k) then heads(k).Gone? || k in EntryKeys(page.entries)
              else exists g :: FoldsInto(q, k, g) && g in page.commonPrefixes
  {
    hide Less, Resolve, Plain, Folders, FoldsInto, StandsAlone, Group;
    PlainMembers(q, ks[..n]);
    FoldersSorted(q, ks[..n]);
    ResolvedEntries(Plain(q, ks[..n]), heads);
    forall k | k in ks[..n]
      ensures if StandsAlone(q, k) then heads(k).Gone? || k in EntryKeys(page.entries)
              else exists g :: FoldsInto(q, k, g) && g in page.commonPrefixes
    {
      AloneIsUngrouped(q, k);
      if Group(q, k).Some? {
        GroupIsFold(q, k, Group(q, k).value);
      }
    }
  }

  lemma {:induction false} ResolveFails(keys: seq<Bytes>, heads: Bytes -> Lookup, n: nat)
    requires n <= |keys| && Resolve(keys[..n], heads) == None
    ensures Resolve(keys, heads) == None
    decreases |keys|
  {
    if n == |keys| {
      assert keys[..n] == keys;
    } else {
      assert keys[..|keys| - 1][..n] == keys[..n];
      ResolveFails(keys[..|keys| - 1], heads, n);
    }
  }

  // ---- the one-shot listing ----

  /** All at once: the matching keys that fold into nothing and the common
      prefixes of the rest, each exactly once and in byte order. */
  ghost predicate Everything(q: Query, keys: seq<Bytes>, plain: seq<Bytes>, folders: seq<Bytes>)
  {
    && StrictlySorted(Less, plain) && StrictlySorted(Less, folders)
    && (forall k :: k in plain <==> k in keys && q.prefix <= k && Group(q, k).None?)
    && (forall g :: g in folders <==> exists k :: k in keys && q.prefix <= k && Group(q, k) == Some(g))
  }

  lemma {:induction false} PlainMembers(q: Query, ks: seq<Bytes>)
    requires Prefixed(q, ks) && StrictlySorted(Less, ks)
    ensures StrictlySorted(Less, Plain(q, ks))
    ensures forall k :: k in Plain(q, ks) <==> k in ks && q.prefix <= k && Group(q, k).None?
  {
    hide Group, Less;
    if ks != [] {
      var n := |ks| - 1;
      PlainMembers(q, ks[..n]);
      LastAndRest(ks);
      var before := Plain(q, ks[..n]);
      forall i | 0 <= i < |before|
        ensures Less(before[i], ks[n])
      {
        assert before[i] in ks[..n];
      }
    }
  }

  lemma LastAndRest<T>(s: seq<T>)
    requires s != []
    ensures forall x :: x in s <==> x in s[..|s| - 1] || x == s[|s| - 1]
  {
    assert s == s[..|s| - 1] + [s[|s| - 1]];
  }

  /** The last common prefix so far is the group of some key so far. */
  lemma {:induction false} FolderHasKey(q: Query, ks: seq<Bytes>, i: nat) returns (p: nat)
    requires Prefixed(q, ks) && i < |Folders(q, ks)|
    ensures p < |ks| && Group(q, ks[p]) == Some(Folders(q, ks)[i])
  {
    hide Group;
    var n := |ks| - 1;
    if i < |Folders(q, ks[..n])| {
      p := FolderHasKey(q, ks[..n], i);
    } else {
      p := n;
    }
  }

  lemma {:induction false} FoldersSorted(q: Query, ks: seq<Bytes>)
    requires Prefixed(q, ks) && StrictlySorted(Less, ks)
    ensures StrictlySorted(Less, Folders(q, ks))
    ensures forall i :: 0 <= i < |ks| && Group(q, ks[i]).Some? ==> Group(q, ks[i]).value in Folders(q, ks)
  {
    hide Group, Less;
    if ks != [] {
      var n := |ks| - 1;
      FoldersSorted(q, ks[..n]);
      var before := Folders(q, ks[..n]);
      assert forall i :: 0 <= i < n ==> ks[..n][i] == ks[i];
      if Folders(q, ks) != before {
        forall i | 0 <= i < |before|
          ensures Less(before[i], Group(q, ks[n]).value)
        {
          NewFolderIsLarger(q, ks, i);
        }
      }
    }
  }

  lemma NewFolderIsLarger(q: Query, ks: seq<Bytes>, i: nat)
    requires Prefixed(q, ks) && StrictlySorted(Less, ks) && ks != []
    requires var before := Folders(q, ks[..|ks| - 1]);
             && i < |before| && StrictlySorted(Less, before) && Folders(q, ks) != before
    ensures Group(q, ks[|ks| - 1]).Some?
    ensures Less(Folders(q, ks[..|ks| - 1])[i], Group(q, ks[|ks| - 1]).value)
  {
    hide Group, Less;
    var n := |ks| - 1;
    var before := Folders(q, ks[..n]);
    var last := |before| - 1;
    var p := FolderHasKey(q, ks[..n], last);
    GroupsOrdered(q, ks[p], ks[n]);
    if i < last {
      LessTransitive(before[i], before[last], Group(q, ks[n]).value);
    }
  }

  lemma CandidatesAreEverything(q: Query, keys: seq<Bytes>)
    requires Distinct(keys)
    ensures var ks := Candidates(q, keys, None);
            Everything(q, keys, Plain(q, ks), Folders(q, ks))
  {
    hide Group, Less, Plain, Folders, Sort, Matching;
    var ks := Candidates(q, keys, None);
    CandidatesMembers(q, keys, None);
    PlainMembers(q, ks);
    FoldersSorted(q, ks);
    forall g
      ensures g in Folders(q, ks) <==> exists k :: k in keys && q.prefix <= k && Group(q, k) == Some(g)
    {
      if g in Folders(q, ks) {
        var i :| 0 <= i < |Folders(q, ks)| && Folders(q, ks)[i] == g;
        var p := FolderHasKey(q, ks, i);
        assert ks[p] in keys;
      }
      if k :| k in keys && q.prefix <= k && Group(q, k) == Some(g) {
        assert k in ks;
      }
    }
  }

  /** Only one pair of lists is the one-shot listing. */
  lemma EverythingUnique(q: Query, keys: seq<Bytes>, p1: seq<Bytes>, f1: seq<Bytes>, p2: seq<Bytes>, f2: seq<Bytes>)
    requires Everything(q, keys, p1, f1) && Everything(q, keys, p2, f2)
    ensures p1 == p2 && f1 == f2
  {
    hide Group, Less;
    LessIsStrictTotal();
    StrictlySortedUnique(Less, p1, p2);
    StrictlySortedUnique(Less, f1, f2);
  }

  // ---- following pages ----

  lemma {:induction false} ReachFills(q: Query, ks: seq<Bytes>, max: nat, n: nat)
    requires Prefixed(q, ks) && n <= |ks| && Units(q, ks[..n]) <= max
    ensures var r := Reach(q, ks, max, n);
            && Units(q, ks[..r]) <= max
            && (r < |ks| ==> Units(q, ks[..r]) == max && Units(q, ks[..r + 1]) == max + 1)
            && (max >= 1 && n < |ks| && n == 0 ==> r >= 1)
    decreases |ks| - n
  {
    hide Group, Plain, Folders;
    if n < |ks| {
      NextKey(q, ks, n);
      if Units(q, ks[..n + 1]) <= max {
        ReachFills(q, ks, max, n + 1);
      } else if n == 0 {
        NothingYet(q, ks);
      }
    }
  }

  lemma NothingYet(q: Query, ks: seq<Bytes>)
    requires Prefixed(q, ks)
    ensures Units(q, ks[..0]) == 0
  {
  }

  lemma {:induction false} PlainConcat(q: Query, a: seq<Bytes>, b: seq<Bytes>)
    requires Prefixed(q, a) && Prefixed(q, b)
    ensures Prefixed(q, a + b) && Plain(q, a + b) == Plain(q, a) + Plain(q, b)
  {
    hide Group, Plain;
    if b == [] {
      assert a + b == a;
      PlainNone(q);
    } else {
      var n := |b| - 1;
      PlainConcat(q, a, b[..n]);
      SplitLast(a, b);
      NextKey(q, a + b, |a| + n);
      NextKey(q, b, n);
      Regroup(Plain(q, a), Plain(q, b[..n]), if Group(q, b[n]).None? then [b[n]] else []);
    }
  }

  lemma PlainNone(q: Query)
    ensures Plain(q, []) == [] && Folders(q, []) == []
  {
  }

  lemma SplitLast<T>(a: seq<T>, b: seq<T>)
    requires b != []
    ensures (a + b)[..|a| + |b| - 1] == a + b[..|b| - 1]
    ensures (a + b)[..|a| + |b|] == a + b && b[..|b|] == b
  {
  }

  /** Common prefixes of consecutive stretches add up unless a group straddles
      the cut. */
  lemma FoldConcat(x: seq<Bytes>, y: seq<Bytes>, group: Option<Bytes>)
    requires x != [] ==> group != Some(x[|x| - 1])
    ensures Fold(x + y, group) == x + Fold(y, group)
  {
  }

  lemma {:induction false} FoldersConcat(q: Query, a: seq<Bytes>, b: seq<Bytes>)
    requires Prefixed(q, a) && Prefixed(q, b)
    requires var f := Folders(q, a);
             f != [] ==> forall i :: 0 <= i < |b| ==> Group(q, b[i]) != Some(f[|f| - 1])
    ensures Prefixed(q, a + b) && Folders(q, a + b) == Folders(q, a) + Folders(q, b)
  {
    hide Group, Folders, Fold;
    if b == [] {
      assert a + b == a;
      PlainNone(q);
    } else {
      var n := |b| - 1;
      FoldersConcat(q, a, b[..n]);
      SplitLast(a, b);
      NextKey(q, a + b, |a| + n);
      NextKey(q, b, n);
      FoldConcat(Folders(q, a), Folders(q, b[..n]), Group(q, b[n]));
    }
  }

  /** A full page never ends inside a group: no later key folds into its last
      common prefix. */
  lemma PageEndsOffGroup(q: Query, ks: seq<Bytes>, n: nat, i: nat)
    requires Prefixed(q, ks) && StrictlySorted(Less, ks) && n <= i < |ks|
    requires Units(q, ks[..n + 1]) == Units(q, ks[..n]) + 1
    ensures var f := Folders(q, ks[..n]); f != [] ==> Group(q, ks[i]) != Some(f[|f| - 1])
  {
    hide Group, Less;
    var f := Folders(q, ks[..n]);
    NextKey(q, ks, n);
    if f != [] && Group(q, ks[i]) == Some(f[|f| - 1]) {
      var p := FolderHasKey(q, ks[..n], |f| - 1);
      if n < i {
        GroupsContiguous(q, ks[p], ks[n], ks[i]);
      }
      assert false;
    }
  }

  /** What one page shows of the sorted keys. */
  datatype Window = Window(plain: seq<Bytes>, folders: seq<Bytes>)

  function FirstPage(q: Query, ks: seq<Bytes>, max: nat): Window
    requires Prefixed(q, ks)
  {
    var n := Reach(q, ks, max, 0);
    Window(Plain(q, ks[..n]), Folders(q, ks[..n]))
  }

  function Pages(q: Query, ks: seq<Bytes>, max: nat): seq<Window>
    requires Prefixed(q, ks) && max >= 1
    decreases |ks|
  {
    var n := Reach(q, ks, max, 0);
    NothingYet(q, ks);
    ReachFills(q, ks, max, 0);
    [FirstPage(q, ks, max)] + if n < |ks| then Pages(q, ks[n..], max) else []
  }

  function Flatten(pages: seq<Window>): Window
  {
    if pages == [] then Window([], [])
    else
      var rest := Flatten(pages[1..]);
      Window(pages[0].plain + rest.plain, pages[0].folders + rest.folders)
  }

  function Size(w: Window): nat
  {
    |w.plain| + |w.folders|
  }

  /** Pages concatenate to the one-shot listing; all but the last are full, and
      the last is not empty unless there is nothing to list. */
  lemma {:induction false} PagesAddUp(q: Query, ks: seq<Bytes>, max: nat)
    requires Prefixed(q, ks) && StrictlySorted(Less, ks) && max >= 1
    ensures var pages := Pages(q, ks, max);
            && |pages| >= 1
            && Flatten(pages) == Window(Plain(q, ks), Folders(q, ks))
            && (forall i :: 0 <= i < |pages| - 1 ==> Size(pages[i]) == max)
            && (ks == [] ==> Size(pages[0]) == 0)
            && (ks != [] ==> 1 <= Size(pages[|pages| - 1]) <= max)
    decreases |ks|
  {
    hide Group, Less, Plain, Folders, Reach, Flatten;
    NothingYet(q, ks);
    ReachFills(q, ks, max, 0);
    PageAndRest(q, ks, max);
    var n, pages := Reach(q, ks, max, 0), Pages(q, ks, max);
    if n < |ks| {
      PagesAddUp(q, ks[n..], max);
      CutAddsUp(q, ks, n);
      assert pages == [FirstPage(q, ks, max)] + Pages(q, ks[n..], max);
    } else {
      assert ks[..n] == ks;
      if ks != [] {
        FirstKeyCounts(q, ks);
      }
    }
  }

  lemma CutAddsUp(q: Query, ks: seq<Bytes>, n: nat)
    requires Prefixed(q, ks) && StrictlySorted(Less, ks) && n < |ks|
    requires Units(q, ks[..n + 1]) == Units(q, ks[..n]) + 1
    ensures Plain(q, ks) == Plain(q, ks[..n]) + Plain(q, ks[n..])
    ensures Folders(q, ks) == Folders(q, ks[..n]) + Folders(q, ks[n..])
  {
    hide Group, Less, Plain, Folders;
    assert ks == ks[..n] + ks[n..];
    PlainConcat(q, ks[..n], ks[n..]);
    forall i | 0 <= i < |ks[n..]|
      ensures var f := Folders(q, ks[..n]); f != [] ==> Group(q, ks[n..][i]) != Some(f[|f| - 1])
    {
      PageEndsOffGroup(q, ks, n, n + i);
    }
    FoldersConcat(q, ks[..n], ks[n..]);
  }

  lemma {:induction false} FirstKeyCounts(q: Query, ks: seq<Bytes>)
    requires Prefixed(q, ks) && ks != []
    ensures Units(q, ks) >= 1
  {
    hide Group;
    var n := |ks| - 1;
    if n > 0 {
      FirstKeyCounts(q, ks[..n]);
    }
  }

  /** Hence the number of pages: the units over `max`, rounded up, and one page
      for an empty listing. */
  lemma {:induction false} PageCount(pages: seq<Window>, max: nat)
    requires |pages| >= 1 && max >= 1
    requires forall i :: 0 <= i < |pages| - 1 ==> Size(pages[i]) == max
    ensures Size(Flatten(pages)) == (|pages| - 1) * max + Size(pages[|pages| - 1])
  {
    if |pages| > 1 {
      PageCount(pages[1..], max);
      assert (|pages| - 1) * max == (|pages| - 2) * max + max;
    }
  }

  /** As many pages as it takes to hold the units, and one for none. */
  lemma PagesAreCeiling(q: Query, ks: seq<Bytes>, max: nat)
    requires Prefixed(q, ks) && StrictlySorted(Less, ks) && max >= 1
    ensures var units, pages := |Plain(q, ks)| + |Folders(q, ks)|, |Pages(q, ks, max)|;
            if ks == [] then units == 0 && pages == 1 else (pages - 1) * max < units <= pages * max
  {
    hide Group, Less, Plain, Folders, Reach, Flatten, Pages;
    PagesAddUp(q, ks, max);
    var pages := Pages(q, ks, max);
    PageCount(pages, max);
    assert |pages| * max == (|pages| - 1) * max + max;
  }

  /** Asking for what follows the last key of a page gives the rest of the keys. */
  lemma ResumeAfter(q: Query, keys: seq<Bytes>, after: Option<Bytes>, n: nat)
    requires Distinct(keys) && 1 <= n <= |Candidates(q, keys, after)|
    ensures var ks := Candidates(q, keys, after);
            Candidates(q, keys, Some(ks[n - 1])) == ks[n..]
  {
    hide Sort, Matching, Less;
    LessIsStrictTotal();
    var ks := Candidates(q, keys, after);
    var next := Candidates(q, keys, Some(ks[n - 1]));
    CandidatesMembers(q, keys, after);
    CandidatesMembers(q, keys, Some(ks[n - 1]));
    assert ks[n - 1] in ks;
    forall k
      ensures k in next <==> k in ks[n..]
    {
      LaterKeys(ks, n, k);
      if k in next && after.Some? {
        LessTransitive(after.value, ks[n - 1], k);
      }
    }
    StrictlySortedUnique(Less, next, ks[n..]);
  }

  lemma LaterKeys(ks: seq<Bytes>, n: nat, k: Bytes)
    requires StrictlySorted(Less, ks) && 1 <= n <= |ks|
    ensures k in ks[n..] <==> k in ks && Less(ks[n - 1], k)
  {
    hide Less;
    LessIsStrictTotal();
    if k in ks && Less(ks[n - 1], k) {
      var i :| 0 <= i < |ks| && ks[i] == k;
      if i >= n {
        assert ks[n..][i - n] == k;
      }
    }
  }

  lemma {:induction false} ResolveConcat(a: seq<Bytes>, b: seq<Bytes>, heads: Bytes -> Lookup)
    ensures Resolve(a + b, heads) ==
              if Resolve(a, heads).None? || Resolve(b, heads).None? then None
              else Some(Resolve(a, heads).value + Resolve(b, heads).value)
  {
    if b == [] {
      assert a + b == a;
      if Resolve(a, heads).Some? {
        assert Resolve(a, heads).value + [] == Resolve(a, heads).value;
      }
    } else {
      var n := |b| - 1;
      ResolveConcat(a, b[..n], heads);
      assert (a + b)[..|a| + n] == a + b[..n];
      if Resolve(a, heads).Some? && Resolve(b, heads).Some? {
        var head, tail := Resolve(a, heads).value, Resolve(b[..n], heads).value;
        match heads(b[n]) {
          case Gone =>
          case Dangling =>
          case Found(size, id, created) =>
            var last := Entry(b[n], size, id, created);
            assert head + (tail + [last]) == head + tail + [last];
        }
      }
    }
  }

  /** Following pages from `ks`: this page, then those of the keys past it. */
  lemma PageAndRest(q: Query, ks: seq<Bytes>, max: nat)
    requires Prefixed(q, ks) && max >= 1
    ensures var n, all, first := Reach(q, ks, max, 0), Flatten(Pages(q, ks, max)), FirstPage(q, ks, max);
            if n < |ks| then
              && n >= 1
              && all.plain == first.plain + Flatten(Pages(q, ks[n..], max)).plain
              && all.folders == first.folders + Flatten(Pages(q, ks[n..], max)).folders
              && |Pages(q, ks, max)| == 1 + |Pages(q, ks[n..], max)|
            else all == first && |Pages(q, ks, max)| == 1
  {
    hide FirstPage, Reach;
    NothingYet(q, ks);
    ReachFills(q, ks, max, 0);
    var n, pages := Reach(q, ks, max, 0), Pages(q, ks, max);
    assert pages[1..] == if n < |ks| then Pages(q, ks[n..], max) else [];
  }

  /** Where a client stands that has shown `plain`, `folders` and `pages`
      pages of `all`, with the keys of `rest` still to come. */
  ghost predicate Midway(q: Query, all: seq<Bytes>, rest: seq<Bytes>, max: nat, plain: seq<Bytes>,
                         folders: seq<Bytes>, pages: nat)
    requires Prefixed(q, all) && Prefixed(q, rest) && max >= 1
  {
    var coming := Pages(q, rest, max);
    && plain + Flatten(coming).plain == Plain(q, all)
    && folders + Flatten(coming).folders == Folders(q, all)
    && pages + |coming| == |Pages(q, all, max)|
  }

  lemma OnePageOn(q: Query, all: seq<Bytes>, rest: seq<Bytes>, max: nat, plain: seq<Bytes>,
                  folders: seq<Bytes>, pages: nat)
    requires Prefixed(q, all) && Prefixed(q, rest) && max >= 1
    requires Midway(q, all, rest, max, plain, folders, pages)
    ensures plain + FirstPage(q, rest, max).plain <= Plain(q, all)
    ensures var n, page := Reach(q, rest, max, 0), FirstPage(q, rest, max);
            if n < |rest|
            then n >= 1 && Midway(q, all, rest[n..], max, plain + page.plain, folders + page.folders, pages + 1)
            else plain + page.plain == Plain(q, all) && folders + page.folders == Folders(q, all)
                 && pages + 1 == |Pages(q, all, max)|
  {
    hide Pages, Flatten, Plain, Folders, Reach, FirstPage;
    PageAndRest(q, rest, max);
    var n, page := Reach(q, rest, max, 0), FirstPage(q, rest, max);
    if n < |rest| {
      var coming := Flatten(Pages(q, rest[n..], max));
      Regroup(plain, page.plain, coming.plain);
      Regroup(folders, page.folders, coming.folders);
    }
  }

  lemma ResolvePrefix(a: seq<Bytes>, b: seq<Bytes>, heads: Bytes -> Lookup)
    requires a <= b && Resolve(a, heads) == None
    ensures Resolve(b, heads) == None
  {
    hide Resolve;
    assert b == a + b[|a|..];
    ResolveConcat(a, b[|a|..], heads);
  }

  /** A client that feeds each page's `next_after` back until there is none. */
  method FollowPages(q: Query, keys: seq<Bytes>, heads: Bytes -> Lookup, max: nat)
    returns (entries: seq<Entry>, commonPrefixes: seq<Bytes>, pages: nat, ok: bool)
    requires Distinct(keys) && max >= 1
    ensures var ks := Candidates(q, keys, None);
            && ok == Resolve(Plain(q, ks), heads).Some?
            && (ok ==> Resolve(Plain(q, ks), heads) == Some(entries) && commonPrefixes == Folders(q, ks)
                       && pages == |Pages(q, ks, max)|)
    ensures ok ==> exists units :: units > 0 && IsPage(q, keys, heads, None, units, Page(entries, commonPrefixes, None))
  {
    hide Candidates, Resolve, Reach, Plain, Folders, Flatten, Pages, Midway, IsPage;
    ghost var all := Candidates(q, keys, None);
    ghost var rest, plain: seq<Bytes> := all, [];
    Start(q, all, max, heads);
    entries, commonPrefixes, pages, ok := [], [], 0, true;
    var after: Option<Bytes> := None;
    var more := true;
    while more
      invariant more ==> Candidates(q, keys, after) == rest && Midway(q, all, rest, max, plain, commonPrefixes, pages)
      invariant !more ==> plain == Plain(q, all) && commonPrefixes == Folders(q, all) && pages == |Pages(q, all, max)|
      invariant Resolve(plain, heads) == Some(entries)
      decreases |rest|, more
    {
      var page := ListObjects(q, keys, heads, after, max);
      ghost var n := Reach(q, rest, max, 0);
      ghost var shown := FirstPage(q, rest, max).plain;
      OnePageOn(q, all, rest, max, plain, commonPrefixes, pages);
      ResolveConcat(plain, shown, heads);
      if page == None {
        ResolvePrefix(plain + shown, Plain(q, all), heads);
        ok := false;
        return;
      }
      entries := entries + page.value.entries;
      commonPrefixes := commonPrefixes + page.value.commonPrefixes;
      plain := plain + shown;
      pages := pages + 1;
      more := page.value.nextAfter.Some?;
      if more {
        ResumeAfter(q, keys, after, n);
        rest := rest[n..];
      }
      after := page.value.nextAfter;
    }
    WholeIsPage(q, keys, heads, entries);
  }

  lemma Start(q: Query, all: seq<Bytes>, max: nat, heads: Bytes -> Lookup)
    requires Prefixed(q, all) && StrictlySorted(Less, all) && max >= 1
    ensures Midway(q, all, all, max, [], [], 0) && Resolve([], heads) == Some([])
  {
    hide Pages, Flatten, Plain, Folders;
    PagesAddUp(q, all, max);
  }
}
