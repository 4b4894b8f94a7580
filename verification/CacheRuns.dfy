/** What the parsed-file cache promises over every run of loads, the file system changing freely between them. */
module CacheRuns {
  import opened Options
  import opened Bytes
  import opened Directives
  import opened CacheModel

  /**
   The state of a run: the entries, the number of the next store, and for every path
   ever stored the number of its latest store.
   */
  datatype RunState = RunState(entries: seq<Entry>, now: nat, latest: map<Text, nat>)

  const START: RunState := RunState([], 0, map[])

  function Step(s: RunState, max: nat, load: Load): LoadResult
    requires 1 <= max
  {
    CachedLoad(s.entries, max, s.now, load)
  }

  function After(s: RunState, max: nat, load: Load): RunState
    requires 1 <= max
  {
    var r := Step(s, max, load);
    if r.stored.Some? then
      RunState(r.entries, s.now + 1, s.latest[load.path := s.now])
    else
      RunState(r.entries, s.now, s.latest)
  }

  function Run(s: RunState, max: nat, loads: seq<Load>): RunState
    requires 1 <= max
    decreases |loads|
  {
    if loads == [] then s
    else After(Run(s, max, loads[..|loads| - 1]), max, loads[|loads| - 1])
  }

  // ----- shape and conservation -----

  /** Every entry the run has evicted, one load after another. */
  function EvictedBy(max: nat, loads: seq<Load>): seq<Entry>
    requires 1 <= max
    decreases |loads|
  {
    if loads == [] then []
    else
      var n := |loads| - 1;
      EvictedBy(max, loads[..n]) + Step(Run(START, max, loads[..n]), max, loads[n]).evicted
  }

  /** Every entry the run has stored. */
  function StoredBy(max: nat, loads: seq<Load>): seq<Entry>
    requires 1 <= max
    decreases |loads|
  {
    if loads == [] then []
    else
      var n := |loads| - 1;
      var stored := Step(Run(START, max, loads[..n]), max, loads[n]).stored;
      StoredBy(max, loads[..n]) + if stored.Some? then [stored.value] else []
  }

  lemma Balance(linked: multiset<Entry>, gone: multiset<Entry>, linked': multiset<Entry>, evicted: multiset<Entry>,
                stored: multiset<Entry>)
    requires linked' + evicted == linked + stored
    ensures linked' + (gone + evicted) == (linked + gone) + stored
  {
    assert linked' + (gone + evicted) == (linked' + evicted) + gone;
    assert (linked + gone) + stored == (linked + stored) + gone;
  }

  /**
   Conservation over whole runs: never more than `max` entries are linked, at most one is
   evicted per load, and what is linked together with what was evicted is exactly what was
   stored.
   */
  lemma {:induction false} RunConserves(max: nat, loads: seq<Load>)
    requires 1 <= max
    ensures |Run(START, max, loads).entries| <= max
    ensures |EvictedBy(max, loads)| <= |loads|
    ensures multiset(Run(START, max, loads).entries) + multiset(EvictedBy(max, loads)) == multiset(StoredBy(max, loads))
    decreases |loads|
  {
    hide CachedLoad;
    if loads == [] {
    } else {
      var n := |loads| - 1;
      RunConserves(max, loads[..n]);
      var before := Run(START, max, loads[..n]);
      LoadConserves(before.entries, max, before.now, loads[n]);
      var r := Step(before, max, loads[n]);
      var stored := if r.stored.Some? then [r.stored.value] else [];
      Balance(multiset(before.entries), multiset(EvictedBy(max, loads[..n])),
              multiset(r.entries), multiset(r.evicted), multiset(stored));
      assert Run(START, max, loads).entries == r.entries;
    }
  }

  // ----- transparency -----

  /** What parsing a path yields when its stat is (mtime, size). */
  type History = (Text, int, int) -> Outcome

  ghost predicate Agrees(load: Load, history: History) {
    load.view.stat.Info? ==> load.view.parse == history(load.path, load.view.stat.mtime, load.view.stat.size)
  }

  ghost predicate Faithful(e: Entry, history: History) {
    e.parsed.Some? ==> history(e.path, e.mtime, e.size) == Loaded(e.parsed.value)
  }

  ghost predicate Coherent(c: seq<Entry>, history: History) {
    forall e :: e in c ==> Faithful(e, history)
  }

  lemma LookupKeepsEntries(c: seq<Entry>, path: Text, stat: Stat, e: Entry)
    requires e in Lookup(c, path, stat).entries
    ensures e in c
  {
    var i := PathIndex(c, path);
    if i < |c| {
      var front := MoveToFront(c, i);
      assert e in front;
      assert forall k :: 0 <= k < |front| ==> front[k] in c;
    }
  }

  lemma LoadIsTransparent(c: seq<Entry>, max: nat, now: nat, load: Load, history: History)
    requires 1 <= max
    requires Coherent(c, history) && Agrees(load, history)
    ensures CachedLoad(c, max, now, load).outcome == Direct(load.view)
    ensures Coherent(CachedLoad(c, max, now, load).entries, history)
  {
    var i := PathIndex(c, load.path);
    if i < |c| {
      assert Faithful(c[i], history);
    }
    var found := Lookup(c, load.path, load.view.stat);
    forall e | e in CachedLoad(c, max, now, load).entries
      ensures Faithful(e, history)
    {
      if e in found.entries {
        LookupKeepsEntries(c, load.path, load.view.stat, e);
      }
    }
  }

  /**
   Exactly when one load is transparent: unless it hits a positive entry whose (mtime, size)
   is unchanged although parsing the file would now give something else.
   */
  lemma WhenLoadIsTransparent(c: seq<Entry>, max: nat, now: nat, load: Load)
    requires 1 <= max
    ensures var i := PathIndex(c, load.path);
            CachedLoad(c, max, now, load).outcome == Direct(load.view) <==>
            (i < |c| && c[i].parsed.Some? && load.view.stat == Info(c[i].mtime, c[i].size) ==>
               load.view.parse == Loaded(c[i].parsed.value))
  {
  }

  lemma {:induction false} RunIsCoherent(max: nat, loads: seq<Load>, history: History)
    requires 1 <= max
    requires forall load :: load in loads ==> Agrees(load, history)
    ensures Coherent(Run(START, max, loads).entries, history)
    decreases |loads|
  {
    hide CachedLoad;
    if loads == [] {
    } else {
      var n := |loads| - 1;
      RunIsCoherent(max, loads[..n], history);
      var before := Run(START, max, loads[..n]);
      LoadIsTransparent(before.entries, max, before.now, loads[n], history);
    }
  }

  /**
   Cache transparency: in a run from the empty cache, interleaved with arbitrary changes
   of the file system, every load answers as an uncached load would, provided only that
   (mtime, size) determines what parsing a path yields.
   */
  lemma CacheIsTransparent(max: nat, loads: seq<Load>, next: Load, history: History)
    requires 1 <= max
    requires forall load :: load in loads ==> Agrees(load, history)
    requires Agrees(next, history)
    ensures Step(Run(START, max, loads), max, next).outcome == Direct(next.view)
  {
    hide CachedLoad, Run;
    RunIsCoherent(max, loads, history);
    var s := Run(START, max, loads);
    LoadIsTransparent(s.entries, max, s.now, next, history);
  }

  // ----- duplicates -----

  /** The entry a search for `path` finds. */
  function First(c: seq<Entry>, path: Text): Option<Entry> {
    var i := PathIndex(c, path);
    if i < |c| then Some(c[i]) else None
  }

  lemma {:induction false} PathIndexOfConcat(a: seq<Entry>, b: seq<Entry>, path: Text)
    ensures PathIndex(a + b, path)
         == if PathIndex(a, path) < |a| then PathIndex(a, path) else |a| + PathIndex(b, path)
  {
    if a == [] {
      assert a + b == b;
    } else {
      assert (a + b)[1..] == a[1..] + b;
      PathIndexOfConcat(a[1..], b, path);
    }
  }

  lemma FirstOfConcat(a: seq<Entry>, b: seq<Entry>, path: Text)
    ensures First(a + b, path) == if First(a, path).Some? then First(a, path) else First(b, path)
  {
    hide PathIndex;
    PathIndexOfConcat(a, b, path);
  }

  lemma FirstOfOne(e: Entry, path: Text)
    ensures First([e], path) == if e.path == path then Some(e) else None
  {
    assert [e][1..] == [];
  }

  lemma FirstOfMoved(before: seq<Entry>, e: Entry, after: seq<Entry>, path: Text)
    requires First(before, e.path) == None
    ensures First([e] + (before + after), path) == First(before + ([e] + after), path)
  {
    hide First, PathIndex;
    FirstOfOne(e, path);
    FirstOfConcat(before, [e] + after, path);
    FirstOfConcat([e], after, path);
    FirstOfConcat([e], before + after, path);
    FirstOfConcat(before, after, path);
  }

  /** Moving the entry found for one path to the front changes what is found for no path. */
  lemma MoveToFrontKeepsFirst(c: seq<Entry>, found: Text, path: Text)
    requires PathIndex(c, found) < |c|
    ensures First(MoveToFront(c, PathIndex(c, found)), path) == First(c, path)
  {
    hide PathIndex;
    var i := PathIndex(c, found);
    var before, after := c[..i], c[i + 1..];
    FirstOfMoved(before, c[i], after, path);
    assert c == before + ([c[i]] + after);
    assert MoveToFront(c, i) == [c[i]] + (before + after);
  }

  ghost predicate Ordered(c: seq<Entry>) {
    forall i, j :: 0 <= i < j < |c| && c[i].path == c[j].path ==> c[j].stamp < c[i].stamp
  }

  /** What is found for `path` is the entry stored last for it. */
  ghost predicate FindsLatest(s: RunState, path: Text) {
    var first := First(s.entries, path);
    first.Some? ==> path in s.latest && first.value.stamp == s.latest[path]
  }

  /** Duplicates are linked newest first, and the first one is the latest entry ever stored for its path. */
  ghost predicate NewestFirst(s: RunState) {
    && Ordered(s.entries)
    && (forall e :: e in s.entries ==> e.stamp < s.now)
    && (forall path :: FindsLatest(s, path))
  }

  lemma RemovalKeepsOrder(c: seq<Entry>, i: nat)
    requires Ordered(c) && i < |c|
    ensures Ordered(c[..i] + c[i + 1..])
  {
    var rest := c[..i] + c[i + 1..];
    forall x, y | 0 <= x < y < |rest| && rest[x].path == rest[y].path
      ensures rest[y].stamp < rest[x].stamp
    {
      assert rest[x] == c[if x < i then x else x + 1] && rest[y] == c[if y < i then y else y + 1];
    }
  }

  lemma PushKeepsOrder(e: Entry, c: seq<Entry>)
    requires Ordered(c) && forall k :: 0 <= k < |c| && c[k].path == e.path ==> c[k].stamp < e.stamp
    ensures Ordered([e] + c)
  {
    var pushed := [e] + c;
    forall x, y | 0 <= x < y < |pushed| && pushed[x].path == pushed[y].path
      ensures pushed[y].stamp < pushed[x].stamp
    {
      assert pushed[y] == c[y - 1];
      assert x > 0 ==> pushed[x] == c[x - 1];
    }
  }

  lemma MoveToFrontKeepsOrder(c: seq<Entry>, path: Text)
    requires Ordered(c) && PathIndex(c, path) < |c|
    ensures Ordered(MoveToFront(c, PathIndex(c, path)))
  {
    hide PathIndex;
    var i := PathIndex(c, path);
    var rest := c[..i] + c[i + 1..];
    RemovalKeepsOrder(c, i);
    forall k | 0 <= k < |rest| && rest[k].path == c[i].path
      ensures rest[k].stamp < c[i].stamp
    {
      assert rest[k] == c[if k < i then k else k + 1];
    }
    PushKeepsOrder(c[i], rest);
    assert MoveToFront(c, i) == [c[i]] + rest;
  }

  lemma MoveToFrontKeepsNewestFirst(s: RunState, path: Text)
    requires NewestFirst(s) && PathIndex(s.entries, path) < |s.entries|
    ensures NewestFirst(s.(entries := MoveToFront(s.entries, PathIndex(s.entries, path))))
  {
    var i := PathIndex(s.entries, path);
    var front := MoveToFront(s.entries, i);
    MoveToFrontKeepsOrder(s.entries, path);
    forall e | e in front ensures e in s.entries {}
    forall p ensures FindsLatest(s.(entries := front), p) {
      MoveToFrontKeepsFirst(s.entries, path, p);
      assert FindsLatest(s, p);
    }
  }

  lemma PrefixKeepsNewestFirst(s: RunState, n: nat)
    requires NewestFirst(s) && n <= |s.entries|
    ensures NewestFirst(s.(entries := s.entries[..n]))
  {
    var c := s.entries[..n];
    assert s.entries == c + s.entries[n..];
    forall p ensures FindsLatest(s.(entries := c), p) {
      FirstOfConcat(c, s.entries[n..], p);
      assert FindsLatest(s, p);
    }
  }

  lemma PushKeepsNewestFirst(s: RunState, e: Entry)
    requires NewestFirst(s) && e.stamp == s.now
    ensures NewestFirst(RunState([e] + s.entries, s.now + 1, s.latest[e.path := s.now]))
  {
    hide First, PathIndex;
    var c := [e] + s.entries;
    var s' := RunState(c, s.now + 1, s.latest[e.path := s.now]);
    forall k | 0 <= k < |s.entries| ensures s.entries[k].stamp < e.stamp {
      assert s.entries[k] in s.entries;
    }
    PushKeepsOrder(e, s.entries);
    forall p ensures FindsLatest(s', p) {
      FirstOfOne(e, p);
      FirstOfConcat([e], s.entries, p);
      assert FindsLatest(s, p);
    }
  }

  lemma LookupKeepsNewestFirst(s: RunState, path: Text, stat: Stat)
    requires NewestFirst(s)
    ensures var found := Lookup(s.entries, path, stat);
            && NewestFirst(s.(entries := found.entries + found.evicted))
            && NewestFirst(s.(entries := found.entries))
  {
    var found := Lookup(s.entries, path, stat);
    var i := PathIndex(s.entries, path);
    var all := found.entries + found.evicted;
    if i < |s.entries| {
      MoveToFrontKeepsNewestFirst(s, path);
      assert all == MoveToFront(s.entries, i);
    } else {
      assert all == s.entries;
    }
    PrefixKeepsNewestFirst(s.(entries := all), |found.entries|);
    assert all[..|found.entries|] == found.entries;
  }

  lemma StoreKeepsNewestFirst(s: RunState, max: nat, e: Entry)
    requires 1 <= max && NewestFirst(s) && e.stamp == s.now
    ensures NewestFirst(RunState([e] + Kept(s.entries, max), s.now + 1, s.latest[e.path := s.now]))
  {
    var n := |Kept(s.entries, max)|;
    PrefixKeepsNewestFirst(s, n);
    assert s.entries[..n] == Kept(s.entries, max);
    PushKeepsNewestFirst(s.(entries := s.entries[..n]), e);
  }

  lemma LoadKeepsNewestFirst(s: RunState, max: nat, load: Load)
    requires 1 <= max && NewestFirst(s)
    ensures NewestFirst(After(s, max, load))
  {
    hide Lookup, NewestFirst, Kept;
    var found := Lookup(s.entries, load.path, load.view.stat);
    var s1 := s.(entries := found.entries);
    assert NewestFirst(s1) by {
      LookupKeepsNewestFirst(s, load.path, load.view.stat);
    }
    if found.hit.None? && ToStore(load, s.now).Some? {
      StoreKeepsNewestFirst(s1, max, ToStore(load, s.now).value);
    } else {
      assert After(s, max, load) == s1;
    }
  }

  lemma {:induction false} RunKeepsNewestFirst(max: nat, loads: seq<Load>)
    requires 1 <= max
    ensures NewestFirst(Run(START, max, loads))
    decreases |loads|
  {
    if loads == [] {
    } else {
      var n := |loads| - 1;
      RunKeepsNewestFirst(max, loads[..n]);
      LoadKeepsNewestFirst(Run(START, max, loads[..n]), max, loads[n]);
    }
  }

  /** What a load returns from the cache is the entry stored last for its path, however many duplicates are linked. */
  lemma NoSupersededEntryReturns(max: nat, loads: seq<Load>, next: Load)
    requires 1 <= max
    ensures var s := Run(START, max, loads);
            var hit := Step(s, max, next).hit;
            hit.Some? ==> next.path in s.latest && hit.value.stamp == s.latest[next.path]
  {
    RunKeepsNewestFirst(max, loads);
    var s := Run(START, max, loads);
    assert FindsLatest(s, next.path);
  }

  lemma OrderedAcross(a: seq<Entry>, b: seq<Entry>, x: Entry, y: Entry)
    requires Ordered(a + b) && x in a && y in b && x.path == y.path
    ensures y.stamp < x.stamp
  {
    var i :| 0 <= i < |a| && a[i] == x;
    var j :| 0 <= j < |b| && b[j] == y;
    assert (a + b)[i] == x && (a + b)[|a| + j] == y;
  }

  /** Storing `e` over the ordered entries `linked + gone` drops only entries older than what stays. */
  lemma StoreDropsOldest(s: RunState, linked: seq<Entry>, gone: seq<Entry>, max: nat, e: Entry, x: Entry, y: Entry)
    requires 1 <= max && NewestFirst(s) && s.entries == linked + gone && e.stamp == s.now
    requires x in Dropped(linked, max) + gone && y in [e] + Kept(linked, max) && x.path == y.path
    ensures x.stamp < y.stamp
  {
    var kept, lost := Kept(linked, max), Dropped(linked, max) + gone;
    assert s.entries == kept + lost;
    if y in kept {
      OrderedAcross(kept, lost, y, x);
    } else {
      assert x in s.entries;
    }
  }

  lemma LoadEvictsOldest(s: RunState, max: nat, load: Load, gone: Entry, linked: Entry)
    requires 1 <= max && NewestFirst(s)
    requires gone in Step(s, max, load).evicted && linked in Step(s, max, load).entries && gone.path == linked.path
    ensures gone.stamp < linked.stamp
  {
    var found := Lookup(s.entries, load.path, load.view.stat);
    var s1 := s.(entries := found.entries + found.evicted);
    assert NewestFirst(s1) by {
      LookupKeepsNewestFirst(s, load.path, load.view.stat);
    }
    if found.hit.None? {
      if ToStore(load, s.now).Some? {
        StoreDropsOldest(s1, found.entries, found.evicted, max, ToStore(load, s.now).value, gone, linked);
      } else {
        OrderedAcross(found.entries, found.evicted, linked, gone);
      }
    }
  }

  /** In every run an evicted entry is older than every entry of its path that stays or is stored by the same load. */
  lemma EvictionTakesOldest(max: nat, loads: seq<Load>, next: Load)
    requires 1 <= max
    ensures var r := Step(Run(START, max, loads), max, next);
            forall gone, linked :: gone in r.evicted && linked in r.entries && gone.path == linked.path ==>
              gone.stamp < linked.stamp
  {
    RunKeepsNewestFirst(max, loads);
    var s := Run(START, max, loads);
    var r := Step(s, max, next);
    forall gone, linked | gone in r.evicted && linked in r.entries && gone.path == linked.path
      ensures gone.stamp < linked.stamp
    {
      LoadEvictsOldest(s, max, next, gone, linked);
    }
  }

  // ----- LRU survival -----

  /** `e` is linked at position `bound` or nearer the head. */
  ghost predicate LinkedWithin(c: seq<Entry>, e: Entry, bound: nat) {
    exists k :: 0 <= k <= bound && k < |c| && c[k] == e
  }

  lemma LoadMovesByOne(c: seq<Entry>, max: nat, now: nat, load: Load, e: Entry, bound: nat)
    requires 1 <= max && bound + 1 < max
    requires LinkedWithin(c, e, bound) && !IsStale(c, load)
    ensures LinkedWithin(CachedLoad(c, max, now, load).entries, e, bound + 1)
  {
    var k :| 0 <= k <= bound && k < |c| && c[k] == e;
    var r := CachedLoad(c, max, now, load);
    var i := PathIndex(c, load.path);
    if i < |c| {
      var k' := if k < i then k + 1 else if k == i then 0 else k;
      assert r.entries[k'] == e;
    } else if r.stored.Some? {
      assert r.entries[k + 1] == e;
    } else {
      assert r.entries[k] == e;
    }
  }

  /** No load of the run takes the stale-entry branch. */
  ghost predicate NeverStale(s: RunState, max: nat, loads: seq<Load>)
    requires 1 <= max
    decreases |loads|
  {
    loads == [] ||
    var n := |loads| - 1;
    NeverStale(s, max, loads[..n]) && !IsStale(Run(s, max, loads[..n]).entries, loads[n])
  }

  lemma {:induction false} StaysLinked(s: RunState, max: nat, loads: seq<Load>, e: Entry)
    requires 1 <= max && |loads| < max
    requires LinkedWithin(s.entries, e, 0) && NeverStale(s, max, loads)
    ensures LinkedWithin(Run(s, max, loads).entries, e, |loads|)
    decreases |loads|
  {
    if loads == [] {
    } else {
      var n := |loads| - 1;
      StaysLinked(s, max, loads[..n], e);
      var before := Run(s, max, loads[..n]);
      LoadMovesByOne(before.entries, max, before.now, loads[n], e, n);
    }
  }

  /**
   LRU survival: an entry returned or stored by a load is still linked after up to max-1
   further loads, its position growing by at most one per load, unless one of them meets
   a stale entry.
   */
  lemma RecentEntrySurvives(s: RunState, max: nat, first: Load, loads: seq<Load>, e: Entry)
    requires 1 <= max && |loads| < max
    requires var r := Step(s, max, first); r.hit == Some(e) || r.stored == Some(e)
    requires NeverStale(After(s, max, first), max, loads)
    ensures LinkedWithin(Run(After(s, max, first), max, loads).entries, e, |loads|)
  {
    var s1 := After(s, max, first);
    assert s1.entries[0] == e;
    StaysLinked(s1, max, loads, e);
  }

  // ----- exactly when an entry is lost -----

  /** In a reachable state no two links hold the same entry. */
  lemma EntriesAreDistinct(s: RunState)
    requires NewestFirst(s)
    ensures forall i, j :: 0 <= i < j < |s.entries| ==> s.entries[i] != s.entries[j]
  {
    hide FindsLatest;
  }

  lemma VictimIsTail(c: seq<Entry>, i: nat)
    requires i < |c|
    ensures MoveToFront(c, i)[|c| - 1] == Victim(c, i)
  {
  }

  lemma PrefixLosesLast(c: seq<Entry>, e: Entry)
    requires c != [] && e in c
    requires forall i, j :: 0 <= i < j < |c| ==> c[i] != c[j]
    ensures e !in c[..|c| - 1] <==> e == c[|c| - 1]
  {
    var k :| 0 <= k < |c| && c[k] == e;
    if k < |c| - 1 {
      assert c[..|c| - 1][k] == e;
    }
  }

  lemma MovedStaysDistinct(s: RunState, path: Text)
    requires NewestFirst(s) && PathIndex(s.entries, path) < |s.entries|
    ensures var front := MoveToFront(s.entries, PathIndex(s.entries, path));
            && (forall i, j :: 0 <= i < j < |front| ==> front[i] != front[j])
            && (forall e :: e in s.entries ==> e in front)
  {
    hide NewestFirst, PathIndex;
    var c, i := s.entries, PathIndex(s.entries, path);
    var front := MoveToFront(c, i);
    MoveToFrontKeepsNewestFirst(s, path);
    EntriesAreDistinct(s.(entries := front));
    forall e | e in c ensures e in front {
      var k :| 0 <= k < |c| && c[k] == e;
      assert front[if k < i then k + 1 else if k == i then 0 else k] == e;
    }
  }

  lemma HitUnlinksExactly(s: RunState, max: nat, load: Load, e: Entry)
    requires 1 <= max && NewestFirst(s) && |s.entries| <= max && e in s.entries
    requires PathIndex(s.entries, load.path) < |s.entries|
    ensures e !in Step(s, max, load).entries <==> Unlinks(s.entries, max, load, e)
  {
    hide NewestFirst, PathIndex, MoveToFront;
    var c, i := s.entries, PathIndex(s.entries, load.path);
    var front := MoveToFront(c, i);
    assert |front| == |c| by { MoveToFrontLength(c, i); }
    MovedStaysDistinct(s, load.path);
    VictimIsTail(c, i);
    PrefixLosesLast(front, e);
    IsOlderThanNow(s, e);
    if !Current(c[i], load.view.stat) {
      assert Step(s, max, load).entries
          == (if ToStore(load, s.now).Some? then [ToStore(load, s.now).value] else []) + front[..|c| - 1];
    }
  }

  lemma MoveToFrontLength(c: seq<Entry>, i: nat)
    requires i < |c|
    ensures |MoveToFront(c, i)| == |c|
  {
  }

  lemma IsOlderThanNow(s: RunState, e: Entry)
    requires NewestFirst(s) && e in s.entries
    ensures e.stamp < s.now
  {
    hide FindsLatest, Ordered;
  }

  lemma MissUnlinksExactly(s: RunState, max: nat, load: Load, e: Entry)
    requires 1 <= max && NewestFirst(s) && |s.entries| <= max && e in s.entries
    requires PathIndex(s.entries, load.path) == |s.entries|
    ensures e !in Step(s, max, load).entries <==> Unlinks(s.entries, max, load, e)
  {
    hide NewestFirst, PathIndex;
    EntriesAreDistinct(s);
    PrefixLosesLast(s.entries, e);
    IsOlderThanNow(s, e);
  }

  /** Exactly when one load unlinks a linked entry. */
  lemma LoadUnlinksExactly(s: RunState, max: nat, load: Load, e: Entry)
    requires 1 <= max && NewestFirst(s) && |s.entries| <= max && e in s.entries
    ensures e !in Step(s, max, load).entries <==> Unlinks(s.entries, max, load, e)
  {
    hide NewestFirst, PathIndex, Unlinks, CachedLoad;
    if PathIndex(s.entries, load.path) < |s.entries| {
      HitUnlinksExactly(s, max, load, e);
    } else {
      MissUnlinksExactly(s, max, load, e);
    }
  }

  /** What has been unlinked is not linked again: a store is always newer. */
  lemma LostStaysLost(s: RunState, max: nat, load: Load, e: Entry)
    requires 1 <= max && e !in s.entries && e.stamp < s.now
    ensures e !in Step(s, max, load).entries
  {
    hide PathIndex;
    var found := Lookup(s.entries, load.path, load.view.stat);
    if e in found.entries {
      LookupKeepsEntries(s.entries, load.path, load.view.stat, e);
    }
    assert forall x :: x in Kept(found.entries, max) ==> x in found.entries;
  }

  ghost predicate LostAt(s: RunState, max: nat, loads: seq<Load>, e: Entry, j: nat)
    requires 1 <= max && j < |loads|
  {
    var c := Run(s, max, loads[..j]).entries;
    e in c && Unlinks(c, max, loads[j], e)
  }

  /** A state a run can be in: within the capacity, duplicates newest first. */
  ghost predicate Sane(s: RunState, max: nat) {
    |s.entries| <= max && NewestFirst(s)
  }

  lemma StaysSane(s: RunState, max: nat, load: Load)
    requires 1 <= max && Sane(s, max)
    ensures Sane(After(s, max, load), max) && s.now <= After(s, max, load).now
  {
    hide NewestFirst, CachedLoad;
    LoadKeepsNewestFirst(s, max, load);
    LoadConserves(s.entries, max, s.now, load);
  }

  lemma LostEarlier(s: RunState, max: nat, loads: seq<Load>, e: Entry, j: nat)
    requires 1 <= max && j < |loads| - 1
    ensures LostAt(s, max, loads[..|loads| - 1], e, j) <==> LostAt(s, max, loads, e, j)
  {
    assert loads[..|loads| - 1][..j] == loads[..j];
  }

  lemma LostByLast(s: RunState, max: nat, loads: seq<Load>, e: Entry)
    requires 1 <= max && loads != []
    requires var before := Run(s, max, loads[..|loads| - 1]); Sane(before, max) && e.stamp < before.now
    ensures var before, s' := Run(s, max, loads[..|loads| - 1]), Run(s, max, loads);
            && Sane(s', max) && e.stamp < s'.now
            && (e !in s'.entries <==> e !in before.entries || LostAt(s, max, loads, e, |loads| - 1))
  {
    hide After, NewestFirst, Unlinks;
    var n := |loads| - 1;
    var before := Run(s, max, loads[..n]);
    StaysSane(before, max, loads[n]);
    AfterIsStep(before, max, loads[n]);
    if e in before.entries {
      LoadUnlinksExactly(before, max, loads[n], e);
    } else {
      LostStaysLost(before, max, loads[n], e);
    }
  }

  lemma {:induction false} LinkedUntilLost(s: RunState, max: nat, loads: seq<Load>, e: Entry)
    requires 1 <= max && Sane(s, max) && e in s.entries
    ensures var s' := Run(s, max, loads);
            && Sane(s', max) && e.stamp < s'.now
            && (e !in s'.entries <==> exists j: nat :: j < |loads| && LostAt(s, max, loads, e, j))
    decreases |loads|
  {
    hide Sane, LostAt, After;
    if loads == [] {
      IsOlderThanNow(s, e) by { SaneIsOrdered(s, max); }
    } else {
      var n := |loads| - 1;
      LinkedUntilLost(s, max, loads[..n], e);
      LostByLast(s, max, loads, e);
      forall j: nat | j < n ensures LostAt(s, max, loads[..n], e, j) <==> LostAt(s, max, loads, e, j) {
        LostEarlier(s, max, loads, e, j);
      }
    }
  }

  lemma SaneIsOrdered(s: RunState, max: nat)
    requires Sane(s, max)
    ensures NewestFirst(s)
  {
  }

  lemma AfterIsStep(s: RunState, max: nat, load: Load)
    requires 1 <= max
    ensures After(s, max, load).entries == Step(s, max, load).entries
  {
  }

  /**
   Exactly when an entry is lost: an entry linked at some point of a run is no longer linked
   after further loads if and only if one of them met a stale entry while it was the least
   recently used other entry, or stored a new one in a full queue of which it was the tail.
   */
  lemma LostExactly(max: nat, before: seq<Load>, loads: seq<Load>, e: Entry)
    requires 1 <= max && e in Run(START, max, before).entries
    ensures var s := Run(START, max, before);
            e !in Run(s, max, loads).entries <==> exists j: nat :: j < |loads| && LostAt(s, max, loads, e, j)
  {
    hide Run, NewestFirst, LostAt;
    RunKeepsNewestFirst(max, before);
    RunConserves(max, before);
    LinkedUntilLost(Run(START, max, before), max, loads, e);
  }

  /**
   A stale look-up in any run evicts the least recently used entry other than the stale one.
   So it drops the stale entry exactly when that is the only one; otherwise it stays linked.
   */
  lemma StaleLookupUnlinksTail(max: nat, loads: seq<Load>, next: Load)
    requires 1 <= max && IsStale(Run(START, max, loads).entries, next)
    ensures var c := Run(START, max, loads).entries;
            var i := PathIndex(c, next.path);
            var found := Lookup(c, next.path, next.view.stat);
            && found.evicted == [Victim(c, i)]
            && (c[i] in found.entries <==> |c| > 1)
  {
    hide Run, NewestFirst, PathIndex, MoveToFront;
    RunKeepsNewestFirst(max, loads);
    var s := Run(START, max, loads);
    var c, i := s.entries, PathIndex(s.entries, next.path);
    MovedStaysDistinct(s, next.path);
    MoveToFrontLength(c, i);
    VictimIsTail(c, i);
    PrefixLosesLast(MoveToFront(c, i), c[i]);
    EntriesAreDistinct(s);
  }

  // ----- the proviso of survival is needed -----

  /** A first load of a new path, the cache having room. */
  lemma MissStores(s: RunState, max: nat, load: Load)
    requires |s.entries| < max && PathIndex(s.entries, load.path) == |s.entries| && StoresOnMiss(load)
    ensures ToStore(load, s.now).Some? && Step(s, max, load).stored == ToStore(load, s.now)
    ensures After(s, max, load).entries == [ToStore(load, s.now).value] + s.entries
  {
  }

  /**
   For any two paths and whatever their files hold: in a cache of any capacity from 3, an entry
   just stored is lost by two further loads, of which survival would tolerate max-1, when the
   second meets a stale entry.
   */
  lemma StaleLoadCostsAnotherEntry(max: nat, a: Load, b: Load, b': Load)
    requires 3 <= max && a.path != b.path && b'.path == b.path
    requires StoresOnMiss(a) && StoresOnMiss(b)
    requires !Current(ToStore(b, 1).value, b'.view.stat)
    ensures var stored := Step(START, max, a).stored;
            stored.Some? && stored.value !in Run(After(START, max, a), max, [b, b']).entries
  {
    hide CachedLoad, After, PathIndex, Unlinks, NewestFirst;
    var s1 := After(START, max, a);
    assert PathIndex([], a.path) == 0;
    MissStores(START, max, a);
    StoredEntry(a, 0);
    StoredEntry(b, 1);
    var ea, eb := ToStore(a, 0).value, ToStore(b, 1).value;
    assert START.entries == [] && s1.entries == [ea];
    OneStored(START, max, a);
    MissStores(s1, max, b);
    var s2 := After(s1, max, b);
    assert s2.entries == [eb, ea];
    assert [b, b'][..1] == [b] && [b][..0] == [];
    assert Run(s1, max, []) == s1 && Run(s1, max, [b]) == s2;
    assert Sane(START, max) by {
      StartIsSane(max);
    }
    StaysSane(START, max, a);
    StaysSane(s1, max, b);
    StaleHeadCostsTheOther(s2.entries, max, b');
    LoadUnlinksExactly(s2, max, b', ea);
    AfterIsStep(s2, max, b');
    assert Run(s1, max, [b, b']) == After(s2, max, b');
  }

  lemma StaleHeadCostsTheOther(c: seq<Entry>, max: nat, load: Load)
    requires |c| == 2 && c[0].path == load.path && !Current(c[0], load.view.stat)
    ensures Unlinks(c, max, load, c[1])
  {
    assert PathIndex(c, load.path) == 0;
  }

  lemma StartIsSane(max: nat)
    ensures Sane(START, max)
  {
  }

  lemma OneStored(s: RunState, max: nat, load: Load)
    requires 1 <= max && Step(s, max, load).stored.Some?
    ensures After(s, max, load).now == s.now + 1
  {
  }

  lemma StoredEntry(load: Load, now: nat)
    requires StoresOnMiss(load)
    ensures ToStore(load, now).Some? && ToStore(load, now).value.path == load.path
  {
  }
}
