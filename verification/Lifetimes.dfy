/**
 How long the files that loads return stay linked.  Evicting an entry destroys its file, and with
 it the strings of everything merged from it, so what a walk has merged is good only while every
 file it has returned is still linked.
 */
module Lifetimes {
  import opened Options
  import opened CacheModel
  import opened CacheRuns

  /** The entry whose file load `i` returns, found or just stored; None if it returns no file. */
  function Returned(s: RunState, max: nat, loads: seq<Load>, i: nat): Option<Entry>
    requires 1 <= max && i < |loads|
  {
    EntryReturned(Step(Run(s, max, loads[..i]), max, loads[i]))
  }

  function EntryReturned(r: LoadResult): Option<Entry> {
    var e := if r.hit.Some? then r.hit else r.stored;
    if e.Some? && e.value.parsed.Some? then e else None
  }

  /** A load yields a file exactly when it returns an entry, and then that entry's file. */
  lemma ReturnedIsLoaded(s: RunState, max: nat, load: Load)
    requires 1 <= max
    ensures var r := Step(s, max, load);
            && (EntryReturned(r).Some? <==> r.outcome.Loaded?)
            && (r.outcome.Loaded? ==> EntryReturned(r).value.parsed == Some(r.outcome.file))
  {
  }

  /** The file load `i` returned, if any, is still linked after all of `loads`. */
  ghost predicate KeepsFile(s: RunState, max: nat, loads: seq<Load>, i: nat)
    requires 1 <= max && i < |loads|
  {
    var e := Returned(s, max, loads, i);
    e.Some? ==> e.value in Run(s, max, loads).entries
  }

  /** No file that one of `loads` returned has been evicted by the end of them. */
  ghost predicate Intact(s: RunState, max: nat, loads: seq<Load>)
    requires 1 <= max
  {
    forall i :: 0 <= i < |loads| ==> KeepsFile(s, max, loads, i)
  }

  /** Load `j` evicts the file that the earlier load `i` returned. */
  ghost predicate Costs(s: RunState, max: nat, loads: seq<Load>, i: nat, j: nat)
    requires 1 <= max && i < j < |loads|
  {
    var e := Returned(s, max, loads, i);
    e.Some? && LostAt(s, max, loads, e.value, j)
  }

  // ----- runs in two parts -----

  lemma {:induction false} RunConcat(s: RunState, max: nat, a: seq<Load>, b: seq<Load>)
    requires 1 <= max
    ensures Run(s, max, a + b) == Run(Run(s, max, a), max, b)
    decreases |b|
  {
    hide After;
    if b == [] {
      assert a + b == a;
    } else {
      var n := |b| - 1;
      assert (a + b)[..|a| + n] == a + b[..n];
      RunConcat(s, max, a, b[..n]);
    }
  }

  lemma {:induction false} RunStaysSane(s: RunState, max: nat, loads: seq<Load>)
    requires 1 <= max && Sane(s, max)
    ensures Sane(Run(s, max, loads), max)
    decreases |loads|
  {
    hide After, Sane;
    if loads == [] {
    } else {
      var n := |loads| - 1;
      RunStaysSane(s, max, loads[..n]);
      StaysSane(Run(s, max, loads[..n]), max, loads[n]);
    }
  }

  lemma RunFrom(s: RunState, max: nat, loads: seq<Load>, i: nat)
    requires 1 <= max && i <= |loads|
    ensures Run(s, max, loads) == Run(Run(s, max, loads[..i]), max, loads[i..])
  {
    assert loads == loads[..i] + loads[i..];
    RunConcat(s, max, loads[..i], loads[i..]);
  }

  lemma LostLater(s: RunState, max: nat, loads: seq<Load>, e: Entry, i: nat, j: nat)
    requires 1 <= max && i <= |loads| && j < |loads| - i
    ensures LostAt(Run(s, max, loads[..i]), max, loads[i..], e, j) <==> LostAt(s, max, loads, e, i + j)
  {
    hide Run, Unlinks;
    assert loads[..i + j] == loads[..i] + loads[i..][..j];
    RunConcat(s, max, loads[..i], loads[i..][..j]);
  }

  // ----- exactly when a file is lost -----

  lemma ReturnedIsHead(s: RunState, max: nat, load: Load)
    requires 1 <= max && EntryReturned(Step(s, max, load)).Some?
    ensures LinkedWithin(After(s, max, load).entries, EntryReturned(Step(s, max, load)).value, 0)
  {
    assert After(s, max, load).entries[0] == EntryReturned(Step(s, max, load)).value;
  }

  lemma RunOneMore(s: RunState, max: nat, loads: seq<Load>, i: nat)
    requires 1 <= max && i < |loads|
    ensures Run(s, max, loads[..i + 1]) == After(Run(s, max, loads[..i]), max, loads[i])
  {
    assert loads[..i + 1][..i] == loads[..i];
  }

  /** A file that a load returned is lost if and only if a later load evicts it. */
  lemma FileLostExactly(s: RunState, max: nat, loads: seq<Load>, i: nat)
    requires 1 <= max && Sane(s, max) && i < |loads|
    ensures !KeepsFile(s, max, loads, i) <==> exists j: nat :: i < j < |loads| && Costs(s, max, loads, i, j)
  {
    hide Run, After, Sane, LostAt, EntryReturned, Step;
    var e := Returned(s, max, loads, i);
    if e.Some? {
      var s', rest := Run(s, max, loads[..i + 1]), loads[i + 1..];
      RunStaysSane(s, max, loads[..i + 1]);
      RunOneMore(s, max, loads, i);
      ReturnedIsHead(Run(s, max, loads[..i]), max, loads[i]);
      LinkedUntilLost(s', max, rest, e.value);
      RunFrom(s, max, loads, i + 1);
      forall j: nat | j < |rest|
        ensures LostAt(s', max, rest, e.value, j) <==> LostAt(s, max, loads, e.value, i + 1 + j)
      {
        LostLater(s, max, loads, e.value, i + 1, j);
      }
      forall j: nat | i < j < |loads| && Costs(s, max, loads, i, j)
        ensures LostAt(s', max, rest, e.value, j - i - 1)
      {
        assert j == i + 1 + (j - i - 1);
      }
      if e.value !in Run(s, max, loads).entries {
        var j: nat :| j < |rest| && LostAt(s', max, rest, e.value, j);
        assert Costs(s, max, loads, i, i + 1 + j);
      }
    }
  }

  /** Loads keep all the files they return if and only if none of them evicts one an earlier one returned. */
  lemma IntactExactly(s: RunState, max: nat, loads: seq<Load>)
    requires 1 <= max && Sane(s, max)
    ensures Intact(s, max, loads) <==> !exists i: nat, j: nat :: i < j < |loads| && Costs(s, max, loads, i, j)
  {
    hide KeepsFile, Costs, Sane;
    forall i: nat | i < |loads|
      ensures !KeepsFile(s, max, loads, i) <==> exists j: nat :: i < j < |loads| && Costs(s, max, loads, i, j)
    {
      FileLostExactly(s, max, loads, i);
    }
    forall i: nat, j: nat | i < j < |loads| && Costs(s, max, loads, i, j) ensures !Intact(s, max, loads) {
      assert !KeepsFile(s, max, loads, i);
    }
  }

  // ----- when nothing is lost -----

  lemma {:induction false} NeverStaleFrom(s: RunState, max: nat, loads: seq<Load>, i: nat)
    requires 1 <= max && i <= |loads| && NeverStale(s, max, loads)
    ensures NeverStale(Run(s, max, loads[..i]), max, loads[i..])
    decreases |loads|
  {
    hide Run, IsStale;
    if i == |loads| {
      assert loads[i..] == [];
    } else {
      var n := |loads| - 1;
      var init := loads[..n];
      NeverStaleFrom(s, max, init, i);
      assert init[..i] == loads[..i] && init[i..] == loads[i..][..n - i];
      RunFrom(s, max, init, i);
      assert loads[i..][n - i] == loads[n];
    }
  }

  /** A run of at most as many loads as the cache has room for, none of which meets a stale entry, keeps every file. */
  lemma FewFreshLoadsAreIntact(s: RunState, max: nat, loads: seq<Load>)
    requires 1 <= max && |loads| <= max && NeverStale(s, max, loads)
    ensures Intact(s, max, loads)
  {
    hide Run, After, NeverStale, EntryReturned, Step;
    forall i | 0 <= i < |loads| ensures KeepsFile(s, max, loads, i) {
      var e := Returned(s, max, loads, i);
      if e.Some? {
        RunOneMore(s, max, loads, i);
        RunFrom(s, max, loads, i + 1);
        NeverStaleFrom(s, max, loads, i + 1);
        ReturnedIsHead(Run(s, max, loads[..i]), max, loads[i]);
        StaysLinked(Run(s, max, loads[..i + 1]), max, loads[i + 1..], e.value);
      }
    }
  }

  /** Some entry of `c` has no place left: `es` are pairwise different entries of `c`. */
  lemma {:induction false} Pigeonhole(es: seq<Entry>, c: seq<Entry>)
    requires forall i, j :: 0 <= i < j < |es| ==> es[i] != es[j]
    requires forall e :: e in es ==> e in c
    ensures |es| <= |c|
    decreases |es|
  {
    if es == [] {
    } else {
      assert es[0] in es;
      var k :| 0 <= k < |c| && c[k] == es[0];
      var rest := c[..k] + c[k + 1..];
      forall e | e in es[1..] ensures e in rest {
        assert e in es;
        var j :| 0 <= j < |c| && c[j] == e;
        assert rest[if j < k then j else j - 1] == e;
      }
      Pigeonhole(es[1..], rest);
    }
  }

  /** Every load returns a file, and no two of the same path. */
  ghost predicate AllReturnFiles(s: RunState, max: nat, loads: seq<Load>)
    requires 1 <= max
  {
    && (forall i :: 0 <= i < |loads| ==> Returned(s, max, loads, i).Some?)
    && (forall i, j :: 0 <= i < j < |loads| ==> loads[i].path != loads[j].path)
  }

  lemma ReturnedHasPath(s: RunState, max: nat, load: Load)
    requires 1 <= max && EntryReturned(Step(s, max, load)).Some?
    ensures EntryReturned(Step(s, max, load)).value.path == load.path
  {
  }

  /** Loads that return more files than the cache has room for have lost one of them. */
  lemma TooManyFilesAreNotIntact(s: RunState, max: nat, loads: seq<Load>)
    requires 1 <= max && Sane(s, max) && AllReturnFiles(s, max, loads) && max < |loads|
    ensures !Intact(s, max, loads)
  {
    hide Run, EntryReturned, Step;
    RunStaysSane(s, max, loads);
    if Intact(s, max, loads) {
      var es := seq(|loads|, i requires 0 <= i < |loads| => Returned(s, max, loads, i).value);
      forall i | 0 <= i < |es| ensures es[i].path == loads[i].path && es[i] in Run(s, max, loads).entries {
        assert Returned(s, max, loads, i).Some?;
        ReturnedHasPath(Run(s, max, loads[..i]), max, loads[i]);
        assert KeepsFile(s, max, loads, i);
      }
      Pigeonhole(es, Run(s, max, loads).entries);
    }
  }

  /** Where every directory has a file and none is stale, a walk is intact exactly when its files fit the cache. */
  lemma FreshFilesAreIntactIffTheyFit(s: RunState, max: nat, loads: seq<Load>)
    requires 1 <= max && Sane(s, max) && AllReturnFiles(s, max, loads) && NeverStale(s, max, loads)
    ensures Intact(s, max, loads) <==> |loads| <= max
  {
    hide NeverStale, AllReturnFiles, Intact, Sane;
    if |loads| <= max {
      FewFreshLoadsAreIntact(s, max, loads);
    } else {
      TooManyFilesAreNotIntact(s, max, loads);
    }
  }

  // ----- when nothing is lost, stale entries or not -----

  lemma MoveToFrontMovesByOne(c: seq<Entry>, i: nat, e: Entry, bound: nat)
    requires i < |c| && bound + 1 < |c| && LinkedWithin(c, e, bound)
    ensures LinkedWithin(MoveToFront(c, i), e, bound + 1) && |MoveToFront(c, i)| == |c|
  {
    var k :| 0 <= k <= bound && k < |c| && c[k] == e;
    assert MoveToFront(c, i)[if k < i then k + 1 else if k == i then 0 else k] == e;
  }

  lemma LookupMovesByOne(c: seq<Entry>, load: Load, e: Entry, bound: nat)
    requires bound + 2 < |c| && LinkedWithin(c, e, bound)
    ensures LinkedWithin(Lookup(c, load.path, load.view.stat).entries, e, bound + 1)
  {
    hide PathIndex, MoveToFront;
    var i := PathIndex(c, load.path);
    if i < |c| {
      MoveToFrontMovesByOne(c, i, e, bound);
    }
  }

  /** A load, a stale one too, moves any other entry back by at most two positions. */
  lemma LoadMovesByTwo(c: seq<Entry>, max: nat, now: nat, load: Load, e: Entry, bound: nat)
    requires 1 <= max && bound + 2 < |c| <= max && LinkedWithin(c, e, bound)
    ensures LinkedWithin(CachedLoad(c, max, now, load).entries, e, bound + 2)
  {
    hide Lookup, ToStore;
    var found, r := Lookup(c, load.path, load.view.stat), CachedLoad(c, max, now, load);
    LookupMovesByOne(c, load, e, bound);
    var k :| 0 <= k <= bound + 1 && k < |found.entries| && found.entries[k] == e;
    assert r.entries[if r.stored.Some? then k + 1 else k] == e;
  }

  lemma QueueShrinksByOne(c: seq<Entry>, max: nat, now: nat, load: Load)
    requires 1 <= max && |c| <= max
    ensures |CachedLoad(c, max, now, load).entries| + 1 >= |c|
  {
    hide PathIndex;
  }

  lemma {:induction false} QueueShrinksSlowly(s: RunState, max: nat, loads: seq<Load>)
    requires 1 <= max && Sane(s, max)
    ensures |Run(s, max, loads).entries| + |loads| >= |s.entries|
    decreases |loads|
  {
    hide CachedLoad, NewestFirst;
    if loads == [] {
    } else {
      var n := |loads| - 1;
      var before := Run(s, max, loads[..n]);
      QueueShrinksSlowly(s, max, loads[..n]);
      RunStaysSane(s, max, loads[..n]);
      QueueShrinksByOne(before.entries, max, before.now, loads[n]);
    }
  }

  lemma {:induction false} StaysLinkedInRoom(s: RunState, max: nat, loads: seq<Load>, e: Entry)
    requires 1 <= max && Sane(s, max) && 3 * |loads| <= |s.entries| && LinkedWithin(s.entries, e, 0)
    ensures LinkedWithin(Run(s, max, loads).entries, e, 2 * |loads|)
    decreases |loads|
  {
    hide CachedLoad, NewestFirst, LinkedWithin;
    if loads == [] {
    } else {
      var n := |loads| - 1;
      var before := Run(s, max, loads[..n]);
      StaysLinkedInRoom(s, max, loads[..n], e);
      QueueShrinksSlowly(s, max, loads[..n]);
      RunStaysSane(s, max, loads[..n]);
      LoadMovesByTwo(before.entries, max, before.now, loads[n], e, 2 * n);
    }
  }

  /** In a queue of three times as many entries as there are loads, stale entries cost no file that the loads return. */
  lemma LoadsInLongQueueAreIntact(s: RunState, max: nat, loads: seq<Load>)
    requires 1 <= max && Sane(s, max) && 3 * |loads| <= |s.entries|
    ensures Intact(s, max, loads)
  {
    hide Run, After, Sane, EntryReturned, Step;
    forall i | 0 <= i < |loads| ensures KeepsFile(s, max, loads, i) {
      var e := Returned(s, max, loads, i);
      if e.Some? {
        RunOneMore(s, max, loads, i);
        RunFrom(s, max, loads, i + 1);
        RunStaysSane(s, max, loads[..i + 1]);
        QueueShrinksSlowly(s, max, loads[..i + 1]);
        ReturnedIsHead(Run(s, max, loads[..i]), max, loads[i]);
        StaysLinkedInRoom(Run(s, max, loads[..i + 1]), max, loads[i + 1..], e.value);
      }
    }
  }

  // ----- a walk that loses its own file -----

  lemma HitSecond(c: seq<Entry>, max: nat, now: nat, load: Load)
    requires 1 <= max && |c| == 2 && c[0].path != load.path && c[1].path == load.path
    requires Current(c[1], load.view.stat)
    ensures var r := CachedLoad(c, max, now, load);
            r.hit == Some(c[1]) && r.stored == None && r.entries == [c[1], c[0]]
  {
    assert PathIndex(c, load.path) == 1;
  }

  lemma StaleSecondCostsFirst(c: seq<Entry>, max: nat, load: Load)
    requires |c| == 2 && c[0].path != load.path && c[1].path == load.path
    requires !Current(c[1], load.view.stat)
    ensures Unlinks(c, max, load, c[0])
  {
    assert PathIndex(c, load.path) == 1;
  }

  lemma TwoStored(max: nat, a: Load, b: Load)
    requires 2 <= max && a.path != b.path && StoresOnMiss(a) && StoresOnMiss(b)
    ensures Run(START, max, [a, b]).entries == [ToStore(b, 1).value, ToStore(a, 0).value]
    ensures ToStore(a, 0).value.path == a.path && ToStore(b, 1).value.path == b.path
  {
    hide CachedLoad, PathIndex, After;
    var s1 := After(START, max, a);
    assert PathIndex([], a.path) == 0;
    MissStores(START, max, a);
    StoredEntry(a, 0);
    StoredEntry(b, 1);
    assert START.entries == [] && s1.entries == [ToStore(a, 0).value];
    OneStored(START, max, a);
    MissStores(s1, max, b);
    assert [a, b][..1] == [a] && [a][..0] == [];
    assert Run(START, max, []) == START && Run(START, max, [a]) == s1;
    assert Run(START, max, [a, b]) == After(s1, max, b);
  }

  /**
   Not every walk is intact, however large the cache: once any two paths are cached, the walk that
   finds the first unchanged and the second changed evicts the first file it has just returned.
   */
  lemma StaleWalkLosesItsFile(max: nat, a: Load, b: Load, a': Load, b': Load)
    requires 2 <= max && a.path != b.path && a'.path == a.path && b'.path == b.path
    requires a.view.stat.Info? && a.view.parse.Loaded? && StoresOnMiss(b)
    requires a'.view.stat == a.view.stat
    requires !Current(ToStore(b, 1).value, b'.view.stat)
    ensures var s := Run(START, max, [a, b]);
            Returned(s, max, [a', b'], 0) == ToStore(a, 0) && !Intact(s, max, [a', b'])
  {
    hide CachedLoad, Unlinks, Sane, After;
    var s, walk := Run(START, max, [a, b]), [a', b'];
    TwoStored(max, a, b);
    HitSecond(s.entries, max, s.now, a');
    assert walk[..0] == [] && walk[..1] == [a'] && [a'][..0] == [];
    assert Run(s, max, []) == s && Run(s, max, [a']) == After(s, max, a');
    AfterIsStep(s, max, a');
    StaleSecondCostsFirst(Run(s, max, [a']).entries, max, b');
    assert Costs(s, max, walk, 0, 1);
    StartIsSane(max);
    RunStaysSane(START, max, [a, b]);
    FileLostExactly(s, max, walk, 0);
  }

  // ----- parts -----

  /** Loads that are intact as a whole are intact at every earlier point and from any point on. */
  lemma PartsAreIntact(s: RunState, max: nat, a: seq<Load>, b: seq<Load>)
    requires 1 <= max && Sane(s, max) && Intact(s, max, a + b)
    ensures Intact(s, max, a) && Intact(Run(s, max, a), max, b)
  {
    hide Run, Sane, EntryReturned, Step, Unlinks;
    var loads := a + b;
    RunStaysSane(s, max, a);
    IntactExactly(s, max, loads);
    IntactExactly(s, max, a);
    forall i: nat, j: nat | i < j < |a| && Costs(s, max, a, i, j) ensures Costs(s, max, loads, i, j) {
      assert loads[..i] == a[..i] && loads[..j] == a[..j];
    }
    RunConcat(s, max, a, b);
    forall i | 0 <= i < |b| ensures KeepsFile(Run(s, max, a), max, b, i) {
      assert loads[..|a| + i] == a + b[..i];
      RunConcat(s, max, a, b[..i]);
      assert KeepsFile(s, max, loads, |a| + i);
    }
  }
}
