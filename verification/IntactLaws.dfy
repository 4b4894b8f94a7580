/** Which requests find every file they have merged alive: the loads of a pass, of a request, of a worker. */
module IntactLaws {
  import opened Bytes
  import opened Directives
  import opened CacheModel
  import opened CacheRuns
  import opened Lifetimes
  import opened Rewrite
  import opened Walk
  import opened Execute
  import opened Worker

  // ----- how many loads there are -----

  function Slashes(uri: Text, i: nat): nat
    decreases |uri| - i
  {
    if i >= |uri| then 0 else (if uri[i] == SLASH then 1 else 0) + Slashes(uri, i + 1)
  }

  lemma {:induction false} LoadsFromCount(world: World, tick: nat, conf: Conf, uri: Text, i: nat, m: Merged)
    requires i >= 1
    ensures |LoadsFrom(world, tick, conf, uri, i)| == Slashes(uri, i)
    ensures WalkFrom(world, tick, conf, uri, i, m).1 == tick + Slashes(uri, i)
    decreases |uri| - i
  {
    hide Visited, LoadOf, PathOf;
    if i >= |uri| {
    } else if uri[i] != SLASH {
      LoadsFromCount(world, tick, conf, uri, i + 1, m);
    } else {
      LoadsFromCount(world, tick + 1, conf, uri, i + 1, Visited(m, uri[..i], world(tick, PathOf(conf, uri[1..i]))));
    }
  }

  /** A walk makes one load for the root and one for every slash of the URI behind the first byte. */
  lemma WalkLoadCount(world: World, tick: nat, conf: Conf, uri: Text)
    ensures WalkAll(world, tick, conf, uri).1 == tick + 1 + Slashes(uri, 1)
    ensures |WalkLoads(world, tick, conf, uri)| == if conf.cacheEnable then 1 + Slashes(uri, 1) else 0
  {
    hide Visited, LoadOf, PathOf, LoadsFrom, WalkFrom;
    LoadsFromCount(world, tick + 1, conf, uri, 1, Visited(NOTHING_MERGED, [], world(tick, PathOf(conf, []))));
  }

  lemma PassLoadCount(ds: Decisions, site: Site, conf: Conf, world: World, first: bool, requestUri: Text, p: Point)
    requires AllValid(ds)
    ensures var p' := NextPoint(ds, site, conf, world, first, requestUri, p);
            && p.tick <= p'.tick
            && |PassLoads(conf, world, p)| == if conf.cacheEnable then p'.tick - p.tick else 0
  {
    hide Pass, WalkAll, WalkLoads;
    if p.Head? {
      WalkLoadCount(world, p.tick, conf, p.m.rUri);
    }
  }

  /** The load numbers count the loads of a request. */
  lemma {:induction false} RequestLoadCount(ds: Decisions, site: Site, conf: Conf, world: World, tick: nat,
                                            m: Machine, n: nat)
    requires AllValid(ds)
    ensures var p := PointAt(ds, site, conf, world, tick, m, n);
            && tick <= p.tick
            && |RequestLoads(ds, site, conf, world, tick, m, n)| == if conf.cacheEnable then p.tick - tick else 0
  {
    hide NextPoint, PassLoads;
    if n == 0 {
    } else {
      RequestLoadCount(ds, site, conf, world, tick, m, n - 1);
      PassLoadCount(ds, site, conf, world, n == 1, m.rUri, PointAt(ds, site, conf, world, tick, m, n - 1));
    }
  }

  /** The number of loads of request `i`, through the cache or not. */
  ghost function LoadCount(ds: Decisions, world: World, vs: seq<Visit>, i: nat): int
    requires AllValid(ds) && i < |vs|
  {
    TickBefore(ds, world, vs, i + 1) - TickBefore(ds, world, vs, i)
  }

  lemma VisitLoadCount(ds: Decisions, world: World, vs: seq<Visit>, i: nat)
    requires AllValid(ds) && i < |vs|
    ensures |LoadsOf(ds, world, vs, i)| == if vs[i].conf.cacheEnable then LoadCount(ds, world, vs, i) else 0
  {
    hide PointAt, RequestLoads, Incoming;
    var v := vs[i];
    if v.enable {
      RequestLoadCount(ds, Site(v.host, v.headers), v.conf, world, TickBefore(ds, world, vs, i),
                       Incoming(v.conf, v.request), v.conf.maxRedirects);
    }
  }

  // ----- the passes of a request -----

  lemma {:induction false} RequestLoadsGrow(ds: Decisions, site: Site, conf: Conf, world: World, tick: nat, m: Machine,
                                            n: nat, k: nat)
    requires AllValid(ds) && n <= k
    ensures RequestLoads(ds, site, conf, world, tick, m, n) <= RequestLoads(ds, site, conf, world, tick, m, k)
    decreases k
  {
    hide PointAt, PassLoads;
    if n == k {
    } else {
      RequestLoadsGrow(ds, site, conf, world, tick, m, n, k - 1);
    }
  }

  /**
   If a request is intact, then so is the walk of each of its passes, and all that its earlier
   passes have merged is alive with it.
   */
  lemma EveryPassIsIntact(ds: Decisions, site: Site, conf: Conf, world: World, tick: nat, m: Machine,
                          s: RunState, max: nat, n: nat, j: nat)
    requires AllValid(ds) && 1 <= max && Sane(s, max) && j < n
    requires Intact(s, max, RequestLoads(ds, site, conf, world, tick, m, n))
    ensures Intact(s, max, RequestLoads(ds, site, conf, world, tick, m, j + 1))
    ensures Intact(Run(s, max, RequestLoads(ds, site, conf, world, tick, m, j)), max,
                   PassLoads(conf, world, PointAt(ds, site, conf, world, tick, m, j)))
  {
    hide PointAt, PassLoads, Intact, Run, Sane;
    var before := RequestLoads(ds, site, conf, world, tick, m, j);
    var upTo := RequestLoads(ds, site, conf, world, tick, m, j + 1);
    var all := RequestLoads(ds, site, conf, world, tick, m, n);
    RequestLoadsGrow(ds, site, conf, world, tick, m, j + 1, n);
    assert all == upTo + all[|upTo|..];
    PartsAreIntact(s, max, upTo, all[|upTo|..]);
    assert upTo == before + PassLoads(conf, world, PointAt(ds, site, conf, world, tick, m, j));
    PartsAreIntact(s, max, before, PassLoads(conf, world, PointAt(ds, site, conf, world, tick, m, j)));
  }

  // ----- requests that are intact -----

  /** A request with at most as many loads as the cache has room for, none of which meets a stale entry, is intact. */
  lemma FreshVisitIsIntact(ds: Decisions, world: World, vs: seq<Visit>, max: nat, i: nat)
    requires AllValid(ds) && i < |vs| && 1 <= max
    requires LoadCount(ds, world, vs, i) <= max
    requires NeverStale(CacheBefore(ds, world, vs, max, i), max, LoadsOf(ds, world, vs, i))
    ensures VisitIntact(ds, world, vs, max, i)
  {
    hide CacheBefore, LoadsOf, NeverStale, Intact, TickBefore;
    VisitLoadCount(ds, world, vs, i);
    FewFreshLoadsAreIntact(CacheBefore(ds, world, vs, max, i), max, LoadsOf(ds, world, vs, i));
  }

  /** Whatever has been edited, a request is intact that finds three times as many entries linked as it makes loads. */
  lemma VisitOfLongQueueIsIntact(ds: Decisions, world: World, vs: seq<Visit>, max: nat, i: nat)
    requires AllValid(ds) && i < |vs| && 1 <= max
    requires 3 * LoadCount(ds, world, vs, i) <= |CacheBefore(ds, world, vs, max, i).entries|
    ensures VisitIntact(ds, world, vs, max, i)
  {
    hide CacheBefore, LoadsOf, Intact, Sane, TickBefore;
    VisitLoadCount(ds, world, vs, i);
    CacheIsSane(ds, world, vs, max, i);
    LoadsInLongQueueAreIntact(CacheBefore(ds, world, vs, max, i), max, LoadsOf(ds, world, vs, i));
  }

  // ----- a request that is not -----

  /** The URI of a file one directory below the root: its second slash is at `k`. */
  predicate InOneDirectory(uri: Text, k: nat) {
    1 <= k < |uri| && uri[k] == SLASH && forall j :: 1 <= j < |uri| && j != k ==> uri[j] != SLASH
  }

  lemma {:induction false} NoFurtherLoads(world: World, tick: nat, conf: Conf, uri: Text, i: nat)
    requires i >= 1 && forall j :: i <= j < |uri| ==> uri[j] != SLASH
    ensures LoadsFrom(world, tick, conf, uri, i) == []
    decreases |uri| - i
  {
    if i >= |uri| {
    } else {
      NoFurtherLoads(world, tick, conf, uri, i + 1);
    }
  }

  lemma {:induction false} OneFurtherLoad(world: World, tick: nat, conf: Conf, uri: Text, i: nat, k: nat)
    requires InOneDirectory(uri, k) && 1 <= i <= k
    ensures LoadsFrom(world, tick, conf, uri, i) == [LoadOf(world, tick, conf, uri[1..k])]
    decreases k - i
  {
    if i == k {
      NoFurtherLoads(world, tick + 1, conf, uri, k + 1);
    } else {
      OneFurtherLoad(world, tick, conf, uri, i + 1, k);
    }
  }

  /** One pass over such a URI loads two files. */
  lemma TwoLoads(ds: Decisions, world: World, tick: nat, v: Visit, k: nat)
    requires AllValid(ds) && InOneDirectory(v.request.uri, k)
    requires v.enable && v.conf.cacheEnable && v.conf.maxRedirects == 1
    ensures VisitLoads(ds, world, tick, v)
         == [LoadOf(world, tick, v.conf, []), LoadOf(world, tick + 1, v.conf, v.request.uri[1..k])]
  {
    hide LoadOf, LoadsFrom, NextPoint;
    OneFurtherLoad(world, tick + 1, v.conf, v.request.uri, 1, k);
    var site, m := Site(v.host, v.headers), Incoming(v.conf, v.request);
    assert RequestLoads(ds, site, v.conf, world, tick, m, 0) == [];
    assert PointAt(ds, site, v.conf, world, tick, m, 0) == Head(m, tick, Initially);
    assert RequestLoads(ds, site, v.conf, world, tick, m, 1) == PassLoads(v.conf, world, Head(m, tick, Initially));
  }

  /**
   Not every request is intact, however large the cache and whatever the decisions: ask twice for
   a file one directory below the root, both directories holding a file, and edit the inner one in
   between.  The second request merges the root's file and then evicts it.
   */
  lemma EditedFileBreaksVisit(ds: Decisions, world: World, v: Visit, max: nat, k: nat)
    requires AllValid(ds) && 2 <= max && InOneDirectory(v.request.uri, k)
    requires v.enable && v.conf.cacheEnable && v.conf.maxRedirects == 1
    requires var root, inner := PathOf(v.conf, []), PathOf(v.conf, v.request.uri[1..k]);
             && root != inner
             && Direct(ViewOf(world(0, root))).Loaded? && Direct(ViewOf(world(1, inner))).Loaded?
             && world(2, root).stat == world(0, root).stat
             && world(3, inner).stat != world(1, inner).stat
    ensures !VisitIntact(ds, world, [v, v], max, 1)
  {
    hide PathOf, Current, Intact, VisitLoads, Run, PointAt, ReadOutcome;
    var inner := v.request.uri[1..k];
    var a, b := LoadOf(world, 0, v.conf, []), LoadOf(world, 1, v.conf, inner);
    var a', b' := LoadOf(world, 2, v.conf, []), LoadOf(world, 3, v.conf, inner);
    var vs := [v, v];
    SecondVisit(ds, world, v, k);
    assert LoadsBefore(ds, world, vs, 0) == [];
    assert LoadsBefore(ds, world, vs, 1) == [a, b];
    ChangedIsStale(b, b');
    StaleWalkLosesItsFile(max, a, b, a', b');
  }

  lemma ChangedIsStale(b: Load, b': Load)
    requires b.view.stat.Info? && b.view.parse.Loaded? && b'.view.stat != b.view.stat
    ensures !Current(ToStore(b, 1).value, b'.view.stat)
  {
  }

  lemma SecondVisit(ds: Decisions, world: World, v: Visit, k: nat)
    requires AllValid(ds) && InOneDirectory(v.request.uri, k)
    requires v.enable && v.conf.cacheEnable && v.conf.maxRedirects == 1
    ensures var vs, inner := [v, v], v.request.uri[1..k];
            && LoadsOf(ds, world, vs, 0) == [LoadOf(world, 0, v.conf, []), LoadOf(world, 1, v.conf, inner)]
            && LoadsOf(ds, world, vs, 1) == [LoadOf(world, 2, v.conf, []), LoadOf(world, 3, v.conf, inner)]
  {
    hide LoadOf, VisitLoads, Uncached;
    var vs := [v, v];
    assert TickBefore(ds, world, vs, 0) == 0;
    TwoLoads(ds, world, 0, v, k);
    VisitLoadCount(ds, world, vs, 0);
    TwoLoads(ds, world, 2, v, k);
  }
}
