/** A worker process: one cache, and requests handled one after another (ngx_http_htaccess_module.c). */
module Worker {
  import opened Bytes
  import opened CacheModel
  import opened CacheRuns
  import opened Cache
  import opened Lifetimes
  import opened Expander
  import opened Rewrite
  import opened Walk
  import opened Execute

  /** A request as it arrives, with the configuration of its location. */
  datatype Visit = Visit(enable: bool, conf: Conf, request: Arriving, host: Text, headers: seq<NameValue>)

  /** What comes of one request: the answer, the request nginx goes on with, and the number of the next load. */
  datatype Outcome = Outcome(response: Response, left: Arriving, tick: nat)

  /** The outcome with every file loaded and parsed afresh. */
  ghost function Uncached(ds: Decisions, world: World, tick: nat, v: Visit): (out: Outcome)
    requires AllValid(ds)
  {
    if !v.enable then Outcome(Declines, v.request, tick)
    else
      var p := PointAt(ds, Site(v.host, v.headers), v.conf, world, tick,
                       Incoming(v.conf, v.request), v.conf.maxRedirects);
      Outcome(ResponseOf(p), Outgoing(p.m), p.tick)
  }

  ghost function TickBefore(ds: Decisions, world: World, vs: seq<Visit>, i: nat): nat
    requires AllValid(ds) && i <= |vs|
  {
    if i == 0 then 0 else Uncached(ds, world, TickBefore(ds, world, vs, i - 1), vs[i - 1]).tick
  }

  /** The loads through the cache of one request, from its first pass to its last. */
  ghost function VisitLoads(ds: Decisions, world: World, tick: nat, v: Visit): seq<Load>
    requires AllValid(ds)
  {
    if !v.enable then []
    else
      RequestLoads(ds, Site(v.host, v.headers), v.conf, world, tick, Incoming(v.conf, v.request), v.conf.maxRedirects)
  }

  /** All loads through the cache before request `i`. */
  ghost function LoadsBefore(ds: Decisions, world: World, vs: seq<Visit>, i: nat): seq<Load>
    requires AllValid(ds) && i <= |vs|
  {
    if i == 0 then []
    else LoadsBefore(ds, world, vs, i - 1) + VisitLoads(ds, world, TickBefore(ds, world, vs, i - 1), vs[i - 1])
  }

  /** `ngx_http_htaccess_handler`. */
  method Handle(ds: Decisions, world: World, tick: nat, v: Visit, cache: LruCache,
                ghost history: History, ghost run: RunState)
    returns (out: Outcome)
    requires AllValid(ds)
    requires Sound(cache, history, run) && Consistent(world, history)
    modifies cache.Repr()
    ensures Sound(cache, history, Run(run, cache.maxEntries, VisitLoads(ds, world, tick, v)))
    ensures fresh(cache.Repr() - old(cache.Repr()))
    ensures out == Uncached(ds, world, tick, v)
    ensures !v.enable ==> out == Outcome(Declines, v.request, tick)
  {
    hide PointAt, Sound, Incoming, RequestLoads, Run;
    if !v.enable {
      RunNone(run, cache.maxEntries);
      return Outcome(Declines, v.request, tick);
    }
    var r := new Request(v.request.uri, v.request.args, v.request.unparsedUri, v.host, v.headers);
    r.validUnparsedUri, r.internal := v.request.validUnparsedUri, v.request.internal;
    var response, tick' :=
      HandleRequest(ds, Site(v.host, v.headers), v.conf, world, tick, cache, r, history, run);
    return Outcome(response, RequestOf(r), tick');
  }

  lemma FirstTick(ds: Decisions, world: World, vs: seq<Visit>)
    requires AllValid(ds)
    ensures TickBefore(ds, world, vs, 0) == 0
  {
  }

  lemma NextTick(ds: Decisions, world: World, vs: seq<Visit>, i: nat)
    requires AllValid(ds) && i < |vs|
    ensures TickBefore(ds, world, vs, i + 1) == Uncached(ds, world, TickBefore(ds, world, vs, i), vs[i]).tick
  {
  }

  lemma NoLoadsBeforeFirst(ds: Decisions, world: World, vs: seq<Visit>, max: nat)
    requires AllValid(ds) && 1 <= max
    ensures Run(START, max, LoadsBefore(ds, world, vs, 0)) == START
  {
  }

  lemma NextLoads(ds: Decisions, world: World, vs: seq<Visit>, i: nat, max: nat)
    requires AllValid(ds) && i < |vs| && 1 <= max
    ensures Run(Run(START, max, LoadsBefore(ds, world, vs, i)), max,
                VisitLoads(ds, world, TickBefore(ds, world, vs, i), vs[i]))
         == Run(START, max, LoadsBefore(ds, world, vs, i + 1))
  {
    hide Run, VisitLoads, TickBefore;
    RunConcat(START, max, LoadsBefore(ds, world, vs, i), VisitLoads(ds, world, TickBefore(ds, world, vs, i), vs[i]));
  }

  lemma EmptyIsSound(cache: LruCache, history: History)
    requires cache.Valid() && cache.Contents() == [] && cache.clock == 0
    ensures Sound(cache, history, START)
  {
  }

  /**
   Through a worker's whole life, whatever its cache size, whatever happens to the file system
   between loads and however conditions and passwords change between passes, every request is
   answered, and left to nginx, as if there were no cache, provided (mtime, size) of a path
   determines what reading it yields; and the cache goes through exactly the loads of all
   requests.  Parsed files are values here.  In the C code a file is destroyed with its entry,
   so the answer is promised for the requests that are `VisitIntact` below; the others have
   evicted a file that they go on using.
   */
  method ServeAll(ds: Decisions, world: World, vs: seq<Visit>, maxEntries: nat, ghost history: History)
    returns (outs: seq<Outcome>, cache: LruCache)
    requires AllValid(ds) && Consistent(world, history)
    ensures |outs| == |vs|
    ensures forall i :: 0 <= i < |vs| ==> outs[i] == Uncached(ds, world, TickBefore(ds, world, vs, i), vs[i])
    ensures fresh(cache) && cache.maxEntries == if maxEntries != 0 then maxEntries else 1024
    ensures Sound(cache, history, Run(START, cache.maxEntries, LoadsBefore(ds, world, vs, |vs|)))
  {
    hide Uncached, Consistent, Sound, TickBefore, Run, LoadsBefore, VisitLoads;
    FirstTick(ds, world, vs);
    cache := new LruCache(maxEntries);
    EmptyIsSound(cache, history);
    NoLoadsBeforeFirst(ds, world, vs, cache.maxEntries);
    var tick := 0;
    outs := [];
    for i := 0 to |vs|
      invariant Sound(cache, history, Run(START, cache.maxEntries, LoadsBefore(ds, world, vs, i)))
      invariant fresh(cache.Repr())
      invariant tick == TickBefore(ds, world, vs, i)
      invariant |outs| == i
      invariant forall k :: 0 <= k < i ==> outs[k] == Uncached(ds, world, TickBefore(ds, world, vs, k), vs[k])
    {
      NextTick(ds, world, vs, i);
      NextLoads(ds, world, vs, i, cache.maxEntries);
      var out := Handle(ds, world, tick, vs[i], cache, history,
                        Run(START, cache.maxEntries, LoadsBefore(ds, world, vs, i)));
      tick := out.tick;
      outs := outs + [out];
    }
  }

  // ----- which requests find their files alive -----

  /** The cache of capacity `max` as request `i` finds it. */
  ghost function CacheBefore(ds: Decisions, world: World, vs: seq<Visit>, max: nat, i: nat): RunState
    requires AllValid(ds) && i <= |vs| && 1 <= max
  {
    Run(START, max, LoadsBefore(ds, world, vs, i))
  }

  ghost function LoadsOf(ds: Decisions, world: World, vs: seq<Visit>, i: nat): seq<Load>
    requires AllValid(ds) && i < |vs|
  {
    VisitLoads(ds, world, TickBefore(ds, world, vs, i), vs[i])
  }

  /** No file that request `i` has merged is evicted before the request is answered. */
  ghost predicate VisitIntact(ds: Decisions, world: World, vs: seq<Visit>, max: nat, i: nat)
    requires AllValid(ds) && i < |vs| && 1 <= max
  {
    Intact(CacheBefore(ds, world, vs, max, i), max, LoadsOf(ds, world, vs, i))
  }

  lemma CacheIsSane(ds: Decisions, world: World, vs: seq<Visit>, max: nat, i: nat)
    requires AllValid(ds) && i <= |vs| && 1 <= max
    ensures Sane(CacheBefore(ds, world, vs, max, i), max)
  {
    hide Sane, Run, LoadsBefore;
    StartIsSane(max);
    RunStaysSane(START, max, LoadsBefore(ds, world, vs, i));
  }

  /** A request finds its files alive if and only if none of its loads evicts one that an earlier of them returned. */
  lemma WhenVisitIsIntact(ds: Decisions, world: World, vs: seq<Visit>, max: nat, i: nat)
    requires AllValid(ds) && i < |vs| && 1 <= max
    ensures var s, loads := CacheBefore(ds, world, vs, max, i), LoadsOf(ds, world, vs, i);
            VisitIntact(ds, world, vs, max, i) <==>
            !exists j: nat, k: nat :: j < k < |loads| && Costs(s, max, loads, j, k)
  {
    hide CacheBefore, LoadsOf, Costs, Intact;
    CacheIsSane(ds, world, vs, max, i);
    IntactExactly(CacheBefore(ds, world, vs, max, i), max, LoadsOf(ds, world, vs, i));
  }
}
