/**
 The parsed-file cache as a value: the linked entries from the head of the LRU queue
 to its tail.  The class in Cache.dfy is proved against these functions; what the
 cache promises over whole runs is proved in CacheRuns.dfy.
 */
module CacheModel {
  import opened Options
  import opened Bytes
  import opened Directives

  /**
   A cache entry.  `parsed` is None for a negative entry (`absent`).  `stamp` numbers
   the stores and exists for specification only.
   */
  datatype Entry = Entry(path: Text, mtime: int, size: int, parsed: Option<ParsedFile>, stamp: nat)

  datatype Stat = NoFile | Info(mtime: int, size: int)

  /** What opening, reading and parsing a file yields (NGX_DECLINED, NGX_ERROR, NGX_OK). */
  datatype Outcome = Declined | Failed | Loaded(file: ParsedFile)

  /** The file system's answers about one path during one load. */
  datatype View = View(stat: Stat, parse: Outcome)

  /** One call of `htaccess_load_file`: the path and what the file system says about it then. */
  datatype Load = Load(path: Text, view: View)

  datatype LookupResult = LookupResult(hit: Option<Entry>, entries: seq<Entry>, evicted: seq<Entry>)

  datatype LoadResult = LoadResult(outcome: Outcome, entries: seq<Entry>, hit: Option<Entry>,
                                   stored: Option<Entry>, evicted: seq<Entry>)

  function PathIndex(c: seq<Entry>, path: Text): (i: nat)
    ensures i <= |c|
    ensures i < |c| ==> c[i].path == path
    ensures forall k :: 0 <= k < i ==> c[k].path != path
  {
    if c == [] || c[0].path == path then 0 else 1 + PathIndex(c[1..], path)
  }

  function MoveToFront(c: seq<Entry>, i: nat): seq<Entry>
    requires i < |c|
  {
    [c[i]] + c[..i] + c[i + 1..]
  }

  function DropTail(c: seq<Entry>): seq<Entry> {
    if c == [] then c else c[..|c| - 1]
  }

  function Tail(c: seq<Entry>): seq<Entry> {
    if c == [] then c else [c[|c| - 1]]
  }

  /** A negative entry is current while the file is missing, any other one while (mtime, size) is unchanged. */
  predicate Current(e: Entry, stat: Stat) {
    if e.parsed.None? then stat.NoFile? else stat == Info(e.mtime, e.size)
  }

  predicate IsStale(c: seq<Entry>, load: Load) {
    var i := PathIndex(c, load.path);
    i < |c| && !Current(c[i], load.view.stat)
  }

  function Lookup(c: seq<Entry>, path: Text, stat: Stat): LookupResult {
    var i := PathIndex(c, path);
    if i == |c| then
      LookupResult(None, c, [])
    else
      var front := MoveToFront(c, i);
      if Current(c[i], stat) then
        LookupResult(Some(c[i]), front, [])
      else
        LookupResult(None, DropTail(front), Tail(front))
  }

  /** The entries that survive making room for one more. */
  function Kept(c: seq<Entry>, max: nat): seq<Entry>
    requires 1 <= max
  {
    if max <= |c| then c[..max - 1] else c
  }

  function Dropped(c: seq<Entry>, max: nat): seq<Entry>
    requires 1 <= max
  {
    if max <= |c| then c[max - 1..] else []
  }

  /** The negative or positive entry a missed load stores, if any. */
  function ToStore(load: Load, now: nat): Option<Entry> {
    match load.view
    case View(NoFile, _) => Some(Entry(load.path, 0, 0, None, now))
    case View(Info(m, s), Declined) => Some(Entry(load.path, m, s, None, now))
    case View(Info(m, s), Loaded(f)) => Some(Entry(load.path, m, s, Some(f), now))
    case View(Info(_, _), Failed) => None
  }

  /** Stat and parse every time. */
  function Direct(view: View): Outcome {
    if view.stat.NoFile? then Declined else view.parse
  }

  function CachedLoad(c: seq<Entry>, max: nat, now: nat, load: Load): LoadResult
    requires 1 <= max
  {
    var found := Lookup(c, load.path, load.view.stat);
    match found.hit
    case Some(e) =>
      LoadResult(if e.parsed.None? then Declined else Loaded(e.parsed.value), found.entries, found.hit, None, [])
    case None =>
      match ToStore(load, now)
      case None => LoadResult(Direct(load.view), found.entries, None, None, found.evicted)
      case Some(e) =>
        LoadResult(Direct(load.view), [e] + Kept(found.entries, max), None, Some(e),
                   Dropped(found.entries, max) + found.evicted)
  }

  // ----- one step -----

  lemma MoveToFrontPermutes(c: seq<Entry>, i: nat)
    requires i < |c|
    ensures multiset(MoveToFront(c, i)) == multiset(c)
  {
    var before, after := c[..i], c[i + 1..];
    assert c == before + ([c[i]] + after);
    assert MoveToFront(c, i) == [c[i]] + before + after;
  }

  lemma DropTailConserves(c: seq<Entry>)
    ensures multiset(DropTail(c)) + multiset(Tail(c)) == multiset(c)
  {
    if c == [] {
      assert DropTail(c) == [] && Tail(c) == [];
    } else {
      assert c == DropTail(c) + Tail(c);
    }
  }

  lemma LookupConserves(c: seq<Entry>, path: Text, stat: Stat)
    ensures var found := Lookup(c, path, stat);
            && multiset(found.entries) + multiset(found.evicted) == multiset(c)
            && |found.entries| + |found.evicted| == |c|
            && |found.evicted| <= 1
  {
    var i := PathIndex(c, path);
    if i < |c| {
      MoveToFrontPermutes(c, i);
      DropTailConserves(MoveToFront(c, i));
    }
  }

  lemma StoreConserves(c: seq<Entry>, max: nat, e: Entry)
    requires 1 <= max && |c| <= max
    ensures multiset([e] + Kept(c, max)) + multiset(Dropped(c, max)) == multiset(c) + multiset{e}
    ensures |Dropped(c, max)| == if |c| == max then 1 else 0
  {
    assert c == Kept(c, max) + Dropped(c, max);
  }

  /**
   Shape: one load, lookup and store together, evicts at most one entry, never leaves more
   than `max` entries linked, and otherwise loses and duplicates nothing.
   */
  lemma LoadConserves(c: seq<Entry>, max: nat, now: nat, load: Load)
    requires 1 <= max && |c| <= max
    ensures var r := CachedLoad(c, max, now, load);
            && |r.entries| <= max
            && |r.evicted| <= 1
            && multiset(r.entries) + multiset(r.evicted)
               == multiset(c) + (if r.stored.Some? then multiset{r.stored.value} else multiset{})
  {
    var found := Lookup(c, load.path, load.view.stat);
    LookupConserves(c, load.path, load.view.stat);
    if found.hit.None? && ToStore(load, now).Some? {
      StoreConserves(found.entries, max, ToStore(load, now).value);
    }
  }

  /** The entry a stale look-up evicts: the tail once the stale entry `i` has moved to the front. */
  function Victim(c: seq<Entry>, i: nat): Entry
    requires i < |c|
  {
    if |c| == 1 then c[0] else if i == |c| - 1 then c[|c| - 2] else c[|c| - 1]
  }

  /** Whether a load that finds no entry stores one: always, unless the file is there but does not parse. */
  predicate StoresOnMiss(load: Load) {
    load.view.stat.Info? ==> !load.view.parse.Failed?
  }

  /**
   The guards under which a load unlinks `e`: the path's entry is stale and `e` is the
   least recently used other entry (or the only one); or there is no entry for the path, one
   is stored, and `e` is the tail of a full queue.
   */
  predicate Unlinks(c: seq<Entry>, max: nat, load: Load, e: Entry) {
    var i := PathIndex(c, load.path);
    if i < |c| then
      !Current(c[i], load.view.stat) && e == Victim(c, i)
    else
      StoresOnMiss(load) && |c| == max && c != [] && e == c[|c| - 1]
  }

  /** A negative entry does not spare a stat: whether it is returned depends on what a stat says now. */
  lemma NegativeEntryNeedsStat(c: seq<Entry>, path: Text, stat: Stat)
    requires PathIndex(c, path) < |c| && c[PathIndex(c, path)].parsed.None?
    ensures Lookup(c, path, stat).hit.Some? <==> stat.NoFile?
  {
  }
}
