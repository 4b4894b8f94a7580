/** Loading the .htaccess files on the way to a URI and merging them (htaccess_walk.c). */
module Walk {
  import opened Options
  import opened Bytes
  import opened Directives
  import opened CacheModel
  import opened CacheRuns
  import opened Cache
  import opened Lifetimes
  import opened Parser
  import opened Chains

  // ----- the file system -----

  datatype ReadResult = CannotOpen | CannotRead | Contents(text: Text)

  datatype FileState = FileState(stat: Stat, read: ReadResult)

  /** The state of every path at every load: the file system may change between any two loads. */
  type World = (nat, Text) -> FileState

  function OutcomeOf(p: Parse): Outcome {
    match p
    case Parsed(file) => Loaded(file)
    case Unparsable => Failed
    case Unpredictable => Failed
  }

  function ReadOutcome(read: ReadResult): Outcome {
    match read
    case CannotOpen => Declined
    case CannotRead => Failed
    case Contents(text) => OutcomeOf(ParseText(text))
  }

  function ViewOf(file: FileState): View {
    View(file.stat, ReadOutcome(file.read))
  }

  /** `htaccess_parse_file`. */
  method ParseFile(read: ReadResult) returns (o: Outcome)
    ensures o == ReadOutcome(read)
  {
    match read {
      case CannotOpen => return Declined;
      case CannotRead => return Failed;
      case Contents(text) =>
        var parse := ParseBuffer(text);
        return OutcomeOf(parse);
    }
  }

  /** `htaccess_load_file`, `file` being what the file system says about `path` during the call. */
  method LoadFile(cache: LruCache, cacheEnable: bool, path: Text, file: FileState) returns (o: Outcome)
    requires cache.Valid()
    modifies cache.Repr()
    ensures cache.Valid() && fresh(cache.Repr() - old(cache.Repr()))
    ensures if cacheEnable then
              var r := old(CachedLoad(cache.Contents(), cache.maxEntries, cache.clock, Load(path, ViewOf(file))));
              && o == r.outcome && cache.Contents() == r.entries
              && cache.clock == old(cache.clock) + if r.stored.Some? then 1 else 0
            else
              o == Direct(ViewOf(file)) && cache.Contents() == old(cache.Contents()) && cache.clock == old(cache.clock)
  {
    hide ParseText, PathIndex;
    if cacheEnable {
      var e := cache.Lookup(path, file.stat);
      if e != null {
        return if e.parsed.None? then Declined else Loaded(e.parsed.value);
      }
    }
    if file.stat.NoFile? {
      if cacheEnable {
        cache.Store(path, 0, 0, None);
      }
      return Declined;
    }
    o := ParseFile(file.read);
    if !o.Loaded? {
      if o.Declined? && cacheEnable {
        cache.Store(path, file.stat.mtime, file.stat.size, None);
      }
      return;
    }
    if cacheEnable {
      cache.Store(path, file.stat.mtime, file.stat.size, Some(o.file));
    }
  }

  // ----- merging -----

  ghost function MergedDir(dir: Dir, body: Body): Dir {
    match body
    case RewriteEngine(on) => dir.(rewriteEngine := on)
    case RewriteBase(base) => dir.(rewriteBase := base)
    case RewriteRule(_) => dir.(directives := Marked(dir.directives + [body]))
    case Redirection(_, _) => dir.(directives := dir.directives + [body])
    case _ => dir
  }

  predicate DeniesAll(requirement: Text) {
    StartsWithNoCase(requirement, Ascii("all denied"))
  }

  /** The effect of a directive on everything that is not kept by directory. */
  function MergedWith(m: Merged, d: Directive): Merged {
    match d.body
    case Set(setting, value) => m.(settings := m.settings[setting := value])
    case Require(requirement) =>
      if d.filesMatch != [] then
        m.(filesRules := m.filesRules + [FilesRule(d.filesMatch, DeniesAll(requirement))])
      else
        m.(requirements := m.requirements + [requirement])
    case Allow(from) => m.(allows := m.allows + [from])
    case Deny(from) => m.(denies := m.denies + [from])
    case SetHeader(header) => m.(headers := m.headers + [header])
    case ExpiresActive(active) => m.(expiresActive := active)
    case ExpiresByType(mime, expiry) => m.(expiresByType := m.expiresByType + [(mime, expiry)])
    case OnError(document) => m.(errorDocuments := m.errorDocuments + [document])
    case Indexes(forbidden) => m.(noIndexes := m.noIndexes || forbidden)
    case _ => m
  }

  lemma MergedWithIgnoresDirs(m: Merged, d: Directive)
    ensures d.body.RewriteEngine? || d.body.RewriteBase? || d.body.RewriteRule? || d.body.Redirection? ==>
              MergedWith(m, d) == m
  {
  }

  class DirContext {
    const urlPrefix: Text
    var rewriteBase: Text
    var rewriteEngine: bool
    var directives: seq<Body>

    constructor (urlPrefix: Text)
      ensures Value() == FreshDir(urlPrefix)
    {
      this.urlPrefix := urlPrefix;
      rewriteBase, rewriteEngine, directives := [SLASH], false, [];
    }

    function Value(): Dir
      reads this
    {
      Dir(urlPrefix, rewriteBase, rewriteEngine, directives)
    }

    /** `htaccess_mark_rewrite_chains`: the first rule after each rule with the C flag gets its `chain_in` bit. */
    method MarkRewriteChains()
      modifies this`directives
      ensures directives == Marked(old(directives))
    {
      ghost var bodies := directives;
      for i := 0 to |directives|
        invariant |directives| == |bodies|
        invariant forall k :: 0 <= k < |bodies| ==> directives[k] == MarkedBy(bodies, i, k)
      {
        if !directives[i].RewriteRule? || !directives[i].rule.chain {
          NoneLed(bodies, i);
          continue;
        }
        var j := i + 1;
        while j < |directives| && !directives[j].RewriteRule?
          invariant i < j <= |directives|
          invariant forall k :: i < k < j ==> !bodies[k].RewriteRule?
        {
          j := j + 1;
        }
        NextLed(bodies, i, j);
        if j < |directives| {
          directives := directives[j := RewriteRule(directives[j].rule.(chainIn := true))];
        }
      }
      forall k | 0 <= k < |bodies|
        ensures MarkedBy(bodies, |bodies|, k) == MarkOne(bodies, k)
      {
        LedByAll(bodies, k);
      }
    }
  }

  function FreshDir(urlPrefix: Text): Dir {
    Dir(urlPrefix, [SLASH], false, [])
  }

  // ----- marking, rule by rule -----

  ghost predicate LedBy(bodies: seq<Body>, i: nat, k: nat)
    requires k < |bodies|
  {
    exists c :: 0 <= c < i && c < k && Leads(bodies, c, k)
  }

  /** Position `k` once the first `i` bodies have been gone through. */
  ghost function MarkedBy(bodies: seq<Body>, i: nat, k: nat): Body
    requires k < |bodies|
  {
    if bodies[k].RewriteRule? && LedBy(bodies, i, k) then RewriteRule(bodies[k].rule.(chainIn := true)) else bodies[k]
  }

  lemma LedByAll(bodies: seq<Body>, k: nat)
    requires k < |bodies|
    ensures LedBy(bodies, |bodies|, k) <==> LeadsInto(bodies, k)
  {
  }

  lemma LedByOneMore(bodies: seq<Body>, i: nat, k: nat)
    requires i < |bodies| && k < |bodies|
    ensures LedBy(bodies, i + 1, k) <==> LedBy(bodies, i, k) || (i < k && Leads(bodies, i, k))
  {
    if LedBy(bodies, i, k) {
      var c :| 0 <= c < i && c < k && Leads(bodies, c, k);
      assert c < i + 1;
    }
  }

  lemma NoneLed(bodies: seq<Body>, i: nat)
    requires i < |bodies| && !(bodies[i].RewriteRule? && bodies[i].rule.chain)
    ensures forall k :: 0 <= k < |bodies| ==> MarkedBy(bodies, i + 1, k) == MarkedBy(bodies, i, k)
  {
    forall k | 0 <= k < |bodies|
      ensures MarkedBy(bodies, i + 1, k) == MarkedBy(bodies, i, k)
    {
      LedByOneMore(bodies, i, k);
    }
  }

  /** Of the rules, a rule with the C flag leads into the next one only. */
  lemma NextLed(bodies: seq<Body>, i: nat, j: nat)
    requires i < j <= |bodies| && bodies[i].RewriteRule? && bodies[i].rule.chain
    requires forall k :: i < k < j ==> !bodies[k].RewriteRule?
    requires j < |bodies| ==> bodies[j].RewriteRule?
    ensures forall k :: 0 <= k < |bodies| ==>
              MarkedBy(bodies, i + 1, k) ==
              if k == j then RewriteRule(bodies[k].rule.(chainIn := true)) else MarkedBy(bodies, i, k)
  {
    forall k | 0 <= k < |bodies|
      ensures MarkedBy(bodies, i + 1, k) ==
              if k == j then RewriteRule(bodies[k].rule.(chainIn := true)) else MarkedBy(bodies, i, k)
    {
      LedByOneMore(bodies, i, k);
      if k == j {
        assert Leads(bodies, i, j);
      } else if bodies[k].RewriteRule? && i < k && Leads(bodies, i, k) {
        assert false;
      }
    }
  }

  class MergedContext {
    var dirs: seq<Dir>
    var settings: map<Setting, Text>
    var requirements: seq<Text>
    var allows: seq<Text>
    var denies: seq<Text>
    var headers: seq<Header>
    var expiresActive: bool
    var expiresByType: seq<(Text, Text)>
    var errorDocuments: seq<ErrorDocument>
    var noIndexes: bool
    var filesRules: seq<FilesRule>

    constructor ()
      ensures Value() == NOTHING_MERGED
    {
      dirs, settings, requirements, allows, denies, headers := [], map[], [], [], [], [];
      expiresActive, expiresByType, errorDocuments, noIndexes, filesRules := false, [], [], false, [];
    }

    function Value(): Merged
      reads this
    {
      Merged(dirs, settings, requirements, allows, denies, headers, expiresActive, expiresByType, errorDocuments,
             noIndexes, filesRules)
    }

    /** `htaccess_merge_directive`. */
    method MergeDirective(dir: DirContext, d: Directive)
      modifies this, dir
      ensures Value() == old(MergedWith(Value(), d))
      ensures dir.Value() == old(MergedDir(dir.Value(), d.body))
    {
      hide Marked, MergedWith;
      MergedWithIgnoresDirs(Value(), d);
      match d.body {
        case RewriteEngine(on) => dir.rewriteEngine := on;
        case RewriteBase(base) => dir.rewriteBase := base;
        case RewriteRule(_) =>
          dir.directives := dir.directives + [d.body];
          dir.MarkRewriteChains();
        case Redirection(_, _) => dir.directives := dir.directives + [d.body];
        case _ => MergeShared(d);
      }
    }

    /** The rest of the switch: what is not kept by directory. */
    method MergeShared(d: Directive)
      modifies this
      ensures Value() == old(MergedWith(Value(), d))
    {
      hide DeniesAll;
      match d.body {
        case Set(setting, value) => settings := settings[setting := value];
        case Require(requirement) =>
          if |d.filesMatch| > 0 {
            filesRules := filesRules + [FilesRule(d.filesMatch, DeniesAll(requirement))];
          } else {
            requirements := requirements + [requirement];
          }
        case Allow(from) => allows := allows + [from];
        case Deny(from) => denies := denies + [from];
        case SetHeader(header) => headers := headers + [header];
        case ExpiresActive(active) => expiresActive := active;
        case ExpiresByType(mime, expiry) => expiresByType := expiresByType + [(mime, expiry)];
        case OnError(document) => errorDocuments := errorDocuments + [document];
        case Indexes(forbidden) =>
          if forbidden {
            noIndexes := true;
          }
        case _ =>
      }
    }

    /** `htaccess_merge_parsed`, with the directory pushed once it is complete. */
    method MergeParsed(urlPrefix: Text, file: ParsedFile)
      modifies this
      ensures Value() == old(WithFile(Value(), urlPrefix, file))
    {
      var dir := new DirContext(urlPrefix);
      ghost var m := Value();
      var ds := file.directives;
      hide MergedWith, MergedDir;
      for i := 0 to |ds|
        invariant Value() == MergedAll(m, ds[..i])
        invariant dir.Value() == DirAll(FreshDir(urlPrefix), ds[..i])
      {
        assert ds[..i + 1][..i] == ds[..i];
        MergeDirective(dir, ds[i]);
      }
      assert ds[..|ds|] == ds;
      dirs := dirs + [dir.Value()];
    }
  }

  const NOTHING_MERGED: Merged := Merged([], map[], [], [], [], [], false, [], [], false, [])

  function MergedAll(m: Merged, ds: seq<Directive>): Merged
    decreases |ds|
  {
    if ds == [] then m else MergedWith(MergedAll(m, ds[..|ds| - 1]), ds[|ds| - 1])
  }

  ghost function DirAll(dir: Dir, ds: seq<Directive>): Dir
    decreases |ds|
  {
    if ds == [] then dir else MergedDir(DirAll(dir, ds[..|ds| - 1]), ds[|ds| - 1].body)
  }

  /** One more file on the walk: its directory comes last, its other directives after all earlier ones. */
  ghost function WithFile(m: Merged, urlPrefix: Text, file: ParsedFile): Merged {
    var m' := MergedAll(m, file.directives);
    m'.(dirs := m'.dirs + [DirAll(FreshDir(urlPrefix), file.directives)])
  }

  // ----- the walk -----

  datatype Conf = Conf(root: Text, filename: Text, cacheEnable: bool, maxRedirects: nat)

  function Slashed(s: Text): Text {
    if s == [] || s[|s| - 1] != SLASH then s + [SLASH] else s
  }

  /** The path of the file in the directory `suffix` below the root, as a C string. */
  function PathOf(conf: Conf, suffix: Text): Text {
    CString(Slashed(conf.root) + (if suffix == [] then [] else Slashed(suffix)) + conf.filename)
  }

  /** `htaccess_join_path`, and the length of its result as a C string. */
  method JoinPath(conf: Conf, suffix: Text) returns (path: Text)
    ensures path == PathOf(conf, suffix)
  {
    hide IndexFrom, CString;
    var len := |conf.root| + |suffix| + |conf.filename| + 3;
    var buf := new Byte[len];
    var p := WriteSlashed(buf, 0, conf.root);
    if |suffix| > 0 {
      p := WriteSlashed(buf, p, suffix);
    }
    ghost var dir := Slashed(conf.root) + if suffix == [] then [] else Slashed(suffix);
    assert buf[..p] == dir;
    p := CopyTo(buf, p, conf.filename);
    p := CopyTo(buf, p, [NUL]);
    var data := buf[..];
    assert data[..p] == dir + conf.filename + [NUL];
    TerminatedLength(dir + conf.filename, data);
    path := data[..IndexFrom(data, 0, NUL)];
  }

  /** Writes a directory name, closed by a slash. */
  method WriteSlashed(buf: array<Byte>, at: nat, s: Text) returns (p: nat)
    requires at + |s| + 1 <= buf.Length
    modifies buf
    ensures p == at + |Slashed(s)| && buf[..p] == old(buf[..at]) + Slashed(s)
  {
    p := CopyTo(buf, at, s);
    if |s| == 0 || s[|s| - 1] != SLASH {
      p := CopyTo(buf, p, [SLASH]);
    }
  }

  lemma TerminatedLength(s: Text, data: Text)
    requires |s| < |data| && data[..|s| + 1] == s + [NUL]
    ensures data[..IndexFrom(data, 0, NUL)] == CString(s)
  {
    assert data[|s|] == (s + [NUL])[|s|];
    assert forall k :: 0 <= k < |s| ==> data[k] == data[..|s| + 1][k] == s[k];
    IndexFromIs(data, 0, NUL, IndexFrom(s, 0, NUL));
  }

  /** What one load contributes. */
  ghost function Visited(m: Merged, urlPrefix: Text, file: FileState): Merged {
    match Direct(ViewOf(file))
    case Loaded(f) => WithFile(m, urlPrefix, f)
    case _ => m
  }

  /** The directories at the slashes of `uri` from `i` on, the loads numbered from `tick`. */
  ghost function WalkFrom(world: World, tick: nat, conf: Conf, uri: Text, i: nat, m: Merged): (Merged, nat)
    requires i >= 1
    decreases |uri| - i
  {
    if i >= |uri| then (m, tick)
    else if uri[i] != SLASH then WalkFrom(world, tick, conf, uri, i + 1, m)
    else
      WalkFrom(world, tick + 1, conf, uri, i + 1,
               Visited(m, uri[..i], world(tick, PathOf(conf, uri[1..i]))))
  }

  /** All directories on the way to `uri`, loaded without a cache. */
  ghost function WalkAll(world: World, tick: nat, conf: Conf, uri: Text): (Merged, nat) {
    WalkFrom(world, tick + 1, conf, uri, 1, Visited(NOTHING_MERGED, [], world(tick, PathOf(conf, []))))
  }

  /** Whatever happens to the file system, (mtime, size) of a path determines what reading it yields. */
  ghost predicate Consistent(world: World, history: History) {
    forall n, path :: ConsistentAt(world, history, n, path)
  }

  ghost predicate ConsistentAt(world: World, history: History, n: nat, path: Text) {
    Agrees(Load(path, ViewOf(world(n, path))), history)
  }

  // ----- the loads of a walk -----

  ghost function LoadOf(world: World, tick: nat, conf: Conf, suffix: Text): Load {
    var path := PathOf(conf, suffix);
    Load(path, ViewOf(world(tick, path)))
  }

  /** The loads `WalkFrom` makes. */
  ghost function LoadsFrom(world: World, tick: nat, conf: Conf, uri: Text, i: nat): seq<Load>
    requires i >= 1
    decreases |uri| - i
  {
    if i >= |uri| then []
    else if uri[i] != SLASH then LoadsFrom(world, tick, conf, uri, i + 1)
    else [LoadOf(world, tick, conf, uri[1..i])] + LoadsFrom(world, tick + 1, conf, uri, i + 1)
  }

  /** Of some loads, those that the cache sees: all of them or none. */
  ghost function ThroughCache(conf: Conf, loads: seq<Load>): seq<Load> {
    if conf.cacheEnable then loads else []
  }

  /** The loads a walk makes through the cache, one for each directory on the way to `uri`. */
  ghost function WalkLoads(world: World, tick: nat, conf: Conf, uri: Text): seq<Load> {
    ThroughCache(conf, [LoadOf(world, tick, conf, [])] + LoadsFrom(world, tick + 1, conf, uri, 1))
  }

  /** A cache in the state `s` of a run, all of whose entries are true of the history. */
  ghost predicate Sound(cache: LruCache, history: History, s: RunState)
    reads cache, cache.lru, cache.links
  {
    && cache.Valid() && Coherent(cache.Contents(), history)
    && cache.Contents() == s.entries && cache.clock == s.now
  }

  lemma ThroughCacheConcat(s: RunState, max: nat, conf: Conf, a: seq<Load>, b: seq<Load>)
    requires 1 <= max
    ensures Run(Run(s, max, ThroughCache(conf, a)), max, ThroughCache(conf, b))
         == Run(s, max, ThroughCache(conf, a + b))
  {
    hide Run;
    RunConcat(s, max, a, b);
    if !conf.cacheEnable {
      RunNone(s, max);
    }
  }

  lemma RunOne(s: RunState, max: nat, load: Load)
    requires 1 <= max
    ensures Run(s, max, [load]) == After(s, max, load)
  {
    assert [load][..0] == [];
    assert Run(s, max, []) == s;
  }

  /** One directory of the walk. */
  method VisitDirectory(cache: LruCache, conf: Conf, world: World, tick: nat, urlPrefix: Text, suffix: Text,
                        merged: MergedContext, ghost history: History, ghost s: RunState)
    requires Sound(cache, history, s) && Consistent(world, history)
    requires merged !in cache.Repr()
    modifies cache.Repr(), merged
    ensures Sound(cache, history, Run(s, cache.maxEntries, ThroughCache(conf, [LoadOf(world, tick, conf, suffix)])))
    ensures fresh(cache.Repr() - old(cache.Repr()))
    ensures merged.Value() == old(Visited(merged.Value(), urlPrefix, world(tick, PathOf(conf, suffix))))
  {
    hide CachedLoad, WithFile, ViewOf, Run;
    var path := JoinPath(conf, suffix);
    var file := world(tick, path);
    assert ConsistentAt(world, history, tick, path);
    LoadIsTransparent(cache.Contents(), cache.maxEntries, cache.clock, Load(path, ViewOf(file)), history);
    RunOne(s, cache.maxEntries, Load(path, ViewOf(file)));
    RunNone(s, cache.maxEntries);
    var o := LoadFile(cache, conf.cacheEnable, path, file);
    if o.Loaded? {
      merged.MergeParsed(urlPrefix, o.file);
    }
  }

  lemma RunNone(s: RunState, max: nat)
    requires 1 <= max
    ensures Run(s, max, []) == s
  {
  }

  /** A walk of `uri` has got to position `i`: what it has merged and loaded, and the rest, make up the whole. */
  ghost predicate Walking(world: World, tick: nat, conf: Conf, uri: Text, i: nat, tick': nat, m: Merged,
                          done: seq<Load>) {
    && i >= 1
    && WalkFrom(world, tick', conf, uri, i, m) == WalkAll(world, tick, conf, uri)
    && ThroughCache(conf, done + LoadsFrom(world, tick', conf, uri, i)) == WalkLoads(world, tick, conf, uri)
  }

  lemma WalkStarts(world: World, tick: nat, conf: Conf, uri: Text)
    ensures Walking(world, tick, conf, uri, 1, tick + 1, Visited(NOTHING_MERGED, [], world(tick, PathOf(conf, []))),
                    [LoadOf(world, tick, conf, [])])
  {
  }

  lemma WalkPasses(world: World, tick: nat, conf: Conf, uri: Text, i: nat, tick': nat, m: Merged, done: seq<Load>)
    requires Walking(world, tick, conf, uri, i, tick', m, done) && i < |uri|
    ensures if uri[i] != SLASH then Walking(world, tick, conf, uri, i + 1, tick', m, done)
            else Walking(world, tick, conf, uri, i + 1, tick' + 1,
                         Visited(m, uri[..i], world(tick', PathOf(conf, uri[1..i]))),
                         done + [LoadOf(world, tick', conf, uri[1..i])])
  {
    hide Visited, PathOf, LoadOf, WalkLoads, WalkAll, ThroughCache;
    if uri[i] == SLASH {
      var here, rest := [LoadOf(world, tick', conf, uri[1..i])], LoadsFrom(world, tick' + 1, conf, uri, i + 1);
      assert done + (here + rest) == done + here + rest;
    }
  }

  lemma WalkEnds(world: World, tick: nat, conf: Conf, uri: Text, i: nat, tick': nat, m: Merged, done: seq<Load>)
    requires Walking(world, tick, conf, uri, i, tick', m, done) && |uri| <= i
    ensures (m, tick') == WalkAll(world, tick, conf, uri)
    ensures ThroughCache(conf, done) == WalkLoads(world, tick, conf, uri)
  {
    assert done + [] == done;
  }

  /**
   `htaccess_build_merged_ctx`.  Through the cache it builds exactly what loading and parsing
   every file afresh would give, and takes the cache through exactly the loads of the walk.
   Merged files are values here; they are still in memory where the walk is `Intact`.
   */
  method BuildMergedCtx(cache: LruCache, conf: Conf, world: World, tick: nat, uri: Text,
                        ghost history: History, ghost s: RunState)
    returns (merged: MergedContext, tick': nat)
    requires Sound(cache, history, s) && Consistent(world, history)
    modifies cache.Repr()
    ensures Sound(cache, history, Run(s, cache.maxEntries, WalkLoads(world, tick, conf, uri)))
    ensures fresh(cache.Repr() - old(cache.Repr()))
    ensures fresh(merged) && (merged.Value(), tick') == WalkAll(world, tick, conf, uri)
  {
    hide Visited, PathOf, Sound, LoadOf, Run, ThroughCache, Consistent, Walking, WalkAll, WalkLoads;
    merged := new MergedContext();
    ghost var done := [LoadOf(world, tick, conf, [])];
    VisitDirectory(cache, conf, world, tick, [], [], merged, history, s);
    tick' := tick + 1;
    WalkStarts(world, tick, conf, uri);
    var i := 1;
    while i < |uri|
      invariant Sound(cache, history, Run(s, cache.maxEntries, ThroughCache(conf, done)))
      invariant fresh(cache.Repr() - old(cache.Repr())) && merged !in cache.Repr()
      invariant i >= 1 && Walking(world, tick, conf, uri, i, tick', merged.Value(), done)
    {
      WalkPasses(world, tick, conf, uri, i, tick', merged.Value(), done);
      if uri[i] == SLASH {
        ghost var here := [LoadOf(world, tick', conf, uri[1..i])];
        ThroughCacheConcat(s, cache.maxEntries, conf, done, here);
        VisitDirectory(cache, conf, world, tick', uri[..i], uri[1..i], merged, history,
                       Run(s, cache.maxEntries, ThroughCache(conf, done)));
        done := done + here;
        tick' := tick' + 1;
      }
      i := i + 1;
    }
    WalkEnds(world, tick, conf, uri, i, tick', merged.Value(), done);
  }
}
