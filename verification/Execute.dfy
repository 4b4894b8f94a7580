/** One request (htaccess_execute.c): passes of merging, redirecting, rewriting and authorising. */
module Execute {
  import opened Options
  import opened Bytes
  import opened Directives
  import opened CacheModel
  import opened CacheRuns
  import opened Cache
  import opened Lifetimes
  import opened Rewrite
  import opened Walk

  const UNAUTHORIZED: nat := 401
  const FORBIDDEN: nat := 403

  datatype Authorisation = Allowed | Unauthorized | Denied

  /**
   The decisions taken elsewhere: regular expressions and conditions, whether a files rule
   denies the URI, the first matching redirection (its target and code), and the
   authorisation verdict.
   */
  datatype Deciders = Deciders(
    oracle: Oracle,
    filesDenied: (Merged, Text) -> bool,
    redirection: (Merged, Text) -> Option<(Text, nat)>,
    authorise: (Merged, Text) -> Authorisation)

  /**
   The decisions of every pass, by the number of the first load after its walk: what a
   condition or the password file says may change from each pass to the next.
   */
  type Decisions = nat -> Deciders

  ghost predicate AllValid(ds: Decisions) {
    forall n :: ds(n).oracle.Valid()
  }

  /** What the handler returns: NGX_DECLINED, a status, or a redirect with its Location. */
  datatype Response = Declines | Answers(status: nat) | Redirects(status: nat, location: Text)

  // ----- the steps of a pass -----

  /** The file a URI denotes (`htaccess_resolve_filename`). */
  function Resolved(root: Text, uri: Text): Text {
    if root == [] then [] else Slashed(root) + if |uri| > 1 then uri[1..] else []
  }

  method ResolveFilename(root: Text, s: State)
    modifies s`filename
    ensures s.filename == Resolved(root, s.uri)
  {
    if |root| == 0 {
      s.filename := [];
      return;
    }
    var len := |root| + |s.uri| + 1;
    var buf := new Byte[len];
    var p := WriteSlashed(buf, 0, root);
    if |s.uri| > 1 {
      p := CopyTo(buf, p, s.uri[1..]);
    }
    s.filename := buf[..p];
  }

  function Location(uri: Text): Text {
    if uri != [] && uri[0] != SLASH && uri[0] != LOWER_H then [SLASH] + uri else uri
  }

  /** `htaccess_send_redirect`. */
  function SendRedirect(m: Machine): Response {
    Redirects(if m.redirectCode != 0 then m.redirectCode else MOVED_TEMPORARILY, Location(m.uri))
  }

  /** `htaccess_apply_uri`. */
  function UriApplied(m: Machine): Machine {
    m.(rUri := m.uri, unparsedUri := Unparsed(m.uri, m.rArgs), validUnparsedUri := false, internal := true)
  }

  method ApplyUri(r: Request, s: State)
    modifies r
    ensures Snapshot(r, s) == old(UriApplied(Snapshot(r, s)))
  {
    r.uri := s.uri;
    if |r.args| > 0 {
      r.unparsedUri := r.uri + [QUESTION] + r.args;
    } else {
      r.unparsedUri := r.uri;
    }
    r.validUnparsedUri := false;
    r.internal := true;
  }

  /** The first ErrorDocument for a code. */
  function ErrorUri(docs: seq<ErrorDocument>, code: nat): Option<Text> {
    if docs == [] then None
    else if docs[0].code == code then Some(docs[0].uri)
    else ErrorUri(docs[1..], code)
  }

  /** `htaccess_error_uri`. */
  method FindErrorUri(docs: seq<ErrorDocument>, code: nat) returns (uri: Option<Text>)
    ensures uri == ErrorUri(docs, code)
  {
    for i := 0 to |docs|
      invariant ErrorUri(docs, code) == ErrorUri(docs[i..], code)
    {
      if docs[i].code == code {
        return Some(docs[i].uri);
      }
      assert docs[i..][1..] == docs[i + 1..];
    }
    return None;
  }

  // ----- one pass -----

  /** How a pass ends: with another pass, after a rewrite or for an error document, or with a response. */
  datatype PassResult = Again(m: Machine, rewritten: bool) | Final(response: Response, m: Machine)

  function Refused(merged: Merged, status: nat, m: Machine): PassResult {
    match ErrorUri(merged.errorDocuments, status)
    case Some(uri) => Again(UriApplied(m.(uri := uri)), false)
    case None => Final(Answers(status), m)
  }

  function AfterRewrite(d: Deciders, conf: Conf, merged: Merged, result: Result, m: Machine): PassResult {
    match result
    case ResultRedirect => Final(SendRedirect(m), m)
    case ResultOk => Again(UriApplied(m).(filename := Resolved(conf.root, m.uri)), true)
    case _ =>
      match d.authorise(merged, m.rUri)
      case Unauthorized => Refused(merged, UNAUTHORIZED, m)
      case Denied => Refused(merged, FORBIDDEN, m)
      case Allowed => Final(Declines, m)
  }

  /** A pass over a merged context; only the first checks the files rules, against the original URI. */
  function Pass(d: Deciders, site: Site, conf: Conf, merged: Merged, first: bool, requestUri: Text, m: Machine)
    : PassResult
    requires d.oracle.Valid()
  {
    if first && d.filesDenied(merged, requestUri) then Final(Answers(FORBIDDEN), m)
    else
      match d.redirection(merged, m.uri)
      case Some((target, code)) =>
        var m' := m.(uri := target, redirectCode := code);
        Final(SendRedirect(m'), m')
      case None =>
        var p := RunDirs(d.oracle, site, merged.dirs, false, m);
        AfterRewrite(d, conf, merged, ResultOf(p), p.m)
  }

  datatype PassVerdict = GoOn(rewritten: bool) | Respond(response: Response)

  function PassVerdictOf(p: PassResult): PassVerdict {
    match p
    case Again(_, rewritten) => GoOn(rewritten)
    case Final(response, _) => Respond(response)
  }

  method Refuse(merged: Merged, status: nat, r: Request, s: State) returns (v: PassVerdict)
    modifies r, s
    ensures var p := old(Refused(merged, status, Snapshot(r, s)));
            v == PassVerdictOf(p) && Snapshot(r, s) == p.m
  {
    var uri := FindErrorUri(merged.errorDocuments, status);
    if uri.Some? {
      s.uri := uri.value;
      ApplyUri(r, s);
      return GoOn(false);
    }
    return Respond(Answers(status));
  }

  method Conclude(d: Deciders, conf: Conf, merged: Merged, result: Result, r: Request, s: State)
    returns (v: PassVerdict)
    modifies r, s
    ensures var p := old(AfterRewrite(d, conf, merged, result, Snapshot(r, s)));
            v == PassVerdictOf(p) && Snapshot(r, s) == p.m
  {
    match result {
      case ResultRedirect =>
        return Respond(SendRedirect(Snapshot(r, s)));
      case ResultOk =>
        ApplyUri(r, s);
        ResolveFilename(conf.root, s);
        return GoOn(true);
      case _ =>
        match d.authorise(merged, r.uri) {
          case Unauthorized => v := Refuse(merged, UNAUTHORIZED, r, s);
          case Denied => v := Refuse(merged, FORBIDDEN, r, s);
          case Allowed => return Respond(Declines);
        }
    }
  }

  method RunPass(d: Deciders, site: Site, conf: Conf, merged: Merged, first: bool, requestUri: Text,
                 r: Request, s: State)
    returns (v: PassVerdict)
    requires d.oracle.Valid()
    modifies r, s
    ensures var p := old(Pass(d, site, conf, merged, first, requestUri, Snapshot(r, s)));
            v == PassVerdictOf(p) && Snapshot(r, s) == p.m
  {
    hide RunDirs, AfterRewrite;
    if first && d.filesDenied(merged, requestUri) {
      return Respond(Answers(FORBIDDEN));
    }
    var redirection := d.redirection(merged, s.uri);
    if redirection.Some? {
      s.uri := redirection.value.0;
      s.redirectCode := redirection.value.1;
      return Respond(SendRedirect(Snapshot(r, s)));
    }
    var result := ApplyRewrite(d.oracle, site, merged.dirs, r, s);
    v := Conclude(d, conf, merged, result, r, s);
  }

  // ----- the passes -----

  /** How the head of a pass was reached. */
  datatype Arrival = Initially | ByRewrite | ByErrorDocument

  /** Where a request stands after some passes: at the head of the next one, or answered. */
  datatype Point =
    | Head(m: Machine, tick: nat, arrival: Arrival)
    | Over(response: Response, m: Machine, tick: nat)

  /** A request as it enters or leaves the handler. */
  datatype Arriving = Arriving(uri: Text, args: Text, unparsedUri: Text, validUnparsedUri: bool, internal: bool)

  function RequestOf(r: Request): Arriving
    reads r
  {
    Arriving(r.uri, r.args, r.unparsedUri, r.validUnparsedUri, r.internal)
  }

  /** Request and state before the first pass. */
  function Incoming(conf: Conf, a: Arriving): Machine {
    Machine(a.uri, a.args, a.unparsedUri, a.validUnparsedUri, a.internal,
            a.uri, Resolved(conf.root, a.uri), a.args, [], 0)
  }

  function Outgoing(m: Machine): Arriving {
    Arriving(m.rUri, m.rArgs, m.unparsedUri, m.validUnparsedUri, m.internal)
  }

  ghost function NextPoint(ds: Decisions, site: Site, conf: Conf, world: World, first: bool, requestUri: Text, p: Point)
    : Point
    requires AllValid(ds)
  {
    match p
    case Over(_, _, _) => p
    case Head(m, tick, _) =>
      var (merged, tick') := WalkAll(world, tick, conf, m.rUri);
      match Pass(ds(tick'), site, conf, merged, first, requestUri, m)
      case Again(m', rewritten) => Head(m', tick', if rewritten then ByRewrite else ByErrorDocument)
      case Final(response, m') => Over(response, m', tick')
  }

  /** The request after `n` passes, every file on the way loaded afresh; loads are numbered from `tick`. */
  ghost function PointAt(ds: Decisions, site: Site, conf: Conf, world: World, tick: nat, m: Machine, n: nat): Point
    requires AllValid(ds)
  {
    if n == 0 then Head(m, tick, Initially)
    else NextPoint(ds, site, conf, world, n == 1, m.rUri, PointAt(ds, site, conf, world, tick, m, n - 1))
  }

  function ResponseOf(p: Point): Response {
    match p
    case Head(_, _, _) => Declines
    case Over(response, _, _) => response
  }

  lemma {:induction false} OverIsFinal(ds: Decisions, site: Site, conf: Conf, world: World, tick: nat, m: Machine,
                                       n: nat, k: nat)
    requires AllValid(ds) && n <= k && PointAt(ds, site, conf, world, tick, m, n).Over?
    ensures PointAt(ds, site, conf, world, tick, m, k) == PointAt(ds, site, conf, world, tick, m, n)
    decreases k
  {
    hide WalkAll, Pass;
    if n == k {
    } else {
      OverIsFinal(ds, site, conf, world, tick, m, n, k - 1);
    }
  }

  // ----- the loads of a request -----

  /** The loads through the cache of the pass that starts at `p`. */
  ghost function PassLoads(conf: Conf, world: World, p: Point): seq<Load> {
    if p.Head? then WalkLoads(world, p.tick, conf, p.m.rUri) else []
  }

  /** The loads of the first `n` passes. */
  ghost function RequestLoads(ds: Decisions, site: Site, conf: Conf, world: World, tick: nat, m: Machine, n: nat)
    : seq<Load>
    requires AllValid(ds)
  {
    if n == 0 then []
    else RequestLoads(ds, site, conf, world, tick, m, n - 1)
         + PassLoads(conf, world, PointAt(ds, site, conf, world, tick, m, n - 1))
  }

  lemma {:induction false} NoLoadsOnceOver(ds: Decisions, site: Site, conf: Conf, world: World, tick: nat, m: Machine,
                                           n: nat, k: nat)
    requires AllValid(ds) && n <= k && PointAt(ds, site, conf, world, tick, m, n).Over?
    ensures RequestLoads(ds, site, conf, world, tick, m, k) == RequestLoads(ds, site, conf, world, tick, m, n)
    decreases k
  {
    hide PointAt, WalkLoads;
    if n == k {
    } else {
      OverIsFinal(ds, site, conf, world, tick, m, n, k - 1);
      NoLoadsOnceOver(ds, site, conf, world, tick, m, n, k - 1);
    }
  }

  lemma LoadsOfNextPass(ds: Decisions, site: Site, conf: Conf, world: World, tick: nat, m: Machine, n: nat,
                        s: RunState, max: nat)
    requires AllValid(ds) && 1 <= max
    ensures Run(Run(s, max, RequestLoads(ds, site, conf, world, tick, m, n)), max,
                PassLoads(conf, world, PointAt(ds, site, conf, world, tick, m, n)))
         == Run(s, max, RequestLoads(ds, site, conf, world, tick, m, n + 1))
  {
    hide PointAt, PassLoads, Run;
    RunConcat(s, max, RequestLoads(ds, site, conf, world, tick, m, n),
              PassLoads(conf, world, PointAt(ds, site, conf, world, tick, m, n)));
  }

  method TakePass(ds: Decisions, site: Site, conf: Conf, world: World, tick: nat, cache: LruCache, first: bool,
                  requestUri: Text, r: Request, s: State, ghost arrival: Arrival, ghost history: History,
                  ghost run: RunState)
    returns (v: PassVerdict, tick': nat)
    requires AllValid(ds)
    requires Sound(cache, history, run) && Consistent(world, history)
    requires r !in cache.Repr() && s !in cache.Repr()
    modifies cache.Repr(), r, s
    ensures Sound(cache, history, Run(run, cache.maxEntries,
                                      old(PassLoads(conf, world, Head(Snapshot(r, s), tick, arrival)))))
    ensures fresh(cache.Repr() - old(cache.Repr()))
    ensures var p := old(NextPoint(ds, site, conf, world, first, requestUri, Head(Snapshot(r, s), tick, arrival)));
            match v
            case Respond(response) => p == Over(response, Snapshot(r, s), tick')
            case GoOn(rewritten) =>
              p == Head(Snapshot(r, s), tick', if rewritten then ByRewrite else ByErrorDocument)
  {
    hide WalkAll, Pass, Sound, WalkLoads, Run;
    ghost var m := Snapshot(r, s);
    var merged;
    merged, tick' := BuildMergedCtx(cache, conf, world, tick, r.uri, history, run);
    assert Snapshot(r, s) == m;
    v := RunPass(ds(tick'), site, conf, merged.Value(), first, requestUri, r, s);
  }

  /**
   `htaccess_execute`.  It answers, through the cache and whatever the file system does between
   loads, as if every file were loaded and parsed afresh, and leaves the request as that would.
   The cache goes through exactly the loads of the request.  Merged files are values here: what
   this says of the C code holds of requests whose loads are `Intact`, the others read a file
   that their own loads have evicted.
   */
  method HandleRequest(ds: Decisions, site: Site, conf: Conf, world: World, tick: nat,
                       cache: LruCache, r: Request, ghost history: History, ghost run: RunState)
    returns (response: Response, tick': nat)
    requires AllValid(ds)
    requires Sound(cache, history, run) && Consistent(world, history)
    requires r !in cache.Repr()
    modifies cache.Repr(), r
    ensures Sound(cache, history, Run(run, cache.maxEntries,
              RequestLoads(ds, site, conf, world, tick, Incoming(conf, old(RequestOf(r))), conf.maxRedirects)))
    ensures fresh(cache.Repr() - old(cache.Repr()))
    ensures var p := PointAt(ds, site, conf, world, tick, Incoming(conf, old(RequestOf(r))), conf.maxRedirects);
            response == ResponseOf(p) && tick' == p.tick && RequestOf(r) == Outgoing(p.m)
  {
    hide NextPoint, Sound, Consistent, Run, PassLoads, RequestLoads;
    var s := new State(r.uri, r.args);
    var requestUri := r.uri;
    ResolveFilename(conf.root, s);
    ghost var m := Snapshot(r, s);
    NoLoadsYet(ds, site, conf, world, tick, m, run, cache.maxEntries);
    tick' := tick;
    ghost var arrival := Initially;
    for pass := 0 to conf.maxRedirects
      invariant Sound(cache, history, Run(run, cache.maxEntries, RequestLoads(ds, site, conf, world, tick, m, pass)))
      invariant fresh(cache.Repr() - old(cache.Repr()))
      invariant r !in cache.Repr() && s !in cache.Repr()
      invariant PointAt(ds, site, conf, world, tick, m, pass) == Head(Snapshot(r, s), tick', arrival)
    {
      var v;
      LoadsOfNextPass(ds, site, conf, world, tick, m, pass, run, cache.maxEntries);
      v, tick' := TakePass(ds, site, conf, world, tick', cache, pass == 0, requestUri, r, s, arrival, history,
                           Run(run, cache.maxEntries, RequestLoads(ds, site, conf, world, tick, m, pass)));
      match v {
        case Respond(answer) =>
          OverIsFinal(ds, site, conf, world, tick, m, pass + 1, conf.maxRedirects);
          NoLoadsOnceOver(ds, site, conf, world, tick, m, pass + 1, conf.maxRedirects);
          return answer, tick';
        case GoOn(rewritten) =>
          arrival := if rewritten then ByRewrite else ByErrorDocument;
      }
    }
    return Declines, tick';
  }

  lemma NoLoadsYet(ds: Decisions, site: Site, conf: Conf, world: World, tick: nat, m: Machine, s: RunState, max: nat)
    requires AllValid(ds) && 1 <= max
    ensures Run(s, max, RequestLoads(ds, site, conf, world, tick, m, 0)) == s
  {
  }
}
