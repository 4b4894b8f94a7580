/** What holds at the head of every pass of every request, and how far a request can grow. */
module ExecuteLaws {
  import opened Bytes
  import opened Directives
  import opened Expander
  import opened Rewrite
  import opened RewriteLaws
  import opened Walk
  import opened Execute

  /** Request and state agree on URI and query. */
  predicate Synced(m: Machine) {
    m.uri == m.rUri && m.queryString == m.rArgs
  }

  /** The URI is absolute, and `unparsed_uri` splits back into URI and query. */
  predicate Splits(m: Machine) {
    && (m.uri == [] || m.uri[0] == SLASH)
    && QUESTION !in m.uri
    && SplitQuery(m.unparsedUri) == (m.uri, m.queryString)
  }

  // ----- one rule -----

  /** The size of the expansion buffer for a rule's base and substitution together. */
  function Size(dir: Dir, rule: Rule): nat {
    Capacity(dir.rewriteBase + rule.substitution)
  }

  /** `m'` is `m` after one rewrite to a target of at most `t` bytes. */
  ghost predicate OneRewrite(m: Machine, m': Machine, t: nat) {
    && Synced(m') && Splits(m') && m'.filename == m.filename
    && |m'.uri| <= t + 1 && |m'.queryString| <= |m.queryString| + t
  }

  /** Only the environment, or the URI and code of a redirect, changed. */
  ghost predicate SameRequest(m: Machine, m': Machine) {
    && m'.rUri == m.rUri && m'.rArgs == m.rArgs && m'.unparsedUri == m.unparsedUri
    && m'.filename == m.filename && m'.queryString == m.queryString
  }

  lemma TargetsAreBounded(vars: Vars, dir: Dir, rule: Rule, mt: Match)
    requires mt.Valid()
    ensures var d := Decided(vars, dir, rule, mt);
            d.RewriteTo? || d.RedirectTo? ==> |d.target| <= Size(dir, rule)
  {
    hide Expanded, Target;
    if !IsDash(rule.substitution) && Expanded(vars, rule.substitution, mt).Some? {
      TargetLength(vars, rule, dir.rewriteBase, mt);
    }
  }

  lemma RewritingOnce(m: Machine, target: Text, qsa: bool, t: nat)
    requires |target| <= t
    ensures OneRewrite(m, Rewritten(m, target, qsa), t)
  {
    RewrittenIsSplit(m, target, qsa);
    RewrittenLengths(m, target, qsa);
  }

  ghost predicate AttemptKeeps(a: Attempt, m: Machine, t: nat) {
    match a
    case Unmatched => true
    case Passed(m') => SameRequest(m, m') && m'.uri == m.uri
    case Rewrote(m') => OneRewrite(m, m', t)
    case Ended(ResultOk, m') => OneRewrite(m, m', t)
    case Ended(ResultRedirect, m') => SameRequest(m, m')
    case Ended(_, m') => SameRequest(m, m') && m'.uri == m.uri
  }

  lemma EffectKeeps(vars: Vars, dir: Dir, rule: Rule, m: Machine, mt: Match)
    requires mt.Valid()
    ensures AttemptKeeps(AfterMatch(vars, dir, rule, m, mt), m, Size(dir, rule))
  {
    hide Decided, Rewritten, Size;
    var d := Decided(vars, dir, rule, mt);
    TargetsAreBounded(vars, dir, rule, mt);
    if d.RewriteTo? {
      RewritingOnce(m, d.target, rule.qsa, Size(dir, rule));
    } else if d.Stop? {
      StopIsNoRewrite(vars, dir, rule, mt);
    }
  }

  lemma StopIsNoRewrite(vars: Vars, dir: Dir, rule: Rule, mt: Match)
    requires mt.Valid() && Decided(vars, dir, rule, mt).Stop?
    ensures var r := Decided(vars, dir, rule, mt).result; r == ResultDeclined || r == ResultError
  {
    hide Expanded, Target;
  }

  lemma RuleKeeps(o: Oracle, site: Site, dir: Dir, rule: Rule, m: Machine)
    requires o.Valid()
    ensures AttemptKeeps(AttemptRule(o, site, dir, rule, m), m, Size(dir, rule))
  {
    hide MatchOf, AfterMatch, EnvSetAll, Size;
    var x := MatchOf(o, dir, rule, VarsOf(site, m));
    if x.RuleMatches? {
      var m' := m.(env := EnvSetAll(VarsOf(site, m), rule.envVars, x.mt));
      EffectKeeps(VarsOf(site, m'), dir, rule, m', x.mt);
    }
  }

  // ----- all rules of a pass -----

  function RuleCount(bodies: seq<Body>): nat {
    if bodies == [] then 0 else (if bodies[0].RewriteRule? then 1 else 0) + RuleCount(bodies[1..])
  }

  function RulesOfDirs(dirs: seq<Dir>): nat {
    if dirs == [] then 0 else RuleCount(dirs[0].directives) + RulesOfDirs(dirs[1..])
  }

  ghost predicate SizesWithin(dir: Dir, bodies: seq<Body>, t: nat) {
    forall k :: 0 <= k < |bodies| && bodies[k].RewriteRule? ==> Size(dir, bodies[k].rule) <= t
  }

  /** Where the rule loop can have got to with at most `n` rewrites. */
  ghost predicate ProgressKeeps(p: Progress, m: Machine, n: nat, t: nat) {
    && p.m.filename == m.filename
    && |p.m.queryString| <= |m.queryString| + n * t
    && ((p.Done? && p.result.ResultRedirect?) || Synced(p.m))
    && (p.Done? && p.result.ResultOk? ==> Splits(p.m) && |p.m.uri| <= t + 1)
  }

  lemma StepsAdd(q0: nat, q1: nat, q2: nat, a: nat, b: nat, t: nat)
    requires q1 <= q0 + a * t && q2 <= q1 + b * t
    ensures q2 <= q0 + (a + b) * t
  {
  }

  lemma OneRuleKeeps(o: Oracle, site: Site, dir: Dir, rule: Rule, active: bool, m: Machine, t: nat)
    requires o.Valid() && Synced(m) && Size(dir, rule) <= t
    ensures ProgressKeeps(OneRule(o, site, dir, rule, active, m), m, 1, t)
  {
    hide AttemptRule, Size, Splits;
    RuleKeeps(o, site, dir, rule, m);
  }

  lemma ProgressComposes(p: Progress, p': Progress, m: Machine, a: nat, b: nat, t: nat)
    requires p.Going? && ProgressKeeps(p, m, a, t) && ProgressKeeps(p', p.m, b, t)
    ensures ProgressKeeps(p', m, a + b, t)
  {
    hide Splits, Synced;
    StepsAdd(|m.queryString|, |p.m.queryString|, |p'.m.queryString|, a, b, t);
  }

  lemma ProgressWeakens(p: Progress, m: Machine, a: nat, b: nat, t: nat)
    requires a <= b && ProgressKeeps(p, m, a, t)
    ensures ProgressKeeps(p, m, b, t)
  {
    hide Splits, Synced;
    assert a * t <= b * t;
  }

  lemma NoProgress(active: bool, m: Machine, t: nat)
    requires Synced(m)
    ensures ProgressKeeps(Going(active, m), m, 0, t)
  {
  }

  lemma {:induction false} BodiesKeep(o: Oracle, site: Site, dir: Dir, bodies: seq<Body>, active: bool,
                                      m: Machine, t: nat)
    requires o.Valid() && Synced(m) && SizesWithin(dir, bodies, t)
    ensures ProgressKeeps(RunBodies(o, site, dir, bodies, active, m), m, RuleCount(bodies), t)
    decreases |bodies|
  {
    hide OneRule, ProgressKeeps, Size;
    if bodies == [] {
      NoProgress(active, m, t);
    } else {
      var rest := bodies[1..];
      assert forall k :: 0 <= k < |rest| ==> rest[k] == bodies[k + 1];
      if !bodies[0].RewriteRule? {
        BodiesKeep(o, site, dir, rest, active, m, t);
      } else {
        OneRuleKeeps(o, site, dir, bodies[0].rule, active, m, t);
        var p := OneRule(o, site, dir, bodies[0].rule, active, m);
        if p.Going? {
          GoingIsSynced(p, m, 1, t);
          BodiesKeep(o, site, dir, rest, p.active, p.m, t);
          ProgressComposes(p, RunBodies(o, site, dir, rest, p.active, p.m), m, 1, RuleCount(rest), t);
        } else {
          ProgressWeakens(p, m, 1, RuleCount(bodies), t);
        }
      }
    }
  }

  lemma GoingIsSynced(p: Progress, m: Machine, n: nat, t: nat)
    requires ProgressKeeps(p, m, n, t) && p.Going?
    ensures Synced(p.m)
  {
  }

  ghost predicate DirsWithin(dirs: seq<Dir>, t: nat) {
    forall d :: d in dirs ==> SizesWithin(d, d.directives, t)
  }

  lemma {:induction false} DirsKeep(o: Oracle, site: Site, dirs: seq<Dir>, active: bool, m: Machine, t: nat)
    requires o.Valid() && Synced(m) && DirsWithin(dirs, t)
    ensures ProgressKeeps(RunDirs(o, site, dirs, active, m), m, RulesOfDirs(dirs), t)
    decreases |dirs|
  {
    hide RunBodies, ProgressKeeps, SizesWithin, RuleCount;
    if dirs == [] {
      NoProgress(active, m, t);
    } else {
      var rest, n := dirs[1..], RuleCount(dirs[0].directives);
      assert dirs[0] in dirs;
      if !dirs[0].rewriteEngine {
        DirsKeep(o, site, rest, active, m, t);
        ProgressWeakens(RunDirs(o, site, rest, active, m), m, RulesOfDirs(rest), RulesOfDirs(dirs), t);
      } else {
        BodiesKeep(o, site, dirs[0], dirs[0].directives, active, m, t);
        var p := RunBodies(o, site, dirs[0], dirs[0].directives, active, m);
        if p.Going? {
          GoingIsSynced(p, m, n, t);
          DirsKeep(o, site, rest, p.active, p.m, t);
          ProgressComposes(p, RunDirs(o, site, rest, p.active, p.m), m, n, RulesOfDirs(rest), t);
        } else {
          ProgressWeakens(p, m, n, RulesOfDirs(dirs), t);
        }
      }
    }
  }

  // ----- one pass -----

  /** The head of a pass reached from `m`. */
  ghost predicate HeadKeeps(root: Text, m: Machine, m': Machine, rewritten: bool, t: nat) {
    && Synced(m')
    && m'.unparsedUri == Unparsed(m'.rUri, m'.rArgs)
    && (if rewritten then Splits(m') && |m'.uri| <= t + 1 && m'.filename == Resolved(root, m'.uri)
        else m'.filename == m.filename)
  }

  ghost predicate PassKeeps(root: Text, p: PassResult, m: Machine, k: nat, t: nat) {
    && |p.m.queryString| <= |m.queryString| + k * t
    && (p.Again? ==> HeadKeeps(root, m, p.m, p.rewritten, t))
  }

  lemma RefusalKeeps(conf: Conf, merged: Merged, status: nat, m: Machine, m': Machine, k: nat, t: nat)
    requires Synced(m') && m'.filename == m.filename && |m'.queryString| <= |m.queryString| + k * t
    ensures PassKeeps(conf.root, Refused(merged, status, m'), m, k, t)
  {
    hide ErrorUri, Splits;
  }

  lemma RewriteKeeps(d: Deciders, conf: Conf, merged: Merged, p: Progress, m: Machine, k: nat, t: nat)
    requires ProgressKeeps(p, m, k, t)
    ensures PassKeeps(conf.root, AfterRewrite(d, conf, merged, ResultOf(p), p.m), m, k, t)
  {
    hide Refused, SendRedirect, Resolved;
    match ResultOf(p)
    case ResultRedirect =>
    case ResultOk =>
      UnparsedSplits(p.m.uri, p.m.rArgs);
    case _ =>
      RefusalKeeps(conf, merged, UNAUTHORIZED, m, p.m, k, t);
      RefusalKeeps(conf, merged, FORBIDDEN, m, p.m, k, t);
  }

  /** At most `k` rules, of size at most `t`. */
  ghost predicate Bounded(merged: Merged, k: nat, t: nat) {
    RulesOfDirs(merged.dirs) <= k && DirsWithin(merged.dirs, t)
  }

  lemma PassKeepsInvariant(d: Deciders, site: Site, conf: Conf, merged: Merged, first: bool, requestUri: Text,
                           m: Machine, k: nat, t: nat)
    requires d.oracle.Valid() && Synced(m) && Bounded(merged, k, t)
    ensures PassKeeps(conf.root, Pass(d, site, conf, merged, first, requestUri, m), m, k, t)
  {
    hide RunDirs, AfterRewrite, ProgressKeeps, RulesOfDirs, DirsWithin;
    DirsKeep(d.oracle, site, merged.dirs, false, m, t);
    var p := RunDirs(d.oracle, site, merged.dirs, false, m);
    ProgressWeakens(p, m, RulesOfDirs(merged.dirs), k, t);
    RewriteKeeps(d, conf, merged, p, m, k, t);
  }

  // ----- all passes -----

  function MaxOf(a: nat, b: nat): nat {
    if a < b then b else a
  }

  function LargestIn(dir: Dir, bodies: seq<Body>): nat {
    if bodies == [] then 0
    else MaxOf(if bodies[0].RewriteRule? then Size(dir, bodies[0].rule) else 0, LargestIn(dir, bodies[1..]))
  }

  function Largest(dirs: seq<Dir>): nat {
    if dirs == [] then 0 else MaxOf(LargestIn(dirs[0], dirs[0].directives), Largest(dirs[1..]))
  }

  lemma {:induction false} LargestInIsLargest(dir: Dir, bodies: seq<Body>, t: nat)
    requires LargestIn(dir, bodies) <= t
    ensures SizesWithin(dir, bodies, t)
    decreases |bodies|
  {
    hide Size;
    if bodies == [] {
    } else {
      LargestInIsLargest(dir, bodies[1..], t);
      forall k | 0 <= k < |bodies| && bodies[k].RewriteRule? ensures Size(dir, bodies[k].rule) <= t {
        if k > 0 { assert bodies[k] == bodies[1..][k - 1]; }
      }
    }
  }

  lemma {:induction false} LargestIsLargest(dirs: seq<Dir>, t: nat)
    requires Largest(dirs) <= t
    ensures DirsWithin(dirs, t)
    decreases |dirs|
  {
    hide SizesWithin, LargestIn;
    if dirs == [] {
    } else {
      LargestInIsLargest(dirs[0], dirs[0].directives, t);
      LargestIsLargest(dirs[1..], t);
    }
  }

  /** The URI at the latest pass head reached initially or by a rewrite. */
  ghost function Anchor(ds: Decisions, site: Site, conf: Conf, world: World, tick: nat, m: Machine, n: nat): Text
    requires AllValid(ds)
  {
    if n == 0 then m.uri
    else
      match PointAt(ds, site, conf, world, tick, m, n)
      case Head(m', _, ByErrorDocument) => Anchor(ds, site, conf, world, tick, m, n - 1)
      case p => p.m.uri
  }

  ghost predicate HeadInvariant(root: Text, m: Machine, arrival: Arrival, anchor: Text) {
    && Synced(m)
    && m.filename == Resolved(root, anchor)
    && (arrival != Initially ==> m.unparsedUri == Unparsed(m.rUri, m.rArgs))
    && (arrival == ByRewrite ==> anchor == m.uri && Splits(m))
  }

  /** From one pass head to the next. */
  lemma NextHead(ds: Decisions, site: Site, conf: Conf, world: World, first: bool, requestUri: Text,
                 p: Point, anchor: Text)
    requires AllValid(ds) && p.Head? && HeadInvariant(conf.root, p.m, p.arrival, anchor)
    ensures var p' := NextPoint(ds, site, conf, world, first, requestUri, p);
            var dirs := WalkAll(world, p.tick, conf, p.m.rUri).0.dirs;
            && |p'.m.queryString| <= |p.m.queryString| + RulesOfDirs(dirs) * Largest(dirs)
            && (p'.Head? ==>
                  && HeadInvariant(conf.root, p'.m, p'.arrival,
                                   if p'.arrival == ByErrorDocument then anchor else p'.m.uri)
                  && (p'.arrival == ByRewrite ==> |p'.m.uri| <= Largest(dirs) + 1))
  {
    hide WalkAll, Pass, DirsWithin, Resolved, Splits, RulesOfDirs, Largest;
    var (merged, tick') := WalkAll(world, p.tick, conf, p.m.rUri);
    LargestIsLargest(merged.dirs, Largest(merged.dirs));
    PassKeepsInvariant(ds(tick'), site, conf, merged, first, requestUri, p.m,
                       RulesOfDirs(merged.dirs), Largest(merged.dirs));
  }

  lemma OverStays(ds: Decisions, site: Site, conf: Conf, world: World, first: bool, requestUri: Text, p: Point)
    requires AllValid(ds) && p.Over?
    ensures NextPoint(ds, site, conf, world, first, requestUri, p) == p
  {
  }

  lemma {:induction false} HeadsKeepInvariant(ds: Decisions, site: Site, conf: Conf, world: World, tick: nat,
                                              a: Arriving, n: nat)
    requires AllValid(ds)
    ensures var m := Incoming(conf, a);
            var p := PointAt(ds, site, conf, world, tick, m, n);
            p.Head? ==> HeadInvariant(conf.root, p.m, p.arrival, Anchor(ds, site, conf, world, tick, m, n))
    decreases n
  {
    hide NextPoint, WalkAll, Resolved, Splits;
    var m := Incoming(conf, a);
    if n == 0 {
    } else {
      HeadsKeepInvariant(ds, site, conf, world, tick, a, n - 1);
      var p := PointAt(ds, site, conf, world, tick, m, n - 1);
      if p.Head? {
        NextHead(ds, site, conf, world, n == 1, m.rUri, p, Anchor(ds, site, conf, world, tick, m, n - 1));
      } else {
        OverStays(ds, site, conf, world, n == 1, m.rUri, p);
      }
    }
  }

  /**
   Pass-head invariant, at the head of every pass of every request: request and state agree;
   the filename is that of the URI at the latest head reached initially or by a rewrite;
   after the first pass `unparsed_uri` is made of URI and arguments and splits back into them
   exactly when the URI holds no question mark, which after a rewrite it never does.
   */
  lemma PassHeads(ds: Decisions, site: Site, conf: Conf, world: World, tick: nat,
                  a: Arriving, n: nat)
    requires AllValid(ds)
    requires PointAt(ds, site, conf, world, tick, Incoming(conf, a), n).Head?
    ensures var m0 := Incoming(conf, a);
            var Head(m, _, arrival) := PointAt(ds, site, conf, world, tick, m0, n);
            && m.uri == m.rUri && m.queryString == m.rArgs
            && m.filename == Resolved(conf.root, Anchor(ds, site, conf, world, tick, m0, n))
            && (arrival != Initially ==>
                  && m.unparsedUri == Unparsed(m.rUri, m.rArgs)
                  && (SplitQuery(m.unparsedUri) == (m.rUri, m.rArgs) <==> QUESTION !in m.rUri))
            && (arrival == ByRewrite ==> SplitQuery(m.unparsedUri) == (m.rUri, m.rArgs))
  {
    hide PointAt, Anchor, Resolved;
    HeadsKeepInvariant(ds, site, conf, world, tick, a, n);
    var m := PointAt(ds, site, conf, world, tick, Incoming(conf, a), n).m;
    UnparsedSplits(m.rUri, m.rArgs);
  }

  // ----- growth -----

  /** A pass starting at `p` finds at most `k` rules, of size at most `t`. */
  ghost predicate PassWithin(world: World, conf: Conf, p: Point, k: nat, t: nat) {
    p.Head? ==>
      var dirs := WalkAll(world, p.tick, conf, p.m.rUri).0.dirs;
      RulesOfDirs(dirs) <= k && Largest(dirs) <= t
  }

  lemma ProductBound(a: nat, b: nat, k: nat, t: nat)
    requires a <= k && b <= t
    ensures a * b <= k * t
  {
    assert a * b <= k * b <= k * t;
  }

  lemma {:induction false} QueryGrowth(ds: Decisions, site: Site, conf: Conf, world: World, tick: nat,
                                       a: Arriving, n: nat, k: nat, t: nat)
    requires AllValid(ds)
    requires forall j: nat :: j < n ==>
               PassWithin(world, conf, PointAt(ds, site, conf, world, tick, Incoming(conf, a), j), k, t)
    ensures var p := PointAt(ds, site, conf, world, tick, Incoming(conf, a), n);
            && |p.m.queryString| <= |a.args| + n * (k * t)
            && (p.Head? && p.arrival == ByRewrite ==> |p.m.uri| <= t + 1)
    decreases n
  {
    hide NextPoint, WalkAll, Resolved, Splits, RulesOfDirs, Largest, HeadInvariant, Anchor;
    var m := Incoming(conf, a);
    if n == 0 {
    } else {
      QueryGrowth(ds, site, conf, world, tick, a, n - 1, k, t);
      var p := PointAt(ds, site, conf, world, tick, m, n - 1);
      var total := n * (k * t);
      assert total == (n - 1) * (k * t) + k * t;
      if p.Head? {
        HeadsKeepInvariant(ds, site, conf, world, tick, a, n - 1);
        NextHead(ds, site, conf, world, n == 1, m.rUri, p, Anchor(ds, site, conf, world, tick, m, n - 1));
        assert PassWithin(world, conf, p, k, t);
        var dirs := WalkAll(world, p.tick, conf, p.m.rUri).0.dirs;
        ProductBound(RulesOfDirs(dirs), Largest(dirs), k, t);
      } else {
        OverStays(ds, site, conf, world, n == 1, m.rUri, p);
      }
    }
  }

  /**
   Whole-run growth: if the passes of a run find at most `k` rules each, of size at most `t`, the
   request's query never grows by more than max_redirects * k * t bytes, and every URI a rewrite
   leaves at a pass head has at most t + 1 bytes.
   */
  lemma RunGrowth(ds: Decisions, site: Site, conf: Conf, world: World, tick: nat,
                  a: Arriving, n: nat, k: nat, t: nat)
    requires AllValid(ds) && n <= conf.maxRedirects
    requires forall j: nat :: j < n ==>
               PassWithin(world, conf, PointAt(ds, site, conf, world, tick, Incoming(conf, a), j), k, t)
    ensures var p := PointAt(ds, site, conf, world, tick, Incoming(conf, a), n);
            && |p.m.queryString| <= |a.args| + conf.maxRedirects * (k * t)
            && (p.Head? && p.arrival == ByRewrite ==> |p.m.uri| <= t + 1)
  {
    hide PointAt, PassWithin;
    QueryGrowth(ds, site, conf, world, tick, a, n, k, t);
    ProductBound(n, k * t, conf.maxRedirects, k * t);
  }
}
