/**
 From steps to runs: a preorder on the state of a request that every rule and every other step
 of a pass keeps holds between any two points of a run.
 */
module RunLaws {
  import opened Bytes
  import opened Directives
  import opened Expander
  import opened Rewrite
  import opened Walk
  import opened Execute

  type Relation = (Machine, Machine) -> bool

  ghost predicate Transitive(rel: Relation) {
    forall a, b, c :: rel(a, b) && rel(b, c) ==> rel(a, c)
  }

  ghost predicate Preorder(rel: Relation) {
    (forall m :: rel(m, m)) && Transitive(rel)
  }

  /** Attempting the rule in any state keeps `rel`. */
  ghost predicate KeptByRule(rel: Relation, o: Oracle, site: Site, dir: Dir, rule: Rule)
    requires o.Valid()
  {
    forall m :: rel(m, MachineOf(AttemptRule(o, site, dir, rule, m), m))
  }

  ghost predicate KeptByBodies(rel: Relation, o: Oracle, site: Site, dir: Dir, bodies: seq<Body>)
    requires o.Valid()
  {
    forall body :: body in bodies && body.RewriteRule? ==> KeptByRule(rel, o, site, dir, body.rule)
  }

  ghost predicate KeptByDirs(rel: Relation, o: Oracle, site: Site, dirs: seq<Dir>)
    requires o.Valid()
  {
    forall dir :: dir in dirs && dir.rewriteEngine ==> KeptByBodies(rel, o, site, dir, dir.directives)
  }

  ghost predicate KeptByRedirect(rel: Relation, m: Machine, uri: Text, code: nat) {
    rel(m, m.(uri := uri, redirectCode := code))
  }

  ghost predicate KeptByUri(rel: Relation, m: Machine, uri: Text) {
    rel(m, UriApplied(m.(uri := uri)))
  }

  ghost predicate KeptByFilename(rel: Relation, m: Machine, filename: Text) {
    rel(m, m.(filename := filename))
  }

  /** What a pass does besides attempting rules keeps `rel`: redirecting, applying a URI, resolving its filename. */
  ghost predicate KeptBetweenRules(rel: Relation) {
    && (forall m, uri, code :: KeptByRedirect(rel, m, uri, code))
    && (forall m, uri :: KeptByUri(rel, m, uri))
    && (forall m, filename :: KeptByFilename(rel, m, filename))
  }

  // ----- one pass -----

  lemma OneRuleKeeps(rel: Relation, o: Oracle, site: Site, dir: Dir, rule: Rule, active: bool, m: Machine)
    requires o.Valid() && Preorder(rel) && KeptByRule(rel, o, site, dir, rule)
    ensures rel(m, OneRule(o, site, dir, rule, active, m).m)
  {
    hide AttemptRule;
    assert rel(m, MachineOf(AttemptRule(o, site, dir, rule, m), m));
  }

  lemma {:induction false} BodiesKeep(rel: Relation, o: Oracle, site: Site, dir: Dir, bodies: seq<Body>,
                                      active: bool, m: Machine)
    requires o.Valid() && Preorder(rel) && KeptByBodies(rel, o, site, dir, bodies)
    ensures rel(m, RunBodies(o, site, dir, bodies, active, m).m)
    decreases |bodies|
  {
    hide OneRule, KeptByRule;
    if bodies == [] {
    } else if !bodies[0].RewriteRule? {
      BodiesKeep(rel, o, site, dir, bodies[1..], active, m);
    } else {
      OneRuleKeeps(rel, o, site, dir, bodies[0].rule, active, m);
      var p := OneRule(o, site, dir, bodies[0].rule, active, m);
      if p.Going? {
        BodiesKeep(rel, o, site, dir, bodies[1..], p.active, p.m);
      }
    }
  }

  lemma {:induction false} DirsKeep(rel: Relation, o: Oracle, site: Site, dirs: seq<Dir>, active: bool, m: Machine)
    requires o.Valid() && Preorder(rel) && KeptByDirs(rel, o, site, dirs)
    ensures rel(m, RunDirs(o, site, dirs, active, m).m)
    decreases |dirs|
  {
    hide RunBodies, KeptByBodies;
    if dirs == [] {
    } else if !dirs[0].rewriteEngine {
      DirsKeep(rel, o, site, dirs[1..], active, m);
    } else {
      BodiesKeep(rel, o, site, dirs[0], dirs[0].directives, active, m);
      var p := RunBodies(o, site, dirs[0], dirs[0].directives, active, m);
      if p.Going? {
        DirsKeep(rel, o, site, dirs[1..], p.active, p.m);
      }
    }
  }

  lemma RefusalKeeps(rel: Relation, merged: Merged, status: nat, m: Machine)
    requires Preorder(rel) && KeptBetweenRules(rel)
    ensures rel(m, Refused(merged, status, m).m)
  {
    hide ErrorUri, UriApplied;
    var uri := ErrorUri(merged.errorDocuments, status);
    if uri.Some? {
      assert KeptByUri(rel, m, uri.value);
    }
  }

  lemma ConclusionKeeps(rel: Relation, d: Deciders, conf: Conf, merged: Merged, result: Result, m: Machine)
    requires Preorder(rel) && KeptBetweenRules(rel)
    ensures rel(m, AfterRewrite(d, conf, merged, result, m).m)
  {
    hide Refused, Resolved, SendRedirect, UriApplied;
    RefusalKeeps(rel, merged, UNAUTHORIZED, m);
    RefusalKeeps(rel, merged, FORBIDDEN, m);
    assert KeptByUri(rel, m, m.uri) && m.(uri := m.uri) == m;
    assert KeptByFilename(rel, UriApplied(m), Resolved(conf.root, m.uri));
  }

  lemma PassKeeps(rel: Relation, d: Deciders, site: Site, conf: Conf, merged: Merged, first: bool,
                  requestUri: Text, m: Machine)
    requires d.oracle.Valid() && Preorder(rel) && KeptBetweenRules(rel)
    requires KeptByDirs(rel, d.oracle, site, merged.dirs)
    ensures rel(m, Pass(d, site, conf, merged, first, requestUri, m).m)
  {
    hide RunDirs, AfterRewrite, KeptByDirs, SendRedirect;
    var redirection := d.redirection(merged, m.uri);
    if redirection.Some? {
      assert KeptByRedirect(rel, m, redirection.value.0, redirection.value.1);
    }
    DirsKeep(rel, d.oracle, site, merged.dirs, false, m);
    var p := RunDirs(d.oracle, site, merged.dirs, false, m);
    ConclusionKeeps(rel, d, conf, merged, ResultOf(p), p.m);
  }

  // ----- all passes -----

  /** Every rule that the pass starting at `p` may attempt keeps `rel`. */
  ghost predicate KeptAt(rel: Relation, ds: Decisions, site: Site, conf: Conf, world: World, p: Point)
    requires AllValid(ds)
  {
    p.Head? ==>
      var (merged, tick') := WalkAll(world, p.tick, conf, p.m.rUri);
      KeptByDirs(rel, ds(tick').oracle, site, merged.dirs)
  }

  lemma NextPointKeeps(rel: Relation, ds: Decisions, site: Site, conf: Conf, world: World, first: bool,
                       requestUri: Text, p: Point)
    requires AllValid(ds) && Preorder(rel) && KeptBetweenRules(rel) && KeptAt(rel, ds, site, conf, world, p)
    ensures rel(p.m, NextPoint(ds, site, conf, world, first, requestUri, p).m)
  {
    hide Pass, WalkAll, KeptByDirs, KeptBetweenRules;
    if p.Head? {
      var (merged, tick') := WalkAll(world, p.tick, conf, p.m.rUri);
      PassKeeps(rel, ds(tick'), site, conf, merged, first, requestUri, p.m);
    }
  }

  /** The principle: what every step keeps holds between any two points of a run. */
  lemma {:induction false} RunKeeps(rel: Relation, ds: Decisions, site: Site, conf: Conf, world: World, tick: nat,
                                    m: Machine, n: nat, k: nat)
    requires AllValid(ds) && n <= k && Preorder(rel) && KeptBetweenRules(rel)
    requires forall j: nat :: n <= j < k ==>
               KeptAt(rel, ds, site, conf, world, PointAt(ds, site, conf, world, tick, m, j))
    ensures rel(PointAt(ds, site, conf, world, tick, m, n).m, PointAt(ds, site, conf, world, tick, m, k).m)
    decreases k
  {
    hide NextPoint, KeptAt, KeptBetweenRules;
    if n == k {
    } else {
      RunKeeps(rel, ds, site, conf, world, tick, m, n, k - 1);
      NextPointKeeps(rel, ds, site, conf, world, k == 1, m.rUri, PointAt(ds, site, conf, world, tick, m, k - 1));
    }
  }

  /** A preorder that every rule keeps needs no look at the files. */
  lemma KeptEverywhere(rel: Relation, ds: Decisions, site: Site, conf: Conf, world: World, p: Point)
    requires AllValid(ds)
    requires forall o: Oracle, dir, rule :: o.Valid() ==> KeptByRule(rel, o, site, dir, rule)
    ensures KeptAt(rel, ds, site, conf, world, p)
  {
    hide WalkAll, KeptByRule;
    if p.Head? {
      var (merged, tick') := WalkAll(world, p.tick, conf, p.m.rUri);
      assert ds(tick').oracle.Valid();
    }
  }
}
