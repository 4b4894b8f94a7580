/** The request as the handler leaves it to nginx: its flags, its `unparsed_uri`, and what is left of its query. */
module ExitLaws {
  import opened Bytes
  import opened Directives
  import opened Expander
  import opened Rewrite
  import opened RewriteLaws
  import opened Walk
  import opened Execute
  import opened RunLaws

  // ----- internal, valid_unparsed_uri and unparsed_uri -----

  /** A request the module has changed: internal, its `unparsed_uri` invalid and made of its URI and arguments. */
  predicate Rebuilt(a: Arriving) {
    a.internal && !a.validUnparsedUri && a.unparsedUri == Unparsed(a.uri, a.args)
  }

  ghost predicate KeptOrRebuilt(m: Machine, m': Machine) {
    Outgoing(m') == Outgoing(m) || Rebuilt(Outgoing(m'))
  }

  lemma EffectRebuilds(vars: Vars, dir: Dir, rule: Rule, m: Machine, mt: Match)
    requires mt.Valid()
    ensures KeptOrRebuilt(m, MachineOf(AfterMatch(vars, dir, rule, m, mt), m))
  {
    hide Decided, TargetUri, TargetArgs;
  }

  lemma RuleRebuilds(o: Oracle, site: Site, dir: Dir, rule: Rule, m: Machine)
    requires o.Valid()
    ensures KeptOrRebuilt(m, MachineOf(AttemptRule(o, site, dir, rule, m), m))
  {
    hide MatchOf, AfterMatch, EnvSetAll;
    var x := MatchOf(o, dir, rule, VarsOf(site, m));
    if x.RuleMatches? {
      var m' := m.(env := EnvSetAll(VarsOf(site, m), rule.envVars, x.mt));
      EffectRebuilds(VarsOf(site, m'), dir, rule, m', x.mt);
    }
  }

  lemma EveryRuleRebuilds()
    ensures Preorder(KeptOrRebuilt) && KeptBetweenRules(KeptOrRebuilt)
    ensures forall o: Oracle, site, dir, rule :: o.Valid() ==> KeptByRule(KeptOrRebuilt, o, site, dir, rule)
  {
    hide AttemptRule, Unparsed;
    forall o: Oracle, site, dir, rule, m | o.Valid()
      ensures KeptOrRebuilt(m, MachineOf(AttemptRule(o, site, dir, rule, m), m))
    {
      RuleRebuilds(o, site, dir, rule, m);
    }
  }

  /**
   At whatever point the handler returns, the request is either exactly the one that arrived, or
   it is internal and its `unparsed_uri`, no longer valid, is made of its URI and its arguments.
   */
  lemma LeftUnchangedOrRebuilt(ds: Decisions, site: Site, conf: Conf, world: World, tick: nat,
                               a: Arriving, n: nat)
    requires AllValid(ds)
    ensures var left := Outgoing(PointAt(ds, site, conf, world, tick, Incoming(conf, a), n).m);
            left == a || Rebuilt(left)
  {
    hide PointAt, KeptAt, KeptByRule, KeptBetweenRules, Preorder, Rebuilt;
    var m := Incoming(conf, a);
    EveryRuleRebuilds();
    forall j: nat | 0 <= j < n
      ensures KeptAt(KeptOrRebuilt, ds, site, conf, world, PointAt(ds, site, conf, world, tick, m, j))
    {
      KeptEverywhere(KeptOrRebuilt, ds, site, conf, world, PointAt(ds, site, conf, world, tick, m, j));
    }
    RunKeeps(KeptOrRebuilt, ds, site, conf, world, tick, m, 0, n);
    StartsAt(ds, site, conf, world, tick, m);
  }

  lemma StartsAt(ds: Decisions, site: Site, conf: Conf, world: World, tick: nat, m: Machine)
    requires AllValid(ds)
    ensures PointAt(ds, site, conf, world, tick, m, 0).m == m
  {
  }

  // ----- the original query -----

  predicate IsSuffix(tail: Text, t: Text) {
    |tail| <= |t| && t[|t| - |tail|..] == tail
  }

  /** The rule keeps the query when it rewrites, or never rewrites at all. */
  predicate KeepsQuery(rule: Rule) {
    rule.qsa || rule.redirect || IsDash(rule.substitution) || IsLink(rule)
  }

  /** Request and state go on agreeing on the query, which ends in the earlier one. */
  ghost predicate QueryKept(m: Machine, m': Machine) {
    m.rArgs == m.queryString ==> m'.rArgs == m'.queryString && IsSuffix(m.queryString, m'.queryString)
  }

  lemma SuffixTransitive(a: Text, b: Text, c: Text)
    requires IsSuffix(a, b) && IsSuffix(b, c)
    ensures IsSuffix(a, c)
  {
    var k := |b| - |a|;
    assert c[|c| - |b|..][k..] == c[|c| - |a|..];
  }

  lemma QueryKeptTransitive()
    ensures Preorder(QueryKept)
  {
    forall a, b, c | QueryKept(a, b) && QueryKept(b, c) ensures QueryKept(a, c) {
      if a.rArgs == a.queryString {
        SuffixTransitive(a.queryString, b.queryString, c.queryString);
      }
    }
  }

  lemma QueryKeptBetweenRules()
    ensures KeptBetweenRules(QueryKept)
  {
  }

  lemma AppendedQuery(m: Machine, target: Text)
    ensures QueryKept(m, Rewritten(m, target, true))
  {
    var own := TargetArgs(target, [], false);
    var args := TargetArgs(target, m.queryString, true);
    if m.queryString != [] && own != [] {
      assert args == own + [AMPERSAND] + m.queryString;
    }
  }

  lemma EffectKeepsQuery(vars: Vars, dir: Dir, rule: Rule, m: Machine, mt: Match)
    requires mt.Valid() && KeepsQuery(rule)
    ensures QueryKept(m, MachineOf(AfterMatch(vars, dir, rule, m, mt), m))
  {
    hide Expanded, Target, Rewritten, IsDash;
    if Decided(vars, dir, rule, mt).RewriteTo? {
      AppendedQuery(m, Decided(vars, dir, rule, mt).target);
    }
  }

  lemma RuleKeepsQuery(o: Oracle, site: Site, dir: Dir, rule: Rule)
    requires o.Valid() && KeepsQuery(rule)
    ensures KeptByRule(QueryKept, o, site, dir, rule)
  {
    hide MatchOf, AfterMatch, EnvSetAll, KeepsQuery, IsSuffix;
    forall m ensures QueryKept(m, MachineOf(AttemptRule(o, site, dir, rule, m), m)) {
      SuffixOfItself(m.queryString);
      var x := MatchOf(o, dir, rule, VarsOf(site, m));
      if x.RuleMatches? {
        var m' := m.(env := EnvSetAll(VarsOf(site, m), rule.envVars, x.mt));
        EffectKeepsQuery(VarsOf(site, m'), dir, rule, m', x.mt);
      }
    }
  }

  lemma SuffixOfItself(t: Text)
    ensures IsSuffix(t, t)
  {
  }

  /** Every rule with the engine on that the pass starting at `p` may attempt keeps the query. */
  ghost predicate RulesKeepQuery(world: World, conf: Conf, p: Point) {
    p.Head? ==>
      forall dir :: dir in WalkAll(world, p.tick, conf, p.m.rUri).0.dirs && dir.rewriteEngine ==> DirKeepsQuery(dir)
  }

  ghost predicate DirKeepsQuery(dir: Dir) {
    forall body :: body in dir.directives && body.RewriteRule? ==> KeepsQuery(body.rule)
  }

  lemma PassKeepsQuery(ds: Decisions, site: Site, conf: Conf, world: World, p: Point)
    requires AllValid(ds) && RulesKeepQuery(world, conf, p)
    ensures KeptAt(QueryKept, ds, site, conf, world, p)
  {
    hide WalkAll, KeepsQuery, QueryKept, KeptByRule;
    if p.Head? {
      var (merged, tick') := WalkAll(world, p.tick, conf, p.m.rUri);
      forall dir, body | dir in merged.dirs && dir.rewriteEngine && body in dir.directives && body.RewriteRule?
        ensures KeptByRule(QueryKept, ds(tick').oracle, site, dir, body.rule)
      {
        assert DirKeepsQuery(dir);
        RuleKeepsQuery(ds(tick').oracle, site, dir, body.rule);
      }
    }
  }

  /**
   If every rule the passes of a request meet either has the QSA flag or never rewrites, then
   through all rewrites and error documents nothing of the original query is lost: it ends the
   query, and request and state agree on that query.
   */
  lemma QueryIsNeverLost(ds: Decisions, site: Site, conf: Conf, world: World, tick: nat,
                         a: Arriving, n: nat)
    requires AllValid(ds)
    requires forall j: nat :: j < n ==>
               RulesKeepQuery(world, conf, PointAt(ds, site, conf, world, tick, Incoming(conf, a), j))
    ensures var m := PointAt(ds, site, conf, world, tick, Incoming(conf, a), n).m;
            IsSuffix(a.args, m.queryString) && m.rArgs == m.queryString
  {
    hide PointAt, KeptAt, KeptBetweenRules, Preorder, IsSuffix, RulesKeepQuery;
    var m := Incoming(conf, a);
    QueryKeptTransitive();
    QueryKeptBetweenRules();
    forall j: nat | 0 <= j < n
      ensures KeptAt(QueryKept, ds, site, conf, world, PointAt(ds, site, conf, world, tick, m, j))
    {
      PassKeepsQuery(ds, site, conf, world, PointAt(ds, site, conf, world, tick, m, j));
    }
    RunKeeps(QueryKept, ds, site, conf, world, tick, m, 0, n);
    StartsAt(ds, site, conf, world, tick, m);
  }
}
