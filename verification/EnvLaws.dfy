/** The environment of a request: it only grows, and every look-up of a name sees the value set first for it. */
module EnvLaws {
  import opened Bytes
  import opened Directives
  import opened Expander
  import opened Rewrite
  import opened Walk
  import opened Execute
  import opened RunLaws

  /** Appending to the environment changes no value that is set. */
  lemma {:induction false} FirstSetWins(env: seq<NameValue>, more: seq<NameValue>, name: Text)
    requires EnvValue(env, name).Some?
    ensures EnvValue(env + more, name) == EnvValue(env, name)
  {
    hide SameString;
    assert (env + more)[0] == env[0];
    if !SameString(env[0].name, name) {
      assert (env + more)[1..] == env[1..] + more;
      FirstSetWins(env[1..], more, name);
    }
  }

  lemma {:induction false} FlagsExtend(vars: Vars, flags: seq<Text>, mt: Match)
    requires mt.Valid()
    ensures vars.env <= EnvSetAll(vars, flags, mt)
    decreases |flags|
  {
    hide Expanded;
    if flags == [] {
    } else {
      FlagsExtend(vars.(env := EnvSet(vars, flags[0], mt)), flags[1..], mt);
    }
  }

  lemma EffectKeepsEnv(vars: Vars, dir: Dir, rule: Rule, m: Machine, mt: Match)
    requires mt.Valid()
    ensures MachineOf(AfterMatch(vars, dir, rule, m, mt), m).env == m.env
  {
    hide Decided;
  }

  lemma RuleExtends(o: Oracle, site: Site, dir: Dir, rule: Rule, m: Machine)
    requires o.Valid()
    ensures m.env <= MachineOf(AttemptRule(o, site, dir, rule, m), m).env
  {
    hide MatchOf, AfterMatch, EnvSetAll;
    var x := MatchOf(o, dir, rule, VarsOf(site, m));
    if x.RuleMatches? {
      var m' := m.(env := EnvSetAll(VarsOf(site, m), rule.envVars, x.mt));
      FlagsExtend(VarsOf(site, m), rule.envVars, x.mt);
      EffectKeepsEnv(VarsOf(site, m'), dir, rule, m', x.mt);
    }
  }

  ghost predicate EnvExtends(m: Machine, m': Machine) {
    m.env <= m'.env
  }

  lemma EveryRuleExtends()
    ensures Preorder(EnvExtends) && KeptBetweenRules(EnvExtends)
    ensures forall o: Oracle, site, dir, rule :: o.Valid() ==> KeptByRule(EnvExtends, o, site, dir, rule)
  {
    hide AttemptRule;
    forall o: Oracle, site, dir, rule, m | o.Valid()
      ensures EnvExtends(m, MachineOf(AttemptRule(o, site, dir, rule, m), m))
    {
      RuleExtends(o, site, dir, rule, m);
    }
  }

  /** Over all passes of a request the environment is only ever appended to. */
  lemma EnvironmentOnlyGrows(ds: Decisions, site: Site, conf: Conf, world: World, tick: nat,
                             m: Machine, n: nat, k: nat)
    requires AllValid(ds) && n <= k
    ensures PointAt(ds, site, conf, world, tick, m, n).m.env <= PointAt(ds, site, conf, world, tick, m, k).m.env
  {
    hide PointAt, KeptAt, KeptByRule, KeptBetweenRules, Preorder;
    EveryRuleExtends();
    forall j: nat | n <= j < k
      ensures KeptAt(EnvExtends, ds, site, conf, world, PointAt(ds, site, conf, world, tick, m, j))
    {
      KeptEverywhere(EnvExtends, ds, site, conf, world, PointAt(ds, site, conf, world, tick, m, j));
    }
    RunKeeps(EnvExtends, ds, site, conf, world, tick, m, n, k);
  }

  /** A variable once set keeps its value for the rest of the request, whatever later rules set. */
  lemma VariableKeepsValue(ds: Decisions, site: Site, conf: Conf, world: World, tick: nat,
        m: Machine, n: nat, k: nat, name: Text)
    requires AllValid(ds) && n <= k
    requires EnvValue(PointAt(ds, site, conf, world, tick, m, n).m.env, name).Some?
    ensures EnvValue(PointAt(ds, site, conf, world, tick, m, k).m.env, name)
         == EnvValue(PointAt(ds, site, conf, world, tick, m, n).m.env, name)
  {
    hide PointAt;
    var before := PointAt(ds, site, conf, world, tick, m, n).m.env;
    var after := PointAt(ds, site, conf, world, tick, m, k).m.env;
    EnvironmentOnlyGrows(ds, site, conf, world, tick, m, n, k);
    assert after == before + after[|before|..];
    FirstSetWins(before, after[|before|..], name);
  }
}
