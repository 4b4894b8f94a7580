/**
 What C, L and END do to substitutions: a chain acts at most once, with its last rule or an
 L or END one, and END is L.
 */
module FlagLaws {
  import opened Bytes
  import opened Directives
  import opened Expander
  import opened Rewrite
  import opened Chains

  // ----- the substitution of a chained rule -----

  /** Nothing but the environment differs. */
  predicate EnvOnly(m: Machine, m': Machine) {
    m' == m.(env := m'.env)
  }

  /** The attempt put a target into the request, or redirects to one. */
  predicate Acts(a: Attempt) {
    a.Rewrote? || (a.Ended? && (a.result.ResultOk? || a.result.ResultRedirect?))
  }

  /** The state a matched rule's substitution is expanded in: its environment flags come first. */
  function WithEnvFlags(site: Site, rule: Rule, m: Machine, mt: Match): Machine
    requires mt.Valid()
  {
    m.(env := EnvSetAll(VarsOf(site, m), rule.envVars, mt))
  }

  /**
   Exactly when attempting a rule rewrites or redirects: it matches, does not lead on in a chain,
   has a substitution other than a dash, and this expands.
   */
  lemma WhenAttemptActs(o: Oracle, site: Site, dir: Dir, rule: Rule, m: Machine)
    requires o.Valid()
    ensures var x := MatchOf(o, dir, rule, VarsOf(site, m));
            Acts(AttemptRule(o, site, dir, rule, m)) <==>
            && x.RuleMatches? && !IsLink(rule) && !IsDash(rule.substitution)
            && Expanded(VarsOf(site, WithEnvFlags(site, rule, m, x.mt)), rule.substitution, x.mt).Some?
  {
    hide MatchOf, EnvSetAll, Expanded, Target, Rewritten;
  }

  lemma LinkEndsInError(vars: Vars, dir: Dir, rule: Rule, m: Machine, mt: Match)
    requires mt.Valid() && IsLink(rule)
    ensures var a := AfterMatch(vars, dir, rule, m, mt); a.Ended? ==> a.result == ResultError
  {
    hide Expanded, Target;
  }

  lemma IdleDecision(vars: Vars, dir: Dir, rule: Rule, m: Machine, mt: Match)
    requires mt.Valid() && !Acts(AfterMatch(vars, dir, rule, m, mt))
    ensures MachineOf(AfterMatch(vars, dir, rule, m, mt), m) == m
  {
    hide Expanded, Target;
  }

  /** An attempt that does not act changes at most the environment. */
  lemma IdleAttempt(o: Oracle, site: Site, dir: Dir, rule: Rule, m: Machine)
    requires o.Valid() && !Acts(AttemptRule(o, site, dir, rule, m))
    ensures EnvOnly(m, MachineOf(AttemptRule(o, site, dir, rule, m), m))
  {
    hide MatchOf, AfterMatch, EnvSetAll;
    var x := MatchOf(o, dir, rule, VarsOf(site, m));
    if x.RuleMatches? {
      var m' := m.(env := EnvSetAll(VarsOf(site, m), rule.envVars, x.mt));
      IdleDecision(VarsOf(site, m'), dir, rule, m', x.mt);
    }
  }

  /** A rule with C but neither L nor END never applies its substitution; a failing expansion alone ends the pass. */
  lemma LinkChangesEnvOnly(o: Oracle, site: Site, dir: Dir, rule: Rule, m: Machine)
    requires o.Valid() && IsLink(rule)
    ensures var a := AttemptRule(o, site, dir, rule, m);
            && EnvOnly(m, MachineOf(a, m))
            && !Acts(a) && (a.Ended? ==> a.result == ResultError)
  {
    hide MatchOf, AfterMatch, EnvSetAll;
    WhenAttemptActs(o, site, dir, rule, m);
    IdleAttempt(o, site, dir, rule, m);
    var x := MatchOf(o, dir, rule, VarsOf(site, m));
    if x.RuleMatches? {
      var m' := WithEnvFlags(site, rule, m, x.mt);
      LinkEndsInError(VarsOf(site, m'), dir, rule, m', x.mt);
    }
  }

  // ----- chains -----

  /** The attempts made at the rules of a chain, in order. */
  function Attempts(o: Oracle, site: Site, dir: Dir, chain: seq<Rule>, m: Machine): (r: seq<Attempt>)
    requires o.Valid()
    ensures |r| <= |chain|
    decreases |chain|
  {
    if chain == [] then []
    else
      var a := AttemptRule(o, site, dir, chain[0], m);
      [a] + if a.Passed? || a.Rewrote? then Attempts(o, site, dir, chain[1..], a.m) else []
  }

  /** The number of attempts that put a target into the request. */
  function Actions(attempts: seq<Attempt>): nat {
    if attempts == [] then 0 else (if Acts(attempts[0]) then 1 else 0) + Actions(attempts[1..])
  }

  /** Every rule but the last has the C flag. */
  predicate IsChain(chain: seq<Rule>) {
    forall k :: 0 <= k < |chain| - 1 ==> chain[k].chain
  }

  lemma {:induction false} ChainsAreChains(rules: seq<Rule>)
    requires rules != []
    ensures IsChain(rules[..ChainLength(rules)])
    decreases |rules|
  {
    var chain := rules[..ChainLength(rules)];
    if !rules[0].chain || |rules| == 1 {
      assert |chain| == 1;
    } else {
      ChainsAreChains(rules[1..]);
      assert chain == [rules[0]] + rules[1..][..ChainLength(rules[1..])];
    }
  }

  /** An acting attempt is the last one, of a rule that is the last of the chain or has L or END. */
  ghost predicate ActsLast(attempts: seq<Attempt>, chain: seq<Rule>, k: nat)
    requires k < |attempts| <= |chain|
  {
    Acts(attempts[k]) ==> k == |attempts| - 1 && !IsLink(chain[k])
  }

  /** A chain acts at most once and at the end of what is attempted; otherwise it changes at most the environment. */
  ghost predicate ActsAtMostOnce(o: Oracle, site: Site, dir: Dir, chain: seq<Rule>, m: Machine)
    requires o.Valid()
  {
    var attempts := Attempts(o, site, dir, chain, m);
    var m' := RunChain(o, site, dir, chain, m).m;
    && Actions(attempts) <= 1
    && (Actions(attempts) == 0 ==> EnvOnly(m, m'))
    && (Actions(attempts) == 1 ==> Acts(attempts[|attempts| - 1]) && m' == attempts[|attempts| - 1].m)
    && (forall k :: 0 <= k < |attempts| ==> ActsLast(attempts, chain, k))
  }

  lemma FirstAttempt(o: Oracle, site: Site, dir: Dir, rule: Rule, m: Machine)
    requires o.Valid()
    ensures var a := AttemptRule(o, site, dir, rule, m);
            && (Acts(a) ==> !IsLink(rule))
            && (!Acts(a) ==> EnvOnly(m, MachineOf(a, m)))
            && (a.Rewrote? ==> !rule.chain)
  {
    hide AttemptRule;
    var a := AttemptRule(o, site, dir, rule, m);
    if IsLink(rule) {
      LinkChangesEnvOnly(o, site, dir, rule, m);
    }
    if !Acts(a) {
      IdleAttempt(o, site, dir, rule, m);
    }
    if a.Rewrote? {
      RewroteIsUnchained(o, site, dir, rule, m);
    }
  }

  lemma LastAttempt(o: Oracle, site: Site, dir: Dir, chain: seq<Rule>, m: Machine)
    requires o.Valid() && IsChain(chain) && chain != []
    requires !AttemptRule(o, site, dir, chain[0], m).Passed?
    ensures ActsAtMostOnce(o, site, dir, chain, m)
  {
    hide AttemptRule;
    var a := AttemptRule(o, site, dir, chain[0], m);
    var attempts := Attempts(o, site, dir, chain, m);
    FirstAttempt(o, site, dir, chain[0], m);
    if a.Rewrote? {
      assert chain[1..] == [];
    }
    assert attempts == [a] && attempts[1..] == [];
    assert Actions(attempts) == if Acts(a) then 1 else 0;
    assert RunChain(o, site, dir, chain, m).m == MachineOf(a, m);
    assert ActsLast(attempts, chain, 0);
  }

  lemma {:induction false} ActsOnceFrom(o: Oracle, site: Site, dir: Dir, chain: seq<Rule>, m: Machine)
    requires o.Valid() && IsChain(chain)
    ensures ActsAtMostOnce(o, site, dir, chain, m)
    decreases |chain|
  {
    hide AttemptRule;
    if chain == [] {
      assert EnvOnly(m, m);
    } else if !AttemptRule(o, site, dir, chain[0], m).Passed? {
      LastAttempt(o, site, dir, chain, m);
    } else {
      var a := AttemptRule(o, site, dir, chain[0], m);
      var attempts, rest := Attempts(o, site, dir, chain, m), Attempts(o, site, dir, chain[1..], a.m);
      FirstAttempt(o, site, dir, chain[0], m);
      ActsOnceFrom(o, site, dir, chain[1..], a.m);
      assert attempts == [a] + rest && attempts[1..] == rest;
      assert Actions(attempts) == Actions(rest);
      assert rest != [] ==> attempts[|attempts| - 1] == rest[|rest| - 1];
      forall k | 0 <= k < |attempts| ensures ActsLast(attempts, chain, k) {
        if k > 0 {
          assert ActsLast(rest, chain[1..], k - 1);
        }
      }
    }
  }

  /** Every chain a directory splits into acts at most once. */
  lemma ChainActsAtMostOnce(o: Oracle, site: Site, dir: Dir, rules: seq<Rule>, m: Machine)
    requires o.Valid() && rules != []
    ensures ActsAtMostOnce(o, site, dir, rules[..ChainLength(rules)], m)
  {
    hide ActsAtMostOnce, IsChain;
    ChainsAreChains(rules);
    ActsOnceFrom(o, site, dir, rules[..ChainLength(rules)], m);
  }

  // ----- END is L -----

  /** The rule with its L and END flags exchanged. */
  function Swapped(rule: Rule): Rule {
    rule.(last := rule.end, end := rule.last)
  }

  function SwappedBody(body: Body): Body {
    if body.RewriteRule? then RewriteRule(Swapped(body.rule)) else body
  }

  function SwappedBodies(bodies: seq<Body>): (r: seq<Body>)
    ensures |r| == |bodies|
  {
    if bodies == [] then [] else [SwappedBody(bodies[0])] + SwappedBodies(bodies[1..])
  }

  function SwappedDirs(dirs: seq<Dir>): (r: seq<Dir>)
    ensures |r| == |dirs|
  {
    if dirs == [] then []
    else [dirs[0].(directives := SwappedBodies(dirs[0].directives))] + SwappedDirs(dirs[1..])
  }

  lemma SwappingKeepsDecision(vars: Vars, dir: Dir, bodies: seq<Body>, rule: Rule, mt: Match)
    requires mt.Valid()
    ensures Decided(vars, dir.(directives := bodies), Swapped(rule), mt) == Decided(vars, dir, rule, mt)
  {
    hide Expanded, Substituted;
  }

  lemma SwappingKeepsEffect(vars: Vars, dir: Dir, bodies: seq<Body>, rule: Rule, m: Machine, mt: Match)
    requires mt.Valid()
    ensures AfterMatch(vars, dir.(directives := bodies), Swapped(rule), m, mt) == AfterMatch(vars, dir, rule, m, mt)
  {
    hide Decided, Rewritten;
    SwappingKeepsDecision(vars, dir, bodies, rule, mt);
  }

  /** Exchanging L and END changes no attempt. */
  lemma SwappingKeepsAttempt(o: Oracle, site: Site, dir: Dir, bodies: seq<Body>, rule: Rule, m: Machine)
    requires o.Valid()
    ensures AttemptRule(o, site, dir.(directives := bodies), Swapped(rule), m) == AttemptRule(o, site, dir, rule, m)
  {
    hide AfterMatch, EnvSetAll;
    var x := MatchOf(o, dir, rule, VarsOf(site, m));
    assert MatchOf(o, dir.(directives := bodies), Swapped(rule), VarsOf(site, m)) == x;
    if x.RuleMatches? {
      var m' := m.(env := EnvSetAll(VarsOf(site, m), rule.envVars, x.mt));
      SwappingKeepsEffect(VarsOf(site, m'), dir, bodies, rule, m', x.mt);
    }
  }

  lemma {:induction false} SwappingKeepsBodies(o: Oracle, site: Site, dir: Dir, directives: seq<Body>,
                                               bodies: seq<Body>, active: bool, m: Machine)
    requires o.Valid()
    ensures RunBodies(o, site, dir.(directives := directives), SwappedBodies(bodies), active, m)
         == RunBodies(o, site, dir, bodies, active, m)
    decreases |bodies|
  {
    hide AttemptRule;
    if bodies == [] {
    } else {
      var swapped := SwappedBodies(bodies);
      assert swapped[0] == SwappedBody(bodies[0]) && swapped[1..] == SwappedBodies(bodies[1..]);
      if !bodies[0].RewriteRule? {
        SwappingKeepsBodies(o, site, dir, directives, bodies[1..], active, m);
      } else {
        SwappingKeepsAttempt(o, site, dir, directives, bodies[0].rule, m);
        var p := OneRule(o, site, dir, bodies[0].rule, active, m);
        if p.Going? {
          SwappingKeepsBodies(o, site, dir, directives, bodies[1..], p.active, p.m);
        }
      }
    }
  }

  /** END is L: exchanging the two flags on every rule changes no pass. */
  lemma {:induction false} EndIsLast(o: Oracle, site: Site, dirs: seq<Dir>, active: bool, m: Machine)
    requires o.Valid()
    ensures RunDirs(o, site, SwappedDirs(dirs), active, m) == RunDirs(o, site, dirs, active, m)
    decreases |dirs|
  {
    hide RunBodies, SwappedBodies;
    if dirs == [] {
    } else {
      var swapped, bodies := SwappedDirs(dirs), SwappedBodies(dirs[0].directives);
      assert swapped[0] == dirs[0].(directives := bodies) && swapped[1..] == SwappedDirs(dirs[1..]);
      if !dirs[0].rewriteEngine {
        EndIsLast(o, site, dirs[1..], active, m);
      } else {
        SwappingKeepsBodies(o, site, dirs[0], bodies, dirs[0].directives, active, m);
        var p := RunBodies(o, site, dirs[0], dirs[0].directives, active, m);
        if p.Going? {
          EndIsLast(o, site, dirs[1..], p.active, p.m);
        }
      }
    }
  }
}
