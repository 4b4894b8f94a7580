/** What a matched rule leaves behind, told by the texts involved: subject, target, URI, query and environment. */
module TargetLaws {
  import opened Options
  import opened Bytes
  import opened Directives
  import opened Expander
  import opened Conditions
  import opened Rewrite
  import opened RewriteLaws

  // ----- a target becomes URI and query -----

  function Absolute(path: Text): Text {
    if path != [] && path[0] != SLASH then [SLASH] + path else path
  }

  /** A rule's own query and the one the request had, put together. */
  function BothQueries(own: Text, earlier: Text): Text {
    if own == [] then earlier else if earlier == [] then own else own + [AMPERSAND] + earlier
  }

  /** The request after it has been given a URI and a query. */
  function WithUri(m: Machine, uri: Text, args: Text): Machine {
    Machine(uri, args, if args == [] then uri else uri + [QUESTION] + args, false, true,
            uri, m.filename, args, m.env, m.redirectCode)
  }

  /** A target without query gives the URI, made absolute; the old query stays under QSA alone. */
  lemma PathBecomesUri(m: Machine, path: Text, qsa: bool)
    requires QUESTION !in path
    ensures Rewritten(m, path, qsa) == WithUri(m, Absolute(path), if qsa then m.queryString else [])
  {
    assert IndexFrom(path, 0, QUESTION) == |path| && path[..|path|] == path;
  }

  /** A target with a query gives URI and query; under QSA the old query comes behind. */
  lemma PathAndQueryBecomeUri(m: Machine, path: Text, query: Text, qsa: bool)
    requires QUESTION !in path
    ensures Rewritten(m, path + [QUESTION] + query, qsa)
         == WithUri(m, Absolute(path), if qsa then BothQueries(query, m.queryString) else query)
  {
    var target := path + [QUESTION] + query;
    IndexFromIs(target, 0, QUESTION, |path|);
    assert target[..|path|] == path && target[|path| + 1..] == query;
  }

  /** Every target is of one of the two forms. */
  lemma TargetForms(target: Text) returns (path: Text, query: Option<Text>)
    ensures QUESTION !in path
    ensures target == match query case None => path case Some(q) => path + [QUESTION] + q
  {
    var q := IndexFrom(target, 0, QUESTION);
    path := target[..q];
    if q == |target| {
      query := None;
    } else {
      query := Some(target[q + 1..]);
      assert target == target[..q] + [target[q]] + target[q + 1..];
    }
  }

  // ----- the subject of a match -----

  /** What a pattern is matched against: the URI without the directory's prefix and the slash behind it. */
  lemma RelativeUriForms(uri: Text, prefix: Text, head: Text, rest: Text)
    ensures prefix != [] && |head| == |prefix| && uri == head + [SLASH] + rest ==> RelativeUri(uri, prefix) == rest
    ensures prefix != [] && |head| == |prefix| && uri == head + rest && rest != [] && rest[0] != SLASH ==>
              RelativeUri(uri, prefix) == rest
    ensures (prefix == [] || |uri| <= |prefix|) && rest != [] && uri == [SLASH] + rest ==>
              RelativeUri(uri, prefix) == rest
    ensures (prefix == [] || |uri| <= |prefix|) && (uri == [SLASH] || uri == [] || uri[0] != SLASH) ==>
              RelativeUri(uri, prefix) == uri
  {
    if prefix != [] && |head| == |prefix| {
      if uri == head + [SLASH] + rest {
        assert uri[|prefix|..] == [SLASH] + rest;
      } else if uri == head + rest {
        assert uri[|prefix|..] == rest;
      }
    }
  }

  /** What templates and conditions of a request see. */
  function Seen(site: Site, m: Machine): Vars {
    Vars(m.uri, m.filename, m.queryString, m.env, site.host, site.headers)
  }

  /**
   When a rule matches: its pattern compiles in its case mode, its conditions hold of the request,
   and executing it on the relative URI matches, which yields the captures.
   */
  lemma WhenRuleMatches(o: Oracle, site: Site, dir: Dir, rule: Rule, m: Machine)
    requires o.Valid()
    ensures var subject := RelativeUri(m.uri, dir.urlPrefix);
            var ready := o.compiles(rule.pattern, rule.nocase) && Satisfied(rule.conditions, o.holds, Seen(site, m));
            var run := o.exec(rule.pattern, rule.nocase, subject);
            && (AttemptRule(o, site, dir, rule, m).Unmatched? <==> !ready || run.NoMatch?)
            && (ready && run.ExecError? ==> AttemptRule(o, site, dir, rule, m) == Ended(ResultError, m))
            && (ready && run.Matched? ==>
                  MatchOf(o, dir, rule, Seen(site, m)) == RuleMatches(Match(subject, run.offsets)))
  {
    hide Satisfied, EnvSetAll, Decided, RelativeUri;
  }

  // ----- environment flags -----

  lemma {:induction false} ValueOfAppended(env: seq<NameValue>, name: Text, value: Text)
    ensures EnvValue(env + [NameValue(name, value)], name)
         == if EnvValue(env, name).Some? then EnvValue(env, name) else Some(value)
    decreases |env|
  {
    var more := env + [NameValue(name, value)];
    if env == [] {
      assert SameString(name, name);
    } else {
      assert more[0] == env[0] && more[1..] == env[1..] + [NameValue(name, value)];
      ValueOfAppended(env[1..], name, value);
    }
  }

  /** `E=name:value` gives the name, if it has no value yet, the expansion of the value, if it expands. */
  lemma EnvFlagSets(vars: Vars, name: Text, value: Text, mt: Match)
    requires mt.Valid() && COLON !in name
    ensures var env := EnvSetAll(vars, [name + [COLON] + value], mt);
            match Expanded(vars, value, mt)
            case None => env == vars.env
            case Some(v) =>
              && env == vars.env + [NameValue(name, v)]
              && EnvValue(env, name) == if EnvValue(vars.env, name).Some? then EnvValue(vars.env, name) else Some(v)
  {
    hide Expanded, EnvValue;
    var flag := name + [COLON] + value;
    IndexFromIs(flag, 0, COLON, |name|);
    assert flag[..|name|] == name && flag[|name| + 1..] == value;
    var flags: seq<Text> := [flag];
    assert flags[1..] == [];
    if Expanded(vars, value, mt).Some? {
      ValueOfAppended(vars.env, name, Expanded(vars, value, mt).value);
    }
  }

  /** A flag without a colon sets nothing. */
  lemma EnvFlagWithoutColon(vars: Vars, flag: Text, mt: Match)
    requires mt.Valid() && COLON !in flag
    ensures EnvSetAll(vars, [flag], mt) == vars.env
  {
    hide Expanded;
    assert IndexFrom(flag, 0, COLON) == |flag|;
    var flags: seq<Text> := [flag];
    assert flags[1..] == [];
  }

  /** Of several flags each sees what the earlier ones have set. */
  lemma {:induction false} EnvFlagsInOrder(vars: Vars, first: seq<Text>, second: seq<Text>, mt: Match)
    requires mt.Valid()
    ensures EnvSetAll(vars, first + second, mt)
         == EnvSetAll(vars.(env := EnvSetAll(vars, first, mt)), second, mt)
    decreases |first|
  {
    hide EnvSet;
    if first == [] {
      assert first + second == second;
    } else {
      assert (first + second)[1..] == first[1..] + second;
      EnvFlagsInOrder(vars.(env := EnvSet(vars, first[0], mt)), first[1..], second, mt);
    }
  }

  // ----- attempts -----

  /** `t` is a scheme with something behind it. */
  predicate Schemed(t: Text) {
    || (|t| > 7 && t[..7] == Ascii("http://"))
    || (|t| > 8 && t[..8] == Ascii("https://"))
  }

  /** What a substitution comes to before it is expanded again: the subject, itself, or itself behind the base. */
  lemma SubstitutionForms(substitution: Text, subject: Text, base: Text)
    ensures Substituted(substitution, subject, base) ==
            if substitution == [DASH] then subject
            else if substitution != [] && (substitution[0] == SLASH || Schemed(substitution)) then substitution
            else base + substitution
  {
    hide Schemed, IsUrl;
    SchemeIsUrl(substitution);
    if substitution == [] {
      NothingIsNoUrl();
    }
  }

  lemma NothingIsNoUrl()
    ensures !IsUrl([])
  {
  }

  /** The target of a rule whose substitution expands to `first`: relative ones go behind the base. */
  function BasedTarget(base: Text, rule: Rule, first: Text): Text {
    if first != [] && first[0] != SLASH && QUESTION !in first && !Schemed(first) && !Schemed(rule.substitution) then
      base + first
    else
      first
  }

  lemma TargetIsBased(vars: Vars, rule: Rule, base: Text, mt: Match)
    requires mt.Valid() && AllPlain(base) && rule.substitution != [DASH]
    requires Expanded(vars, rule.substitution, mt).Some?
    ensures var first := Expanded(vars, rule.substitution, mt).value;
            Target(vars, rule, base, mt, first) == BasedTarget(base, rule, first)
  {
    hide Expanded, Target;
    var first := Expanded(vars, rule.substitution, mt).value;
    BaseIsPrepended(vars, rule, base, mt);
    SchemeIsUrl(first);
    SchemeIsUrl(rule.substitution);
    assert IndexFrom(first, 0, QUESTION) == |first| <==> QUESTION !in first;
  }

  lemma SchemeIsUrl(t: Text)
    ensures Schemed(t) <==> IsUrl(t)
  {
  }

  /** The request once the environment flags of a matched rule are set. */
  function Entered(site: Site, rule: Rule, m: Machine, mt: Match): Machine
    requires mt.Valid()
  {
    m.(env := EnvSetAll(Seen(site, m), rule.envVars, mt))
  }

  /** The rule matches and has something to substitute, and no chain that leads on. */
  predicate Substitutes(o: Oracle, site: Site, dir: Dir, rule: Rule, m: Machine, mt: Match, first: Text)
    requires mt.Valid()
  {
    && rule.substitution != [DASH] && (rule.chain ==> rule.last || rule.end)
    && Expanded(Seen(site, Entered(site, rule, m, mt)), rule.substitution, mt) == Some(first)
  }

  /**
   A matched rule that rewrites, its base of plain bytes: the request gets the base and the
   expansion, split into URI and query, and the pass ends exactly if the rule has L or END.
   */
  lemma MatchedRuleRewrites(o: Oracle, site: Site, dir: Dir, rule: Rule, m: Machine, mt: Match, first: Text,
                            path: Text, query: Option<Text>)
    requires o.Valid() && mt.Valid() && MatchOf(o, dir, rule, Seen(site, m)) == RuleMatches(mt)
    requires AllPlain(dir.rewriteBase) && !rule.redirect && Substitutes(o, site, dir, rule, m, mt, first)
    requires QUESTION !in path
    requires BasedTarget(dir.rewriteBase, rule, first)
          == match query case None => path case Some(q) => path + [QUESTION] + q
    ensures var earlier := m.queryString;
            var args := match query
                        case None => if rule.qsa then earlier else []
                        case Some(q) => if rule.qsa then BothQueries(q, earlier) else q;
            var m' := WithUri(Entered(site, rule, m, mt), Absolute(path), args);
            AttemptRule(o, site, dir, rule, m) == if rule.last || rule.end then Ended(ResultOk, m') else Rewrote(m')
  {
    hide Expanded, Target, Rewritten, BasedTarget, WithUri, MatchOf, EnvSetAll;
    var m1 := Entered(site, rule, m, mt);
    TargetIsBased(Seen(site, m1), rule, dir.rewriteBase, mt);
    match query
    case None => PathBecomesUri(m1, path, rule.qsa);
    case Some(q) => PathAndQueryBecomeUri(m1, path, q, rule.qsa);
  }

  /** One that redirects: the pass ends with the target, as it is, and the rule's code, or 302 for none. */
  lemma MatchedRuleRedirects(o: Oracle, site: Site, dir: Dir, rule: Rule, m: Machine, mt: Match, first: Text)
    requires o.Valid() && mt.Valid() && MatchOf(o, dir, rule, Seen(site, m)) == RuleMatches(mt)
    requires AllPlain(dir.rewriteBase) && rule.redirect && Substitutes(o, site, dir, rule, m, mt, first)
    ensures AttemptRule(o, site, dir, rule, m) == Ended(ResultRedirect, Entered(site, rule, m, mt).(
              uri := BasedTarget(dir.rewriteBase, rule, first),
              redirectCode := if rule.redirectCode == 0 then 302 else rule.redirectCode))
  {
    hide Expanded, Target, Rewritten, BasedTarget, MatchOf, EnvSetAll;
    TargetIsBased(Seen(site, Entered(site, rule, m, mt)), rule, dir.rewriteBase, mt);
  }

  /** One that substitutes nothing: a dash ends the pass under L or END, a failing expansion always, a link never. */
  lemma MatchedRuleLeaves(o: Oracle, site: Site, dir: Dir, rule: Rule, m: Machine, mt: Match)
    requires o.Valid() && mt.Valid() && MatchOf(o, dir, rule, Seen(site, m)) == RuleMatches(mt)
    ensures var m1 := Entered(site, rule, m, mt);
            var a := AttemptRule(o, site, dir, rule, m);
            if rule.substitution == [DASH] then
              a == if rule.last || rule.end then Ended(ResultDeclined, m1) else Passed(m1)
            else if Expanded(Seen(site, m1), rule.substitution, mt).None? then
              a == Ended(ResultError, m1)
            else rule.chain && !rule.last && !rule.end ==>
              a == Passed(m1)
  {
    hide Expanded, Target, Rewritten, MatchOf, EnvSetAll;
  }
}
