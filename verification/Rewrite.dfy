/** The rewrite engine (htaccess_rewrite.c): one pass over the rules of the merged directories. */
module Rewrite {
  import opened Bytes
  import opened Directives
  import opened Expander
  import opened Conditions

  const CAPTURES: nat := 20

  /** The part of an nginx request the module reads and writes. */
  class Request {
    var uri: Text
    var args: Text
    var unparsedUri: Text
    var validUnparsedUri: bool
    var internal: bool
    const host: Text
    const headers: seq<NameValue>

    constructor (uri: Text, args: Text, unparsedUri: Text, host: Text, headers: seq<NameValue>)
      ensures this.uri == uri && this.args == args && this.unparsedUri == unparsedUri
      ensures validUnparsedUri && !internal
      ensures this.host == host && this.headers == headers
    {
      this.uri, this.args, this.unparsedUri := uri, args, unparsedUri;
      this.host, this.headers := host, headers;
      validUnparsedUri, internal := true, false;
    }
  }

  /** `htaccess_request_state_t`. */
  class State {
    var uri: Text
    var filename: Text
    var queryString: Text
    var env: seq<NameValue>
    var redirectCode: nat

    constructor (uri: Text, queryString: Text)
      ensures this.uri == uri && this.queryString == queryString
      ensures filename == [] && env == [] && redirectCode == 0
    {
      this.uri, this.queryString := uri, queryString;
      filename, env, redirectCode := [], [], 0;
    }
  }

  /** What never changes during a request: the host it names and its headers. */
  datatype Site = Site(host: Text, headers: seq<NameValue>)

  /** The values of request and state together.  `r` marks the request's own copies. */
  datatype Machine = Machine(
    rUri: Text, rArgs: Text, unparsedUri: Text, validUnparsedUri: bool, internal: bool,
    uri: Text, filename: Text, queryString: Text, env: seq<NameValue>, redirectCode: nat)

  function Snapshot(r: Request, s: State): Machine
    reads r, s
  {
    Machine(r.uri, r.args, r.unparsedUri, r.validUnparsedUri, r.internal,
            s.uri, s.filename, s.queryString, s.env, s.redirectCode)
  }

  function VarsOf(site: Site, m: Machine): Vars {
    Vars(m.uri, m.filename, m.queryString, m.env, site.host, site.headers)
  }

  datatype RegexResult = NoMatch | Matched(offsets: seq<int>) | ExecError

  /**
   The parts of the environment the engine consults: whether a pattern compiles (with or
   without case), what executing it on a subject yields, and whether one condition holds.
   */
  datatype Oracle = Oracle(
    compiles: (Text, bool) -> bool,
    exec: (Text, bool, Text) -> RegexResult,
    holds: (Cond, Vars) -> bool)
  {
    /** The capture array is full-size, and what it marks as set lies within the subject. */
    ghost predicate Valid() {
      forall pattern, nocase, subject :: ValidExec(pattern, nocase, subject)
    }

    ghost predicate ValidExec(pattern: Text, nocase: bool, subject: Text) {
      var x := exec(pattern, nocase, subject);
      x.Matched? ==> |x.offsets| == CAPTURES && Match(subject, x.offsets).Valid()
    }
  }

  datatype Result = ResultDeclined | ResultOk | ResultRedirect | ResultError

  // ----- the small steps -----

  /** `htaccess_relative_uri`. */
  function RelativeUri(uri: Text, prefix: Text): Text {
    if prefix == [] || |uri| <= |prefix| then
      if |uri| > 1 && uri[0] == SLASH then uri[1..] else uri
    else
      var rel := uri[|prefix|..];
      if rel[0] == SLASH then rel[1..] else rel
  }

  predicate IsUrl(t: Text) {
    || (|t| > 7 && Ascii("http://") <= t)
    || (|t| > 8 && Ascii("https://") <= t)
  }

  predicate IsDash(t: Text) {
    t == [DASH]
  }

  /** `htaccess_apply_substitution`. */
  function Substituted(substitution: Text, input: Text, base: Text): Text {
    if IsDash(substitution) then input
    else if substitution != [] && substitution[0] == SLASH then substitution
    else if IsUrl(substitution) then substitution
    else base + substitution
  }

  method ApplySubstitution(substitution: Text, input: Text, base: Text) returns (out: Text)
    ensures out == Substituted(substitution, input, base)
  {
    if |substitution| == 1 && substitution[0] == DASH {
      return input;
    }
    if |substitution| > 0 && substitution[0] == SLASH {
      return substitution;
    }
    if IsUrl(substitution) {
      return substitution;
    }
    var len := |base| + |substitution| + 1;
    var buf := new Byte[len];
    var p := CopyTo(buf, 0, base);
    p := CopyTo(buf, p, substitution);
    return buf[..p];
  }

  /** A relative target: no slash, no scheme and no query. */
  predicate IsRelative(t: Text) {
    t != [] && t[0] != SLASH && !IsUrl(t) && IndexFrom(t, 0, QUESTION) == |t|
  }

  /**
   The target of a matched rule whose substitution expands to `first`: relative targets
   are rebuilt from the unexpanded substitution behind the rewrite base and expanded once
   more; if that fails they stay unexpanded.
   */
  function Target(vars: Vars, rule: Rule, base: Text, m: Match, first: Text): Text
    requires m.Valid()
  {
    if IsRelative(first) then
      var based := Substituted(rule.substitution, m.subject, base);
      Expanded(vars, based, m).GetOr(based)
    else
      first
  }

  function Unparsed(uri: Text, args: Text): Text {
    if args == [] then uri else uri + [QUESTION] + args
  }

  function TargetUri(target: Text): Text {
    var path := target[..IndexFrom(target, 0, QUESTION)];
    if path != [] && path[0] != SLASH then [SLASH] + path else path
  }

  function TargetArgs(target: Text, queryString: Text, qsa: bool): Text {
    var q := IndexFrom(target, 0, QUESTION);
    var args := if q < |target| then target[q + 1..] else [];
    if !qsa || queryString == [] then args
    else if args == [] then queryString
    else args + [AMPERSAND] + queryString
  }

  /** `htaccess_apply_target_uri`. */
  function Rewritten(m: Machine, target: Text, qsa: bool): Machine {
    var uri := TargetUri(target);
    var args := TargetArgs(target, m.queryString, qsa);
    m.(rUri := uri, rArgs := args, unparsedUri := Unparsed(uri, args), validUnparsedUri := false, internal := true,
       uri := uri, queryString := args)
  }

  method SplitTarget(target: Text, queryString: Text, qsa: bool) returns (uri: Text, args: Text)
    ensures uri == TargetUri(target) && args == TargetArgs(target, queryString, qsa)
  {
    uri, args := target, [];
    var q := IndexFrom(target, 0, QUESTION);
    if q < |target| {
      uri := target[..q];
      args := target[q + 1..];
    }
    if qsa && |queryString| > 0 {
      if |args| > 0 {
        args := args + [AMPERSAND] + queryString;
      } else {
        args := queryString;
      }
    }
    if |uri| > 0 && uri[0] != SLASH {
      uri := [SLASH] + uri;
    }
  }

  method ApplyTargetUri(r: Request, s: State, target: Text, qsa: bool)
    modifies r, s
    ensures Snapshot(r, s) == old(Rewritten(Snapshot(r, s), target, qsa))
  {
    r.uri, r.args := SplitTarget(target, s.queryString, qsa);
    if |r.args| > 0 {
      r.unparsedUri := r.uri + [QUESTION] + r.args;
    } else {
      r.unparsedUri := r.uri;
    }
    r.validUnparsedUri := false;
    r.internal := true;
    s.uri := r.uri;
    s.queryString := r.args;
  }

  /** The environment after one `E=name:value` flag; a value that does not expand sets nothing. */
  function EnvSet(vars: Vars, flag: Text, mt: Match): seq<NameValue>
    requires mt.Valid()
  {
    var colon := IndexFrom(flag, 0, COLON);
    if colon == |flag| then vars.env
    else
      match Expanded(vars, flag[colon + 1..], mt)
      case None => vars.env
      case Some(value) => vars.env + [NameValue(flag[..colon], value)]
  }

  /** The environment after all flags, each expanded in the environment the earlier ones left. */
  function EnvSetAll(vars: Vars, flags: seq<Text>, mt: Match): seq<NameValue>
    requires mt.Valid()
    decreases |flags|
  {
    if flags == [] then vars.env
    else EnvSetAll(vars.(env := EnvSet(vars, flags[0], mt)), flags[1..], mt)
  }

  /** `htaccess_apply_env_flags`, with `htaccess_env_set` inlined. */
  method ApplyEnvFlags(site: Site, s: State, flags: seq<Text>, mt: Match)
    requires mt.Valid()
    modifies s`env
    ensures s.env == EnvSetAll(Vars(s.uri, s.filename, s.queryString, old(s.env), site.host, site.headers), flags, mt)
  {
    ghost var total := EnvSetAll(Vars(s.uri, s.filename, s.queryString, s.env, site.host, site.headers), flags, mt);
    assert flags[0..] == flags;
    for i := 0 to |flags|
      invariant var vars := Vars(s.uri, s.filename, s.queryString, s.env, site.host, site.headers);
                EnvSetAll(vars, flags[i..], mt) == total
    {
      assert flags[i..][1..] == flags[i + 1..];
      var flag := flags[i];
      var colon := IndexFrom(flag, 0, COLON);
      if colon == |flag| {
        continue;
      }
      var vars := Vars(s.uri, s.filename, s.queryString, s.env, site.host, site.headers);
      var value := Expand(vars, flag[colon + 1..], mt);
      if value.None? {
        continue;
      }
      s.env := s.env + [NameValue(flag[..colon], value.value)];
    }
  }

  // ----- one rule -----

  /** What attempting a rule does: it fails, it matches without rewriting, it rewrites, or it ends the pass. */
  datatype Attempt =
    | Unmatched
    | Passed(m: Machine)
    | Rewrote(m: Machine)
    | Ended(result: Result, m: Machine)

  /** What a matched rule decides to do with the request. */
  datatype Decision = Leave | Stop(result: Result) | RedirectTo(target: Text, code: nat) | RewriteTo(target: Text)

  /** A rule the C flag leads on from, with neither L nor END. */
  predicate IsLink(rule: Rule) {
    rule.chain && !rule.last && !rule.end
  }

  function Decided(vars: Vars, dir: Dir, rule: Rule, mt: Match): Decision
    requires mt.Valid()
  {
    if IsDash(rule.substitution) then
      if rule.last || rule.end then Stop(ResultDeclined) else Leave
    else
      match Expanded(vars, rule.substitution, mt)
      case None => Stop(ResultError)
      case Some(first) =>
        if IsLink(rule) then Leave
        else
          var target := Target(vars, rule, dir.rewriteBase, mt, first);
          if rule.redirect then
            RedirectTo(target, if rule.redirectCode != 0 then rule.redirectCode else MOVED_TEMPORARILY)
          else
            RewriteTo(target)
  }

  function AfterMatch(vars: Vars, dir: Dir, rule: Rule, m: Machine, mt: Match): Attempt
    requires mt.Valid()
  {
    match Decided(vars, dir, rule, mt)
    case Leave => Passed(m)
    case Stop(result) => Ended(result, m)
    case RedirectTo(target, code) => Ended(ResultRedirect, m.(uri := target, redirectCode := code))
    case RewriteTo(target) =>
      var m' := Rewritten(m, target, rule.qsa);
      if rule.last || rule.end then Ended(ResultOk, m') else Rewrote(m')
  }

  datatype RuleMatch = NoRuleMatch | RuleMatchFails | RuleMatches(mt: Match)

  /** Whether a rule applies: its pattern compiles, its conditions hold, and its pattern matches the relative URI. */
  function MatchOf(o: Oracle, dir: Dir, rule: Rule, vars: Vars): (x: RuleMatch)
    requires o.Valid()
    ensures x.RuleMatches? ==> x.mt.Valid()
  {
    var rel := RelativeUri(vars.uri, dir.urlPrefix);
    if !o.compiles(rule.pattern, rule.nocase) then NoRuleMatch
    else if !Satisfied(rule.conditions, o.holds, vars) then NoRuleMatch
    else
      assert o.ValidExec(rule.pattern, rule.nocase, rel);
      match o.exec(rule.pattern, rule.nocase, rel)
      case NoMatch => NoRuleMatch
      case ExecError => RuleMatchFails
      case Matched(offsets) => RuleMatches(Match(rel, offsets))
  }

  /** One rule, taken on its own: whether it applies, and then its effect. */
  function AttemptRule(o: Oracle, site: Site, dir: Dir, rule: Rule, m: Machine): Attempt
    requires o.Valid()
  {
    match MatchOf(o, dir, rule, VarsOf(site, m))
    case NoRuleMatch => Unmatched
    case RuleMatchFails => Ended(ResultError, m)
    case RuleMatches(mt) =>
      var m' := m.(env := EnvSetAll(VarsOf(site, m), rule.envVars, mt));
      AfterMatch(VarsOf(site, m'), dir, rule, m', mt)
  }

  method MatchRule(o: Oracle, dir: Dir, rule: Rule, vars: Vars) returns (x: RuleMatch)
    requires o.Valid()
    ensures x == MatchOf(o, dir, rule, vars)
  {
    if !o.compiles(rule.pattern, rule.nocase) {
      return NoRuleMatch;
    }
    var ok := MatchConditions(rule.conditions, o.holds, vars);
    if !ok {
      return NoRuleMatch;
    }
    var rel := RelativeUri(vars.uri, dir.urlPrefix);
    match o.exec(rule.pattern, rule.nocase, rel) {
      case NoMatch => return NoRuleMatch;
      case ExecError => return RuleMatchFails;
      case Matched(offsets) => return RuleMatches(Match(rel, offsets));
    }
  }

  method FinalTarget(vars: Vars, rule: Rule, base: Text, mt: Match, first: Text) returns (out: Text)
    requires mt.Valid()
    ensures out == Target(vars, rule, base, mt, first)
  {
    out := first;
    if IsRelative(out) {
      out := ApplySubstitution(rule.substitution, mt.subject, base);
      var sub := Expand(vars, out, mt);
      if sub.Some? {
        out := sub.value;
      }
    }
  }

  /** How an attempt went, once its effect is in the request and state. */
  datatype Verdict = Fails | Passes | Rewrites | Ends(result: Result)

  function VerdictOf(a: Attempt): Verdict {
    match a
    case Unmatched => Fails
    case Passed(_) => Passes
    case Rewrote(_) => Rewrites
    case Ended(result, _) => Ends(result)
  }

  function MachineOf(a: Attempt, m: Machine): Machine {
    if a.Unmatched? then m else a.m
  }

  method Decide(vars: Vars, dir: Dir, rule: Rule, mt: Match) returns (d: Decision)
    requires mt.Valid()
    ensures d == Decided(vars, dir, rule, mt)
  {
    if |rule.substitution| == 1 && rule.substitution[0] == DASH {
      return if rule.last || rule.end then Stop(ResultDeclined) else Leave;
    }
    var sub := Expand(vars, rule.substitution, mt);
    if sub.None? {
      return Stop(ResultError);
    }
    if rule.chain && !rule.last && !rule.end {
      return Leave;
    }
    var out := FinalTarget(vars, rule, dir.rewriteBase, mt, sub.value);
    if rule.redirect {
      return RedirectTo(out, if rule.redirectCode != 0 then rule.redirectCode else MOVED_TEMPORARILY);
    }
    return RewriteTo(out);
  }

  method TakeEffect(vars: Vars, dir: Dir, rule: Rule, r: Request, s: State, mt: Match) returns (v: Verdict)
    requires mt.Valid()
    modifies r, s
    ensures var a := old(AfterMatch(vars, dir, rule, Snapshot(r, s), mt));
            v == VerdictOf(a) && Snapshot(r, s) == MachineOf(a, old(Snapshot(r, s)))
  {
    var d := Decide(vars, dir, rule, mt);
    match d {
      case Leave => return Passes;
      case Stop(result) => return Ends(result);
      case RedirectTo(target, code) =>
        s.uri := target;
        s.redirectCode := code;
        return Ends(ResultRedirect);
      case RewriteTo(target) =>
        ApplyTargetUri(r, s, target, rule.qsa);
        return if rule.last || rule.end then Ends(ResultOk) else Rewrites;
    }
  }

  method TryRule(o: Oracle, site: Site, dir: Dir, rule: Rule, r: Request, s: State) returns (v: Verdict)
    requires o.Valid()
    modifies r, s
    ensures var a := old(AttemptRule(o, site, dir, rule, Snapshot(r, s)));
            v == VerdictOf(a) && Snapshot(r, s) == MachineOf(a, old(Snapshot(r, s)))
  {
    var vars := Vars(s.uri, s.filename, s.queryString, s.env, site.host, site.headers);
    var x := MatchRule(o, dir, rule, vars);
    match x {
      case NoRuleMatch => return Fails;
      case RuleMatchFails => return Ends(ResultError);
      case RuleMatches(mt) =>
        ApplyEnvFlags(site, s, rule.envVars, mt);
        vars := vars.(env := s.env);
        v := TakeEffect(vars, dir, rule, r, s, mt);
    }
  }

  // ----- the loop over all rules -----

  /** Where the rule loop stands: still going with its `chain_active` flag, or ended. */
  datatype Progress = Going(active: bool, m: Machine) | Done(result: Result, m: Machine)

  function OneRule(o: Oracle, site: Site, dir: Dir, rule: Rule, active: bool, m: Machine): Progress
    requires o.Valid()
  {
    if rule.chainIn && !active then Going(active, m)
    else
      match AttemptRule(o, site, dir, rule, m)
      case Unmatched => Going(if rule.chain then false else active, m)
      case Passed(m') => Going(if rule.chain then true else active, m')
      case Rewrote(m') => Going(false, m')
      case Ended(result, m') => Done(result, m')
  }

  function RunBodies(o: Oracle, site: Site, dir: Dir, bodies: seq<Body>, active: bool, m: Machine): Progress
    requires o.Valid()
    decreases |bodies|
  {
    if bodies == [] then Going(active, m)
    else if !bodies[0].RewriteRule? then RunBodies(o, site, dir, bodies[1..], active, m)
    else
      var p := OneRule(o, site, dir, bodies[0].rule, active, m);
      if p.Done? then p else RunBodies(o, site, dir, bodies[1..], p.active, p.m)
  }

  function RunDirs(o: Oracle, site: Site, dirs: seq<Dir>, active: bool, m: Machine): Progress
    requires o.Valid()
    decreases |dirs|
  {
    if dirs == [] then Going(active, m)
    else if !dirs[0].rewriteEngine then RunDirs(o, site, dirs[1..], active, m)
    else
      var p := RunBodies(o, site, dirs[0], dirs[0].directives, active, m);
      if p.Done? then p else RunDirs(o, site, dirs[1..], p.active, p.m)
  }

  /** The rest of the pass after progress `p` in the current directory. */
  function ThenDirs(o: Oracle, site: Site, p: Progress, dirs: seq<Dir>): Progress
    requires o.Valid()
  {
    if p.Done? then p else RunDirs(o, site, dirs, p.active, p.m)
  }

  function ResultOf(p: Progress): Result {
    if p.Done? then p.result else ResultDeclined
  }

  /** `htaccess_apply_rewrite`. */
  method ApplyRewrite(o: Oracle, site: Site, dirs: seq<Dir>, r: Request, s: State) returns (result: Result)
    requires o.Valid()
    modifies r, s
    ensures var p := old(RunDirs(o, site, dirs, false, Snapshot(r, s)));
            result == ResultOf(p) && Snapshot(r, s) == p.m
  {
    hide AttemptRule;
    ghost var total := RunDirs(o, site, dirs, false, Snapshot(r, s));
    var active := false;
    for i := 0 to |dirs|
      invariant RunDirs(o, site, dirs[i..], active, Snapshot(r, s)) == total
    {
      ghost var later := dirs[i + 1..];
      assert dirs[i..][1..] == later;
      if !dirs[i].rewriteEngine {
        continue;
      }
      var bodies := dirs[i].directives;
      assert bodies[0..] == bodies;
      for j := 0 to |bodies|
        invariant ThenDirs(o, site, RunBodies(o, site, dirs[i], bodies[j..], active, Snapshot(r, s)), later) == total
      {
        assert bodies[j..][1..] == bodies[j + 1..];
        if !bodies[j].RewriteRule? {
          continue;
        }
        var rule := bodies[j].rule;
        if rule.chainIn && !active {
          continue;
        }
        var v := TryRule(o, site, dirs[i], rule, r, s);
        match v {
          case Fails =>
            if rule.chain {
              active := false;
            }
          case Passes =>
            if rule.chain {
              active := true;
            }
          case Rewrites =>
            active := false;
          case Ends(end) =>
            return end;
        }
      }
    }
    return ResultDeclined;
  }
}
