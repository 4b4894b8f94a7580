/**
 What the C flag means.  The rules of a directory split into chains; the rules of a chain
 are attempted in order until one of them does not match.  The rule loop's `chain_active`
 and `chain_in` bits compute exactly this.
 */
module Chains {
  import opened Directives
  import opened Rewrite

  // ----- the declarative reading -----

  function RulesOf(bodies: seq<Body>): seq<Rule> {
    if bodies == [] then []
    else if bodies[0].RewriteRule? then [bodies[0].rule] + RulesOf(bodies[1..])
    else RulesOf(bodies[1..])
  }

  /** The length of the chain that `rules` starts with: a chain ends at the first rule without the C flag. */
  function ChainLength(rules: seq<Rule>): (n: nat)
    requires rules != []
    ensures 1 <= n <= |rules|
  {
    if !rules[0].chain || |rules| == 1 then 1 else 1 + ChainLength(rules[1..])
  }

  function AfterChain(rules: seq<Rule>): seq<Rule> {
    if rules == [] then [] else rules[ChainLength(rules)..]
  }

  datatype Flow = On(m: Machine) | Out(result: Result, m: Machine)

  /** The rules of one chain, until one does not match. */
  function RunChain(o: Oracle, site: Site, dir: Dir, chain: seq<Rule>, m: Machine): Flow
    requires o.Valid()
    decreases |chain|
  {
    if chain == [] then On(m)
    else
      match AttemptRule(o, site, dir, chain[0], m)
      case Unmatched => On(m)
      case Passed(m') => RunChain(o, site, dir, chain[1..], m')
      case Rewrote(m') => RunChain(o, site, dir, chain[1..], m')
      case Ended(result, m') => Out(result, m')
  }

  function RunChains(o: Oracle, site: Site, dir: Dir, rules: seq<Rule>, m: Machine): Flow
    requires o.Valid()
    decreases |rules|
  {
    if rules == [] then On(m)
    else
      match RunChain(o, site, dir, rules[..ChainLength(rules)], m)
      case On(m') => RunChains(o, site, dir, rules[ChainLength(rules)..], m')
      case Out(result, m') => Out(result, m')
  }

  /** A whole pass: directory by directory, chain by chain, with nothing carried between them but the request. */
  function RunAllChains(o: Oracle, site: Site, dirs: seq<Dir>, m: Machine): Flow
    requires o.Valid()
    decreases |dirs|
  {
    if dirs == [] then On(m)
    else if !dirs[0].rewriteEngine then RunAllChains(o, site, dirs[1..], m)
    else
      match RunChains(o, site, dirs[0], RulesOf(dirs[0].directives), m)
      case On(m') => RunAllChains(o, site, dirs[1..], m')
      case Out(result, m') => Out(result, m')
  }

  // ----- marking -----

  /** The nearest rule before position `k` has the C flag. */
  ghost predicate LeadsInto(bodies: seq<Body>, k: nat)
    requires k <= |bodies|
  {
    exists i :: 0 <= i < k && Leads(bodies, i, k)
  }

  ghost predicate Leads(bodies: seq<Body>, i: nat, k: nat)
    requires i < k <= |bodies|
  {
    && bodies[i].RewriteRule? && bodies[i].rule.chain
    && forall j :: i < j < k ==> !bodies[j].RewriteRule?
  }

  ghost function MarkOne(bodies: seq<Body>, k: nat): Body
    requires k < |bodies|
  {
    if bodies[k].RewriteRule? && LeadsInto(bodies, k) then
      bodies[k].(rule := bodies[k].rule.(chainIn := true))
    else
      bodies[k]
  }

  /** The effect of marking: every rule the C flag leads into gets its `chain_in` bit. */
  ghost function Marked(bodies: seq<Body>): (r: seq<Body>)
    ensures |r| == |bodies|
    ensures forall k :: 0 <= k < |bodies| ==> r[k] == MarkOne(bodies, k)
  {
    seq(|bodies|, k requires 0 <= k < |bodies| => MarkOne(bodies, k))
  }

  /** `chain_in` is set on exactly the rules whose nearest preceding rule in the directory has the C flag. */
  ghost predicate WellMarked(bodies: seq<Body>) {
    forall k :: 0 <= k < |bodies| && bodies[k].RewriteRule? ==>
      (bodies[k].rule.chainIn <==> LeadsInto(bodies, k))
  }

  ghost predicate Unmarked(bodies: seq<Body>) {
    forall k :: 0 <= k < |bodies| && bodies[k].RewriteRule? ==> !bodies[k].rule.chainIn
  }

  /** Marking does not change what leads into what. */
  ghost predicate SameChains(a: seq<Body>, b: seq<Body>, n: nat) {
    n <= |a| && n <= |b| &&
    forall k :: 0 <= k < n ==>
      (a[k].RewriteRule? <==> b[k].RewriteRule?) && (a[k].RewriteRule? ==> a[k].rule.chain == b[k].rule.chain)
  }

  lemma SameChainsLead(a: seq<Body>, b: seq<Body>, n: nat, k: nat)
    requires SameChains(a, b, n) && k <= n
    ensures LeadsInto(a, k) <==> LeadsInto(b, k)
  {
    if LeadsInto(a, k) {
      var i :| 0 <= i < k && Leads(a, i, k);
      assert Leads(b, i, k);
    }
    if LeadsInto(b, k) {
      var i :| 0 <= i < k && Leads(b, i, k);
      assert Leads(a, i, k);
    }
  }

  /** Marking afresh rules gives well-marked ones. */
  lemma MarkingIsExact(bodies: seq<Body>)
    requires Unmarked(bodies)
    ensures WellMarked(Marked(bodies))
  {
    var marked := Marked(bodies);
    assert SameChains(bodies, marked, |bodies|);
    forall k | 0 <= k < |marked| && marked[k].RewriteRule?
      ensures marked[k].rule.chainIn <==> LeadsInto(marked, k)
    {
      SameChainsLead(bodies, marked, |bodies|, k);
    }
  }

  /** Re-marking after each appended directive gives the same as marking once at the end. */
  lemma IncrementalMarking(bodies: seq<Body>, next: Body)
    ensures Marked(Marked(bodies) + [next]) == Marked(bodies + [next])
  {
    var a, b := Marked(bodies) + [next], bodies + [next];
    assert SameChains(a, b, |b|);
    assert SameChains(bodies, b, |bodies|);
    forall k | 0 <= k < |b|
      ensures MarkOne(a, k) == MarkOne(b, k)
    {
      SameChainsLead(a, b, |b|, k);
      if k < |bodies| {
        SameChainsLead(bodies, b, |bodies|, k);
      }
    }
  }

  /** Appending something other than a rule disturbs no mark. */
  lemma MarkingAppend(bodies: seq<Body>, next: Body)
    requires !next.RewriteRule?
    ensures Marked(bodies) + [next] == Marked(bodies + [next])
  {
    assert SameChains(bodies, bodies + [next], |bodies|);
    forall k | 0 <= k < |bodies|
      ensures MarkOne(bodies, k) == MarkOne(bodies + [next], k)
    {
      SameChainsLead(bodies, bodies + [next], |bodies|, k);
    }
  }

  /** `chain_in` read from the front: the flag of the last rule passed. */
  predicate MarkedFrom(bodies: seq<Body>, chained: bool) {
    if bodies == [] then true
    else if bodies[0].RewriteRule? then
      bodies[0].rule.chainIn == chained && MarkedFrom(bodies[1..], bodies[0].rule.chain)
    else
      MarkedFrom(bodies[1..], chained)
  }

  lemma LeadsIntoNext(bodies: seq<Body>, k: nat)
    requires k < |bodies|
    ensures LeadsInto(bodies, k + 1)
       <==> if bodies[k].RewriteRule? then bodies[k].rule.chain else LeadsInto(bodies, k)
  {
    if bodies[k].RewriteRule? && bodies[k].rule.chain {
      assert Leads(bodies, k, k + 1);
    }
    if !bodies[k].RewriteRule? && LeadsInto(bodies, k) {
      var i :| 0 <= i < k && Leads(bodies, i, k);
      assert Leads(bodies, i, k + 1);
    }
    if LeadsInto(bodies, k + 1) {
      var i :| 0 <= i < k + 1 && Leads(bodies, i, k + 1);
      assert i < k ==> Leads(bodies, i, k);
    }
  }

  lemma {:induction false} WellMarkedFrom(bodies: seq<Body>, k: nat)
    requires WellMarked(bodies) && k <= |bodies|
    ensures MarkedFrom(bodies[k..], LeadsInto(bodies, k))
    decreases |bodies| - k
  {
    if k == |bodies| {
    } else {
      WellMarkedFrom(bodies, k + 1);
      LeadsIntoNext(bodies, k);
      assert bodies[k..][1..] == bodies[k + 1..];
    }
  }

  // ----- refinement -----

  function Erase(p: Progress): Flow {
    match p
    case Going(_, m) => On(m)
    case Done(result, m) => Out(result, m)
  }

  lemma ChainHead(rules: seq<Rule>)
    requires rules != []
    ensures AfterChain(rules) == if rules[0].chain then AfterChain(rules[1..]) else rules[1..]
  {
    if rules[0].chain && |rules| > 1 {
      assert rules[1..][ChainLength(rules[1..])..] == rules[ChainLength(rules)..];
    }
  }

  /** Unrolling a chain by one rule. */
  lemma ChainsStep(o: Oracle, site: Site, dir: Dir, rules: seq<Rule>, m: Machine)
    requires o.Valid() && rules != []
    ensures RunChains(o, site, dir, rules, m) ==
            match AttemptRule(o, site, dir, rules[0], m)
            case Unmatched => RunChains(o, site, dir, AfterChain(rules), m)
            case Passed(m') => RunChains(o, site, dir, rules[1..], m')
            case Rewrote(m') => RunChains(o, site, dir, rules[1..], m')
            case Ended(result, m') => Out(result, m')
  {
    var a := AttemptRule(o, site, dir, rules[0], m);
    var n := ChainLength(rules);
    var chain, rest := rules[..n], rules[1..];
    assert chain[0] == rules[0];
    if a.Passed? || a.Rewrote? {
      assert RunChain(o, site, dir, chain, m) == RunChain(o, site, dir, chain[1..], a.m);
      if n == 1 {
        assert chain[1..] == [];
      } else {
        assert chain[1..] == rest[..ChainLength(rest)];
        assert rest[ChainLength(rest)..] == rules[n..];
      }
    }
  }

  /** A rule that rewrote and let the loop go on is not chained. */
  lemma RewroteIsUnchained(o: Oracle, site: Site, dir: Dir, rule: Rule, m: Machine)
    requires o.Valid() && AttemptRule(o, site, dir, rule, m).Rewrote?
    ensures !rule.chain
  {
  }

  lemma {:induction false} BodiesRefineChains(o: Oracle, site: Site, dir: Dir, bodies: seq<Body>,
                                              chained: bool, active: bool, m: Machine)
    requires o.Valid() && MarkedFrom(bodies, chained)
    ensures var rules := RulesOf(bodies);
            Erase(RunBodies(o, site, dir, bodies, active, m))
            == RunChains(o, site, dir, if chained && !active then AfterChain(rules) else rules, m)
    decreases |bodies|
  {
    if bodies == [] {
    } else if !bodies[0].RewriteRule? {
      BodiesRefineChains(o, site, dir, bodies[1..], chained, active, m);
    } else {
      var rule, rest, rules := bodies[0].rule, bodies[1..], RulesOf(bodies);
      assert rules[0] == rule && rules[1..] == RulesOf(rest);
      ChainHead(rules);
      if chained && !active {
        BodiesRefineChains(o, site, dir, rest, rule.chain, false, m);
      } else {
        ChainsStep(o, site, dir, rules, m);
        match AttemptRule(o, site, dir, rule, m)
        case Unmatched =>
          BodiesRefineChains(o, site, dir, rest, rule.chain, if rule.chain then false else active, m);
        case Passed(m') =>
          BodiesRefineChains(o, site, dir, rest, rule.chain, if rule.chain then true else active, m');
        case Rewrote(m') =>
          RewroteIsUnchained(o, site, dir, rule, m);
          BodiesRefineChains(o, site, dir, rest, false, false, m');
        case Ended(_, _) =>
      }
    }
  }

  /**
   Chain refinement: on well-marked directories the loop with its flag, whatever the flag's
   initial value, computes the declarative reading.  In particular the flag never leaks
   from one chain or directory into another.
   */
  lemma {:induction false} FlagLoopRefinesChains(o: Oracle, site: Site, dirs: seq<Dir>, active: bool, m: Machine)
    requires o.Valid() && forall d :: d in dirs ==> WellMarked(d.directives)
    ensures Erase(RunDirs(o, site, dirs, active, m)) == RunAllChains(o, site, dirs, m)
    decreases |dirs|
  {
    if dirs == [] {
    } else if !dirs[0].rewriteEngine {
      FlagLoopRefinesChains(o, site, dirs[1..], active, m);
    } else {
      var bodies := dirs[0].directives;
      assert dirs[0] in dirs;
      WellMarkedFrom(bodies, 0);
      assert bodies[0..] == bodies;
      BodiesRefineChains(o, site, dirs[0], bodies, false, active, m);
      var p := RunBodies(o, site, dirs[0], bodies, active, m);
      if p.Going? {
        FlagLoopRefinesChains(o, site, dirs[1..], p.active, p.m);
      }
    }
  }

  // ----- which rules are attempted -----

  /** What the loop does with a rule: it passes it over, or attempts it, which matches or not. */
  datatype Event = Skipped | Tried(matched: bool)

  function EventOf(o: Oracle, site: Site, dir: Dir, rule: Rule, active: bool, m: Machine): Event
    requires o.Valid()
  {
    if rule.chainIn && !active then Skipped else Tried(!AttemptRule(o, site, dir, rule, m).Unmatched?)
  }

  /** What the loop does with each rule of a directory, up to the one that ends the pass. */
  function Events(o: Oracle, site: Site, dir: Dir, bodies: seq<Body>, active: bool, m: Machine): seq<Event>
    requires o.Valid()
    decreases |bodies|
  {
    if bodies == [] then []
    else if !bodies[0].RewriteRule? then Events(o, site, dir, bodies[1..], active, m)
    else
      var p := OneRule(o, site, dir, bodies[0].rule, active, m);
      [EventOf(o, site, dir, bodies[0].rule, active, m)]
      + if p.Done? then [] else Events(o, site, dir, bodies[1..], p.active, p.m)
  }

  /** Each rule is attempted unless it is chained to a rule that was skipped or did not match. */
  ghost predicate FollowsChains(events: seq<Event>, rules: seq<Rule>, blocked: bool) {
    && |events| <= |rules|
    && (events != [] ==> (events[0].Tried? <==> !blocked))
    && forall k :: 0 <= k < |events| - 1 ==> FollowsAt(events, rules, k)
  }

  /** What happens to the rule after rule `k`. */
  ghost predicate FollowsAt(events: seq<Event>, rules: seq<Rule>, k: nat)
    requires k + 1 < |events| <= |rules|
  {
    events[k + 1].Tried? <==> !rules[k].chain || events[k] == Tried(true)
  }

  lemma FollowsChainsCons(event: Event, rest: seq<Event>, rules: seq<Rule>, blocked: bool)
    requires rules != [] && (event.Tried? <==> !blocked)
    requires rest == [] || FollowsChains(rest, rules[1..], rules[0].chain && event != Tried(true))
    ensures FollowsChains([event] + rest, rules, blocked)
  {
    var events := [event] + rest;
    forall k | 0 <= k < |events| - 1
      ensures FollowsAt(events, rules, k)
    {
      if k > 0 {
        assert FollowsAt(rest, rules[1..], k - 1);
      }
    }
  }

  lemma FlagTellsChain(o: Oracle, site: Site, dir: Dir, rule: Rule, active: bool, m: Machine)
    requires o.Valid()
    ensures var p := OneRule(o, site, dir, rule, active, m);
            p.Going? && rule.chain ==>
              (p.active <==> EventOf(o, site, dir, rule, active, m) == Tried(true))
  {
    hide AttemptRule;
    if AttemptRule(o, site, dir, rule, m).Rewrote? {
      RewroteIsUnchained(o, site, dir, rule, m);
    }
  }

  lemma {:induction false} EventsFollowChains(o: Oracle, site: Site, dir: Dir, bodies: seq<Body>,
                                              chained: bool, active: bool, m: Machine)
    requires o.Valid() && MarkedFrom(bodies, chained)
    ensures FollowsChains(Events(o, site, dir, bodies, active, m), RulesOf(bodies), chained && !active)
    decreases |bodies|
  {
    hide AttemptRule, OneRule, FollowsChains;
    if bodies == [] {
      assert FollowsChains([], [], chained && !active) by {
        NoEvents(chained && !active);
      }
    } else if !bodies[0].RewriteRule? {
      EventsFollowChains(o, site, dir, bodies[1..], chained, active, m);
    } else {
      var rule, rules := bodies[0].rule, RulesOf(bodies);
      var event := EventOf(o, site, dir, rule, active, m);
      var p := OneRule(o, site, dir, rule, active, m);
      assert rules[1..] == RulesOf(bodies[1..]);
      if p.Done? {
        FollowsChainsCons(event, [], rules, chained && !active);
      } else {
        FlagTellsChain(o, site, dir, rule, active, m);
        EventsFollowChains(o, site, dir, bodies[1..], rule.chain, p.active, p.m);
        FollowsChainsCons(event, Events(o, site, dir, bodies[1..], p.active, p.m), rules, chained && !active);
      }
    }
  }

  lemma NoEvents(blocked: bool)
    ensures FollowsChains([], [], blocked)
  {
  }

  /** The position of the first rule of the chain that rule `k` belongs to. */
  function ChainStart(rules: seq<Rule>, k: nat): (s: nat)
    requires k < |rules|
    ensures s <= k
  {
    if k == 0 || !rules[k - 1].chain then k else ChainStart(rules, k - 1)
  }

  lemma {:induction false} TriedIffChainMatched(events: seq<Event>, rules: seq<Rule>, k: nat)
    requires FollowsChains(events, rules, false) && k < |events|
    ensures events[k].Tried? <==> forall j :: ChainStart(rules, k) <= j < k ==> events[j] == Tried(true)
    decreases k
  {
    if k == 0 {
    } else {
      assert FollowsAt(events, rules, k - 1);
      if rules[k - 1].chain {
        TriedIffChainMatched(events, rules, k - 1);
      }
    }
  }

  /**
   In a well-marked directory, whatever the flag is on entry, a rule that the pass gets to is
   attempted if and only if every earlier rule of its chain was attempted and matched.
   */
  lemma AttemptedIffChainMatched(o: Oracle, site: Site, dir: Dir, active: bool, m: Machine, k: nat)
    requires o.Valid() && WellMarked(dir.directives)
    requires k < |Events(o, site, dir, dir.directives, active, m)|
    ensures var events := Events(o, site, dir, dir.directives, active, m);
            var rules := RulesOf(dir.directives);
            && k < |rules|
            && (events[k].Tried? <==> forall j :: ChainStart(rules, k) <= j < k ==> events[j] == Tried(true))
  {
    hide Events, RulesOf;
    WellMarkedFrom(dir.directives, 0);
    assert dir.directives[0..] == dir.directives;
    EventsFollowChains(o, site, dir, dir.directives, false, active, m);
    TriedIffChainMatched(Events(o, site, dir, dir.directives, active, m), RulesOf(dir.directives), k);
  }
}
