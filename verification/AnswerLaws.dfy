/** Which answer a request gets, and when: over one pass and over whole runs. */
module AnswerLaws {
  import opened Options
  import opened Bytes
  import opened Directives
  import opened Expander
  import opened Rewrite
  import opened Walk
  import opened Execute

  // ----- error documents and locations -----

  /** The document at `k` is the first for the code. */
  predicate FirstDocument(docs: seq<ErrorDocument>, code: nat, k: nat) {
    k < |docs| && docs[k].code == code && forall j :: 0 <= j < k ==> docs[j].code != code
  }

  predicate NoDocument(docs: seq<ErrorDocument>, code: nat) {
    forall j :: 0 <= j < |docs| ==> docs[j].code != code
  }

  lemma {:induction false} ErrorUriIsFirst(docs: seq<ErrorDocument>, code: nat, k: nat)
    ensures FirstDocument(docs, code, k) ==> ErrorUri(docs, code) == Some(docs[k].uri)
    ensures ErrorUri(docs, code).None? <==> NoDocument(docs, code)
    decreases |docs|
  {
    if docs == [] {
    } else {
      ErrorUriIsFirst(docs[1..], code, if k > 0 then k - 1 else 0);
      assert forall j :: 1 <= j < |docs| ==> docs[j] == docs[1..][j - 1];
    }
  }

  /** A redirect's Location: the target, with a slash in front unless it starts with one or with an h. */
  function Placed(target: Text): Text {
    if target == [] || target[0] == SLASH || target[0] == LOWER_H then target else [SLASH] + target
  }

  /** The code of a redirect: its own, or 302. */
  function CodeOf(code: nat): nat {
    if code == 0 then 302 else code
  }

  /** The file of a URI: root and URI joined by one slash. */
  lemma ResolvedForms(root: Text, rest: Text)
    ensures root != [] && root[|root| - 1] != SLASH ==> Resolved(root, [SLASH] + rest) == root + [SLASH] + rest
    ensures root != [] && root[|root| - 1] == SLASH ==> Resolved(root, [SLASH] + rest) == root + rest
    ensures Resolved([], rest) == []
  {
  }

  // ----- one pass -----

  /** The verdict a pass asks for, unless files rules, a redirection or a rule that acts end it before. */
  function VerdictOn(d: Deciders, site: Site, merged: Merged, first: bool, requestUri: Text, m: Machine)
    : Option<Authorisation>
    requires d.oracle.Valid()
  {
    if first && d.filesDenied(merged, requestUri) then None
    else if d.redirection(merged, m.uri).Some? then None
    else
      var p := RunDirs(d.oracle, site, merged.dirs, false, m);
      if p.Done? && (p.result.ResultOk? || p.result.ResultRedirect?) then None
      else Some(d.authorise(merged, p.m.rUri))
  }

  /** The pass goes on at `uri`, for an error document. */
  predicate GoesOnAt(p: PassResult, uri: Text) {
    p.Again? && !p.rewritten && p.m.uri == uri && p.m.rUri == uri
  }

  lemma RefusalAnswers(merged: Merged, status: nat, m: Machine)
    ensures var p, docs := Refused(merged, status, m), merged.errorDocuments;
            && (NoDocument(docs, status) ==> p == Final(Answers(status), m))
            && (p.Final? ==> NoDocument(docs, status))
            && (forall k: nat :: FirstDocument(docs, status, k) ==> GoesOnAt(p, docs[k].uri))
  {
    hide ErrorUri, NoDocument;
    ErrorUriIsFirst(merged.errorDocuments, status, 0);
    forall k: nat | FirstDocument(merged.errorDocuments, status, k)
      ensures GoesOnAt(Refused(merged, status, m), merged.errorDocuments[k].uri)
    {
      ErrorUriIsFirst(merged.errorDocuments, status, k);
    }
  }

  /** Nothing ends the pass before its rules. */
  predicate ReachesRules(d: Deciders, merged: Merged, first: bool, requestUri: Text, m: Machine) {
    !(first && d.filesDenied(merged, requestUri)) && d.redirection(merged, m.uri).None?
  }

  /** A pass that gets a verdict ends as the verdict says: declining, or with 401 or 403, or at their document. */
  lemma VerdictAnswers(d: Deciders, site: Site, conf: Conf, merged: Merged, first: bool, requestUri: Text, m: Machine)
    requires d.oracle.Valid() && VerdictOn(d, site, merged, first, requestUri, m).Some?
    ensures var p, docs := Pass(d, site, conf, merged, first, requestUri, m), merged.errorDocuments;
            match VerdictOn(d, site, merged, first, requestUri, m).value
            case Allowed => p.Final? && p.response == Declines
            case Unauthorized =>
              && (if NoDocument(docs, 401) then p.Final? && p.response == Answers(401) else p.Again?)
              && (forall k: nat :: FirstDocument(docs, 401, k) ==> GoesOnAt(p, docs[k].uri))
            case Denied =>
              && (if NoDocument(docs, 403) then p.Final? && p.response == Answers(403) else p.Again?)
              && (forall k: nat :: FirstDocument(docs, 403, k) ==> GoesOnAt(p, docs[k].uri))
  {
    hide RunDirs, Refused, SendRedirect, Resolved, GoesOnAt, NoDocument, FirstDocument;
    var r := RunDirs(d.oracle, site, merged.dirs, false, m);
    RefusalAnswers(merged, 401, r.m);
    RefusalAnswers(merged, 403, r.m);
  }

  /** A pass without a verdict: 403 from the files rules, a redirect, or another pass after a rewrite. */
  lemma OtherwiseAnswers(d: Deciders, site: Site, conf: Conf, merged: Merged, first: bool, requestUri: Text, m: Machine)
    requires d.oracle.Valid() && VerdictOn(d, site, merged, first, requestUri, m).None?
    ensures var p := Pass(d, site, conf, merged, first, requestUri, m);
            var redirection := d.redirection(merged, m.uri);
            var r := RunDirs(d.oracle, site, merged.dirs, false, m);
            if first && d.filesDenied(merged, requestUri) then p == Final(Answers(403), m)
            else if redirection.Some? then
              p.Final? && p.response == Redirects(CodeOf(redirection.value.1), Placed(redirection.value.0))
            else if r.Done? && r.result.ResultRedirect? then
              p.Final? && p.response == Redirects(CodeOf(r.m.redirectCode), Placed(r.m.uri))
            else
              p.Again? && p.rewritten
  {
    hide RunDirs, Refused, Resolved;
  }

  // ----- the rule behind a redirect -----

  /** The rule, attempted in some state, redirects and leaves `m'`, with its own code or 302. */
  ghost predicate RedirectedBy(o: Oracle, site: Site, dir: Dir, rule: Rule, m: Machine, m': Machine)
    requires o.Valid()
  {
    && AttemptRule(o, site, dir, rule, m) == Ended(ResultRedirect, m')
    && rule.redirect && m'.redirectCode == CodeOf(rule.redirectCode)
  }

  ghost predicate RuleRedirects(o: Oracle, site: Site, dir: Dir, m': Machine)
    requires o.Valid()
  {
    exists body, m :: body in dir.directives && body.RewriteRule? && RedirectedBy(o, site, dir, body.rule, m, m')
  }

  lemma RedirectIsTheRules(o: Oracle, site: Site, dir: Dir, rule: Rule, m: Machine)
    requires o.Valid()
    ensures var a := AttemptRule(o, site, dir, rule, m);
            a.Ended? && a.result.ResultRedirect? ==> RedirectedBy(o, site, dir, rule, m, a.m)
  {
    hide MatchOf, EnvSetAll, Expanded, Target, Rewritten;
  }

  lemma {:induction false} BodiesRedirect(o: Oracle, site: Site, dir: Dir, bodies: seq<Body>, active: bool, m: Machine)
    requires o.Valid() && forall body :: body in bodies ==> body in dir.directives
    ensures var p := RunBodies(o, site, dir, bodies, active, m);
            p.Done? && p.result.ResultRedirect? ==> RuleRedirects(o, site, dir, p.m)
    decreases |bodies|
  {
    hide AttemptRule, RedirectedBy, RuleRedirects;
    if bodies == [] {
    } else if !bodies[0].RewriteRule? {
      BodiesRedirect(o, site, dir, bodies[1..], active, m);
    } else {
      var p := OneRule(o, site, dir, bodies[0].rule, active, m);
      RedirectIsTheRules(o, site, dir, bodies[0].rule, m);
      if p.Going? {
        BodiesRedirect(o, site, dir, bodies[1..], p.active, p.m);
      } else if p.result.ResultRedirect? {
        ARuleRedirects(o, site, dir, bodies[0], m, p.m);
      }
    }
  }

  lemma ARuleRedirects(o: Oracle, site: Site, dir: Dir, body: Body, m: Machine, m': Machine)
    requires o.Valid() && body in dir.directives && body.RewriteRule?
    requires RedirectedBy(o, site, dir, body.rule, m, m')
    ensures RuleRedirects(o, site, dir, m')
  {
    hide RedirectedBy;
  }

  /** When the rules redirect, a rule of a directory with the engine on does, and leaves its own target and code. */
  lemma {:induction false} DirsRedirect(o: Oracle, site: Site, dirs: seq<Dir>, active: bool, m: Machine)
    requires o.Valid()
    ensures var p := RunDirs(o, site, dirs, active, m);
            p.Done? && p.result.ResultRedirect? ==>
              exists dir :: dir in dirs && dir.rewriteEngine && RuleRedirects(o, site, dir, p.m)
    decreases |dirs|
  {
    hide RunBodies, RuleRedirects;
    if dirs == [] {
    } else if !dirs[0].rewriteEngine {
      DirsRedirect(o, site, dirs[1..], active, m);
    } else {
      BodiesRedirect(o, site, dirs[0], dirs[0].directives, active, m);
      var p := RunBodies(o, site, dirs[0], dirs[0].directives, active, m);
      if p.Going? {
        DirsRedirect(o, site, dirs[1..], p.active, p.m);
      } else {
        assert dirs[0] in dirs;
      }
    }
  }

  // ----- whole runs -----

  /** A run of passes over one request. */
  datatype Course = Course(site: Site, conf: Conf, tick: nat, m: Machine)

  /** Where the request stands after `n` passes. */
  ghost function At(ds: Decisions, world: World, c: Course, n: nat): Point
    requires AllValid(ds)
  {
    PointAt(ds, c.site, c.conf, world, c.tick, c.m, n)
  }

  /** What pass `j` merges, and the decisions taken on it. */
  ghost function MergedAt(ds: Decisions, world: World, c: Course, j: nat): Merged
    requires AllValid(ds)
  {
    var p := At(ds, world, c, j);
    WalkAll(world, p.tick, c.conf, p.m.rUri).0
  }

  ghost function DecidersAt(ds: Decisions, world: World, c: Course, j: nat): (d: Deciders)
    requires AllValid(ds)
    ensures d.oracle.Valid()
  {
    var p := At(ds, world, c, j);
    ds(WalkAll(world, p.tick, c.conf, p.m.rUri).1)
  }

  /** Pass `j` is run; files rules are asked in pass 0 alone, about the URI that arrived. */
  ghost function PassAt(ds: Decisions, world: World, c: Course, j: nat): PassResult
    requires AllValid(ds)
  {
    var d, merged := DecidersAt(ds, world, c, j), MergedAt(ds, world, c, j);
    Pass(d, c.site, c.conf, merged, j == 0, c.m.rUri, At(ds, world, c, j).m)
  }

  /** The verdict pass `j` asks for. */
  ghost function VerdictAt(ds: Decisions, world: World, c: Course, j: nat): Option<Authorisation>
    requires AllValid(ds)
  {
    VerdictOn(DecidersAt(ds, world, c, j), c.site, MergedAt(ds, world, c, j), j == 0, c.m.rUri, At(ds, world, c, j).m)
  }

  /** The run gets to pass `j`, which ends it with this response. */
  ghost predicate EndsAt(ds: Decisions, world: World, c: Course, j: nat, response: Response)
    requires AllValid(ds)
  {
    At(ds, world, c, j).Head? && PassAt(ds, world, c, j).Final? && PassAt(ds, world, c, j).response == response
  }

  lemma PassLeads(ds: Decisions, world: World, c: Course, j: nat)
    requires AllValid(ds)
    ensures var p, p' := At(ds, world, c, j), At(ds, world, c, j + 1);
            if p.Over? then p' == p
            else
              match PassAt(ds, world, c, j)
              case Final(response, m) => p'.Over? && p'.response == response && p'.m == m
              case Again(m, rewritten) =>
                p'.Head? && p'.m == m && p'.arrival == if rewritten then ByRewrite else ByErrorDocument
  {
    hide Pass, WalkAll;
    assert At(ds, world, c, j + 1)
        == NextPoint(ds, c.site, c.conf, world, j + 1 == 1, c.m.rUri, At(ds, world, c, j));
  }

  lemma StartsAtHead(ds: Decisions, world: World, c: Course)
    requires AllValid(ds)
    ensures At(ds, world, c, 0) == Head(c.m, c.tick, Initially)
  {
  }

  /** A run is over with a response exactly when one of its passes has ended with it. */
  lemma {:induction false} RunEnds(ds: Decisions, world: World, c: Course, n: nat, response: Response)
    requires AllValid(ds)
    ensures At(ds, world, c, n).Over? && At(ds, world, c, n).response == response
            <==> exists j: nat :: j < n && EndsAt(ds, world, c, j, response)
  {
    hide At, PassAt;
    if n == 0 {
      StartsAtHead(ds, world, c);
    } else {
      RunEnds(ds, world, c, n - 1, response);
      PassLeads(ds, world, c, n - 1);
      if EndsAt(ds, world, c, n - 1, response) {
        assert n - 1 < n;
      }
    }
  }

  /** The run gets to pass `j` and there to this verdict. */
  ghost predicate Judged(ds: Decisions, world: World, c: Course, j: nat, verdict: Authorisation)
    requires AllValid(ds)
  {
    At(ds, world, c, j).Head? && VerdictAt(ds, world, c, j) == Some(verdict)
  }

  /** Pass `j` gets to this verdict and has no document for the code. */
  ghost predicate Refuses(ds: Decisions, world: World, c: Course, j: nat, verdict: Authorisation, code: nat)
    requires AllValid(ds)
  {
    Judged(ds, world, c, j, verdict) && NoDocument(MergedAt(ds, world, c, j).errorDocuments, code)
  }

  /** The files rules deny the URI that arrived. */
  ghost predicate FilesDeny(ds: Decisions, world: World, c: Course)
    requires AllValid(ds)
  {
    DecidersAt(ds, world, c, 0).filesDenied(MergedAt(ds, world, c, 0), c.m.rUri)
  }

  lemma PassEnds(ds: Decisions, world: World, c: Course, j: nat)
    requires AllValid(ds) && At(ds, world, c, j).Head?
    ensures EndsAt(ds, world, c, j, Answers(401)) <==>
            Refuses(ds, world, c, j, Unauthorized, 401)
    ensures EndsAt(ds, world, c, j, Answers(403)) <==>
            || (j == 0 && FilesDeny(ds, world, c))
            || Refuses(ds, world, c, j, Denied, 403)
    ensures EndsAt(ds, world, c, j, Declines) <==> Judged(ds, world, c, j, Allowed)
    ensures forall status :: EndsAt(ds, world, c, j, Answers(status)) ==> status == 401 || status == 403
  {
    hide At, MergedAt, DecidersAt, Pass, NoDocument, FirstDocument, RunDirs, Placed;
    var d, merged, m := DecidersAt(ds, world, c, j), MergedAt(ds, world, c, j), At(ds, world, c, j).m;
    if VerdictOn(d, c.site, merged, j == 0, c.m.rUri, m).Some? {
      VerdictAnswers(d, c.site, c.conf, merged, j == 0, c.m.rUri, m);
    } else {
      OtherwiseAnswers(d, c.site, c.conf, merged, j == 0, c.m.rUri, m);
    }
  }

  /**
   Which answer comes when: 401 exactly when some pass finds the request unauthorised and has no
   document for 401; 403 exactly when the files rules deny the URI that arrived, or some pass is
   denied and has no document for 403; no other status.
   */
  lemma StatusOfRun(ds: Decisions, world: World, c: Course, n: nat)
    requires AllValid(ds)
    ensures var r := ResponseOf(At(ds, world, c, n));
            && (r == Answers(401) <==> exists j: nat :: j < n && Refuses(ds, world, c, j, Unauthorized, 401))
            && (r == Answers(403) <==>
                  (n > 0 && FilesDeny(ds, world, c)) || exists j: nat :: j < n && Refuses(ds, world, c, j, Denied, 403))
            && (r.Answers? ==> r.status == 401 || r.status == 403)
  {
    hide At, PassAt, Refuses, FilesDeny;
    RunEnds(ds, world, c, n, Answers(401));
    RunEnds(ds, world, c, n, Answers(403));
    StartsAtHead(ds, world, c);
    forall j: nat | j < n && At(ds, world, c, j).Head?
      ensures EndsAt(ds, world, c, j, Answers(401)) <==>
              Refuses(ds, world, c, j, Unauthorized, 401)
      ensures EndsAt(ds, world, c, j, Answers(403)) <==>
              || (j == 0 && FilesDeny(ds, world, c))
              || Refuses(ds, world, c, j, Denied, 403)
    {
      PassEnds(ds, world, c, j);
    }
    forall j: nat, verdict, code | Refuses(ds, world, c, j, verdict, code) ensures At(ds, world, c, j).Head? {
      RefusedAtHead(ds, world, c, j, verdict, code);
    }
    var r := ResponseOf(At(ds, world, c, n));
    if r.Answers? {
      RunEnds(ds, world, c, n, r);
      var j: nat :| j < n && EndsAt(ds, world, c, j, r);
      PassEnds(ds, world, c, j);
    }
  }

  lemma JudgedAtHead(ds: Decisions, world: World, c: Course, j: nat, verdict: Authorisation)
    requires AllValid(ds) && Judged(ds, world, c, j, verdict)
    ensures At(ds, world, c, j).Head?
  {
  }

  lemma RefusedAtHead(ds: Decisions, world: World, c: Course, j: nat, verdict: Authorisation, code: nat)
    requires AllValid(ds) && Refuses(ds, world, c, j, verdict, code)
    ensures At(ds, world, c, j).Head?
  {
  }

  /** The request is left to nginx exactly when some pass allows it or the passes are used up. */
  lemma WhenDeclined(ds: Decisions, world: World, c: Course, n: nat)
    requires AllValid(ds)
    ensures ResponseOf(At(ds, world, c, n)) == Declines <==>
            At(ds, world, c, n).Head? || exists j: nat :: j < n && Judged(ds, world, c, j, Allowed)
  {
    hide At, PassAt, Judged;
    RunEnds(ds, world, c, n, Declines);
    forall j: nat | j < n && At(ds, world, c, j).Head?
      ensures EndsAt(ds, world, c, j, Declines) <==> Judged(ds, world, c, j, Allowed)
    {
      PassEnds(ds, world, c, j);
    }
    forall j: nat | Judged(ds, world, c, j, Allowed) ensures At(ds, world, c, j).Head? {
      JudgedAtHead(ds, world, c, j, Allowed);
    }
  }

  /** After a refusal with a document the next pass is for the first document with that code. */
  lemma RefusedGoesToDocument(ds: Decisions, world: World, c: Course, j: nat, k: nat)
    requires AllValid(ds)
    ensures var docs, p := MergedAt(ds, world, c, j).errorDocuments, At(ds, world, c, j + 1);
            (Judged(ds, world, c, j, Unauthorized) && FirstDocument(docs, 401, k))
            || (Judged(ds, world, c, j, Denied) && FirstDocument(docs, 403, k)) ==>
              && p.Head? && p.arrival == ByErrorDocument && k < |docs|
              && p.m.uri == docs[k].uri && p.m.rUri == docs[k].uri
  {
    hide At, MergedAt, DecidersAt, Pass, NoDocument, RunDirs;
    PassLeads(ds, world, c, j);
    if VerdictAt(ds, world, c, j).Some? {
      VerdictAnswers(DecidersAt(ds, world, c, j), c.site, c.conf, MergedAt(ds, world, c, j), j == 0, c.m.rUri,
                     At(ds, world, c, j).m);
    }
  }

  /** Pass `j` is redirected by a Redirect directive, to its target with its code. */
  ghost predicate Redirected(ds: Decisions, world: World, c: Course, j: nat, response: Response)
    requires AllValid(ds)
  {
    var x := DecidersAt(ds, world, c, j).redirection(MergedAt(ds, world, c, j), At(ds, world, c, j).m.uri);
    x.Some? && response == Redirects(CodeOf(x.value.1), Placed(x.value.0))
  }

  /** Pass `j` is redirected by a rule of one of its directories, to its target with its code. */
  ghost predicate RedirectedByRule(ds: Decisions, world: World, c: Course, j: nat, response: Response)
    requires AllValid(ds)
  {
    var o := DecidersAt(ds, world, c, j).oracle;
    exists dir, m :: dir in MergedAt(ds, world, c, j).dirs && dir.rewriteEngine
                     && RuleRedirects(o, c.site, dir, m) && response == Redirects(CodeOf(m.redirectCode), Placed(m.uri))
  }

  lemma PassRedirects(ds: Decisions, world: World, c: Course, j: nat, response: Response)
    requires AllValid(ds) && response.Redirects? && EndsAt(ds, world, c, j, response)
    ensures Redirected(ds, world, c, j, response) || RedirectedByRule(ds, world, c, j, response)
  {
    hide At, MergedAt, DecidersAt, Pass, NoDocument, FirstDocument, RunDirs, Placed, RuleRedirects, CodeOf;
    var d, merged, m := DecidersAt(ds, world, c, j), MergedAt(ds, world, c, j), At(ds, world, c, j).m;
    if VerdictOn(d, c.site, merged, j == 0, c.m.rUri, m).Some? {
      VerdictAnswers(d, c.site, c.conf, merged, j == 0, c.m.rUri, m);
    } else {
      OtherwiseAnswers(d, c.site, c.conf, merged, j == 0, c.m.rUri, m);
      DirsRedirect(d.oracle, c.site, merged.dirs, false, m);
    }
  }

  ghost predicate RedirectsAt(ds: Decisions, world: World, c: Course, j: nat, response: Response)
    requires AllValid(ds)
  {
    && At(ds, world, c, j).Head?
    && (Redirected(ds, world, c, j, response) || RedirectedByRule(ds, world, c, j, response))
  }

  /** A redirect answered carries code and target of the Redirect directive, or of the rule, of one of the passes. */
  lemma RedirectOfRun(ds: Decisions, world: World, c: Course, n: nat)
    requires AllValid(ds)
    ensures var r := ResponseOf(At(ds, world, c, n));
            r.Redirects? ==> exists j: nat :: j < n && RedirectsAt(ds, world, c, j, r)
  {
    hide At, PassAt, Redirected, RedirectedByRule;
    var r := ResponseOf(At(ds, world, c, n));
    if r.Redirects? {
      RunEnds(ds, world, c, n, r);
      var j: nat :| j < n && EndsAt(ds, world, c, j, r);
      PassRedirects(ds, world, c, j, r);
      assert RedirectsAt(ds, world, c, j, r);
    }
  }
}
