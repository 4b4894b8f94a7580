/**
 What merging leaves, told by the positions of the directives: of some kinds the last one
 counts, of the others all, in order.
 */
module MergeLaws {
  import opened Options
  import opened Bytes
  import opened Directives
  import opened CacheModel
  import opened Parser
  import opened Chains
  import opened VariableLaws
  import opened Walk
  import opened WalkLaws

  // ----- the last directive of a kind -----

  /** The kinds of directives of which the last one counts. */
  datatype Kind = Engine | Base | Value(setting: Setting) | Expires

  predicate Of(body: Body, kind: Kind) {
    match kind
    case Engine => body.RewriteEngine?
    case Base => body.RewriteBase?
    case Value(setting) => body.Set? && body.setting == setting
    case Expires => body.ExpiresActive?
  }

  /** The directive at `k` is the last of its kind. */
  predicate IsLast(ds: seq<Directive>, kind: Kind, k: nat) {
    k < |ds| && Of(ds[k].body, kind) && forall j :: k < j < |ds| ==> !Of(ds[j].body, kind)
  }

  predicate HasNone(ds: seq<Directive>, kind: Kind) {
    forall j :: 0 <= j < |ds| ==> !Of(ds[j].body, kind)
  }

  lemma LastOfInit(ds: seq<Directive>, kind: Kind, k: nat)
    requires ds != []
    ensures IsLast(ds, kind, k) ==>
              if k == |ds| - 1 then Of(ds[k].body, kind)
              else k < |ds| && IsLast(ds[..|ds| - 1], kind, k) && !Of(ds[|ds| - 1].body, kind)
    ensures HasNone(ds, kind) ==> HasNone(ds[..|ds| - 1], kind) && !Of(ds[|ds| - 1].body, kind)
  {
  }

  lemma NoLast(kind: Kind, k: nat)
    ensures !IsLast([], kind, k)
  {
  }

  // ----- directories -----

  /** The directory of a file has the engine its last RewriteEngine says, and has it off without one. */
  lemma {:induction false} EngineIsLast(prefix: Text, ds: seq<Directive>, k: nat)
    ensures IsLast(ds, Engine, k) ==> k < |ds| && ds[k].body.RewriteEngine?
                                      && DirAll(FreshDir(prefix), ds).rewriteEngine == ds[k].body.on
    ensures HasNone(ds, Engine) ==> !DirAll(FreshDir(prefix), ds).rewriteEngine
    decreases |ds|
  {
    hide Marked, IsLast, HasNone;
    if ds == [] {
      NoLast(Engine, k);
    } else {
      LastOfInit(ds, Engine, k);
      EngineIsLast(prefix, ds[..|ds| - 1], k);
    }
  }

  /** Its base is that of the last RewriteBase, and `/` without one. */
  lemma {:induction false} BaseIsLast(prefix: Text, ds: seq<Directive>, k: nat)
    ensures IsLast(ds, Base, k) ==> k < |ds| && ds[k].body.RewriteBase?
                                    && DirAll(FreshDir(prefix), ds).rewriteBase == ds[k].body.base
    ensures HasNone(ds, Base) ==> DirAll(FreshDir(prefix), ds).rewriteBase == [SLASH]
    decreases |ds|
  {
    hide Marked, IsLast, HasNone;
    if ds == [] {
      NoLast(Base, k);
    } else {
      LastOfInit(ds, Base, k);
      BaseIsLast(prefix, ds[..|ds| - 1], k);
    }
  }

  function TriedOf(d: Directive): seq<Body> {
    if d.body.RewriteRule? || d.body.Redirection? then [d.body] else []
  }

  /** The rules and redirections among some directives. */
  function Tried(ds: seq<Directive>): seq<Body> {
    if ds == [] then [] else TriedOf(ds[0]) + Tried(ds[1..])
  }

  lemma {:induction false} TriedSnoc(init: seq<Directive>, last: Directive)
    ensures Tried(init + [last]) == Tried(init) + TriedOf(last)
    decreases |init|
  {
    hide TriedOf;
    var ds := init + [last];
    if init == [] {
      assert ds[1..] == [] && Tried(ds[1..]) == [];
    } else {
      assert ds[1..] == init[1..] + [last];
      TriedSnoc(init[1..], last);
    }
  }

  lemma {:induction false} DirBodiesAreTried(ds: seq<Directive>)
    ensures DirBodies(ds) == Tried(ds)
    decreases |ds|
  {
    hide Tried;
    if ds == [] {
      NothingTried();
    } else {
      DirBodiesAreTried(ds[..|ds| - 1]);
      TriedSnoc(ds[..|ds| - 1], ds[|ds| - 1]);
      assert ds == ds[..|ds| - 1] + [ds[|ds| - 1]];
    }
  }

  lemma NothingTried()
    ensures Tried([]) == []
  {
  }

  /** `dir` is what the directives `ds` of the file in the directory `prefix` say. */
  ghost predicate IsDirectoryOf(dir: Dir, prefix: Text, ds: seq<Directive>) {
    && dir.urlPrefix == prefix
    && (forall k: nat :: IsLast(ds, Engine, k) ==>
          k < |ds| && ds[k].body.RewriteEngine? && dir.rewriteEngine == ds[k].body.on)
    && (HasNone(ds, Engine) ==> !dir.rewriteEngine)
    && (forall k: nat :: IsLast(ds, Base, k) ==>
          k < |ds| && ds[k].body.RewriteBase? && dir.rewriteBase == ds[k].body.base)
    && (HasNone(ds, Base) ==> dir.rewriteBase == [SLASH])
    && dir.directives == Marked(Tried(ds))
  }

  /** One file: engine and base are the last ones, all rules and redirections are kept in order and marked. */
  lemma DirectoryOfFile(prefix: Text, ds: seq<Directive>)
    ensures IsDirectoryOf(DirAll(FreshDir(prefix), ds), prefix, ds)
  {
    hide IsLast, HasNone, DirAll, Marked, Tried, DirBodies;
    DirAllKeepsPrefix(FreshDir(prefix), ds);
    DirectoryIsMarkedOnce(prefix, ds);
    DirBodiesAreTried(ds);
    EngineIsLast(prefix, ds, 0);
    BaseIsLast(prefix, ds, 0);
    forall k: nat | IsLast(ds, Engine, k)
      ensures k < |ds| && ds[k].body.RewriteEngine? && DirAll(FreshDir(prefix), ds).rewriteEngine == ds[k].body.on
    {
      EngineIsLast(prefix, ds, k);
    }
    forall k: nat | IsLast(ds, Base, k)
      ensures k < |ds| && ds[k].body.RewriteBase? && DirAll(FreshDir(prefix), ds).rewriteBase == ds[k].body.base
    {
      BaseIsLast(prefix, ds, k);
    }
  }

  // ----- all directories of a walk -----

  /** A file that a walk finds: the URL of its directory and its directives. */
  datatype Found = Found(prefix: Text, directives: seq<Directive>)

  ghost function FoundAt(prefix: Text, file: FileState): seq<Found> {
    match Direct(ViewOf(file))
    case Loaded(f) => [Found(prefix, f.directives)]
    case _ => []
  }

  /** The files found at the slashes of `uri` from `i` on. */
  ghost function FoundFrom(world: World, tick: nat, conf: Conf, uri: Text, i: nat): seq<Found>
    requires i >= 1
    decreases |uri| - i
  {
    if i >= |uri| then []
    else if uri[i] != SLASH then FoundFrom(world, tick, conf, uri, i + 1)
    else
      FoundAt(uri[..i], world(tick, PathOf(conf, uri[1..i]))) + FoundFrom(world, tick + 1, conf, uri, i + 1)
  }

  /** All files a walk finds, the root's first. */
  ghost function FilesOf(world: World, tick: nat, conf: Conf, uri: Text): seq<Found> {
    FoundAt([], world(tick, PathOf(conf, []))) + FoundFrom(world, tick + 1, conf, uri, 1)
  }

  /** One directory for each file, in order. */
  ghost predicate AreDirectoriesOf(dirs: seq<Dir>, files: seq<Found>) {
    |dirs| == |files| && forall k :: 0 <= k < |files| ==> IsDirectoryOf(dirs[k], files[k].prefix, files[k].directives)
  }

  lemma VisitAddsDirectory(m: Merged, prefix: Text, file: FileState, before: seq<Found>)
    requires AreDirectoriesOf(m.dirs, before)
    ensures AreDirectoriesOf(Visited(m, prefix, file).dirs, before + FoundAt(prefix, file))
  {
    hide IsDirectoryOf, DirAll, MergedAll, ViewOf;
    match Direct(ViewOf(file))
    case Loaded(f) =>
      MergedAllKeepsDirs(m, f.directives);
      DirectoryOfFile(prefix, f.directives);
    case _ =>
  }

  lemma {:induction false} WalkFromAddsDirectories(world: World, tick: nat, conf: Conf, uri: Text, i: nat,
                                                   m: Merged, before: seq<Found>)
    requires i >= 1 && AreDirectoriesOf(m.dirs, before)
    ensures AreDirectoriesOf(WalkFrom(world, tick, conf, uri, i, m).0.dirs,
                             before + FoundFrom(world, tick, conf, uri, i))
    decreases |uri| - i
  {
    hide Visited, PathOf, FoundAt, AreDirectoriesOf;
    if i >= |uri| {
      assert before + [] == before;
    } else if uri[i] != SLASH {
      WalkFromAddsDirectories(world, tick, conf, uri, i + 1, m, before);
    } else {
      var file := world(tick, PathOf(conf, uri[1..i]));
      var here := FoundAt(uri[..i], file);
      VisitAddsDirectory(m, uri[..i], file, before);
      WalkFromAddsDirectories(world, tick + 1, conf, uri, i + 1, Visited(m, uri[..i], file), before + here);
      var later := FoundFrom(world, tick + 1, conf, uri, i + 1);
      assert before + here + later == before + (here + later);
    }
  }

  /** A walk collects one directory for each file it finds, each saying what its file says. */
  lemma WalkCollectsDirectories(world: World, tick: nat, conf: Conf, uri: Text)
    ensures AreDirectoriesOf(WalkAll(world, tick, conf, uri).0.dirs, FilesOf(world, tick, conf, uri))
  {
    hide Visited, PathOf, FoundAt, FoundFrom, WalkFrom, IsDirectoryOf;
    var file := world(tick, PathOf(conf, []));
    VisitAddsDirectory(NOTHING_MERGED, [], file, []);
    assert [] + FoundAt([], file) == FoundAt([], file);
    WalkFromAddsDirectories(world, tick + 1, conf, uri, 1, Visited(NOTHING_MERGED, [], file), FoundAt([], file));
  }

  // ----- what directories share -----

  /** What each directive adds to the lists. */
  function RequirementOf(d: Directive): seq<Text> {
    if d.body.Require? && d.filesMatch == [] then [d.body.requirement] else []
  }

  function FilesRuleOf(d: Directive): seq<FilesRule> {
    if d.body.Require? && d.filesMatch != [] then
      [FilesRule(d.filesMatch, Begins(d.body.requirement, Ascii("all denied")))]
    else
      []
  }

  function AllowOf(d: Directive): seq<Text> {
    if d.body.Allow? then [d.body.allowed] else []
  }

  function DenyOf(d: Directive): seq<Text> {
    if d.body.Deny? then [d.body.denied] else []
  }

  function HeaderSetBy(d: Directive): seq<Header> {
    if d.body.SetHeader? then [d.body.header] else []
  }

  function ExpiryOf(d: Directive): seq<(Text, Text)> {
    if d.body.ExpiresByType? then [(d.body.mime, d.body.expiry)] else []
  }

  function DocumentOf(d: Directive): seq<ErrorDocument> {
    if d.body.OnError? then [d.body.document] else []
  }

  /** What all of some directives add, in order. */
  function AllOf<T>(ds: seq<Directive>, added: Directive -> seq<T>): seq<T> {
    if ds == [] then [] else added(ds[0]) + AllOf(ds[1..], added)
  }

  lemma {:induction false} AllOfSnoc<T>(ds: seq<Directive>, added: Directive -> seq<T>)
    requires ds != []
    ensures AllOf(ds, added) == AllOf(ds[..|ds| - 1], added) + added(ds[|ds| - 1])
    decreases |ds|
  {
    if |ds| == 1 {
      assert ds[..0] == [] && AllOf(ds[1..], added) == [];
    } else {
      var init := ds[..|ds| - 1];
      AllOfSnoc(ds[1..], added);
      assert ds[1..][..|ds| - 2] == init[1..];
    }
  }

  /** The lists of `m` are those of `before` and what `d` adds. */
  predicate Extends(m: Merged, before: Merged, d: Directive) {
    && m.requirements == before.requirements + RequirementOf(d)
    && m.filesRules == before.filesRules + FilesRuleOf(d)
    && m.allows == before.allows + AllowOf(d)
    && m.denies == before.denies + DenyOf(d)
    && m.headers == before.headers + HeaderSetBy(d)
    && m.expiresByType == before.expiresByType + ExpiryOf(d)
    && m.errorDocuments == before.errorDocuments + DocumentOf(d)
  }

  lemma OneDirectiveExtends(m: Merged, d: Directive)
    ensures Extends(MergedWith(m, d), m, d)
  {
    hide MergedWith, RequirementOf, FilesRuleOf, AllowOf, DenyOf, HeaderSetBy, ExpiryOf, DocumentOf;
    RequireExtends(m, d);
    AccessExtends(m, d);
    HeadersExtend(m, d);
  }

  lemma RequireExtends(m: Merged, d: Directive)
    ensures MergedWith(m, d).requirements == m.requirements + RequirementOf(d)
    ensures MergedWith(m, d).filesRules == m.filesRules + FilesRuleOf(d)
  {
    hide DeniesAll, Begins;
    if d.body.Require? {
      DeniesAllBegins(d.body.requirement);
    }
  }

  lemma AccessExtends(m: Merged, d: Directive)
    ensures MergedWith(m, d).allows == m.allows + AllowOf(d)
    ensures MergedWith(m, d).denies == m.denies + DenyOf(d)
    ensures MergedWith(m, d).errorDocuments == m.errorDocuments + DocumentOf(d)
  {
    hide DeniesAll;
  }

  lemma HeadersExtend(m: Merged, d: Directive)
    ensures MergedWith(m, d).headers == m.headers + HeaderSetBy(d)
    ensures MergedWith(m, d).expiresByType == m.expiresByType + ExpiryOf(d)
  {
    hide DeniesAll;
  }

  lemma DeniesAllBegins(requirement: Text)
    ensures DeniesAll(requirement) <==> Begins(requirement, Ascii("all denied"))
  {
    hide Begins, StartsWithNoCase;
    BeginsIsStarts(requirement, Ascii("all denied"));
  }

  /** The lists hold what exactly the directives of their kind say, in order. */
  ghost predicate ListsAll(m: Merged, ds: seq<Directive>) {
    && m.requirements == AllOf(ds, RequirementOf)
    && m.filesRules == AllOf(ds, FilesRuleOf)
    && m.allows == AllOf(ds, AllowOf)
    && m.denies == AllOf(ds, DenyOf)
    && m.headers == AllOf(ds, HeaderSetBy)
    && m.expiresByType == AllOf(ds, ExpiryOf)
    && m.errorDocuments == AllOf(ds, DocumentOf)
  }

  lemma {:induction false} MergingListsAll(ds: seq<Directive>)
    ensures ListsAll(MergedAll(NOTHING_MERGED, ds), ds)
    decreases |ds|
  {
    hide MergedWith, RequirementOf, FilesRuleOf, AllowOf, DenyOf, HeaderSetBy, ExpiryOf, DocumentOf;
    if ds == [] {
    } else {
      MergingListsAll(ds[..|ds| - 1]);
      OneDirectiveExtends(MergedAll(NOTHING_MERGED, ds[..|ds| - 1]), ds[|ds| - 1]);
      AllOfSnoc(ds, RequirementOf);
      AllOfSnoc(ds, FilesRuleOf);
      AllOfSnoc(ds, AllowOf);
      AllOfSnoc(ds, DenyOf);
      AllOfSnoc(ds, HeaderSetBy);
      AllOfSnoc(ds, ExpiryOf);
      AllOfSnoc(ds, DocumentOf);
    }
  }

  /** Each setting is that of the last directive of its kind, and absent without one; so is the expiry switch. */
  ghost predicate SettlesAll(m: Merged, ds: seq<Directive>) {
    && (forall setting, k: nat :: IsLast(ds, Value(setting), k) ==>
          k < |ds| && ds[k].body.Set? && setting in m.settings && m.settings[setting] == ds[k].body.value)
    && (forall setting :: HasNone(ds, Value(setting)) ==> setting !in m.settings)
    && (forall k: nat :: IsLast(ds, Expires, k) ==>
          k < |ds| && ds[k].body.ExpiresActive? && m.expiresActive == ds[k].body.active)
    && (HasNone(ds, Expires) ==> !m.expiresActive)
    && (m.noIndexes <==> exists k :: 0 <= k < |ds| && ds[k].body == Indexes(true))
  }

  lemma OneDirectiveSettles(m: Merged, d: Directive)
    ensures MergedWith(m, d).settings == if d.body.Set? then m.settings[d.body.setting := d.body.value] else m.settings
  {
    hide DeniesAll;
  }

  lemma OneDirectiveSwitches(m: Merged, d: Directive)
    ensures MergedWith(m, d).expiresActive == if d.body.ExpiresActive? then d.body.active else m.expiresActive
    ensures MergedWith(m, d).noIndexes == (m.noIndexes || d.body == Indexes(true))
  {
    hide DeniesAll;
  }

  lemma SettlesOneMore(before: Merged, m: Merged, ds: seq<Directive>)
    requires ds != [] && SettlesAll(before, ds[..|ds| - 1])
    requires var d := ds[|ds| - 1];
             && m.settings == (if d.body.Set? then before.settings[d.body.setting := d.body.value] else before.settings)
             && m.expiresActive == (if d.body.ExpiresActive? then d.body.active else before.expiresActive)
             && m.noIndexes == (before.noIndexes || d.body == Indexes(true))
    ensures SettlesAll(m, ds)
  {
    hide IsLast, HasNone;
    var init, d := ds[..|ds| - 1], ds[|ds| - 1];
    forall setting, k: nat | IsLast(ds, Value(setting), k)
      ensures k < |ds| && ds[k].body.Set? && setting in m.settings && m.settings[setting] == ds[k].body.value
    {
      LastOfInit(ds, Value(setting), k);
    }
    forall setting | HasNone(ds, Value(setting)) ensures setting !in m.settings {
      LastOfInit(ds, Value(setting), 0);
    }
    forall k: nat | IsLast(ds, Expires, k)
      ensures k < |ds| && ds[k].body.ExpiresActive? && m.expiresActive == ds[k].body.active
    {
      LastOfInit(ds, Expires, k);
    }
    LastOfInit(ds, Expires, 0);
    if k :| 0 <= k < |ds| && ds[k].body == Indexes(true) {
      assert k < |init| ==> init[k] == ds[k];
    }
    if j :| 0 <= j < |init| && init[j].body == Indexes(true) {
      assert ds[j] == init[j];
    }
  }

  lemma {:induction false} MergingSettlesAll(ds: seq<Directive>)
    ensures SettlesAll(MergedAll(NOTHING_MERGED, ds), ds)
    decreases |ds|
  {
    hide MergedWith, SettlesAll;
    if ds == [] {
      NothingSettled();
    } else {
      var before := MergedAll(NOTHING_MERGED, ds[..|ds| - 1]);
      MergingSettlesAll(ds[..|ds| - 1]);
      OneDirectiveSettles(before, ds[|ds| - 1]);
      OneDirectiveSwitches(before, ds[|ds| - 1]);
      SettlesOneMore(before, MergedAll(NOTHING_MERGED, ds), ds);
    }
  }

  lemma NothingSettled()
    ensures SettlesAll(NOTHING_MERGED, [])
  {
  }

  /** The directives of all files a walk finds, in walk order. */
  ghost function DirectivesMet(world: World, tick: nat, conf: Conf, uri: Text): seq<Directive> {
    DirectivesOf(world(tick, PathOf(conf, []))) + DirectivesFrom(world, tick + 1, conf, uri, 1)
  }

  /** On every walk the shared lists hold what all directives met say, in order, and the settings what the last say. */
  lemma WalkMergesEverything(world: World, tick: nat, conf: Conf, uri: Text)
    ensures var m, ds := WalkAll(world, tick, conf, uri).0, DirectivesMet(world, tick, conf, uri);
            ListsAll(m, ds) && SettlesAll(m, ds)
  {
    hide WalkAll, MergedAll, DirectivesMet, IsLast, HasNone, AllOf;
    WalkMergesInOrder(world, tick, conf, uri);
    MetInOrder(world, tick, conf, uri);
    var ds := DirectivesMet(world, tick, conf, uri);
    MergingListsAll(ds);
    MergingSettlesAll(ds);
  }

  lemma MetInOrder(world: World, tick: nat, conf: Conf, uri: Text)
    ensures DirectivesMet(world, tick, conf, uri)
         == DirectivesOf(world(tick, PathOf(conf, []))) + DirectivesFrom(world, tick + 1, conf, uri, 1)
  {
  }

  // ----- which file a load reads, and what is kept of it -----

  /** The file of the directory at the slash `i` of a URI: root, the URI up to there, a slash and the file name. */
  lemma PathOfDirectory(conf: Conf, uri: Text, i: nat)
    requires NUL !in conf.root && NUL !in uri && NUL !in conf.filename
    requires conf.root != [] && conf.root[|conf.root| - 1] != SLASH
    requires 1 < i < |uri| && uri[0] == SLASH && uri[i] == SLASH && uri[i - 1] != SLASH
    ensures PathOf(conf, uri[1..i]) == conf.root + uri[..i] + [SLASH] + conf.filename
  {
    var path := conf.root + uri[..i] + [SLASH] + conf.filename;
    assert Slashed(conf.root) + Slashed(uri[1..i]) + conf.filename == path;
    WithoutNul(path);
  }

  /** The root's file: root, one slash and the file name. */
  lemma PathOfRoot(conf: Conf)
    requires NUL !in conf.root && NUL !in conf.filename
    ensures PathOf(conf, []) == if conf.root != [] && conf.root[|conf.root| - 1] == SLASH then conf.root + conf.filename
                                else conf.root + [SLASH] + conf.filename
  {
    var path := Slashed(conf.root) + conf.filename;
    assert Slashed(conf.root) + [] + conf.filename == path;
    WithoutNul(path);
  }

  lemma WithoutNul(path: Text)
    requires NUL !in path
    ensures CString(path) == path
  {
    assert IndexFrom(path, 0, NUL) == |path|;
  }

  /**
   What a load of an unknown path keeps: that there is no file, or none that opens; nothing of one
   that cannot be read or parsed; the directives of any other.
   */
  lemma WhatIsKept(c: seq<Entry>, max: nat, now: nat, path: Text, file: FileState)
    requires 1 <= max && PathIndex(c, path) == |c|
    ensures var r := CachedLoad(c, max, now, Load(path, ViewOf(file)));
            && (file.stat.NoFile? ==> r.outcome == Declined && r.stored == Some(Entry(path, 0, 0, None, now)))
            && (file.stat.Info? && file.read.CannotOpen? ==>
                  r.outcome == Declined && r.stored == Some(Entry(path, file.stat.mtime, file.stat.size, None, now)))
            && (file.stat.Info? && file.read.CannotRead? ==> r.outcome == Failed && r.stored == None)
            && (file.stat.Info? && file.read.Contents? ==>
                  var p := ParseText(file.read.text);
                  if p.Parsed? then
                    && r.outcome == Loaded(p.file)
                    && r.stored == Some(Entry(path, file.stat.mtime, file.stat.size, Some(p.file), now))
                  else
                    r.outcome == Failed && r.stored == None)
  {
    hide ParseText, PathIndex;
  }
}
