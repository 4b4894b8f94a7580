/** What the walk guarantees about the directories it collects. */
module WalkLaws {
  import opened Bytes
  import opened Directives
  import opened CacheModel
  import opened Parser
  import opened ParserLaws
  import opened Chains
  import opened Rewrite
  import opened RewriteLaws
  import opened Walk

  // ----- order of the directories -----

  /** The root or a directory of `uri` whose slash comes before position `i`. */
  ghost predicate PrefixBefore(prefix: Text, uri: Text, i: nat) {
    prefix == [] || (|prefix| < i && |prefix| < |uri| && prefix == uri[..|prefix|] && uri[|prefix|] == SLASH)
  }

  ghost predicate RootFirst(dirs: seq<Dir>, uri: Text, i: nat) {
    && (forall k :: 0 <= k < |dirs| ==> PrefixBefore(dirs[k].urlPrefix, uri, i))
    && (forall j, k :: 0 <= j < k < |dirs| ==> |dirs[j].urlPrefix| < |dirs[k].urlPrefix|)
  }

  lemma {:induction false} DirAllKeepsPrefix(dir: Dir, ds: seq<Directive>)
    ensures DirAll(dir, ds).urlPrefix == dir.urlPrefix
    decreases |ds|
  {
    hide Marked;
    if ds == [] {
    } else {
      DirAllKeepsPrefix(dir, ds[..|ds| - 1]);
    }
  }

  lemma MergingLeavesDirs(m: Merged, d: Directive)
    ensures MergedWith(m, d).dirs == m.dirs
  {
    hide DeniesAll;
  }

  lemma {:induction false} MergedAllKeepsDirs(m: Merged, ds: seq<Directive>)
    ensures MergedAll(m, ds).dirs == m.dirs
    decreases |ds|
  {
    hide MergedWith;
    if ds == [] {
    } else {
      MergedAllKeepsDirs(m, ds[..|ds| - 1]);
      MergingLeavesDirs(MergedAll(m, ds[..|ds| - 1]), ds[|ds| - 1]);
    }
  }

  /** A visit adds at most one directory, with the prefix visited, and keeps the others. */
  lemma VisitAddsOne(m: Merged, prefix: Text, file: FileState)
    ensures var dirs := Visited(m, prefix, file).dirs;
            || dirs == m.dirs
            || (Direct(ViewOf(file)).Loaded?
                && dirs == m.dirs + [DirAll(FreshDir(prefix), Direct(ViewOf(file)).file.directives)]
                && dirs[|m.dirs|].urlPrefix == prefix)
  {
    hide MergedAll, DirAll, ParseText;
    if Direct(ViewOf(file)).Loaded? {
      var f := Direct(ViewOf(file)).file;
      MergedAllKeepsDirs(m, f.directives);
      DirAllKeepsPrefix(FreshDir(prefix), f.directives);
    }
  }

  lemma VisitKeepsOrder(m: Merged, uri: Text, i: nat, file: FileState)
    requires 1 <= i < |uri| && uri[i] == SLASH && RootFirst(m.dirs, uri, i)
    ensures RootFirst(Visited(m, uri[..i], file).dirs, uri, i + 1)
  {
    hide Visited, DirAll, ViewOf;
    VisitAddsOne(m, uri[..i], file);
  }

  lemma {:induction false} WalkFromKeepsOrder(world: World, tick: nat, conf: Conf, uri: Text, i: nat, m: Merged)
    requires i >= 1 && RootFirst(m.dirs, uri, i)
    ensures RootFirst(WalkFrom(world, tick, conf, uri, i, m).0.dirs, uri, if i < |uri| then |uri| else i)
    decreases |uri| - i
  {
    hide Visited, PathOf;
    if i >= |uri| {
    } else {
      if uri[i] == SLASH {
        var m' := Visited(m, uri[..i], world(tick, PathOf(conf, uri[1..i])));
        VisitKeepsOrder(m, uri, i, world(tick, PathOf(conf, uri[1..i])));
        WalkFromKeepsOrder(world, tick + 1, conf, uri, i + 1, m');
      } else {
        WalkFromKeepsOrder(world, tick, conf, uri, i + 1, m);
      }
    }
  }

  /**
   The merged directories come root first, with strictly increasing URL prefixes, each a
   directory on the way to the URI; in each of them prefix, slash and relative URI make up
   the URI, unless it is the root itself.
   */
  lemma WalkIsRootFirst(world: World, tick: nat, conf: Conf, uri: Text)
    requires uri != [] && uri[0] == SLASH
    ensures var dirs := WalkAll(world, tick, conf, uri).0.dirs;
            && (forall j, k :: 0 <= j < k < |dirs| ==> |dirs[j].urlPrefix| < |dirs[k].urlPrefix|)
            && (forall k :: 0 <= k < |dirs| ==>
                  && IsPrefixDirectory(dirs[k].urlPrefix, uri)
                  && (uri != [SLASH] ==>
                        dirs[k].urlPrefix + [SLASH] + RelativeUri(uri, dirs[k].urlPrefix) == uri))
  {
    hide Visited, PathOf, DirAll, ViewOf, RelativeUri;
    var m := Visited(NOTHING_MERGED, [], world(tick, PathOf(conf, [])));
    VisitAddsOne(NOTHING_MERGED, [], world(tick, PathOf(conf, [])));
    assert RootFirst(m.dirs, uri, 1);
    WalkFromKeepsOrder(world, tick + 1, conf, uri, 1, m);
    var dirs := WalkAll(world, tick, conf, uri).0.dirs;
    forall k | 0 <= k < |dirs|
      ensures IsPrefixDirectory(dirs[k].urlPrefix, uri)
      ensures uri != [SLASH] ==> dirs[k].urlPrefix + [SLASH] + RelativeUri(uri, dirs[k].urlPrefix) == uri
    {
      assert PrefixBefore(dirs[k].urlPrefix, uri, if 1 < |uri| then |uri| else 1);
      RelativeUriRebuilds(uri, dirs[k].urlPrefix);
    }
  }

  // ----- marks -----

  /** The rules and redirections of a file, in order. */
  function DirBodies(ds: seq<Directive>): seq<Body>
    decreases |ds|
  {
    if ds == [] then []
    else
      var init, last := DirBodies(ds[..|ds| - 1]), ds[|ds| - 1].body;
      if last.RewriteRule? || last.Redirection? then init + [last] else init
  }

  /** Marking again after every rule gives the same as marking all rules once at the end. */
  lemma {:induction false} DirectoryIsMarkedOnce(prefix: Text, ds: seq<Directive>)
    ensures DirAll(FreshDir(prefix), ds).directives == Marked(DirBodies(ds))
    decreases |ds|
  {
    hide Marked;
    if ds == [] {
      assert Marked([]) == [];
    } else {
      var init, last := ds[..|ds| - 1], ds[|ds| - 1].body;
      DirectoryIsMarkedOnce(prefix, init);
      if last.RewriteRule? {
        IncrementalMarking(DirBodies(init), last);
      } else if last.Redirection? {
        MarkingAppend(DirBodies(init), last);
      }
    }
  }

  lemma {:induction false} DirBodiesAreUnmarked(ds: seq<Directive>)
    requires NoneMarked(ds)
    ensures Unmarked(DirBodies(ds))
    decreases |ds|
  {
    if ds == [] {
    } else {
      DirBodiesAreUnmarked(ds[..|ds| - 1]);
      assert ds[|ds| - 1] in ds;
    }
  }

  ghost predicate AllWellMarked(dirs: seq<Dir>) {
    forall d :: d in dirs ==> WellMarked(d.directives)
  }

  /** In the directory built from any file that parses, `chain_in` marks exactly the rules the C flag leads into. */
  lemma ParsedDirectoryIsWellMarked(prefix: Text, text: Text)
    requires ParseText(text).Parsed?
    ensures WellMarked(DirAll(FreshDir(prefix), ParseText(text).file.directives).directives)
  {
    hide ParseFrom, DirAll, Marked, WellMarked, Unmarked, DirBodies;
    var ds := ParseText(text).file.directives;
    ParsedRulesAreUnmarked(text, 0, INITIAL_STATE);
    DirBodiesAreUnmarked(ds);
    MarkingIsExact(DirBodies(ds));
    DirectoryIsMarkedOnce(prefix, ds);
  }

  lemma VisitKeepsMarks(m: Merged, prefix: Text, file: FileState)
    requires AllWellMarked(m.dirs)
    ensures AllWellMarked(Visited(m, prefix, file).dirs)
  {
    hide Visited, DirAll, ParseText, WellMarked;
    VisitAddsOne(m, prefix, file);
    if Direct(ViewOf(file)).Loaded? {
      ParsedDirectoryIsWellMarked(prefix, file.read.text);
    }
  }

  lemma {:induction false} WalkFromKeepsMarks(world: World, tick: nat, conf: Conf, uri: Text, i: nat, m: Merged)
    requires i >= 1 && AllWellMarked(m.dirs)
    ensures AllWellMarked(WalkFrom(world, tick, conf, uri, i, m).0.dirs)
    decreases |uri| - i
  {
    hide Visited, PathOf, AllWellMarked;
    if i >= |uri| {
    } else {
      if uri[i] == SLASH {
        var file := world(tick, PathOf(conf, uri[1..i]));
        VisitKeepsMarks(m, uri[..i], file);
        WalkFromKeepsMarks(world, tick + 1, conf, uri, i + 1, Visited(m, uri[..i], file));
      } else {
        WalkFromKeepsMarks(world, tick, conf, uri, i + 1, m);
      }
    }
  }

  lemma WalkIsWellMarked(world: World, tick: nat, conf: Conf, uri: Text)
    ensures AllWellMarked(WalkAll(world, tick, conf, uri).0.dirs)
  {
    hide Visited, PathOf, WellMarked;
    VisitKeepsMarks(NOTHING_MERGED, [], world(tick, PathOf(conf, [])));
    WalkFromKeepsMarks(world, tick + 1, conf, uri, 1, Visited(NOTHING_MERGED, [], world(tick, PathOf(conf, []))));
  }

  /**
   On whatever the walk collects, from whatever files, the rule loop computes the
   declarative reading of the C flag.
   */
  lemma PassRunsChains(o: Oracle, site: Site, world: World, tick: nat, conf: Conf, uri: Text, m: Machine)
    requires o.Valid()
    ensures var dirs := WalkAll(world, tick, conf, uri).0.dirs;
            Erase(RunDirs(o, site, dirs, false, m)) == RunAllChains(o, site, dirs, m)
  {
    hide WalkAll, RunDirs, RunAllChains, WellMarked;
    WalkIsWellMarked(world, tick, conf, uri);
    FlagLoopRefinesChains(o, site, WalkAll(world, tick, conf, uri).0.dirs, false, m);
  }

  // ----- everything else that is merged -----

  function WithoutDirs(m: Merged): Merged {
    m.(dirs := [])
  }

  lemma MergingIgnoresDirs(m: Merged, d: Directive)
    ensures WithoutDirs(MergedWith(m, d)) == MergedWith(WithoutDirs(m), d)
  {
    hide DeniesAll;
    match d.body
    case Set(_, _) =>
    case Require(_) =>
    case Allow(_) =>
    case Deny(_) =>
    case SetHeader(_) =>
    case ExpiresActive(_) =>
    case ExpiresByType(_, _) =>
    case OnError(_) =>
    case Indexes(_) =>
    case _ =>
  }

  lemma {:induction false} MergedAllAppends(m: Merged, a: seq<Directive>, b: seq<Directive>)
    ensures WithoutDirs(MergedAll(m, a + b)) == MergedAll(WithoutDirs(MergedAll(m, a)), b)
    decreases |b|
  {
    hide MergedWith, WithoutDirs;
    if b == [] {
      assert a + b == a;
    } else {
      var init, last := b[..|b| - 1], b[|b| - 1];
      assert (a + b)[..|a + b| - 1] == a + init;
      MergedAllAppends(m, a, init);
      MergingIgnoresDirs(MergedAll(m, a + init), last);
    }
  }

  /** The directives of the file a load finds; none if it finds no file. */
  function DirectivesOf(file: FileState): seq<Directive> {
    match Direct(ViewOf(file))
    case Loaded(f) => f.directives
    case _ => []
  }

  /** The directives of all files found at the slashes of `uri` from `i` on, in walk order. */
  ghost function DirectivesFrom(world: World, tick: nat, conf: Conf, uri: Text, i: nat): seq<Directive>
    requires i >= 1
    decreases |uri| - i
  {
    if i >= |uri| then []
    else if uri[i] != SLASH then DirectivesFrom(world, tick, conf, uri, i + 1)
    else
      DirectivesOf(world(tick, PathOf(conf, uri[1..i]))) + DirectivesFrom(world, tick + 1, conf, uri, i + 1)
  }

  lemma VisitMerges(m: Merged, prefix: Text, file: FileState)
    ensures WithoutDirs(Visited(m, prefix, file)) == WithoutDirs(MergedAll(m, DirectivesOf(file)))
  {
    hide ParseText, DirAll;
  }

  lemma {:induction false} WalkFromMerges(world: World, tick: nat, conf: Conf, uri: Text, i: nat,
                                          m: Merged, before: seq<Directive>)
    requires i >= 1 && WithoutDirs(m) == MergedAll(NOTHING_MERGED, before)
    ensures WithoutDirs(WalkFrom(world, tick, conf, uri, i, m).0)
         == MergedAll(NOTHING_MERGED, before + DirectivesFrom(world, tick, conf, uri, i))
    decreases |uri| - i
  {
    hide Visited, PathOf, WithoutDirs, DirectivesOf, MergedAll;
    if i >= |uri| {
      assert before + [] == before;
    } else if uri[i] != SLASH {
      WalkFromMerges(world, tick, conf, uri, i + 1, m, before);
    } else {
      var file := world(tick, PathOf(conf, uri[1..i]));
      var here := DirectivesOf(file);
      MergeStep(m, before, uri[..i], file);
      WalkFromMerges(world, tick + 1, conf, uri, i + 1, Visited(m, uri[..i], file), before + here);
      var later := DirectivesFrom(world, tick + 1, conf, uri, i + 1);
      assert (before + here) + later == before + (here + later);
    }
  }

  lemma MergeStep(m: Merged, before: seq<Directive>, prefix: Text, file: FileState)
    requires WithoutDirs(m) == MergedAll(NOTHING_MERGED, before)
    ensures WithoutDirs(Visited(m, prefix, file)) == MergedAll(NOTHING_MERGED, before + DirectivesOf(file))
  {
    hide Visited, DirectivesOf, MergedAll;
    var here := DirectivesOf(file);
    VisitMerges(m, prefix, file);
    MergedAllAppends(m, [], here);
    MergedAllAppends(NOTHING_MERGED, before, here);
    MergedAllKeepsDirs(NOTHING_MERGED, before);
    MergedAllKeepsDirs(NOTHING_MERGED, before + here);
    assert [] + here == here;
    assert MergedAll(m, []) == m by {
      NothingToMerge(m);
    }
  }

  lemma NothingToMerge(m: Merged)
    ensures MergedAll(m, []) == m
  {
  }

  /**
   Apart from the per-directory rules, the merged context is that of one file holding the
   directives of all files found, root first: later settings override, lists append.
   */
  lemma WalkMergesInOrder(world: World, tick: nat, conf: Conf, uri: Text)
    ensures WithoutDirs(WalkAll(world, tick, conf, uri).0)
         == MergedAll(NOTHING_MERGED, DirectivesOf(world(tick, PathOf(conf, [])))
                                     + DirectivesFrom(world, tick + 1, conf, uri, 1))
  {
    hide Visited, PathOf, DirectivesOf, MergedAll;
    var file := world(tick, PathOf(conf, []));
    NothingToMerge(NOTHING_MERGED);
    MergeStep(NOTHING_MERGED, [], [], file);
    assert [] + DirectivesOf(file) == DirectivesOf(file);
    WalkFromMerges(world, tick + 1, conf, uri, 1, Visited(NOTHING_MERGED, [], file), DirectivesOf(file));
  }
}
