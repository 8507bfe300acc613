/**
 * What `find_consumers` guarantees, stated over the funnel specification that
 * `Consumers.FindConsumers` is proved to compute.
 */
module ConsumerProperties {
  import opened Text
  import opened Wrappers
  import opened Paths
  import opened Workspace
  import opened Consumers

  // ---------------------------------------------------------------------------
  // Each stage on its own

  /** A file is kept exactly when it was among the files and passes the test. */
  lemma {:induction false} MatchingFilesMembers(env: Env, t: Test, files: seq<Path>, f: Path)
    ensures f in MatchingFiles(env, t, files) <==> f in files && FileMatches(env, t, f)
  {
    if files != [] {
      var init := files[..|files| - 1];
      MatchingFilesMembers(env, t, init, f);
      assert files == init + [files[|files| - 1]];
    }
  }

  /**
   * A consumer survives a stage exactly when some of its files pass, and it then
   * carries exactly those files.
   */
  lemma NarrowMembers(env: Env, t: Test, stage: seq<Consumer>, c: Consumer)
    ensures c in Narrow(env, t, stage) <==>
      exists d :: d in stage && MatchingFiles(env, t, d.files) != [] && c == d.(files := MatchingFiles(env, t, d.files))
  {
    if c in Narrow(env, t, stage) {
      NarrowKeepsOnlyMatching(env, t, stage, c);
    }
    if exists d :: d in stage && MatchingFiles(env, t, d.files) != [] && c == d.(files := MatchingFiles(env, t, d.files)) {
      var d :| d in stage && MatchingFiles(env, t, d.files) != [] && c == d.(files := MatchingFiles(env, t, d.files));
      NarrowKeepsMatching(env, t, stage, d);
    }
  }

  /** Everything a stage reports is a consumer of the stage before, with its passing files. */
  lemma {:induction false} NarrowKeepsOnlyMatching(env: Env, t: Test, stage: seq<Consumer>, c: Consumer)
    requires c in Narrow(env, t, stage)
    ensures exists d :: d in stage && MatchingFiles(env, t, d.files) != [] && c == d.(files := MatchingFiles(env, t, d.files))
    decreases |stage|
  {
    var init, last := stage[..|stage| - 1], stage[|stage| - 1];
    var kept := MatchingFiles(env, t, last.files);
    assert Narrow(env, t, stage) == Narrow(env, t, init) + (if kept != [] then [last.(files := kept)] else []);
    if c in Narrow(env, t, init) {
      NarrowKeepsOnlyMatching(env, t, init, c);
      var d :| d in init && MatchingFiles(env, t, d.files) != [] && c == d.(files := MatchingFiles(env, t, d.files));
      assert d in stage;
    } else {
      assert last in stage;
    }
  }

  /** A consumer with at least one passing file is reported, with exactly its passing files. */
  lemma {:induction false} NarrowKeepsMatching(env: Env, t: Test, stage: seq<Consumer>, d: Consumer)
    requires d in stage && MatchingFiles(env, t, d.files) != []
    ensures d.(files := MatchingFiles(env, t, d.files)) in Narrow(env, t, stage)
    decreases |stage|
  {
    var init, last := stage[..|stage| - 1], stage[|stage| - 1];
    var kept := MatchingFiles(env, t, last.files);
    assert Narrow(env, t, stage) == Narrow(env, t, init) + (if kept != [] then [last.(files := kept)] else []);
    if d != last {
      assert stage == init + [last];
      assert d in init;
      NarrowKeepsMatching(env, t, init, d);
    }
  }

  lemma WithListingsMembers(env: Env, stage: seq<Consumer>, c: Consumer)
    ensures c in WithListings(env, stage) <==>
      exists d :: d in stage && c == d.(files := Listing(env, Parent(d.path)))
  {
    WithListingsPointwise(env, stage);
    if c in WithListings(env, stage) {
      var i :| 0 <= i < |stage| && WithListings(env, stage)[i] == c;
      assert stage[i] in stage;
    }
    if exists d :: d in stage && c == d.(files := Listing(env, Parent(d.path))) {
      var d :| d in stage && c == d.(files := Listing(env, Parent(d.path)));
      var i :| 0 <= i < |stage| && stage[i] == d;
      assert WithListings(env, stage)[i] == c;
    }
  }

  lemma {:induction false} WithListingsPointwise(env: Env, stage: seq<Consumer>)
    ensures forall i :: 0 <= i < |stage| ==>
      WithListings(env, stage)[i] == stage[i].(files := Listing(env, Parent(stage[i].path)))
  {
    if stage != [] {
      WithListingsPointwise(env, stage[..|stage| - 1]);
    }
  }

  /** Step 1: the candidates are the resolved paths of the projects found, minus the target. */
  lemma {:induction false} CandidatesMembers(env: Env, found: seq<Path>, target: Path, q: Path)
    ensures q in Candidates(env, found, target) <==>
      q != target && exists i :: 0 <= i < |found| && env.canon(found[i]) == q
  {
    if found != [] {
      var init := found[..|found| - 1];
      CandidatesMembers(env, init, target, q);
      if exists i :: 0 <= i < |found| && env.canon(found[i]) == q {
        var i :| 0 <= i < |found| && env.canon(found[i]) == q;
        if i < |init| {
          assert init[i] == found[i];
        }
      }
      if exists i :: 0 <= i < |init| && env.canon(init[i]) == q {
        var i :| 0 <= i < |init| && env.canon(init[i]) == q;
        assert found[i] == init[i];
      }
    }
  }

  /** Step 2: a candidate is recorded exactly when it refers to the target, and at most once. */
  lemma {:induction false} DirectPathsMembers(env: Env, candidates: seq<Path>, target: Path)
    ensures forall c :: c in DirectPaths(env, candidates, target) <==> c in candidates && RefersTo(env, c, target)
    ensures NoRepeats(DirectPaths(env, candidates, target))
  {
    if candidates != [] {
      var init := candidates[..|candidates| - 1];
      DirectPathsMembers(env, init, target);
      assert candidates == init + [candidates[|candidates| - 1]];
    }
  }

  // ---------------------------------------------------------------------------
  // Where results come from

  /** `c` has the path and name of some consumer of `stage`. */
  ghost predicate DescendsFrom(c: Consumer, stage: seq<Consumer>) {
    exists d :: d in stage && d.path == c.path && d.name == c.name
  }

  lemma NarrowDescends(env: Env, t: Test, stage: seq<Consumer>, c: Consumer)
    requires c in Narrow(env, t, stage)
    ensures DescendsFrom(c, stage)
  {
    NarrowMembers(env, t, stage, c);
  }

  /** Every reported consumer was recorded by step 2. */
  lemma FunnelDescendsFromDirect(env: Env, target: Path, found: Option<seq<Path>>, ns: string,
                                 className: Option<string>, methodName: Option<string>, r: Consumer)
    requires r in Funnel(env, target, found, ns, className, methodName)
    ensures found.Some? && DescendsFrom(r, DirectConsumers(env, found.value, target))
  {
    var direct := DirectConsumers(env, found.value, target);
    FunnelAfterNamespace(env, target, found.value, ns, className, methodName);
    var byNamespace := ByNamespace(env, ns, direct);
    AfterNamespaceDescends(env, direct, byNamespace, className, methodName, r);
    if r in direct {
      assert DescendsFrom(r, direct);
    } else {
      ByNamespaceDescends(env, ns, direct, r);
    }
  }

  /** A consumer the exit rules report is a direct one, or descends from a namespace consumer. */
  lemma AfterNamespaceDescends(env: Env, direct: seq<Consumer>, byNamespace: seq<Consumer>,
                               className: Option<string>, methodName: Option<string>, r: Consumer)
    requires r in AfterNamespace(env, direct, byNamespace, className, methodName)
    ensures r in direct || DescendsFrom(r, byNamespace)
  {
    if byNamespace != [] && Given(className) {
      var byType := Narrow(env, Mentions(className.value), byNamespace);
      if Given(methodName) {
        NarrowDescends(env, Calls(methodName.value), byType, r);
        var d :| d in byType && d.path == r.path && d.name == r.name;
        NarrowDescends(env, Mentions(className.value), byNamespace, d);
      } else {
        NarrowDescends(env, Mentions(className.value), byNamespace, r);
      }
    } else if byNamespace != [] {
      assert r in byNamespace;
    }
  }

  /** A consumer descending from step 3's result descends from a direct consumer. */
  lemma ByNamespaceDescends(env: Env, ns: string, direct: seq<Consumer>, r: Consumer)
    requires DescendsFrom(r, ByNamespace(env, ns, direct))
    ensures DescendsFrom(r, direct)
  {
    if !Unreliable(ns) {
      var d :| d in ByNamespace(env, ns, direct) && d.path == r.path && d.name == r.name;
      NarrowDescends(env, Imports(ns), WithListings(env, direct), d);
      var e :| e in WithListings(env, direct) && e.path == d.path && e.name == d.name;
      WithListingsMembers(env, direct, e);
    }
  }

  /**
   * A reported consumer is the resolved path of a project found in scope, never the
   * target itself; its manifest refers to the target; it is named by its file stem.
   */
  lemma ResultsReferToTarget(env: Env, target: Path, found: Option<seq<Path>>, ns: string,
                             className: Option<string>, methodName: Option<string>, r: Consumer)
    requires r in Funnel(env, target, found, ns, className, methodName)
    ensures found.Some?
    ensures r.path != target
    ensures RefersTo(env, r.path, target)
    ensures exists i :: 0 <= i < |found.value| && env.canon(found.value[i]) == r.path
    ensures r.name == Stem(Name(r.path))
  {
    FunnelDescendsFromDirect(env, target, found, ns, className, methodName, r);
    DirectConsumerFacts(env, found.value, target, r);
  }

  lemma DirectConsumerFacts(env: Env, found: seq<Path>, target: Path, r: Consumer)
    requires DescendsFrom(r, DirectConsumers(env, found, target))
    ensures r.path != target
    ensures RefersTo(env, r.path, target)
    ensures exists i :: 0 <= i < |found| && env.canon(found[i]) == r.path
    ensures r.name == Stem(Name(r.path))
  {
    var candidates := Candidates(env, found, target);
    var paths := DirectPaths(env, candidates, target);
    var d :| d in Unscanned(paths) && d.path == r.path && d.name == r.name;
    var i :| 0 <= i < |paths| && Unscanned(paths)[i] == d;
    DirectPathsMembers(env, candidates, target);
    assert paths[i] == r.path;
    CandidatesMembers(env, found, target, r.path);
  }

  // ---------------------------------------------------------------------------
  // The unreliable-namespace exits

  lemma {:induction false} NarrowOfUnscanned(env: Env, t: Test, paths: seq<Path>)
    ensures Narrow(env, t, Unscanned(paths)) == []
  {
    if paths != [] {
      var init := paths[..|paths| - 1];
      NarrowOfUnscanned(env, t, init);
      assert Unscanned(paths)[..|paths| - 1] == Unscanned(init);
    }
  }

  /**
   * With an unreliable namespace the direct consumers pass step 3 with no files, so
   * the type stage finds nothing: any search for a type returns no consumers.
   */
  lemma UnreliableNamespaceWithTypeFindsNothing(env: Env, target: Path, found: Option<seq<Path>>, ns: string,
                                                className: Option<string>, methodName: Option<string>)
    requires Unreliable(ns) && Given(className)
    ensures Funnel(env, target, found, ns, className, methodName) == []
  {
    if found.Some? {
      var paths := DirectPaths(env, Candidates(env, found.value, target), target);
      NarrowOfUnscanned(env, Mentions(className.value), paths);
    }
  }

  /** With an unreliable namespace and no type, the result is every direct consumer, with no files. */
  lemma UnreliableNamespaceWithoutTypeListsDirect(env: Env, target: Path, found: Option<seq<Path>>, ns: string,
                                                  className: Option<string>, methodName: Option<string>)
    requires Unreliable(ns) && !Given(className) && found.Some?
    ensures Funnel(env, target, found, ns, className, methodName) == DirectConsumers(env, found.value, target)
    ensures forall r :: r in Funnel(env, target, found, ns, className, methodName) ==> r.files == []
  {
  }

  // ---------------------------------------------------------------------------
  // The files reported with a reliable namespace

  /** The tests a file must pass for the given arguments when the namespace check runs. */
  ghost predicate PassesApplied(env: Env, ns: string, className: Option<string>, methodName: Option<string>, f: Path) {
    && FileMatches(env, Imports(ns), f)
    && (Given(className) ==> FileMatches(env, Mentions(className.value), f))
    && (Given(className) && Given(methodName) ==> FileMatches(env, Calls(methodName.value), f))
  }

  /** A file a stage reports for a consumer was one of its files before the stage, and passes the test. */
  lemma NarrowFileOrigin(env: Env, t: Test, stage: seq<Consumer>, c: Consumer, f: Path)
    requires c in Narrow(env, t, stage) && f in c.files
    ensures FileMatches(env, t, f)
    ensures exists d :: d in stage && d.path == c.path && f in d.files
  {
    NarrowMembers(env, t, stage, c);
    var d :| d in stage && MatchingFiles(env, t, d.files) != [] && c == d.(files := MatchingFiles(env, t, d.files));
    MatchingFilesMembers(env, t, d.files, f);
  }

  /** A file a stage keeps for a consumer is reported with that consumer. */
  lemma NarrowKeepsFile(env: Env, t: Test, stage: seq<Consumer>, c: Consumer, f: Path)
    requires c in stage && f in c.files && FileMatches(env, t, f)
    ensures f in MatchingFiles(env, t, c.files)
    ensures c.(files := MatchingFiles(env, t, c.files)) in Narrow(env, t, stage)
  {
    MatchingFilesMembers(env, t, c.files, f);
    NarrowMembers(env, t, stage, c.(files := MatchingFiles(env, t, c.files)));
  }

  /** Step 3's files for a consumer are C# files under its directory that import the namespace. */
  lemma NamespaceStageFile(env: Env, ns: string, direct: seq<Consumer>, c: Consumer, f: Path)
    requires !Unreliable(ns) && c in ByNamespace(env, ns, direct) && f in c.files
    ensures f in Listing(env, Parent(c.path)) && FileMatches(env, Imports(ns), f)
  {
    NarrowFileOrigin(env, Imports(ns), WithListings(env, direct), c, f);
    var d :| d in WithListings(env, direct) && d.path == c.path && f in d.files;
    WithListingsMembers(env, direct, d);
  }

  lemma UnscannedHaveNoFiles(paths: seq<Path>, c: Consumer)
    requires c in Unscanned(paths)
    ensures c.files == []
  {
    var i :| 0 <= i < |paths| && Unscanned(paths)[i] == c;
  }

  /**
   * With a reliable namespace, every file reported for a consumer lies under the
   * consumer's directory and passed every stage that ran.
   */
  lemma ReportedFilesPassEveryStage(env: Env, target: Path, found: Option<seq<Path>>, ns: string,
                                    className: Option<string>, methodName: Option<string>, r: Consumer, f: Path)
    requires !Unreliable(ns)
    requires r in Funnel(env, target, found, ns, className, methodName) && f in r.files
    ensures f in Listing(env, Parent(r.path))
    ensures PassesApplied(env, ns, className, methodName, f)
  {
    var direct := DirectConsumers(env, found.value, target);
    var byNamespace := ByNamespace(env, ns, direct);
    if byNamespace == [] {
      UnscannedHaveNoFiles(DirectPaths(env, Candidates(env, found.value, target), target), r);
    } else if !Given(className) {
      NamespaceStageFile(env, ns, direct, r, f);
    } else {
      var byType := Narrow(env, Mentions(className.value), byNamespace);
      var c2 := r;
      if Given(methodName) {
        NarrowFileOrigin(env, Calls(methodName.value), byType, r, f);
        c2 :| c2 in byType && c2.path == r.path && f in c2.files;
      }
      NarrowFileOrigin(env, Mentions(className.value), byNamespace, c2, f);
      var c1 :| c1 in byNamespace && c1.path == r.path && f in c1.files;
      NamespaceStageFile(env, ns, direct, c1, f);
    }
  }

  /** A consumer whose directory holds a file importing the namespace survives step 3 with that file. */
  lemma NamespaceStageKeeps(env: Env, ns: string, direct: seq<Consumer>, c: Consumer, f: Path)
    requires !Unreliable(ns) && c in direct
    requires f in Listing(env, Parent(c.path)) && FileMatches(env, Imports(ns), f)
    ensures exists d :: d in ByNamespace(env, ns, direct) && d.path == c.path && f in d.files
  {
    var listed := c.(files := Listing(env, Parent(c.path)));
    WithListingsMembers(env, direct, listed);
    NarrowKeepsFile(env, Imports(ns), WithListings(env, direct), listed, f);
    var d := listed.(files := MatchingFiles(env, Imports(ns), listed.files));
    assert d in ByNamespace(env, ns, direct);
  }

  /** A file that passes the class and method tests that run is kept by steps 4 and 5. */
  lemma LaterStagesKeep(env: Env, direct: seq<Consumer>, byNamespace: seq<Consumer>,
                        className: Option<string>, methodName: Option<string>, c: Consumer, f: Path)
    requires c in byNamespace && f in c.files
    requires Given(className) ==> FileMatches(env, Mentions(className.value), f)
    requires Given(className) && Given(methodName) ==> FileMatches(env, Calls(methodName.value), f)
    ensures exists r :: r in AfterNamespace(env, direct, byNamespace, className, methodName) && r.path == c.path && f in r.files
  {
    if Given(className) {
      var byType := Narrow(env, Mentions(className.value), byNamespace);
      NarrowKeepsFile(env, Mentions(className.value), byNamespace, c, f);
      var d := c.(files := MatchingFiles(env, Mentions(className.value), c.files));
      assert d in byType;
      if Given(methodName) {
        NarrowKeepsFile(env, Calls(methodName.value), byType, d, f);
        var e := d.(files := MatchingFiles(env, Calls(methodName.value), d.files));
        assert e in AfterNamespace(env, direct, byNamespace, className, methodName);
      } else {
        assert d in AfterNamespace(env, direct, byNamespace, className, methodName);
      }
    } else {
      assert c in AfterNamespace(env, direct, byNamespace, className, methodName);
    }
  }

  /**
   * With a reliable namespace, a direct consumer with a C# file under its directory
   * that passes every stage that runs is reported, with that file among its files.
   */
  lemma MatchingFileIsReported(env: Env, target: Path, found: seq<Path>, ns: string,
                               className: Option<string>, methodName: Option<string>, p: Path, f: Path)
    requires !Unreliable(ns)
    requires p in DirectPaths(env, Candidates(env, found, target), target)
    requires f in Listing(env, Parent(p)) && PassesApplied(env, ns, className, methodName, f)
    ensures exists r :: r in Funnel(env, target, Some(found), ns, className, methodName) && r.path == p && f in r.files
  {
    var direct := DirectConsumers(env, found, target);
    DirectConsumerListed(env, found, target, p);
    var listed :| listed in WithListings(env, direct) && listed.path == p && listed.files == Listing(env, Parent(p));
    assert |WithListings(env, direct)| > 0;
    FunnelAfterNamespace(env, target, found, ns, className, methodName);
    NarrowKeepsFile(env, Imports(ns), WithListings(env, direct), listed, f);
    var c := listed.(files := MatchingFiles(env, Imports(ns), listed.files));
    assert c in ByNamespace(env, ns, direct);
    LaterStagesKeep(env, direct, ByNamespace(env, ns, direct), className, methodName, c, f);
  }

  lemma FunnelAfterNamespace(env: Env, target: Path, found: seq<Path>, ns: string,
                             className: Option<string>, methodName: Option<string>)
    requires DirectConsumers(env, found, target) != []
    ensures var direct := DirectConsumers(env, found, target);
            Funnel(env, target, Some(found), ns, className, methodName)
            == AfterNamespace(env, direct, ByNamespace(env, ns, direct), className, methodName)
  {
  }

  // ---------------------------------------------------------------------------
  // Order: every stage keeps the order of the one before it

  /** `xs` is `ys` with some elements left out, the rest in their order. */
  ghost predicate Subsequence(xs: seq<Path>, ys: seq<Path>)
    decreases |ys|
  {
    if ys == [] then xs == []
    else
      || (xs != [] && xs[|xs| - 1] == ys[|ys| - 1] && Subsequence(xs[..|xs| - 1], ys[..|ys| - 1]))
      || Subsequence(xs, ys[..|ys| - 1])
  }

  /** The paths of a stage's consumers, in order. */
  ghost function PathsOf(stage: seq<Consumer>): (r: seq<Path>)
    ensures |r| == |stage|
  {
    if stage == [] then [] else PathsOf(stage[..|stage| - 1]) + [stage[|stage| - 1].path]
  }

  lemma {:induction false} EmptySubsequence(ys: seq<Path>)
    ensures Subsequence([], ys)
    decreases |ys|
  {
    if ys != [] {
      EmptySubsequence(ys[..|ys| - 1]);
    }
  }

  lemma {:induction false} SubsequenceReflexive(xs: seq<Path>)
    ensures Subsequence(xs, xs)
    decreases |xs|
  {
    if xs != [] {
      SubsequenceReflexive(xs[..|xs| - 1]);
    }
  }

  lemma {:induction false} SubsequenceTransitive(xs: seq<Path>, ys: seq<Path>, zs: seq<Path>)
    requires Subsequence(xs, ys) && Subsequence(ys, zs)
    ensures Subsequence(xs, zs)
    decreases |zs|
  {
    if zs != [] {
      var zf := zs[..|zs| - 1];
      if ys != [] && ys[|ys| - 1] == zs[|zs| - 1] && Subsequence(ys[..|ys| - 1], zf) {
        var yf := ys[..|ys| - 1];
        if xs != [] && xs[|xs| - 1] == ys[|ys| - 1] && Subsequence(xs[..|xs| - 1], yf) {
          SubsequenceTransitive(xs[..|xs| - 1], yf, zf);
        } else {
          SubsequenceTransitive(xs, yf, zf);
        }
      } else {
        SubsequenceTransitive(xs, ys, zf);
      }
    }
  }

  lemma {:induction false} SubsequenceMembers(xs: seq<Path>, ys: seq<Path>, x: Path)
    requires Subsequence(xs, ys) && x in xs
    ensures x in ys
    decreases |ys|
  {
    var yf := ys[..|ys| - 1];
    if xs[|xs| - 1] == ys[|ys| - 1] && Subsequence(xs[..|xs| - 1], yf) {
      if x != xs[|xs| - 1] {
        assert x in xs[..|xs| - 1];
        SubsequenceMembers(xs[..|xs| - 1], yf, x);
      }
    } else {
      SubsequenceMembers(xs, yf, x);
    }
  }

  /** Leaving elements out of a sequence without repetitions cannot create one. */
  lemma {:induction false} SubsequenceNoRepeats(xs: seq<Path>, ys: seq<Path>)
    requires Subsequence(xs, ys) && NoRepeats(ys)
    ensures NoRepeats(xs)
    decreases |ys|
  {
    if ys != [] {
      var yf := ys[..|ys| - 1];
      assert NoRepeats(yf);
      if xs != [] && xs[|xs| - 1] == ys[|ys| - 1] && Subsequence(xs[..|xs| - 1], yf) {
        var xf := xs[..|xs| - 1];
        SubsequenceNoRepeats(xf, yf);
        if xs[|xs| - 1] in xf {
          SubsequenceMembers(xf, yf, xs[|xs| - 1]);
        }
        assert xs == xf + [xs[|xs| - 1]];
      } else {
        SubsequenceNoRepeats(xs, yf);
      }
    }
  }

  /** A file test keeps the files in the order they were listed. */
  lemma {:induction false} MatchingFilesInOrder(env: Env, t: Test, files: seq<Path>)
    ensures Subsequence(MatchingFiles(env, t, files), files)
    decreases |files|
  {
    if files != [] {
      var front := files[..|files| - 1];
      MatchingFilesInOrder(env, t, front);
      var kept := MatchingFiles(env, t, files);
      if FileMatches(env, t, files[|files| - 1]) {
        assert kept[..|kept| - 1] == MatchingFiles(env, t, front);
      } else {
        assert kept == MatchingFiles(env, t, front);
      }
    }
  }

  /** A stage keeps its consumers in the order of the stage before it. */
  lemma {:induction false} NarrowInOrder(env: Env, t: Test, stage: seq<Consumer>)
    ensures Subsequence(PathsOf(Narrow(env, t, stage)), PathsOf(stage))
    decreases |stage|
  {
    if stage != [] {
      var front := stage[..|stage| - 1];
      var c := stage[|stage| - 1];
      NarrowInOrder(env, t, front);
      assert stage == front + [c];
      PathsOfAppend(front, c);
      var kept := MatchingFiles(env, t, c.files);
      if kept != [] {
        assert Narrow(env, t, stage) == Narrow(env, t, front) + [c.(files := kept)];
        PathsOfAppend(Narrow(env, t, front), c.(files := kept));
        SubsequenceAppendBoth(PathsOf(Narrow(env, t, front)), PathsOf(front), c.path);
      } else {
        assert Narrow(env, t, stage) == Narrow(env, t, front);
        SubsequenceAppendRight(PathsOf(Narrow(env, t, front)), PathsOf(front), c.path);
      }
    }
  }

  lemma PathsOfAppend(stage: seq<Consumer>, c: Consumer)
    ensures PathsOf(stage + [c]) == PathsOf(stage) + [c.path]
  {
    assert (stage + [c])[..|stage|] == stage;
  }

  lemma SubsequenceAppendBoth(xs: seq<Path>, ys: seq<Path>, y: Path)
    requires Subsequence(xs, ys)
    ensures Subsequence(xs + [y], ys + [y])
  {
    assert (xs + [y])[..|xs|] == xs;
    assert (ys + [y])[..|ys|] == ys;
  }

  lemma SubsequenceAppendRight(xs: seq<Path>, ys: seq<Path>, y: Path)
    requires Subsequence(xs, ys)
    ensures Subsequence(xs, ys + [y])
  {
    assert (ys + [y])[..|ys|] == ys;
  }

  lemma {:induction false} WithListingsKeepsPaths(env: Env, stage: seq<Consumer>)
    ensures PathsOf(WithListings(env, stage)) == PathsOf(stage)
    decreases |stage|
  {
    if stage != [] {
      var front := stage[..|stage| - 1];
      var c := stage[|stage| - 1];
      WithListingsKeepsPaths(env, front);
      assert stage == front + [c];
      PathsOfAppend(front, c);
      PathsOfAppend(WithListings(env, front), c.(files := Listing(env, Parent(c.path))));
    }
  }

  lemma UnscannedPaths(paths: seq<Path>)
    ensures PathsOf(Unscanned(paths)) == paths
  {
    PathsOfPointwise(Unscanned(paths));
  }

  lemma {:induction false} PathsOfPointwise(stage: seq<Consumer>)
    ensures forall i :: 0 <= i < |stage| ==> PathsOf(stage)[i] == stage[i].path
    decreases |stage|
  {
    if stage != [] {
      var front := stage[..|stage| - 1];
      PathsOfPointwise(front);
      assert stage == front + [stage[|stage| - 1]];
      PathsOfAppend(front, stage[|stage| - 1]);
    }
  }

  /** Step 2 keeps the candidates in discovery order. */
  lemma {:induction false} DirectPathsInOrder(env: Env, candidates: seq<Path>, target: Path)
    ensures Subsequence(DirectPaths(env, candidates, target), candidates)
    decreases |candidates|
  {
    if candidates != [] {
      DirectPathsInOrder(env, candidates[..|candidates| - 1], target);
    }
  }

  /** The exit rules return step 2's consumers or a later stage, so the order of step 2 is kept. */
  lemma AfterNamespaceInOrder(env: Env, direct: seq<Consumer>, byNamespace: seq<Consumer>,
                              className: Option<string>, methodName: Option<string>)
    requires Subsequence(PathsOf(byNamespace), PathsOf(direct))
    ensures Subsequence(PathsOf(AfterNamespace(env, direct, byNamespace, className, methodName)), PathsOf(direct))
  {
    var result := AfterNamespace(env, direct, byNamespace, className, methodName);
    if result == [] {
      EmptySubsequence(PathsOf(direct));
    } else if byNamespace == [] {
      SubsequenceReflexive(PathsOf(direct));
    } else if Given(className) {
      var byType := Narrow(env, Mentions(className.value), byNamespace);
      NarrowInOrder(env, Mentions(className.value), byNamespace);
      SubsequenceTransitive(PathsOf(byType), PathsOf(byNamespace), PathsOf(direct));
      if Given(methodName) {
        NarrowInOrder(env, Calls(methodName.value), byType);
        SubsequenceTransitive(PathsOf(result), PathsOf(byType), PathsOf(direct));
      }
    }
  }

  /**
   * The consumers are reported in the order their project files were discovered, and
   * each one once.
   */
  lemma ResultsInDiscoveryOrder(env: Env, target: Path, found: seq<Path>, ns: string,
                                className: Option<string>, methodName: Option<string>)
    ensures Subsequence(PathsOf(Funnel(env, target, Some(found), ns, className, methodName)), Candidates(env, found, target))
    ensures NoRepeats(PathsOf(Funnel(env, target, Some(found), ns, className, methodName)))
  {
    var candidates := Candidates(env, found, target);
    var paths := DirectPaths(env, candidates, target);
    var direct := DirectConsumers(env, found, target);
    var result := Funnel(env, target, Some(found), ns, className, methodName);
    UnscannedPaths(paths);
    DirectPathsInOrder(env, candidates, target);
    DirectPathsMembers(env, candidates, target);
    if direct == [] {
      EmptySubsequence(candidates);
    } else {
      var byNamespace := ByNamespace(env, ns, direct);
      if Unreliable(ns) {
        SubsequenceReflexive(paths);
      } else {
        NarrowInOrder(env, Imports(ns), WithListings(env, direct));
        WithListingsKeepsPaths(env, direct);
      }
      AfterNamespaceInOrder(env, direct, byNamespace, className, methodName);
      SubsequenceTransitive(PathsOf(result), paths, candidates);
      SubsequenceNoRepeats(PathsOf(result), paths);
    }
  }

  /** A stage's files for a consumer are its files from the stage before, in their order. */
  lemma NarrowFilesInOrder(env: Env, t: Test, stage: seq<Consumer>, c: Consumer)
    requires c in Narrow(env, t, stage)
    ensures exists d :: d in stage && d.path == c.path && Subsequence(c.files, d.files)
  {
    NarrowMembers(env, t, stage, c);
    var d :| d in stage && MatchingFiles(env, t, d.files) != [] && c == d.(files := MatchingFiles(env, t, d.files));
    MatchingFilesInOrder(env, t, d.files);
  }

  /** With a reliable namespace, a consumer's files keep the order `rglob` listed them in. */
  lemma ReportedFilesInListingOrder(env: Env, target: Path, found: Option<seq<Path>>, ns: string,
                                    className: Option<string>, methodName: Option<string>, r: Consumer)
    requires !Unreliable(ns)
    requires r in Funnel(env, target, found, ns, className, methodName)
    ensures Subsequence(r.files, Listing(env, Parent(r.path)))
  {
    var direct := DirectConsumers(env, found.value, target);
    var byNamespace := ByNamespace(env, ns, direct);
    var listing := Listing(env, Parent(r.path));
    if byNamespace == [] {
      UnscannedHaveNoFiles(DirectPaths(env, Candidates(env, found.value, target), target), r);
      EmptySubsequence(listing);
    } else {
      var c1 := r;
      if Given(className) {
        var byType := Narrow(env, Mentions(className.value), byNamespace);
        var c2 := r;
        if Given(methodName) {
          NarrowFilesInOrder(env, Calls(methodName.value), byType, r);
          c2 :| c2 in byType && c2.path == r.path && Subsequence(r.files, c2.files);
        } else {
          SubsequenceReflexive(r.files);
        }
        NarrowFilesInOrder(env, Mentions(className.value), byNamespace, c2);
        c1 :| c1 in byNamespace && c1.path == r.path && Subsequence(c2.files, c1.files);
        SubsequenceTransitive(r.files, c2.files, c1.files);
      } else {
        SubsequenceReflexive(r.files);
      }
      NarrowFilesInOrder(env, Imports(ns), WithListings(env, direct), c1);
      var d :| d in WithListings(env, direct) && d.path == c1.path && Subsequence(c1.files, d.files);
      WithListingsMembers(env, direct, d);
      SubsequenceTransitive(r.files, c1.files, listing);
    }
  }

  // ---------------------------------------------------------------------------
  // The type search without a namespace check, as evidently intended

  /**
   * `find_consumers` as its warning describes it when the namespace is unreliable
   * ("all direct consumers will be considered"): the type check reads each direct
   * consumer's C# files instead of the empty file lists step 2 leaves behind. In
   * every other case it is the search as written.
   */
  function IntendedFunnel(env: Env, target: Path, found: Option<seq<Path>>, ns: string,
                          className: Option<string>, methodName: Option<string>): seq<Consumer>
  {
    if found.None? then []
    else
      var direct := DirectConsumers(env, found.value, target);
      if direct == [] then []
      else if Unreliable(ns) && Given(className) then
        AfterNamespace(env, direct, WithListings(env, direct), className, methodName)
      else AfterNamespace(env, direct, ByNamespace(env, ns, direct), className, methodName)
  }

  /** The correction changes nothing outside the case it is about. */
  lemma IntendedFunnelAgreesElsewhere(env: Env, target: Path, found: Option<seq<Path>>, ns: string,
                                      className: Option<string>, methodName: Option<string>)
    requires !Unreliable(ns) || !Given(className)
    ensures IntendedFunnel(env, target, found, ns, className, methodName)
         == Funnel(env, target, found, ns, className, methodName)
  {
  }

  /**
   * With an unreliable namespace, a direct consumer with a C# file under its directory
   * that mentions the type (and calls the method, when one is given) is reported with
   * that file.
   */
  lemma IntendedTypeSearchWithoutNamespace(env: Env, target: Path, found: seq<Path>, ns: string,
                                           className: Option<string>, methodName: Option<string>, p: Path, f: Path)
    requires Unreliable(ns) && Given(className)
    requires p in DirectPaths(env, Candidates(env, found, target), target)
    requires f in Listing(env, Parent(p)) && FileMatches(env, Mentions(className.value), f)
    requires Given(methodName) ==> FileMatches(env, Calls(methodName.value), f)
    ensures exists r :: r in IntendedFunnel(env, target, Some(found), ns, className, methodName) && r.path == p && f in r.files
  {
    var direct := DirectConsumers(env, found, target);
    DirectConsumerListed(env, found, target, p);
    var listed :| listed in WithListings(env, direct) && listed.path == p && listed.files == Listing(env, Parent(p));
    assert |WithListings(env, direct)| > 0;
    IntendedFunnelScansListings(env, target, found, ns, className, methodName);
    LaterStagesKeep(env, direct, WithListings(env, direct), className, methodName, listed, f);
  }

  lemma IntendedFunnelScansListings(env: Env, target: Path, found: seq<Path>, ns: string,
                                    className: Option<string>, methodName: Option<string>)
    requires Unreliable(ns) && Given(className) && DirectConsumers(env, found, target) != []
    ensures var direct := DirectConsumers(env, found, target);
            IntendedFunnel(env, target, Some(found), ns, className, methodName)
            == AfterNamespace(env, direct, WithListings(env, direct), className, methodName)
  {
  }

  /** Each direct consumer, given the C# files under its directory. */
  lemma DirectConsumerListed(env: Env, found: seq<Path>, target: Path, p: Path)
    requires p in DirectPaths(env, Candidates(env, found, target), target)
    ensures exists c :: c in WithListings(env, DirectConsumers(env, found, target)) && c.path == p
                        && c.files == Listing(env, Parent(p))
  {
    var paths := DirectPaths(env, Candidates(env, found, target), target);
    var direct := DirectConsumers(env, found, target);
    var i :| 0 <= i < |paths| && paths[i] == p;
    var listed := direct[i].(files := Listing(env, Parent(p)));
    assert direct[i] in direct;
    WithListingsMembers(env, direct, listed);
  }
}
