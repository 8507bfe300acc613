/**
 * `find_consumers`: the projects that consume a target project, narrowed by a funnel
 * of checks — a `<ProjectReference>` to the target, a `using` of its namespace, a
 * mention of a type, a call of a method — each stage keeping, per consumer, the C#
 * files that passed it.
 *
 * Python's insertion-ordered dictionaries are modelled as a sequence of keys in
 * insertion order together with a map from each key to its record.
 */
module Consumers {
  import opened Text
  import opened Wrappers
  import opened Paths
  import opened Workspace
  import opened Patterns

  /** A value of a stage dictionary: `consumer_name` and `relevant_files`. */
  datatype Record = Record(name: string, files: seq<Path>)

  /** An element of the result: `consumer_path`, `consumer_name` and `relevant_files`. */
  datatype Consumer = Consumer(path: Path, name: string, files: seq<Path>)

  /** The content test one stage applies to each file. */
  datatype Test = Imports(ns: string) | Mentions(typeName: string) | Calls(methodName: string)

  predicate Passes(t: Test, content: string) {
    match t
    case Imports(ns) => ImportsNamespace(content, ns)
    case Mentions(n) => MentionsWord(content, n)
    case Calls(m) => CallsMethod(content, m)
  }

  /** The file can be read and its text passes the test; a file that cannot be read is skipped. */
  predicate FileMatches(env: Env, t: Test, f: Path) {
    f in env.contents && Passes(t, env.contents[f])
  }

  /** The files that pass, in their original order. */
  function MatchingFiles(env: Env, t: Test, files: seq<Path>): seq<Path> {
    if files == [] then []
    else
      var f := files[|files| - 1];
      MatchingFiles(env, t, files[..|files| - 1]) + (if FileMatches(env, t, f) then [f] else [])
  }

  /**
   * One filtering stage: each consumer keeps the files that pass, and a consumer left
   * with none is dropped.
   */
  function Narrow(env: Env, t: Test, stage: seq<Consumer>): seq<Consumer> {
    if stage == [] then []
    else
      var c := stage[|stage| - 1];
      var kept := MatchingFiles(env, t, c.files);
      Narrow(env, t, stage[..|stage| - 1]) + (if kept != [] then [c.(files := kept)] else [])
  }

  /** `rglob('*.cs')` under a directory; a directory that cannot be listed yields no files. */
  function Listing(env: Env, dir: Path): seq<Path> {
    if dir in env.listings then env.listings[dir] else []
  }

  /** Each consumer with the C# files under its project directory as the files to check. */
  function WithListings(env: Env, stage: seq<Consumer>): (r: seq<Consumer>)
    ensures |r| == |stage|
  {
    if stage == [] then []
    else
      var c := stage[|stage| - 1];
      WithListings(env, stage[..|stage| - 1]) + [c.(files := Listing(env, Parent(c.path)))]
  }

  /** Step 1: the resolved project files found in scope, other than the target, in discovery order. */
  function Candidates(env: Env, found: seq<Path>, target: Path): seq<Path> {
    if found == [] then []
    else
      var p := found[|found| - 1];
      Candidates(env, found[..|found| - 1], target) + (if env.canon(p) != target then [env.canon(p)] else [])
  }

  /** Step 2's keys: the candidates that refer to the target, each once, in first-seen order. */
  function DirectPaths(env: Env, candidates: seq<Path>, target: Path): seq<Path> {
    if candidates == [] then []
    else
      var c := candidates[|candidates| - 1];
      var earlier := DirectPaths(env, candidates[..|candidates| - 1], target);
      if RefersTo(env, c, target) && c !in earlier then earlier + [c] else earlier
  }

  /** Direct consumers as step 2 records them: named by their stem, with no files yet. */
  function Unscanned(paths: seq<Path>): (r: seq<Consumer>)
    ensures |r| == |paths|
    ensures forall i :: 0 <= i < |paths| ==> r[i] == Consumer(paths[i], Stem(Name(paths[i])), [])
  {
    if paths == [] then []
    else Unscanned(paths[..|paths| - 1]) + [Consumer(paths[|paths| - 1], Stem(Name(paths[|paths| - 1])), [])]
  }

  function DirectConsumers(env: Env, found: seq<Path>, target: Path): seq<Consumer> {
    Unscanned(DirectPaths(env, Candidates(env, found, target), target))
  }

  /** A string argument that Python treats as given: present and not empty. */
  predicate Given(o: Option<string>) {
    o.Some? && o.value != []
  }

  /** A namespace the `using` check is skipped for. */
  predicate Unreliable(ns: string) {
    ns == [] || StartsWith(ns, "NAMESPACE_ERROR_")
  }

  /** Step 3's result: the direct consumers unchanged when the check is skipped. */
  function ByNamespace(env: Env, ns: string, direct: seq<Consumer>): seq<Consumer> {
    if Unreliable(ns) then direct else Narrow(env, Imports(ns), WithListings(env, direct))
  }

  /**
   * The whole funnel with its exit rules. `found` is the scope's `rglob('*.csproj')`,
   * `None` when scanning the scope raises.
   */
  function Funnel(env: Env, target: Path, found: Option<seq<Path>>, ns: string,
                  className: Option<string>, methodName: Option<string>): seq<Consumer>
  {
    if found.None? then []
    else
      var direct := DirectConsumers(env, found.value, target);
      if direct == [] then []
      else AfterNamespace(env, direct, ByNamespace(env, ns, direct), className, methodName)
  }

  /**
   * The exit rules once step 3 is done: with no namespace consumers the direct ones
   * are returned, unless a type was asked for; each later stage runs only when its
   * argument is given, and an empty stage ends the search with no consumers.
   */
  function AfterNamespace(env: Env, direct: seq<Consumer>, byNamespace: seq<Consumer>,
                          className: Option<string>, methodName: Option<string>): seq<Consumer>
  {
    if byNamespace == [] then (if Given(className) then [] else direct)
    else if !Given(className) then byNamespace
    else
      var byType := Narrow(env, Mentions(className.value), byNamespace);
      if byType == [] then []
      else if !Given(methodName) then byType
      else Narrow(env, Calls(methodName.value), byType)
  }

  ghost predicate NoRepeats(s: seq<Path>) {
    forall a, b :: 0 <= a < b < |s| ==> s[a] != s[b]
  }

  /** Keys without repetition, and exactly the keys in the map. */
  ghost predicate IsDict(keys: seq<Path>, recs: map<Path, Record>) {
    && NoRepeats(keys)
    && SameKeys(recs, keys)
  }

  ghost predicate SameKeys(recs: map<Path, Record>, keys: seq<Path>) {
    forall k :: k in recs <==> k in keys
  }

  /** Every record is one step 2 makes: named by the key's stem, with no files. */
  ghost predicate FreshRecords(recs: map<Path, Record>) {
    forall k :: k in recs ==> recs[k] == Record(Stem(Name(k)), [])
  }

  /** The dictionary's items in insertion order, as `format_results` lists them. */
  function Entries(keys: seq<Path>, recs: map<Path, Record>): (r: seq<Consumer>)
    requires forall k :: k in keys ==> k in recs
    ensures |r| == |keys|
  {
    if keys == [] then []
    else
      var k := keys[|keys| - 1];
      Entries(keys[..|keys| - 1], recs) + [Consumer(k, recs[k].name, recs[k].files)]
  }

  /** `format_results`: one result per item, in insertion order. */
  method FormatResults(keys: seq<Path>, recs: map<Path, Record>) returns (results: seq<Consumer>)
    requires forall k :: k in keys ==> k in recs
    ensures results == Entries(keys, recs)
  {
    results := [];
    for i := 0 to |keys|
      invariant results == Entries(keys[..i], recs)
    {
      ghost var before, after := keys[..i], keys[..i + 1];
      assert after[..|after| - 1] == before && after[|after| - 1] == keys[i];
      var data := recs[keys[i]];
      results := results + [Consumer(keys[i], data.name, data.files)];
    }
    assert keys[..|keys|] == keys;
  }

  /** The loop over one consumer's files: the readable ones whose text passes the test. */
  method FilterFiles(env: Env, t: Test, files: seq<Path>) returns (matches: seq<Path>)
    ensures matches == MatchingFiles(env, t, files)
  {
    matches := [];
    for j := 0 to |files|
      invariant matches == MatchingFiles(env, t, files[..j])
    {
      ghost var before, after := files[..j], files[..j + 1];
      assert after[..|after| - 1] == before && after[|after| - 1] == files[j];
      var f := files[j];
      if f in env.contents {
        var content := env.contents[f];
        var hit := match t
          case Imports(ns) => ImportsNamespace(content, ns)
          case Mentions(n) => MentionsWord(content, n)
          case Calls(m) => CallsMethod(content, m);
        if hit {
          matches := matches + [f];
        }
      }
    }
    assert files[..|files|] == files;
  }

  /** Step 2: the candidates that refer to the target become records named by their stem. */
  method CollectDirect(env: Env, candidates: seq<Path>, target: Path)
    returns (keys: seq<Path>, recs: map<Path, Record>)
    ensures IsDict(keys, recs)
    ensures keys == DirectPaths(env, candidates, target)
    ensures Entries(keys, recs) == Unscanned(keys)
  {
    keys, recs := [], map[];
    for i := 0 to |candidates|
      invariant IsDict(keys, recs)
      invariant keys == DirectPaths(env, candidates[..i], target)
      invariant FreshRecords(recs)
    {
      var c := candidates[i];
      var refers := ReferencesTarget(env, c, target);
      DirectStep(env, candidates, target, i, keys, recs);
      if refers {
        if c !in recs {
          keys := keys + [c];
        }
        recs := recs[c := Record(Stem(Name(c)), [])];
      }
    }
    assert candidates[..|candidates|] == candidates;
    UnscannedEntries(keys, recs);
  }

  /** One candidate of step 2: the dictionary, its keys and its records stay as specified. */
  lemma DirectStep(env: Env, candidates: seq<Path>, target: Path, i: nat, keys: seq<Path>, recs: map<Path, Record>)
    requires i < |candidates|
    requires IsDict(keys, recs) && FreshRecords(recs)
    requires keys == DirectPaths(env, candidates[..i], target)
    ensures var c := candidates[i];
      var refers := RefersTo(env, c, target);
      var nextKeys := if refers && c !in recs then keys + [c] else keys;
      var nextRecs := if refers then recs[c := Record(Stem(Name(c)), [])] else recs;
      && IsDict(nextKeys, nextRecs)
      && FreshRecords(nextRecs)
      && nextKeys == DirectPaths(env, candidates[..i + 1], target)
  {
    var c := candidates[i];
    DirectPathsStep(env, candidates, target, i);
    if RefersTo(env, c, target) {
      RecordInsert(keys, recs, c);
    }
  }

  lemma DirectPathsStep(env: Env, candidates: seq<Path>, target: Path, i: nat)
    requires i < |candidates|
    ensures var c := candidates[i];
      var earlier := DirectPaths(env, candidates[..i], target);
      DirectPaths(env, candidates[..i + 1], target)
        == if RefersTo(env, c, target) && c !in earlier then earlier + [c] else earlier
  {
    ghost var before, after := candidates[..i], candidates[..i + 1];
    assert after[..|after| - 1] == before && after[|after| - 1] == candidates[i];
  }

  /** Recording `c` as step 2 does adds it as a key when it is new, and keeps the records fresh. */
  lemma RecordInsert(keys: seq<Path>, recs: map<Path, Record>, c: Path)
    requires IsDict(keys, recs) && FreshRecords(recs)
    ensures var nextRecs := recs[c := Record(Stem(Name(c)), [])];
      && FreshRecords(nextRecs)
      && IsDict(if c in recs then keys else keys + [c], nextRecs)
  {
    var nextRecs := recs[c := Record(Stem(Name(c)), [])];
    if c !in recs {
      assert NoRepeats(keys + [c]);
      assert SameKeys(nextRecs, keys + [c]);
    } else {
      assert SameKeys(nextRecs, keys);
    }
  }

  /** Records made by step 2 list as the unscanned consumers of their keys. */
  lemma {:induction false} UnscannedEntries(keys: seq<Path>, recs: map<Path, Record>)
    requires forall k :: k in keys ==> k in recs
    requires FreshRecords(recs)
    ensures Entries(keys, recs) == Unscanned(keys)
  {
    if keys != [] {
      UnscannedEntries(keys[..|keys| - 1], recs);
    }
  }

  lemma EntriesAppend(keys: seq<Path>, recs: map<Path, Record>, k: Path)
    requires forall q :: q in keys ==> q in recs
    requires k in recs
    ensures Entries(keys + [k], recs) == Entries(keys, recs) + [Consumer(k, recs[k].name, recs[k].files)]
  {
    assert (keys + [k])[..|keys|] == keys;
  }

  lemma {:induction false} EntriesIgnoreOtherKeys(keys: seq<Path>, recs: map<Path, Record>, k: Path, r: Record)
    requires forall q :: q in keys ==> q in recs
    requires k !in keys
    ensures Entries(keys, recs[k := r]) == Entries(keys, recs)
  {
    if keys != [] {
      EntriesIgnoreOtherKeys(keys[..|keys| - 1], recs, k, r);
    }
  }

  lemma WithListingsAppend(env: Env, stage: seq<Consumer>, c: Consumer)
    ensures WithListings(env, stage + [c]) == WithListings(env, stage) + [c.(files := Listing(env, Parent(c.path)))]
  {
    assert (stage + [c])[..|stage|] == stage;
  }

  lemma NarrowAppend(env: Env, t: Test, stage: seq<Consumer>, c: Consumer)
    ensures Narrow(env, t, stage + [c]) == Narrow(env, t, stage)
      + (if MatchingFiles(env, t, c.files) != [] then [c.(files := MatchingFiles(env, t, c.files))] else [])
  {
    assert (stage + [c])[..|stage|] == stage;
  }

  /**
   * Step 3 when the namespace is reliable: each consumer's directory is listed once
   * (the listing is cached per directory), and a consumer is kept with the files that
   * import the namespace. The ghost `scanned` logs every directory at the moment it is
   * listed: it ends up holding each consumer's directory exactly once.
   */
  method NamespaceStage(env: Env, ns: string, keys: seq<Path>, recs: map<Path, Record>)
    returns (nkeys: seq<Path>, nrecs: map<Path, Record>, ghost scanned: seq<Path>)
    requires IsDict(keys, recs)
    ensures IsDict(nkeys, nrecs)
    ensures Entries(nkeys, nrecs) == Narrow(env, Imports(ns), WithListings(env, Entries(keys, recs)))
    ensures NoRepeats(scanned)
    ensures forall d :: d in scanned <==> ParentOfSome(d, keys)
  {
    var cache: map<Path, seq<Path>> := map[];
    nkeys, nrecs, scanned := [], map[], [];
    for i := 0 to |keys|
      invariant ListedSoFar(env, ns, keys, recs, i, nkeys, nrecs)
      invariant ScannedSoFar(env, keys, i, cache, scanned)
    {
      var p := keys[i];
      var dir := Parent(p);
      var files, newCache, listed := CachedListing(env, cache, dir);
      ghost var newLog := if listed then scanned + [dir] else scanned;
      ScannedStep(env, keys, i, cache, scanned, newCache, newLog);
      cache, scanned := newCache, newLog;
      var matches := FilterFiles(env, Imports(ns), files);
      ghost var keptKeys, keptRecs := nkeys, nrecs;
      if matches != [] {
        nrecs := nrecs[p := recs[p].(files := matches)];
        nkeys := nkeys + [p];
      }
      ListedStep(env, ns, keys, recs, i, keptKeys, keptRecs, nkeys, nrecs);
    }
    assert keys[..|keys|] == keys;
    ScannedAll(env, keys, cache, scanned);
  }

  /**
   * The loop state of `NamespaceStage` after the first `i` consumers: the kept ones,
   * with the files of their directory that import `ns`, and none of the rest yet.
   */
  ghost predicate ListedSoFar(env: Env, ns: string, keys: seq<Path>, recs: map<Path, Record>,
                              i: nat, nkeys: seq<Path>, nrecs: map<Path, Record>)
    requires IsDict(keys, recs) && i <= |keys|
  {
    && IsDict(nkeys, nrecs)
    && Unrecorded(keys, i, nrecs)
    && Entries(nkeys, nrecs) == Narrow(env, Imports(ns), WithListings(env, Entries(keys[..i], recs)))
  }

  /** One iteration of `NamespaceStage` on the records. */
  lemma ListedStep(env: Env, ns: string, keys: seq<Path>, recs: map<Path, Record>, i: nat,
                   nkeys: seq<Path>, nrecs: map<Path, Record>, nkeys': seq<Path>, nrecs': map<Path, Record>)
    requires IsDict(keys, recs) && i < |keys|
    requires ListedSoFar(env, ns, keys, recs, i, nkeys, nrecs)
    requires var p := keys[i];
      var matches := MatchingFiles(env, Imports(ns), Listing(env, Parent(p)));
      if matches == [] then nkeys' == nkeys && nrecs' == nrecs
      else nkeys' == nkeys + [p] && nrecs' == nrecs[p := recs[p].(files := matches)]
    ensures ListedSoFar(env, ns, keys, recs, i + 1, nkeys', nrecs')
  {
    var p := keys[i];
    ListedPrefixStep(env, keys, recs, i);
    KeepStep(env, Imports(ns), WithListings(env, Entries(keys[..i], recs)),
             Consumer(p, recs[p].name, Listing(env, Parent(p))), nkeys, nrecs, recs[p]);
  }

  /** The cache and the scan log of `NamespaceStage` after the first `i` consumers. */
  ghost predicate ScannedSoFar(env: Env, keys: seq<Path>, i: nat, cache: map<Path, seq<Path>>, scanned: seq<Path>)
    requires i <= |keys|
  {
    CacheAccurate(env, cache) && ScanLog(scanned, cache, keys[..i])
  }

  /** One iteration of `NamespaceStage` on the cache and the scan log. */
  lemma ScannedStep(env: Env, keys: seq<Path>, i: nat, cache: map<Path, seq<Path>>, scanned: seq<Path>,
                    cache': map<Path, seq<Path>>, scanned': seq<Path>)
    requires i < |keys| && ScannedSoFar(env, keys, i, cache, scanned)
    requires var dir := Parent(keys[i]);
      && cache' == (if dir in cache then cache else cache[dir := Listing(env, dir)])
      && scanned' == (if dir in cache then scanned else scanned + [dir])
    ensures ScannedSoFar(env, keys, i + 1, cache', scanned')
  {
    ScanLogStep(keys, i, scanned, cache, Listing(env, Parent(keys[i])));
  }

  /** At the end of `NamespaceStage` the log holds each consumer's directory exactly once. */
  lemma ScannedAll(env: Env, keys: seq<Path>, cache: map<Path, seq<Path>>, scanned: seq<Path>)
    requires ScannedSoFar(env, keys, |keys|, cache, scanned)
    ensures NoRepeats(scanned)
    ensures forall d :: d in scanned <==> ParentOfSome(d, keys)
  {
    assert keys[..|keys|] == keys;
  }

  /** `d` is the directory of one of the projects `keys`. */
  ghost predicate ParentOfSome(d: Path, keys: seq<Path>) {
    exists j | 0 <= j < |keys| :: Parent(keys[j]) == d
  }

  lemma ParentsStep(keys: seq<Path>, i: nat)
    requires i < |keys|
    ensures forall d :: ParentOfSome(d, keys[..i + 1]) <==> ParentOfSome(d, keys[..i]) || d == Parent(keys[i])
  {
    forall d | ParentOfSome(d, keys[..i + 1])
      ensures ParentOfSome(d, keys[..i]) || d == Parent(keys[i])
    {
      var j :| 0 <= j < i + 1 && Parent(keys[..i + 1][j]) == d;
      if j < i {
        assert keys[..i][j] == keys[j];
      }
    }
    forall d | ParentOfSome(d, keys[..i])
      ensures ParentOfSome(d, keys[..i + 1])
    {
      var j :| 0 <= j < i && Parent(keys[..i][j]) == d;
      assert keys[..i + 1][j] == keys[j];
    }
    assert keys[..i + 1][i] == keys[i];
  }

  /**
   * The C# files under `dir`, listed only when the cache has no entry for it; a
   * directory that cannot be listed is cached with no files.
   */
  method CachedListing(env: Env, cache: map<Path, seq<Path>>, dir: Path)
    returns (files: seq<Path>, newCache: map<Path, seq<Path>>, listed: bool)
    requires CacheAccurate(env, cache)
    ensures listed <==> dir !in cache
    ensures files == Listing(env, dir)
    ensures newCache == if dir in cache then cache else cache[dir := files]
    ensures CacheAccurate(env, newCache)
  {
    newCache, listed := cache, false;
    if dir !in cache {
      listed := true;
      var listing := if dir in env.listings then env.listings[dir] else [];
      newCache := cache[dir := listing];
    }
    files := newCache[dir];
  }

  /** Every cached listing is the directory's listing. */
  ghost predicate CacheAccurate(env: Env, cache: map<Path, seq<Path>>) {
    forall d :: d in cache ==> cache[d] == Listing(env, d)
  }

  /** None of the keys from position `i` on has been recorded yet. */
  ghost predicate Unrecorded(keys: seq<Path>, i: nat, recs: map<Path, Record>) {
    forall j :: i <= j < |keys| ==> keys[j] !in recs
  }

  /**
   * The directories listed so far: each once, exactly the cache's keys, and exactly the
   * directories of the projects `done`.
   */
  ghost predicate ScanLog(scanned: seq<Path>, cache: map<Path, seq<Path>>, done: seq<Path>) {
    && NoRepeats(scanned)
    && (forall d :: d in cache <==> d in scanned)
    && (forall d :: d in cache <==> ParentOfSome(d, done))
  }

  /** Logging a listing exactly when the cache misses keeps the scan log accurate. */
  lemma ScanLogStep(keys: seq<Path>, i: nat, scanned: seq<Path>, cache: map<Path, seq<Path>>, files: seq<Path>)
    requires i < |keys| && ScanLog(scanned, cache, keys[..i])
    ensures var dir := Parent(keys[i]);
      ScanLog(if dir in cache then scanned else scanned + [dir],
              if dir in cache then cache else cache[dir := files], keys[..i + 1])
  {
    ParentsStep(keys, i);
  }

  /** Steps 4 and 5: each consumer keeps the files among its current ones that pass the test. */
  method NarrowStage(env: Env, t: Test, keys: seq<Path>, recs: map<Path, Record>)
    returns (nkeys: seq<Path>, nrecs: map<Path, Record>)
    requires IsDict(keys, recs)
    ensures IsDict(nkeys, nrecs)
    ensures Entries(nkeys, nrecs) == Narrow(env, t, Entries(keys, recs))
  {
    nkeys, nrecs := [], map[];
    for i := 0 to |keys|
      invariant IsDict(nkeys, nrecs)
      invariant Unrecorded(keys, i, nrecs)
      invariant Entries(nkeys, nrecs) == Narrow(env, t, Entries(keys[..i], recs))
    {
      var p := keys[i];
      var matches := FilterFiles(env, t, recs[p].files);
      EntriesPrefixStep(keys, recs, i);
      KeepStep(env, t, Entries(keys[..i], recs), Consumer(p, recs[p].name, recs[p].files), nkeys, nrecs, recs[p]);
      if matches != [] {
        nrecs := nrecs[p := recs[p].(files := matches)];
        nkeys := nkeys + [p];
      }
    }
    assert keys[..|keys|] == keys;
  }

  lemma EntriesPrefixStep(keys: seq<Path>, recs: map<Path, Record>, i: nat)
    requires IsDict(keys, recs) && i < |keys|
    ensures keys[i] !in keys[..i]
    ensures Entries(keys[..i + 1], recs) == Entries(keys[..i], recs) + [Consumer(keys[i], recs[keys[i]].name, recs[keys[i]].files)]
  {
    assert keys[..i + 1] == keys[..i] + [keys[i]];
    EntriesAppend(keys[..i], recs, keys[i]);
  }

  lemma ListedPrefixStep(env: Env, keys: seq<Path>, recs: map<Path, Record>, i: nat)
    requires IsDict(keys, recs) && i < |keys|
    ensures keys[i] !in keys[..i]
    ensures WithListings(env, Entries(keys[..i + 1], recs))
      == WithListings(env, Entries(keys[..i], recs)) + [Consumer(keys[i], recs[keys[i]].name, Listing(env, Parent(keys[i])))]
  {
    EntriesPrefixStep(keys, recs, i);
    WithListingsAppend(env, Entries(keys[..i], recs), Consumer(keys[i], recs[keys[i]].name, recs[keys[i]].files));
  }

  /**
   * One iteration of a narrowing loop: the consumer `c`, recorded under its path as
   * `r`, is added with its passing files exactly when it has some.
   */
  lemma KeepStep(env: Env, t: Test, before: seq<Consumer>, c: Consumer,
                 nkeys: seq<Path>, nrecs: map<Path, Record>, r: Record)
    requires IsDict(nkeys, nrecs) && c.path !in nkeys && c.name == r.name
    requires Entries(nkeys, nrecs) == Narrow(env, t, before)
    ensures var matches := MatchingFiles(env, t, c.files);
      && (matches == [] ==> Entries(nkeys, nrecs) == Narrow(env, t, before + [c]))
      && (matches != [] ==>
            && IsDict(nkeys + [c.path], nrecs[c.path := r.(files := matches)])
            && Entries(nkeys + [c.path], nrecs[c.path := r.(files := matches)]) == Narrow(env, t, before + [c]))
  {
    var matches := MatchingFiles(env, t, c.files);
    NarrowAppend(env, t, before, c);
    if matches != [] {
      var updated := nrecs[c.path := r.(files := matches)];
      EntriesIgnoreOtherKeys(nkeys, nrecs, c.path, r.(files := matches));
      EntriesAppend(nkeys, updated, c.path);
    }
  }

  /** `find_consumers`: the consumers the deepest applied stage kept, following the exit rules. */
  method FindConsumers(env: Env, target: Path, found: Option<seq<Path>>, ns: string,
                       className: Option<string>, methodName: Option<string>)
    returns (result: seq<Consumer>)
    ensures result == Funnel(env, target, found, ns, className, methodName)
  {
    if found.None? {
      return [];  // scanning the scope raised
    }
    var candidates := Candidates(env, found.value, target);
    var keys, recs := CollectDirect(env, candidates, target);
    ghost var direct := DirectConsumers(env, found.value, target);
    assert Entries(keys, recs) == direct;
    if keys == [] {
      assert direct == [];
      return [];
    }
    assert direct != [];
    var nsKeys, nsRecs := keys, recs;
    if !Unreliable(ns) {
      ghost var scanned;
      nsKeys, nsRecs, scanned := NamespaceStage(env, ns, keys, recs);
    }
    assert Entries(nsKeys, nsRecs) == ByNamespace(env, ns, direct);
    result := LaterStages(env, keys, recs, nsKeys, nsRecs, className, methodName);
  }

  /** The part of `find_consumers` after step 3: the exit rules and steps 4 and 5. */
  method LaterStages(env: Env, keys: seq<Path>, recs: map<Path, Record>,
                     nsKeys: seq<Path>, nsRecs: map<Path, Record>,
                     className: Option<string>, methodName: Option<string>)
    returns (result: seq<Consumer>)
    requires IsDict(keys, recs) && IsDict(nsKeys, nsRecs)
    ensures result == AfterNamespace(env, Entries(keys, recs), Entries(nsKeys, nsRecs), className, methodName)
  {
    if nsKeys == [] {
      if Given(className) {
        return [];
      }
      result := FormatResults(keys, recs);
      return;
    }
    if !Given(className) {
      result := FormatResults(nsKeys, nsRecs);
      return;
    }
    var typeKeys, typeRecs := NarrowStage(env, Mentions(className.value), nsKeys, nsRecs);
    if typeKeys == [] {
      return [];
    }
    if !Given(methodName) {
      result := FormatResults(typeKeys, typeRecs);
      return;
    }
    var callKeys, callRecs := NarrowStage(env, Calls(methodName.value), typeKeys, typeRecs);
    if callKeys == [] {
      return [];
    }
    result := FormatResults(callKeys, callRecs);
  }
}
