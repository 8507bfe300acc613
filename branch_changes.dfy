/**
 * The grouping loop of `analyze_branch_changes`: changed C# files of a diff grouped by
 * the project file that governs them.
 *
 * The diff reaches the model as its entries in diff order; the project locator and
 * `Path(...).as_posix()` are parameters.
 */
module BranchChanges {
  import opened Text
  import opened Wrappers

  /** One diff entry: its change type (`'A'`, `'M'`, `'D'`, `'R'`, ...) and its post-change path, if any. */
  datatype DiffItem = DiffItem(changeType: string, bPath: Option<string>)

  /** The entry is counted as a changed C# file: not a deletion, and its path ends in `.cs` in any case. */
  predicate IsChangedSource(d: DiffItem) {
    d.changeType != "D" && d.bPath.Some? && d.bPath.value != [] && EndsWith(Lower(d.bPath.value), ".cs")
  }

  /** The project a changed C# file is filed under; an empty locator result counts as none. */
  function ProjectFor(d: DiffItem, locate: string -> Option<string>, posix: string -> string): (r: Option<string>)
    requires IsChangedSource(d)
    ensures r.Some? ==> r.value != [] && locate(posix(d.bPath.value)) == r
    ensures r.None? ==> locate(posix(d.bPath.value)).None? || locate(posix(d.bPath.value)) == Some([])
  {
    var found := locate(posix(d.bPath.value));
    if found.Some? && found.value != [] then found else None
  }

  /** `d` is a changed C# file filed under `project`. */
  predicate FiledUnder(d: DiffItem, project: string, locate: string -> Option<string>, posix: string -> string) {
    IsChangedSource(d) && ProjectFor(d, locate, posix) == Some(project)
  }

  /** The list the loop builds for `project`: the posix paths of the entries filed under it, in diff order. */
  function FilesFor(diff: seq<DiffItem>, project: string, locate: string -> Option<string>, posix: string -> string): seq<string>
  {
    if diff == [] then []
    else
      var d := diff[|diff| - 1];
      FilesFor(diff[..|diff| - 1], project, locate, posix)
        + (if FiledUnder(d, project, locate, posix) then [posix(d.bPath.value)] else [])
  }

  /** The keys of the resulting dictionary, in the order each project first received a file. */
  function ProjectsInOrder(diff: seq<DiffItem>, locate: string -> Option<string>, posix: string -> string): seq<string>
  {
    if diff == [] then []
    else
      var d := diff[|diff| - 1];
      var earlier := ProjectsInOrder(diff[..|diff| - 1], locate, posix);
      if IsChangedSource(d) && ProjectFor(d, locate, posix).Some? && ProjectFor(d, locate, posix).value !in earlier
      then earlier + [ProjectFor(d, locate, posix).value]
      else earlier
  }

  /** `changed_cs_files_count`: the number of changed C# files. */
  function CountChanged(diff: seq<DiffItem>): nat {
    if diff == [] then 0
    else CountChanged(diff[..|diff| - 1]) + (if IsChangedSource(diff[|diff| - 1]) then 1 else 0)
  }

  /** `project_not_found_count`: the number of changed C# files with no project. */
  function CountUnmapped(diff: seq<DiffItem>, locate: string -> Option<string>, posix: string -> string): nat {
    if diff == [] then 0
    else
      var d := diff[|diff| - 1];
      CountUnmapped(diff[..|diff| - 1], locate, posix)
        + (if IsChangedSource(d) && ProjectFor(d, locate, posix).None? then 1 else 0)
  }

  /** The number of files listed under the given projects. */
  function TotalListed(projects: seq<string>, changes: map<string, seq<string>>): nat
    requires forall p :: p in projects ==> p in changes
  {
    if projects == [] then 0
    else TotalListed(projects[..|projects| - 1], changes) + |changes[projects[|projects| - 1]]|
  }

  ghost predicate Distinct(projects: seq<string>) {
    forall a, b :: 0 <= a < b < |projects| ==> projects[a] != projects[b]
  }

  ghost predicate SameKeys(changes: map<string, seq<string>>, projects: seq<string>) {
    forall p :: p in changes <==> p in projects
  }

  /** Every list is the one specified for its project. */
  ghost predicate ListsMatch(diff: seq<DiffItem>, changes: map<string, seq<string>>,
                             locate: string -> Option<string>, posix: string -> string) {
    forall p :: p in changes ==> changes[p] == FilesFor(diff, p, locate, posix)
  }

  /** The state the loop has built after the entries `diff`, with the conservation of the counts. */
  ghost predicate Grouped(diff: seq<DiffItem>, projects: seq<string>, changes: map<string, seq<string>>,
                          changedCount: nat, notFoundCount: nat,
                          locate: string -> Option<string>, posix: string -> string)
  {
    && projects == ProjectsInOrder(diff, locate, posix)
    && Distinct(projects)
    && SameKeys(changes, projects)
    && ListsMatch(diff, changes, locate, posix)
    && changedCount == CountChanged(diff)
    && notFoundCount == CountUnmapped(diff, locate, posix)
    && changedCount == notFoundCount + TotalListed(projects, changes)
  }

  /**
   * The loop over the diff: each changed C# file is located and appended, in diff order,
   * to its project's list; files with no project are only counted.
   */
  method GroupChangesByProject(diff: seq<DiffItem>, locate: string -> Option<string>, posix: string -> string)
    returns (projects: seq<string>, changes: map<string, seq<string>>, changedCount: nat, notFoundCount: nat)
    ensures projects == ProjectsInOrder(diff, locate, posix) && Distinct(projects)
    ensures forall p :: p in changes <==> p in projects
    ensures forall p :: p in changes ==> changes[p] == FilesFor(diff, p, locate, posix)
    ensures changedCount == CountChanged(diff)
    ensures notFoundCount == CountUnmapped(diff, locate, posix)
    ensures changedCount == notFoundCount + TotalListed(projects, changes)
  {
    projects, changes, changedCount, notFoundCount := [], map[], 0, 0;
    for i := 0 to |diff|
      invariant Grouped(diff[..i], projects, changes, changedCount, notFoundCount, locate, posix)
    {
      var d := diff[i];
      ghost var projects0, changes0, changedCount0, notFoundCount0 := projects, changes, changedCount, notFoundCount;
      if d.changeType != "D" && d.bPath.Some? && d.bPath.value != [] && EndsWith(Lower(d.bPath.value), ".cs") {
        assert IsChangedSource(d);
        var path := posix(d.bPath.value);
        var project := locate(path);
        if project.Some? && project.value != [] {
          var p := project.value;
          assert ProjectFor(d, locate, posix) == Some(p);
          if p in changes {
            changes := changes[p := changes[p] + [path]];
          } else {
            changes := changes[p := [path]];
            projects := projects + [p];
          }
        } else {
          assert ProjectFor(d, locate, posix).None?;
          notFoundCount := notFoundCount + 1;
        }
        changedCount := changedCount + 1;
      }
      GroupStep(diff, i, projects0, changes0, changedCount0, notFoundCount0,
                projects, changes, changedCount, notFoundCount, locate, posix);
    }
    GroupedAll(diff, projects, changes, changedCount, notFoundCount, locate, posix);
  }

  /** Once every entry is taken in, the grouping is the specified one. */
  lemma GroupedAll(diff: seq<DiffItem>, projects: seq<string>, changes: map<string, seq<string>>,
                   changedCount: nat, notFoundCount: nat, locate: string -> Option<string>, posix: string -> string)
    requires Grouped(diff[..|diff|], projects, changes, changedCount, notFoundCount, locate, posix)
    ensures projects == ProjectsInOrder(diff, locate, posix) && Distinct(projects)
    ensures forall p :: p in changes <==> p in projects
    ensures forall p :: p in changes ==> changes[p] == FilesFor(diff, p, locate, posix)
    ensures changedCount == CountChanged(diff)
    ensures notFoundCount == CountUnmapped(diff, locate, posix)
    ensures changedCount == notFoundCount + TotalListed(projects, changes)
  {
    assert diff[..|diff|] == diff;
  }

  /** How one entry `d` changes the grouping, in terms of the specification. */
  ghost predicate Takes(d: DiffItem, projects: seq<string>, changes: map<string, seq<string>>,
                        changedCount: nat, notFoundCount: nat,
                        projects': seq<string>, changes': map<string, seq<string>>,
                        changedCount': nat, notFoundCount': nat,
                        locate: string -> Option<string>, posix: string -> string)
  {
    if !IsChangedSource(d) then
      projects' == projects && changes' == changes && changedCount' == changedCount && notFoundCount' == notFoundCount
    else match ProjectFor(d, locate, posix)
      case None =>
        && projects' == projects && changes' == changes
        && changedCount' == changedCount + 1 && notFoundCount' == notFoundCount + 1
      case Some(p) =>
        && changedCount' == changedCount + 1 && notFoundCount' == notFoundCount
        && (p in changes ==> projects' == projects && changes' == changes[p := changes[p] + [posix(d.bPath.value)]])
        && (p !in changes ==> projects' == projects + [p] && changes' == changes[p := [posix(d.bPath.value)]])
  }

  /** One iteration of `GroupChangesByProject`. */
  lemma GroupStep(diff: seq<DiffItem>, i: nat, projects: seq<string>, changes: map<string, seq<string>>,
                  changedCount: nat, notFoundCount: nat,
                  projects': seq<string>, changes': map<string, seq<string>>,
                  changedCount': nat, notFoundCount': nat,
                  locate: string -> Option<string>, posix: string -> string)
    requires i < |diff|
    requires Grouped(diff[..i], projects, changes, changedCount, notFoundCount, locate, posix)
    requires Takes(diff[i], projects, changes, changedCount, notFoundCount,
                   projects', changes', changedCount', notFoundCount', locate, posix)
    ensures Grouped(diff[..i + 1], projects', changes', changedCount', notFoundCount', locate, posix)
  {
    var d := diff[i];
    assert diff[..i + 1] == diff[..i] + [d];
    if !IsChangedSource(d) {
      SkippedStep(diff[..i], d, projects, changes, changedCount, notFoundCount, locate, posix);
    } else if ProjectFor(d, locate, posix).None? {
      UnmappedStep(diff[..i], d, projects, changes, changedCount, notFoundCount, locate, posix);
    } else if ProjectFor(d, locate, posix).value in changes {
      KnownProjectStep(diff[..i], d, projects, changes, changedCount, notFoundCount, locate, posix);
    } else {
      NewProjectStep(diff[..i], d, projects, changes, changedCount, notFoundCount, locate, posix);
    }
  }

  /** An entry that is not a changed C# file changes nothing. */
  lemma SkippedStep(diff: seq<DiffItem>, d: DiffItem, projects: seq<string>, changes: map<string, seq<string>>,
                    changedCount: nat, notFoundCount: nat, locate: string -> Option<string>, posix: string -> string)
    requires Grouped(diff, projects, changes, changedCount, notFoundCount, locate, posix)
    requires !IsChangedSource(d)
    ensures Grouped(diff + [d], projects, changes, changedCount, notFoundCount, locate, posix)
  {
    assert (diff + [d])[..|diff|] == diff;
  }

  /** A changed C# file with no project is counted as not found. */
  lemma UnmappedStep(diff: seq<DiffItem>, d: DiffItem, projects: seq<string>, changes: map<string, seq<string>>,
                     changedCount: nat, notFoundCount: nat, locate: string -> Option<string>, posix: string -> string)
    requires Grouped(diff, projects, changes, changedCount, notFoundCount, locate, posix)
    requires IsChangedSource(d) && ProjectFor(d, locate, posix).None?
    ensures Grouped(diff + [d], projects, changes, changedCount + 1, notFoundCount + 1, locate, posix)
  {
    assert (diff + [d])[..|diff|] == diff;
  }

  /** A file of a project already listed is appended to that project's list. */
  lemma KnownProjectStep(diff: seq<DiffItem>, d: DiffItem, projects: seq<string>, changes: map<string, seq<string>>,
                         changedCount: nat, notFoundCount: nat, locate: string -> Option<string>, posix: string -> string)
    requires Grouped(diff, projects, changes, changedCount, notFoundCount, locate, posix)
    requires IsChangedSource(d) && ProjectFor(d, locate, posix).Some?
    requires ProjectFor(d, locate, posix).value in changes
    ensures var p := ProjectFor(d, locate, posix).value;
            Grouped(diff + [d], projects, changes[p := changes[p] + [posix(d.bPath.value)]],
                    changedCount + 1, notFoundCount, locate, posix)
  {
    var p := ProjectFor(d, locate, posix).value;
    var path := posix(d.bPath.value);
    var updated := changes[p := changes[p] + [path]];
    AppendUnfolds(diff, d, locate, posix);
    assert ProjectsInOrder(diff + [d], locate, posix) == projects;
    FilesAfterFiling(diff, d, changes, p, updated, locate, posix);
    TotalListedAppend(projects, changes, p, path);
    assert TotalListed(projects, updated) == TotalListed(projects, changes) + 1;
    assert SameKeys(updated, projects);
  }

  /** How each spec function takes in one more entry. */
  lemma AppendUnfolds(diff: seq<DiffItem>, d: DiffItem, locate: string -> Option<string>, posix: string -> string)
    ensures ProjectsInOrder(diff + [d], locate, posix) ==
      var earlier := ProjectsInOrder(diff, locate, posix);
      if IsChangedSource(d) && ProjectFor(d, locate, posix).Some? && ProjectFor(d, locate, posix).value !in earlier
      then earlier + [ProjectFor(d, locate, posix).value]
      else earlier
    ensures CountChanged(diff + [d]) == CountChanged(diff) + (if IsChangedSource(d) then 1 else 0)
    ensures CountUnmapped(diff + [d], locate, posix) ==
      CountUnmapped(diff, locate, posix) + (if IsChangedSource(d) && ProjectFor(d, locate, posix).None? then 1 else 0)
    ensures forall q :: (FilesFor(diff + [d], q, locate, posix) ==
      FilesFor(diff, q, locate, posix) + (if FiledUnder(d, q, locate, posix) then [posix(d.bPath.value)] else []))
  {
    assert (diff + [d])[..|diff|] == diff;
  }

  /** Filing the entry's path under `p` keeps every list equal to its specification. */
  lemma FilesAfterFiling(diff: seq<DiffItem>, d: DiffItem, changes: map<string, seq<string>>, p: string,
                         updated: map<string, seq<string>>, locate: string -> Option<string>, posix: string -> string)
    requires IsChangedSource(d) && ProjectFor(d, locate, posix) == Some(p)
    requires ListsMatch(diff, changes, locate, posix)
    requires updated == changes[p := FilesFor(diff, p, locate, posix) + [posix(d.bPath.value)]]
    ensures ListsMatch(diff + [d], updated, locate, posix)
  {
    AppendUnfolds(diff, d, locate, posix);
  }

  /** The first file of a project adds the project as the last key. */
  lemma NewProjectStep(diff: seq<DiffItem>, d: DiffItem, projects: seq<string>, changes: map<string, seq<string>>,
                       changedCount: nat, notFoundCount: nat, locate: string -> Option<string>, posix: string -> string)
    requires Grouped(diff, projects, changes, changedCount, notFoundCount, locate, posix)
    requires IsChangedSource(d) && ProjectFor(d, locate, posix).Some?
    requires ProjectFor(d, locate, posix).value !in changes
    ensures var p := ProjectFor(d, locate, posix).value;
            Grouped(diff + [d], projects + [p], changes[p := [posix(d.bPath.value)]],
                    changedCount + 1, notFoundCount, locate, posix)
  {
    var p := ProjectFor(d, locate, posix).value;
    var path := posix(d.bPath.value);
    var updated := changes[p := [path]];
    AppendUnfolds(diff, d, locate, posix);
    UnlistedProjectHasNoFiles(diff, p, locate, posix);
    assert FilesFor(diff, p, locate, posix) + [path] == [path];
    FilesAfterFiling(diff, d, changes, p, updated, locate, posix);
    TotalListedUnchanged(projects, changes, p, [path]);
    assert (projects + [p])[..|projects|] == projects;
    assert TotalListed(projects + [p], updated) == TotalListed(projects, updated) + 1;
    DistinctAppend(projects, p);
    assert SameKeys(updated, projects + [p]);
  }

  lemma DistinctAppend(projects: seq<string>, p: string)
    requires Distinct(projects) && p !in projects
    ensures Distinct(projects + [p])
  {
  }

  lemma {:induction false} TotalListedUnchanged(projects: seq<string>, changes: map<string, seq<string>>, p: string, files: seq<string>)
    requires forall q :: q in projects ==> q in changes
    requires p !in projects
    ensures TotalListed(projects, changes[p := files]) == TotalListed(projects, changes)
  {
    if projects != [] {
      TotalListedUnchanged(projects[..|projects| - 1], changes, p, files);
    }
  }

  lemma {:induction false} TotalListedAppend(projects: seq<string>, changes: map<string, seq<string>>, p: string, f: string)
    requires forall q :: q in projects ==> q in changes
    requires p in projects && p in changes
    requires Distinct(projects)
    ensures TotalListed(projects, changes[p := changes[p] + [f]]) == TotalListed(projects, changes) + 1
  {
    var init := projects[..|projects| - 1];
    var last := projects[|projects| - 1];
    if last == p {
      assert p !in init;
      TotalListedUnchanged(init, changes, p, changes[p] + [f]);
    } else {
      TotalListedAppend(init, changes, p, f);
    }
  }

  /** A project that never received a file has an empty list. */
  lemma {:induction false} UnlistedProjectHasNoFiles(diff: seq<DiffItem>, p: string, locate: string -> Option<string>, posix: string -> string)
    requires p !in ProjectsInOrder(diff, locate, posix)
    ensures FilesFor(diff, p, locate, posix) == []
  {
    if diff != [] {
      UnlistedProjectHasNoFiles(diff[..|diff| - 1], p, locate, posix);
    }
  }

  /**
   * A path is listed under `project` exactly when some entry of the diff is a changed
   * C# file (not a deletion, ending in `.cs`) that the locator filed under `project`.
   */
  lemma {:induction false} ListedIffFiled(diff: seq<DiffItem>, project: string, f: string,
                                          locate: string -> Option<string>, posix: string -> string)
    ensures f in FilesFor(diff, project, locate, posix) <==>
      exists i :: 0 <= i < |diff| && FiledUnder(diff[i], project, locate, posix) && posix(diff[i].bPath.value) == f
  {
    if diff != [] {
      var init := diff[..|diff| - 1];
      ListedIffFiled(init, project, f, locate, posix);
      if exists i :: 0 <= i < |diff| && FiledUnder(diff[i], project, locate, posix) && posix(diff[i].bPath.value) == f {
        var i :| 0 <= i < |diff| && FiledUnder(diff[i], project, locate, posix) && posix(diff[i].bPath.value) == f;
        if i < |init| {
          assert init[i] == diff[i];
        }
      }
      if exists i :: 0 <= i < |init| && FiledUnder(init[i], project, locate, posix) && posix(init[i].bPath.value) == f {
        var i :| 0 <= i < |init| && FiledUnder(init[i], project, locate, posix) && posix(init[i].bPath.value) == f;
        assert diff[i] == init[i];
      }
    }
  }

  /** A project is a key of the result exactly when some changed C# file was filed under it. */
  lemma {:induction false} KeyIffSomeFileFiled(diff: seq<DiffItem>, project: string,
                                               locate: string -> Option<string>, posix: string -> string)
    ensures project in ProjectsInOrder(diff, locate, posix) <==>
      exists i :: 0 <= i < |diff| && FiledUnder(diff[i], project, locate, posix)
  {
    if diff != [] {
      var init := diff[..|diff| - 1];
      KeyIffSomeFileFiled(init, project, locate, posix);
      if exists i :: 0 <= i < |diff| && FiledUnder(diff[i], project, locate, posix) {
        var i :| 0 <= i < |diff| && FiledUnder(diff[i], project, locate, posix);
        if i < |init| {
          assert init[i] == diff[i];
        }
      }
      if exists i :: 0 <= i < |init| && FiledUnder(init[i], project, locate, posix) {
        var i :| 0 <= i < |init| && FiledUnder(init[i], project, locate, posix);
        assert diff[i] == init[i];
      }
    }
  }
}
