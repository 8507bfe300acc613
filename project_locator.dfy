/**
 * The project-file locator over a commit tree (`find_project_file`).
 *
 * A commit's tree is a value: each entry has its stored name and a kind. A repository
 * path is the sequence of its components, the repository root (`.`) being `[]`.
 */
module ProjectLocator {
  import opened Text
  import opened Wrappers
  import opened Paths

  /** The object types GitPython reports for tree entries. */
  datatype Kind =
    | SubTree(tree: Tree)      // 'tree'
    | Blob                     // 'blob'
    | Submodule                // 'commit': a nested repository
    | OtherKind(name: string)  // any other type

  datatype Item = Item(name: string, kind: Kind)

  /** A tree's entries in the order iterating the tree yields them. */
  datatype Tree = Tree(items: seq<Item>)

  /** A blob whose lower-cased name ends in `.csproj`. */
  predicate IsProjectBlob(item: Item) {
    item.kind.Blob? && EndsWith(Lower(item.name), ".csproj")
  }

  /** The first entry whose name equals `part` ignoring case, as the navigation loop finds it. */
  function FindChild(items: seq<Item>, part: string): (r: Option<nat>)
    ensures r.Some? ==> r.value < |items| && Lower(items[r.value].name) == Lower(part)
    ensures r.Some? ==> forall j :: 0 <= j < r.value ==> Lower(items[j].name) != Lower(part)
    ensures r.None? ==> forall j :: 0 <= j < |items| ==> Lower(items[j].name) != Lower(part)
  {
    if items == [] then None
    else if Lower(items[0].name) == Lower(part) then Some(0)
    else match FindChild(items[1..], part)
      case None => None
      case Some(i) => Some(i + 1)
  }

  /**
   * Walking `parts` down from `tree`: each component must name (ignoring case) a
   * non-empty sub-tree; a missing component, a blob, a submodule or any other kind ends
   * the walk. An empty sub-tree ends it too: a tree with no entries is falsy, so the
   * `if found_item:` test takes the not-found branch.
   */
  function Navigate(tree: Tree, parts: Path): Option<Tree>
    decreases |parts|
  {
    if parts == [] then Some(tree)
    else match FindChild(tree.items, parts[0])
      case None => None
      case Some(i) =>
        match tree.items[i].kind
        case SubTree(sub) => if sub.items == [] then None else Navigate(sub, parts[1..])
        case _ => None
  }

  /** The stored name of the first project blob among `items`, in tree order. */
  function FirstProject(items: seq<Item>): (r: Option<string>)
    ensures r.Some? ==> exists i :: 0 <= i < |items| && IsProjectBlob(items[i]) && items[i].name == r.value
                                    && forall j :: 0 <= j < i ==> !IsProjectBlob(items[j])
    ensures r.None? ==> forall i :: 0 <= i < |items| ==> !IsProjectBlob(items[i])
  {
    if items == [] then None
    else if IsProjectBlob(items[0]) then Some(items[0].name)
    else
      var r := FirstProject(items[1..]);
      assert forall i :: 1 <= i < |items| ==> items[i] == items[1..][i - 1];
      r
  }

  /**
   * The upward search, one directory at a time: re-navigate from the root, stop the
   * whole search if that fails, else take the directory's first project blob, else go
   * to the parent unless this was the root.
   */
  function Locate(root: Tree, dir: Path): Option<Path>
    decreases |dir|
  {
    match Navigate(root, dir)
    case None => None
    case Some(t) =>
      match FirstProject(t.items)
      case Some(name) => Some(dir + [name])
      case None => if dir == [] then None else Locate(root, Parent(dir))
  }

  /** `dir` can be reached from the root and holds no project blob. */
  ghost predicate NoProjectAt(root: Tree, dir: Path) {
    Navigate(root, dir).Some? && FirstProject(Navigate(root, dir).value.items).None?
  }

  /**
   * `dir[..k] + [name]` is what the upward walk from `dir` finds: the ancestor `dir[..k]`
   * is reachable, `name` is its first project blob, and every deeper directory on the
   * walk was reachable and held none.
   */
  ghost predicate NearestProject(root: Tree, dir: Path, k: nat, name: string) {
    && k <= |dir|
    && Navigate(root, dir[..k]).Some?
    && FirstProject(Navigate(root, dir[..k]).value.items) == Some(name)
    && forall j :: k < j <= |dir| ==> NoProjectAt(root, dir[..j])
  }

  /** The inner `for item in temp_tree` loop: the first entry matching `part` ignoring case. */
  method FindChildItem(tree: Tree, part: string) returns (found: Option<nat>)
    ensures found == FindChild(tree.items, part)
  {
    found := None;
    var i := 0;
    while i < |tree.items|
      invariant 0 <= i <= |tree.items|
      invariant forall j :: 0 <= j < i ==> Lower(tree.items[j].name) != Lower(part)
    {
      if Lower(tree.items[i].name) == Lower(part) {
        found := Some(i);
        return;
      }
      i := i + 1;
    }
  }

  /** The `for item in current_tree.blobs` loop: the first blob named like a project file. */
  method FirstProjectBlob(tree: Tree) returns (name: Option<string>)
    ensures name == FirstProject(tree.items)
  {
    name := None;
    var i := 0;
    while i < |tree.items|
      invariant 0 <= i <= |tree.items|
      invariant forall j :: 0 <= j < i ==> !IsProjectBlob(tree.items[j])
    {
      var item := tree.items[i];
      if item.kind.Blob? && EndsWith(Lower(item.name), ".csproj") {
        name := Some(item.name);
        return;
      }
      i := i + 1;
    }
  }

  /**
   * `find_project_file`: the project file governing the source file at `file`, searched
   * upwards from the file's directory in the commit tree `root`.
   */
  method FindProjectFile(root: Tree, file: Path) returns (project: Option<Path>)
    ensures project == Locate(root, Parent(file))
  {
    var current := Parent(file);
    project := None;
    while true
      invariant Locate(root, current) == Locate(root, Parent(file))
      decreases |current|
    {
      var tree := root;
      if current != [] {
        var reached := true;
        var i := 0;
        while i < |current|
          invariant 0 <= i <= |current|
          invariant Navigate(root, current) == Navigate(tree, current[i..])
        {
          var found := FindChildItem(tree, current[i]);
          if found.None? {
            // the component is missing
            reached := false;
            break;
          }
          match tree.items[found.value].kind {
            case SubTree(sub) =>
              if sub.items == [] {
                reached := false;                   // an empty tree is falsy: not found
              } else {
                tree := sub;
              }
            case Blob => reached := false;          // a file: cannot descend
            case Submodule => reached := false;     // a submodule commit
            case OtherKind(_) => reached := false;  // an unexpected object type
          }
          if !reached {
            break;
          }
          i := i + 1;
        }
        if !reached {
          // navigation failed: the whole upward search stops
          assert Navigate(root, current) == None;
          break;
        }
        assert current[i..] == [];
      }
      var name := FirstProjectBlob(tree);
      if name.Some? {
        project := Some(current + [name.value]);
        return;
      }
      if current == [] {
        break;
      }
      current := Parent(current);
    }
  }

  /** A successful walk passes only through reachable directories. */
  lemma {:induction false} NavigatePrefix(tree: Tree, dir: Path, k: nat)
    requires k <= |dir|
    requires Navigate(tree, dir).Some?
    ensures Navigate(tree, dir[..k]).Some?
    decreases |dir|
  {
    if k > 0 {
      var i := FindChild(tree.items, dir[0]).value;
      var sub := tree.items[i].kind.tree;
      NavigatePrefix(sub, dir[1..], k - 1);
      assert dir[..k][1..] == dir[1..][..k - 1];
    }
  }

  /** Soundness: what the search returns is the nearest ancestor's first project blob. */
  lemma {:induction false} LocateFindsNearest(root: Tree, dir: Path)
    requires Locate(root, dir).Some?
    ensures exists k: nat, name :: NearestProject(root, dir, k, name) && Locate(root, dir) == Some(dir[..k] + [name])
    decreases |dir|
  {
    var t := Navigate(root, dir).value;
    assert dir[..|dir|] == dir;
    match FirstProject(t.items)
    case Some(name) =>
      assert NearestProject(root, dir, |dir|, name);
    case None =>
      var parent := Parent(dir);
      LocateFindsNearest(root, parent);
      var k: nat, name :| NearestProject(root, parent, k, name) && Locate(root, parent) == Some(parent[..k] + [name]);
      assert NoProjectAt(root, dir);
      NearestProjectExtends(root, dir, k, name);
  }

  /** A directory without a project keeps its parent's nearest project. */
  lemma NearestProjectExtends(root: Tree, dir: Path, k: nat, name: string)
    requires dir != [] && NoProjectAt(root, dir)
    requires NearestProject(root, Parent(dir), k, name)
    ensures NearestProject(root, dir, k, name)
    ensures Parent(dir)[..k] == dir[..k]
  {
    var parent := Parent(dir);
    assert parent[..k] == dir[..k];
    forall j | k < j <= |dir|
      ensures NoProjectAt(root, dir[..j])
    {
      if j < |dir| {
        assert dir[..j] == parent[..j];
      } else {
        assert dir[..j] == dir;
      }
    }
  }

  /** Completeness: the nearest ancestor holding a project blob is the one returned. */
  lemma {:induction false} NearestProjectIsFound(root: Tree, dir: Path, k: nat, name: string)
    requires NearestProject(root, dir, k, name)
    ensures Locate(root, dir) == Some(dir[..k] + [name])
    decreases |dir|
  {
    assert dir[..|dir|] == dir;
    if k < |dir| {
      assert NoProjectAt(root, dir[..|dir|]);
      var parent := Parent(dir);
      assert parent[..k] == dir[..k];
      forall j | k < j <= |parent|
        ensures NoProjectAt(root, parent[..j])
      {
        assert parent[..j] == dir[..j];
      }
      NearestProjectIsFound(root, parent, k, name);
    }
  }

  /** When a reachable directory's search finds nothing, no directory up to the root holds a project blob. */
  lemma {:induction false} NothingFoundMeansNoProject(root: Tree, dir: Path)
    requires Navigate(root, dir).Some? && Locate(root, dir).None?
    ensures forall k :: 0 <= k <= |dir| ==> NoProjectAt(root, dir[..k])
    decreases |dir|
  {
    assert dir[..|dir|] == dir;
    if dir != [] {
      var parent := Parent(dir);
      NavigatePrefix(root, dir, |parent|);
      NothingFoundMeansNoProject(root, parent);
      forall k | 0 <= k < |dir|
        ensures NoProjectAt(root, dir[..k])
      {
        assert dir[..k] == parent[..k];
      }
    }
  }

  /**
   * The search finds nothing exactly when the file's directory cannot be reached in the
   * tree, or no directory from there up to the root holds a project blob. An unreachable
   * directory ends the search even when an ancestor holds a project.
   */
  lemma LocateNoneIff(root: Tree, dir: Path)
    ensures Locate(root, dir).None? <==>
      (Navigate(root, dir).None? || forall k :: 0 <= k <= |dir| ==> NoProjectAt(root, dir[..k]))
  {
    if Locate(root, dir).None? && Navigate(root, dir).Some? {
      NothingFoundMeansNoProject(root, dir);
    }
    if Locate(root, dir).Some? {
      LocateFindsNearest(root, dir);
    }
  }

  /** Navigation ignores case (`Src` is reached as `src`) and the walk climbs to the root's project. */
  lemma ClimbsToRootProject()
    ensures Locate(Tree([Item("App.csproj", Blob), Item("Src", SubTree(Tree([Item("Widget.cs", Blob)])))]), ["src"])
            == Some(["App.csproj"])
  {
    var lib := Tree([Item("Widget.cs", Blob)]);
    var root := Tree([Item("App.csproj", Blob), Item("Src", SubTree(lib))]);
    SourceFolderReached(root, lib);
    SourceFolderHasNoProject(lib);
    RootProjectFound(root, lib);
    assert Locate(root, []) == Some([] + ["App.csproj"]);
    assert [] + ["App.csproj"] == ["App.csproj"];
    assert Parent(["src"]) == [];
    assert Locate(root, ["src"]) == Locate(root, []);
  }

  lemma SourceFolderReached(root: Tree, lib: Tree)
    requires root == Tree([Item("App.csproj", Blob), Item("Src", SubTree(lib))]) && lib.items != []
    ensures Navigate(root, ["src"]) == Some(lib)
  {
    assert Lower("Src") == "src";
    assert Lower("App.csproj")[0] == 'a';
    assert FindChild(root.items, "src") == Some(1);
    assert Navigate(lib, []) == Some(lib);
  }

  lemma SourceFolderHasNoProject(lib: Tree)
    requires lib == Tree([Item("Widget.cs", Blob)])
    ensures FirstProject(lib.items) == None
  {
    assert Lower("Widget.cs")[2] == 'd';
  }

  lemma RootProjectFound(root: Tree, lib: Tree)
    requires root == Tree([Item("App.csproj", Blob), Item("Src", SubTree(lib))])
    ensures Navigate(root, []) == Some(root)
    ensures FirstProject(root.items) == Some("App.csproj")
  {
    var lowered := Lower("App.csproj");
    assert lowered[3..] == ".csproj";
    assert IsProjectBlob(root.items[0]);
  }

  /** An empty sub-tree on the way counts as missing, so nothing is found although the root holds `App.csproj`. */
  lemma EmptyFolderStopsSearch()
    ensures Locate(Tree([Item("App.csproj", Blob), Item("src", SubTree(Tree([])))]), ["src"]) == None
  {
    var root := Tree([Item("App.csproj", Blob), Item("src", SubTree(Tree([])))]);
    assert Lower("src") == "src";
    assert Lower("App.csproj")[0] == 'a';
    assert FindChild(root.items, "src") == Some(1);
  }

  /** When a component of the file's directory is a blob, nothing is found although the root holds `App.csproj`. */
  lemma BlobComponentStopsSearch()
    ensures Locate(Tree([Item("App.csproj", Blob), Item("src", Blob)]), ["src"]) == None
  {
    var flat := Tree([Item("App.csproj", Blob), Item("src", Blob)]);
    assert Lower("src") == "src";
    assert Lower("App.csproj")[0] == 'a';
    assert FindChild(flat.items, "src") == Some(1);
  }
}
