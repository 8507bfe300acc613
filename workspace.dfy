/**
 * The working tree as `derive_namespace` and the reference check of `find_consumers`
 * see it: project manifests as already-parsed values, file listings and file texts.
 *
 * XML parsing is not modelled: a manifest reaches the model as the elements the
 * ElementTree queries would find, or as `Unparsable` when parsing raises.
 */
module Workspace {
  import opened Text
  import opened Wrappers
  import opened Paths

  /** An element found by `root.find(...)`, with its text (`None` for an empty element). */
  datatype Element = Element(text: Option<string>)

  /** The two lookups of one tag: in the MSBuild XML namespace, then without a namespace. */
  datatype TagLookup = TagLookup(namespaced: Option<Element>, plain: Option<Element>)

  /** A `<ProjectReference>` element and its `Include` attribute, if any. */
  datatype Reference = Reference(includeValue: Option<string>)

  /** What the queries find in a parsed `.csproj`. */
  datatype Manifest = Manifest(
    rootNamespace: TagLookup,
    assemblyName: TagLookup,
    namespacedRefs: seq<Reference>,  // `.//msb:ProjectReference`, in document order
    plainRefs: seq<Reference>)       // `.//ProjectReference`, in document order

  datatype ManifestFile = Unparsable | Parsed(manifest: Manifest)

  /**
   * The filesystem: `canon` is `Path.resolve()`, `existing` the paths that exist,
   * `manifests` the project files (each a regular file), `listings` what
   * `rglob('*.cs')` yields under a directory (a missing directory raises), and
   * `contents` the text of each readable file.
   */
  datatype Env = Env(
    canon: Path -> Path,
    existing: set<Path>,
    manifests: map<Path, ManifestFile>,
    listings: map<Path, seq<Path>>,
    contents: map<Path, string>)

  /** The element used for a tag: the namespaced one when present, else the plain one. */
  function TagElement(t: TagLookup): Option<Element> {
    if t.namespaced.Some? then t.namespaced else t.plain
  }

  /** The tag's value: the element's stripped text, when that is not empty. */
  function TagValue(t: TagLookup): (r: Option<string>)
    ensures r.Some? ==> r.value != [] && !IsSpace(r.value[0]) && !IsSpace(r.value[|r.value| - 1])
  {
    var e := TagElement(t);
    if e.Some? && e.value.text.Some? && e.value.text.value != [] && Strip(e.value.text.value) != []
    then Some(Strip(e.value.text.value))
    else None
  }

  /** The loop over `tags_to_check`: the value of the first tag that has one. */
  function FirstTagValue(tags: seq<TagLookup>): Option<string> {
    if tags == [] then None
    else if TagValue(tags[0]).Some? then TagValue(tags[0])
    else FirstTagValue(tags[1..])
  }

  /**
   * `derive_namespace`: `None` when the path is not a project file or does not parse;
   * otherwise the first non-empty of `<RootNamespace>` and `<AssemblyName>`, falling
   * back to the file's stem.
   */
  function DeriveNamespace(env: Env, project: Path): Option<string> {
    if project !in env.manifests then None
    else match env.manifests[project]
      case Unparsable => None
      case Parsed(m) =>
        match FirstTagValue([m.rootNamespace, m.assemblyName])
        case Some(v) => Some(v)
        case None => Some(Stem(Name(project)))
  }

  /** The first tag with a value wins: every earlier tag has none. */
  lemma {:induction false} FirstTagValueIsFirstNonEmpty(tags: seq<TagLookup>)
    ensures FirstTagValue(tags).None? <==> forall i :: 0 <= i < |tags| ==> TagValue(tags[i]).None?
    ensures FirstTagValue(tags).Some? ==>
      exists i :: 0 <= i < |tags| && FirstTagValue(tags) == TagValue(tags[i])
                  && forall j :: 0 <= j < i ==> TagValue(tags[j]).None?
  {
    if tags != [] && TagValue(tags[0]).None? {
      var rest := tags[1..];
      FirstTagValueIsFirstNonEmpty(rest);
      if FirstTagValue(rest).Some? {
        var i :| 0 <= i < |rest| && FirstTagValue(rest) == TagValue(rest[i])
                 && forall j :: 0 <= j < i ==> TagValue(rest[j]).None?;
        assert tags[i + 1] == rest[i];
        assert forall j :: 1 <= j < i + 1 ==> tags[j] == rest[j - 1];
      } else {
        assert forall i :: 1 <= i < |tags| ==> tags[i] == rest[i - 1];
      }
    }
  }

  /**
   * The namespace precedence: `<RootNamespace>` over `<AssemblyName>` over the file
   * stem; no namespace for a missing or unparsable file.
   */
  lemma DeriveNamespacePrecedence(env: Env, project: Path)
    ensures DeriveNamespace(env, project).None? <==>
      project !in env.manifests || env.manifests[project].Unparsable?
    ensures project in env.manifests && env.manifests[project].Parsed? ==>
      var m := env.manifests[project].manifest;
      DeriveNamespace(env, project) ==
        if TagValue(m.rootNamespace).Some? then TagValue(m.rootNamespace)
        else if TagValue(m.assemblyName).Some? then TagValue(m.assemblyName)
        else Some(Stem(Name(project)))
  {
    if project in env.manifests && env.manifests[project].Parsed? {
      var m := env.manifests[project].manifest;
      var tags := [m.rootNamespace, m.assemblyName];
      FirstTagValueIsFirstNonEmpty(tags);
      assert tags[1..][1..] == [];
    }
  }

  /** The references examined: the namespaced ones, or the plain ones when there are none. */
  function SelectedReferences(m: Manifest): seq<Reference> {
    if m.namespacedRefs != [] then m.namespacedRefs else m.plainRefs
  }

  /** An `Include` naming an MSBuild property, which the check skips. */
  predicate NamesProperty(text: string) {
    Contains(text, "$(") && Contains(text, ")")
  }

  /**
   * The resolved path of an `Include` value relative to the consumer's directory,
   * after backslashes become slashes; `None` when the value is skipped.
   */
  function ResolveInclude(env: Env, consumer: Path, value: Option<string>): Option<Path> {
    if value.None? || value.value == [] then None
    else
      var normalised := ReplaceChar(value.value, '\\', '/');
      if NamesProperty(normalised) then None
      else Some(env.canon(Join(Parent(consumer), normalised)))
  }

  /** A Windows-style `Include` resolves exactly as the same value written with `/`. */
  lemma BackslashesReadAsSlashes(env: Env, consumer: Path, value: string)
    ensures ResolveInclude(env, consumer, Some(value)) ==
            ResolveInclude(env, consumer, Some(ReplaceChar(value, '\\', '/')))
  {
    var normalised := ReplaceChar(value, '\\', '/');
    assert ReplaceChar(normalised, '\\', '/') == normalised;
  }

  /** `a.samefile(b)` for existing paths: both resolve to the same file. */
  predicate SameFile(env: Env, a: Path, b: Path) {
    env.canon(a) == env.canon(b)
  }

  /** The reference resolves to an existing path that is the target file. */
  predicate PointsAt(env: Env, consumer: Path, ref: Reference, target: Path) {
    var resolved := ResolveInclude(env, consumer, ref.includeValue);
    && resolved.Some?
    && resolved.value in env.existing
    && target in env.existing
    && SameFile(env, resolved.value, target)
  }

  /** The consumer's manifest parses and one of its selected references points at the target. */
  predicate RefersTo(env: Env, consumer: Path, target: Path) {
    && consumer in env.manifests
    && env.manifests[consumer].Parsed?
    && var refs := SelectedReferences(env.manifests[consumer].manifest);
       exists i | 0 <= i < |refs| :: PointsAt(env, consumer, refs[i], target)
  }

  /** The reference loop of step 2: stops at the first reference that points at the target. */
  method ReferencesTarget(env: Env, consumer: Path, target: Path) returns (found: bool)
    ensures found <==> RefersTo(env, consumer, target)
  {
    found := false;
    if consumer !in env.manifests || env.manifests[consumer].Unparsable? {
      return;  // the parse error is caught and the consumer skipped
    }
    var refs := SelectedReferences(env.manifests[consumer].manifest);
    var i := 0;
    while i < |refs|
      invariant 0 <= i <= |refs|
      invariant !found
      invariant forall j :: 0 <= j < i ==> !PointsAt(env, consumer, refs[j], target)
    {
      var includeValue := refs[i].includeValue;
      if includeValue.Some? && includeValue.value != [] {
        var normalised := ReplaceChar(includeValue.value, '\\', '/');
        if !(Contains(normalised, "$(") && Contains(normalised, ")")) {
          var resolved := env.canon(Join(Parent(consumer), normalised));
          if resolved in env.existing && target in env.existing && env.canon(resolved) == env.canon(target) {
            assert PointsAt(env, consumer, refs[i], target);
            found := true;
            break;
          }
        }
      }
      i := i + 1;
    }
  }

  /** A project with both tags set takes its namespace from `<RootNamespace>`, stripped. */
  lemma RootNamespaceExample(env: Env, project: Path)
    requires project in env.manifests
    requires env.manifests[project] == Parsed(Manifest(
      TagLookup(Some(Element(Some(" Contoso.Widgets\n"))), None),
      TagLookup(None, Some(Element(Some("Widgets")))),
      [], []))
    ensures DeriveNamespace(env, project) == Some("Contoso.Widgets")
  {
    var text := " Contoso.Widgets\n";
    assert TrimStart(text) == text[1..];
    assert TrimEnd(text[1..]) == "Contoso.Widgets";
  }
}
