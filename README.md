# wex_scatter core, modelled in Dafny

wex_scatter finds the projects in a C# code base that may be affected by a change.
Given a target `.csproj`, it finds the *consumers* of that project: projects
whose `ProjectReference` points at it. It then narrows them, stage by stage, to
those whose C# files import the target's namespace, mention a given type and
call a given method. In branch mode it first groups the C# files changed on a
branch under the project that owns each one. It finds that project by walking
up the directory tree of the feature commit.

This model covers:

- `extract_type_names_from_content`, the normalisation of the captured type
  names (module `TypeNames`);
- `find_project_file`, the case-insensitive tree walk and the upward search for
  a `.csproj` blob (module `ProjectLocator`);
- the loop of `analyze_branch_changes` that groups changed `.cs` files by
  project and counts them (module `BranchChanges`);
- `derive_namespace` and the `ProjectReference` check of step 2 (module
  `Workspace`);
- the three search patterns, as predicates on file text (module `Patterns`);
- `find_consumers` with `format_results`, as a method over dictionaries
  (`keys` in insertion order plus a `map` of records). The method is proved
  equal to a functional *funnel* (module `Consumers`);
- the properties of that funnel (module `ConsumerProperties`). Every reported
  consumer refers to the target. With a reliable namespace, every reported
  file passed every applied test, and every file that passes them is
  reported. Results keep discovery order. The module also has the corrected funnel of the finding below.

The file system is the value `Workspace.Env`. It holds:

- `canon`, which plays the role of `resolve()`;
- the set of existing paths;
- the parsed project manifests;
- the `rglob('*.cs')` listing of each directory;
- the text of each readable file.

The git tree of the feature commit is the value `ProjectLocator.Tree`. The
regular-expression engine reaches the model in two ways. For type extraction,
the model receives the sequence of group-1 captures. For the consumer search,
each pattern is a predicate that states the positions where it matches.

Modules `Text` and `Paths` hold the Python string and `pathlib` operations the
core uses: `strip`, ASCII `lower`, `endswith`, `in`, `replace`, and pathlib's
`parent`, `name` and `stem`. Module `Wrappers` holds `Option`.

## Model

| member | source | states |
|---|---|---|
| `TypeNames.ExtractTypeNames` | scatter.py:37-52 | A name is in the result exactly when it is the non-empty normalised form of some capture, so duplicates collapse; every reported name is non-empty, has no `<` or `,`, and has no surrounding whitespace |
| `TypeNames.BaseName` | scatter.py:45-48 | The normalised capture is empty or a well-formed name |
| `TypeNames.DropGenericSuffixes` | scatter.py:46 | `re.sub(r'<.*', '')` leaves no `<` in the text |
| `TypeNames.SingleLineCutsAtFirstAngle` | scatter.py:46 | On a single line, removing generic suffixes keeps exactly the text before the first `<` |
| `TypeNames.BaseNameIdempotent` | scatter.py:45-48 | Normalising a reported name again changes nothing |
| `TypeNames.PlainCaptureExample` | scatter.py:45-49 | The capture `Foo` is reported as `Foo` |
| `ProjectLocator.FindChild` | scatter.py:89-94 | The index found is the first entry whose lower-cased name equals the lower-cased part; `None` means no entry matches |
| `ProjectLocator.FindChildItem` | scatter.py:89-94 | The lookup loop returns exactly `FindChild` |
| `ProjectLocator.FirstProject` | scatter.py:126-131 | The name returned is that of the first blob whose lower-cased name ends in `.csproj`; `None` means there is no such blob |
| `ProjectLocator.FirstProjectBlob` | scatter.py:126-131 | The blob loop returns exactly `FirstProject` |
| `ProjectLocator.FindProjectFile` | scatter.py:56-157 | The upward search from the file's parent directory returns `Locate(root, Parent(file))` |
| `ProjectLocator.LocateFindsNearest` | scatter.py:64-151 | Soundness: a project found is `dir[..k] + [name]`, where `name` is the first project blob of the reachable ancestor `dir[..k]` and every deeper directory on the walk was reachable and held none |
| `ProjectLocator.NearestProjectIsFound` | scatter.py:64-151 | Completeness: when an ancestor is the nearest one holding a project blob, the search returns that blob's path |
| `ProjectLocator.NothingFoundMeansNoProject` | scatter.py:120-147 | When the start directory is reachable and nothing is found, no directory on the walk up to the root holds a project blob |
| `ProjectLocator.LocateNoneIff` | scatter.py:64-157 | The search returns `None` exactly when the start directory cannot be reached, or no directory from it up to the root holds a project blob |
| `ProjectLocator.ClimbsToRootProject` | scatter.py:89-145 | From `src/Widget.cs`, the search matches `Src` ignoring case, finds no project there, climbs to the root and returns `App.csproj` |
| `ProjectLocator.BlobComponentStopsSearch` | scatter.py:99-101 | A path component that names a blob ends the search with `None`, even though the root holds a project |
| `ProjectLocator.EmptyFolderStopsSearch` | scatter.py:96-112 | An empty sub-tree on the way is falsy, so it is treated as not found and the search ends with `None`, even though the root holds a project |
| `BranchChanges.ProjectFor` | scatter.py:200-207 | A project is reported only as a non-empty locator result; an empty or missing result counts as unmapped |
| `BranchChanges.GroupChangesByProject` | scatter.py:196-208 | The keys are the distinct projects in first-seen order; each key's list is the posix paths of the changed, non-deleted `.cs` entries filed under it, in diff order; the two counters count changed files and unmapped files; changed = unmapped + total listed |
| `BranchChanges.ListedIffFiled` | scatter.py:198-205 | A path is in a project's list exactly when some changed `.cs` entry with that posix path is filed under the project |
| `BranchChanges.KeyIffSomeFileFiled` | scatter.py:198-205 | A project is a key exactly when some changed `.cs` entry is filed under it |
| `BranchChanges.UnlistedProjectHasNoFiles` | scatter.py:205 | A project that is not a key has an empty list |
| `Workspace.TagValue` | scatter.py:252-259 | A tag's value, when there is one, is non-empty text with no whitespace at either end |
| `Workspace.FirstTagValueIsFirstNonEmpty` | scatter.py:251-260 | The first tag with a value wins, and every earlier tag has none; there is no result exactly when no tag has a value |
| `Workspace.DeriveNamespacePrecedence` | scatter.py:236-271 | `DeriveNamespace` gives `None` exactly when the project file is missing or does not parse; otherwise `<RootNamespace>`, then `<AssemblyName>`, then the file's stem |
| `Workspace.RootNamespaceExample` | scatter.py:249-260 | A padded `<RootNamespace>` wins over `<AssemblyName>` and is returned stripped |
| `Workspace.BackslashesReadAsSlashes` | scatter.py:424-425 | An `Include` written with backslashes resolves exactly as the same value written with slashes |
| `Workspace.ReferencesTarget` | scatter.py:414-446 | True exactly when the consumer's manifest parses and one of its selected references points at the target. The namespaced references are selected when there are any, otherwise the plain ones. A reference points at the target when its `Include` is non-empty, names no MSBuild property, resolves to an existing path, and that path is the same file as the existing target |
| `Text.ReplaceChar` | scatter.py:425 | `str.replace` of one character: the same length, each occurrence replaced, everything else kept |
| `Text.Strip` | scatter.py:45-47 | `str.strip()` leaves no whitespace at either end |
| `Text.StripTrimsEnds` | scatter.py:45-47 | `str.strip()` keeps a contiguous middle of the text and removes only whitespace before and after it |
| `Paths.Stem` | scatter.py:437 | `Path.stem` is a prefix of the name; when it is shorter, it is non-empty and is followed by the name's last dot |
| `Paths.StemDropsLastInnerDot` | scatter.py:437 | When the name's last dot is neither its first nor its last character, the stem is everything before that dot |
| `Paths.StemExamples` | scatter.py:437 | `Widgets.csproj` has the stem `Widgets`, `Company.Widgets.csproj` has `Company.Widgets`, and `.csproj` is its own stem |
| `Patterns.ImportsOwnDirective` | scatter.py:464 | For every namespace, the directive `using NS;` imports `NS` |
| `Patterns.PrefixNamespaceRejected` | scatter.py:464 | `using FooBar;` does not import `Foo`: the namespace must be followed by a `.` suffix, whitespace or `;` |
| `Patterns.CallNeedsDot` | scatter.py:545 | A text without a `.` never calls a method |
| `Patterns.BareCallRejected` | scatter.py:545 | `Render();` does not call `Render`, since the name must follow a dot |
| `Patterns.ImportExample` | scatter.py:464 | `using Contoso.Widgets;` imports `Contoso.Widgets` |
| `Patterns.GlobalImportExample` | scatter.py:464 | `{global using A.B.C;` imports `A.B`: it accepts the `{` anchor, the `global` modifier and a sub-namespace |
| `Patterns.WordExamples` | scatter.py:515 | `new Widget();` mentions `Widget` as a whole word; `WidgetFactory` does not |
| `Patterns.CallExamples` | scatter.py:545 | `widget . Render ();` calls `Render`, with whitespace around the dot and before the parenthesis |
| `Consumers.FormatResults` | scatter.py:495-504 | The results list each dictionary entry once, in insertion order, with its path, name and files |
| `Consumers.FilterFiles` | scatter.py:478-484 | The loop keeps, in order, the files that can be read and whose text matches the pattern |
| `Consumers.CollectDirect` | scatter.py:411-450 | The dictionary's keys are the candidates that refer to the target, each once, in first-seen order; each record holds the path's stem and no files |
| `Consumers.CachedListing` | scatter.py:470-476 | The files returned are the directory's listing; the cache gains that listing only when the directory is new, and still maps each directory to its listing |
| `Consumers.NamespaceStage` | scatter.py:466-489 | The new dictionary is the direct consumers narrowed by the `using` test over each one's directory listing. A directory is listed only when the cache misses. The ghost log of listed directories has no repeats and holds exactly the consumers' directories, so each directory is listed exactly once |
| `Consumers.NarrowStage` | scatter.py:516-533 | A type or method stage keeps each consumer with the files that pass the test, and drops a consumer left with no files |
| `Consumers.LaterStages` | scatter.py:506-570 | The exit rules after step 3 and the type and method stages give `AfterNamespace` |
| `Consumers.FindConsumers` | scatter.py:362-570 | The method returns exactly the funnel: `[]` when scanning fails or there are no direct consumers; otherwise the direct consumers, narrowed by namespace, then type, then method, each stage only when its argument is given |
| `ConsumerProperties.MatchingFilesMembers` | scatter.py:478-484 | A file is kept exactly when it was checked and passes the test |
| `ConsumerProperties.NarrowMembers` | scatter.py:516-533 | A consumer is in a narrowed stage exactly when it comes from a consumer of the previous stage that had matching files, and carries exactly those files |
| `ConsumerProperties.WithListingsMembers` | scatter.py:466-478 | The namespace stage checks each direct consumer against the C# files listed under its project directory |
| `ConsumerProperties.CandidatesMembers` | scatter.py:398-402 | A path is a candidate exactly when it is the resolved form of some `.csproj` in scope and is not the target |
| `ConsumerProperties.DirectPathsMembers` | scatter.py:411-441 | A path is a direct consumer exactly when it is a candidate that refers to the target; none is repeated |
| `ConsumerProperties.ResultsReferToTarget` | scatter.py:397-570 | Every reported consumer is a scanned project other than the target, refers to the target, and is named by its stem |
| `ConsumerProperties.FunnelDescendsFromDirect` | scatter.py:453-570 | Every reported consumer has the path and name of a direct consumer |
| `ConsumerProperties.ReportedFilesPassEveryStage` | scatter.py:466-563 | With a reliable namespace, every reported file lies under the consumer's directory. It imports the namespace, mentions the type when one is given, and calls the method when both are given |
| `ConsumerProperties.MatchingFileIsReported` | scatter.py:466-570 | With a reliable namespace, every file of a direct consumer that passes all the applied tests is reported under that consumer |
| `ConsumerProperties.ResultsInDiscoveryOrder` | scatter.py:397-570 | The reported consumers appear in the order their projects were found in scope, each once |
| `ConsumerProperties.ReportedFilesInListingOrder` | scatter.py:472-563 | With a reliable namespace, a consumer's reported files appear in the order of its directory listing |
| `ConsumerProperties.NarrowFilesInOrder` | scatter.py:522-533 | A narrowed consumer's files are a subsequence of the files it had before |
| `ConsumerProperties.UnreliableNamespaceWithoutTypeListsDirect` | scatter.py:458-460 | With an empty or `NAMESPACE_ERROR_` namespace and no type, the direct consumers are returned, with no relevant files |
| `ConsumerProperties.UnreliableNamespaceWithTypeFindsNothing` | scatter.py:458-460 | With an empty or `NAMESPACE_ERROR_` namespace and a type, the search as written always returns no consumers (see Findings) |
| `ConsumerProperties.IntendedTypeSearchWithoutNamespace` | scatter.py:458-540 | In the corrected funnel, a skipped namespace check still finds every direct consumer with a file that mentions the type, and calls the method when one is given |
| `ConsumerProperties.IntendedFunnelAgreesElsewhere` | scatter.py:458-570 | The corrected funnel differs from the code only when the namespace is unreliable and a type is given |

## Left out

- The regular-expression engine. Type extraction receives the group-1 captures of `TYPE_DECLARATION_PATTERN` in match order. Its regex-error handler (scatter.py:50-51) is not modelled, because the captures are given.
- XML parsing. A manifest is `Unparsable` or a parsed value that holds `<RootNamespace>`, `<AssemblyName>` and both kinds of `ProjectReference` lookup.
- GitPython. The diff and the feature commit's tree are inputs. Opening the repository, finding the merge base, and the `sys.exit` error paths of `analyze_branch_changes` (scatter.py:165-195, 209-232) are not part of this model.
- `find_project_file`'s `GitCommandError` and generic-exception handlers (scatter.py:148-155). They depend on repository access, which is not modelled.
- `BranchChanges.GroupChangesByProject`: `find_project_file` and `as_posix` are the parameters `locate` and `posix`. `ProjectLocator.FindProjectFile` models the locator itself, on a tree and a path split into components.
- The file system. `resolve()` is the `canon` function of `Env`, and `samefile` is equality of canonical paths. The `OSError` handlers around resolving one reference (scatter.py:442-445) are not modelled, because `canon` is total. The same holds for step 1 (scatter.py:397-406): an `OSError` from `resolve()` and one from `rglob` are both the case `found == None`, which returns `[]`.
- A file that cannot be read is absent from `Env`; a manifest that fails to parse is `Unparsable`. Decoding with `errors='ignore'` is not modelled: file text is given as characters.
- Python's full Unicode `lower()` and `\w`. Both are restricted to ASCII. Whitespace (`\s`, `strip`) covers Python's full set.
- `Consumers.NamespaceStage`: the log of listed directories is a ghost out-parameter. `CachedListing` reports a listing, which the log records, exactly when the cache misses.
- Records are values. The source puts the same record objects in `namespace_consumers` as in `direct_consumers` and updates them in place. No later step reads an earlier dictionary once a record has changed, so the aliasing has no observable effect.
- The Gemini summary (scatter.py:274-359), the command-line driver (scatter.py:575-1111) and logging.

## Findings

| source | as written | input that shows it | evidently intended | confidence | as-written member | corrected member |
|---|---|---|---|---|---|---|
| scatter.py:458-540 | When the namespace is empty or starts with `NAMESPACE_ERROR_`, `namespace_consumers` is set to `direct_consumers`. Their `relevant_files` are all empty, so the type stage checks no file, and any search with a type name returns `[]` | namespace `NAMESPACE_ERROR_Lib`, class name `Widget`, one direct consumer whose `.cs` file contains `new Widget();` | As the warning says, all direct consumers are considered: the type stage scans each direct consumer's C# files | medium, not executed | `ConsumerProperties.UnreliableNamespaceWithTypeFindsNothing` (on `Consumers.Funnel`) | `ConsumerProperties.IntendedTypeSearchWithoutNamespace` (on `ConsumerProperties.IntendedFunnel`) |

`Consumers.FindConsumers` follows the code as written. `ConsumerProperties.IntendedFunnel` is the corrected definition. When the namespace check is skipped, it gives each direct consumer its directory listing before the type stage. `ConsumerProperties.IntendedFunnelAgreesElsewhere` shows that it agrees with the code on every other input.
