/**
 * Paths as `pathlib` treats them: a sequence of components. A relative path's `.` and
 * the filesystem root `/` are both the empty sequence of components.
 */
module Paths {
  import opened Text

  type Path = seq<string>

  /** `Path.parent`: the parent of `.` (or of `/`) is itself. */
  function Parent(p: Path): (r: Path)
    ensures p != [] ==> |r| == |p| - 1 && r == p[..|p| - 1]
    ensures p == [] ==> r == []
  {
    if p == [] then [] else p[..|p| - 1]
  }

  /** `Path.name`: the last component, empty for `.` and `/`. */
  function Name(p: Path): string {
    if p == [] then "" else p[|p| - 1]
  }

  /** `s.rfind(c)`. */
  function LastIndexOf(s: string, c: char): (r: int)
    ensures -1 <= r < |s|
    ensures r >= 0 ==> s[r] == c && forall j :: r < j < |s| ==> s[j] != c
    ensures r == -1 ==> c !in s
  {
    if s == [] then -1
    else if s[|s| - 1] == c then |s| - 1
    else LastIndexOf(s[..|s| - 1], c)
  }

  /**
   * `PurePath.stem` of a file name: the name without its last suffix, where a suffix
   * needs a dot that is neither the first nor the last character.
   */
  function Stem(name: string): (r: string)
    ensures |r| <= |name| && r == name[..|r|]
    ensures r != name ==> |r| > 0 && name[|r|] == '.' && '.' !in name[|r| + 1..]
  {
    var i := LastIndexOf(name, '.');
    if 0 < i < |name| - 1 then name[..i] else name
  }

  /** A last dot strictly inside the name is always cut off with what follows it. */
  lemma StemDropsLastInnerDot(name: string, i: nat)
    requires 0 < i < |name| - 1 && name[i] == '.' && '.' !in name[i + 1..]
    ensures Stem(name) == name[..i]
  {
    assert LastIndexOf(name, '.') >= i by {
      assert name[i] == '.';
    }
  }

  /**
   * The components `pathlib` keeps when it parses a relative path string: the text
   * between slashes, without empty components and without `.`.
   */
  function Components(s: string): (r: seq<string>)
    ensures forall i :: 0 <= i < |r| ==> r[i] != "" && r[i] != "." && '/' !in r[i]
    decreases |s|
  {
    var head := TakeUntil(s, '/');
    var rest := if |head| < |s| then Components(s[|head| + 1..]) else [];
    (if head == "" || head == "." then [] else [head]) + rest
  }

  /** `directory / text`: a text starting with `/` replaces the directory. */
  function Join(directory: Path, text: string): Path {
    if text != [] && text[0] == '/' then Components(text) else directory + Components(text)
  }

  lemma StemExamples()
    ensures Stem("Widgets.csproj") == "Widgets"
    ensures Stem("Company.Widgets.csproj") == "Company.Widgets"
    ensures Stem(".csproj") == ".csproj"
  {
    assert LastIndexOf("Widgets.csproj", '.') == 7;
    var qualified := "Company.Widgets.csproj";
    assert qualified[15] == '.' && '.' !in qualified[16..];
    assert LastIndexOf(qualified, '.') == 15;
    assert LastIndexOf(".csproj", '.') == 0;
  }
}
