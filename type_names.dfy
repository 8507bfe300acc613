/**
 * Declared-type-name extraction (`extract_type_names_from_content`).
 *
 * The declaration regex itself is not modelled: its matches reach the model as the
 * sequence of raw strings captured by group 1, in match order. What is modelled is
 * the post-processing applied to each capture and the collection into a set.
 */
module TypeNames {
  import opened Text

  /** The part of `s` from its first newline on (the text `.` cannot cross). */
  function FromLineEnd(s: string): (r: string)
    ensures |r| <= |s| && r == s[|s| - |r|..]
    ensures r == [] || r[0] == '\n'
    ensures forall i :: 0 <= i < |s| - |r| ==> s[i] != '\n'
  {
    if s == [] || s[0] == '\n' then s else FromLineEnd(s[1..])
  }

  /**
   * `re.sub(r'<.*', '', s)`: every `<` is removed together with the rest of its
   * line; `.` does not match a newline, so the text after a newline survives.
   */
  function DropGenericSuffixes(s: string): (r: string)
    ensures '<' !in r
    decreases |s|
  {
    if s == [] then []
    else if s[0] == '<' then DropGenericSuffixes(FromLineEnd(s[1..]))
    else [s[0]] + DropGenericSuffixes(s[1..])
  }

  /** A name the extractor may report: non-empty, no `<` or `,`, no surrounding whitespace. */
  predicate WellFormedName(n: string) {
    && n != []
    && '<' !in n
    && ',' !in n
    && !IsSpace(n[0])
    && !IsSpace(n[|n| - 1])
  }

  /**
   * The normalisation of one captured name: strip, drop generic suffixes, strip,
   * keep what precedes the first comma, strip.
   */
  function BaseName(capture: string): (r: string)
    ensures r == [] || WellFormedName(r)
  {
    var noGenerics := Strip(DropGenericSuffixes(Strip(capture)));
    StripExcludes(DropGenericSuffixes(Strip(capture)), '<');
    var head := TakeUntil(noGenerics, ',');
    assert '<' !in head by { assert head == noGenerics[..|head|]; }
    StripExcludes(head, '<');
    StripExcludes(head, ',');
    Strip(head)
  }

  /** The non-empty names of `names`, collected into a set one by one. */
  ghost function Collected(names: seq<string>): set<string>
  {
    if names == [] then {}
    else
      var last := names[|names| - 1];
      Collected(names[..|names| - 1]) + (if last != [] then {last} else {})
  }

  lemma {:induction false} CollectedMembers(names: seq<string>, n: string)
    ensures n in Collected(names) <==> n != [] && n in names
  {
    if names != [] {
      CollectedMembers(names[..|names| - 1], n);
      assert names == names[..|names| - 1] + [names[|names| - 1]];
    }
  }

  lemma CollectedAppend(names: seq<string>, name: string)
    ensures Collected(names + [name]) == Collected(names) + (if name != [] then {name} else {})
  {
    assert (names + [name])[..|names|] == names;
  }

  /** Collecting the base names of all captures yields exactly the well-formed names some capture normalises to. */
  lemma CollectedBaseNames(captures: seq<string>, names: seq<string>)
    requires |names| == |captures|
    requires forall i :: 0 <= i < |captures| ==> names[i] == BaseName(captures[i])
    ensures forall n :: n in Collected(names) <==> n != [] && exists i :: 0 <= i < |captures| && BaseName(captures[i]) == n
    ensures forall n :: n in Collected(names) ==> WellFormedName(n)
  {
    forall n
      ensures n in Collected(names) <==> n != [] && exists i :: 0 <= i < |captures| && BaseName(captures[i]) == n
    {
      CollectedMembers(names, n);
      if n in names {
        var i :| 0 <= i < |names| && names[i] == n;
        assert BaseName(captures[i]) == n;
      }
    }
    forall n | n in Collected(names)
      ensures WellFormedName(n)
    {
      CollectedMembers(names, n);
    }
  }

  /**
   * The loop of `extract_type_names_from_content`: a name is reported exactly when some
   * capture normalises to it, and duplicates collapse.
   */
  method ExtractTypeNames(captures: seq<string>) returns (found: set<string>)
    ensures forall n :: n in found <==> n != [] && exists i :: 0 <= i < |captures| && BaseName(captures[i]) == n
    ensures forall n :: n in found ==> WellFormedName(n)
  {
    ghost var names: seq<string> := [];
    found := {};
    for k := 0 to |captures|
      invariant |names| == k && Normalised(names, captures)
      invariant found == Collected(names)
    {
      var name := BaseName(captures[k]);
      NormalisedStep(names, captures);
      CollectedAppend(names, name);
      names := names + [name];
      if name != [] {
        found := found + {name};
      }
    }
    CollectedBaseNames(captures, names);
  }

  /** `names` holds the base names of the first `|names|` captures. */
  ghost predicate Normalised(names: seq<string>, captures: seq<string>) {
    |names| <= |captures| && forall i :: 0 <= i < |names| ==> names[i] == BaseName(captures[i])
  }

  lemma NormalisedStep(names: seq<string>, captures: seq<string>)
    requires |names| < |captures| && Normalised(names, captures)
    ensures Normalised(names + [BaseName(captures[|names|])], captures)
  {
    var next := names + [BaseName(captures[|names|])];
    forall i | 0 <= i < |next|
      ensures next[i] == BaseName(captures[i])
    {
      if i < |names| {
        assert next[i] == names[i];
      }
    }
  }

  /** With no newline in the capture, dropping generic suffixes cuts at the first `<`. */
  lemma {:induction false} SingleLineCutsAtFirstAngle(s: string)
    requires '\n' !in s
    ensures DropGenericSuffixes(s) == TakeUntil(s, '<')
  {
    if s == [] {
    } else if s[0] == '<' {
      assert FromLineEnd(s[1..]) == [];
    } else {
      SingleLineCutsAtFirstAngle(s[1..]);
    }
  }

  lemma {:induction false} DropGenericSuffixesKeepsPlainText(s: string)
    requires '<' !in s
    ensures DropGenericSuffixes(s) == s
  {
    if s != [] {
      DropGenericSuffixesKeepsPlainText(s[1..]);
    }
  }

  lemma {:induction false} TakeUntilKeepsText(s: string, c: char)
    requires c !in s
    ensures TakeUntil(s, c) == s
  {
    if s != [] {
      TakeUntilKeepsText(s[1..], c);
    }
  }

  /** Normalisation is idempotent: a reported name normalises to itself. */
  lemma BaseNameIdempotent(capture: string)
    ensures BaseName(BaseName(capture)) == BaseName(capture)
  {
    var n := BaseName(capture);
    StripKeepsStrippedText(n);
    DropGenericSuffixesKeepsPlainText(n);
    StripKeepsStrippedText(n);
    TakeUntilKeepsText(n, ',');
  }

  /** `public class Foo<T> : Base {` is captured as `Foo`, which is its own base name. */
  lemma PlainCaptureExample()
    ensures BaseName("Foo") == "Foo"
  {
    StripKeepsStrippedText("Foo");
    DropGenericSuffixesKeepsPlainText("Foo");
    TakeUntilKeepsText("Foo", ',');
  }
}
