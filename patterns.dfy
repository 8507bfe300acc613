/**
 * The three regular expressions `find_consumers` searches C# files with, stated as
 * predicates on the file text. A search succeeds when the pattern matches at some
 * position; each predicate says which positions those are.
 */
module Patterns {
  import opened Text

  /** The first position at or after `p` that is not whitespace (`\s*` taken greedily). */
  function SkipSpace(s: string, p: nat): (r: nat)
    requires p <= |s|
    ensures p <= r <= |s|
    ensures forall k :: p <= k < r ==> IsSpace(s[k])
    ensures r == |s| || !IsSpace(s[r])
    decreases |s| - p
  {
    if p < |s| && IsSpace(s[p]) then SkipSpace(s, p + 1) else p
  }

  /** A character of the class `[A-Za-z0-9_.]`. */
  predicate IsQualifierChar(c: char) {
    ('A' <= c <= 'Z') || ('a' <= c <= 'z') || ('0' <= c <= '9') || c == '_' || c == '.'
  }

  /** The end of the longest run of `[A-Za-z0-9_.]` starting at `p`. */
  function SkipQualifier(s: string, p: nat): (r: nat)
    requires p <= |s|
    ensures p <= r <= |s|
    ensures forall k :: p <= k < r ==> IsQualifierChar(s[k])
    ensures r == |s| || !IsQualifierChar(s[r])
    decreases |s| - p
  {
    if p < |s| && IsQualifierChar(s[p]) then SkipQualifier(s, p + 1) else p
  }

  /**
   * What may follow the namespace in a `using` directive: an optional `.Sub.Space`
   * suffix (`(?:\.[A-Za-z0-9_.]+)?`), optional whitespace, then `;`. The run of
   * qualifier characters is taken whole because none of them can start `\s*;`.
   */
  predicate UsingTailAt(s: string, p: nat)
    requires p <= |s|
  {
    var e := SkipQualifier(s, p);
    && (e == p || (s[p] == '.' && e >= p + 2))
    && var f := SkipSpace(s, e);
       f < |s| && s[f] == ';'
  }

  /** Where `using` starts once the leading whitespace and an optional `global\s+` are skipped. */
  function UsingKeywordStart(s: string, p: nat): (r: nat)
    requires p <= |s|
    ensures p <= r <= |s|
  {
    var a := SkipSpace(s, p);
    if OccursAt(s, "global", a) && a + 6 < |s| && IsSpace(s[a + 6]) then SkipSpace(s, a + 6) else a
  }

  /**
   * `\s*(?:global\s+)?using\s+NS(?:\.[A-Za-z0-9_.]+)?\s*;` matched from position `p`,
   * with the namespace starting at `start`.
   */
  predicate UsingAt(s: string, ns: string, p: nat, start: nat)
    requires p <= |s|
  {
    var b := UsingKeywordStart(s, p);
    && OccursAt(s, "using", b)
    && b + 5 < start <= SkipSpace(s, b + 5)
    && OccursAt(s, ns, start)
    && UsingTailAt(s, start + |ns|)
  }

  /** A place a directive may begin: the start of a line (`^` in multi-line mode), or after `;` or `{`. */
  predicate DirectiveAnchor(s: string, p: nat)
    requires p <= |s|
  {
    p == 0 || s[p - 1] == '\n' || s[p - 1] == ';' || s[p - 1] == '{'
  }

  /** `using_pattern.search(content)`: some anchored `using` directive imports `ns` or a namespace inside it. */
  predicate ImportsNamespace(s: string, ns: string) {
    exists p, start | 0 <= p <= start <= |s| :: DirectiveAnchor(s, p) && UsingAt(s, ns, p, start)
  }

  /** A character `\w` matches, restricted to ASCII. */
  predicate IsWordChar(c: char) {
    ('A' <= c <= 'Z') || ('a' <= c <= 'z') || ('0' <= c <= '9') || c == '_'
  }

  /** `\b` at position `i`: a word character on exactly one side. */
  predicate WordBoundary(s: string, i: nat)
    requires i <= |s|
  {
    (i > 0 && IsWordChar(s[i - 1])) != (i < |s| && IsWordChar(s[i]))
  }

  predicate WholeWordAt(s: string, word: string, i: nat) {
    OccursAt(s, word, i) && WordBoundary(s, i) && WordBoundary(s, i + |word|)
  }

  /** `class_pattern.search(content)`: the name occurs with a word boundary on each side. */
  predicate MentionsWord(s: string, word: string) {
    exists i | 0 <= i <= |s| :: WholeWordAt(s, word, i)
  }

  /** `\.\s*NAME\s*\(` with the dot at `dot` and the name at `start`. */
  predicate CallAt(s: string, name: string, dot: nat, start: nat) {
    && dot < start <= |s|
    && s[dot] == '.'
    && (forall k :: dot < k < start ==> IsSpace(s[k]))
    && OccursAt(s, name, start)
    && var e := SkipSpace(s, start + |name|);
       e < |s| && s[e] == '('
  }

  /** `method_pattern.search(content)`: a member access of the name followed by an opening parenthesis. */
  predicate CallsMethod(s: string, name: string) {
    exists dot, start | 0 <= dot < start <= |s| :: CallAt(s, name, dot, start)
  }

  /** `using NS;` imports `NS`, whatever characters the (escaped) namespace holds. */
  lemma ImportsOwnDirective(ns: string)
    ensures ImportsNamespace("using " + ns + ";", ns)
  {
    var s := "using " + ns + ";";
    KeywordOpensDirective(ns);
    NamespaceClosesDirective(ns);
    assert UsingAt(s, ns, 0, 6);
    assert DirectiveAnchor(s, 0);
  }

  lemma KeywordOpensDirective(ns: string)
    ensures var s := "using " + ns + ";";
      && UsingKeywordStart(s, 0) == 0
      && OccursAt(s, "using", 0)
      && 6 <= SkipSpace(s, 5)
  {
    var s := "using " + ns + ";";
    assert s[0] == 'u' && s[5] == ' ';
    assert SkipSpace(s, 0) == 0;
    assert !OccursAt(s, "global", 0) by { assert s[0] != 'g'; }
    assert s[..5] == "using";
    assert SkipSpace(s, 5) == SkipSpace(s, 6);
  }

  lemma NamespaceClosesDirective(ns: string)
    ensures var s := "using " + ns + ";";
      OccursAt(s, ns, 6) && UsingTailAt(s, 6 + |ns|)
  {
    var s := "using " + ns + ";";
    var q := 6 + |ns|;
    assert s[q] == ';';
    assert s[6..q] == ns;
    assert SkipQualifier(s, q) == q;
    assert SkipSpace(s, q) == q;
  }

  /** A namespace that is only a prefix of the imported word is not imported. */
  lemma PrefixNamespaceRejected()
    ensures !ImportsNamespace("using FooBar;", "Foo")
  {
    var s := "using FooBar;";
    forall p, start | 0 <= p <= start <= |s| && DirectiveAnchor(s, p)
      ensures !UsingAt(s, "Foo", p, start)
    {
      if OccursAt(s, "Foo", start) {
        FooOnlyAfterKeyword(start);
        FooBarTailRejected();
      }
    }
  }

  lemma FooOnlyAfterKeyword(start: nat)
    requires OccursAt("using FooBar;", "Foo", start)
    ensures start == 6
  {
    var s := "using FooBar;";
    assert s[start] == s[start..start + 3][0] == 'F';
  }

  lemma FooBarTailRejected()
    ensures !UsingTailAt("using FooBar;", 9)
  {
    var s := "using FooBar;";
    assert SkipQualifier(s, 12) == 12;
    assert SkipQualifier(s, 9) == 12;
  }

  /** Without a dot there is no member call: `Render();` does not call `Render`. */
  lemma CallNeedsDot(s: string, name: string)
    requires '.' !in s
    ensures !CallsMethod(s, name)
  {
    forall dot, start | 0 <= dot < start <= |s|
      ensures !CallAt(s, name, dot, start)
    {
      assert s[dot] in s;
    }
  }

  lemma BareCallRejected()
    ensures !CallsMethod("Render();", "Render")
  {
    CallNeedsDot("Render();", "Render");
  }

  lemma ImportExample()
    ensures ImportsNamespace("using Contoso.Widgets;", "Contoso.Widgets")
  {
    var s := "using Contoso.Widgets;";
    PlainKeywordFound();
    assert SkipSpace(s, 6) == 6;
    assert SkipSpace(s, 5) == 6;
    PlainNamespaceFound();
    assert UsingAt(s, "Contoso.Widgets", 0, 6);
    assert DirectiveAnchor(s, 0);
  }

  lemma PlainKeywordFound()
    ensures UsingKeywordStart("using Contoso.Widgets;", 0) == 0
    ensures OccursAt("using Contoso.Widgets;", "using", 0)
  {
    var s := "using Contoso.Widgets;";
    assert SkipSpace(s, 0) == 0;
    assert !OccursAt(s, "global", 0) by { assert s[0] != 'g'; }
  }

  lemma PlainNamespaceFound()
    ensures OccursAt("using Contoso.Widgets;", "Contoso.Widgets", 6)
    ensures UsingTailAt("using Contoso.Widgets;", 21)
  {
    var s := "using Contoso.Widgets;";
    assert s[6..21] == "Contoso.Widgets";
    assert SkipQualifier(s, 21) == 21;
    assert SkipSpace(s, 21) == 21;
  }

  lemma GlobalImportExample()
    ensures ImportsNamespace("{global using A.B.C;", "A.B")
  {
    var s := "{global using A.B.C;";
    GlobalKeywordSkipped();
    GlobalTailAccepted();
    GlobalNamespaceFound();
    assert UsingAt(s, "A.B", 1, 14);
  }

  lemma GlobalNamespaceFound()
    ensures DirectiveAnchor("{global using A.B.C;", 1)
    ensures OccursAt("{global using A.B.C;", "using", 8)
    ensures SkipSpace("{global using A.B.C;", 13) == 14
    ensures OccursAt("{global using A.B.C;", "A.B", 14)
  {
    var s := "{global using A.B.C;";
    assert s[8..13] == "using";
    assert SkipSpace(s, 14) == 14;
    assert s[14..17] == "A.B";
  }

  lemma GlobalTailAccepted()
    ensures UsingTailAt("{global using A.B.C;", 17)
  {
    var s := "{global using A.B.C;";
    assert SkipQualifier(s, 19) == 19;
    assert SkipQualifier(s, 17) == 19;
    assert SkipSpace(s, 19) == 19;
  }

  lemma GlobalKeywordSkipped()
    ensures UsingKeywordStart("{global using A.B.C;", 1) == 8
  {
    var s := "{global using A.B.C;";
    assert SkipSpace(s, 1) == 1;
    assert OccursAt(s, "global", 1);
    assert SkipSpace(s, 8) == 8;
    assert SkipSpace(s, 7) == 8;
  }

  lemma WordExamples()
    ensures MentionsWord("new Widget();", "Widget")
    ensures !MentionsWord("WidgetFactory", "Widget")
  {
    assert WholeWordAt("new Widget();", "Widget", 4);
    var s := "WidgetFactory";
    forall i | 0 <= i <= |s|
      ensures !WholeWordAt(s, "Widget", i)
    {
      if i == 0 {
        assert !WordBoundary(s, 6);
      } else if i + 6 <= |s| {
        assert s[i..i + 6][0] == s[i] != 'W';
      }
    }
  }

  lemma CallExamples()
    ensures CallsMethod("widget . Render ();", "Render")
  {
    var s := "widget . Render ();";
    assert SkipSpace(s, 15) == 16;
    assert CallAt(s, "Render", 7, 9);
  }
}
