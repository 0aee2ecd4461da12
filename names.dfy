/**
 * The string rewriting of `index.js`: `normalizePackageName` (two anchored
 * regular-expression replacements) and the stylesheet file name computed
 * from a normalised name when linking.
 */
module Names {
  import opened Wrappers
  import opened Paths

  /** The dependency root every walk starts from. */
  const NodeModulesRoot: string := "node_modules/"
  /** The manifest file name the walk looks for. */
  const ManifestName: string := "package.json"
  /** The extension that switches link names to the partial-file convention. */
  const ScssExtension: string := "scss"

  /** Characters the regular-expression `.` does not match (no `s` flag). */
  predicate IsLineTerminator(c: char) {
    c == '\n' || c == '\r' || c == '\U{2028}' || c == '\U{2029}'
  }

  /** `s` ends with `t`. */
  predicate EndsWith(s: string, t: string) {
    |t| <= |s| && s[|s| - |t|..] == t
  }

  // ---------------------------------------------------------------------------
  // normalizePackageName
  // ---------------------------------------------------------------------------

  /** `.replace(/^node_modules\//, '')`. */
  function StripRootPrefix(p: string): string {
    if NodeModulesRoot <= p then p[|NodeModulesRoot|..] else p
  }

  /**
   * Whether `s` matches `/\/package.json$/`: `/package`, any one character
   * but a line terminator (the `.` is not escaped), then `json`, at the end.
   */
  predicate MatchesManifestSuffix(s: string) {
    && |s| >= 13
    && s[|s| - 13..|s| - 5] == "/package"
    && !IsLineTerminator(s[|s| - 5])
    && s[|s| - 4..] == "json"
  }

  /** `.replace(/\/package.json$/, '')`. */
  function StripManifestSuffix(s: string): string {
    if MatchesManifestSuffix(s) then s[..|s| - 13] else s
  }

  /** `normalizePackageName`: strip the dependency root, then the manifest suffix. */
  function NormalizePackageName(p: string): (r: string)
    ensures var rest := if NodeModulesRoot <= p then p[|NodeModulesRoot|..] else p;
      r <= rest && (|r| < |rest| ==> |r| + 13 == |rest|)
  {
    StripManifestSuffix(StripRootPrefix(p))
  }

  /**
   * The result is `p` with at most one leading `node_modules/` removed and at
   * most one trailing 13-character manifest suffix removed, nothing else: it
   * is a contiguous slice of `p`, each end is cut exactly when its pattern
   * matches there, and a path with neither comes back unchanged.
   */
  lemma NormalizeCutsAtMostTheAffixes(p: string)
    ensures var r := NormalizePackageName(p);
      var head := if NodeModulesRoot <= p then |NodeModulesRoot| else 0;
      && head + |r| <= |p|
      && r == p[head..head + |r|]
      && (head + |r| < |p| <==> MatchesManifestSuffix(p[head..]))
      && (head + |r| < |p| ==> head + |r| + 13 == |p|)
    ensures !(NodeModulesRoot <= p) && !MatchesManifestSuffix(p) ==> NormalizePackageName(p) == p
  {
  }

  /** A manifest path built from a package directory normalises to that directory. */
  lemma {:induction false} NormalizeManifestPath(dir: string)
    ensures NormalizePackageName(NodeModulesRoot + dir + "/" + ManifestName) == dir
  {
    ManifestNameSpelled();
    assert NodeModulesRoot + dir + "/" + ManifestName == NodeModulesRoot + dir + "/package" + ['.'] + "json";
    NormalizeSuffixWildcard(dir, '.');
  }

  /** The manifest file name after its separator, as the pieces the suffix pattern reads. */
  lemma ManifestNameSpelled()
    ensures "/" + ManifestName == "/package" + ['.'] + "json"
  {
  }

  /**
   * Each affix is removed at most once: a doubled root and a doubled
   * manifest suffix each lose only their outer copy.
   */
  lemma {:induction false} NormalizeStripsOnce(dir: string)
    ensures NormalizePackageName(NodeModulesRoot + (NodeModulesRoot + dir + "/" + ManifestName) + "/" + ManifestName)
         == NodeModulesRoot + dir + "/" + ManifestName
  {
    NormalizeManifestPath(NodeModulesRoot + dir + "/" + ManifestName);
  }

  /**
   * The unescaped `.` of the suffix pattern stands for any character but a
   * line terminator; before a line terminator the suffix stays.
   */
  lemma {:induction false} NormalizeSuffixWildcard(dir: string, c: char)
    ensures var p := NodeModulesRoot + dir + "/package" + [c] + "json";
      NormalizePackageName(p) == if IsLineTerminator(c) then dir + "/package" + [c] + "json" else dir
  {
    var t := dir + "/package" + [c] + "json";
    var p := NodeModulesRoot + dir + "/package" + [c] + "json";
    assert p == NodeModulesRoot + t;
    assert p[..|NodeModulesRoot|] == NodeModulesRoot;
    assert StripRootPrefix(p) == t;
    ManifestSuffixCut(dir, c);
  }

  /**
   * The suffix pattern read off a path built as `d/package<c>json`: it
   * matches exactly when `c` is not a line terminator, and cutting it leaves `d`.
   */
  lemma {:induction false} ManifestSuffixCut(d: string, c: char)
    ensures var s := d + "/package" + [c] + "json";
      && (MatchesManifestSuffix(s) <==> !IsLineTerminator(c))
      && s[..|s| - 13] == d
  {
    var a := d + "/package";
    var b := a + [c];
    var s := b + "json";
    assert |s| == |d| + 13;
    assert s[..|b|] == b && s[|b|..] == "json";
    assert b[..|a|] == a && b[|a|] == c;
    assert a[..|d|] == d && a[|d|..] == "/package";
    assert s[..|a|] == a;
    assert s[|d|..|a|] == a[|d|..];
  }

  /**
   * Conversely, a path that starts with the dependency root and ends with a
   * separate `/package.json` is the root, its normalised name and that suffix.
   */
  lemma {:induction false} NormalizeRecoversPath(p: string)
    requires NodeModulesRoot <= p && |p| >= |NodeModulesRoot| + 13
    requires EndsWith(p, "/" + ManifestName)
    ensures p == NodeModulesRoot + NormalizePackageName(p) + "/" + ManifestName
  {
    var dir := p[|NodeModulesRoot|..|p| - 13];
    assert p == NodeModulesRoot + dir + "/" + ManifestName;
    NormalizeManifestPath(dir);
  }

  /**
   * On a path whose last segment is exactly `package.json` — the only paths
   * the walk normalises — the unescaped `.` makes no difference: the suffix
   * pattern matches exactly when a separator precedes the file name.
   */
  lemma {:induction false} ManifestSuffixOnManifests(p: string)
    requires Basename(p) == ManifestName
    ensures MatchesManifestSuffix(p) <==> p != ManifestName
    ensures MatchesManifestSuffix(p) <==> EndsWith(p, "/" + ManifestName)
  {
    if p != ManifestName {
      assert Separator in p;
      var d := p[..|p| - 13];
      assert p[|p| - 13] == Separator;
      assert p[|p| - 12..] == ManifestName;
      assert p[|p| - 13..] == [p[|p| - 13]] + p[|p| - 12..];
      assert p == d + ("/" + ManifestName);
      ManifestNameSpelled();
      assert p == d + "/package" + ['.'] + "json";
      ManifestSuffixCut(d, '.');
    }
  }

  // ---------------------------------------------------------------------------
  // The link file name
  // ---------------------------------------------------------------------------

  /** Whether `s` matches `/.css$/`: any one character but a line terminator, then `css`, at the end. */
  predicate MatchesCssSuffix(s: string) {
    |s| >= 4 && !IsLineTerminator(s[|s| - 4]) && s[|s| - 3..] == "css"
  }

  /** `.replace(/.css$/, '')` as written: drops `css` and whatever character precedes it. */
  function StripCssAsWritten(s: string): (r: string)
    ensures MatchesCssSuffix(s) ==> r + s[|s| - 4..] == s
    ensures !MatchesCssSuffix(s) ==> r == s
  {
    if MatchesCssSuffix(s) then s[..|s| - 4] else s
  }

  /** Removing the literal extension `.css`, the evident intent of `/.css$/`. */
  function StripCssSuffix(s: string): (r: string)
    ensures EndsWith(s, ".css") ==> r + ".css" == s
    ensures !EndsWith(s, ".css") ==> r == s
  {
    if EndsWith(s, ".css") then s[..|s| - 4] else s
  }

  /** `.replace(/\//, '-')`: only the first separator becomes a hyphen. */
  function ReplaceFirstSeparator(s: string): (r: string)
    ensures |r| == |s|
    ensures Separator !in s ==> r == s
  {
    match FirstIndexOf(s, Separator)
    case None => s
    case Some(i) => s[..i] + "-" + s[i + 1..]
  }

  /**
   * With the first separator at `i`, the replacement changes that one
   * character to `-` and keeps every other character, later separators
   * included; exactly one separator disappears.
   */
  lemma {:induction false} ReplaceFirstSeparatorAt(s: string, i: nat)
    requires i < |s| && s[i] == Separator && Separator !in s[..i]
    ensures ReplaceFirstSeparator(s) == s[..i] + "-" + s[i + 1..]
    ensures forall k :: 0 <= k < |s| && k != i ==> ReplaceFirstSeparator(s)[k] == s[k]
    ensures multiset(ReplaceFirstSeparator(s))[Separator] + 1 == multiset(s)[Separator]
  {
    var j := FirstIndexOf(s, Separator).value;
    assert j == i;
    var r := ReplaceFirstSeparator(s);
    assert r == s[..i] + "-" + s[i + 1..];
    forall k | 0 <= k < |s| && k != i
      ensures r[k] == s[k]
    {
      if k < i {
        assert r[k] == s[..i][k];
      } else {
        assert r[k] == s[i + 1..][k - i - 1];
      }
    }
    HyphenForSeparator(s, i);
  }

  /** Writing `-` over the separator at `i` removes exactly one separator. */
  lemma HyphenForSeparator(s: string, i: nat)
    requires i < |s| && s[i] == Separator
    ensures multiset(s[..i] + "-" + s[i + 1..])[Separator] + 1 == multiset(s)[Separator]
  {
    var r := s[..i] + "-" + s[i + 1..];
    assert s == s[..i] + [Separator] + s[i + 1..];
    calc {
      multiset(s)[Separator];
      (multiset(s[..i]) + multiset([Separator]) + multiset(s[i + 1..]))[Separator];
      (multiset(s[..i]) + multiset("-") + multiset(s[i + 1..]))[Separator] + 1;
      multiset(r)[Separator] + 1;
    }
  }

  /** The base of a link name as the source computes it: an `any character + css` tail off, the first separator a hyphen. */
  function StemAsWritten(normalized: string): (r: string)
    ensures |r| == if MatchesCssSuffix(normalized) then |normalized| - 4 else |normalized|
    ensures Separator !in normalized && !MatchesCssSuffix(normalized) ==> r == normalized
  {
    ReplaceFirstSeparator(StripCssAsWritten(normalized))
  }

  /** The base of a link name with only a literal `.css` extension removed. */
  function Stem(normalized: string): (r: string)
    ensures |r| == if EndsWith(normalized, ".css") then |normalized| - 4 else |normalized|
    ensures Separator !in normalized && !EndsWith(normalized, ".css") ==> r == normalized
  {
    ReplaceFirstSeparator(StripCssSuffix(normalized))
  }

  /**
   * The two stems agree exactly when the character the source's pattern
   * swallows before `css` is a `.` or the pattern does not match at all.
   */
  lemma {:induction false} StemAgreement(normalized: string)
    ensures StripCssAsWritten(normalized) == StripCssSuffix(normalized)
        <==> !MatchesCssSuffix(normalized) || normalized[|normalized| - 4] == '.'
    ensures !MatchesCssSuffix(normalized) || normalized[|normalized| - 4] == '.'
        ==> StemAsWritten(normalized) == Stem(normalized)
  {
    var s := normalized;
    CssExtensionSplit(s);
    if MatchesCssSuffix(s) && s[|s| - 4] != '.' {
      assert |StripCssAsWritten(s)| != |s|;
    }
  }

  /** The literal extension `.css` is the source's pattern with a `.` in the wildcard position. */
  lemma {:induction false} CssExtensionSplit(s: string)
    ensures EndsWith(s, ".css") <==> MatchesCssSuffix(s) && s[|s| - 4] == '.'
  {
    if |s| >= 4 {
      var t := s[|s| - 4..];
      assert t[0] == s[|s| - 4] && t[1..] == s[|s| - 3..];
      assert t == [t[0]] + t[1..];
      CssExtensionSpelled();
    }
  }

  /** `.css` as a dot followed by `css`. */
  lemma CssExtensionSpelled()
    ensures ".css" == ['.'] + "css"
  {
  }

  /** A package named `tailwindcss` loses a letter through the source's pattern. */
  lemma TailwindcssStems(name: string)
    requires name == "tailwindcss"
    ensures StemAsWritten(name) == "tailwin"
    ensures Stem(name) == name
  {
    assert name[7..] == "dcss";
    assert StripCssAsWritten(name) == "tailwin";
    assert name[7..] != ".css";
    assert Separator !in "tailwin";
  }

  /** `purescss` and `pure.css` share the source's stem `pure`; the corrected stems differ. */
  lemma PureCssStems(a: string, b: string)
    requires a == "purescss" && b == "pure.css"
    ensures StemAsWritten(a) == "pure" && StemAsWritten(b) == "pure"
    ensures Stem(a) == a && Stem(b) == "pure"
  {
    assert a[5..] == "css" && a[..4] == "pure";
    assert b[5..] == "css" && b[..4] == "pure";
    assert Separator !in "pure";
    CssExtensionSplit(a);
    CssExtensionSplit(b);
    assert a[4] != '.' && b[4] == '.';
  }

  /**
   * A name `a/b` with no separator in `a` and no `.css` extension has the
   * stem `a-b`: the first separator becomes a hyphen, any in `b` survive.
   */
  lemma {:induction false} StemOfNestedName(a: string, b: string)
    requires Separator !in a && !EndsWith(a + "/" + b, ".css")
    ensures Stem(a + "/" + b) == a + "-" + b
  {
    CssExtensionSplit(a + "/" + b);
    HyphenAfterFirstSegment(a, b);
  }

  /** `a/b` with no separator in `a`: the replacement yields `a-b`. */
  lemma HyphenAfterFirstSegment(a: string, b: string)
    requires Separator !in a
    ensures ReplaceFirstSeparator(a + "/" + b) == a + "-" + b
  {
    var s := a + "/" + b;
    assert s[..|a|] == a;
    ReplaceFirstSeparatorAt(s, |a|);
    assert s[|a| + 1..] == b;
  }

  /**
   * The source's stem of `a/b` with no separator in `a`: the hyphen joins
   * `a` to `b`, less the four characters `/.css$/` takes when `b` ends in a
   * match, and a rest that is exactly `css` is taken with the separator.
   */
  lemma {:induction false} StemAsWrittenOfNestedName(a: string, b: string)
    requires Separator !in a
    ensures MatchesCssSuffix(b) ==> StemAsWritten(a + "/" + b) == a + "-" + b[..|b| - 4]
    ensures !MatchesCssSuffix(a + "/" + b) ==> StemAsWritten(a + "/" + b) == a + "-" + b
    ensures b == "css" ==> StemAsWritten(a + "/" + b) == a
  {
    var s := a + "/" + b;
    if MatchesCssSuffix(b) {
      assert s[|s| - 4] == b[|b| - 4];
      assert s[|s| - 3..] == b[|b| - 3..];
      assert s[..|s| - 4] == a + "/" + b[..|b| - 4];
      HyphenAfterFirstSegment(a, b[..|b| - 4]);
    } else if !MatchesCssSuffix(s) {
      HyphenAfterFirstSegment(a, b);
    } else if b == "css" {
      assert s[|s| - 3..] == b;
      assert s[..|s| - 4] == a;
    }
  }

  /** The stem of a scoped package keeps the scope, joined by a hyphen, in the code and corrected alike. */
  lemma ScopedStem(name: string)
    requires name == "@scope/pkg"
    ensures StemAsWritten(name) == "@scope-pkg"
    ensures Stem(name) == "@scope-pkg"
  {
    ScopedNameSpelled();
    CssExtensionSplit(name);
    assert name[6] == Separator;
    StemOfNestedName("@scope", "pkg");
    assert name[|name| - 3] == 'p';
    StemAgreement(name);
  }

  /** The scoped example name and its stem, as a scope, a joining character and a package. */
  lemma ScopedNameSpelled()
    ensures "@scope" + "/" + "pkg" == "@scope/pkg"
    ensures "@scope" + "-" + "pkg" == "@scope-pkg"
  {
  }

  /** In a deeper path only the first separator becomes a hyphen, in the code and corrected alike. */
  lemma NestedStem(name: string)
    requires name == "a/b/c"
    ensures StemAsWritten(name) == "a-b/c"
    ensures Stem(name) == "a-b/c"
  {
    assert name == "a" + "/" + "b/c";
    CssExtensionSplit(name);
    assert name[1] == Separator;
    StemOfNestedName("a", "b/c");
    assert name[|name| - 3] == 'b';
    StemAgreement(name);
  }

  /** A package named after its stylesheet, `normalize.css`, loses the extension, in the code and corrected alike. */
  lemma ExtensionNamedStem(name: string)
    requires name == "normalize.css"
    ensures StemAsWritten(name) == "normalize"
    ensures Stem(name) == "normalize"
  {
    assert name[9..] == ".css";
    assert Separator !in "normalize";
    assert name[|name| - 4] == '.';
    StemAgreement(name);
  }

  /** Distinct packages can collide on one stem, in the code and corrected alike: `@scope/pkg` and `@scope-pkg`. */
  lemma StemsCollide(scoped: string, flat: string)
    requires scoped == "@scope/pkg" && flat == "@scope-pkg"
    ensures scoped != flat
    ensures StemAsWritten(scoped) == StemAsWritten(flat)
    ensures Stem(scoped) == Stem(flat)
  {
    ScopedStem(scoped);
    FlatNameStems(flat);
    assert scoped[6] != flat[6];
  }

  /** `@scope-pkg` has no separator and no `css` ending, so both stems leave it as it is. */
  lemma FlatNameStems(flat: string)
    requires flat == "@scope-pkg"
    ensures StemAsWritten(flat) == flat && Stem(flat) == flat
  {
    assert Separator !in flat;
    CssExtensionSplit(flat);
    assert flat[|flat| - 3] == 'p';
  }

  /** File name of a link: `_<stem>.scss` for `scss`, `<stem>.<ext>` otherwise. */
  function StyleSheetName(stem: string, extension: string): (r: string)
    ensures extension == ScssExtension ==>
      |r| == |stem| + 6 && r[0] == '_' && r[1..|stem| + 1] == stem && r[|stem| + 1..] == ".scss"
    ensures extension != ScssExtension ==>
      |r| == |stem| + 1 + |extension| && r[..|stem|] == stem && r[|stem|] == '.' && r[|stem| + 1..] == extension
  {
    if extension == ScssExtension then "_" + stem + ".scss" else stem + "." + extension
  }

  /** For a fixed extension, distinct stems give distinct file names. */
  lemma {:induction false} StyleSheetNameInjective(a: string, b: string, extension: string)
    requires StyleSheetName(a, extension) == StyleSheetName(b, extension)
    ensures a == b
  {
    var n := StyleSheetName(a, extension);
    if extension == ScssExtension {
      assert |a| == |b|;
      assert a == n[1..1 + |a|];
    } else {
      assert |a| == |b|;
      assert a == n[..|a|];
    }
  }
}
