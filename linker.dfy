/**
 * Link planning: for every discovered record, the symbolic link the install
 * step asks for — where the link goes (`source`) and what it points to
 * (`target`) — and the count it reports.
 */
module Linker {
  import opened Wrappers
  import opened Paths
  import opened Names
  import opened Discovery

  /** The directory links are placed in; fixed, whatever `--root` says. */
  const LinkDirectory: string := "styles"
  /** The extension used when `--ext` is not given. */
  const DefaultExtension: string := "css"
  /** Targets are written relative to the link directory, one level below the working directory. */
  const ParentDirectory: string := ".."

  /** One `fsp.symlink(target, source)` request. */
  datatype LinkPlan = LinkPlan(source: string, target: string)

  /** The link a record gets once its stem is known: `styles/<file name>` pointing to `../<style>`. */
  function LinkFor(stem: string, style: string, extension: string): LinkPlan {
    LinkPlan(Join(LinkDirectory, StyleSheetName(stem, extension)), Join(ParentDirectory, style))
  }

  /** The link for one record under the configured extension, with the stem the source computes. */
  function PlanLink(record: StyleRecord, extension: string): (plan: LinkPlan)
    ensures plan.source == LinkDirectory + "/" + StyleSheetName(StemAsWritten(record.normalized), extension)
    ensures record.style != "" ==> plan.target == ParentDirectory + "/" + record.style
  {
    LinkForLayout(StemAsWritten(record.normalized), record.style, extension);
    LinkFor(StemAsWritten(record.normalized), record.style, extension)
  }

  /** The same link with only a literal `.css` extension taken off the name. */
  function PlanLinkCorrected(record: StyleRecord, extension: string): (plan: LinkPlan)
    ensures plan.source == LinkDirectory + "/" + StyleSheetName(Stem(record.normalized), extension)
    ensures plan.target == PlanLink(record, extension).target
  {
    LinkForLayout(Stem(record.normalized), record.style, extension);
    LinkForLayout(StemAsWritten(record.normalized), record.style, extension);
    LinkFor(Stem(record.normalized), record.style, extension)
  }

  /** `styles.map(...)`: one link per record, in record order, each laid out as `PlanLinkLayout` states. */
  function PlanLinks(records: seq<StyleRecord>, extension: string): (plans: seq<LinkPlan>)
    ensures |plans| == |records|
    ensures forall i :: 0 <= i < |records| ==> plans[i] == PlanLink(records[i], extension)
    ensures forall i :: 0 <= i < |records| ==>
      && plans[i].source == LinkDirectory + "/" + StyleSheetName(StemAsWritten(records[i].normalized), extension)
      && (records[i].style != "" ==> plans[i].target == ParentDirectory + "/" + records[i].style)
  {
    var plans := seq(|records|, i requires 0 <= i < |records| => PlanLink(records[i], extension));
    assert forall i :: 0 <= i < |records| ==>
      && plans[i].source == LinkDirectory + "/" + StyleSheetName(StemAsWritten(records[i].normalized), extension)
      && (records[i].style != "" ==> plans[i].target == ParentDirectory + "/" + records[i].style)
    by {
      forall i | 0 <= i < |records|
        ensures plans[i].source == LinkDirectory + "/" + StyleSheetName(StemAsWritten(records[i].normalized), extension)
        ensures records[i].style != "" ==> plans[i].target == ParentDirectory + "/" + records[i].style
      {
        assert plans[i] == PlanLink(records[i], extension);
        PlanLinkLayout(records[i], extension);
      }
    }
    plans
  }

  /** The install step: discover from the dependency root, then plan every link. */
  function Install(tree: seq<Entry>, extension: string): (plans: seq<LinkPlan>)
    ensures |plans| == QualifyingCount(Files(NodeModulesRoot, tree))
  {
    DiscoverCount(NodeModulesRoot, tree);
    PlanLinks(Discover(NodeModulesRoot, tree), extension)
  }

  /**
   * Where the link for a stem goes and what it points to: the source is the
   * file name inside `styles/`, `_<stem>.scss` or `<stem>.<ext>`; the target
   * is the style path one directory up, and does not depend on the extension.
   */
  lemma LinkForLayout(stem: string, style: string, extension: string)
    ensures var plan := LinkFor(stem, style, extension);
      && plan.source == LinkDirectory + "/" + StyleSheetName(stem, extension)
      && (style != "" ==> plan.target == ParentDirectory + "/" + style)
      && (style == "" ==> plan.target == ParentDirectory)
      && (extension == ScssExtension ==> plan.source == "styles/_" + stem + ".scss")
      && plan.target == LinkFor(stem, style, DefaultExtension).target
  {
    var name := StyleSheetName(stem, extension);
    assert name != "";
    assert TrimTrailingSeparator(LinkDirectory) == LinkDirectory;
    assert TrimTrailingSeparator(ParentDirectory) == ParentDirectory;
    if extension == ScssExtension {
      LinkPrefixSpelled();
      assert name == "_" + stem + ".scss";
      assert LinkDirectory + "/" + name == (LinkDirectory + "/" + "_") + stem + ".scss";
    }
  }

  /** The link directory and separator, followed by the partial-file mark. */
  lemma LinkPrefixSpelled()
    ensures LinkDirectory + "/" + "_" == "styles/_"
  {
  }

  /** For one extension, two stems give the same link source exactly when they are equal. */
  lemma {:induction false} LinkSourceInjective(a: string, b: string, style: string, extension: string)
    ensures LinkFor(a, style, extension).source == LinkFor(b, style, extension).source <==> a == b
  {
    LinkForLayout(a, style, extension);
    LinkForLayout(b, style, extension);
    var na := StyleSheetName(a, extension);
    var nb := StyleSheetName(b, extension);
    if LinkFor(a, style, extension).source == LinkFor(b, style, extension).source {
      var prefix := LinkDirectory + "/";
      assert prefix + na == prefix + nb;
      assert na == (prefix + na)[|prefix|..];
      assert nb == (prefix + nb)[|prefix|..];
      StyleSheetNameInjective(a, b, extension);
    }
  }

  /**
   * The link the source makes: `styles/` + the file name of the source's
   * stem, with `styles/_<stem>.scss` for `scss`; the target is `../` + the
   * style path, whatever the extension.
   */
  lemma PlanLinkLayout(record: StyleRecord, extension: string)
    ensures var plan := PlanLink(record, extension);
      && plan.source == LinkDirectory + "/" + StyleSheetName(StemAsWritten(record.normalized), extension)
      && (record.style != "" ==> plan.target == ParentDirectory + "/" + record.style)
      && (record.style == "" ==> plan.target == ParentDirectory)
      && (extension == ScssExtension ==> plan.source == "styles/_" + StemAsWritten(record.normalized) + ".scss")
      && plan.target == PlanLink(record, DefaultExtension).target
  {
    LinkForLayout(StemAsWritten(record.normalized), record.style, extension);
  }

  /**
   * Two records get the same link source exactly when the source's stems
   * agree: distinct stems never share a source, while names the stem
   * rewriting maps together (`purescss` and `pure.css`, `@scope/pkg` and
   * `@scope-pkg`) do.
   */
  lemma {:induction false} SourcesCollideIffStemsAgree(a: StyleRecord, b: StyleRecord, extension: string)
    ensures PlanLink(a, extension).source == PlanLink(b, extension).source
        <==> StemAsWritten(a.normalized) == StemAsWritten(b.normalized)
  {
    var sa := StemAsWritten(a.normalized);
    var sb := StemAsWritten(b.normalized);
    LinkForLayout(sa, a.style, extension);
    LinkForLayout(sb, b.style, extension);
    assert PlanLink(a, extension).source == LinkFor(sa, b.style, extension).source;
    LinkSourceInjective(sa, sb, b.style, extension);
  }

  /**
   * The corrected link differs from the source's only in its source, and
   * only when the stems differ; it is the same link whenever `/.css$/`
   * does not match the name or swallows a `.`.
   */
  lemma {:induction false} PlanLinkCorrectedAgrees(record: StyleRecord, extension: string)
    ensures PlanLinkCorrected(record, extension).target == PlanLink(record, extension).target
    ensures PlanLinkCorrected(record, extension) == PlanLink(record, extension)
        <==> Stem(record.normalized) == StemAsWritten(record.normalized)
    ensures var n := record.normalized;
      !MatchesCssSuffix(n) || n[|n| - 4] == '.' ==> PlanLinkCorrected(record, extension) == PlanLink(record, extension)
  {
    LinkSourceInjective(Stem(record.normalized), StemAsWritten(record.normalized), record.style, extension);
    StemAgreement(record.normalized);
  }

  /**
   * `purescss` and `pure.css` get one link source from the source's pattern,
   * `styles/pure.<ext>`; the corrected stems keep them apart.
   */
  lemma PureCssCollision(a: StyleRecord, b: StyleRecord, extension: string)
    requires a.normalized == "purescss" && b.normalized == "pure.css"
    ensures PlanLink(a, extension).source == PlanLink(b, extension).source
    ensures PlanLink(a, extension).source == LinkDirectory + "/" + StyleSheetName("pure", extension)
    ensures PlanLinkCorrected(a, extension).source != PlanLinkCorrected(b, extension).source
  {
    PureCssStems(a.normalized, b.normalized);
    SourcesCollideIffStemsAgree(a, b, extension);
    PlanLinkLayout(a, extension);
    LinkSourceInjective(Stem(a.normalized), Stem(b.normalized), b.style, extension);
    LinkForLayout(Stem(a.normalized), a.style, extension);
    LinkForLayout(Stem(a.normalized), b.style, extension);
  }

  /** The reported count: one per discovered record, links skipped or failed included. */
  lemma InstallCount(tree: seq<Entry>, extension: string)
    ensures |Install(tree, extension)| == QualifyingCount(Files(NodeModulesRoot, tree))
  {
    DiscoverCount(NodeModulesRoot, tree);
  }

  /** A dependency tree without styled manifests plans no link at all. */
  lemma NoStylesNoLinks(tree: seq<Entry>, extension: string)
    requires forall f :: f in Files(NodeModulesRoot, tree) ==> !Qualifies(f)
    ensures Install(tree, extension) == []
  {
    NoStyledManifestNoRecords(NodeModulesRoot, tree);
  }

  /**
   * The links that single package gets: one link, `styles/<file name>` of
   * the source's stem of the package name, pointing one directory up to the
   * style beside the manifest.
   */
  lemma {:induction false} SinglePackageLinks(pkg: string, style: string, extension: string)
    requires pkg != "" && Separator !in pkg && style != ""
    ensures Install([Entry(pkg, Dir([Entry(ManifestName, File(Some(style)))]))], extension)
         == [LinkPlan(LinkDirectory + "/" + StyleSheetName(StemAsWritten(pkg), extension),
                      ParentDirectory + "/" + (NodeModulesRoot + pkg + "/" + style))]
  {
    SinglePackageRecord(pkg, style);
    var record := StyleRecord(NodeModulesRoot + pkg + "/" + ManifestName, NodeModulesRoot + pkg + "/" + style, pkg);
    PlanLinkLayout(record, extension);
  }

  /**
   * A top-level `tailwindcss` package is linked as `styles/tailwin.css`
   * by default, where the corrected stem gives `styles/tailwindcss.css`.
   */
  lemma {:induction false} TailwindcssLink(pkg: string, style: string)
    requires pkg == "tailwindcss" && style != ""
    ensures var tree := [Entry(pkg, Dir([Entry(ManifestName, File(Some(style)))]))];
      && |Install(tree, DefaultExtension)| == 1
      && Install(tree, DefaultExtension)[0].source == "styles/tailwin.css"
      && PlanLinkCorrected(Discover(NodeModulesRoot, tree)[0], DefaultExtension).source == "styles/tailwindcss.css"
  {
    TailwindcssStems(pkg);
    SinglePackageLinks(pkg, style, DefaultExtension);
    SinglePackageRecord(pkg, style);
    var record := StyleRecord(NodeModulesRoot + pkg + "/" + ManifestName, NodeModulesRoot + pkg + "/" + style, pkg);
    LinkForLayout(Stem(pkg), record.style, DefaultExtension);
    TailwindcssLinkNames(pkg);
  }

  /** The default-extension link sources of the two `tailwindcss` stems. */
  lemma TailwindcssLinkNames(pkg: string)
    requires pkg == "tailwindcss"
    ensures LinkDirectory + "/" + StyleSheetName("tailwin", DefaultExtension) == "styles/tailwin.css"
    ensures LinkDirectory + "/" + StyleSheetName(pkg, DefaultExtension) == "styles/tailwindcss.css"
  {
    assert StyleSheetName("tailwin", DefaultExtension) == "tailwin" + "." + "css";
    assert StyleSheetName(pkg, DefaultExtension) == pkg + "." + "css";
  }

  /**
   * `node_modules/pkg-a/package.json` declaring `pkg-a.css`: the record is
   * named `pkg-a` and links `styles/pkg-a.css -> ../node_modules/pkg-a/pkg-a.css`
   * by default, `styles/_pkg-a.scss` to the same target with `--ext scss`.
   */
  lemma SinglePackageExample(pkg: string, style: string)
    requires pkg == "pkg-a" && style == "pkg-a.css"
    ensures Discover(NodeModulesRoot, [Entry(pkg, Dir([Entry(ManifestName, File(Some(style)))]))])
         == [StyleRecord("node_modules/pkg-a/package.json", "node_modules/pkg-a/pkg-a.css", "pkg-a")]
    ensures Install([Entry(pkg, Dir([Entry(ManifestName, File(Some(style)))]))], DefaultExtension)
         == [LinkPlan("styles/pkg-a.css", "../node_modules/pkg-a/pkg-a.css")]
    ensures Install([Entry(pkg, Dir([Entry(ManifestName, File(Some(style)))]))], ScssExtension)
         == [LinkPlan("styles/_pkg-a.scss", "../node_modules/pkg-a/pkg-a.css")]
  {
    assert pkg[1..] == "kg-a";
    assert pkg[2..] == "g-a";
    assert StemAsWritten(pkg) == pkg;
    SinglePackageRecord(pkg, style);
    SinglePackageLinks(pkg, style, DefaultExtension);
    SinglePackageLinks(pkg, style, ScssExtension);
    PackageAStrings();
  }

  /** The string pieces of the example above, spelled out. */
  lemma PackageAStrings()
    ensures NodeModulesRoot + "pkg-a" + "/" + ManifestName == "node_modules/pkg-a/package.json"
    ensures NodeModulesRoot + "pkg-a" + "/" + "pkg-a.css" == "node_modules/pkg-a/pkg-a.css"
    ensures ParentDirectory + "/" + (NodeModulesRoot + "pkg-a" + "/" + "pkg-a.css") == "../node_modules/pkg-a/pkg-a.css"
    ensures LinkDirectory + "/" + StyleSheetName("pkg-a", DefaultExtension) == "styles/pkg-a.css"
    ensures LinkDirectory + "/" + StyleSheetName("pkg-a", ScssExtension) == "styles/_pkg-a.scss"
  {
    PackageAPaths();
    PackageALinkNames();
  }

  /** The manifest and style paths of the example. */
  lemma PackageAPaths()
    ensures NodeModulesRoot + "pkg-a" + "/" + ManifestName == "node_modules/pkg-a/package.json"
    ensures NodeModulesRoot + "pkg-a" + "/" + "pkg-a.css" == "node_modules/pkg-a/pkg-a.css"
  {
  }

  /** The link sources of the example. */
  lemma PackageALinkNames()
    ensures LinkDirectory + "/" + StyleSheetName("pkg-a", DefaultExtension) == "styles/pkg-a.css"
    ensures LinkDirectory + "/" + StyleSheetName("pkg-a", ScssExtension) == "styles/_pkg-a.scss"
  {
  }

  /**
   * A scoped package's manifest `node_modules/<scope>/<pkg>/package.json`
   * is named `<scope>/<pkg>` and linked under the code's stem of that name:
   * `<scope>-<pkg>` when `/.css$/` does not match, and `<scope>-` followed by
   * `<pkg>` less its last four characters when it matches inside `<pkg>`
   * (so `@s/purecss` is linked as `styles/@s-pur.<ext>`).
   */
  lemma {:induction false} ScopedPackageLink(scope: string, pkg: string, stylePath: string, extension: string)
    ensures var record := ManifestRecord(NodeModulesRoot + (scope + "/" + pkg) + "/" + ManifestName, stylePath);
      var source := PlanLink(record, extension).source;
      && record.normalized == scope + "/" + pkg
      && source == LinkDirectory + "/" + StyleSheetName(StemAsWritten(scope + "/" + pkg), extension)
      && (Separator !in scope && !MatchesCssSuffix(scope + "/" + pkg) ==>
            source == LinkDirectory + "/" + StyleSheetName(scope + "-" + pkg, extension))
      && (Separator !in scope && MatchesCssSuffix(pkg) ==>
            source == LinkDirectory + "/" + StyleSheetName(scope + "-" + pkg[..|pkg| - 4], extension))
  {
    var record := ManifestRecord(NodeModulesRoot + (scope + "/" + pkg) + "/" + ManifestName, stylePath);
    NormalizeManifestPath(scope + "/" + pkg);
    PlanLinkLayout(record, extension);
    if Separator !in scope {
      StemAsWrittenOfNestedName(scope, pkg);
    }
  }
}
