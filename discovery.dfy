/**
 * Manifest discovery: the recursive walk of `recurse` over the dependency
 * tree, which appends one record per styled `package.json` to a single
 * accumulator shared by every level of the recursion.
 */
module Discovery {
  import opened Wrappers
  import opened Paths
  import opened Names

  /** What `lstat` reports for a directory entry, with what the walk reads from it. */
  datatype Node =
    /** A directory and the entries its listing returns. */
    | Dir(children: seq<Entry>)
    /** A regular file; `style` is the `style` field its parsed content holds. */
    | File(style: Option<string>)
    /** A symbolic link, socket or anything else: neither followed nor read. */
    | Other

  /** One name in a directory listing. */
  datatype Entry = Entry(name: string, node: Node)

  /** `{name, style, normalized}` as pushed by the walk. */
  datatype StyleRecord = StyleRecord(name: string, style: string, normalized: string)

  /** A regular file met by the walk, with its full path. */
  datatype FoundFile = FoundFile(path: string, style: Option<string>)

  /** JavaScript truthiness of a string-valued `style` field: present and non-empty. */
  predicate Truthy(style: Option<string>) {
    style.Some? && style.value != ""
  }

  /** `getPackageStyleSheet`: the stylesheet path beside the manifest, or `false` (None). */
  function PackageStyleSheet(manifestPath: string, style: Option<string>): (r: Option<string>)
    ensures r.Some? <==> Truthy(style)
    ensures r.Some? ==> r.value == Join(Dirname(manifestPath), style.value)
    ensures r.Some? && Separator !in style.value ==> Basename(r.value) == style.value
  {
    if Truthy(style) then
      JoinSplitsBasename(Dirname(manifestPath), style.value);
      Some(Join(Dirname(manifestPath), style.value))
    else None
  }

  lemma JoinSplitsBasename(a: string, b: string)
    ensures b != "" && Separator !in b ==> Basename(Join(a, b)) == b
  {
    if b != "" && Separator !in b {
      JoinSplits(a, b);
    }
  }

  /** The record the walk pushes for a manifest at `path` whose style resolves to `stylePath`. */
  function ManifestRecord(path: string, stylePath: string): StyleRecord {
    StyleRecord(path, stylePath, NormalizePackageName(path))
  }

  /** A record as the walk pushes it: a `package.json` path and the name normalised from it. */
  predicate DescribesManifest(record: StyleRecord) {
    Basename(record.name) == ManifestName && record.normalized == NormalizePackageName(record.name)
  }

  /** What one entry under `base` contributes to the accumulator. */
  function EntryRecords(base: string, e: Entry): (r: seq<StyleRecord>)
    decreases e
    ensures forall k :: 0 <= k < |r| ==> DescribesManifest(r[k])
  {
    var path := Join(base, e.name);
    match e.node
    case Dir(children) => Discover(path, children)
    case File(style) => FileRecords(path, style)
    case Other => []
  }

  /** What a regular file at `path` contributes: one record when it is a styled manifest. */
  function FileRecords(path: string, style: Option<string>): (r: seq<StyleRecord>)
    ensures |r| <= 1
    ensures r != [] <==> Basename(path) == ManifestName && Truthy(style)
    ensures r != [] ==> r[0] == StyleRecord(path, Join(Dirname(path), style.value), NormalizePackageName(path))
    ensures forall k :: 0 <= k < |r| ==> DescribesManifest(r[k])
  {
    if Basename(path) == ManifestName then
      match PackageStyleSheet(path, style)
      case Some(stylePath) => [ManifestRecord(path, stylePath)]
      case None => []
    else []
  }

  /**
   * The records the walk of a directory at `base` with the given listing
   * appends, in listing order: the accumulator-free fold of `recurse`.
   */
  function Discover(base: string, listing: seq<Entry>): (r: seq<StyleRecord>)
    decreases listing
    ensures forall k :: 0 <= k < |r| ==> DescribesManifest(r[k])
  {
    if listing == [] then [] else EntryRecords(base, listing[0]) + Discover(base, listing[1..])
  }

  // ---------------------------------------------------------------------------
  // Reference definition: flatten the tree, then select the styled manifests
  // ---------------------------------------------------------------------------

  /** Every regular file one entry under `base` holds: itself, or all below it. */
  function EntryFiles(base: string, e: Entry): seq<FoundFile>
    decreases e
  {
    var path := Join(base, e.name);
    match e.node
    case Dir(children) => Files(path, children)
    case File(style) => [FoundFile(path, style)]
    case Other => []
  }

  /** Every regular file below `base`: directories descended, other entries skipped. */
  function Files(base: string, listing: seq<Entry>): seq<FoundFile>
    decreases listing
  {
    if listing == [] then [] else EntryFiles(base, listing[0]) + Files(base, listing[1..])
  }

  /** A file the walk reports: named `package.json` with a truthy `style`. */
  predicate Qualifies(f: FoundFile) {
    Basename(f.path) == ManifestName && Truthy(f.style)
  }

  /** The record a qualifying file yields. */
  function RecordOf(f: FoundFile): StyleRecord
    requires Qualifies(f)
  {
    ManifestRecord(f.path, Join(Dirname(f.path), f.style.value))
  }

  /** What one file contributes to the selection: its record if it qualifies. */
  function Picked(f: FoundFile): seq<StyleRecord> {
    if Qualifies(f) then [RecordOf(f)] else []
  }

  /** Keep the qualifying files and turn each into its record, order preserved. */
  function Select(files: seq<FoundFile>): (r: seq<StyleRecord>)
    ensures |r| <= |files|
  {
    if files == [] then [] else Picked(files[0]) + Select(files[1..])
  }

  lemma {:induction false} SelectAppend(a: seq<FoundFile>, b: seq<FoundFile>)
    ensures Select(a + b) == Select(a) + Select(b)
  {
    if a == [] {
      assert a + b == b;
    } else {
      assert (a + b)[0] == a[0];
      assert (a + b)[1..] == a[1..] + b;
      SelectAppend(a[1..], b);
      assert Select(a + b) == Picked(a[0]) + Select(a[1..] + b);
    }
  }

  /** The walk reports exactly the qualifying files, one record each, in walk order. */
  lemma {:induction false} DiscoverSelectsManifests(base: string, listing: seq<Entry>)
    ensures Discover(base, listing) == Select(Files(base, listing))
    decreases listing
  {
    if listing != [] {
      EntrySelectsManifests(base, listing[0]);
      DiscoverSelectsManifests(base, listing[1..]);
      SelectAppend(EntryFiles(base, listing[0]), Files(base, listing[1..]));
    }
  }

  /** The same, for what one entry contributes. */
  lemma {:induction false} EntrySelectsManifests(base: string, e: Entry)
    ensures EntryRecords(base, e) == Select(EntryFiles(base, e))
    decreases e
  {
    var path := Join(base, e.name);
    match e.node
    case Dir(children) =>
      DiscoverSelectsManifests(path, children);
    case File(style) =>
      var f := FoundFile(path, style);
      assert [f][1..] == [];
      assert Select([f]) == if Qualifies(f) then [RecordOf(f)] else [];
    case Other =>
  }

  lemma {:induction false} SelectMembers(files: seq<FoundFile>, r: StyleRecord)
    ensures r in Select(files) <==> exists f :: f in files && Qualifies(f) && r == RecordOf(f)
  {
    if files != [] {
      SelectMembers(files[1..], r);
      assert forall f :: f in files <==> f == files[0] || f in files[1..];
    }
  }

  /**
   * Membership, both ways: a record is reported exactly when some regular
   * file of the tree is a styled `package.json` whose record it is.
   */
  lemma DiscoverMembers(base: string, listing: seq<Entry>, r: StyleRecord)
    ensures r in Discover(base, listing)
        <==> exists f :: f in Files(base, listing) && Qualifies(f) && r == RecordOf(f)
  {
    DiscoverSelectsManifests(base, listing);
    SelectMembers(Files(base, listing), r);
  }

  /**
   * Every reported record names a `package.json`, carries that manifest's
   * normalised name, and its style path is the declared style joined to the
   * manifest's directory.
   */
  lemma RecordsDescribeManifests(base: string, listing: seq<Entry>, r: StyleRecord)
    requires r in Discover(base, listing)
    ensures Basename(r.name) == ManifestName
    ensures r.normalized == NormalizePackageName(r.name)
    ensures exists style :: style != "" && FoundFile(r.name, Some(style)) in Files(base, listing)
                         && r.style == Join(Dirname(r.name), style)
  {
    DiscoverMembers(base, listing, r);
    var f :| f in Files(base, listing) && Qualifies(f) && r == RecordOf(f);
    assert FoundFile(r.name, Some(f.style.value)) == f;
  }

  /** How many files of a flat list qualify. */
  function QualifyingCount(files: seq<FoundFile>): nat {
    if files == [] then 0 else (if Qualifies(files[0]) then 1 else 0) + QualifyingCount(files[1..])
  }

  lemma {:induction false} SelectCount(files: seq<FoundFile>)
    ensures |Select(files)| == QualifyingCount(files)
  {
    if files != [] {
      SelectCount(files[1..]);
    }
  }

  /** One record per styled manifest: the walk's output is as long as the number of them. */
  lemma DiscoverCount(base: string, listing: seq<Entry>)
    ensures |Discover(base, listing)| == QualifyingCount(Files(base, listing))
  {
    DiscoverSelectsManifests(base, listing);
    SelectCount(Files(base, listing));
  }

  /** A tree without any styled manifest yields no record. */
  lemma NoStyledManifestNoRecords(base: string, listing: seq<Entry>)
    requires forall f :: f in Files(base, listing) ==> !Qualifies(f)
    ensures Discover(base, listing) == []
  {
    if Discover(base, listing) != [] {
      var r := Discover(base, listing)[0];
      DiscoverMembers(base, listing, r);
    }
  }

  /** The walk of a listing is the walk of its parts, one after the other. */
  lemma {:induction false} DiscoverAppend(base: string, a: seq<Entry>, b: seq<Entry>)
    ensures Discover(base, a + b) == Discover(base, a) + Discover(base, b)
  {
    if a == [] {
      assert a + b == b;
    } else {
      assert (a + b)[0] == a[0];
      assert (a + b)[1..] == a[1..] + b;
      DiscoverAppend(base, a[1..], b);
    }
  }

  /** The walk of a listing's first `i + 1` entries extends that of its first `i`. */
  lemma DiscoverStep(base: string, listing: seq<Entry>, i: nat)
    requires i < |listing|
    ensures Discover(base, listing[..i + 1]) == Discover(base, listing[..i]) + EntryRecords(base, listing[i])
  {
    assert listing[..i + 1] == listing[..i] + [listing[i]];
    DiscoverAppend(base, listing[..i], [listing[i]]);
    assert [listing[i]][1..] == [];
  }

  /** An accumulator holding the first `i` entries' records, then entry `i`'s, holds the first `i + 1` entries'. */
  lemma AccumulateStep(start: seq<StyleRecord>, items: seq<StyleRecord>, base: string, listing: seq<Entry>, i: nat)
    requires i < |listing|
    requires items == start + Discover(base, listing[..i]) + EntryRecords(base, listing[i])
    ensures items == start + Discover(base, listing[..i + 1])
  {
    DiscoverStep(base, listing, i);
  }

  /**
   * A top-level package `pkg` with a manifest declaring `style` yields one
   * record: the manifest path, the style beside it, and `pkg` as its name.
   */
  lemma {:induction false} SinglePackageRecord(pkg: string, style: string)
    requires pkg != "" && Separator !in pkg && style != ""
    ensures Discover(NodeModulesRoot, [Entry(pkg, Dir([Entry(ManifestName, File(Some(style)))]))])
         == [StyleRecord(NodeModulesRoot + pkg + "/" + ManifestName, NodeModulesRoot + pkg + "/" + style, pkg)]
  {
    var dir := NodeModulesRoot + pkg;
    assert Join(NodeModulesRoot, pkg) == dir;
    assert pkg[|pkg| - 1] in pkg;
    assert dir[|dir| - 1] == pkg[|pkg| - 1];
    ManifestBeside(dir, style);
    NormalizeManifestPath(pkg);
    var file := Entry(ManifestName, File(Some(style)));
    var records := [StyleRecord(dir + "/" + ManifestName, dir + "/" + style, pkg)];
    assert EntryRecords(dir, file) == records;
    DiscoverSingleton(dir, file);
    var top := Entry(pkg, Dir([file]));
    assert EntryRecords(NodeModulesRoot, top) == Discover(dir, [file]);
    DiscoverSingleton(NodeModulesRoot, top);
  }

  /** A one-entry listing contributes what its entry does. */
  lemma DiscoverSingleton(base: string, e: Entry)
    ensures Discover(base, [e]) == EntryRecords(base, e)
  {
    assert [e][1..] == [];
  }

  /** A manifest directly inside a directory `dir` with no trailing separator, and the record it yields. */
  lemma ManifestBeside(dir: string, style: string)
    requires dir != "" && dir[|dir| - 1] != Separator && style != ""
    ensures Join(dir, ManifestName) == dir + "/" + ManifestName
    ensures FileRecords(dir + "/" + ManifestName, Some(style))
         == [ManifestRecord(dir + "/" + ManifestName, dir + "/" + style)]
  {
    var manifest := Join(dir, ManifestName);
    JoinSplits(dir, ManifestName);
    assert Dirname(manifest) == dir;
    assert Join(dir, style) == dir + "/" + style;
  }

  // ---------------------------------------------------------------------------
  // The walk as the source performs it: one shared, growing accumulator
  // ---------------------------------------------------------------------------

  /** The `styles` array every level of `recurse` pushes to. */
  class StyleList {
    var items: seq<StyleRecord>

    /** The default `styles = []`. */
    constructor ()
      ensures items == []
    {
      items := [];
    }

    /** `styles.push(record)`: the only way the accumulator changes. */
    method Push(record: StyleRecord)
      modifies this
      ensures items == old(items) + [record]
    {
      items := items + [record];
    }
  }

  /**
   * `recurse(basePath, styles)`: walk the directory whose listing is given,
   * pushing to `styles`, and hand back that same accumulator. Earlier
   * entries are kept unchanged; the new ones are exactly `Discover`'s.
   */
  method Recurse(basePath: string, listing: seq<Entry>, styles: StyleList) returns (result: StyleList)
    modifies styles
    decreases listing
    ensures result == styles
    ensures styles.items == old(styles.items) + Discover(basePath, listing)
  {
    ghost var start := styles.items;
    var i := 0;
    while i < |listing|
      invariant 0 <= i <= |listing|
      invariant styles.items == start + Discover(basePath, listing[..i])
    {
      VisitEntry(basePath, listing[i], styles);
      AccumulateStep(start, styles.items, basePath, listing, i);
      i := i + 1;
    }
    assert listing[..i] == listing;
    result := styles;
  }

  /**
   * The callback `recurse` runs for each listed entry: descend into a
   * directory, read a regular file, ignore anything else.
   */
  method VisitEntry(basePath: string, entry: Entry, styles: StyleList)
    modifies styles
    decreases entry
    ensures styles.items == old(styles.items) + EntryRecords(basePath, entry)
  {
    var packageJsonPath := Join(basePath, entry.name);
    match entry.node {
      case Dir(children) =>
        var _ := Recurse(packageJsonPath, children, styles);
      case File(style) =>
        VisitFile(packageJsonPath, style, styles);
      case Other =>
    }
  }

  /**
   * The file branch of `recurse`: a regular file named `package.json` is read
   * and, when its style resolves, its record is pushed.
   */
  method VisitFile(packageJsonPath: string, style: Option<string>, styles: StyleList)
    modifies styles
    ensures styles.items == old(styles.items) + FileRecords(packageJsonPath, style)
  {
    if Basename(packageJsonPath) == ManifestName {
      var stylePath := PackageStyleSheet(packageJsonPath, style);
      if stylePath.Some? {
        styles.Push(StyleRecord(packageJsonPath, stylePath.value, NormalizePackageName(packageJsonPath)));
      }
    }
  }

  /** `recurse(NODE_MODULES_ROOT)`: a fresh accumulator filled from the dependency root. */
  method FindStyles(tree: seq<Entry>) returns (styles: StyleList)
    ensures fresh(styles)
    ensures styles.items == Discover(NodeModulesRoot, tree)
  {
    var accumulator := new StyleList();
    styles := Recurse(NodeModulesRoot, tree, accumulator);
  }
}
