# nicss in Dafny

`nicss` walks a project's `node_modules/` tree. It finds every `package.json`
whose `style` field names a stylesheet and records it. For each record it
then computes a symbolic link inside `styles/` that points back into the
dependency tree, and attempts to create it. As written, the attempt never
creates a link (see "## Left out").

This project models the logic of `index.js` that decides what gets linked:

- `Names`: `normalizePackageName`, the two anchored regular-expression
  replacements that turn a manifest path into a package name. Also the
  rewriting that turns that name into a link file name.
- `Discovery`: the recursive walk `recurse` with `getPackageStyleSheet`.
  The dependency tree is a value: a `Dir` holds the entries its listing
  returns, a `File` holds the `style` field its parsed content gives, and
  `Other` stands for symbolic links and any other kind of entry, which
  `lstat` reports and the walk skips. The walk is modelled twice:
  - `Discover` is the pure fold. It returns the records one directory
    contributes.
  - `Recurse` is the walk as the source writes it. It is a method that
    pushes onto one shared `StyleList` object passed down every level, and
    it is proved to append exactly `Discover`'s records.
  `Files` and `Select` give an independent description: flatten the tree
  into its regular files, then keep the styled manifests. The two are
  proved equal. Membership, the record count and the fields of every
  record follow from that.
- `Linker`: the `(source, target)` pair computed for each record
  (lines 103-115), and the count that is reported. `PlanLink` and
  `Install` compute the link exactly as the code does, with the stem from
  `/.css$/` as written. `PlanLinkCorrected` is the same link with the
  corrected stem of the "## Findings" row. `PlanLinkCorrectedAgrees` states
  when the two links coincide.
- `Paths`: `path.join`, `path.dirname` and `path.basename` on plain
  `/`-separated paths.

Regular-expression `.` is modelled as it behaves in JavaScript without the
`s` flag: it matches any character except `\n`, `\r`, U+2028 and U+2029.
A Dafny `char` is a whole Unicode scalar value. Without the `u` flag,
JavaScript's `.` matches a single UTF-16 code unit instead. The two differ
only for characters outside the Basic Multilingual Plane (see "## Left out").

Two points where the code differs from what its options and help text
describe; the model follows the code:
- Links go into the literal directory `styles` (line 115). `--root` only
  decides which directory is removed and recreated (lines 100-101).
- The link target is the recorded style path under `..`, whatever the
  extension (line 104). The help text's examples show
  `styles/_normalize.css` for the default extension and a `.scss` target
  for `--ext scss`. The code produces neither.

## Model

| member | source | states |
|---|---|---|
| `Paths.Basename` | index.js:39 | the base name has no separator, is a suffix of the path, is the whole path when there is no separator, and otherwise follows the last separator |
| `Paths.Dirname` | index.js:16 | the directory part is never empty; it is `.` for a path without a separator, `/` when the only separator is the first character, and otherwise everything before the separator that precedes the base name |
| `Paths.Join` | index.js:33 | joining two non-empty parts puts exactly one separator between the first part (one trailing separator dropped) and the second |
| `Paths.JoinSplits` | index.js:33-39 | the base name of `join(dir, name)` is `name`, and, when `dir` is non-empty and more than a lone `/` (so trimming its trailing separator leaves something), its directory part is `dir` without that trailing separator |
| `Names.NormalizeCutsAtMostTheAffixes` | index.js:23-27 | the normalised name is a contiguous slice of the path; the front loses exactly `node_modules/` when the path starts with it; the end loses exactly 13 characters when the rest matches `/\/package.json$/`; a path with neither is returned unchanged |
| `Names.NormalizePackageName` | index.js:23-27 | the result is a prefix of the path once one leading `node_modules/` is dropped, and when anything is removed at the end it is exactly 13 characters |
| `Names.NormalizeManifestPath` | index.js:23-27 | `node_modules/<dir>/package.json` normalises to `<dir>`, e.g. `pkg-a` or `@scope/pkg` |
| `Names.NormalizeStripsOnce` | index.js:24-26 | a doubled root and a doubled manifest suffix each lose only one copy |
| `Names.NormalizeSuffixWildcard` | index.js:26 | `/package<c>json` is removed for every character `c` except a line terminator, and kept before a line terminator |
| `Names.ManifestSuffixCut` | index.js:26 | on a path ending `/package<c>json` the suffix pattern matches exactly when `c` is not a line terminator, and removing it leaves the part before `/package` |
| `Names.NormalizeRecoversPath` | index.js:23-27 | a path that starts with the root and ends with a separate `/package.json` (the part between them may be empty) is the root, then its normalised name, then `/package.json` |
| `Names.ManifestSuffixOnManifests` | index.js:26 | on a path whose base name is `package.json`, the suffix pattern matches exactly when a separator precedes the file name, so the unescaped `.` is harmless there |
| `Names.StripCssAsWritten` | index.js:107 | `/.css$/` as written: when any non-line-terminator character and then `css` end the name, those four characters are removed; otherwise the name is unchanged |
| `Names.StripCssSuffix` | index.js:107 | the corrected removal: only a literal `.css` extension is removed, and the result plus `.css` is the input |
| `Names.ReplaceFirstSeparator` | index.js:107 | the length is kept, and a name without a separator is unchanged |
| `Names.ReplaceFirstSeparatorAt` | index.js:107 | with the first separator at `i`, that one character becomes `-`, every other character (later separators included) is kept, and exactly one separator disappears |
| `Names.StemAsWritten` | index.js:107 | the source's link stem is 4 characters shorter exactly when `/.css$/` matches, and is the name itself for a one-segment name it does not match |
| `Names.Stem` | index.js:107 | the corrected link stem is 4 characters shorter exactly when the name ends in `.css`, and is the name itself for a one-segment name without that extension |
| `Names.StemAgreement` | index.js:107 | the as-written and corrected removals agree exactly when the pattern does not match or the character it swallows is `.`, and then the stems agree |
| `Names.CssExtensionSplit` | index.js:107 | a name ends with the literal `.css` exactly when `/.css$/` matches it and the character the wildcard consumes is `.` |
| `Names.TailwindcssStems` | index.js:107 | the source turns `tailwindcss` into the stem `tailwin`; the corrected stem keeps `tailwindcss` |
| `Names.StemOfNestedName` | index.js:107 | for a first segment `a` and any rest `b` with `a/b` not ending in `.css`, the corrected stem of `a/b` is `a-b`, so `b`'s own separators survive |
| `Names.HyphenAfterFirstSegment` | index.js:107 | `.replace(/\//, '-')` turns `a/b`, with no separator in `a`, into `a-b` for every rest `b` |
| `Names.StemAsWrittenOfNestedName` | index.js:107 | the source's stem of `a/b`, with no separator in `a`: `a-b` when `/.css$/` does not match; `a-` then `b` less its last four characters when `b` itself ends in a match; and just `a` when `b` is exactly `css` |
| `Names.ScopedStem` | index.js:107 | `@scope/pkg` has the stem `@scope-pkg`, both as the code computes it and as corrected |
| `Names.NestedStem` | index.js:107 | `a/b/c` has the stem `a-b/c`, both as the code computes it and as corrected |
| `Names.ExtensionNamedStem` | index.js:107 | `normalize.css` has the stem `normalize`, both as the code computes it and as corrected |
| `Names.StemsCollide` | index.js:107 | the distinct names `@scope/pkg` and `@scope-pkg` share one stem, both as the code computes it and as corrected |
| `Names.FlatNameStems` | index.js:107 | a name with no separator and no `css` ending, `@scope-pkg`, is its own stem, both as the code computes it and as corrected |
| `Names.PureCssStems` | index.js:107 | `purescss` and `pure.css` both get the source's stem `pure`, while their corrected stems are `purescss` and `pure` |
| `Names.StyleSheetName` | index.js:108-113 | the stem and extension read back from the file name: for `scss`, `_` then the stem then `.scss`; for any other extension, the stem, then `.`, then the extension |
| `Names.StyleSheetNameInjective` | index.js:108-113 | for one extension, equal file names come from equal stems |
| `Discovery.PackageStyleSheet` | index.js:12-21 | a style path is returned exactly when the `style` field is truthy (present and non-empty); it is then the style joined to the manifest's directory, and a one-segment style is its base name |
| `Discovery.FileRecords` | index.js:39-51 | a regular file yields at most one record, exactly when it is named `package.json` and its style is truthy; the record holds the path, the style joined to the path's directory, and the normalised name |
| `Discovery.EntryRecords` | index.js:32-53 | every record one entry yields names a `package.json` file and carries the name normalised from that path |
| `Discovery.Discover` | index.js:29-58 | every record the walk of a directory yields names a `package.json` file and carries the name normalised from that path; `DiscoverSelectsManifests` gives the full description |
| `Discovery.DiscoverSelectsManifests` | index.js:29-58 | the walk's records are exactly the styled `package.json` files among all regular files of the tree, one record each, in walk order |
| `Discovery.EntrySelectsManifests` | index.js:34-52 | for one entry: a directory contributes what its walk contributes, a file at most its own record, any other entry nothing |
| `Discovery.DiscoverMembers` | index.js:34-52 | both directions: a record is reported exactly when some regular file of the tree is a styled `package.json` whose record it is |
| `Discovery.RecordsDescribeManifests` | index.js:39-49 | every record's `name` has base name `package.json`, its `normalized` is `normalizePackageName(name)`, and its `style` is a non-empty declared style joined to the manifest's directory |
| `Discovery.DiscoverCount` | index.js:39-51 | the number of records equals the number of styled manifests in the tree |
| `Discovery.NoStyledManifestNoRecords` | index.js:41-50 | a tree without a styled manifest yields no record |
| `Discovery.DiscoverAppend` | index.js:32-37 | the walk of a listing is the walk of its first part followed by the walk of the rest |
| `Discovery.StyleList.constructor` | index.js:29 | the default accumulator is empty |
| `Discovery.StyleList.Push` | index.js:42 | a push appends one record and changes nothing else |
| `Discovery.VisitEntry` | index.js:32-53 | one listed entry adds exactly what it contributes to the walk: a directory its whole subtree's records, a file at most its own record, anything else nothing |
| `Discovery.VisitFile` | index.js:39-51 | a regular file adds its record to the accumulator when it is a styled `package.json`, and adds nothing otherwise |
| `Discovery.Recurse` | index.js:29-58 | returns the accumulator it was given; the earlier entries are kept unchanged and exactly the records of the walked directory are appended after them |
| `Discovery.FindStyles` | index.js:99 | the walk from `node_modules/` with a fresh accumulator yields exactly the records of the dependency tree |
| `Linker.PlanLinks` | index.js:103-128 | one plan per record, in record order; plan `i`'s source is `styles/` plus the file name of record `i`'s source stem, and its target is `../` plus the record's style |
| `Linker.PlanLink` | index.js:104-115 | the link source is `styles/` plus the file name made from the stem the code computes (`/.css$/` removed, then the first `/` made `-`); the target is `../` plus the style path |
| `Linker.PlanLinkCorrected` | index.js:104-115 | the same link built from the corrected stem; its target is the code's target |
| `Linker.Install` | index.js:99-128 | the install step plans as many links as there are styled manifests in the tree |
| `Linker.LinkForLayout` | index.js:104-115 | for a given stem, the source is `styles/` plus its file name (`styles/_<stem>.scss` for `scss`) and the target is `../` plus the style, whatever the extension |
| `Linker.LinkSourceInjective` | index.js:108-115 | for one extension, two stems give the same link source exactly when they are equal |
| `Linker.PlanLinkLayout` | index.js:104-115 | the code's link: the source is `styles/` plus the file name of the source's stem, `styles/_<stem>.scss` for `scss`; the target is `../` plus the style path and does not depend on the extension |
| `Linker.SourcesCollideIffStemsAgree` | index.js:107-115 | two records share a link source exactly when the stems the code computes for them agree |
| `Linker.PlanLinkCorrectedAgrees` | index.js:107-115 | the corrected link has the code's target; it equals the code's link exactly when the two stems agree, which holds whenever `/.css$/` does not match or swallows a `.` |
| `Linker.PureCssCollision` | index.js:107-115 | records named `purescss` and `pure.css` get the same link source `styles/pure.<ext>` from the code, while their corrected links differ |
| `Linker.InstallCount` | index.js:103-128 | the number of planned links, which is the length of the array `Promise.all` resolves to when every link step succeeds, equals the number of styled manifests |
| `Linker.NoStylesNoLinks` | index.js:99-130 | a tree without a styled manifest plans no link |
| `Discovery.SinglePackageRecord` | index.js:29-58 | a top-level package directory whose manifest declares a style yields exactly one record: the manifest path, the style beside it, and the package name |
| `Linker.SinglePackageLinks` | index.js:99-115 | a top-level package whose manifest declares a style gets exactly one link: `styles/` plus the file name of the source's stem of its name, pointing to `../node_modules/<pkg>/<style>` |
| `Linker.TailwindcssLink` | index.js:99-115 | a top-level `tailwindcss` package gets the single link `styles/tailwin.css` by default; the corrected link would be `styles/tailwindcss.css` |
| `Linker.SinglePackageExample` | index.js:99-115 | `node_modules/pkg-a/package.json` declaring `pkg-a.css` gives the record `pkg-a` and the link `styles/pkg-a.css -> ../node_modules/pkg-a/pkg-a.css`, or `styles/_pkg-a.scss` with `scss` |
| `Linker.ScopedPackageLink` | index.js:103-115 | `node_modules/<scope>/<pkg>/package.json` is named `<scope>/<pkg>` and linked at `styles/` plus the file name of the source's stem of that name: `<scope>-<pkg>` when `/.css$/` does not match, or `<scope>-` then `<pkg>` less its last four characters when it matches inside `<pkg>` |

## Left out

- Command-line parsing, the help text and its exit status (index.js:60-86): a wrapper around the argument parser and console output.
- `--clean`, and the removal and re-creation of the output directory (index.js:88-91, 100-101): these are calls into external file-system libraries.
- The existence check and the symbolic-link call with its error logging (index.js:117-125) are file-system I/O; the model stops at the `(source, target)` pair. As written they never create a link:
  - `lstat` rejects when the path is missing, and a resolved `Stats` object is always truthy, so the `symlink` call at line 119 is never reached.
  - With the default `--root` (`styles/`), after lines 100-101 recreate that directory, any record makes `Promise.all` (line 128) reject; with another root the outcome depends on whether `styles/<name>` already exists, and the rejection goes to `console.trace` (line 132).
  - So the count at line 130 is printed only when there is no record, or when every source already exists.
  - `Linker.Install` is the plan the code computes, not a set of links it creates.
- Reading directories, `lstat` and reading manifests (index.js:13, 30, 34): the tree is given as a value.
- `JSON.parse` and its failure (index.js:14): a manifest is modelled as an already parsed optional `style` string. A malformed manifest that aborts the run, and `style` values that are not strings, are not modelled.
- Console output, including the final count message (index.js:98, 116, 123, 130). Only the count itself is modelled.
- Paths.Join: the segment normalisation of `path.join` is not modelled. `.` and `..` segments and repeated separators are kept as they are. Style values come from the manifest and are joined at index.js:16 and 104, so a style `./x.css` gives `<dir>/./x.css` in the model where `path.join` gives `<dir>/x.css`. The same holds for `../x.css` and for an absolute `/x.css`, where the model keeps the doubled separator.
- Paths.Dirname: `path.dirname`'s handling of trailing separators is not modelled. Manifest paths never end in a separator.
- Paths.Basename: a path with a trailing separator is not modelled as `path.basename` treats it. `a/b/` has the base name `""` here and `b` in Node. Paths the walk builds never end in a separator.
- Discovery.Recurse: entries are visited one after another in listing order. The source starts every entry at once and joins them with `Promise.all`, so pushes from sibling subtrees may interleave in any order. The properties that do not depend on order (membership, count, record contents) are the ones the source guarantees.
- Names.StripCssAsWritten: `.` is modelled on Unicode scalar values, not UTF-16 code units. For `a😀css` the code removes only the low surrogate with `css` and leaves a lone high surrogate; the model removes the whole character.
- Names.NormalizeSuffixWildcard: the same difference for `/\/package.json$/`. A character outside the Basic Multilingual Plane between `/package` and `json` is two code units, so the code does not remove the suffix, while the model does.

## Findings

| source | as written | input that shows it | evidently intended | confidence | as-written member | corrected member |
|---|---|---|---|---|---|---|
| index.js:107 | `/.css$/` has an unescaped `.`, so it removes `css` together with whatever single character precedes it | a package `tailwindcss` with a `style` field: its stem becomes `tailwin` and its link `styles/tailwin.css` (`Names.TailwindcssStems`, `Linker.TailwindcssLink`); `purescss` and `pure.css` share `styles/pure.css` (`Linker.PureCssCollision`) | remove only a literal `.css` extension (the comment at index.js:47 shows `normalize.css` as the example), so the stem stays `tailwindcss`; `Linker.PlanLinkCorrected` is the link built from that stem | not executed | `Names.StemAsWritten` | `Names.Stem` |
