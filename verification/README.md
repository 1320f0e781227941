# FontAwesome shortcode for Eleventy — a Dafny model

This project models the `FontAwesomeIcon` shortcode and its two helpers,
`getAvailableIcons` and `isIconAvailable`. Each page call to
`FontAwesomeIcon` does the following:

- It normalises the requested `type`: `solid`, `regular` or `brand` stand as
  given, and anything else becomes `solid`.
- It looks the icon `fa<PascalName>` up in that style's package. If the
  icon is missing, it tries one fallback style: solid falls back to regular,
  and regular and brand fall back to solid.
- It derives the symbol identifier `{prefix}-fa-{iconName}`.
- It stores the symbol in the process-wide table, but only when the
  identifier does not already hold. Only in that case does it rewrite the
  sprite document `fa-icons.svg` from the whole table.
- It returns a wrapper tag around a `<use>` reference to that symbol. When
  both lookups fail, it returns a placeholder tag showing the looked-up key.

Modules, in dependency order:

- `Options`: an option type.
- `Text`: index, cut, join and split on strings.
- `Styles`: the three types, normalisation, the fallback rule and the
  alternate rule.
- `Catalog`: the abstract icon packages, `getIconSet`, and the name listing.
- `Markup`: `_getAttrs`, the `class` handling, symbol identifiers, and the
  fragment shapes.
- `Sprite`: the sprite document, and reading it back.
- `Symbols`: the symbol table and its log of sprite writes.
- `Shortcode`: resolution, one render, and a build of many renders.
- `ShortcodeExamples`: worked requests.
- `Availability`: `getAvailableIcons` and `isIconAvailable`.

The icon packages are abstract data. A `Catalog` holds one `IconSet` per
style. Each set has the export keys in enumeration order, and a map from
each export key that is an icon to its definition:

- the prefix;
- the icon name;
- the symbol markup the rendering library would produce.

The two name conversions are function parameters of the operations that
use them: PascalCase for rendering and camelCase for the availability check.

The sprite file is not written anywhere. Instead, every document the
shortcode would write is appended to the state's `writes`. "Written
exactly when new" and "the file lists exactly the table" are then stated
about that log.

## Model

| member | source | states |
|---|---|---|
| Styles.Parse | shortcode.js:30 | a type is accepted exactly when it is one of the three listed types, and each accepted type names its style |
| Styles.ParseName | shortcode.js:30 | every style's name is accepted and reads back as that style |
| Styles.Normalize | shortcode.js:124-131 | an accepted type keeps its style; any other type string is treated as solid |
| Styles.FallbackOf | shortcode.js:141 | the fallback is never the requested style and never brand; it is regular exactly when solid was requested |
| Styles.Alternate | shortcode.js:112 | the alternate type is an accepted type other than brand and other than the given one; it is solid exactly when the given type is regular |
| Styles.AlternateDiffersOnBrand | shortcode.js:112 | for brand, the availability check's alternate type (regular) differs from the renderer's fallback style (solid) |
| Catalog.GetIconSet | shortcode.js:40-57 | no package only when null is allowed and the type is not accepted; otherwise the package of the normalised style, so solid is the default |
| Catalog.NamesOf | shortcode.js:77-79 | a name is produced exactly when some given export key is an icon with that non-empty name; there are never more names than keys |
| Catalog.Listed | shortcode.js:77-79 | the listing holds exactly the non-empty icon names of exports at position 3 or later; the first three exports never contribute |
| Catalog.NamesOfConcat | shortcode.js:77-79 | the names of two runs of exports are the first run's names followed by the second's, so names come out in export order, once per export |
| Catalog.ListedAppend | shortcode.js:77-79 | one more export after the first three adds its name, if any, at the end of the listing |
| Catalog.IconListed | shortcode.js:77-79 | when every icon is an export, an icon with a non-empty name outside the first three exports is listed |
| Markup.AttrText | shortcode.js:16 | one attribute's text is a space, the key, `="`, the value and `"`, unescaped; AttrTextShape takes it apart at the first `=` and the quotes |
| Markup.Attrs | shortcode.js:11-19 | the attribute string is empty exactly when there are no attributes, and otherwise starts with a space |
| Markup.GetAttrs | shortcode.js:11-19 | the loop builds the same attribute string as the concatenation of ` key="value"` over the bag |
| Markup.ParseAttrsRoundTrip | shortcode.js:16 | when no key holds `=` and no value holds `"`, the attribute string reads back as exactly the bag, in order |
| Markup.ClassValue | shortcode.js:135 | a `class` value exists exactly when some attribute is keyed `class`, and that attribute is in the bag |
| Markup.ClassSuffix | shortcode.js:135 | the class suffix is empty exactly when `class` is missing or empty; otherwise it is a space followed by the class |
| Markup.WithoutClass | shortcode.js:136 | after deleting `class`, no attribute is keyed `class`, and the result is never longer than the bag |
| Markup.WithoutClassKeeps | shortcode.js:136 | deleting `class` keeps exactly the attributes not keyed `class`, and leaves a bag without `class` unchanged |
| Markup.WithoutClassConcat | shortcode.js:136-138 | deleting `class` from two runs of attributes gives the two runs' results in order, so the kept attributes keep their bag order |
| Markup.WithoutClassDrops | shortcode.js:136-138 | a `class` attribute between attributes without `class` is removed and the others stay exactly as they were, in order |
| Markup.SymbolId | shortcode.js:156 | the identifier is the prefix, `-fa-` and the icon name; ParseSymbolId, SymbolIdRoundTrip and SymbolIdInjective state what it determines |
| Markup.ParseSymbolId | shortcode.js:156 | whatever reads back from an identifier rebuilds that same identifier |
| Markup.SymbolIdRoundTrip | shortcode.js:156 | for a prefix without `-`, the identifier reads back as its prefix and icon name |
| Markup.SymbolIdInjective | shortcode.js:156 | two definitions with dash-free prefixes share an identifier only if prefix and icon name are equal |
| Markup.UseMarkup | shortcode.js:166 | the found-icon fragment: the wrapper tag with class `icon` plus the suffix, then the attributes, around an `<svg><use>` whose href is `/fa-icons.svg#` and the identifier; UseMarkupDeterminesId states that it determines the identifier |
| Markup.PlaceholderMarkup | shortcode.js:148 | the missing-icon fragment: the same wrapper tag around the looked-up key as text |
| Markup.UseMarkupDeterminesId | shortcode.js:166 | with the same wrapper, two `<use>` fragments are equal only if they name the same symbol |
| Sprite.Document | shortcode.js:23-26 | the sprite file: the hidden `<svg>` opening tag, the markups joined with newlines, and `</svg>`; DocumentRoundTrip states it reads back |
| Text.Join | shortcode.js:25 | `join`: the elements in order with the separator between neighbours; SplitJoin states that splitting a non-empty list's join reads the list back when no element holds the separator |
| Text.SplitJoin | shortcode.js:23-25 | splitting the newline-joined symbol list at newlines gives back the list, when it is non-empty and no element holds a newline |
| Sprite.DocumentRoundTrip | shortcode.js:23-26 | the sprite document reads back as exactly the stored symbol markups, in order, when each is a non-empty single line |
| Symbols.Holds | shortcode.js:159 | an identifier holds exactly when it is a key with a non-empty (truthy) markup, the negation of `!symbols[id]` |
| Symbols.Snapshot | shortcode.js:21-27 | the document `writeSvg` would write for the table: the stored markups in key order |
| Symbols.StoredAppends | shortcode.js:23-25 | storing a new key (the assignment at shortcode.js:163) on a valid table appends its markup at the end of the document's symbol list |
| Symbols.StoredReplaces | shortcode.js:23-25 | storing an existing key (the assignment at shortcode.js:163) replaces its markup in place and leaves every other position alone |
| Symbols.Store | shortcode.js:163 | assigning a key sets its entry; a new key goes last in the key order and an existing key keeps its place; a valid table stays valid |
| Symbols.Put | shortcode.js:159-163 | the identifier becomes a key, holding the new markup unless it already held; no other key is added or changed; the key order only grows; validity is kept |
| Symbols.Ensure | shortcode.js:159-165 | an identifier that holds leaves table and log unchanged; otherwise the table step is taken and exactly one write, the new table's document, is logged |
| Symbols.EnsureSynced | shortcode.js:164 | if the last write matched the table before the step, it does after |
| Symbols.EnsureKeepsEntries | shortcode.js:159-164 | with non-empty entries and markup, the file is written exactly when a key is added; single-line entries stay single-line |
| Symbols.SyncedFileLists | shortcode.js:21-28 | when the last write matches the table, the sprite file lists exactly the stored symbols in key order |
| Shortcode.StyleOf | shortcode.js:123-131 | the style looked up: the normalised `type`, solid when it is missing |
| Shortcode.TagOf | shortcode.js:123 | the wrapper tag: `tag`, `i` when it is missing |
| Shortcode.IconKey | shortcode.js:132-133 | the looked-up key: `fa` followed by the PascalCase name |
| Shortcode.Resolve | shortcode.js:139-154 | primary resolution exactly when the requested style has the key; fallback exactly when only the fallback style has it; unresolved exactly when neither does |
| Shortcode.ResolveReadsTwoStyles | shortcode.js:139-143 | resolution reads only the requested style's package and its fallback's package |
| Shortcode.Target | shortcode.js:139-154 | there is no definition exactly when resolution fails; otherwise it is the definition resolution found, in the requested style or the fallback; with non-empty or single-line catalog markups, its markup is too |
| Shortcode.Step | shortcode.js:156-165 | the table step adds exactly the resolved identifier to the table; afterwards that identifier holds the resolved definition's markup, unless it already held, in which case its entry is kept; no entry that held is replaced, and no key other than the resolved identifier changes its entry; the file is written once when the identifier did not hold and not at all otherwise; an unresolved request changes nothing; validity is kept |
| Shortcode.Fragment | shortcode.js:135-166 | the returned text: the placeholder around the looked-up key when resolution fails, otherwise the `<use>` fragment for the resolved identifier, both with the class suffix and the attributes without `class` |
| Shortcode.Render | shortcode.js:123-167 | an unresolved request leaves table and log as they were and returns the placeholder with the looked-up key; a resolved one returns the `<use>` fragment for the resolved identifier, and that identifier is a key of the table afterwards |
| Shortcode.StepLog | shortcode.js:159-165 | the table step only extends the key order and the write log; a write it adds is the new table's document, so the last write stays in step with the table |
| Shortcode.StepKeepsEntries | shortcode.js:159-165 | with non-empty catalog markups, the table step keeps every entry non-empty and writes exactly when it adds a key; with single-line markups, entries stay single-line |
| Shortcode.RenderUnresolved | shortcode.js:144-148 | an icon missing from both styles returns the placeholder tag whose text is `fa` plus the PascalCase name, and leaves table and file untouched |
| Shortcode.FragmentPrimary | shortcode.js:156-166 | an icon found in the requested style is referenced by its own definition's identifier |
| Shortcode.FragmentFallback | shortcode.js:140-156 | an icon found only in the fallback style is referenced by the fallback definition's identifier, so with the fallback prefix |
| Shortcode.RenderFallbackStores | shortcode.js:159-163 | after a fallback, the table holds the fallback definition's markup under its identifier, unless that identifier already held |
| Shortcode.RenderMarkupIgnoresTable | shortcode.js:166 | the returned fragment does not depend on the table's contents |
| Shortcode.RenderIdempotent | shortcode.js:159-166 | rendering the same request twice gives the same fragment and changes neither the table nor the file the second time |
| Shortcode.RenderAll | shortcode.js:9 | a build of successive calls against the one module-level table keeps a valid table valid |
| Shortcode.RenderAllKeys | shortcode.js:159-165 | after a build, the table holds exactly its earlier identifiers plus every identifier the requests resolve to |
| Shortcode.RenderAllGrows | shortcode.js:159-165 | a build never replaces a holding entry; it only extends the key order and the write log, and keeps the last write in step with the table |
| Shortcode.RenderAllWrites | shortcode.js:159-164 | when every catalog markup and table entry is non-empty, a build writes the file exactly once per identifier it adds |
| Shortcode.BuildCounts | shortcode.js:159-165 | when every catalog markup is non-empty, from an empty table, K distinct resolved identifiers, however often they are requested, give exactly K entries and K writes |
| Shortcode.BuildSprite | shortcode.js:21-28 | when every catalog markup is a non-empty single line, after a build from an empty table, the last written file lists exactly the stored symbols in insertion order |
| ShortcodeExamples.ExampleFallbackToSolid | shortcode.js:139-166 | a regular request for an icon only solid has returns the `<use>` fragment for `fas-fa-coffee` |
| ShortcodeExamples.ExampleFallbackStores | shortcode.js:159-164 | that request adds the `fas-fa-coffee` entry with the solid markup and writes the file once |
| ShortcodeExamples.ExampleUnknownIcon | shortcode.js:148 | with every default, an unknown icon returns exactly `<i class="icon">faNotARealIcon</i>` and changes nothing |
| ShortcodeExamples.PlaceholderLiteral | shortcode.js:148 | the placeholder for `faNotARealIcon` in an `i` tag with no class and no attributes is the literal `<i class="icon">faNotARealIcon</i>` |
| ShortcodeExamples.BoldIsSolid | shortcode.js:124-131 | the type "bold" is looked up as solid |
| ShortcodeExamples.ClassPropSplit | shortcode.js:135-138 | for props `class="big"` and `title="GitHub"`, the class suffix is ` big` and the attribute string is ` title="GitHub"` |
| ShortcodeExamples.ExampleUnknownTypeWithClass | shortcode.js:124-138 | an unknown type is looked up as solid; the `class` prop goes into the class attribute only, and the other props follow it |
| Availability.GetAvailableIcons | shortcode.js:59-88 | `undefined` exactly for an unaccepted type; otherwise exactly the normalised package's listing, in export order; never `false` |
| Availability.GetAvailableIconsAsWritten | shortcode.js:59-67 | as written, the call throws exactly for an unaccepted type |
| Availability.AsWrittenThrowsOnUnknownType | shortcode.js:62 | for the type "bold", the code as written throws where `undefined` was intended |
| Availability.AsWrittenAgreesOnAcceptedTypes | shortcode.js:68-88 | on accepted types, the code as written and the corrected version give the same answer |
| Availability.IsIconAvailable | shortcode.js:90-121 | invalid exactly for an unaccepted type; available exactly when the type lists the camelCase name; otherwise it reports the alternate type and whether that type lists the name; the "yes" verdict reports the camelCase name and the "no" verdict the name as given |

## Left out

- File system and paths: writing `dist/fa-icons.svg` is modelled as appending the document to a write log. A failed write is not modelled.
- The FontAwesome library calls `icon(...)` and `toHtml(...)`: each icon's symbol markup is given in the catalog. `icon` returns nothing for a non-icon export (such as the package prefix) or a missing one; both are modelled as the key being absent from the icon map.
- `camelcase` is a parameter (`pascal`, `camel`), so the names it produces are whatever that function gives.
- Console output and `Intl.ListFormat`: the warnings and logs are not modelled. `isIconAvailable` returns `undefined` in every case; the model returns which message it would log, as a `Verdict`.
- Escaping: the shortcode escapes nothing, and neither does the model. Markup.ParseAttrsRoundTrip therefore requires keys without `=` and values without `"`.
- The attribute bag is a sequence in enumeration order. JavaScript enumerates integer-like keys first, and that reordering is not modelled.
- A non-string `type`, `tag` or `class` prop is not modelled. A non-string `class` would be converted to a string, and one with a falsy value is treated as absent.
- Symbol identifiers always contain `-fa-`, so they are never integer-like keys. The table's insertion order is therefore its enumeration order.
- Markup.SymbolIdRoundTrip: requires a prefix without `-`. That holds for the three FontAwesome prefixes (`fas`, `far`, `fab`).
- Shortcode.RenderIdempotent: requires every catalog markup to be non-empty. An empty symbol markup is falsy in the shortcode's `!symbols[id]` test, so it would be stored and written again.
- Sprite.DocumentRoundTrip: requires single-line symbol markups. Otherwise the file's lines do not separate the symbols.
- Shortcode.RenderAllWrites: requires every catalog markup and every table entry to be non-empty. An empty markup is falsy in `!symbols[id]`, so it would be stored and written again on every request.
- Shortcode.BuildCounts: requires every catalog markup to be non-empty, for the same reason. Otherwise a repeated identifier with empty markup counts one write per request rather than one.
- Shortcode.BuildSprite: requires every catalog markup to be non-empty, for the same reason, and single-line, so that the file's lines separate the symbols.

## Findings

| source | as written | input that shows it | evidently intended | confidence | as-written member | corrected member |
|---|---|---|---|---|---|---|
| shortcode.js:62 | the warning for an unaccepted type interpolates `name`, which `getAvailableIcons` does not declare, so the call throws a ReferenceError before it can return | `getAvailableIcons("bold")` | log the warning and return `undefined`, as `isIconAvailable` does for the same check | high (not executed) | Availability.GetAvailableIconsAsWritten | Availability.GetAvailableIcons |
