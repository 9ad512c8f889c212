# svg-text-to-path, modelled in Dafny

svg-text-to-path replaces the `<text>` elements of an SVG document with
`<path>` elements drawn from font files. It works in four steps:

- It reads each text node's computed style and builds a font request: the
  families plus the `wdth`, `wght`, `ital` and `slnt` axes.
- It asks a chain of font providers for the variants of each family. The
  providers are a fonts directory, `@font-face` rules, a font repository
  over HTTP, the Google Fonts API, and a config map.
- It picks the best variant with the CSS font matching algorithm. It falls
  back through family classes, fallback families and a fallback glyph.
- It lays out the glyphs (`x`/`y`/`dx`/`dy`, `text-anchor`, `textLength`
  with `lengthAdjust`) and renders them. Per-session statistics record
  what was used, skipped, missed and warned about.

This project models the parts of that program that decide something, and
proves what they promise:

- `FontStyle` (src/FontStyle.js): the variant matcher and the style key;
  lemmas in `FontStyleLemmas`.
- `Cache` (src/Cache.js): the expiring key/value cache.
- `FontResolution`, `FontFactory` and `FontResolutionLemmas`
  (src/FontFactory.js): provider chaining, the per-variant font cache, and
  resolution through families, classes and fallbacks.
- `SessionStyle`, `SessionText`, `SessionStats`, `SessionLayout`,
  `LayoutOrder`, `LayoutMachine`, `SessionLayoutLemmas` and `Session`
  (src/Session.js):
  - the style request of a node;
  - the text collection and whitespace collapsing of `replace`;
  - the grouping of characters by font;
  - the statistics;
  - the layout state machine with its position lists, `textLength`
    correction and anchor shifts.
- `SvgLength` (src/shims/node.js): `parseSvgLength` and `normalizeFontSize`.
- `DirProvider`, `FontFace`, `Google`, `Http`, `HttpSession` and `Config`
  (providers/): the file-name grammar of the fonts directory, `@font-face`
  parsing, the Google API mapping, URL templating with in-flight
  de-duplication, the per-session URL cache, and the config lookup.
- `Cli` (bin/cli.js): the option parsers, `groupBy`, the two report
  formatters, and the merge of command-line and config parameters.
- `Wrappers`, `Strings`, `Numbers` and `Uri`: the JavaScript built-ins the
  code relies on.
  - `Strings` covers `split`, `trim`, `indexOf` and `replace`.
  - `Numbers` covers `parseInt`, `parseFloat` and `NaN`.
  - `Uri` covers `encodeURIComponent` and its inverse.

The model is written in the source's own form:

- Code that mutates objects is a class with `modifies` clauses. Examples:
  the cache, the providers, the per-session state, and the layout state.
  Its methods are proved against specification functions.
- Loops are methods with invariants.
- Pure helpers are functions with lemmas.

Asynchronous code is split at its `await`s into methods, so that
interleavings are sequences of calls. The clock, the file system, the
network and the font files are parameters:

- a list of file names;
- a `respond` function standing for the server;
- a loader standing for opentype.js;
- `now` in milliseconds.

## Model

| member | source | states |
|---|---|---|
| `FontStyle.NormalizeVariantAxis` | src/FontStyle.js:17-20 | A missing axis takes its `axisDefault` value. A point value `v` becomes `[v, v]`, and a range is returned unchanged. |
| `FontStyle.VariantMatchAxis` | src/FontStyle.js:28-32 | True exactly when the target lies in the variant's range, `from <= target <= to`. An undefined target stands for the axis default. |
| `FontStyle.Match` | src/FontStyle.js:87-94 | `match` is true exactly when the request, with defaults filled in, lies in the variant's range on each of `wdth`, `wght`, `ital` and `slnt`. The loop stops at the first mismatch. |
| `FontStyle.Clamp` | src/FontStyle.js:106-109 | The `normalize` closure leaves the target unchanged exactly when it is in range. On a well-formed range its result is always in range. |
| `FontStyle.Keep` | src/FontStyle.js:123-126 | The filter of `filterEq` keeps exactly the variants whose range contains the target, in order. It keeps the head when the head contains the target. |
| `FontStyle.InsertInPlace` | src/FontStyle.js:111-121 | One insertion step of the in-place `sort`: `a[i]` moves left past every neighbour the comparator calls greater. The rest of the array is unchanged. |
| `FontStyle.SwapStep` | src/FontStyle.js:111-121 | Swapping the moving element with its left neighbour advances it one place through the sorted prefix. |
| `FontStyle.InsertMoves` | src/FontStyle.js:111-121 | While the comparator calls the left neighbour greater, the element passes it. |
| `FontStyle.InsertStops` | src/FontStyle.js:111-121 | Where the left neighbour is not greater, or there is none, the element stays. |
| `FontStyle.SortInPlace` | src/FontStyle.js:110-122 | The in-place `variants.sort(comparator)` of one pass leaves the array equal to the insertion sort `SortBy` of its old contents. |
| `FontStyle.SortAndFilterCopy` | src/FontStyle.js:127-129 | `sortAndFilter` on a copy gives the sort followed by `filterEq`. |
| `FontStyle.GetBestVariant` | src/FontStyle.js:102-163 | `getBestVariant` returns `null` for an empty list. Otherwise it returns the first survivor of the width pass, the italic/slant passes chosen by the request, and the weight pass with threshold 500. The caller's array is left sorted by the width pass. The throw flag is set exactly on the inputs of `BestThrows`, where the source's `filterEq` reads `variants[0]` of an empty list and throws a `TypeError`. |
| `FontStyleLemmas.InsertPerm` | src/FontStyle.js:111-121 | An insertion step adds exactly one occurrence of the element, so it is a permutation step. |
| `FontStyleLemmas.SortByPerm` | src/FontStyle.js:111-121 | The sort is a permutation of its input. |
| `FontStyleLemmas.SortByMembers` | src/FontStyle.js:111-121 | The sort keeps the length and exactly the members of its input. |
| `FontStyleLemmas.PassNarrows` | src/FontStyle.js:123-129 | A pass only narrows. Every survivor is from the input and lies in the range that contains the first sorted variant's clamped target. |
| `FontStyleLemmas.PassKeepsFirst` | src/FontStyle.js:123-126 | `filterEq` always keeps the first sorted variant of a non-empty well-formed list, because its own clamped value lies in its range. |
| `FontStyleLemmas.ItalSlntKeeps` | src/FontStyle.js:135-156 | Whichever italic/slant branch runs, a non-empty well-formed list stays non-empty and a subset of its input. |
| `FontStyleLemmas.BestVariantFound` | src/FontStyle.js:102-105 | `getBestVariant([])` is `null`. For a non-empty well-formed list the result is non-null and one of the input's variants. |
| `FontStyleLemmas.WellFormedNeverThrows` | src/FontStyle.js:102-163 | On well-formed variants no pass before the last empties the list, so `getBestVariant` never reaches the unguarded `variants[0]` of `filterEq` with an empty list. |
| `FontStyleLemmas.ThrowsGivesNone` | src/FontStyle.js:123-163 | On the inputs where the code throws, the model returns `None`. |
| `FontStyleLemmas.ReversedWidthThrows` | src/FontStyle.js:106-140 | A variant whose width range is written backwards (`125% 75%`) is emptied by the width pass, so the slant pass after it throws. |
| `FontStyleLemmas.ExactNotGreater` | src/FontStyle.js:111-121 | A variant whose range contains the pass's target never compares greater than another variant. |
| `FontStyleLemmas.MissGreater` | src/FontStyle.js:111-121 | A variant that misses the target compares greater than one that contains it. |
| `FontStyleLemmas.InsertKeepsExactFront` | src/FontStyle.js:111-121 | An exact variant at the front is never passed by a later insertion. |
| `FontStyleLemmas.InsertExactToFront` | src/FontStyle.js:111-121 | An exact variant inserted into a list with no exact variant moves to the front. |
| `FontStyleLemmas.ExactSortsFirst` | src/FontStyle.js:111-121 | If any variant contains the pass's target, the sort puts such a variant first. |
| `FontStyleLemmas.ExactPass` | src/FontStyle.js:123-129 | With an exact candidate, a pass keeps precisely the variants that contain the target. |
| `FontStyleLemmas.MatchesAll` | src/FontStyle.js:87-94 | `match` spelled out: the four default axes, with defaults 100, 400, 0 and 0. |
| `FontStyleLemmas.ExactMatchChosen` | src/FontStyle.js:131-162 | With neither italic nor slant requested, if some variant matches every default axis, the chosen variant matches them all. |
| `FontStyleLemmas.MatchIgnoresCustomAxes` | src/FontStyle.js:87-94 | `match` looks only at `wdth`, `wght`, `ital` and `slnt`, so a custom axis never causes a mismatch. |
| `FontStyleLemmas.GetKeyDefaults` | src/FontStyle.js:171-177 | `getKey` fills absent axes with their defaults and ignores custom axes. An absent axis and its default give the same key. |
| `FontStyleLemmas.SinglePass` | src/FontStyle.js:123-129 | A single well-formed variant survives any pass. |
| `FontStyleLemmas.SingleChosen` | src/FontStyle.js:102-163 | A single well-formed variant is always chosen. |
| `FontStyleLemmas.TiePass` | src/FontStyle.js:110-129 | Two variants that both contain the target tie, and the pass keeps both in order. |
| `FontStyleLemmas.Weight450PicksRegular` | src/FontStyle.js:158-162 | Weight 450 with 700 and 400 on offer picks 400. Nothing lies in [450, 500], so the nearest lighter weight wins. |
| `FontStyleLemmas.WeightSortsRegularFirst` | src/FontStyle.js:158-160 | The weight pass for 450 over [700, 400] leaves [400]. |
| `FontStyleLemmas.Width80PicksCondensed` | src/FontStyle.js:131-133 | Width 80 with 100 and 75 on offer picks 75, because narrower widths come first when `wdth <= 100`. |
| `FontStyleLemmas.SingleChosenAfterFirstPass` | src/FontStyle.js:135-160 | When one well-formed variant remains, the italic/slant and weight passes keep it. |
| `FontStyleLemmas.ItalicFallsBackToOblique` | src/FontStyle.js:141-151 | With italic requested and no italic face, an oblique face wins over the upright one. |
| `FontStyleLemmas.ItalicWidthPass` | src/FontStyle.js:131-133 | The width pass of that example keeps both faces in order. |
| `FontStyleLemmas.ItalicObliquePass` | src/FontStyle.js:143-151 | The slant pass of that example keeps only the oblique face. |
| `Cache.Lookup` | src/Cache.js:25-32 | `get` returns a value exactly when the key is stored and `time + duration < now` does not hold. The value is the stored one. |
| `Cache.AfterGet` | src/Cache.js:25-30 | `get` deletes an expired entry under its key and leaves every other key as it was. |
| `Cache.Store` | src/Cache.js:39-44 | `set` stores the value with time `now` only when the lifetime is positive. Otherwise the map is unchanged. |
| `Cache.Cache.constructor` | src/Cache.js:16-19 | A new cache is empty. Its default lifetime is the given one, or `Infinity`. |
| `Cache.Cache.Get` | src/Cache.js:25-32 | The method returns `Lookup` of the old entries and leaves the entries equal to `AfterGet`. |
| `Cache.Cache.Set` | src/Cache.js:39-44 | The method leaves the entries equal to `Store`, using the given lifetime or else the default. |
| `Cache.SetThenGet` | src/Cache.js:25-44 | A value stored at time `t` with a positive lifetime `d` is returned at every `now <= t + d`, boundary included, and at no later time. |
| `Cache.NonPositiveKeepsOld` | src/Cache.js:39-44 | A lifetime of zero or less stores nothing, so the previous entry stays visible. |
| `Cache.GetIsolatedAndMonotone` | src/Cache.js:25-32 | Reading a key never disturbs another key, and once an entry has expired it stays expired. |
| `FontResolution.GetFontKey` | src/FontFactory.js:99-106 | The key holds the family and the normalised value of each of the four default axes. `FontKeySharing` proves that two variants share a key exactly when all four normalised axes agree. |
| `FontResolution.FamilyVariants` | src/FontFactory.js:83-92 | After the call the family is cached under its list, and the font cache is unchanged. |
| `FontResolution.FontFor` | src/FontFactory.js:127-136 | After the call the variant's font key is cached with the returned font, which may be null, and the family cache is unchanged. |
| `FontResolution.ClassRankDecreases` | src/FontFactory.js:149-151 | Every member of a family class ranks below the class. This is the measure under which the class recursion ends. |
| `FontResolution.ResolveListStep` | src/FontFactory.js:148-176 | One pass of the family loop either ends the loop with that family's outcome or goes on to the next family with the updated caches and records. |
| `FontResolution.FromCodePoint` | src/FontFactory.js:188 | `String.fromCodePoint` gives a character exactly for an integral number whose value is that character's code point. `NaN`, a fraction, a negative number and a number above 0x10FFFF give none. |
| `FontResolution.GlyphOf` | src/FontFactory.js:186-188 | The fallback glyph is the configured character, or the character of the configured code point. |
| `FontResolution.Resolve` | src/FontFactory.js:146-197 | Corrected: the family-class recursion is handed the state (see Findings). `NoFontError` arises only without a family list, without a fallback glyph and with an action other than `ignore`. A `RangeError` arises only without a family list and with a fallback glyph that is no code point. |
| `FontResolution.Fallback` | src/FontFactory.js:177-196 | `NoFontError` arises only without a fallback glyph and with an action other than `ignore`. A `RangeError` arises only from a fallback glyph that is no code point. |
| `FontResolution.ResolveList` | src/FontFactory.js:148-176 | Corrected: the class recursion is handed the state (see Findings). The family loop ends only with a font or a TypeError, and an empty list yields nothing. |
| `FontResolution.TryFamily` | src/FontFactory.js:149-175 | Corrected: the class recursion at line 151 is handed the state (see Findings). One family ends the loop only with a font or a TypeError. |
| `FontResolution.OwnVariant` | src/FontFactory.js:156-175 | A family's own variants end the loop only with a font that has the requested character, or with a TypeError. |
| `FontResolution.UseVariant` | src/FontFactory.js:161-174 | The best variant ends the loop only with a font that has the glyph of the requested character, or with a TypeError, and that TypeError arises only without a state. |
| `FontFactory.ProcessState.constructor` | src/Session.js:249-251 | A new processing state has no missed families, no errors and no warnings. |
| `FontFactory.ProcessState.RecordMissed` | src/FontFactory.js:157-159 | The records become `AddMissed` of the old records: a family is recorded at most once. |
| `FontFactory.ProcessState.RecordError` | src/FontFactory.js:163-165 | The records become `AddError` of the old records: the first error for a variant is kept. |
| `FontFactory.ProcessState.RecordWarning` | src/FontFactory.js:167-172 | The records become `AddWarning` of the old records: the first warning for a style key is kept. |
| `FontFactory.SortedBest` | src/FontFactory.js:160 | The method returns the best variant for the style and leaves the array sorted by the width pass. It reports a throw exactly on the inputs of `FontStyle.BestThrows`. |
| `FontFactory.FontFactory.constructor` | src/FontFactory.js:45-50 | A new factory has empty family and font caches and has made no provider calls and no font loads. |
| `FontFactory.FontFactory.ConcatProviderResults` | src/FontFactory.js:72-74 | The loop returns every provider's list, concatenated in provider order. |
| `FontFactory.FontFactory.LoadFamilyVariants` | src/FontFactory.js:67-77 | The method asks the providers once, caches the concatenation under the family and returns it. |
| `FontFactory.FontFactory.GetFamilyVariants` | src/FontFactory.js:83-92 | The method agrees with `FamilyVariants`. It reaches the providers only when the family is not yet cached. |
| `FontFactory.FontFactory.GetFontForVariant` | src/FontFactory.js:127-136 | The method agrees with `FontFor`. It loads a font key at most once, and a failed load is cached too. |
| `FontFactory.FontFactory.BestOfCached` | src/FontFactory.js:160 | The method returns the best variant and sorts the cached array of the family in place by the width pass. It reports a throw exactly on the inputs of `FontStyle.BestThrows`. |
| `FontFactory.FontFactory.ResolveOwnVariant` | src/FontFactory.js:156-175 | The method agrees with `OwnVariant` on the outcome, the caches and the records, including the TypeError of `getBestVariant`. |
| `FontFactory.FontFactory.ResolveVariant` | src/FontFactory.js:161-174 | The method agrees with `UseVariant` on the outcome, the caches and the records. |
| `FontFactory.FontFactory.ResolveFamily` | src/FontFactory.js:149-175 | When one pass of the loop ends resolution, the method agrees with `ResolveList` from that family on. |
| `FontFactory.FontFactory.GetFontForChar` | src/FontFactory.js:146-197 | The method agrees with `Resolve` on the outcome (a result, `NoFontError` or a TypeError), the caches and the records. |
| `FontFactory.FontFactory.ResolveFamilies` | src/FontFactory.js:148-176 | The method agrees with `ResolveList` and stops at the first family that yields an outcome. |
| `FontFactory.FontFactory.ResolveFallback` | src/FontFactory.js:177-196 | The method agrees with `Fallback`: fallback families first, then the fallback glyph, then the no-font action, then `{font: null}`. A fallback glyph that is no code point gives the `RangeError` of `String.fromCodePoint`. |
| `FontResolutionLemmas.ResolveOk` | src/FontFactory.js:146-197 | A returned font has a glyph for the returned character. That character is the requested one, or else the fallback glyph. `NoFontError` arises only with no family list, no fallback glyph and an action of `error` or `skipNode`, and its skip flag is set exactly for `skipNode`. A TypeError from a missing state arises only when the state is absent or not handed on to the class recursion. A TypeError of `getBestVariant` arises only when the cache is not sound or a provider lists a malformed variant. A `RangeError` arises only from a fallback glyph that is no code point. |
| `FontResolutionLemmas.FallbackOk` | src/FontFactory.js:177-196 | The fallback chain keeps the same guarantees as `ResolveOk`. |
| `FontResolutionLemmas.ResolveListOk` | src/FontFactory.js:148-176 | The family loop ends early only with a font that has the glyph or with a TypeError, never with `NoFontError`. |
| `FontResolutionLemmas.TryFamilyOk` | src/FontFactory.js:149-175 | One family, class first, ends the loop only with a font that has the glyph or with a TypeError. |
| `FontResolutionLemmas.OwnVariantOk` | src/FontFactory.js:156-175 | A family's own variant ends the loop only with a font that has the glyph or with a TypeError. |
| `FontResolutionLemmas.UseVariantOk` | src/FontFactory.js:162-174 | The best variant ends the loop only when its font loads and has the glyph, or with a TypeError. |
| `FontResolutionLemmas.AddErrorOk` | src/FontFactory.js:163-165 | Recording an error only appends and keeps one error per variant. |
| `FontResolutionLemmas.AddWarningOk` | src/FontFactory.js:167-172 | Recording a warning only appends and keeps one warning per style key. |
| `FontResolutionLemmas.FontForOk` | src/FontFactory.js:127-136 | A font-cache lookup or load never replaces a cached font. Every cached font is what the loader gives for a variant with that key. |
| `FontResolutionLemmas.UseVariantState` | src/FontFactory.js:161-174 | Testing the best variant keeps the caches sound and monotone, and its records only grow. |
| `FontResolutionLemmas.OwnVariantState` | src/FontFactory.js:156-175 | A family's own step keeps the caches sound and monotone, and its records only grow. |
| `FontResolutionLemmas.CachedBestState` | src/FontFactory.js:156-160 | The family lookup, the missed record and the in-place sort keep each cached list a reordering of the providers' list. |
| `FontResolutionLemmas.ResolveState` | src/FontFactory.js:146-197 | A whole resolution keeps the caches sound and monotone, and its records only grow. |
| `FontResolutionLemmas.FallbackState` | src/FontFactory.js:177-196 | The fallback chain keeps the caches sound and monotone, and its records only grow. |
| `FontResolutionLemmas.ResolveListState` | src/FontFactory.js:148-176 | The family loop keeps the caches sound and monotone, and its records only grow. |
| `FontResolutionLemmas.TryFamilyState` | src/FontFactory.js:149-175 | One family, class first, keeps the caches sound and monotone, and its records only grow. |
| `FontResolutionLemmas.FirstUsableFrame` | src/FontFactory.js:148-176 | Whether a family is usable depends only on that family's cache entries. |
| `FontResolutionLemmas.UseVariantFacts` | src/FontFactory.js:162-174 | With a state present, the best variant yields a result exactly when its cached or loaded font has the glyph, and only that family's entries change. |
| `FontResolutionLemmas.OwnVariantUsable` | src/FontFactory.js:156-175 | With a state present, a family's own step yields exactly its usable font, or the TypeError of `getBestVariant` on a list of `BestThrows`. |
| `FontResolutionLemmas.OwnVariantFrame` | src/FontFactory.js:156-175 | A family's own step touches only that family's cache entries. |
| `FontResolutionLemmas.FirstUsableWins` | src/FontFactory.js:148-176 | Without family classes and with a state present, the loop returns the font of the first family, in list order, whose best variant loads and has the glyph, or nothing when there is none. A family whose list makes `getBestVariant` throw ends the loop with that TypeError. |
| `FontResolutionLemmas.FirstUsableResolves` | src/FontFactory.js:146-197 | Given a family list, `getFontForChar` returns the first usable family's font, or the TypeError of a family before it whose list makes `getBestVariant` throw. A miss is `{font: null}`. |
| `FontResolutionLemmas.SharedStateNeverThrows` | src/FontFactory.js:149-159 | When the state is handed on to the family-class recursion, no TypeError from a missing state can arise. With a sound cache and well-formed provider lists, no TypeError arises at all. |
| `FontResolutionLemmas.FallbackGlyphBypassesNoFontAction` | src/FontFactory.js:184-194 | With a fallback glyph configured, `NoFontError` is never thrown, even when that glyph is no code point. |
| `FontResolutionLemmas.SoundListNeverThrows` | src/FontFactory.js:160 | With a sound cache and well-formed provider lists, the list `getBestVariant` gets never makes it throw. |
| `FontResolutionLemmas.BackwardsObliqueThrows` | src/FontFactory.js:156-160 | A family whose one variant has a backwards `slnt` range makes `getFontForChar` throw a TypeError for an upright request. |
| `FontResolutionLemmas.NaNGlyphThrows` | src/FontFactory.js:186-188 | With no families and the fallback glyph `Arial,x`, whose codepoint is `NaN`, `getFontForChar` throws a `RangeError`. |
| `FontResolutionLemmas.ClassWithoutStateThrows` | src/FontFactory.js:149-159 | As written: a class whose member has no variants throws a TypeError, because the recursion at line 151 gets no state. |
| `FontResolutionLemmas.ClassWithStateRecordsMissed` | src/FontFactory.js:149-159 | Corrected: when the state is handed on, the member and the class are both recorded as missed, and the result has no font. |
| `FontResolutionLemmas.CollectedAppend` | src/FontFactory.js:68-74 | The variant lists keep provider order: the lists of later providers follow. |
| `FontResolutionLemmas.CollectedMember` | src/FontFactory.js:68-74 | A variant is in the family's list exactly when some provider returned it. |
| `FontResolutionLemmas.FontKeySharing` | src/FontFactory.js:99-106 | Two variants share a font key exactly when their four normalised default axes agree. Source and custom axes play no part. |
| `Session.TextState.constructor` | src/Session.js:248-260 | A new processing state has an empty text map, `lastChar` set to a space, `ignore` unset, the given last text node and empty records. |
| `Session.Session.constructor` | src/Session.js:84-90 | The session's font factory starts with empty caches over the given providers. |
| `Session.Session.RequestAndGroup` | src/Session.js:368-377 | The request loop and the grouping agree with `CharsOut` on the groups, the caches and the records. |
| `Session.Session.ProcessTextNode` | src/Session.js:348-378 | The method agrees with `ProcessText`: whitespace, `lastChar`, `ignore`, requests and groups. |
| `Session.Session.ProcessChildNodes` | src/Session.js:330-340 | The method agrees with `ProcessAll` over the text nodes under the node in document order. |
| `Session.Session.ProcessChildren` | src/Session.js:335-338 | The loop over an element's children processes the text nodes of every child in order. |
| `Session.Session.ProcessChild` | src/Session.js:336-338 | The text nodes under child `i` are processed after those of the children before it. |
| `Session.Session.Replace` | src/Session.js:245-272 | The method agrees with `SessionText.Replace`: the walk, the first failure and the text map without empty nodes. |
| `Session.Session.ReplaceAll` | src/Session.js:185-238 | The method agrees with `SessionStats.ReplaceAll`: the first thrown error, or else the aggregated statistics. |
| `Session.DeleteEmpty` | src/Session.js:268-272 | The loop leaves exactly the text nodes that have groups, in order. |
| `SessionText.LastWithText` | src/Session.js:309-322 | The result is a text node with visible text, and no later node has any. None means that no text node has visible text. |
| `SessionText.LastWithTextAppend` | src/Session.js:316-319 | The last node with text in `a + b` is the one in `b`, or else the one in `a`. This is the `|| result` of the loop. |
| `SessionText.FindLastTextNode` | src/Session.js:309-322 | The recursive method returns `LastWithText` of the text nodes under the node. |
| `SessionText.CollapsibleRun` | src/Session.js:354 | The result is the length of the leading run of `[\t\n\r ]` characters. |
| `SessionText.CollapseCollapsed` | src/Session.js:354 | Collapsed text has no tab or line break and no two spaces in a row. It starts with a space exactly when the input starts with whitespace, and it is empty exactly when the input is. |
| `SessionText.CollapseIdempotent` | src/Session.js:354 | Collapsing text that is already collapsed changes nothing. |
| `SessionText.CollapseKeepsText` | src/Session.js:354 | Collapsed text has a visible character exactly when the input does. |
| `SessionText.Emit` | src/Session.js:354-367 | There is one emitted character string per text node. |
| `SessionText.AfterSpaceCollapsed` | src/Session.js:356-361 | Dropping the leading space after a space keeps the text collapsed and leaves no double space at the seam. |
| `SessionText.TrimLastSpaceCollapsed` | src/Session.js:362-367 | Dropping the trailing space of the last node keeps the text collapsed. |
| `SessionText.TrimLastSpaceEnds` | src/Session.js:362-367 | On the last node with visible text, the emitted text ends with a visible character. |
| `SessionText.BlankAtStart` | src/Session.js:356-358 | A node without visible text, following a space, contributes nothing. |
| `SessionText.NodeCharsStep` | src/Session.js:354-367 | One text node keeps the accumulated text collapsed, without a leading space, and `lastChar` equal to its last character. |
| `SessionText.EmitStep` | src/Session.js:348-367 | Adding one text node preserves the emission invariant. |
| `SessionText.EmitKeeps` | src/Session.js:348-367 | The emission invariant holds over every prefix of the text nodes. |
| `SessionText.EmitCollapsesWhitespace` | src/Session.js:252-260 | When the last text node is the one `#findLastTextNode` picks, the text emitted across all nodes is collapsed and neither starts nor ends with a space. |
| `SessionText.RequestOneOnce` | src/Session.js:369-375 | A character seen before is not requested again. |
| `SessionText.RequestFontsOnce` | src/Session.js:369-375 | Every distinct character is requested exactly once, in order of first appearance. |
| `SessionText.RequestFontsOk` | src/Session.js:369-376 | Every resolved character keeps the guarantees of `getFontForChar` with the state passed along. |
| `SessionText.FirstFailure` | src/Session.js:376 | None means every request found a result. Otherwise the result is a failed request's outcome. |
| `SessionText.FirstFailureAt` | src/Session.js:376 | The reported failure is the first one in request order. |
| `SessionText.Resolved` | src/Session.js:390 | There is one resolved font per character. |
| `SessionText.AddChar` | src/Session.js:389-399 | Appending a character leaves a last group carrying that character's font. |
| `SessionText.Grouped` | src/Session.js:386-402 | There are no groups exactly when there are no characters. |
| `SessionText.AddCharTexts` | src/Session.js:391-395 | Appending a character appends it to the groups' text. |
| `SessionText.AddCharFonts` | src/Session.js:391-396 | Appending a character appends its font to the per-character fonts. |
| `SessionText.AddCharMaximal` | src/Session.js:391-396 | Appending a character keeps the groups non-empty, with different fonts in neighbouring groups. |
| `SessionText.GroupedSpellsChars` | src/Session.js:386-402 | The groups' texts spell the characters, each character keeps its own font, and the groups are maximal runs of one font. |
| `SessionText.GroupedHonest` | src/Session.js:386-402 | Each group carries the style and fallback flag of one of its own characters. |
| `SessionText.AddCharGlyphs` | src/Session.js:391-396 | Appending a character the font has a glyph for keeps every grouped character a glyph of its group's font. |
| `SessionText.GroupedGlyphs` | src/Session.js:386-402 | Every character of a group with a font is a glyph of that font, provided each resolved character is. |
| `SessionText.MakeTextGroups` | src/Session.js:386-402 | Corrected: the loop over the characters returns `Grouped` of their resolved fonts. |
| `SessionText.MakeTextGroupsMislabels` | src/Session.js:390-392 | As written: for a character in its own font followed by a fallback glyph, the first group takes the second character's style and fallback flag. The corrected grouping keeps the first character's own. |
| `SessionText.CharsOutSpells` | src/Session.js:368-377 | Without a fallback glyph, the groups of a node spell its characters. A failure is one that `getFontForChar` allows. |
| `SessionText.ProcessAllAppend` | src/Session.js:330-340 | Processing `a + b` is processing `a`, then `b`. |
| `SessionText.ProcessTextEmit` | src/Session.js:348-378 | One processed text node keeps the walk in step with `Emit`. |
| `SessionText.ProcessTextStep` | src/Session.js:348-378 | One processed text node appends exactly one entry for its id, keeps the earlier entries, records only failures `FailureOk` allows, and, outside an ignored stretch, yields the characters and last character `NodeChars` computes (an ignored node yields no groups). |
| `SessionText.ProcessAllEmit` | src/Session.js:330-378 | Each text node's characters in the walk are the ones `Emit` describes. |
| `SessionText.FirstFailed` | src/Session.js:261 | None means every node produced groups. Otherwise the result is a failed node's outcome. |
| `SessionText.NonEmpty` | src/Session.js:268-272 | Every kept entry has groups. Every node with groups is kept, and nothing else is. |
| `SessionText.ReplaceErrors` | src/Session.js:253-267 | `replace` throws only a `NoFontError` of the `error` action, a TypeError from a missing state when classes do not share it, a TypeError of `getBestVariant`, or the `RangeError` of a fallback glyph that is no code point. It returns nothing only under `skipNode`. |
| `SessionText.FirstFailedOk` | src/Session.js:261-266 | The first failure is one that `getFontForChar` allows. |
| `SessionText.NonEmptyText` | src/Session.js:268-272 | Deleting the nodes without groups loses no text. |
| `SessionText.ReplaceCollapsesWhitespace` | src/Session.js:245-272 | Without a fallback glyph, the text `replace` draws for a `<text>` element is its text, collapsed and trimmed at both ends. |
| `SessionText.ReplaceOfWalk` | src/Session.js:245-272 | `replace` is read off its walk: the first failure is thrown or skipped, otherwise the text map without empty nodes is returned with the records. |
| `SessionStats.Lookup` | src/Session.js:207 | `map.get(k)` finds a value exactly when some entry has the key, and that entry holds the value. |
| `SessionStats.Upsert` | src/Session.js:210 | `map.set(k, v)` replaces a present key's value in place and otherwise appends a new entry at the end. |
| `SessionStats.UpsertDistinct` | src/Session.js:218-227 | A map keeps each key once whatever is set into it, and the key just set reads back its value. |
| `SessionStats.UpsertSum` | src/Session.js:206-212 | Adding characters to one variant's entry adds exactly those characters to the total. |
| `SessionStats.AddToVariant` | src/Session.js:206-212 | A group with a font that is not a fallback counts its characters for its variant, and the records are left alone. |
| `SessionStats.AddGroupChars` | src/Session.js:204-216 | One group's characters are counted once, for its variant or as skipped. |
| `SessionStats.AddGroupsChars` | src/Session.js:203-217 | A node's group characters are counted once each, for a variant or as skipped. |
| `SessionStats.AddNodesChars` | src/Session.js:203-217 | Every node's characters are counted once each, and each variant has a single `used` entry. |
| `SessionStats.AddMissedKeeps` | src/Session.js:218-220 | Adding missed families keeps them unique and leaves the counts alone. |
| `SessionStats.AddWarningsKeeps` | src/Session.js:221-224 | Adding warnings keeps one per style key and leaves the counts alone. |
| `SessionStats.AddErrorsKeeps` | src/Session.js:225-227 | Adding errors keeps one per variant and leaves the counts alone. |
| `SessionStats.AddStatsAccount` | src/Session.js:198-228 | The used characters plus the skipped ones equal every character drawn, and `replaced` counts the results that were not skipped. |
| `SessionStats.StatAccounts` | src/Session.js:229-237 | Each drawn character is counted once, for its variant or as skipped. Variants, missed families, warning keys and error variants are each listed once. |
| `SessionStats.GroupCharsText` | src/Session.js:205 | Counting a node's characters group by group gives the length of its text. |
| `SessionStats.NodeCharsText` | src/Session.js:203-205 | Counting a result's characters node by node gives the length of all its text. |
| `SessionStats.CountGroups` | src/Session.js:204-216 | The loop agrees with `AddGroups`. |
| `SessionStats.CountRecords` | src/Session.js:218-227 | The three loops agree with adding the missed families, then the warnings, then the errors. |
| `SessionStats.CountGroup` | src/Session.js:204-216 | Counting one group agrees with `AddGroup`. |
| `SessionStats.CountMissed` | src/Session.js:218-220 | The loop over missed families agrees with `AddMissed`. |
| `SessionStats.CountWarnings` | src/Session.js:221-224 | The loop over warnings agrees with `AddWarnings`. |
| `SessionStats.CountErrors` | src/Session.js:225-227 | The loop over errors agrees with `AddErrors`. |
| `SessionStats.CountNodes` | src/Session.js:203-217 | The loop agrees with `AddNodes`. |
| `SessionStats.Aggregate` | src/Session.js:193-237 | The aggregation loop returns `Stat` of the results. |
| `SessionStats.FirstThrown` | src/Session.js:192 | None means no `replace` threw. Otherwise the result is the error of a `replace` that threw. |
| `SessionStats.StatCharsText` | src/Session.js:203-205 | The characters counted are the characters of the texts drawn. |
| `SessionStats.ReplaceAllAccounts` | src/Session.js:185-238 | The characters counted for variants plus the skipped ones equal the characters of all replaced nodes. `total` is the number of nodes, and `replaced` counts those not skipped. |
| `SessionStyle.Families` | src/Session.js:137-138 | There is one family per comma-separated part of `font-family`, each trimmed with one leading and one trailing quote removed. An absent value reads as `''`. |
| `SessionStyle.FamiliesRoundTrip` | src/Session.js:137-138 | Quoting plain names and joining them with commas gives the names back. |
| `SessionStyle.Quoted` | src/Session.js:138 | Each name is wrapped in the quote character. |
| `SessionStyle.WeightOfNumber` | src/Session.js:141 | A non-zero integer weight is taken as written. |
| `SessionStyle.WeightNonZero` | src/Session.js:141 | The weight is never 0. `normal`, `bold` and values that do not parse give 400 or 700. |
| `SessionStyle.SlantOfAngle` | src/Session.js:144-146 | `oblique <n>deg` leans by `-n`. |
| `SessionStyle.SlantOf` | src/Session.js:144-146 | After `oblique `, a number `x` gives `-x`, and 0 gives 0. |
| `SessionStyle.SlantDefault` | src/Session.js:144-146 | `oblique` alone leans by the default `-14`. |
| `SessionStyle.WidthKeywords` | src/Session.js:36-46 | `condensed` is 75 and `semi-expanded` is 112.5. |
| `SessionStyle.WidthPercent` | src/Session.js:147-150 | A percentage is read by its integer part. |
| `SessionStyle.VariationAt` | src/Session.js:155 | A match at `i` starts with a quoted four-letter tag and returns that tag. |
| `SessionStyle.FindVariation` | src/Session.js:155 | The result is the leftmost match at or after `i`. None means there is no match there. |
| `SessionStyle.ApplyVariations` | src/Session.js:151-160 | Variation settings only add or overwrite axes and never remove one. |
| `SessionStyle.ApplyVariation` | src/Session.js:151-160 | One variation setting keeps every existing axis key. |
| `SessionStyle.FindFeature` | src/Session.js:170 | The result is the leftmost quoted four-letter tag at or after `i`. None means there is none. |
| `SessionStyle.ApplyFeatures` | src/Session.js:166-176 | Feature settings only add or overwrite features. |
| `SessionStyle.BaseAxes` | src/Session.js:139-150 | `wght` and `ital` are always set. |
| `SessionStyle.FontStyleForNode` | src/Session.js:135-178 | The style always has `wght` and `ital` and at least one family. |
| `SessionStyle.RequestedAxes` | src/Session.js:139-150 | Without variation settings, the request holds `wght`, `ital`, `slnt` only for `oblique`, and `wdth` only for a stretch other than `normal` or `100%`. |
| `SessionStyle.EmptyRequest` | src/Session.js:135-178 | With no properties at all, the style has one empty family, weight 400, upright, and no features. |
| `SessionStyle.VariationOverridesWeight` | src/Session.js:151-160 | `'wght' 650` overrides the weight keyword. |
| `SessionStyle.ApplyOne` | src/Session.js:154-159 | One matching item with a number sets its axis to that number. |
| `SessionStyle.FeatureExamples` | src/Session.js:166-176 | `"liga" off` switches a feature off, and a bare `"smcp"` switches one on. |
| `SessionStyle.ParseStyleBaseline` | src/Session.js:712-723 | The vertical alignment differs from `dominant-baseline` exactly when that is `auto` and `alignment-baseline` is not. It is then `alignment-baseline`. |
| `SessionStyle.ParseStyleSize` | src/Session.js:714 | A font size of `12px` reads as 12. |
| `SessionLayout.Over` | src/Session.js:682-686 | A list written over an older one keeps its own entries and then the rest of the older one. |
| `SessionLayout.MaxLen` | src/Session.js:678-689 | The result is the length of the longest list, or 0 when there is none. |
| `SessionLayout.Innermost` | src/Session.js:682-686 | The result is the innermost list with an entry at index `i`. No list inside it has one. |
| `SessionLayout.DropAll` | src/Session.js:695-705 | Every list of the stack loses its first `n` entries. |
| `SessionLayout.Place` | src/Session.js:654-658 | Each item of the stack is placed, in order, at its `x` plus the shift, with the rest unchanged. |
| `SessionLayout.AdjustRun` | src/Session.js:593-618 | The adjusting loop keeps the stack's length. |
| `SessionLayout.ScaleOf` | src/Session.js:585 | Corrected: a scale exists only where the source's `(textLength - fixed) / (max - min - fixed)` is a finite non-zero number, and it is never 0. Elsewhere scaling is skipped (see Findings). |
| `SessionLayout.AdjustFor` | src/Session.js:582-591 | Corrected: the loop covers the run from its start to the end of the stack in the given mode, with a finite non-zero scale. |
| `SessionLayout.ResetPenX` | src/Session.js:482-499 | Corrected: the undefined pen counts as 0 (see Findings). A `dx` entry always gives a position. Without one, the pen is the `x` entry, or else it is unchanged. |
| `SessionLayout.EndsGap` | src/Session.js:610 | Corrected: the last item of a fixed run ends a gap (see Findings). Wherever the code as written does not throw, the answer is the same. The last item of the stack always ends a gap. |
| `SessionLayoutLemmas.OverlayLength` | src/Session.js:678-689 | The normalised list is as long as the longest list of the stack. |
| `SessionLayoutLemmas.OverlayAt` | src/Session.js:678-689 | Every normalised entry comes from the innermost list that defines that index. |
| `SessionLayoutLemmas.OverlayDrop` | src/Session.js:695-705 | Dropping the used entries from every list drops them from the normalised list. An element opened after `n` glyphs sees entry `n + c` at index `c`. |
| `SessionLayoutLemmas.NormalizeAfterRemove` | src/Session.js:695-705 | `#removePosForUsedChars` followed by `#normalizePosProps` drops the used entries of each normalised list. |
| `SessionLayoutLemmas.PenAdvance` | src/Session.js:476-545 | Inside a chunk, a glyph is placed at the pen plus the pending `dx` and its own offset. The pen then advances by the glyph's advance plus the letter spacing, and the lists are untouched. |
| `SessionLayoutLemmas.AbsoluteX` | src/Session.js:478-491 | A glyph with an `x` entry renders the pending stack and starts a new chunk at `x + dx`. Its `dx` entry is used up. |
| `SessionLayoutLemmas.AbsoluteYOnly` | src/Session.js:478-499 | With a `y` entry but no `x` entry, the chunk starts at the pen, which reads as 0 before any glyph. |
| `SessionLayoutLemmas.PenNaNAsWritten` | src/Session.js:482-491 | As written, `<text y="20" dx="5">` adds `dx` to a pen that was never set and gives `NaN`. The corrected pen gives 5. |
| `SessionLayoutLemmas.ResetPenXAgrees` | src/Session.js:482-499 | The corrected pen agrees with the code wherever the code gives a number. The code gives `NaN` exactly for a `dx` entry with no `x` entry and no pen. |
| `SessionLayoutLemmas.AnchorLands` | src/Session.js:641-653 | The anchor shift puts the chunk's left end (`start`), middle (`middle`) or right end (`end`) on its start position. |
| `SessionLayoutLemmas.RenderMoves` | src/Session.js:626-671 | Rendering moves the whole stack to the output, in order and shifted alike, and empties the stack. |
| `SessionLayoutLemmas.CorrectLengthNoop` | src/Session.js:555-564 | Without `textLength`, or with nothing laid out since the tag opened, only the tag start is popped. |
| `SessionLayoutLemmas.EndsGapThrows` | src/Session.js:610 | As written, the spacing test throws exactly when a fixed item is the last one on the stack. Elsewhere it agrees with the corrected test. |
| `SessionLayoutLemmas.NestedTextLengthThrows` | src/Session.js:610 | Concretely: one glyph fixed by an inner `textLength`, then corrected by the outer one, makes the code as written throw. |
| `SessionLayoutLemmas.MeasureFree` | src/Session.js:570-581 | On a run that no inner `textLength` fixed, every item counts once and no width is fixed. |
| `SessionLayoutLemmas.AdjustKeeps` | src/Session.js:593-618 | The adjusting loop keeps each glyph's identity and touches only the run. |
| `SessionLayoutLemmas.AdjustSpacing` | src/Session.js:593-618 | In spacing mode over a free run, the `k`-th glyph moves right by `k` gaps. |
| `SessionLayoutLemmas.SpacingStep` | src/Session.js:594-613 | One spacing turn on a free glyph moves it by the delta so far, and then the delta grows by a gap. |
| `SessionLayoutLemmas.SpacingMoves` | src/Session.js:555-619 | With `lengthAdjust="spacing"` on a free run, the `k`-th glyph moves right by `k` gaps of `(textLength - (max - min)) / (n - 1)`, and no glyph changes width. |
| `SessionLayoutLemmas.SpacingSpansLength` | src/Session.js:555-619 | When the run's first glyph starts at its left end and its last glyph ends at its right end, the corrected run spans exactly `textLength`. |
| `SessionLayoutLemmas.AdjustWidths` | src/Session.js:593-618 | In spacing mode the adjusting loop keeps every width. |
| `SessionLayoutLemmas.AdjustScaling` | src/Session.js:596-601 | In scaling mode every free glyph of the run is scaled by the same factor. |
| `SessionLayoutLemmas.ScalingStretchesRun` | src/Session.js:585-601 | With `lengthAdjust="spacingAndGlyphs"` on a free run, every glyph is scaled by `textLength / (max - min)`, and its width is multiplied by that factor. |
| `SessionLayoutLemmas.ScalingDegenerate` | src/Session.js:582-601 | Corrected: with no extent to stretch, or a zero `textLength`, scaling leaves the run as it is. The code as written writes `NaN` positions there (see Findings). |
| `SessionLayoutLemmas.AdjustScalingShifts` | src/Session.js:593-607 | In scaling mode over a free run, each glyph moves right by what the scaled glyphs before it added to `delta`: `(w + spacing) * (scale - 1)` each. |
| `SessionLayoutLemmas.ShiftIsScaledAdvance` | src/Session.js:596-607 | The shifts before a glyph add up to `(scale - 1)` times the advances before it. |
| `SessionLayoutLemmas.AdvanceIsDistance` | src/Session.js:536-545 | On a run placed pen to pen, the advances before a glyph add up to its distance from the run's first glyph. |
| `SessionLayoutLemmas.ScalingShiftsRun` | src/Session.js:585-607 | With `lengthAdjust="spacingAndGlyphs"` on a free run, each glyph moves right by the scaled turns before it, with the factor `textLength / (max - min)`. |
| `SessionLayoutLemmas.SpanOfRun` | src/Session.js:596-607 | On a run placed pen to pen, shifting the glyphs by the scaled turns and scaling the widths by `s` multiplies the span from the first glyph's start to the last glyph's end by `s`. |
| `SessionLayoutLemmas.SpanOfScaledRun` | src/Session.js:585-607 | Given what `ScalingShiftsRun` and `ScalingStretchesRun` prove of a run placed pen to pen, with `s * span == textLength`, the scaled run spans exactly `textLength`. |
| `SessionLayoutLemmas.ScaleOfAsWritten` | src/Session.js:585 | The corrected scale exists exactly when the source's scale is a finite non-zero number, and then the two are equal. |
| `SessionLayoutLemmas.DegenerateStepNaN` | src/Session.js:596-607 | As written, with a zero, infinite or `NaN` scale, each scaled glyph adds `NaN` to `delta`. |
| `SessionLayoutLemmas.DeltaNaN` | src/Session.js:593-607 | As written, with such a scale, `delta` is `NaN` after the run's first glyph. |
| `SessionLayoutLemmas.DegenerateScalingNaN` | src/Session.js:585-607 | As written, where the corrected scale is missing, every glyph after the run's first is placed at `x = NaN`. |
| `SessionLayoutLemmas.ZeroTextLengthNaN` | src/Session.js:585-607 | As written, `<text textLength="0" lengthAdjust="spacingAndGlyphs">ab</text>` places the second glyph at `NaN`. |
| `SessionLayoutLemmas.FiniteStep` | src/Session.js:596-607 | With a finite non-zero scale, one scaled glyph adds to `delta` exactly the model's shift. |
| `SessionLayoutLemmas.DeltaAsWrittenFinite` | src/Session.js:593-607 | With a finite non-zero scale, the source's `delta` is a finite number, the sum of the model's shifts. |
| `SessionLayoutLemmas.ScalingAgreesAsWritten` | src/Session.js:593-607 | Where the source's scale is a finite non-zero number, its `delta` and positions are the model's. |
| `LayoutOrder.ItemIds` | src/Session.js:532-541 | There is one (text node, glyph) pair per stacked item. |
| `LayoutOrder.PlacedIds` | src/Session.js:654-667 | There is one (text node, glyph) pair per rendered glyph. |
| `LayoutOrder.GlyphIds` | src/Session.js:475-476 | There is one pair per shaped glyph of a group. |
| `LayoutOrder.PlaceIds` | src/Session.js:654-658 | Placing keeps each glyph's node and identity, in order. |
| `LayoutOrder.RenderKeeps` | src/Session.js:626-671 | `#renderStack` moves the whole stack, in order, to the rendered glyphs and empties it. |
| `LayoutOrder.GlyphStepKeeps` | src/Session.js:476-546 | One glyph step pushes exactly that glyph, after everything before it. |
| `LayoutOrder.LayoutGlyphsKeeps` | src/Session.js:476-546 | A group's glyphs are pushed in order, after everything before them. |
| `LayoutOrder.LayoutGroupsKeeps` | src/Session.js:473-547 | A text node's groups push their glyphs in order. |
| `LayoutOrder.LayoutGroupKeeps` | src/Session.js:474-476 | One group pushes exactly its glyphs. |
| `LayoutOrder.AdjustRunIds` | src/Session.js:593-618 | The adjusting loop changes positions and widths, never which glyph sits where. |
| `LayoutOrder.CorrectLengthKeeps` | src/Session.js:555-619 | `#correctLength` renders nothing and keeps the stack's glyphs. |
| `LayoutOrder.CloseKeeps` | src/Session.js:448-455 | Closing an element keeps the glyphs in order. Closing `<text>` empties the stack. |
| `LayoutOrder.WalkKeeps` | src/Session.js:410-422 | Laying out a node appends its glyphs, in document order, after what was rendered or stacked before. |
| `LayoutOrder.WalkChildrenKeeps` | src/Session.js:416-419 | The children's glyphs follow one another in order. |
| `LayoutOrder.TextRendersAllGlyphs` | src/Session.js:410-422 | A `<text>` element laid out from the initial state renders every glyph of its text nodes exactly once, in document order, and leaves nothing on the stack. |
| `LayoutMachine.NormalizeList` | src/Session.js:678-689 | The nested loops return the overlay of the attribute's lists. |
| `LayoutMachine.WriteOver` | src/Session.js:682-686 | The inner loop writes the values over the accumulator as `Over` does. |
| `LayoutMachine.SpliceAll` | src/Session.js:698-702 | The loop returns every list with its first `chars` entries removed. |
| `LayoutMachine.LayoutState.constructor` | src/Session.js:429-434 | A new layout state is the initial one: empty stack, lists and tag starts, no characters used. |
| `LayoutMachine.LayoutState.NormalizePosProps` | src/Session.js:678-689 | The method returns `Normalize` of the position stacks. |
| `LayoutMachine.LayoutState.RemovePosForUsedChars` | src/Session.js:695-705 | The new state is `RemoveUsed` of the old one. |
| `LayoutMachine.LayoutState.OpenElementNode` | src/Session.js:429-441 | The new state is `OpenElement` of the old one. |
| `LayoutMachine.LayoutState.RenderStack` | src/Session.js:626-671 | The new state is `Render` of the old one. |
| `LayoutMachine.LayoutState.FlushRun` | src/Session.js:478-481 | The new state is `FlushChunk` of the old one. |
| `LayoutMachine.LayoutState.ResetPenAt` | src/Session.js:482-500 | The new state and lists are `ResetPen` of the old ones. |
| `LayoutMachine.LayoutState.StartGlyphChunk` | src/Session.js:477-500 | The new state and lists are `StartGlyph` of the old ones. |
| `LayoutMachine.LayoutState.PushGlyphItem` | src/Session.js:509-545 | The new state is `PushGlyph` of the old one. |
| `LayoutMachine.LayoutState.LayoutGlyph` | src/Session.js:476-546 | The new state and lists are `GlyphStep` of the old ones. |
| `LayoutMachine.LayoutState.LayoutGlyphRun` | src/Session.js:474-546 | The new state and lists are `LayoutGroup` of the old ones. |
| `LayoutMachine.LayoutState.LayoutTextNode` | src/Session.js:470-548 | The new state is `LayoutText` of the old one. |
| `LayoutMachine.LayoutState.MeasureLoop` | src/Session.js:566-581 | The loop returns `MeasureRun` over the run. |
| `LayoutMachine.LayoutState.AdjustItem` | src/Session.js:594-617 | One turn moves, scales and fixes item `i`, as `AdjustStep` says, and leaves the rest of the state alone. It requires the corrected, non-zero scale. |
| `LayoutMachine.LayoutState.CorrectLength` | src/Session.js:555-619 | The new state is `SessionLayout.CorrectLength` of the old one. Degenerate scaling is skipped, as corrected (see Findings). |
| `LayoutMachine.LayoutState.CloseElementNode` | src/Session.js:448-455 | The new state is `CloseElement` of the old one. |
| `LayoutMachine.LayoutState.LayoutChildNodes` | src/Session.js:410-422 | The new state is `Walk` of the old one. |
| `LayoutMachine.LayoutState.LayoutChildren` | src/Session.js:416-419 | The new state is the walk over all the children. |
| `SvgLength.FirstSep` | src/shims/node.js:126 | The result is the first `[\s,]` character, with none before it. None means there is no separator. |
| `SvgLength.SepRun` | src/shims/node.js:126 | The result is the length of the leading run of separators. |
| `SvgLength.Tokens` | src/shims/node.js:126 | The split has at least one piece, and no piece holds a separator. |
| `SvgLength.Squeeze` | src/shims/node.js:126 | The text with every separator removed holds no separator. |
| `SvgLength.TokensKeepText` | src/shims/node.js:126 | The pieces hold every non-separator character of the value, in order, and nothing else. |
| `SvgLength.NumRun` | src/shims/node.js:130 | The result is the length of the leading run of `[\d.-]`. |
| `SvgLength.UnitOf` | src/shims/node.js:137-170 | Absolute and font-relative units have positive pixel factors. |
| `SvgLength.PercentIndex` | src/shims/node.js:143 | A percentage refers to viewBox entry 3 (the height) exactly for `y` and `dy`, and to entry 2 (the width) otherwise. |
| `SvgLength.ViewBoxEntry` | src/shims/node.js:143 | A missing or unparsable viewBox entry counts as 0. Otherwise the entry is its number. |
| `SvgLength.TokenOuts` | src/shims/node.js:129-172 | There is one outcome per token. |
| `SvgLength.SvgLengths` | src/shims/node.js:121-125 | An absent attribute gives `[]`. |
| `SvgLength.ScanValues` | src/shims/node.js:129-173 | The scan gives values exactly when every token is a value, and then gives those values in order. |
| `SvgLength.ScanFirstFailure` | src/shims/node.js:129-170 | The first token that is not a value decides: a bad token gives `[]`, and a throwing one throws. |
| `SvgLength.SvgLengthTokens` | src/shims/node.js:121-174 | A parsed list has one number per token, in order. A bad token before any throwing one empties the whole list. |
| `SvgLength.NumberToken` | src/shims/node.js:130-135 | A whole number followed by a unit name reads back as that number and that unit. |
| `SvgLength.SingleTokenLength` | src/shims/node.js:126-173 | An attribute without separators is a single token, giving its value, `[]` or the error. |
| `SvgLength.UnitTable` | src/shims/node.js:137-170 | The units are `px` 1, `in` 96, `mm` 96/25.4, `cm` 96/2.54, `pt` 4/3, `pc` 16, `em` 1 and `ex` 0.5 of the font size, and `%` of the viewBox. `vw` and `rem` are unknown. |
| `SvgLength.AbsoluteLength` | src/shims/node.js:137-171 | A length in an absolute unit is the number times the unit's pixel factor. |
| `SvgLength.PercentLength` | src/shims/node.js:141-144 | A percentage is hundredths of the viewBox height for `y` and `dy`, and of its width otherwise. Without an owner viewBox it throws. |
| `SvgLength.FontRelativeLength` | src/shims/node.js:145-152 | `em` and `ex` multiply by the font size times 1 and 0.5 respectively. |
| `SvgLength.UnknownUnit` | src/shims/node.js:168-169 | An unknown unit empties the list. |
| `SvgLength.ConvertLength` | src/shims/node.js:134-171 | The unit switch gives `TokenOf` and reads the viewBox only once. |
| `SvgLength.ConvertByUnit` | src/shims/node.js:138-165 | The unit switch gives `TokenByUnit`: absolute units scale, `em`/`ex` scale the font size, `%` reads the viewBox once and throws without one, an unknown unit rejects. |
| `SvgLength.ScanStep` | src/shims/node.js:129-172 | A value token is appended and the loop goes on. A bad token gives `[]`, and a throwing token throws. |
| `SvgLength.ReadToken` | src/shims/node.js:130-171 | One iteration of the loop gives `TokenValue` of the token. |
| `SvgLength.ReadTokenAt` | src/shims/node.js:130-171 | Reading the `i`th token gives the `i`th entry of `TokenOuts`, and a cached viewBox stays the parse of the attribute. |
| `SvgLength.ScanLengths` | src/shims/node.js:129-173 | The loop gives the scan of the token outcomes. |
| `SvgLength.ParseSvgLength` | src/shims/node.js:121-174 | The method gives `SvgLengths` of the attribute. |
| `SvgLength.FontSizeAgreesWithLength` | src/shims/node.js:181-216 | A font size and a length agree on every absolute unit: both are the number of pixels from the same unit table. |
| `SvgLength.FontSizePixels` | src/shims/node.js:188-212 | An absolute unit, or a bare number in an attribute, gives pixels by the unit table. |
| `SvgLength.FontSizeRelative` | src/shims/node.js:188-201 | `em` and `ex` give the multiple of the parent's size, `%` hundredths of it, and `rem` a multiple of the root's. A bare number counts only in an attribute. |
| `SvgLength.FontSizeNull` | src/shims/node.js:181-216 | Exactly a bare number in a style, or an unknown unit other than `rem`, gives no font size. |
| `DirProvider.LastDot` | providers/dir/DirProvider.js:72 | The result is the last `.` in the file name. None means the name has no dot. |
| `DirProvider.ParsePath` | providers/dir/DirProvider.js:72 | The name followed by the extension is the file name. |
| `DirProvider.WeightName` | providers/dir/DirProvider.js:76 | A match is three digits, optionally followed by `i`, and makes up the whole name. |
| `DirProvider.WeightNameOf` | providers/dir/DirProvider.js:76 | Three digits, with or without `i`, read back as that weight and italic flag. |
| `DirProvider.AxisDef` | providers/dir/DirProvider.js:86 | A match is a four-letter axis with an integer literal, or a range of two. |
| `DirProvider.DefsMap` | providers/dir/DirProvider.js:85-93 | Every stored axis has integer-literal bounds. A later part for an axis replaces an earlier one. |
| `DirProvider.AxisSpec` | providers/dir/DirProvider.js:84-93 | An axis-spec name gives axes with integer-literal bounds. |
| `DirProvider.AxisValueOf` | providers/dir/DirProvider.js:92 | Corrected: a single value is stored as that number, and a range as the two numbers (see Findings for the strings the source stores). |
| `DirProvider.ParseAxisSpec` | providers/dir/DirProvider.js:84-93 | The loop over the `;` parts stops at the first part that does not match and returns `AxisSpec`. |
| `DirProvider.ListVariants` | providers/dir/DirProvider.js:70-99 | The loop over the files returns `FolderVariants` of the folder. |
| `DirProvider.ParseFile` | providers/dir/DirProvider.js:71-98 | One file gives `FileVariants`: nothing unless it is a font file, then a variant for a weight name or for an axis spec. |
| `DirProvider.DirProvider.constructor` | providers/dir/DirProvider.js:29-33 | A new provider has the folder and an empty cache, with a lifetime of `cache` milliseconds or 0. |
| `DirProvider.DirProvider.GetVariants` | providers/dir/DirProvider.js:57-102 | A cached list is returned as it is. Otherwise the folder's variants are returned and stored under the family. |
| `DirProvider.OnlyFontFiles` | providers/dir/DirProvider.js:73 | A file whose extension is not `.ttf`, `.otf`, `.woff` or `.woff2` contributes nothing. |
| `DirProvider.AtMostOneVariant` | providers/dir/DirProvider.js:76-97 | The two name patterns exclude each other, so every file contributes at most one variant. |
| `DirProvider.WeightFile` | providers/dir/DirProvider.js:76-83 | A font file named by weight gives that weight and its italic flag, with its path as the source. |
| `DirProvider.NoAxisSpecForWeight` | providers/dir/DirProvider.js:84-93 | A weight name is too short to be an axis spec. |
| `DirProvider.ExtAfterName` | providers/dir/DirProvider.js:72 | A name without dots followed by a font extension parses back into the two. |
| `DirProvider.AxisSpecAllOrNothing` | providers/dir/DirProvider.js:85-97 | A name is an axis spec exactly when every `;` part matches. One bad part drops the variant. |
| `DirProvider.AxisRangePart` | providers/dir/DirProvider.js:86-92 | A range part reads back its axis and both bounds. |
| `DirProvider.AxisValuePart` | providers/dir/DirProvider.js:86-92 | A single-value part reads back its axis and value. |
| `DirProvider.SingleValueNeverMatchesAsWritten` | providers/dir/DirProvider.js:92 | As written, a single value is stored as `[value, undefined]`, which no request matches: `wght,400.ttf` never matches, not even weight 400. |
| `DirProvider.SingleValueMatches` | providers/dir/DirProvider.js:92 | Corrected: a single value is stored as that value and matches exactly it. |
| `DirProvider.StringBoundsAsWritten` | providers/dir/DirProvider.js:91-92 | As written, `wdth,75..125.ttf` with a request of 150: the target is clamped to the string `"125"`, and `"75" <= "125"` is false as strings, so no variant survives. With numeric bounds the clamped 125 matches. |
| `DirProvider.InRangeAgreesAsWritten` | providers/dir/DirProvider.js:91-92 | Where the request lies between the bounds as numbers, the string bounds as written keep the request and match it. |
| `DirProvider.NumericBoundsMatch` | providers/dir/DirProvider.js:86-92 | Corrected: with numeric bounds, a target clamped to a non-empty range always lies in it, so the pass keeps that variant. |
| `FontFace.NonSpaceRun` | providers/font-face/FontFaceSessionProvider.js:73 | The result is the length of the leading run of non-whitespace characters that `[\S^)]+` captures. |
| `FontFace.FormatRun` | providers/font-face/FontFaceSessionProvider.js:73 | The result is the length of the leading run of `[a-z0-9]` characters. |
| `FontFace.FirstSupported` | providers/font-face/FontFaceSessionProvider.js:72-80 | The result is the URL of an item with a supported format, and no earlier item has one. None means no item has one. |
| `FontFace.Unquoted` | providers/font-face/FontFaceSessionProvider.js:73 | The URL loses a trailing quote, and only that. |
| `Numbers.DigitDotRun` | providers/font-face/FontFaceSessionProvider.js:86 | The result is the length of the leading run of `[\d.]` characters, the number pattern of an `@font-face` `font-weight` and of `font-variation-settings` at src/Session.js:155. |
| `FontFace.AngleRun` | providers/font-face/FontFaceSessionProvider.js:97 | The result is the length of the leading run of `[\d.-]` characters. |
| `FontFace.FontFaceSessionProvider.constructor` | providers/font-face/FontFaceSessionProvider.js:24-27 | A new provider holds the sheets and has parsed nothing. |
| `FontFace.FontFaceSessionProvider.GetVariants` | providers/font-face/FontFaceSessionProvider.js:33-38 | Corrected: built on `FontFace.FaceVariant` (see Findings). The sheets are parsed on the first request only, and the family's list, or `[]`, is returned. |
| `FontFace.FontFaceSessionProvider.Parse` | providers/font-face/FontFaceSessionProvider.js:42-48 | Corrected: built on `FontFace.FaceVariant` (see Findings). Every sheet's entries are added, in order, to empty data. |
| `FontFace.FontFaceSessionProvider.ParseStyleSheet` | providers/font-face/FontFaceSessionProvider.js:53-61 | Corrected: built on `FontFace.FaceVariant` (see Findings). A sheet's entries, imports included where they stand, are added to the data. |
| `FontFace.FontFaceSessionProvider.ParseRule` | providers/font-face/FontFaceSessionProvider.js:55-59 | Corrected: built on `FontFace.FaceVariant` (see Findings). One rule adds the entries of an imported sheet or of a face rule. |
| `FontFace.AddAllAppend` | providers/font-face/FontFaceSessionProvider.js:103-108 | Adding `a + b` is adding `a`, then `b`. |
| `FontFace.AddAllOf` | providers/font-face/FontFaceSessionProvider.js:103-108 | Each family's list holds its new variants in rule order, after whatever it held. |
| `FontFace.ParsedFamily` | providers/font-face/FontFaceSessionProvider.js:33-48 | Corrected: built on `FontFace.FaceVariant` (see Findings). After parsing, a family's variants are those of its rules, in sheet and rule order. |
| `FontFace.UnknownFamily` | providers/font-face/FontFaceSessionProvider.js:37 | A family with no rule gets no variants. |
| `FontFace.SheetAppend` | providers/font-face/FontFaceSessionProvider.js:54-60 | A sheet's entries are those of its first rules followed by those of the rest. |
| `FontFace.ImportInPlace` | providers/font-face/FontFaceSessionProvider.js:56 | An imported sheet's rules count where the `@import` stands. |
| `FontFace.RulesPrefix` | providers/font-face/FontFaceSessionProvider.js:54-60 | The entries of the first `k` rules depend on those rules alone. |
| `FontFace.QuotedFamily` | providers/font-face/FontFaceSessionProvider.js:70 | A quoted family name loses its quotes. |
| `FontFace.FirstSupportedSkips` | providers/font-face/FontFaceSessionProvider.js:72-80 | The first item with a supported format wins. Unsupported or unmatched items before it are skipped. |
| `FontFace.FirstUsable` | providers/font-face/FontFaceSessionProvider.js:72-80 | The result is the URL of the first usable match, and no earlier match is usable; `None` exactly when no match is usable. |
| `FontFace.FirstUsableSkips` | providers/font-face/FontFaceSessionProvider.js:72-80 | When item `i` is the first usable one, the selection returns its URL. |
| `FontFace.NonSpaceRunOf` | providers/font-face/FontFaceSessionProvider.js:73 | `\S*` stops at the first whitespace character. |
| `FontFace.UrlPartQuoted` | providers/font-face/FontFaceSessionProvider.js:73 | A quoted URL without whitespace is captured together with its closing quote. |
| `FontFace.UrlPartBare` | providers/font-face/FontFaceSessionProvider.js:73 | An unquoted URL without whitespace is captured whole. |
| `FontFace.FormatPartOf` | providers/font-face/FontFaceSessionProvider.js:73 | ` format("f")` names the format `f`. |
| `FontFace.SupportedFormat` | providers/font-face/FontFaceSessionProvider.js:75 | The supported formats are non-empty runs of `[a-z0-9]`. |
| `FontFace.SourceOfItem` | providers/font-face/FontFaceSessionProvider.js:72-80 | A one-item source list takes that item's URL when its format is supported. |
| `FontFace.Source` | providers/font-face/FontFaceSessionProvider.js:72-80 | Corrected: the URL between the quotes, without the closing quote the greedy class takes (see Findings). It exists exactly when the code as written finds a source, and it is that source less at most its last character. |
| `FontFace.Oblique` | providers/font-face/FontFaceSessionProvider.js:97-101 | Corrected: the second angle is optional (see Findings). Wherever the code as written matches, the slant is the same, and a slant is read only from a value that starts with `oblique`. |
| `FontFace.FaceAxes` | providers/font-face/FontFaceSessionProvider.js:86-102 | Only `wght`, `ital` and `slnt` are set. `wght` is set exactly when `font-weight` parses, to its value. `ital` is 1 exactly for `italic`, and then there is no slant. `oblique` alone is a slant of -14. |
| `FontFace.FaceVariant` | providers/font-face/FontFaceSessionProvider.js:66-102 | Corrected: built on `FontFace.Source` and `FontFace.Oblique` (see Findings). A rule gives a variant exactly when it has a supported source. The variant is filed under the rule's unquoted family, with that source. |
| `FontFace.QuotedUrlAsWritten` | providers/font-face/FontFaceSessionProvider.js:73 | As written, the source of `url("u") format("f")` is `u"`: the capture keeps the closing quote. |
| `FontFace.QuotedUrl` | providers/font-face/FontFaceSessionProvider.js:73-76 | Corrected: the source is the URL itself, quoted or not. |
| `FontFace.BareUrl` | providers/font-face/FontFaceSessionProvider.js:73-76 | An unquoted URL is the source, as written and corrected alike. |
| `FontFace.FloatNat` | providers/font-face/FontFaceSessionProvider.js:88 | `parseFloat` of a decimal numeral is its value. |
| `FontFace.WeightPoint` | providers/font-face/FontFaceSessionProvider.js:86-90 | `font-weight: n` is the weight `n`. |
| `FontFace.WeightRange` | providers/font-face/FontFaceSessionProvider.js:86-90 | `font-weight: a b` is the range `[a, b]`. |
| `FontFace.StyleKeywords` | providers/font-face/FontFaceSessionProvider.js:91-96 | `italic` sets `ital` to 1 and no slant. `oblique` alone sets `slnt` to -14. |
| `FontFace.ObliqueRange` | providers/font-face/FontFaceSessionProvider.js:97-101 | `oblique a b` leans over `[-b, -a]`, as written and corrected alike. |
| `FontFace.TwoAngles` | providers/font-face/FontFaceSessionProvider.js:97 | Two angles in degrees are read back as written. |
| `FontFace.SingleAngleAsWritten` | providers/font-face/FontFaceSessionProvider.js:97 | As written, a single angle does not match, so `oblique 10deg` gives no slant. |
| `FontFace.SingleAngle` | providers/font-face/FontFaceSessionProvider.js:97-100 | Corrected: a single angle `a` is the slant `-a`. |
| `FontFace.AnglePartOf` | providers/font-face/FontFaceSessionProvider.js:97 | `\s+<digits>deg` reads its digits and stops after `deg`. |
| `DirProvider.Create` | providers/dir/DirProvider.js:39-44 | A provider is created exactly when `fontsDir` is set, with the lifetime `fontsDirCache ?? 0`. |
| `Google.FilesVariants` | providers/google/GoogleProvider.js:63-77 | Corrected: built on `Google.FileVariant` (see Findings). There is one variant per file, in order, each made by `FileVariant` from its key and source. |
| `Google.LastOf` | providers/google/GoogleProvider.js:78 | The result is the last item of the family. None means there is none. |
| `Google.FileVariantsOf` | providers/google/GoogleProvider.js:62-77 | Corrected: built on `Google.FileVariant` (see Findings). The loop over the files returns `FilesVariants`. |
| `Google.ProcessData` | providers/google/GoogleProvider.js:59-81 | Corrected: built on `Google.FileVariant` (see Findings). The loop over the items returns `FamilyMap`, where a later item replaces an earlier one. |
| `Google.UrlCarriesKey` | providers/google/GoogleProvider.js:50-53 | The URL is the fixed API prefix followed by the key, encoded losslessly and without `&` or `#`. |
| `Google.RegularKey` | providers/google/GoogleProvider.js:65-67 | The key `regular` is weight 400, upright. |
| `Google.NumericKey` | providers/google/GoogleProvider.js:68-71 | A key `<n>` is weight `n`, upright. A key `<n>italic` is weight `n`, italic. |
| `Google.ItalicKeyAsWritten` | providers/google/GoogleProvider.js:69 | As written, the key `italic` parses to the weight `NaN`. |
| `Google.ItalicKey` | providers/google/GoogleProvider.js:65-71 | Corrected: the key `italic` is weight 400, italic. |
| `Google.Weight` | providers/google/GoogleProvider.js:65-71 | Corrected: the key `italic` is weight 400 (see Findings). Every other key gets the weight of the code as written. |
| `Google.FileVariant` | providers/google/GoogleProvider.js:63-76 | Corrected: uses `Google.Weight` (see Findings). The source moves to `https://`. `ital` is always set, by the key's `italic` suffix. `wght` is set exactly when the weight is a number, to that number. No other axis is set. |
| `Google.HttpsSource` | providers/google/GoogleProvider.js:75 | A source starting with `http://` moves to `https://`. One without `http://` is kept. |
| `Google.LastItemWins` | providers/google/GoogleProvider.js:61-79 | A family is mapped exactly when some item has it, and it maps to the files of its last item. |
| `Http.CreateRepo` | providers/http/HttpProvider.js:50-55 | A provider is created exactly when `fontsUrl` is set, with the given lifetime. |
| `Http.CreateGoogle` | providers/google/GoogleProvider.js:40-45 | A provider is created exactly when `googleApiKey` is set. Its URL is never per family. |
| `Http.HttpProvider.constructor` | providers/http/HttpProvider.js:38-44 | A new provider is per family exactly when its URL holds `--family--`. Its cache is empty, with the lifetime `cache ?? 600000`, and nothing is loading. |
| `Http.HttpProvider.BeginLoad` | providers/http/HttpProvider.js:97-104 | On a cache hit the data is returned at once. Otherwise a fetch starts only when none is in flight for the URL, and the URL is marked as loading. |
| `Http.HttpProvider.FinishLoad` | providers/http/HttpProvider.js:105-109 | The URL stops loading, and the processed data is cached under it. |
| `Http.HttpProvider.LoadData` | providers/http/HttpProvider.js:97-110 | A hit returns the cached data without a fetch. A miss returns the processed response and fetches unless a fetch was in flight. |
| `Http.HttpProvider.TwoLoads` | providers/http/HttpProvider.js:103-104 | Two loads of one URL that both miss the cache start at most one fetch between them. |
| `Http.PerFamilyIff` | providers/http/HttpProvider.js:41 | A repository URL is per family exactly when it holds `--family--`. |
| `Http.UrlTemplate` | providers/http/HttpProvider.js:68-70 | The first `--family--` becomes the encoded family. |
| `Http.UrlCarriesFamily` | providers/http/HttpProvider.js:68-70 | The family can be read back from its URL. |
| `Http.DistinctUrls` | providers/http/HttpProvider.js:68-70 | Distinct families never share a per-family URL, so they never share a cache entry. |
| `Http.GoogleIgnoresFamily` | providers/google/GoogleProvider.js:50-53 | The Google URL does not depend on the family and is not per family. |
| `Http.SharedDocument` | providers/http/HttpProvider.js:86-91 | Without the placeholder, a family's list is its entry in the shared document, or `[]`. |
| `Http.PerFamilyDocument` | providers/http/HttpProvider.js:86-89 | With the placeholder, the document is the family's list, whatever the family. |
| `Http.GoogleVariants` | providers/google/GoogleProvider.js:59-81 | A family's Google list is the files of its last item, or `[]`. |
| `HttpSession.HttpSessionProvider.constructor` | providers/http/HttpSessionProvider.js:24-28 | A new session has an empty cache. |
| `HttpSession.HttpSessionProvider.GetVariants` | providers/http/HttpSessionProvider.js:34-43 | A hit is answered from the session cache without the provider. A miss loads the data and remembers it. Either way the list is picked out by `getVariantsFromData`. |
| `HttpSession.AskTwice` | providers/http/HttpSessionProvider.js:34-43 | Asked twice for one family, a session gives the same list. |
| `Config.Variants` | providers/config/ConfigSessionProvider.js:27-29 | The result is the family's entry in the map, or `[]` when the map or the entry is missing. |
| `Config.VariantsListed` | providers/config/ConfigSessionProvider.js:27-29 | A family has variants only if the map lists it, and then exactly those. |
| `Uri.HexDigit` | providers/google/GoogleProvider.js:52 | Every digit produced is an upper-case hex digit. |
| `Uri.Utf8` | providers/google/GoogleProvider.js:52 | A character encodes to 1 to 4 bytes. |
| `Uri.EncodeSafe` | providers/google/GoogleProvider.js:52 | An encoded string holds only unreserved characters, `%` and hex digits. |
| `Uri.EncodeUnreserved` | providers/http/HttpProvider.js:69 | A string of unreserved characters is its own encoding. |
| `Uri.EncodeAppend` | providers/http/HttpProvider.js:69 | Encoding works character by character. |
| `Uri.DecodeChar` | providers/http/HttpProvider.js:69 | Decoding undoes the encoding of one character. |
| `Uri.DecodeEncode` | providers/http/HttpProvider.js:69 | Decoding the encoded string gives it back. |
| `Uri.EncodeInjective` | providers/http/HttpProvider.js:69 | Distinct strings have distinct encodings. |
| `Cli.ClassItem` | bin/cli.js:143-144 | An item fails, because `families.split` throws, exactly when it has no `:`. |
| `Cli.ItemTexts` | bin/cli.js:138-149 | Each entry is written as `cls:f1,f2`, one text per entry. |
| `Cli.ParseFallbackGlyph` | bin/cli.js:157-166 | A result has a non-empty family with no comma, and the family is the text before the input's first comma. |
| `Cli.SplitOne` | bin/cli.js:161 | A split has one part exactly when the separator does not occur. |
| `Cli.SplitHead` | bin/cli.js:143 | The first part of a split is the text before the first separator, or the whole text when there is none. |
| `Cli.AddClassesThrows` | bin/cli.js:142-149 | The `reduce` throws exactly when some item has no `:`. |
| `Cli.ClassesThrowIff` | bin/cli.js:138-149 | An empty input gives `null`. Any other input throws exactly when some `;` item has no `:`. |
| `Cli.ParseFamilyClasses` | bin/cli.js:138-149 | `parseFamilyClasses` gives `null` exactly for an empty option. |
| `Cli.ClassItemOf` | bin/cli.js:143-146 | A well-formed item text parses back to its class and families. |
| `Cli.JoinNoChar` | bin/cli.js:144 | A character found in no part, and not the separator, is not in the join. |
| `Cli.AddClassesOf` | bin/cli.js:142-149 | The items of well-formed entries build their class map. |
| `Cli.ClassesRoundTrip` | bin/cli.js:138-149 | The option text of well-formed entries parses back to their classes, a later class replacing an earlier one. |
| `Cli.JoinHead` | bin/cli.js:144 | A join is at least as long as its first part. |
| `Cli.DuplicateClass` | bin/cli.js:146 | When a class appears twice, the later families win. |
| `Cli.SplitAfter` | bin/cli.js:142 | Splitting at a first separator gives the text before it, then the split of the rest. |
| `Cli.FallbackGlyphOf` | bin/cli.js:157-166 | `family,n` gives the family and the number `n`. |
| `Cli.FallbackExtraIgnored` | bin/cli.js:161 | Any parts after the codepoint are ignored. |
| `Cli.FallbackGlyphNull` | bin/cli.js:158-165 | Without a comma, or with an empty family or codepoint, the result is `null`. |
| `Cli.FallbackGlyphNaN` | bin/cli.js:157-166 | `Arial,x` gives the family `Arial` and the codepoint `NaN`, which `String.fromCodePoint` later rejects. |
| `Cli.Having` | bin/cli.js:173-181 | No more items than the input, and every item has the key. |
| `Cli.HavingSelects` | bin/cli.js:173-181 | The items of one key are the input's items at strictly increasing indices, and these are exactly the indices whose item has that key. |
| `Cli.GroupBy` | bin/cli.js:173-181 | The loop returns the keys in order of first appearance and the groups of `Groups`. |
| `Cli.GroupKeys` | bin/cli.js:173-181 | The key order lists each key of the groups exactly once. |
| `Cli.GroupsKeepOrder` | bin/cli.js:173-181 | A key has a group exactly when some item has that key. The group holds exactly that key's items, in input order. |
| `Cli.HavingPartition` | bin/cli.js:175-178 | Grouping loses and adds nothing: an item is in the input exactly when it is in its key's group. |
| `Cli.WarningToString` | bin/cli.js:227-251 | The loop over the default table returns `requested >> variant` as `WarningText` builds it, using the matcher's defaults. |
| `Cli.PartsHave` | bin/cli.js:236-250 | Each part that an axis lists appears in its list. |
| `Cli.TableAgrees` | bin/cli.js:228-238 | The corrected table reads the request and the variant's span as the matcher does. |
| `Cli.MismatchListed` | bin/cli.js:240-249 | An axis where the variant misses the request is listed on both sides. An axis at its default on both sides is listed on neither. |
| `Cli.Unroll4` | bin/cli.js:236-250 | The loop over a four-entry table is the four parts in table order. |
| `Cli.DefaultsAsWritten` | bin/cli.js:228-233 | As written, an upright request against an italic-only variant reports a weight clash of 400 against 100, although the matcher finds the weight matching. |
| `Cli.DefaultsCorrected` | bin/cli.js:227-251 | With the matcher's defaults, the same warning reports only the italic clash. |
| `Cli.OnlyReportedAxes` | bin/cli.js:258-271 | Axes outside `wght, ital, wdth, slnt` never show in the text. |
| `Cli.AxisTextsNoComma` | bin/cli.js:265-268 | No part holds a comma when the names and number texts hold none. |
| `Cli.ReportSplits` | bin/cli.js:258-271 | Splitting the text on `,` gives back one part per defined axis. |
| `Cli.AxisTextsHave` | bin/cli.js:259-270 | A defined axis has its text among the parts. |
| `Cli.ReportOrderFixed` | bin/cli.js:259 | The axes print as `wght`, `ital`, `wdth`, `slnt`, whatever order the variant's map was built in. |
| `Cli.NoReportedAxes` | bin/cli.js:262-270 | Undefined axes are left out, so a variant with none of the four gives no parts. |
| `Cli.VariantToString` | bin/cli.js:258-271 | `variantToString` gives the empty text exactly when the variant defines none of `wght`, `ital`, `wdth` and `slnt`. |
| `Cli.AxisTextsEmpty` | bin/cli.js:262-270 | Every part is non-empty, and there is no part exactly when none of the named axes is defined. |
| `Cli.Kept` | bin/cli.js:102-103 | An entry is kept exactly when its value is not `null`, and it keeps its value. |
| `Cli.MergeOverrides` | bin/cli.js:102-108 | A non-null command-line value wins. A null or absent one leaves the config file's value, if any. Nothing else appears. |
| `Strings.Split` | src/Session.js:138 | A split of a text on one character is never empty, and no part holds the separator. |
| `Strings.SplitJoin` | src/Session.js:138 | Joining the parts of a split with the separator gives the text back. |
| `Strings.JoinSplit` | bin/cli.js:144 | Splitting a join of parts without the separator gives the parts back. |
| `Strings.Trim` | src/Session.js:138 | `trim` drops exactly the leading and trailing whitespace, so the result neither starts nor ends with whitespace. |
| `Strings.IndexOf` | providers/http/HttpProvider.js:69 | The result is the first index where the pattern occurs. None means it occurs nowhere. |
| `Strings.ReplaceFirst` | providers/http/HttpProvider.js:69 | A string pattern replaces only its first occurrence. Without one the text is unchanged. |
| `Strings.StripQuotesWrapped` | src/Session.js:138 | A family name in quotes loses exactly the quotes. An unquoted name is kept as it is. |
| `Numbers.ParseIntRoundTrip` | src/Session.js:141 | `parseInt(String(n))` is `n` for every integer. |
| `Numbers.ParseIntNat` | bin/cli.js:163 | `parseInt` reads a natural number back from its digits, whatever non-digit text follows, except that `0` followed by `x` or `X` opens a hexadecimal numeral (`parseInt("5x")` is 5). |
| `Numbers.ParseFloatNat` | src/Session.js:157 | `parseFloat` reads a natural number back from its digits when no digit, decimal point or exponent marker follows. |

## Left out

- DOM access and mutation are left out. This covers `getStyleProp`'s walk up the ancestors, `parseSvgString`, `getSvgString`, the helpers of src/misc.js and the element replacement at the end of `#layoutCloseElementNode`. Computed styles and the text-node tree are inputs.
- The font engines (fontkit, opentype.js and the `Font` interface) are left out. A font is an abstract value. `hasGlyph`, the metrics and the shaped glyph positions are parameters.
- Path emission and the decimal rounding of `toPathData` are left out. They are library calls and float formatting.
- File and network I/O (`readdir`, `access`, `fetch`, `getBufferFromSource`) are left out. A list of file names, a `respond` function and a loader stand in for them.
- `Date.now` is a `now` parameter.
- Promise plumbing is left out (`applyPromiseMap`, `Promise.all`, the order in which `await`s resume). An asynchronous operation is split at its `await`s into methods, so an interleaving is a sequence of calls. In-flight de-duplication is modelled as a `loading` set and as memo entries created by the first request.
- Floating point is modelled as `real`. `Infinity` appears only as the cache's unbounded duration.
- `NaN` is a value of the parsers (`JsNum`) and of the as-written lemmas of the scaling and pen findings. Elsewhere a `NaN` the source would store is dropped or replaced, as the lines below say.
- `SessionStyle.ApplyVariation`: a `font-variation-settings` item whose number has no digit (`"wght" .`) is dropped. The source stores `parseFloat(".")`, which is `NaN`, for that axis.
- `FontFace.Float`: a `font-weight` or oblique angle made only of dots gives `None`, so the axis is not set. The source maps it through `parseFloat` and stores `NaN`.
- `Numbers.ParseFloat`: exponent notation (`12e5`) and `Infinity` are not read. The number ends before the `e`, where `parseFloat` reads the exponent.
- `Strings.IsSpace`: whitespace is ASCII whitespace only. It stands for the regular-expression class `\s` in `SvgLength`, `FontFace` and `SessionStyle`, which in JavaScript also matches U+00A0, U+FEFF, U+2028, U+2029 and the other Unicode space separators.
- `Strings.Trim`: only ASCII whitespace is stripped. JavaScript's `trim` also strips U+00A0, U+FEFF, U+2028, U+2029 and the other Unicode space separators.
- The printed form of a number (`${x}`) is a `show` parameter. The model proves nothing about the digits of a printed number.
- `Object.entries` lists integer-like keys first. `Cli.GroupBy` returns keys in insertion order, which is the order JavaScript uses for keys that are not integer-like.
- Inherited prototype keys such as `constructor` are left out. Maps hold only the keys the code stores.
- `Uri.Encode` covers code points, so a lone surrogate is not modelled. For a lone surrogate, `encodeURIComponent` throws a `URIError`.
- `FontResolution.FromCodePoint`: a surrogate code point (0xD800 to 0xDFFF) gives no character, so the model throws the `RangeError` there. `String.fromCodePoint` returns a lone surrogate, which a `char` cannot hold.
- `SessionText.ReplaceErrors`: a TypeError of `getBestVariant` is allowed with no condition at the session level. The session does not carry the cache soundness and well-formed provider lists under which `FontResolutionLemmas.SharedStateNeverThrows` rules it out for one call.
- `FontResolution.Resolve`: family classes must be ranked, so a class may only name classes of lower rank. A cyclic class definition, which in the source recurses until the stack overflows, is outside the model.
- `FontStyle.SortBy`: `Array.prototype.sort` is modelled as a stable insertion sort with the same comparator. An engine's own algorithm may order equal elements differently only when the comparator is inconsistent.
- `FontFace.Source` reads only the `url(...)` and `format(...)` that follow the first `url(` of each `src` item, and gives no source when they do not match there. The unanchored regular expression of FontFaceSessionProvider.js:73 tries again at a later `url(` in the same item. The character class `[\S^)]` matches any character that is not whitespace, `)` included.
- `Http.VariantsFromData`: with a per-family URL, a response that is a map rather than a list gives `[]`. In the source the map itself is returned.
- `Google.FileVariant`: a key other than `regular` and `italic` whose weight is `NaN` leaves `wght` unset, so the matcher reads the weight as 400. The source stores `wght: NaN`, which no request matches. The matcher here works on numbers only.
- `printStat` and the remaining console output of bin/cli.js are left out. So are reading the config file and the input, and writing the output.
- Cache entries are never swept except by `get`, as in the source. The model does not bound the cache's size.
- The session's `destroy` is left out. It drops references and removes a temporary DOM node.
- `FontStyle.SortAndFilterCopy`: on an empty list it returns `[]`, where the source's `filterEq` throws on `variants[0]`. Only the inputs of `FontStyle.BestThrows` reach that case.
- `FontStyle.FilterEq`: the empty list gives the empty list, where the source throws. `FontStyle.GetBestVariant` reports that throw as a flag, set exactly on the inputs of `FontStyle.BestThrows`.
- `DirProvider.AxisValueOf`: the bounds of an axis-spec file name are stored as numbers. The source stores the matched strings, and two strings compare lexicographically (see Findings). `DirProvider.StringBoundsAsWritten` models the strings.
- `DirProvider.ParseFile`: its variants carry the numeric bounds of `DirProvider.AxisValueOf`, not the source's strings.
- `DirProvider.ListVariants`: its variants carry the numeric bounds of `DirProvider.AxisValueOf`, not the source's strings.
- `DirProvider.DirProvider.GetVariants`: the cache logic is the source's. The variants it lists carry numeric bounds, not the source's strings.
- `SessionLayout.ScaleOf`: a scale that is 0, infinite or `NaN` is `None`, and the run is then left as it is. The source carries on with it and writes `NaN` positions (see Findings). `SessionLayoutLemmas.DegenerateScalingNaN` models the code as written.
- `SessionLayout.AdjustFor`: it is built only with the corrected, finite non-zero scale of `SessionLayout.ScaleOf`.
- `LayoutMachine.LayoutState.AdjustItem`: it requires a non-zero scale, the corrected behaviour of `SessionLayout.ScaleOf`. A zero scale comes from a `textLength` equal to the fixed width, and the source then divides by it and writes `NaN`.
- `LayoutMachine.LayoutState.CorrectLength`: degenerate scaling is skipped, as `SessionLayout.ScaleOf` says.
- `SessionLayoutLemmas.ScalingStretchesRun`: it proves the factor and the scaled widths. That the scaled run then spans `textLength` is proved on the item sequence by `SessionLayoutLemmas.SpanOfScaledRun`, whose requirements are what `ScalingStretchesRun` and `SessionLayoutLemmas.ScalingShiftsRun` ensure. The two are not composed into one lemma over `CorrectRun`, which exceeds the solver's budget.
- `FontFactory.FontFactory.constructor`: the factory always starts with a fresh font cache that never expires. The source takes `session.params.fontCache` when one is given, which may be shared, already filled, or finite-lived. "A font key is loaded at most once" is proved only for the default cache.
- `Session.Session.constructor`: the session's factory gets a fresh, empty font cache. A `fontCache` parameter shared between sessions is not modelled.
- `SessionText.MakeTextGroups`: fonts are compared by value. The source compares object identity (`prev !== font`), and the fontkit renderer can build a new font object for each lookup in a variable font, so the source can split such a run into one group per character. The shaping of a font object is a parameter here.
- `SessionText.GroupedSpellsChars`: its runs are maximal by font value, not by object identity. See `SessionText.MakeTextGroups` above.
- `SessionStats.AddStatsAccount`: the statistics' maps are keyed by value. The source keys them by the font and variant objects, so two distinct objects with equal contents are two keys there and one key here.
- `Http.HttpProvider.LoadData`: a rejected `fetch` or `json()` is not modelled, because `respond` always answers. In the source the rejected promise then stays in `#loading` for good, and every later request for that URL gets the same rejection.
- `FontFactory.FontFactory.GetFamilyVariants`: a provider failure is not modelled. In the source a rejected `Promise.all` stays memoised in the family cache, so the family fails for the rest of the session.
- The session's `createCache` is left out. It is a plain `new Cache(duration)`, which `Cache.Cache.constructor` models.

## Findings

| source | as written | input that shows it | evidently intended | confidence | as-written member | corrected member |
|---|---|---|---|---|---|---|
| src/FontFactory.js:151 | The family-class recursion is called without `state`. A member family that must be recorded as missed then writes to `undefined.missed` and throws a `TypeError`. | `familyClasses = {sans: ["Missing"]}`, with no provider knowing `Missing`, and a request for `sans`. | The state is passed on. The member and the class are recorded as missed, and no font results. | not executed | `FontResolutionLemmas.ClassWithoutStateThrows` | `FontResolutionLemmas.ClassWithStateRecordsMissed` |
| src/Session.js:390-392 | A group closed on a font change takes `style` and `isFallback` from the character that opens the next group. | `a` in its own font, followed by a fallback glyph `?` in another font with another style. | Each group keeps the style and fallback flag of its own characters. | not executed | `SessionText.MakeTextGroupsMislabels` | `SessionText.MakeTextGroups` |
| providers/google/GoogleProvider.js:65-71 | Any key other than `regular` gets `wght = parseInt(key)`, so the key `italic` gets the weight `NaN`. | A Google family whose files include the key `italic`. | `italic` is weight 400, italic, as `regular` is weight 400, upright. | not executed | `Google.ItalicKeyAsWritten` | `Google.ItalicKey` |
| src/Session.js:610 | The spacing branch of the adjusting loop reads `state.stack[i + 1].fix`. When a fixed item is the last one on the stack, that entry is `undefined` and the read throws. | An inner `<tspan textLength>` that ends its outer `<text textLength>`, for example one glyph fixed by the inner element and then the outer correction. | The last item of a fixed run ends a gap. | not executed | `SessionLayoutLemmas.NestedTextLengthThrows` | `SessionLayout.EndsGap` |
| src/Session.js:482-488 | A `dx` entry is added to `state.cx` even when no `x` was ever given, and the undefined pen becomes `NaN`. | `<text y="20" dx="5">`. | The pen starts at 0, as it does everywhere else, so the first glyph is placed at 5. | not executed | `SessionLayoutLemmas.PenNaNAsWritten` | `SessionLayout.ResetPenX` |
| providers/dir/DirProvider.js:92 | `match.length > 3` always holds, so a single-value axis is stored as `[value, undefined]`, a range that no value falls in. | A file named `wght,400.ttf` and a request for weight 400. | A single value is stored as that value and matches exactly it. | not executed | `DirProvider.SingleValueNeverMatchesAsWritten` | `DirProvider.SingleValueMatches` |
| providers/font-face/FontFaceSessionProvider.js:73 | `[\S^)]+` is greedy and also takes the closing quote, so the source of `url("u") format("woff")` is `u"`. | `src: url("font.woff") format("woff")`. | The source is the URL without its quotes. | not executed | `FontFace.QuotedUrlAsWritten` | `FontFace.QuotedUrl` |
| providers/font-face/FontFaceSessionProvider.js:97 | The second angle group is not optional, so `oblique 10deg` does not match and gives no slant. | `font-style: oblique 10deg`. | A single angle `a` gives the slant `-a`. | not executed | `FontFace.SingleAngleAsWritten` | `FontFace.SingleAngle` |
| bin/cli.js:228-233 | The default table gives `wdth` 400 and `wght` 100, where the matcher uses 100 and 400. | A request for upright weight 400 against a variant that only declares `ital` 1: the warning reports `wght=400 >> wght=100`. | The defaults of the matcher, so that only the italic clash is reported. | not executed | `Cli.DefaultsAsWritten` | `Cli.DefaultsCorrected` |
| src/Session.js:585-607 | A scale of 0, an infinity or `NaN` is used as it is. `w *= scale` and `delta += width - width / scale` then give `NaN`, and every later glyph of the run is placed at `x = NaN`. | `<text textLength="0" lengthAdjust="spacingAndGlyphs">ab</text>`, or a run whose extent is 0. | A scale that is not a finite non-zero number leaves the run as it is. | not executed | `SessionLayoutLemmas.ZeroTextLengthNaN` | `SessionLayoutLemmas.ScalingDegenerate` |
| providers/dir/DirProvider.js:91-92 | The bounds of an axis-spec file name are stored as the matched strings. `normalize` can clamp the target to such a string, and `variantMatchAxis` then compares two strings, lexicographically. | A folder holding `wdth,75..125.ttf` and `font-stretch: extra-expanded` (150): the target becomes `"125"`, `"75" <= "125"` is false, the width pass keeps nothing, and the next pass throws. | The bounds are numbers, so the clamped target lies in its own range. | not executed | `DirProvider.StringBoundsAsWritten` | `DirProvider.NumericBoundsMatch` |
