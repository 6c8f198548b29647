# devicons-astro icon resolution and responsive colours, in Dafny

This project models the two pieces of decision logic of the devicons-astro
package:

- **Icon resolution and caching** (`package/src/getIcon.ts`). An icon is
  requested by name and version (variant). The catalog is searched for the
  first entry with exactly that name. The version is used as it stands when
  it is a property key of the entry's `versions.svg` array; otherwise the
  first alias spelled like the version supplies the base version. The result
  is the CDN-relative path `name/name-variant.svg`. When resolution fails,
  `genError` picks one of three errors: the name ends with a variant (with a
  suggested name), the version is not a known variant, or the icon was not
  found. `getIcon` is a read-through cache keyed by `name:version`: a hit
  returns the stored record without fetching; a miss fetches, extracts
  `viewBox` and the inner markup, and stores the record under that key.
- **Responsive colours** (`package/src/color.ts`). `getResponsiveColors`
  fills in the background options (`true` means white/black backgrounds,
  threshold 3, fallbacks black/white; an object overrides field by field).
  Then, separately for the light and the dark background, it keeps the
  icon's colour when the WCAG 2.1 contrast ratio reaches the threshold and
  uses the fallback otherwise.

Modules: `Wrappers` (Option, Result), `JsText` (the JavaScript string
operations used: `endsWith`, `indexOf`, `replace`, decimal index keys),
`JsArray` (`Array.prototype.find` and the `in` operator on arrays),
`IconPath` (`Variants`, `genError`, `getUrlPath`), `IconCache` (`iconFromCDN`,
`getIcon`, and `ServeAll`, a run of `getIcon` calls on one cache) and
`ResponsiveColors` (`color.ts`).

Points where the code behaves in a way that is easy to miss:

- `version in targetIcon.versions.svg` is JavaScript's `in` on an array,
  modelled by `JsArray.HasProperty`. It is true for the element positions "0", "1", … and for property names such
  as "length" or "map". It is never true for a variant name such as
  "original". So a base version resolves only when the icon also lists an
  alias spelled like it (`IconPath.VariantResolvesOnlyThroughAlias`,
  `IconPath.BaseVersionWithoutAliasFails`). Meanwhile "0" resolves to the
  path `go/go-0.svg`.
- The cached record is `{viewBox, inner}`, not a parsed document with a
  colour. No ID rewriting and no ordered list of preferred variants exist in
  this code, so none is modelled.
- The suggested name removes the FIRST occurrence of the matched variant,
  which need not be the suffix that matched. For example, "line-line" is
  answered with "-line" (`IconPath.FirstOccurrenceIsRemoved`).
- The hint is not reserved for unknown names. An icon that exists and whose
  name ends with a variant gets it for any version that does not resolve:
  "xline" asked for "plain" is told to use "x" with "line"
  (`IconPath.KnownIconGetsVariantHint`, `IconPath.ExistingIconNamedLikeVariant`).
- The guard `matches && matches.length <= 2` cannot fire, because the
  regular expression has two groups. A body that `ICON_REGEX` does not match (no
  `<svg …>` element, or one without a `viewBox="…"` attribute) therefore makes `matches` null, and reading `matches[1]` throws a
  TypeError. The model reports this as `SvgNotMatched`.
- The cache is a plain object, so `key in devIcons` would also see inherited
  names such as "toString". Every cache key contains ':', and no inherited
  name does, so the test is exact and the cache is modelled as a map.
- The HTTP status of the fetch is not checked. Any response body is passed
  to the regular expression.

Abstractions: the CDN fetch is a function from the relative path to
`Option<string>`, with `None` for a rejected promise. The `ICON_REGEX` match
is a function from the body to `Option<IconData>`. Both are fields of
`IconCache.Net`. The colour library is `ResponsiveColors.ColorLib`, made of
three functions: `parse`, which returns `None` where `new Color` throws;
`contrast`, the WCAG 2.1 contrast ratio; and `show`, which is `toString`.

## Model

| member | source | states |
|---|---|---|
| `JsArray.FindIndex` | package/src/getIcon.ts:51 | `Array.prototype.find`: the result is the first position whose element satisfies the predicate; None exactly when no element does |
| `JsArray.IndexKeysAreSpelledIndices` | package/src/getIcon.ts:78 | the element keys of an array of length n are exactly the decimal spellings of 0 … n-1 (both directions) |
| `JsArray.NotInheritedByShape` | package/src/getIcon.ts:78 | a key starting with 'o', or with 'p' at a length other than 3, 4 and 20, or with 'l' at a length other than 6 and 11, is not an inherited array or object property name, so `in` does not find it through the prototype chain |
| `JsArray.HasProperty` | package/src/getIcon.ts:78 | `version in versions.svg` holds exactly when the version is the decimal spelling of a position below the array's length, is "length", or is an inherited array or object property name; it never looks at the elements |
| `JsArray.HasPropertyIgnoresElements` | package/src/getIcon.ts:78 | two arrays of the same length answer the `in` test identically, whatever they contain |
| `JsText.EndsWith` | package/src/getIcon.ts:51 | `name.endsWith(v)` holds exactly when `v` is no longer than the name and occurs at the last position where it fits |
| `JsText.EndsWithIffAppended` | package/src/getIcon.ts:51 | `s.endsWith(suffix)` holds exactly when `s` is some string followed by `suffix` |
| `JsText.IndexOf` | package/src/getIcon.ts:55 | the position where `replace` with a string pattern acts: `sub` occurs there and at no earlier position; None exactly when it occurs nowhere |
| `JsText.RemoveFirst` | package/src/getIcon.ts:55 | `name.replace(variant, "")` deletes the first occurrence of the variant and nothing else; the name is unchanged when the variant does not occur |
| `JsText.StripTrailingDash` | package/src/getIcon.ts:56 | `.replace(/(.*)-$/, "$1")` removes exactly one trailing '-': result + "-" is the input when it ends with '-', otherwise the input is unchanged |
| `JsText.RemoveFirstOfSoleSuffix` | package/src/getIcon.ts:54-55 | when the variant occurs only as the suffix, removing its first occurrence removes the suffix (result + variant == name) |
| `JsText.NatToStringRoundTrip` | package/src/getIcon.ts:78 | every array position, spelled in decimal, is a canonical index key that reads back as that position |
| `JsText.CanonicalIndexRoundTrip` | package/src/getIcon.ts:78 | every canonical index key is the decimal spelling of the number it denotes |
| `IconPath.FirstVariantSuffix` | package/src/getIcon.ts:22-29 | the variant the hint reports is the first entry of `Variants`, in declared order, that the name ends with; None exactly when the name ends with none |
| `IconPath.GenError` | package/src/getIcon.ts:50-69 | always an error, never a value. It is "variant in name" exactly when the name ends with a variant, and then it names the first such variant and suggests the name with that variant's first occurrence and one trailing '-' removed. Otherwise it is "invalid variant" exactly when the version is not one of the six variants, and "not found" when it is |
| `IconPath.SvgPath` | package/src/getIcon.ts:79 | the path `name/name-variant.svg` is `name/name-`, then the variant, then `.svg`, with length 2·|name| + |variant| + 6 |
| `IconPath.SvgPathInjective` | package/src/getIcon.ts:79-88 | two variants of one icon give the same path only when they are the same variant |
| `IconPath.Lookup` | package/src/getIcon.ts:72 | the entry returned is the first in catalog order with exactly the requested name; None exactly when no entry has that name |
| `IconPath.FindAlias` | package/src/getIcon.ts:82 | the alias returned is the first in list order spelled like the version; None exactly when none is |
| `IconPath.GetUrlPath` | package/src/getIcon.ts:71-89 | every failure is the error `genError` picks. An unknown name always fails. When the version is a property key of `versions.svg` the path is `name/name-version.svg`. Otherwise it succeeds exactly when some alias is spelled like the version, and the path uses the base of the first such alias |
| `IconPath.VariantIsNeverArrayKey` | package/src/getIcon.ts:22-29 | none of the six variant names is a property key of any array |
| `IconPath.VariantResolvesOnlyThroughAlias` | package/src/getIcon.ts:78-88 | requesting a variant name succeeds exactly when the icon has an alias spelled like it, whatever `versions.svg` lists |
| `IconPath.IndexKeyResolves` | package/src/getIcon.ts:78-79 | every position of `versions.svg`, spelled in decimal, resolves to `name/name-<position>.svg` |
| `IconPath.LineLineFirstSuffix` | package/src/getIcon.ts:51 | "line" is the first variant "line-line" ends with |
| `IconPath.LineLineStem` | package/src/getIcon.ts:55 | removing the first "line" from "line-line" leaves "-line" |
| `IconPath.KnownIconGetsVariantHint` | package/src/getIcon.ts:71-89 | for an icon in the catalog whose name ends with a variant, every version that fails to resolve fails with the "variant in name" hint |
| `IconPath.ExistingIconNamedLikeVariant` | package/src/getIcon.ts:51-58 | the existing icon "xline" asked for "plain" is told to use the name "x" with the variant "line" |
| `IconPath.XlineHint` | package/src/getIcon.ts:51-58 | the hint for "xline" names "x" and the variant "line" |
| `IconPath.XlineStem` | package/src/getIcon.ts:55 | removing the first "line" from "xline" leaves "x" |
| `IconPath.XlineFirstSuffix` | package/src/getIcon.ts:51 | "line" is the first variant "xline" ends with |
| `IconPath.BaseVersionWithoutAliasFails` | package/src/getIcon.ts:71-89 | for an icon with base version "original" and no aliases, "original" fails with "not found" and "0" resolves to `go/go-0.svg` |
| `IconPath.SuggestionRebuildsName` | package/src/getIcon.ts:51-58 | when the matched variant occurs only as the suffix, the suggested name followed by the variant, with or without a joining '-', is the original name |
| `IconPath.FirstVariantSuffixAt` | package/src/getIcon.ts:51 | the hint reports position k when the variant at k is a suffix of the name and no earlier variant is |
| `IconPath.WordmarkMissesShortVariants` | package/src/getIcon.ts:51 | "typescript-original-wordmark" ends with none of "original", "plain", "line" |
| `IconPath.WordmarkIsFirstSuffix` | package/src/getIcon.ts:51 | the hint for "typescript-original-wordmark" reports "original-wordmark" |
| `IconPath.WordmarkFirstOccurrence` | package/src/getIcon.ts:55 | in "typescript-original-wordmark", "original-wordmark" first occurs at position 11 |
| `IconPath.WordmarkStem` | package/src/getIcon.ts:55 | removing "original-wordmark" from "typescript-original-wordmark" leaves "typescript-" |
| `IconPath.WordmarkHint` | package/src/getIcon.ts:51-58 | "typescript-original-wordmark" gets the hint name "typescript" with variant "original-wordmark" |
| `IconPath.FirstOccurrenceIsRemoved` | package/src/getIcon.ts:54-56 | "line-line" gets the hint name "-line": the first occurrence is removed, not the matched suffix |
| `IconCache.CacheKey` | package/src/getIcon.ts:120 | the key `name:version` is the name, one ':' and the version, in that order |
| `IconCache.SplitKeyInvertsCacheKey` | package/src/getIcon.ts:120 | for a name without ':', splitting the key `name:version` at its first ':' gives back the name and the version |
| `IconCache.CacheKeyInjective` | package/src/getIcon.ts:120 | two requests whose names contain no ':' share a cache key only when they are the same request |
| `IconCache.CacheKeyCollision` | package/src/getIcon.ts:113-120 | ("a:b", "c") and ("a", "b:c") share one cache key |
| `IconCache.IconFromCdn` | package/src/getIcon.ts:91-117 | a fetch happens exactly when the path resolves. A resolution failure is passed on unchanged. The call succeeds exactly when the path resolves, the fetch returns a body and the SVG matches, and then the matched record is stored under `name:version` with every other entry unchanged. Any failure leaves the cache as it was |
| `IconCache.GetIcon` | package/src/getIcon.ts:119-128 | on a hit it returns the stored record, does not fetch and leaves the cache unchanged. On a miss it behaves as `iconFromCDN`. A success is always what the cache then holds for the key. The cache gains at most that one key and never changes an existing entry |
| `IconCache.SecondCallHits` | package/src/getIcon.ts:119-128 | after a successful call, the same request returns the same record, does not fetch and leaves the cache unchanged |
| `IconCache.MissIsColdCall` | package/src/getIcon.ts:119-124 | on a miss, the answer is the one an empty cache would give |
| `IconCache.ServeKeepsEntries` | package/src/getIcon.ts:113 | a run of calls never replaces an entry the cache started with |
| `IconCache.ServeAddsOnlyRequestedKeys` | package/src/getIcon.ts:113 | after a run of calls, every key in the cache was there at the start or was requested |
| `IconCache.ServeStoresAnswers` | package/src/getIcon.ts:113-126 | after a run of calls, every successful answer is what the cache holds for that request's key |
| `IconCache.ServeLast` | package/src/getIcon.ts:119-128 | the last call of a run answers from the cache the earlier calls left |
| `IconCache.ServeLastRepeats` | package/src/getIcon.ts:119-126 | the last call of a run repeats the answer of an earlier successful call with the same key |
| `IconCache.StoresAnswersStep` | package/src/getIcon.ts:113-126 | a call that keeps the entries it found and stores its own success keeps every earlier answer stored |
| `IconCache.HitAnswersStored` | package/src/getIcon.ts:125-126 | a request whose key is cached is answered with the cached record |
| `IconCache.ServeRepeatsAnswers` | package/src/getIcon.ts:119-128 | once a key has been answered successfully, every later request with that key gets the same answer |
| `IconCache.ServeAll` | package/src/getIcon.ts:119-128 | running calls one after another equals the reference fold of `getIcon`. Starting entries are kept, only requested keys are added, successful answers are stored, and a key answered once is answered the same way later |
| `ResponsiveColors.Resolve` | package/src/color.ts:23-33 | with `true`: light background `#fff`, dark background `#000`, both thresholds 3, fallbacks `#000` and `#fff`. With an object, each field is the given value when present and that same default when absent |
| `ResponsiveColors.Pick` | package/src/color.ts:35-49 | the colour for one background is the fallback or the icon's own: the fallback when the contrast is below the threshold, the icon's own when it is at or above it |
| `ResponsiveColors.GetResponsiveColors` | package/src/color.ts:12-52 | succeeds exactly when the icon colour and both backgrounds can be read, and otherwise reports the first unreadable one (icon, then light, then dark). When the light contrast is below the light threshold, the light colour is the light fallback; otherwise it is the icon's own colour as the library prints it. The same holds for the dark side, and on success both fields are strings |
| `ResponsiveColors.DefaultPaletteIsEmptyObject` | package/src/color.ts:23-46 | passing `true` gives the same result as passing an empty settings object |
| `ResponsiveColors.DefaultPaletteFallbacks` | package/src/color.ts:37-46 | with `true`, the light colour is `#000` or the icon's own, and the dark colour is `#fff` or the icon's own |
| `ResponsiveColors.LightIgnoresDarkOptions` | package/src/color.ts:35-42 | two settings objects that agree on the light background, light threshold and light fallback give the same light colour |
| `ResponsiveColors.DarkIgnoresLightOptions` | package/src/color.ts:44-49 | two settings objects that agree on the dark background, dark threshold and dark fallback give the same dark colour |
| `ResponsiveColors.LightFallbackPersistsUnderHigherThreshold` | package/src/color.ts:32-39 | if the light fallback is chosen, it is still chosen when the light threshold is set to any value at least the one in effect (given or default) |
| `ResponsiveColors.DarkFallbackPersistsUnderHigherThreshold` | package/src/color.ts:31-49 | if the dark fallback is chosen, it is still chosen when the dark threshold is set to any value at least the one in effect (given or default) |

## Left out

- Reading the catalog and the cache file at start-up (`getIcon.ts` lines 39-48): file I/O. The catalog is a parameter, and the starting cache is a parameter that may be empty.
- Writing the cache snapshot (`getIcon.ts` line 114): file I/O. If that write throws, the entry is already in the in-memory map, but the call fails. The model ignores the write and treats the call as successful.
- `fetch`, `res.text()` and `new URL(urlPath, CDN_URL)`: network I/O and URL normalisation, folded into the abstract `Net.fetch` of the relative path.
- `ICON_REGEX` matching: JavaScript regular-expression semantics. It is modelled as the abstract `Net.matchSvg`.
- The colour library (`colorjs.io` parsing, `contrastWCAG21`, `toString`): a foreign library computing in floating point. It is abstract in `ColorLib`, and thresholds are reals, so NaN is not modelled.
- Error message texts: errors are structured values that carry the same data (suggested name, variant, version, name).
- Concurrent calls and races on the shared cache map: the model is sequential.
- Options of the wrong JavaScript type (a string threshold, `null` as `bgColors`): the model uses the declared TypeScript types.
- JavaScript strings are UTF-16 code units. The model uses Dafny characters and does no normalisation.
