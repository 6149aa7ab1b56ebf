# better-qr in Dafny

A model of the logic of a small QR-code web application, with proofs of what
that logic promises.

- **Server content pipeline.** A `POST /generate` request goes through the
  request schema. Its content is then validated for its declared type
  (`url`, `text`, `email`, `phone`, `sms`, `wifi`, `vcard`) and normalized.
  URL content without a scheme gets `https://` in front. Finally the content
  is rendered to an SVG or raster data URI. Each outcome maps to a fixed
  response:
  - 200 with the image;
  - 400 `Invalid <type> format`;
  - 500 `Failed to generate QR code`.
- **Pagination bar** (`getPages`). The list of page buttons and ellipses:
  boundary pages, a window around the active page, and collapsed gaps.
- **Version-consistency script.** Collects the dependencies of every
  workspace manifest. It reports versions given as caret ranges and packages
  used at more than one version, and exits with status 1 when there is
  anything to report.
- **Client UI rules.**
  - The combobox's select/deselect toggle, check marks and trigger text.
  - The three-state theme cycle and its icons.
  - The client and server `getErrorMessage` helpers.

Foreign code is passed in as function-typed parameters:
- WHATWG URL parsing (`new URL`), `EMAIL_REGEX` and `PHONE_REGEX` are
  `QrGenerator.Recognisers`;
- `COLOR_REGEX` is the `colorOk` parameter of the schema;
- the `qrcode` library (`toString` with `type: 'svg'`, `toDataURL`) and
  base64 encoding are `QrGenerator.QrLibrary`.

The route handler also takes the image generator as a parameter. This lets
the model state two facts directly: the generator is never reached on
invalid content, and the response depends on it only through the options it
is handed. The script's file system is replaced by the list of manifests it
finds, in visiting order.

Behaviour the model records as it is written:
- A `jpeg` request makes exactly the same `qrcode` call as a `png` request.
  The raster options carry no image type (`QrGenerator.JpegRendersLikePng`).
- The route answers a rendering failure with `Failed to generate QR code`.
  The generator's own error text, `Failed to generate QR code image`, never
  reaches the client.
- `getPages` reads the last entry of its list before pushing an ellipsis.
  When page 1 is hidden the list is still empty at that point, and the
  source throws. This can only happen with fewer than one boundary button.
  The model returns `None` there, and `TablePagination.BarPages` shows that
  the call the pagination bar actually makes never hits this case.

## Model

| member | source | states |
|---|---|---|
| `QrGenerator.TypeName` | apps/server/src/lib/qr-generator.ts:6-13 | every content type has a non-empty tag |
| `QrGenerator.TypeNameInjective` | apps/server/src/lib/qr-generator.ts:6-13 | distinct content types have distinct tags |
| `QrGenerator.ValidateQrContent` | apps/server/src/lib/qr-generator.ts:70-95 | url content is valid iff it parses or `https://` + it parses; email and phone validity is exactly the pattern test; text, sms, wifi and vcard are always valid |
| `QrGenerator.NormalizeQrContent` | apps/server/src/lib/qr-generator.ts:97-111 | identity for every non-url type; url content is kept if it parses, otherwise prefixed with `https://` |
| `QrGenerator.NormalizedUrlParsesIffValid` | apps/server/src/lib/qr-generator.ts:70-111 | the normalized form of url content parses as a URL exactly when the content validates (both directions) |
| `QrGenerator.NormalizeIdempotentOnValid` | apps/server/src/lib/qr-generator.ts:70-111 | on content that validated, normalizing twice equals normalizing once, for every type |
| `QrGenerator.NormalizePreservesValidity` | apps/server/src/lib/qr-generator.ts:70-111 | normalized valid content is still valid for its type |
| `QrGenerator.EncoderOptionsFor` | apps/server/src/lib/qr-generator.ts:29-59 | absent options default to 300 px, `#ffffff` background, `#000000` foreground, level M; width is the size, margin 1, dark is the foreground, light the background; the SVG entry point is used iff the format is svg |
| `QrGenerator.GenerateQrCodeImage` | apps/server/src/lib/qr-generator.ts:26-68 | fails iff the encoder fails, always with `Failed to generate QR code image`; an svg image is `data:image/svg+xml;base64,` followed by the base64 of the markup; a raster image is the encoder's data URI unchanged |
| `QrGenerator.DefaultEncoderOptions` | apps/server/src/lib/qr-generator.ts:29-46 | with every option absent the raster call gets width 300, margin 1, black on white, level M |
| `QrGenerator.BranchesShareEncoderOptions` | apps/server/src/lib/qr-generator.ts:38-63 | the svg and raster branches pass the same width, margin, colours and level |
| `QrGenerator.JpegRendersLikePng` | apps/server/src/lib/qr-generator.ts:49-64 | a jpeg request yields exactly the result of the same png request |
| `QrGenerator.RenderErrorIsOpaque` | apps/server/src/lib/qr-generator.ts:65-67 | whatever the encoder's failure reason, the result is the same error |
| `Schemas.ParseContentType` | apps/server/src/lib/schemas.ts:10-12 | a tag is accepted iff it is the tag of some content type, and then yields that type |
| `Schemas.ParseFormat` | apps/server/src/lib/schemas.ts:14 | a tag is accepted iff it names png, svg or jpeg |
| `Schemas.ParseLevel` | apps/server/src/lib/schemas.ts:17 | a tag is accepted iff it names L, M, Q or H |
| `Schemas.TagsMatchTypes` | apps/server/src/lib/schemas.ts:10-17 | the schema's enumerations accept exactly the tags of the generator's types, and each type's tag parses back to it |
| `Schemas.WellFormed` | apps/server/src/lib/schemas.ts:5-20 | what the schema demands of each field; `ParseRequest` accepts exactly the bodies it admits |
| `Schemas.Defaulted` | apps/server/src/lib/schemas.ts:10-17 | an absent enumerated field takes its default; a present one must parse |
| `Schemas.ParseContent` | apps/server/src/lib/schemas.ts:6-9 | content is required and accepted iff it has 1 to 2000 characters, and is kept unchanged |
| `Schemas.ParseSize` | apps/server/src/lib/schemas.ts:13 | a size is accepted iff it is absent or in [100, 2000]; absent gives 300 |
| `Schemas.ParseColor` | apps/server/src/lib/schemas.ts:15-16 | a colour is accepted iff it is absent or matches the colour pattern; absent gives the default |
| `Schemas.OptionalBounded` | apps/server/src/lib/schemas.ts:18-19 | an optional text field is accepted iff it is absent or within its maximum length, and is kept unchanged |
| `Schemas.ParseRequest` | apps/server/src/lib/schemas.ts:5-20 | a body is accepted iff content has 1 to 2000 characters, size lies in [100, 2000], the tags are known, the colours match the colour pattern, the title has at most 200 and the description at most 500 characters; accepted fields equal what was sent or the defaults url / 300 / png / `#ffffff` / `#000000` / M |
| `Schemas.ParsedRequestInBounds` | apps/server/src/lib/schemas.ts:6-19 | every request the schema lets through has content, size, title and description within their bounds |
| `QrRoute.InvalidFormatMessage` | apps/server/src/routes/qr.ts:21 | the validation message starts with `Invalid ` |
| `QrRoute.InvalidFormatMessageInjective` | apps/server/src/routes/qr.ts:21 | distinct content types get distinct validation messages, so the message names its type unambiguously |
| `QrRoute.RenderOptions` | apps/server/src/routes/qr.ts:27-37 | the generator gets the normalized content and the request's size, format, colours and level unchanged |
| `QrRoute.Handle` | apps/server/src/routes/qr.ts:14-58 | invalid content answers 400 `Invalid <type> format`; otherwise a generated image answers 200 with it, the normalized content and the request's type, size and format, and a failure answers 500 `Failed to generate QR code` |
| `QrRoute.InvalidContentNeverRenders` | apps/server/src/routes/qr.ts:17-25 | on invalid content the response is the same for every generator |
| `QrRoute.GeneratorSeesOnlyRenderOptions` | apps/server/src/routes/qr.ts:27-48 | two generators that agree on the options handed to them produce the same response |
| `QrRoute.GeneratorFailureIsOpaque` | apps/server/src/routes/qr.ts:49-56 | every generator failure, whatever its message, gives the same 500 response |
| `QrRoute.ErrorKindsDistinct` | apps/server/src/routes/qr.ts:17-56 | validation and rendering failures differ in status (400 vs 500) and in message |
| `QrRoute.PostGenerate` | apps/server/src/routes/qr.ts:11-15 | the schema rejects exactly the ill-formed bodies; every other body is answered by the handler with the real generator |
| `QrRoute.SuccessfulUrlResponseParses` | apps/server/src/routes/qr.ts:27-48 | a 200 response carries the normalized content; for url content it parses as a URL; and the encoder succeeded on exactly that content with the request's own size, colours and level |
| `ServerUtils.GetErrorMessage` | apps/server/src/lib/utils.ts:1-11 | an Error yields its message; any other value yields the given default, itself defaulting to `Something went wrong. Please try again later.` |
| `ServerUtils.ErrorIgnoresDefault` | apps/server/src/lib/utils.ts:5-10 | for an Error the result does not depend on the default argument |
| `ClientUtils.IssueMessages` | apps/client/src/lib/utils.ts:21 | the i-th message is the i-th issue's message |
| `ClientUtils.GetErrorMessage` | apps/client/src/lib/utils.ts:14-27 | a ZodError with issues yields their messages joined by `, `; one without issues its own message; another Error its message; anything else the default, itself defaulting to `Something went wrong. Please try again` |
| `ClientUtils.ZodMessageStartsWithFirstIssue` | apps/client/src/lib/utils.ts:19-21 | the message starts with the first issue's message and is exactly it when there is one issue |
| `ClientUtils.ZodMessageAppendsIssue` | apps/client/src/lib/utils.ts:19-21 | one more issue appends `, ` and its message, so the messages keep the issues' order |
| `ThemeSwitcher.NextTheme` | apps/client/src/components/ui/theme-switcher.tsx:11-19 | the next theme is the successor in the cycle light, dark, system, wrapping to light |
| `ThemeSwitcher.Position` | apps/client/src/components/ui/theme-switcher.tsx:11-19 | every theme has a place in that cycle |
| `ThemeSwitcher.CycleHasPeriodThree` | apps/client/src/components/ui/theme-switcher.tsx:11-19 | three presses return to the starting theme and one press always changes it |
| `ThemeSwitcher.IconFor` | apps/client/src/components/ui/theme-switcher.tsx:21-30 | Sun iff light, Moon iff dark, Monitor otherwise |
| `ThemeSwitcher.ThemeState.CycleTheme` | apps/client/src/components/ui/theme-switcher.tsx:11-19 | the stored theme becomes the next theme of the old one |
| `Combobox.Without` | apps/client/src/components/ui/combobox.tsx:85 | the result holds every element except the removed value, with unchanged counts, and is the input itself when the value is absent |
| `Combobox.WithoutAppend` | apps/client/src/components/ui/combobox.tsx:85 | removing a value from a concatenation removes it from each part and keeps the parts in order; with the multiset clause on one-element arrays this fixes the order of every result, as `filter` keeps it |
| `Combobox.HandleSelect` | apps/client/src/components/ui/combobox.tsx:75-99 | multiple mode: an array containing the value becomes that array without any copy of it, the others in their order; one lacking it gains it at the end; a non-array becomes `[v]`. Single mode: the current value is cleared, another replaces it. Only single mode closes the popover |
| `Combobox.IsSelected` | apps/client/src/components/ui/combobox.tsx:101-114 | multiple mode: a value is checked iff the value prop is an array holding it at some index, and nothing is checked when it is not an array; single mode: iff it equals the value prop |
| `Combobox.SelectFlipsSelection` | apps/client/src/components/ui/combobox.tsx:84-114 | every selection flips `isSelected` (membership in multiple mode, equality in single mode) for the value selected |
| `Combobox.SelectKeepsOthers` | apps/client/src/components/ui/combobox.tsx:84-114 | in multiple mode with an array value, selecting one value leaves every other value's check mark as it was |
| `Combobox.FindIndex` | apps/client/src/components/ui/combobox.tsx:59 | `find` stops at the first option carrying the value, or at the end when none does |
| `Combobox.FindOption` | apps/client/src/components/ui/combobox.tsx:59 | yields nothing iff no option carries the value; otherwise an option carrying it with no earlier option carrying it, so the first one |
| `Combobox.LabelOf` | apps/client/src/components/ui/combobox.tsx:59-60 | nothing iff no option carries the value; otherwise the label of the first option carrying it |
| `Combobox.MatchedLabels` | apps/client/src/components/ui/combobox.tsx:58-61 | a single value gives its label when it has an option with a non-empty label and nothing otherwise; the labels kept are never empty and never more than the values; when every value has a labelled option they are those labels in order |
| `Combobox.MatchedLabelsAppend` | apps/client/src/components/ui/combobox.tsx:58-61 | the labels of a concatenation are the labels of each part in order; with the one-value case this says unmatched values are dropped and the rest keep their order |
| `Combobox.Placeholder` | apps/client/src/components/ui/combobox.tsx:53-73 | a string array in multiple mode shows its matched labels joined by `, `, and the given placeholder when none matched; a string shows its option's label, and the placeholder when it has no option or an empty label; values of other shapes fall back to the placeholder |
| `TablePagination.Sides` | apps/client/src/components/ui/table-pagination.tsx:141-157 | the left and right sides of the window add up to the range, and are non-negative for an active page that exists |
| `TablePagination.AllPages` | apps/client/src/components/ui/table-pagination.tsx:133-139 | the list of items 1 to totalPages in order |
| `TablePagination.WindowedPages` | apps/client/src/components/ui/table-pagination.tsx:141-204 | when not every page fits: throws iff page 1 is hidden; otherwise every page has been laid out (buttons for exactly the displayed pages, ascending, ellipses only in gaps) |
| `TablePagination.VisitPage` | apps/client/src/components/ui/table-pagination.tsx:159-204 | one loop pass keeps the laid-out shape for one more page, and throws iff the list is still empty at a hidden page |
| `TablePagination.LaidOutComplete` | apps/client/src/components/ui/table-pagination.tsx:159-206 | after the last page the list starts with page 1 and ends with the last page's button or an ellipsis |
| `TablePagination.GetPages` | apps/client/src/components/ui/table-pagination.tsx:125-207 | throws iff the window is in use and page 1 is hidden; otherwise a page has a button iff it is displayed (range covers all pages, boundary, or window); buttons ascend; no two ellipses touch; neighbouring buttons are neighbouring pages and an ellipsis stands for a real gap; the list starts with page 1 and ends with the last page or an ellipsis when that page is hidden; with totalPages ≤ range it is exactly 1..totalPages |
| `TablePagination.BoundaryPagesDisplayed` | apps/client/src/components/ui/table-pagination.tsx:164-181 | with at least one boundary button the first and last pages are both displayed |
| `TablePagination.ActivePageDisplayed` | apps/client/src/components/ui/table-pagination.tsx:141-193 | an active page in [1, totalPages] is displayed |
| `TablePagination.BarPages` | apps/client/src/components/ui/table-pagination.tsx:62 | the bar's call with the defaults never throws, shows the active page, and runs from page 1 to the last page |
| `MatchVersions.Lookup` | scripts/match-versions.ts:25-28 | a key's value comes from an entry of the object, and is absent iff no entry has that key |
| `MatchVersions.MergeDependencies` | scripts/match-versions.ts:25-28 | the dependencies' keys keep their places at the front; every later entry is a devDependencies key that the dependencies lack (with `NewEntriesAppend` and `MergeKeysDistinct`: each such key once, in devDependencies' order) |
| `MatchVersions.NewEntriesAppend` | scripts/match-versions.ts:25-28 | the devDependencies-only entries of a concatenation are those of each part in order, so the tail of a merge lists them in devDependencies' order |
| `MatchVersions.NewEntriesKeysDistinct` | scripts/match-versions.ts:25-28 | the devDependencies-only entries are entries of devDependencies and repeat no key |
| `MatchVersions.MergeKeysDistinct` | scripts/match-versions.ts:25-28 | merging two objects with distinct keys yields distinct keys: each package of a manifest is visited once by the entries loop |
| `MatchVersions.MergeLookup` | scripts/match-versions.ts:25-28 | in the merged object, a devDependencies entry overrides a dependencies entry for the same package, and no package of either is lost |
| `MatchVersions.PackageNames` | scripts/match-versions.ts:36-40 | the map's keys repeat no package |
| `MatchVersions.VersionsOf` | scripts/match-versions.ts:36-40 | a package's set repeats no version |
| `MatchVersions.VersionsOfSeen` | scripts/match-versions.ts:36-40 | a version is in a package's set iff some manifest used that package at that version |
| `MatchVersions.PackageNamesUsed` | scripts/match-versions.ts:36-40 | a package is a key iff some manifest uses it |
| `MatchVersions.PackageNamesSeen` | scripts/match-versions.ts:36-40 | a package is a key iff some manifest uses it, and then its set is never empty |
| `MatchVersions.UnusedHasNoVersions` | scripts/match-versions.ts:36-40 | a package never used has no versions |
| `MatchVersions.CaretErrors` | scripts/match-versions.ts:29-34 | at most one caret error per use, that is per entry of a merged manifest (one per package, by `MergeKeysDistinct`) |
| `MatchVersions.CaretUseReported` | scripts/match-versions.ts:29-34 | every dependency whose version starts with `^` yields the error naming its directory, package and version |
| `MatchVersions.CaretErrorsFromUses` | scripts/match-versions.ts:29-34 | every caret error comes from such a dependency |
| `MatchVersions.NoCaretErrorsIffPinned` | scripts/match-versions.ts:29-34 | there is no caret error iff no dependency's version starts with `^` |
| `MatchVersions.MismatchedNames` | scripts/match-versions.ts:58-64 | a package is reported iff its set does not have exactly one version |
| `MatchVersions.MismatchErrorsDescribed` | scripts/match-versions.ts:58-64 | there is one message per reported package; the k-th is `<name> version mismatch - <versions joined by , >` for the k-th reported package, in map order |
| `MatchVersions.MismatchIffConflictingUses` | scripts/match-versions.ts:36-64 | a package is reported iff two of its uses name different versions; repeating one version never triggers it |
| `MatchVersions.ConflictFromMismatch` | scripts/match-versions.ts:36-64 | a reported package has two uses at different versions |
| `MatchVersions.MismatchFromConflict` | scripts/match-versions.ts:36-64 | two uses of a package at different versions get it reported |
| `MatchVersions.NoMismatchIffConsistent` | scripts/match-versions.ts:36-64 | no package is reported iff every package is used at a single version throughout |
| `MatchVersions.Report` | scripts/match-versions.ts:29-64 | the final error list has one entry per caret use plus one per reported package |
| `MatchVersions.ReportEmptyIffConsistent` | scripts/match-versions.ts:29-77 | the error list is empty, and the script exits cleanly, iff no dependency uses a caret range and every package has one version throughout |
| `MatchVersions.CollectStep` | scripts/match-versions.ts:29-41 | one more dependency adds its package once to the keys, its version once to the package's set, and its caret error, if any |
| `MatchVersions.ManifestUses` | scripts/match-versions.ts:29 | a manifest contributes its merged entries in order, tagged with its directory |
| `MatchVersions.AddUse` | scripts/match-versions.ts:30-40 | the map and error list afterwards are those of the dependencies seen plus this one |
| `MatchVersions.ParsePackageJson` | scripts/match-versions.ts:19-43 | the map and error list afterwards are those of the dependencies seen plus the manifest's merged entries |
| `MatchVersions.AppendMismatches` | scripts/match-versions.ts:58-64 | given the collected map, appends exactly the mismatch messages of its keys, in map order |
| `MatchVersions.CheckVersions` | scripts/match-versions.ts:14-78 | the error list is every caret error followed by every mismatch error; the exit status is 1 iff the list is non-empty, 0 otherwise |

## Left out

- QR encoding itself (ISO/IEC 18004 matrices, Reed–Solomon error-correction levels, capacity limits) belongs to the `qrcode` library and is an uninterpreted, possibly failing function. A decoding round trip is therefore not stated.
- `Buffer.from(...).toString('base64')` is an opaque function; only the `data:image/svg+xml;base64,` prefix is stated.
- WHATWG URL parsing and the EMAIL, PHONE and COLOR patterns are predicates supplied by the caller. The `constants` module that defines the patterns is not part of this model.
- Zod handling of JSON values of the wrong type (a number where a string is expected, and so on) is not modelled: raw fields are typed.
- Size is an integer. `z.number()` also admits fractions, and those are not modelled.
- `.default()` is modelled as handing back the default without checking it again against the field's own checks. This can differ from checking it only if the colour pattern rejected `#ffffff` or `#000000`.
- String lengths count characters; JavaScript's `.length` counts UTF-16 code units.
- Hono routing and the zod-validator middleware's own 400 body are left out (`QrRoute.PostGenerate` only says the schema rejected the body), as are Promises/async, HTTP, logging and environment configuration.
- `getPages` requires an even `pageRangeDisplayed`: an odd one makes the window sides fractional under JavaScript division, which is not modelled.
- `TablePagination.GetPages`: the page, range and boundary arguments are integers; JavaScript numbers are not modelled.
- In match-versions, `fs.readdir`, `fs.stat`, `fs.exists`, `fs.readFile`, `JSON.parse`, the manifest schema's parse failures, `console` output and `process.exit` are replaced by the list of manifests found and a returned exit status.
- `MatchVersions.Lookup`: a dependency object is an association list that may repeat a key, which a parsed JSON object never does. `Lookup` reads the first entry with a key, whereas `JSON.parse` keeps the last, so the two differ only on lists no manifest produces.
- `MatchVersions.MergeDependencies`: JavaScript enumerates integer-like keys of an object first. Package names of that shape are not given that order here.
- Combobox option values that are numbers are integers here; floating point, `NaN` and `-0` (where `includes` and `!==` disagree) are not modelled.
- Combobox: the `setSearchText` state, rendering and the `onValueChange` callback itself are left out; `HandleSelect` gives the value passed to that callback and whether the popover closes.
- The theme is one of light, dark and system; the theme provider is not part of this model.
- React rendering, hooks, browser APIs and the remaining client components are left out.
