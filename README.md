# ai-rename-tool: naming rules and rename loops

This project models the core of ai-rename-tool, a tool that renames image files after what a vision model sees in them. It proves properties of that model.

The model covers three parts:

- **`ImageAnalyzer`** turns the model's reply into a base filename. `cleanFilename` lower-cases the reply, strips it and truncates it. A date prefix is then added, unless one is already there. A file whose analysis fails is named after its modification time instead. The MIME table and the `isImageFile` test live here too.
- **`FileRenamer`** scans a directory into one plan entry per image file. It previews that plan and performs it (with a dry-run mode), and it renames single files.
- **The Electron main process** handles `preview-rename`, `perform-rename` and `scan-directory`. It merges the user's settings, skips a file whose name would not change and skips a file whose target already exists. It also keeps four running tallies.

Supporting modules:

- **`Text`**: JavaScript's whitespace set, `trim` and `toLowerCase`, and zero-padded decimals.
- **`NodePath`**: Node's POSIX `path.basename`, `dirname`, `join` and `extname`, on paths without trailing separators.
- **`IsoDate`**: `toISOString`.
- **`NodeFs`**: the filesystem as a map from path to node, with POSIX `rename` semantics. Class `FileSystem` holds the map that the rename methods update in place.

Each loop of the source is a `method` with a `while` loop. Each method is proved equal to a fold function over the processed prefix, and the properties are lemmas about that fold. The pure string rules are functions and lemmas.

Modules, one per file:

- `Results` (`results.dfy`)
- `Seqs` (`seqs.dfy`)
- `Text` (`text.dfy`)
- `NodePath` (`node_path.dfy`)
- `IsoDate` (`iso_date.dfy`)
- `NodeFs` (`file_system.dfy`)
- `ImageAnalyzer` (`image_analyzer.dfy`)
- `FileRenamer` (`file_renamer.dfy`)
- `ElectronMain` (`electron_main.dfy`)

## Model

| member | source | states |
|---|---|---|
| NodePath.LastIndexOf | image-analyzer.js:202 | the index of the last occurrence of the character, and -1 exactly when it does not occur |
| NodePath.BaseName | electron/main.js:123 | `path.basename` is the tail after the last `/`: it has no `/`, ends the path, and is the whole path or follows a `/` |
| NodePath.DirName | file-renamer.js:110 | `path.dirname` is never empty: `.` for a path without `/`, `/` when the only `/` is the first character, and otherwise the part before the last `/`, so the path is the dirname, `/` and the basename |
| NodePath.Join | file-renamer.js:111 | `path.join(d, n)` ends in `n`, and is `n` itself or has a `/` just before it |
| NodePath.ExtName | file-renamer.js:30 | `path.extname` is empty or starts with its only `.`, contains no `/` and is a suffix of the path; it is non-empty exactly when the last `.` of the basename comes after its first character and the basename is not `..` |
| NodePath.JoinParts | file-renamer.js:110-111 | joining a normal directory and a plain name gives a path whose dirname is that directory and whose basename is that name |
| NodePath.ExtNameOfJoin | file-renamer.js:19 | the extension of `join(dir, file)` is the extension of `file` |
| NodePath.ExtNameCarriesOver | file-renamer.js:30 | appending a file's extension to a dot-free stem gives a name with that same extension |
| NodePath.ExtNameOfPlainName | file-renamer.js:30 | a name without `.` or `/` has an empty extension |
| NodePath.ExtNameOfSameBase | file-renamer.js:30 | two paths with the same basename have the same extension |
| NodePath.ExtNameAfterDottedStem | file-renamer.js:30 | only the last `.` counts: a non-empty stem that does not start with `.`, followed by an extension, has that extension whatever dots the stem holds |
| NodePath.ExtNameOfManyDots | electron/main.js:304 | `path.extname("a.b.jpg")` is `.jpg` |
| NodePath.DotfileHasNoExtension | electron/main.js:304 | `path.extname(".png")` is empty |
| Text.LowerChar | image-analyzer.js:176 | an ASCII capital becomes the lower-case letter 32 code points above it, U+0130 becomes `i` and U+0307, U+212A becomes `k`, every other character is kept, and the result has no ASCII capital |
| Text.Lower | image-analyzer.js:176 | `toLowerCase` never shortens a string and leaves no ASCII capital in it |
| Text.LowerPointwise | image-analyzer.js:176 | without U+0130, lower-casing keeps the length and maps each character on its own |
| Text.LowerAppend | image-analyzer.js:176 | lower-casing distributes over concatenation |
| Text.LowerFixes | image-analyzer.js:176 | a string without upper-case letters is its own lower case |
| Text.Trim | image-analyzer.js:90 | `trim()` returns the slice of the string that starts at its first non-whitespace character; the slice begins and ends with non-whitespace, and everything before and after it is whitespace |
| IsoDate.DateOf | image-analyzer.js:98 | `toISOString().slice(0, 10)` has the `DDDD-DD-DD` shape and is year, month and day zero-padded |
| NodeFs.RenameIn | file-renamer.js:88 | `rename` succeeds whenever the source exists and the target is free; it moves the source's node to the target and leaves every other path unchanged |
| NodeFs.RenameToFreePathKeepsAll | electron/main.js:221-239 | renaming onto a free path keeps the number of paths and every stored node |
| NodeFs.RenameOverwrites | file-renamer.js:88 | renaming a file onto another existing file replaces it, so one path and its content are lost |
| NodeFs.FileSystem.Rename | file-renamer.js:88 | the filesystem's new state is the rename's result, or is unchanged with the rename's error |
| ImageAnalyzer.MimeType | image-analyzer.js:29-48 | each of the five MIME types is returned exactly for its extensions, and `image/jpeg` for everything else |
| ImageAnalyzer.MimeTypeOfUpperJpg | image-analyzer.js:132-151 | the lookup lower-cases the extension: `.JPG` gives `image/jpeg` |
| ImageAnalyzer.MimeTypeOfUpperPng | image-analyzer.js:29-48 | `.PNG` gives `image/png` |
| ImageAnalyzer.MimeTypeDefaultsToJpeg | image-analyzer.js:30 | an unknown extension such as `.gif` gives `image/jpeg` |
| ImageAnalyzer.MimeTypeWithoutExtension | image-analyzer.js:29-30 | a name without an extension gives `image/jpeg` |
| ImageAnalyzer.ImageMetadata | image-analyzer.js:129-165 | the metadata is present exactly when `stat` succeeds, with width and height 0 and the MIME type of the path |
| ImageAnalyzer.NoDotIsNotImage | image-analyzer.js:201-204 | a name without `.` is never an image file |
| ImageAnalyzer.IsImageFile | image-analyzer.js:201-204 | only a name with a `.` is accepted |
| ImageAnalyzer.IsImageFileBySuffix | image-analyzer.js:201-204 | for a name without U+0130, `isImageFile` holds iff the name has a `.` and the lower-cased suffix from its last `.` is a supported format; the condition is needed, see `DottedCapitalIShiftsExtension` |
| ImageAnalyzer.UpperCaseExtensionIsImage | image-analyzer.js:202 | an upper-case `.JPG` is accepted |
| ImageAnalyzer.DotfileIsImage | image-analyzer.js:201-204 | the dotfile `.png` is accepted |
| ImageAnalyzer.DottedCapitalIShiftsExtension | image-analyzer.js:202-203 | `İ.png` is rejected: the index of the last `.` is taken in the original name but used in the lower-cased one, which is one character longer |
| ImageAnalyzer.DropRun | image-analyzer.js:178 | the result is a suffix of the input that does not start with a separator, and is shorter whenever the input starts with one |
| ImageAnalyzer.DropRunDropsSeparators | image-analyzer.js:178 | everything `DropRun` removes is a separator, so it removes exactly the leading run |
| ImageAnalyzer.DropRunOfRun | image-analyzer.js:178 | dropping the leading run of `x + y`, where `x` is all separators and `y` does not start with one, leaves exactly `y` |
| ImageAnalyzer.SquashRuns | image-analyzer.js:178-179 | replacing separator runs gives an empty string iff the input is empty, starts with `_` when the input starts with a separator and otherwise with the input's first character, and never grows |
| ImageAnalyzer.SquashRunsOfRun | image-analyzer.js:178-179 | a whole leading run of separators becomes exactly one `_`, followed by the replacement of the rest |
| ImageAnalyzer.SquashBetween | image-analyzer.js:178-179 | a run after a separator-free prefix becomes one `_` in its place, and the prefix is kept |
| ImageAnalyzer.SquashSpacesGivesNameChars | image-analyzer.js:177-178 | after stripping and replacing whitespace runs, only `[a-z0-9_-]` remain |
| ImageAnalyzer.SquashNameChars | image-analyzer.js:179 | collapsing `_` runs keeps only `[a-z0-9_-]` |
| ImageAnalyzer.SquashLeavesNoDoubleUnderscore | image-analyzer.js:179 | after collapsing `_` runs there is no `__` |
| ImageAnalyzer.StripEdgeUnderscores | image-analyzer.js:180 | the result is the input with one leading `_` and one trailing `_` cut off when present; it keeps the character set, and without `__` in the input neither starts nor ends with `_` |
| ImageAnalyzer.Truncate | image-analyzer.js:181 | `substring(0, n)` is the prefix of length n of a longer string, and the whole string when it is short |
| ImageAnalyzer.CleanStages | image-analyzer.js:175-180 | before truncation the name has only `[a-z0-9_-]`, no `__` and no `_` at either end (that each whitespace run between words becomes one `_` is `CleanStagesJoinsWords`) |
| ImageAnalyzer.CleanFilename | image-analyzer.js:174-182 | the result has only `[a-z0-9_-]`, at most 50 characters, no `__` and no leading `_` (the `_` for each whitespace run is `CleanFilenameJoinsWords` and `CleanCatOnWindowsill`) |
| ImageAnalyzer.CleanStagesJoinsWords | image-analyzer.js:175-180 | two words of `[a-z0-9-]` with any run of whitespace between them come out as the words joined by one `_` |
| ImageAnalyzer.CleanFilenameJoinsWords | image-analyzer.js:174-182 | the same for `cleanFilename` when the joined words fit in 50 characters |
| ImageAnalyzer.CleanCatOnWindowsill | image-analyzer.js:174-182 | `cleanFilename("Cat on Windowsill!!")` is `cat_on_windowsill`: capitals lowered, `!` dropped, each space turned into `_` |
| ImageAnalyzer.SquashKeepsWords | image-analyzer.js:178-179 | replacing separator runs keeps the non-separator characters in order |
| ImageAnalyzer.StripKeepsWords | image-analyzer.js:180 | dropping edge underscores keeps the letters, digits and dashes |
| ImageAnalyzer.CleanStagesKeepWords | image-analyzer.js:175-180 | the letters, digits and dashes of the lower-cased reply all survive, in order |
| ImageAnalyzer.CleanFilenameKeepsWords | image-analyzer.js:174-182 | the cleaned name's letters, digits and dashes are a prefix of the lower-cased reply's, and all of them when no truncation occurs |
| ImageAnalyzer.SquashNothing | image-analyzer.js:178 | a string without separators is unchanged by the run replacement |
| ImageAnalyzer.SquashSingleUnderscores | image-analyzer.js:179 | a string without `__` is unchanged by collapsing |
| ImageAnalyzer.CleanFixesCleanShape | image-analyzer.js:174-182 | a name already in clean shape is returned unchanged |
| ImageAnalyzer.CleanIdempotentUnlessTrailingUnderscore | image-analyzer.js:179-181 | cleaning twice equals cleaning once whenever the first result does not end with `_` |
| ImageAnalyzer.CleanShortNoTrailingUnderscore | image-analyzer.js:180-181 | without truncation the cleaned name is in clean shape |
| ImageAnalyzer.TruncationLeavesTrailingUnderscore | image-analyzer.js:181 | 49 letters followed by ` b` clean to the letters plus `_`, which cleans again to the letters alone |
| ImageAnalyzer.CleanFilenameNotIdempotent | image-analyzer.js:174-182 | some name is changed by a second cleaning |
| ImageAnalyzer.FilterSeparatorThenDigits | image-analyzer.js:170 | removing `-`, `:` and `T` before a run of digits keeps the digits |
| ImageAnalyzer.CompactStampFields | image-analyzer.js:170 | the timestamp is the ISO date and time fields concatenated without separators |
| ImageAnalyzer.CompactStampShape | image-analyzer.js:169-170 | the timestamp has 14 digits, and its first 8 are the date without `-` |
| ImageAnalyzer.CompactStampRepeatsDate | image-analyzer.js:169-170 | the 14-character timestamp starts with the year, month and day of the ISO date |
| ImageAnalyzer.GenerateFallbackName | image-analyzer.js:167-172 | it fails exactly when `statSync` throws, and otherwise names the file after its modification time |
| ImageAnalyzer.FallbackNameShape | image-analyzer.js:167-172 | the fallback name is `DDDD-DD-DD_image_` plus 14 digits that repeat the date, 31 characters of `[a-z0-9_-]` |
| ImageAnalyzer.FallbackNameHasDatePrefix | image-analyzer.js:169-171 | the fallback name starts with a date prefix |
| ImageAnalyzer.DatePrefixed | image-analyzer.js:198 | a date followed by `_` and anything matches `^\d{4}-\d{2}-\d{2}_` |
| ImageAnalyzer.GenerateSuggestedName | image-analyzer.js:184-199 | empty text gives the fallback for `dummy`; other text is returned unchanged iff it already has a date prefix, and otherwise gets today's date and `_` in front; every success has a date prefix |
| ImageAnalyzer.SuggestedNameIdempotent | image-analyzer.js:184-199 | for non-empty text and a fixed date, suggesting twice equals suggesting once |
| ImageAnalyzer.FallbackPassesThroughSuggestedName | image-analyzer.js:193-195 | a fallback name passes through `generateSuggestedName` unchanged |
| ImageAnalyzer.AnalyzeImage | image-analyzer.js:22-127 | a regular file with a non-empty cleaned reply yields `date_clean`; a failed call, an empty cleaned reply or an unreadable file yields the fallback name; only a failing stat rejects; every result is date-prefixed, in `[a-z0-9_-]`, and at most 61 characters long |
| ImageAnalyzer.FallbackResult | image-analyzer.js:103 | the fallback branch has a date prefix, 31 characters and only `[a-z0-9_-]` |
| ImageAnalyzer.AnalysisPassesThroughSuggestedName | image-analyzer.js:193-195 | an analysis result is kept verbatim by `generateSuggestedName` on any date |
| FileRenamer.ErrorPlanNameChars | file-renamer.js:36 | the catch branch's `image_WxH_ms` name has only `[a-z0-9_-]` |
| FileRenamer.ScanEntryFor | file-renamer.js:19-44 | the entry for one image file has its joined path and its name, no error and no skip, and `wouldRename` exactly when the suggested name differs from the file's name |
| FileRenamer.ScanEntryFacts | file-renamer.js:18-45 | an entry keeps the file's path and name; its suggested name ends with the file's extension, with the case kept; `wouldRename` is false exactly when the names are equal; there is no error and no skip |
| FileRenamer.ScanEntryName | file-renamer.js:20-44 | the suggested name is the analysis result plus the file's extension, or, when the analysis rejects, the catch branch's `image_<w>x<h>_<ms>` name plus the extension, with empty extracted text |
| FileRenamer.PlanEntryFacts | file-renamer.js:25-32 | an entry built from a stem of `[a-z0-9_-]` keeps the file's path and name and its extension, and `wouldRename` is false exactly when the names are equal |
| FileRenamer.ScanEntriesPlanFiles | file-renamer.js:18-46 | there is one entry per image file, in order, and the i-th entry is made for the i-th file as `ScanEntryFacts` states |
| FileRenamer.ScanDirectory | file-renamer.js:11-52 | the loop returns the scan of the directory, or rejects when it cannot be read |
| FileRenamer.Scan | file-renamer.js:11-52 | a scan fails exactly when the directory cannot be read, with the scan error for that directory, and otherwise has one entry per name `isImageFile` accepts |
| FileRenamer.ScanPlansEveryImage | file-renamer.js:13-32 | the entries' names are exactly the names `isImageFile` accepts, in listing order, each with a joined path, the file's extension and the `wouldRename` rule |
| FileRenamer.ScanNamesFromListing | file-renamer.js:13-14 | every entry names an image file from the listing and carries no error |
| FileRenamer.PreviewRenaming | file-renamer.js:54-57 | the preview is the whole scan |
| FileRenamer.PreviewKeepsEveryEntry | file-renamer.js:56 | filtering out entries with an error keeps a list without errors whole |
| FileRenamer.PerformRename | file-renamer.js:59-107 | a failed scan rejects and changes nothing; otherwise the report and the new filesystem are the fold of the loop over the scan |
| FileRenamer.PerformItems | file-renamer.js:61-106 | the loop's `successful`, `failed` and new filesystem are the fold of the step function over the entries |
| FileRenamer.PerformItem | file-renamer.js:64-100 | one iteration appends to `successful` or `failed` and renames as the step function says |
| FileRenamer.PerformStep | file-renamer.js:64-100 | an entry the loop does not report (skipped, or unchanged and without error) changes nothing; a dry run never touches the filesystem; a reported entry adds exactly one record; earlier records are kept in place |
| FileRenamer.StepReportsOnce | file-renamer.js:68-100 | in a real run a reported entry goes to `failed`, under its own path and with an error, exactly when it carried an error or its rename fails; otherwise it goes to `successful` as renamed, and the filesystem is the rename's result |
| FileRenamer.PerformPartition | file-renamer.js:64-106 | over the whole loop, dry run or not, the two lists together gain exactly one record per reported entry |
| FileRenamer.UnchangedNameIsNoOp | file-renamer.js:73-75 | an entry with `wouldRename` false is neither reported nor renamed |
| FileRenamer.PerformReportBound | file-renamer.js:64-106 | `successful` and `failed` only grow, and together they have at most one record per entry |
| FileRenamer.PerformKeepsOrder | file-renamer.js:64-101 | `successful` and `failed` list their entries in scan order |
| FileRenamer.StepKeepsOrder | file-renamer.js:64-100 | one iteration adds at most its own entry, at the end of each list |
| FileRenamer.PerformTargets | file-renamer.js:79-93 | every success targets `join(dirPath, suggestedName)`, came from an eligible entry, and has status `dry_run` exactly in a dry run |
| FileRenamer.DryRunOutcome | file-renamer.js:81-86 | a dry run leaves the filesystem unchanged, reports every eligible entry as `dry_run` in order and fails exactly the entries with an error |
| FileRenamer.DryRunOfScanFailsNothing | file-renamer.js:68-71 | a dry run of a scan fails nothing |
| FileRenamer.PerformOverwrites | file-renamer.js:79-93 | the target is not checked for existence: an existing file there is overwritten and the rename is reported as a success |
| FileRenamer.RenameSingle | file-renamer.js:109-119 | the outcome is a move exactly when `rename` succeeds, and the new path is `join(dirname(filePath), newName)` |
| FileRenamer.RenameSingleFile | file-renamer.js:109-119 | the method returns its outcome as a value and changes the filesystem exactly when it reports a move |
| FileRenamer.RenameSingleStaysInDirectory | file-renamer.js:110-115 | a moved file stays in its directory under the new name, and the move succeeds whenever the source exists and the target is free |
| ElectronMain.MergeSettings | electron/main.js:91-97 | truthy settings override the configuration's `apiKey`, `modelName` and `language`; the language falls back to `zh` and is always set; `offlineMode` overrides whenever it is defined |
| ElectronMain.MergeSettingsIdempotent | electron/main.js:91-97 | merging the same settings twice equals merging once |
| ElectronMain.EmptySettingDoesNotOverride | electron/main.js:93-96 | an empty `apiKey` does not override but `offlineMode: false` does |
| ElectronMain.PreviewEntryFacts | electron/main.js:118-145 | `isSameName` holds iff the basename equals the analysis result plus the extension, and `wouldRename` is its negation; a file whose analysis throws gets an error and both flags false |
| ElectronMain.PreviewEntryFor | electron/main.js:118-145 | an entry keeps the file's path and basename; it has a suggested name exactly when it has no error; with an error both flags are false; otherwise `isSameName` holds iff the names are equal and `wouldRename` is its negation |
| ElectronMain.PreviewOnePerFile | electron/main.js:137-146 | an error does not stop the loop: each file has its own result, in order |
| ElectronMain.HandlePreviewRename | electron/main.js:88-152 | the renamer is built from the merged settings and the results are those of the loop |
| ElectronMain.HandlePerformRename | electron/main.js:154-278 | results, filesystem and summary are those of the loop's fold, with `total` the number of files |
| ElectronMain.RenameLoopSnoc | electron/main.js:176-262 | the loop over one more file is one more step |
| ElectronMain.RenameFile | electron/main.js:193-261 | one iteration updates the tallies, the results and the filesystem as the step function says |
| ElectronMain.RenamePlanned | electron/main.js:218-261 | once the name is planned, the iteration counts a failed analysis, skips an existing target, or renames and counts a success, as the step function says |
| ElectronMain.TalliesAddUp | electron/main.js:171-262 | each file adds one to exactly one of skipped, success and failed, and one result; processed moves with success and failed |
| ElectronMain.RenameStep | electron/main.js:193-261 | one iteration adds one to the sum of skipped, success and failed, leaves `processed - success - failed` unchanged, and appends exactly one result after the earlier ones |
| ElectronMain.PlannedName | electron/main.js:207-216 | planning a name fails exactly when the preview has no non-empty name and the file's `stat` fails; a planned name is never empty |
| ElectronMain.ApplyPlan | electron/main.js:218-261 | the same counting facts once the name is planned, and the filesystem changes only when a name was planned and its target was free |
| ElectronMain.SummaryAddsUp | electron/main.js:264-274 | at the end `skipped + success + failed == total` and `processed == success + failed` |
| ElectronMain.StepKeepsEveryFile | electron/main.js:218-239 | one iteration never overwrites: the number of paths is kept and no stored file is lost |
| ElectronMain.LoopKeepsEveryFile | electron/main.js:176-262 | the whole loop never overwrites an existing file |
| ElectronMain.SameNameIsSkipped | electron/main.js:195-205 | a file the preview marked same-named is skipped without a rename |
| ElectronMain.ExistingTargetIsSkipped | electron/main.js:221-236 | a file whose target exists is skipped without a rename and is not counted as processed |
| ElectronMain.PreviewNameIsReused | electron/main.js:209-210 | a non-empty suggested name from the preview is used as it is, whatever the model would reply now |
| ElectronMain.MissingPreviewReanalyses | electron/main.js:211-216 | without a preview name the file is analysed again, and the name is the analysis result plus the extension |
| ElectronMain.MissingFileCountsAsSuccess | electron/main.js:239-241 | a file that is gone when renamed is counted as a success although nothing moves |
| ElectronMain.HandleScanDirectory | electron/main.js:293-315 | an unreadable directory fails; otherwise the loop's result is the scan function's |
| ElectronMain.ImageFilesIn | electron/main.js:298-309 | the loop keeps at most one path per listed name, and its failure names a path whose `stat` fails |
| ElectronMain.ImageFilesInOk | electron/main.js:299-301 | the loop succeeds exactly when the `stat` of every listed name succeeds |
| ElectronMain.ImageFilesInSnoc | electron/main.js:299-308 | an entry whose `stat` succeeds adds its path exactly when it is kept |
| ElectronMain.ImageFilesInStatFails | electron/main.js:301 | an entry whose `stat` fails makes the whole scan fail with that path |
| ElectronMain.StatFailureIsFinal | electron/main.js:301 | after a failed `stat`, later entries do not change the outcome |
| ElectronMain.ScanKeepsRegularImages | electron/main.js:299-309 | the result lists regular files only, in listing order, at most one per entry (the extension rule and its converse are `ScanKeepsSupportedExtensions`, `ScanKeepsOnlyImages` and `ScanKeepsEveryListedImage`) |
| ElectronMain.ScanKeepsEveryListedImage | electron/main.js:299-307 | on success every listed path exists, and every listed regular file whose lower-cased extension is supported is in the result |
| ElectronMain.ScanKeepsOnlyImages | electron/main.js:299-307 | every path in the result is the path of a listed name whose node is a regular file with a supported lower-cased extension |
| ElectronMain.ScanKeepsSupportedExtensions | electron/main.js:300-306 | for a directory path as `join` leaves it and plain names, every kept path is a regular file whose lower-cased `path.extname` is one of the six extensions |
| ElectronMain.NoExtensionIsNotKept | electron/main.js:304-305 | a name without an extension is never kept |
| ElectronMain.DotfileSeenDifferently | electron/main.js:304 | `.png` is an image to `isImageFile` but is not kept by `scan-directory` |

## Left out

- The vision-model call is not modelled: the SDK, base64 encoding, file reading, the prompt, the safety settings, the console logging and the error classification by message substring. The model's reply is an input: `Answer(text)` or `Failed`.
- The wall clock is not modelled. `new Date()`, `Date.now()` and `stats.mtime` are parameters (`now`, `nowMs`, a node's `mtime`), and years lie in 0..9999 so the ISO slices have a fixed width. Each batch sees one frozen clock.
- The directory listing from `fs.readdir` is an input: `None` means that reading failed. `stat` is a lookup in the filesystem map. Parent directories, permissions and symbolic links are not modelled.
- Concurrency is not modelled: async scheduling, and the race between `fs.access` and `rename` in `perform-rename`.
- Progress messages to the window are not modelled (`webContents.send` and the rounded percentages), nor is the window's lifecycle.
- `index.js`, `web-interface/app.js`, `utils.js` and `electron/preload.js` are not part of this model. Neither is `config.js`: its six extensions and the 50-character cap are constants here, and the configuration is a parameter of the settings merge.
- `perform-rename` reads `previewResults[i]`, and an undefined `previewResults` makes the whole handler fail. The model takes `previewResults` as a sequence whose entries may be missing and does not model that failure.
- Error messages are modelled for `ENOENT` from `stat` and for the three `rename` errors. A failed `rename` is reported with the message `RenameMessage` builds from the error code, its description and the two paths.
- Text.Lower: `toLowerCase` is modelled on ASCII letters, U+0130 and U+212A only. Other non-ASCII characters are left unchanged, which makes no difference to `cleanFilename`, since its allow-list removes them anyway.
- NodePath.BaseName / NodePath.DirName / NodePath.ExtName: model paths without a trailing separator and without a leading `//`. Node first drops trailing separators, so `basename("a/b/")` is `"b"`, `dirname("a/b/")` is `"a"` and `extname("a.b/")` is `".b"`, where the model gives `""`, `"a/b"` and `""`; Node's `dirname("//a")` is `"//"`, where the model gives `"/"`. The paths the core passes (dialog paths, `readdir` names joined to them, and names built from non-empty suggested names) have neither form.
- NodePath.Join: only joins a directory and one name, and normalises neither of them: a directory such as `./d`, `d//` or `a/../b` is kept as it is, and so are `..`, `.` and repeated separators inside the name. An empty name is not skipped as Node skips it: `Join("d", "")` is `"d/"` where Node gives `"d"`. The core only joins non-empty names (`readdir` entries and suggested names).
- The configuration holds `apiKey`, `modelName`, `language` and `offlineMode`, the four keys the merge sets; other keys of `config` are not modelled. None of the four influences naming, since the model call is an input.
- NodeFs.RenameIn: fails with `EISDIR` whenever a directory is renamed onto an existing directory, because emptiness is not modelled. POSIX allows an empty target and reports `ENOTEMPTY` (or `EEXIST`) for a non-empty one.
- NodeFs.RenameIn: the filesystem is a flat map, so the entries below a renamed directory keep their old paths.

## Notes on the code

The model follows the code wherever the code's behaviour is surprising.

- The fallback name is built from the file's modification time, not from the current time.
- `cleanFilename` can end with `_` when truncation cuts just after one, so it is not idempotent. `CleanFilenameNotIdempotent` shows this with a concrete name.
- `performRename` does not check whether its target exists, so `rename` overwrites an existing file (`PerformOverwrites`). `perform-rename` in the Electron main process does check.
- `perform-rename` counts a file as a success even when `renameSingleFile` reports a failure, because that function returns rather than throws (`MissingFileCountsAsSuccess`).
- `isImageFile` accepts a dotfile such as `.png`. `scan-directory`, which uses `path.extname`, does not (`DotfileSeenDifferently`).
