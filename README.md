# DhisePHP project generation, modelled in Dafny

DhisePHP is a browser application. It asks a generative language service for a
complete PHP/MySQL project, given a prompt typed by the user. It then shows
the project as a file tree with a code viewer and a terminal log. This Dafny
project models the parts that hold logic:

- **The normalization pipeline of `generateProject`.** It takes the service's
  parsed JSON reply and builds the internal project:
  - every file entry becomes a `ProjectFile` of kind `file`, with a language
    derived from its path;
  - the files are sorted deepest path first, ties broken by `localeCompare`
    of the paths;
  - a missing name or description is filled with its default;
  - an empty reply or any failure becomes one uniform error.
- **The language lookup `getLanguageFromExtension`.** The extension is the
  lower-cased text after the last `.` of the path, or the whole path when it
  has no `.`.
- **The file explorer.** For each file it computes the icon and its colour,
  the indentation depth and left padding, the row label and whether the row is
  highlighted. It renders one row per file, in the order given.
- **The application session.** `handleGenerate` guards against a blank prompt
  and against a request already in flight. It then starts the request, which
  ends in success or failure, and appends to the terminal log, which only ever
  grows. The mount effect checks the API key. The model also covers whether
  the run button is enabled and the "DB Tables" indicator of the sidebar.

Modules:

- `Wrappers`: `Option`, `Result`.
- `JsStrings`: the JavaScript string operations the code relies on:
  `split`, `pop`, `toLowerCase`, `endsWith`, `trim` and `localeCompare`.
- `Types`: the data types `ProjectFile` and `ProjectStructure`.
- `Language`: the language lookup.
- `FileOrder`: the comparator and the sort. There are two versions of the
  sort:
  - `SortFiles`, a stable insertion sort on sequences that serves as the
    specification;
  - `SortInPlace`, the in-place sort of the file array, proved to compute
    `SortFiles`.
- `GeminiService`: the parsed payload and the normalizer.
- `FileExplorer`: the rows of the explorer.
- `App`: the `Session` class holding the component state.

The service call and `JSON.parse` are parameters: the reply text is an
`Option<string>`, and the parser is a function from text to an optional
`Payload`.

## Model

| member | source | states |
|---|---|---|
| JsStrings.Split | services/geminiService.ts:61 | `split` returns at least one part, no part contains the separator, and joining the parts with the separator gives back the input |
| JsStrings.SplitLength | services/geminiService.ts:61-62 | the number of parts is one more than the number of separators |
| JsStrings.SplitJoin | services/geminiService.ts:61 | splitting a join of separator-free parts returns those parts |
| JsStrings.LastSegment | services/geminiService.ts:80 | `split(sep).pop()` is the suffix after the last separator; it contains no separator and is the whole string when there is none |
| JsStrings.LastSegmentIs | services/geminiService.ts:80 | the suffix after the last separator is unique, so any such suffix is what `pop` returns |
| JsStrings.Lower | services/geminiService.ts:80 | `toLowerCase` on ASCII letters, character by character; its commuting with the last-segment split is `JsStrings.LowerLastSegment` |
| JsStrings.EndsWith | App.tsx:92 | `endsWith`: the string's last characters are the suffix, compared case-sensitively |
| JsStrings.Trim | App.tsx:25 | `trim`: white space and line terminators are removed at both ends; it is empty exactly for blank strings by `JsStrings.TrimEmptyIffBlank` |
| JsStrings.LowerLastSegment | services/geminiService.ts:80 | lower-casing before or after taking the text after the last `.` gives the same result |
| JsStrings.TrimEmptyIffBlank | App.tsx:25 | `prompt.trim()` is empty exactly when every character of the prompt is white space |
| JsStrings.CodePointLessIrreflexive | services/geminiService.ts:64 | no path is ordered before itself |
| JsStrings.CodePointLessTransitive | services/geminiService.ts:64 | the path order is transitive |
| JsStrings.CodePointLessTotal | services/geminiService.ts:64 | of two different paths, one is ordered before the other |
| JsStrings.LocaleCompare | services/geminiService.ts:64 | `localeCompare`, modelled as 0 on equal strings and otherwise -1 or 1 by code-point order; its consistency is `JsStrings.LocaleCompareConsistent` |
| JsStrings.LocaleCompareConsistent | services/geminiService.ts:64 | `localeCompare` is zero exactly on equal strings, negative exactly when the first is ordered first, and changes sign when its arguments swap |
| Language.Extension | services/geminiService.ts:80 | the extension contains no `.`, is no longer than the path, and is the whole lower-cased path when the path has no `.` |
| Language.TagForExtension | services/geminiService.ts:81-90 | the `switch` of `getLanguageFromExtension`: seven extensions map to their tags (`js` to `javascript`, `md` to `markdown`) and every other to `plaintext`; its range is `Language.LanguageOfTags` |
| Language.LanguageOf | services/geminiService.ts:79-91 | `getLanguageFromExtension`: the tag for the path's extension; its range and the `plaintext` case are `Language.LanguageOfTags` |
| Language.ExtensionIs | services/geminiService.ts:80 | the extension is the lower-cased text after the last `.` |
| Language.LanguageOfTags | services/geminiService.ts:79-91 | the language is one of the eight tags, and it is `plaintext` exactly when the extension is not one of `php html css js sql json md` |
| Language.ExtensionCaseInsensitive | services/geminiService.ts:80 | paths equal up to letter case have the same extension |
| Language.LanguageCaseInsensitive | services/geminiService.ts:79-91 | paths equal up to letter case have the same language |
| Language.LanguageOfLowered | services/geminiService.ts:80 | lower-casing the path first changes neither the extension nor the language |
| Language.TrailingDotIsPlaintext | services/geminiService.ts:80-90 | a path ending in `.` has the empty extension and is `plaintext` |
| Language.BareMdIsMarkdown | services/geminiService.ts:80-89 | a path without `.` is its own extension, so the bare name `md` is `markdown` |
| Language.BareReadmeIsPlaintext | services/geminiService.ts:80-89 | a path without `.` is its own extension, so the bare name `readme` falls to `plaintext` |
| Language.UpperCasePhpExample | services/geminiService.ts:79-83 | `Config.PHP` is `php` |
| Language.UpperCaseCssExample | services/geminiService.ts:79-85 | `styles.CSS` is `css` |
| Language.SqlExample | services/geminiService.ts:79-87 | `schema.sql` is `sql` |
| Language.LastDotExample | services/geminiService.ts:79-86 | only the last `.` counts: `app.min.js` is `javascript` |
| FileOrder.DepthIsSegmentCount | services/geminiService.ts:61-62 | the sort depth is the number of `/`-separated segments of the path |
| FileOrder.Depth | services/geminiService.ts:61-62 | the depth of a path, its `/` count plus one; that it is `split('/').length` is `FileOrder.DepthIsSegmentCount` |
| FileOrder.Compare | services/geminiService.ts:60-64 | the comparator: the depth difference reversed when depths differ, else `localeCompare` of the paths; its meaning is `FileOrder.CompareMeaning` |
| FileOrder.CompareMeaning | services/geminiService.ts:60-65 | the comparator is negative exactly when the first path is deeper, or as deep and ordered first; zero exactly on equal paths; positive in the converse case |
| FileOrder.PathBeforeStrictTotal | services/geminiService.ts:60-65 | display order on paths is irreflexive, transitive and total on distinct paths |
| FileOrder.CompareConsistent | services/geminiService.ts:60-65 | the comparator is a consistent comparison function: zero on a file and itself, sign-antisymmetric and transitive |
| FileOrder.SortedByDepthThenPath | services/geminiService.ts:60-65 | in a sorted list, depth never increases, and files of equal depth are in non-decreasing path order |
| FileOrder.InsertPermutation | services/geminiService.ts:60 | inserting a file adds exactly that file |
| FileOrder.Insert | services/geminiService.ts:60 | one insertion step of the stable sort: one element longer; sortedness and permutation are `FileOrder.InsertSorted` and `FileOrder.InsertPermutation` |
| FileOrder.SortFiles | services/geminiService.ts:60-65 | the result of `files.sort(compare)`, keeping the length; sorted, a permutation, stable and the only stable sort by `FileOrder.SortFilesSorted`, `SortFilesPermutation`, `SortFilesStable`, `StableSortIsSortFiles` |
| FileOrder.SortFilesPermutation | services/geminiService.ts:60 | the sorted list is a rearrangement of the input list |
| FileOrder.InsertSorted | services/geminiService.ts:60-65 | inserting into a sorted list keeps it sorted |
| FileOrder.SortFilesSorted | services/geminiService.ts:60-65 | the sorted list is sorted by the comparator |
| FileOrder.SortFilesStable | services/geminiService.ts:60 | files with the same path keep their input order, as `Array.prototype.sort` guarantees |
| FileOrder.SortedUnique | services/geminiService.ts:60-65 | two sorted lists that list every path's files in the same order are equal |
| FileOrder.StableSortIsSortFiles | services/geminiService.ts:60 | any stable sorting of the files by the comparator gives exactly `SortFiles` |
| FileOrder.FilterPathOfPermutation | services/geminiService.ts:60 | with distinct paths, two rearrangements of the same files have the same files for each path |
| FileOrder.SortFilesOrderIndependent | services/geminiService.ts:61-64 | with distinct paths, the order the input lists the files in does not change the sorted result |
| FileOrder.InsertAt | services/geminiService.ts:60-65 | inserting a file places it after the files it does not precede and before those that it does |
| FileOrder.InsertIntoPrefix | services/geminiService.ts:60 | one in-place insertion step turns the first `i+1` array cells into the insertion of cell `i` into the sorted first `i` cells, and leaves the rest alone |
| FileOrder.ShiftGreater | services/geminiService.ts:60 | the inner loop of that step shifts right exactly the trailing cells of the sorted prefix that the comparator puts after the element, keeps every other cell, and stops at the first cell the element does not go before |
| FileOrder.SortInPlace | services/geminiService.ts:60-65 | sorting the array in place leaves exactly `SortFiles` of its old contents |
| FileOrder.SortByDecreasingDepth | services/geminiService.ts:60-62 | three files of increasing depth are listed in reverse order |
| GeminiService.MapEntries | services/geminiService.ts:52-57 | mapping succeeds exactly when every entry has a path; it keeps the count and order, copies each path and content, sets kind `file` and derives the language from the path |
| GeminiService.ToProjectFile | services/geminiService.ts:52-57 | the file built from one entry: its path and content, kind `file`, the language of its path; characterised by `GeminiService.ToProjectFileIs` |
| GeminiService.OrElse | services/geminiService.ts:68-69 | the `or` default of JavaScript, `value` unless it is missing or empty: a present non-empty value is the result; otherwise the result is the fallback, so it is never empty when the fallback is not |
| GeminiService.NormalizePayload | services/geminiService.ts:49-76 | succeeds exactly when `files` is present and every entry has a path; the name is `projectName` unless it is missing or empty, then `Untitled PHP Project`; the description is `projectDescription` or `""`; the files are sorted and a rearrangement of the mapped entries; any failure is the uniform error |
| GeminiService.GenerateProject | services/geminiService.ts:46-76 | an absent or empty reply, a parse failure or a malformed payload gives only the uniform error `Failed to generate project. Please try again.`; otherwise the result is the normalized payload |
| GeminiService.Transform | services/geminiService.ts:51-71 | the array-based transform, which maps the entries and sorts them in place, returns exactly the normalized payload |
| GeminiService.NormalizeKeepsEveryEntry | services/geminiService.ts:52-57 | the project has exactly one file per entry; every entry appears as a file with its path and content; every file has kind `file`, the language of its path, and the path and content of some entry of the reply. Repeated paths are not merged |
| GeminiService.ToProjectFileIs | services/geminiService.ts:52-57 | a file is built from an entry exactly when it has kind `file`, the language of its path, and that entry's path and content |
| GeminiService.MapEntriesCount | services/geminiService.ts:52-57 | each file occurs in the mapped list as often as its source entry occurs in the reply |
| GeminiService.MapEntriesPermutation | services/geminiService.ts:52-57 | rearranging the entries rearranges the mapped files |
| GeminiService.NormalizeOrderIndependent | services/geminiService.ts:52-71 | with distinct paths, any rearrangement of the reply's entries gives the same project |
| GeminiService.DeeperFirstExample | services/geminiService.ts:60-65 | `a.php`, `lib/b.php`, `lib/sub/c.php` are listed as `lib/sub/c.php`, `lib/b.php`, `a.php` |
| FileExplorer.IconFor | components/FileExplorer.tsx:11-23 | the code icon is chosen exactly for PHP, JavaScript and HTML; the text icon exactly for Markdown and unrecognised files; and the text icon is exactly the slate one |
| FileExplorer.IconForExtension | components/FileExplorer.tsx:13-22 | the `switch` of `getIconForFile`: glyph and colour for the six named extensions, and the slate text icon for `md` and every other |
| FileExplorer.IconFollowsLanguage | components/FileExplorer.tsx:12-22 | the icon is a function of the language the file lookup derives, from the same lower-cased last-`.` extension |
| FileExplorer.IconsSeparateLanguages | components/FileExplorer.tsx:13-22 | files of different languages get different icons unless both are Markdown or plain text |
| FileExplorer.IconCaseInsensitive | components/FileExplorer.tsx:12 | paths equal up to letter case get the same icon |
| FileExplorer.IndentDepth | components/FileExplorer.tsx:30 | the indentation depth is the number of `/` in the path, one less than the sort depth |
| FileExplorer.Padding | components/FileExplorer.tsx:42 | the left padding is at least 8 pixels and exceeds 8 by a multiple of 12 |
| FileExplorer.PaddingIncreasing | components/FileExplorer.tsx:42 | each extra level of depth adds at least 12 pixels of padding |
| FileExplorer.Label | components/FileExplorer.tsx:45 | the label is the text after the last `/`, free of `/`, and the whole path when the path has no `/` |
| FileExplorer.IsSelected | components/FileExplorer.tsx:31 | `selectedFile?.path === file.path`: true only with a selection whose path is the file's |
| FileExplorer.RowFor | components/FileExplorer.tsx:29-45 | one button: the file, its padding from the indentation depth, its icon, its label and its highlight; the value of each field for each file is stated by `FileExplorer.Rows` |
| FileExplorer.Rows | components/FileExplorer.tsx:29-45 | one row per file, in the given order; a row is highlighted exactly when something is selected and its path equals the row's path; the padding is `12 * (number of /) + 8`; the icon is the icon for the path and the text is its label |
| FileExplorer.NoSelectionNoHighlight | components/FileExplorer.tsx:31 | with nothing selected, no row is highlighted |
| FileExplorer.SamePathSameHighlight | components/FileExplorer.tsx:31 | rows of files with equal paths are highlighted together |
| FileExplorer.SelectedFileHighlighted | components/FileExplorer.tsx:31 | selecting a listed file highlights its row |
| FileExplorer.SortedRowsIndentNonIncreasing | components/FileExplorer.tsx:42 | in a normalized project, the padding never increases down the list |
| App.StartLines | App.tsx:28 | a start appends five progress lines, the first quoting the prompt |
| App.ErrorLine | App.tsx:39 | the log line of a failed request: `> Error: ` followed by the error message |
| App.RequestLines | App.tsx:28-39 | an accepted request logs the five progress lines, then the two completion lines on success or one error line on failure |
| App.FailedRequestLogsUniformError | App.tsx:37-39 | a failed request ends the log with `> Error: ` followed by the uniform error message |
| App.FindSqlFile | App.tsx:92 | `find` gives nothing exactly when no path ends with `.sql`; otherwise it gives the first file whose path does |
| App.DbTablesLabel | App.tsx:92 | `Included` when `find` gives a file, else `None`; the exact condition is `App.DbTablesIncludedIff` |
| App.DbTablesIncludedIff | App.tsx:92 | "DB Tables" shows `Included` exactly when some path ends with the case-sensitive `.sql` |
| App.SqlSuffixIsSqlLanguage | App.tsx:92 | a path ending with `.sql` has language `sql` |
| App.DbTablesImpliesSqlFile | App.tsx:92 | when the indicator says `Included`, the project has a file of language `sql` |
| App.UpperCaseSqlLanguage | services/geminiService.ts:79-87 | `X.SQL` has language `sql` |
| App.UpperCaseSqlNotIndicated | App.tsx:92 | for a file `X.SQL`, the indicator says `None` |
| App.Session.constructor | App.tsx:10-15 | the empty prompt, not loading, no project or selection, the two initial log lines, key not flagged missing |
| App.Session.Mount | App.tsx:17-22 | a missing or empty key sets `apiKeyMissing` and appends the critical-error line; otherwise nothing changes |
| App.Session.SetPrompt | App.tsx:148 | only the prompt changes |
| App.Session.Select | App.tsx:71 | only the selection changes, to the clicked file |
| App.Session.Start | App.tsx:25-28 | with a blank prompt or a request in flight nothing changes; otherwise loading starts and the five progress lines are appended; the log keeps its initial lines |
| App.Session.CanStart | App.tsx:25 | the guard of `handleGenerate`: a prompt that is not blank after `trim`, and no request in flight |
| App.Session.RunEnabled | App.tsx:156 | the run button is enabled: not loading, a prompt that is not blank after `trim`, and no missing key; it implies the guard by `App.RunEnabledPassesGuard` |
| App.Session.Succeed | App.tsx:30-42 | the project becomes the result; the selection becomes its first file if it has one, otherwise stays as it was; two completion lines are appended; loading stops |
| App.Session.Fail | App.tsx:37-42 | project and selection unchanged, exactly one error line appended, loading stops |
| App.Session.Generate | App.tsx:24-43 | a refused request changes nothing; an accepted one appends exactly the lines of its outcome to the old log, replaces the project only on success, selects the first generated file when a successful result has files and otherwise keeps the selection, and ends with loading off |
| App.RunEnabledPassesGuard | App.tsx:156 | whenever the run button is enabled, `handleGenerate` accepts the request |
| App.BlankPromptRefused | App.tsx:25 | a prompt of white space only never starts a request and disables the button |
| App.VisiblePromptAccepted | App.tsx:25 | a prompt with a visible character starts a request when none is loading |

## Left out

- The service client and the request are not modelled, because they are
  network calls. This covers client construction, the model id, the
  temperature and the MIME type. The reply text is a parameter of
  `GenerateProject` and `Session.Generate`, of type `Option<string>`. A
  `generateContent` call that is rejected, for example by a network error,
  is the reply `None`. It ends in the same uniform error as an empty reply,
  as the `catch` at services/geminiService.ts:73-76 makes it.
- `JSON.parse` is a parameter, `parse: string -> Option<Payload>`. A syntax
  error is `None`, which ends in the uniform error like every other failure.
- The request's response schema objects are not modelled. They are sent to
  the service and are not checked on the reply. The reply is taken as it is
  parsed.
- GeminiService.NormalizePayload: the reply must be of the shape `Payload`
  describes. That means `projectName` and `projectDescription` are strings
  when present, and `files` is an array of objects.
  - An entry without a `path` makes the JavaScript throw when it takes the
    path's language. The model turns this into the uniform error.
  - A missing `content` is carried on as `undefined` in JavaScript. The model
    has no such value: every entry has a string `content`.
  - A non-string `projectName` is not modelled.
- JsStrings.LocaleCompare: locale-dependent collation is modelled as
  lexicographic order of Unicode code points. The two orders differ even on
  plain ASCII paths of equal depth: code-point order puts every upper-case
  letter before every lower-case one, so it lists `B.php` before `a.php`,
  where collation lists `a.php` first. The model's order among files of
  equal depth is therefore not the order the program shows. Dafny's `char` is a code
  point, where JavaScript strings hold UTF-16 code units, so the two orders
  differ for characters outside the Basic Multilingual Plane. The real
  collation is not a total order on distinct strings: it returns 0 for
  canonically equivalent strings (a precomposed `é` against `e` followed by
  a combining acute accent) and for strings that differ only by an
  ignorable character such as a soft hyphen. For such paths the stable sort
  keeps the reply's order. So `FileOrder.SortFilesOrderIndependent` and
  `GeminiService.NormalizeOrderIndependent` are proved only for the
  substituted code-point order, not for the collation the program uses.
- JsStrings.Lower: `toLowerCase` is modelled on ASCII letters only. Outside
  ASCII, only the Kelvin sign and the dotted capital I lower-case to ASCII
  letters. Neither completes one of the seven recognised extensions, so
  classification is unaffected.
- `ProjectFile.language` is optional in the source type. Every file the
  pipeline builds has one, so the model makes it a plain string.
- The unused `FileType` enum of `types.ts` is not modelled. Its values
  (`text`, `unknown`) differ from the `plaintext` tag the lookup produces.
- `constants.ts` is not part of this model. It only holds the prompt text sent
  to the service.
- `components/Terminal.tsx` and `components/CodeViewer.tsx` are not part of
  this model. They only render the log with wall-clock timestamps and the
  selected file's content.
- The model leaves out JSX, styling, the icon components themselves (they
  appear as a glyph and colour datatype) and `console.error`.
- The Enter-key handler is not modelled. It only calls `handleGenerate`,
  which the model does.
- Asynchronous interleaving is not modelled. A request is the sequence `Start`
  followed by `Succeed` or `Fail`. The guard excludes overlapping requests.
  What the user may do while a request is pending is not modelled.
- The API key is read twice. The service module reads it when it is
  loaded, to build the client (services/geminiService.ts:6). The component
  reads it again when it mounts, to set `apiKeyMissing`. The first read
  belongs to the client, which is not modelled; `Session.Mount` models the
  second. `handleGenerate` itself does not look at `apiKeyMissing`: only the
  disabled button and textarea keep a request from starting without a key.
  `Session.Start` follows that code.
- App.Session.Succeed: when a new project has no files, the previous selection
  is kept, even though it may belong to the previous project. The model keeps
  this behaviour as written.
