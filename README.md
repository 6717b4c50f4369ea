# YouTube Organizer — client-side data layer in Dafny

YouTube Organizer is a browser application. It keeps a personal library of
YouTube videos grouped into categories. This project models the library's
data layer, which is everything between the user interface and the browser:

- the video store, with the categories each video belongs to (`useVideos`)
- the category store (`useCategories`)
- backup, per-category export and the merge-or-replace import (`exportImport`)
- the input validators (`validators`)
- the video and category sort engines (`sortFunctions`, `useSort`, `useCategorySort`)
- the ISO 8601 duration codec and its formatters (`durationFormatter`)
- the two YouTube link parsers (`videoParser`, and the pure helpers of `youtubeAPI`)
- the selection set and the search filter (`useSelection`, `useSearch`)

Each file is modelled in the form it has in the application:

- **Values.** Records and lists are Dafny datatypes and sequences.
- **Stores and hooks.** Each React hook that holds state is a class. A mutator that replaces the stored list is a method with `modifies this`. It is specified by a function from the old list to the new one, and the properties the application relies on are lemmas about that function.
- **Loops.** Code that builds its result step by step keeps its loop or its steps:
  - `getVideoCounts` accumulates into a map.
  - `formatDurationLong` collects words.
  - `secondsToISO` appends to a string.
  - The sort works on an array copy in place.
- **Unknown JSON.** Import data of unknown shape is a small JSON value type (`Json.Json`). It carries JavaScript truthiness and the `TypeError` thrown on reading a property of `null`.

Modelling choices:

- **Timestamps.** The application keeps them as ISO text and compares them through `new Date(..)`. Here they are the integer instants they denote.
- **Collation.** `localeCompare` is a parameter `collate`. The sort lemmas ask it to be consistent: its sign is antisymmetric and "not after" is transitive.
- **Sort algorithm.** The language guarantees only that `Array.prototype.sort` is stable; engines use other algorithms (V8 uses TimSort). The model sorts by a stable insertion sort. Under a consistent comparator the result of any stable sort is fixed: it is ordered, and elements that compare equal keep their input order. The model's sort is proved to have both properties (`Sorting.SortSorted`, `Sorting.SortStable`), so the choice of algorithm does not change the result. `Sorting.SortInPlace` is proved to compute the functional `Sorting.Sort`. Orders that an inconsistent comparator produces are outside the model; NaN from an unparsable date is one source of such a comparator.
- **Non-deterministic inputs.** Generated ids, `Date.now`, `Math.random` and `new Date().toISOString()` become parameters of the operations that use them.
- **Text primitives.**
  - `trim` removes the ECMAScript white-space and line-terminator characters.
  - `toLowerCase` lowers ASCII and Latin-1 capitals.
  - Regular expressions are written out as matchers over the character sequence.
  - The duration pattern is `PT(\d+H)?(\d+M)?(\d+S)?`.
  - The link patterns are ordered marker alternatives followed by the `[^&\n?#]+` id group, plus the anchored bare-id form `^[a-zA-Z0-9_-]{11}$`.

Some parts of the application do the same job twice and do not agree. The model keeps each copy as written and proves where they differ:

- **Import validation.** The service `validateImportData` also asks every category for a `createdAt`. Every file it accepts passes `validators.js` too (`ExportImport.ServiceIsStricter`). The converse fails, as `ExportImport.UndatedCategoryPassesOnlyUtils` exhibits.
- **Link validation.** `validateYouTubeUrl` lists four link forms and the bare id. `videoParser.js` also accepts the old `youtube.com/v/` form. The service parser `youtubeAPI.js` knows only three link forms and the bare id. Every link it accepts is accepted by `videoParser.js` (`YoutubeApi.ValidHereValidInVideoParser`), but not the other way round (`YoutubeApi.OldEmbedFormOnlyInVideoParser`).
- **Duration parsing in `useSort`.** `useSort` has its own `parseDuration` with no guard for a missing duration. When a duration key is selected and two or more videos include one without a duration, the hook throws a `TypeError` (`VideoSort.SortHook.SortedVideos`). Otherwise it orders exactly as `sortVideos` does (`VideoSort.HookAgreesWithTable`).

## Model

| member | source | states |
|---|---|---|
| Duration.ParseDuration | src/utils/durationFormatter.js:11-23 | a missing or empty duration, or text with no `PT`, reads as 0 seconds |
| Duration.ExampleMinuteAndAHalf | src/utils/durationFormatter.js:14-22 | "PT1M30S" reads as 90 seconds |
| Duration.ExampleTwoMinutes | src/utils/durationFormatter.js:14-22 | "PT2M" reads as 120 seconds: absent components count as 0 |
| Duration.ExampleMalformed | src/utils/durationFormatter.js:14-16 | text that does not match the pattern reads as 0 |
| Duration.DaysAreNotRead | src/utils/durationFormatter.js:14-22 | a day component ahead of `T` is skipped: "P1DT2H" has no `PT` and reads as 0 |
| Duration.MatchOfIsoText | src/utils/durationFormatter.js:14 | the pattern reads back the hours, minutes and seconds of any canonical `PTnHnMnS` text |
| Duration.RoundTrip | src/utils/durationFormatter.js:11-23 | for every natural n, parsing the canonical text of n seconds gives n |
| Duration.FormatDuration | src/utils/durationFormatter.js:30-35 | a missing or empty duration prints "0:00" |
| Duration.FormatOfIso | src/utils/durationFormatter.js:30-46 | formatting the canonical text of n seconds gives `h:mm:ss` when n has hours and `m:ss` otherwise, as computed independently from n |
| Duration.FormatZeroIff | src/utils/durationFormatter.js:30-46 | the clock text is "0:00" exactly when the duration reads as 0 seconds |
| Duration.FormatDurationLong | src/utils/durationFormatter.js:53-71 | the words collected by the loop are the non-zero components with their units, and the result is "0s" exactly when the duration reads as 0 |
| Duration.LongFormZeroIff | src/utils/durationFormatter.js:53-71 | the long form is "0s" exactly when the duration reads as 0 seconds: zero components are never printed |
| Duration.SecondsToISO | src/utils/durationFormatter.js:78-90 | the text starts with `PT`, holds only the non-zero H and M components, is "PT0S" for 0, and parses back to the given number of seconds |
| VideoParser.ExtractVideoId | src/utils/videoParser.js:11-35 | null or empty input gives null; a result is non-empty and holds no `&`, `?`, `#` or newline |
| VideoParser.ExtractIgnoresSurroundingSpace | src/utils/videoParser.js:11-15 | the patterns are matched against the trimmed text |
| VideoParser.BareIdExtractsItself | src/utils/videoParser.js:18-32 | an 11-character `[A-Za-z0-9_-]` text is its own id: no link pattern matches it first |
| VideoParser.FirstMatchAfterMisses | src/utils/videoParser.js:27-32 | when the earlier patterns miss, the result is the last pattern's match |
| VideoParser.MobilePatternIsShadowed | src/utils/videoParser.js:19-22 | whatever the `m.youtube.com` pattern matches, the `youtube.com/watch` pattern ahead of it matches too |
| VideoParser.ExtractGenerated | src/utils/videoParser.js:19-53 | extracting the id from the generated watch link gives the id back, for every non-empty id without `&?#`, newline or trailing white space |
| VideoParser.GeneratedIsValid | src/utils/videoParser.js:42-53 | a generated watch link is a valid link |
| VideoParser.QualityKey | src/utils/videoParser.js:62-69 | an unknown quality falls back to `mqdefault`; the key is always one of the four image names |
| VideoParser.ThumbnailUrlParts | src/utils/videoParser.js:61-71 | the thumbnail address is the fixed prefix, the id and the quality's image name; the default quality is the medium image |
| UrlPatterns.FirstMatchWins | src/utils/videoParser.js:27-32 | the list of patterns yields nothing exactly when no pattern matches, and otherwise yields the match of the first pattern that matches |
| UrlPatterns.SearchFrom | src/utils/videoParser.js:19 | whatever the unanchored search returns is non-empty and holds none of `&`, newline, `?` or `#` |
| UrlPatterns.SearchIsLeftmost | src/utils/videoParser.js:19 | the unanchored search finds the id group at the first position where some alternative matches, and nothing exactly when no position does |
| YoutubeApi.MatchesKeyPattern | src/services/youtubeAPI.js:82 | the key pattern holds exactly for 39 characters starting with `AIza` followed by 35 of `[A-Za-z0-9_-]` |
| YoutubeApi.ValidateApiKeyFormat | src/services/youtubeAPI.js:76-83 | false for an empty or non-string value; otherwise true exactly for the key pattern |
| YoutubeApi.ExtractVideoId | src/services/youtubeAPI.js:141-161 | null or empty input gives null; a result is non-empty and holds no `&`, `?`, `#` or newline |
| YoutubeApi.ExtractWatchLink | src/services/youtubeAPI.js:148-158 | a `youtube.com/watch?v=` link yields its id |
| YoutubeApi.ExtractShortLink | src/services/youtubeAPI.js:148-158 | a `youtu.be/` link yields its id |
| YoutubeApi.ExtractEmbedLink | src/services/youtubeAPI.js:148-158 | a `youtube.com/embed/` link yields its id |
| YoutubeApi.ExtractSteps | src/services/youtubeAPI.js:141-160 | the trimmed text is tried against the link forms, then against the bare-id form |
| YoutubeApi.BareIdOnlyIfEleven | src/services/youtubeAPI.js:150-151 | without a link form, an id is extracted only from text of exactly 11 characters, which is then the id |
| YoutubeApi.BareIdExtractsItself | src/services/youtubeAPI.js:148-158 | an 11-character `[A-Za-z0-9_-]` text is its own id |
| YoutubeApi.ValidHereValidInVideoParser | src/services/youtubeAPI.js:168-170 | every link this parser accepts is accepted by `videoParser.js` |
| YoutubeApi.OldEmbedFormOnlyInVideoParser | src/services/youtubeAPI.js:148-151 | the converse fails: `youtube.com/v/x` is accepted by `videoParser.js` only |
| Validators.ValidateCategoryName | src/utils/validators.js:13-55 | a valid name has 2 to 50 characters once trimmed; every rejection carries one of the four messages |
| Validators.CategoryNameChecks | src/utils/validators.js:13-55 | the checks run in order (blank, shorter than 2, longer than 50, duplicate) and the first failure is reported, each as an if-and-only-if |
| Validators.ExcludeIsLeavingOut | src/utils/validators.js:41-45 | excluding an id gives the verdict for the list with that category left out |
| Validators.KeepingOwnNameIsValid | src/utils/validators.js:41-45 | when names are unique, renaming a category to its own name in any case never fails on duplication |
| Validators.ValidateApiKey | src/utils/validators.js:62-69 | true exactly for a string of `AIza` and 35 characters of `[A-Za-z0-9_-]` |
| Validators.ApiKeyCheckersAgree | src/utils/validators.js:62-69 | the validator and `validateApiKeyFormat` accept the same keys |
| Validators.ValidateYouTubeUrl | src/utils/validators.js:76-102 | missing or blank input is rejected as missing; any other rejection is the invalid-link message |
| Validators.UrlValidatorAgreesWithParser | src/utils/validators.js:84-92 | an accepted link is a valid link for `videoParser.js`; a link valid there by any form but `youtube.com/v/` is accepted |
| Validators.BareIdIsAccepted | src/utils/validators.js:89-92 | a bare 11-character id, with or without surrounding white space, is accepted |
| Validators.ValidateImportData | src/utils/validators.js:109-152 | every rejection carries one of the five messages of the checks |
| Validators.ImportDataValidIff | src/utils/validators.js:109-152 | the data is accepted exactly when it is an object whose `categories` and `videos` are arrays of non-null entries, each category with a truthy `id` and `name`, each video with a truthy `id`, `videoId` and `title` and an array `categories` |
| Json.CheckEach | src/utils/validators.js:132-149 | the loop returns valid, the given error, or throws on a null entry |
| Json.CheckEachValidIff | src/utils/validators.js:132-149 | the loop passes exactly when no entry is null and every entry has the shape |
| Json.CheckEachThrowsIff | src/utils/validators.js:132-149 | the loop throws exactly when a null entry comes before any entry that fails the shape |
| Json.CheckEachMonotone | src/services/exportImport.js:87-98 | a looser shape accepts every list a stricter shape accepts |
| ExportImport.ExportAll | src/services/exportImport.js:32-42 | the backup carries version "1.0.0", the given export instant and exactly the given category and video lists, and is named `youtube-organizer-backup-<date>.json` |
| ExportImport.DashNonAlnum | src/services/exportImport.js:62 | every character outside `[A-Za-z0-9]` becomes `-`; the length is kept |
| ExportImport.SafeName | src/services/exportImport.js:62 | same length; `-` exactly where the name has a non-alphanumeric character, the lowered letter or digit elsewhere; only `[a-z0-9-]` |
| ExportImport.SafeNameIdempotent | src/services/exportImport.js:62 | a safe name is its own safe name |
| ExportImport.ExportCategory | src/services/exportImport.js:49-65 | the snapshot holds exactly `[category]` and the videos that list the category's id, in their order and each as often as in the list; the file is `category-<safe name>-<date>.json` |
| ExportImport.ValidateImportData | src/services/exportImport.js:72-101 | every rejection carries one of the five messages of the checks |
| ExportImport.ImportDataValidIff | src/services/exportImport.js:72-101 | the data is accepted exactly when its arrays hold non-null entries, each category with a truthy `id`, `name` and `createdAt`, each video with a truthy `id`, `videoId` and `title` and an array `categories` |
| ExportImport.ServiceIsStricter | src/services/exportImport.js:88 | every file the service accepts passes `validators.js` too |
| ExportImport.UndatedCategoryPassesOnlyUtils | src/utils/validators.js:132-139 | a category with `id` and `name` but no `createdAt` passes `validators.js` and is rejected by the service |
| ExportImport.ProcessImport | src/services/exportImport.js:111-118 | in replace mode the imported categories and videos are returned verbatim |
| ExportImport.MergeImportShape | src/services/exportImport.js:121-137 | in merge mode both current lists are kept as prefixes, followed by the imported entries whose id is not present yet, in imported order and each as often as imported |
| ExportImport.MergeImportIdempotent | src/services/exportImport.js:121-137 | merging the same snapshot twice is merging it once |
| ExportImport.BackupRoundTrip | src/services/exportImport.js:32-137 | importing a backup of the current lists, in either mode, gives the current lists back |
| ExportImport.CategoryExportRoundTrip | src/services/exportImport.js:49-137 | merging back the export of a current category changes nothing |
| Keyed.FindById | src/hooks/useVideos.js:153-155 | a found record belongs to the list and has the key |
| Keyed.FindByIdFirst | src/hooks/useVideos.js:153-155 | nothing is found exactly when no record has the key; otherwise the first record with the key is found |
| Keyed.MergeById | src/services/exportImport.js:121-137 | the merge is at least as long as the current list and at most as long as both together |
| Keyed.MergeShape | src/services/exportImport.js:121-137 | the current list is a prefix; the rest is the incoming records whose key is unseen, in incoming order and each as often as in the incoming list |
| Keyed.MergeIds | src/services/exportImport.js:121-137 | the keys after a merge are the keys of both lists |
| Keyed.MergeKnownIsNoOp | src/services/exportImport.js:121-137 | merging records whose keys are all present changes nothing |
| Keyed.MergeIdempotent | src/services/exportImport.js:121-137 | merging the same records twice is merging them once |
| Keyed.MergeWithItself | src/services/exportImport.js:121-137 | merging a list into itself changes nothing |
| Records.ApplyPatch | src/hooks/useVideos.js:47-53 | each of the thirteen fields takes the update's value when the update carries it and keeps the video's otherwise; an empty update changes nothing |
| Videos.WithoutIds | src/hooks/useVideos.js:41-44 | a video remains exactly when it was there and its id is not among the ids |
| Videos.WithoutId | src/hooks/useVideos.js:36-38 | a video remains exactly when it was there and its id differs |
| Videos.DeleteKeepsOrder | src/hooks/useVideos.js:41-44 | the remaining videos keep their order |
| Videos.DeleteUnknownIsNoOp | src/hooks/useVideos.js:41-44 | deleting ids no video has changes nothing |
| Videos.DeleteOneIsDeleteMany | src/hooks/useVideos.js:36-44 | deleting one id is deleting the one-element list |
| Videos.Updated | src/hooks/useVideos.js:47-53 | same length; matching videos get the update applied, the others are untouched |
| Videos.UpdateNoOp | src/hooks/useVideos.js:47-53 | updating an absent id changes nothing |
| Videos.WatchedToggled | src/hooks/useVideos.js:56-62 | only the watched flag of matching videos flips; everything else is unchanged |
| Videos.FavoriteToggled | src/hooks/useVideos.js:66-72 | only the favorite flag of matching videos flips; everything else is unchanged |
| Videos.ToggleWatchedTwice | src/hooks/useVideos.js:56-62 | toggling watched twice restores the list |
| Videos.ToggleFavoriteTwice | src/hooks/useVideos.js:66-72 | toggling favorite twice restores the list |
| Videos.WatchedSet | src/hooks/useVideos.js:75-82 | matching videos get the given watched flag, by default true; nothing else changes |
| Videos.MarkWatchedIdempotent | src/hooks/useVideos.js:75-82 | setting the flag twice is setting it once |
| Videos.WithEdge | src/hooks/useVideos.js:85-97 | the category is present afterwards; a video already in it is unchanged; no other field changes |
| Videos.WithEdgeKeepsNoDup | src/hooks/useVideos.js:85-97 | a duplicate-free category list stays duplicate-free |
| Videos.CopiedTo | src/hooks/useVideos.js:85-97 | the matching videos gain the category; the others are untouched |
| Videos.CopiedAllTo | src/hooks/useVideos.js:100-113 | the videos named by the ids gain the category; the others are untouched |
| Videos.CopyIdempotent | src/hooks/useVideos.js:100-113 | copying twice is copying once |
| Videos.CopyOneIsCopyMany | src/hooks/useVideos.js:85-113 | copying one video is copying the one-element list |
| Videos.CopyKeepsNoDup | src/hooks/useVideos.js:100-113 | duplicate-free category lists stay duplicate-free |
| Videos.Moved | src/hooks/useVideos.js:116-131 | the target is present and, when it differs, the source is gone; other categories and fields are unchanged |
| Videos.MovedIdempotent | src/hooks/useVideos.js:116-131 | repeating a move changes nothing |
| Videos.MovedKeepsNoDup | src/hooks/useVideos.js:116-131 | a duplicate-free category list stays duplicate-free |
| Videos.MovedTo | src/hooks/useVideos.js:116-131 | the matching videos are moved; the others are untouched |
| Videos.MovedAllTo | src/hooks/useVideos.js:134-150 | the videos named by the ids are moved; the others are untouched |
| Videos.MoveIdempotent | src/hooks/useVideos.js:134-150 | repeating a bulk move changes nothing |
| Videos.MoveOneIsMoveMany | src/hooks/useVideos.js:116-150 | moving one video is moving the one-element list |
| Videos.CategoryVideos | src/hooks/useVideos.js:158-160 | a video is listed exactly when it belongs to the category |
| Videos.OccurrencesSnoc | src/hooks/useVideos.js:163-171 | appending a video adds the number of times it lists the category |
| Videos.OccurrencesCountVideos | src/hooks/useVideos.js:163-171 | with duplicate-free category lists, the count of a category is the number of its videos |
| Videos.Stripped | src/hooks/useVideos.js:174-181 | the category is gone from the video; other categories and fields are unchanged |
| Videos.CategoryStripped | src/hooks/useVideos.js:174-181 | every video is kept in place, with the category stripped |
| Videos.StrippedCategoryIsGone | src/hooks/useVideos.js:174-181 | afterwards no video lists the category, and the ids are those of the old list, in order |
| Videos.OrphansSwept | src/hooks/useVideos.js:184-186 | a video remains exactly when it belongs to some category |
| Videos.SweepKeepsOrder | src/hooks/useVideos.js:184-186 | the remaining videos keep their order; sweeping twice is sweeping once |
| Videos.StripThenSweep | src/hooks/useVideos.js:174-186 | stripping a category and sweeping keeps every stripped video that still belongs somewhere |
| Videos.Imported | src/hooks/useVideos.js:189-201 | replace mode adopts the imported list; merge mode keeps the current list as a prefix |
| Videos.ImportIdempotent | src/hooks/useVideos.js:189-201 | importing the same videos twice, in either mode, is importing them once |
| Videos.ImportAgreesWithService | src/hooks/useVideos.js:189-201 | the hook's import leaves the same videos as `processImport` |
| Videos.VideoStore.constructor | src/hooks/useVideos.js:11 | the store starts empty |
| Videos.VideoStore.AddVideo | src/hooks/useVideos.js:14-33 | one record is appended, unwatched, not a favorite, in the one given category, with the given data, id and instant; earlier records are unchanged |
| Videos.VideoStore.DeleteVideo | src/hooks/useVideos.js:36-38 | the list becomes the old list without that id |
| Videos.VideoStore.DeleteVideos | src/hooks/useVideos.js:41-44 | the list becomes the old list without those ids |
| Videos.VideoStore.UpdateVideo | src/hooks/useVideos.js:47-53 | the list becomes the old list with the update applied to matching videos |
| Videos.VideoStore.ToggleWatched | src/hooks/useVideos.js:56-62 | the list becomes the old list with matching watched flags flipped |
| Videos.VideoStore.ToggleFavorite | src/hooks/useVideos.js:66-72 | the list becomes the old list with matching favorite flags flipped |
| Videos.VideoStore.MarkMultipleWatched | src/hooks/useVideos.js:75-82 | the list becomes the old list with the watched flag set on the named videos |
| Videos.VideoStore.CopyToCategory | src/hooks/useVideos.js:85-97 | the list becomes the old list with the video copied to the category |
| Videos.VideoStore.CopyMultipleToCategory | src/hooks/useVideos.js:100-113 | the list becomes the old list with the named videos copied |
| Videos.VideoStore.MoveToCategory | src/hooks/useVideos.js:116-131 | the list becomes the old list with the video moved |
| Videos.VideoStore.MoveMultipleToCategory | src/hooks/useVideos.js:134-150 | the list becomes the old list with the named videos moved |
| Videos.VideoStore.GetVideoById | src/hooks/useVideos.js:153-155 | the first video with the id, or nothing exactly when no video has it |
| Videos.VideoStore.GetCategoryVideos | src/hooks/useVideos.js:158-160 | exactly the videos of the category, in list order |
| Videos.VideoStore.GetVideoCounts | src/hooks/useVideos.js:163-171 | a category has a count exactly when it occurs in some video, and the count is its number of occurrences across all category lists |
| Videos.VideoStore.RemoveCategoryFromVideos | src/hooks/useVideos.js:174-181 | the list becomes the old list with the category stripped from every video |
| Videos.VideoStore.DeleteOrphanVideos | src/hooks/useVideos.js:184-186 | the list becomes the old list without videos that belong to no category |
| Videos.VideoStore.ImportVideos | src/hooks/useVideos.js:189-201 | the list becomes the merge or the replacement of the old list |
| Categories.NewCategory | src/hooks/useCategories.js:14-20 | the new category carries the trimmed name, the given id and the given instant |
| Categories.Renamed | src/hooks/useCategories.js:26-32 | same length, ids and creation instants; only matching entries change, to the trimmed name |
| Categories.RenameUnknownIsNoOp | src/hooks/useCategories.js:26-32 | renaming an absent id changes nothing |
| Categories.RenameIdempotent | src/hooks/useCategories.js:26-32 | renaming twice is renaming once, and a pre-trimmed name renames the same |
| Categories.WithoutCategory | src/hooks/useCategories.js:35-37 | a category remains exactly when it was there and its id differs |
| Categories.DeleteCategoryShape | src/hooks/useCategories.js:35-37 | the remaining categories keep their order; deleting an absent id changes nothing |
| Categories.NameTakenIsDuplicate | src/hooks/useCategories.js:45-49 | for a trimmed name of allowed length, the existence test agrees with the duplicate rule of `validateCategoryName` |
| Categories.AddedNameIsTaken | src/hooks/useCategories.js:14-49 | a category just added is found by its trimmed name |
| Categories.ImportedCategories | src/hooks/useCategories.js:52-64 | replace mode adopts the imported list; merge mode keeps the current list as a prefix |
| Categories.ImportIdempotent | src/hooks/useCategories.js:52-64 | importing the same categories twice, in either mode, is importing them once |
| Categories.ImportAppendsUnseen | src/hooks/useCategories.js:55-59 | a merge appends the imported categories whose id is not present, in imported order and each as often as imported |
| Categories.ImportAgreesWithService | src/hooks/useCategories.js:52-64 | the hook's import leaves the same categories as `processImport` |
| Categories.CategoryStore.constructor | src/hooks/useCategories.js:11 | the store starts empty |
| Categories.CategoryStore.AddCategory | src/hooks/useCategories.js:14-23 | one category with the trimmed name is appended; earlier entries are unchanged |
| Categories.CategoryStore.UpdateCategory | src/hooks/useCategories.js:26-32 | the list becomes the old list renamed |
| Categories.CategoryStore.DeleteCategory | src/hooks/useCategories.js:35-37 | the list becomes the old list without that id |
| Categories.CategoryStore.GetCategoryById | src/hooks/useCategories.js:40-42 | the first category with the id, or nothing exactly when no category has it |
| Categories.CategoryStore.CategoryExists | src/hooks/useCategories.js:45-49 | true exactly when some name equals the given one ignoring case, with no trimming |
| Categories.CategoryStore.ImportCategories | src/hooks/useCategories.js:52-64 | the list becomes the merge or the replacement of the old list |
| Sorting.SortPermutation | src/utils/sortFunctions.js:77 | the sort yields a permutation of its input |
| Sorting.SortSorted | src/utils/sortFunctions.js:77 | with a consistent comparator the result is ordered by it |
| Sorting.SortStable | src/utils/sortFunctions.js:77 | entries the comparator ranks equal keep their input order |
| Sorting.SortedUnique | src/utils/sortFunctions.js:77 | without ties, only one ordering of a permutation is sorted |
| Sorting.SwappedSortReverses | src/utils/sortFunctions.js:13-60 | without ties, sorting by the swapped comparator gives the reverse |
| Sorting.InsertAt | src/utils/sortFunctions.js:77 | one insertion step in place: the prefix becomes the old prefix with the element inserted, the rest is unchanged |
| Sorting.Copy | src/hooks/useSort.js:26 | a fresh array with the same contents |
| Sorting.SortInPlace | src/utils/sortFunctions.js:77 | the array becomes the stable sort of its old contents, a permutation of them |
| VideoSort.KeyOf | src/utils/sortFunctions.js:70 | a found key is the one named by the token |
| VideoSort.KeyOfTokenOf | src/utils/sortFunctions.js:11-61 | every comparator is found under its own name |
| VideoSort.Opposite | src/utils/sortFunctions.js:13-60 | the opposite of a key is another key |
| VideoSort.OppositeSwapsArguments | src/utils/sortFunctions.js:13-60 | each `Desc` comparator is its `Asc` comparator with the arguments swapped |
| VideoSort.CompareIsKeyDifference | src/utils/sortFunctions.js:13-60 | each non-title comparator subtracts numeric keys, in the order its name says |
| VideoSort.ComparatorConsistent | src/utils/sortFunctions.js:13-60 | every comparator is consistent when the collation is |
| VideoSort.SortedByMeaning | src/utils/sortFunctions.js:77 | a permutation, ordered by the chosen comparator, with ties in input order |
| VideoSort.OppositeReverses | src/utils/sortFunctions.js:13-77 | without ties, the opposite key gives the reverse order |
| VideoSort.ViewsDescNonIncreasing | src/hooks/useSort.js:63-64 | under `viewsDesc` the views never increase |
| VideoSort.DurationAscNonDecreasing | src/utils/sortFunctions.js:58-60 | under `durationAsc` the parsed seconds never decrease, a missing or malformed duration counting as 0 |
| VideoSort.DurationAscReverses | src/utils/sortFunctions.js:58-60 | three videos of decreasing duration come out reversed |
| VideoSort.DurationAscExample | src/utils/sortFunctions.js:58-60 | no duration, then "PT1M30S", then "PT2M" |
| VideoSort.SortVideos | src/utils/sortFunctions.js:69-78 | an unknown token returns the input array itself; a known one a fresh array sorted by its comparator, the input untouched |
| VideoSort.InlineParseDuration | src/hooks/useSort.js:13-22 | 0 when there is no `PT` match |
| VideoSort.InlineParseAgrees | src/hooks/useSort.js:13-22 | on present text the inline parser agrees with `parseDuration`: `3600h + 60m + s` |
| VideoSort.HookAgreesWithTable | src/hooks/useSort.js:28-78 | each case of the switch orders exactly as the table's comparator |
| VideoSort.SortHook.constructor | src/hooks/useSort.js:9-10 | the initial token is the given one, by default `dateAddedDesc` |
| VideoSort.SortHook.SetSortOption | src/hooks/useSort.js:10 | the token becomes the given one |
| VideoSort.SortHook.SortedVideos | src/hooks/useSort.js:25-81 | a fresh copy: a TypeError exactly for a duration key over two or more videos one of which has no duration; otherwise unknown tokens keep the order and known ones sort as the table |
| CategorySort.KeyOf | src/hooks/useCategorySort.js:13-27 | a token selects a case exactly when it is one of the four case labels |
| CategorySort.DescSwapsAsc | src/hooks/useCategorySort.js:14-24 | each descending case is its ascending case with the arguments swapped |
| CategorySort.ComparatorConsistent | src/hooks/useCategorySort.js:14-24 | every case's comparator is consistent when the collation is |
| CategorySort.SortedByMeaning | src/hooks/useCategorySort.js:15-24 | a permutation, with ties in input order |
| CategorySort.DateCreatedOrder | src/hooks/useCategorySort.js:14-18 | oldest first never decreases the creation instant; newest first never increases it |
| CategorySort.DateCreatedDescIsReverse | src/hooks/useCategorySort.js:14-18 | with distinct instants, newest first is oldest first reversed |
| CategorySort.NameOrder | src/hooks/useCategorySort.js:20-24 | `nameAsc` and `nameDesc` order by the collation in opposite directions |
| CategorySort.NameDescIsReverse | src/hooks/useCategorySort.js:20-24 | with names the collation ranks distinct, `nameDesc` is `nameAsc` reversed |
| CategorySort.CategorySortHook.constructor | src/hooks/useCategorySort.js:8 | the initial token is `dateCreatedDesc` |
| CategorySort.CategorySortHook.SetSortOption | src/hooks/useCategorySort.js:8 | the token becomes the given one |
| CategorySort.CategorySortHook.SortedCategories | src/hooks/useCategorySort.js:10-28 | a fresh copy: unknown tokens keep the order, known ones sort by their case |
| Selection.Toggled | src/hooks/useSelection.js:11-21 | membership of the id flips; every other id is unchanged |
| Selection.ToggleTwice | src/hooks/useSelection.js:11-21 | toggling twice restores the selection |
| Selection.SetOf | src/hooks/useSelection.js:24-26 | the selection holds exactly the listed ids |
| Selection.SetOfSize | src/hooks/useSelection.js:24-51 | a list without repeats selects as many ids as it has entries |
| Selection.AllSelected | src/hooks/useSelection.js:39-42 | false for an empty list; otherwise every listed id is selected |
| Selection.AllSelectedIsSubset | src/hooks/useSelection.js:24-42 | all selected means the list's set is within the selection; after selecting a non-empty list it is all selected |
| Selection.SelectionState.constructor | src/hooks/useSelection.js:8 | the selection starts empty |
| Selection.SelectionState.ToggleSelection | src/hooks/useSelection.js:11-21 | the selection becomes the old one toggled at the id |
| Selection.SelectionState.SelectAll | src/hooks/useSelection.js:24-26 | the selection becomes the set of the ids |
| Selection.SelectionState.ClearSelection | src/hooks/useSelection.js:29-31 | the selection becomes empty |
| Selection.SelectionState.IsSelected | src/hooks/useSelection.js:34-36 | membership of the id |
| Selection.SelectionState.AreAllSelected | src/hooks/useSelection.js:39-42 | the list is non-empty and its set is within the selection |
| Selection.SelectionState.SelectedCount | src/hooks/useSelection.js:51 | the size of the selection |
| Selection.SelectionState.HasSelection | src/hooks/useSelection.js:52 | true exactly when something is selected |
| Search.FilterVideos | src/hooks/useSearch.js:12-25 | a blank term keeps the list; otherwise a video is kept exactly when its lowered title or channel contains the lowered, trimmed term |
| Search.FilterKeepsOrder | src/hooks/useSearch.js:19-24 | the result is a subsequence of the list |
| Search.SearchIgnoresCase | src/hooks/useSearch.js:17 | lowering the term changes nothing |
| Search.OwnTitleFindsVideo | src/hooks/useSearch.js:17-23 | searching a video's own trimmed title keeps that video |
| Search.SearchState.constructor | src/hooks/useSearch.js:9 | the term starts empty |
| Search.SearchState.SetSearchTerm | src/hooks/useSearch.js:9 | the term becomes the given one |
| Search.SearchState.ClearSearch | src/hooks/useSearch.js:28-30 | the term becomes empty |
| Search.SearchState.FilteredVideos | src/hooks/useSearch.js:12-25 | an order-preserving subsequence of the list, the whole list when there is no term |
| Search.SearchState.HasSearchTerm | src/hooks/useSearch.js:37 | true exactly when the term has a character other than white space |

## Left out

- Network access is not modelled: `fetchVideoData`, `testApiKey` and the `useYouTubeAPI` hook make HTTP calls. Their result, a `VideoData` value, is a parameter of `AddVideo`.
- Persistence in browser storage (`storage.js`, `useLocalStorage`) is not modelled. The stores hold their lists in memory.
- `downloadJSON` and `readJSONFile` are left out because they use Blob, DOM and FileReader. `ExportAll` and `ExportCategory` return the data and the file name that would be downloaded.
- `formatDate` and every read of the wall clock are left out. The export instant and the date of the file name are parameters.
- Id and timestamp generation (`generateId`, `Date.now`, `Math.random`) is left out. Ids and instants are parameters of `AddVideo` and `AddCategory`.
- `dateFormatter.js` and `viewsFormatter.js` are left out because they use locale formatting and floating point.
- The user-interface components and the `App.jsx` wiring are left out, including its delete cascade and the import that only logs.
- `new Date(..)` parsing is left out. Timestamps are the integer instants they denote.
- `localeCompare` collation is a parameter. The model does not choose a locale.
- Inherited object keys are not modelled. A token such as `toString` or `constructor` selects no sort key, no thumbnail quality and no count entry.
- Duration.ParseDuration: `parseInt` is exact on any digit run. It does not model loss of precision beyond 2^53.
- Duration.SecondsToISO: the argument is a natural number. Negative or fractional seconds are not modelled.
- Text.ToLower lowers ASCII and Latin-1 capitals only. The other Unicode case mappings and UTF-16 lengths are not modelled.
- Validators.ValidateCategoryName measures a name in characters, where the source's `length` counts UTF-16 code units. A name made of one character outside the Basic Multilingual Plane (an emoji) is therefore rejected as too short here, but the source accepts it with length 2.
- ExportImport.SafeName maps each character to one `-`, where the source's regex replaces each UTF-16 code unit. A character outside the Basic Multilingual Plane therefore becomes one dash here and two in the source.
- Json.Json has integer numbers only, because floating point is left out.
- ExportImport.ProcessImport takes the import as a typed `Snapshot`. The conversion from parsed JSON is not modelled.
- Validators.ValidateYouTubeUrl takes `Option<string>`: a missing value or a string. Other JavaScript values are not modelled.
- VideoParser.ExtractVideoId and YoutubeApi.ExtractVideoId take `Option<string>` too: a truthy argument that is not a string makes `.trim()` throw in the source, and the model cannot be handed one.
- VideoSort.InlineSeconds reads 0 for a missing duration. That branch is never taken, because the hook reports the TypeError first.
