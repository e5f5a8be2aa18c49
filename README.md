# TaxReport GUI: a Dafny model of its sequential core

TaxReport GUI is a JavaFX front end for a family tax-report archive. Expenses,
persons and documents live in a MariaDB database and on an SMB share, and the
desktop client reads and writes them through a singleton `ServiceManager`.
This project models the parts of the client that are plain sequential logic
and proves what they promise.

- **Smart document cache** (`smart_cache.dfy`, with `java_file.dfy`).
  `ServiceManager` connects lazily: `init` checks the configured host, parses
  the port, builds the collaborators and creates the cache directory
  `<tmp>/TaxReportCache`. `downloadDocument` splits a document's relative
  path the way `java.io.File` does. It serves `cache/<basename>` when that
  file exists and is not empty. Otherwise it asks the share for
  `(parent, basename)` and writes the stream straight to the cached path.
  The cache directory is a map from file name to bytes. The share is a map
  from `(directory, name)` to bytes. The share can be unreachable, and a
  transfer can break off part-way.
- **Expense form** (`add_expense.dfy`). An attachment item holds either a
  local file or a stored document, plus a `downloading` flag. Opening an item
  is a state machine over that flag. The model proves that an attachment item
  never has two downloads in flight, and that a failed download can be
  retried. The year list is the database years together with the current
  year ±3, sorted in descending `String` order. Saving splits the items into
  new uploads and surviving documents.
- **Dashboard** (`dashboard.dfy`). It covers:
  - the person/category filter predicate;
  - the statistics over the filtered rows;
  - the filter button captions and styles;
  - the multi-select dialog, which edits a copy of the selection, applies it
    only on confirmation and keeps the old selection on cancel;
  - the year-to-load rule;
  - the `isUpdating` guard that turns away the load triggered from inside the
    success handler.
- **Start-up cache wipe** (`startup.dfy`). `cleanCache` walks the cache
  directory, sorts the walked paths in reverse path order and deletes
  them one by one, ignoring failures. The model proves four things:
  - every descendant is tried before its ancestor;
  - the root is tried last;
  - the sweep removes exactly the walked paths that are deletable and have
    nothing undeletable below them;
  - a second sweep removes nothing more.

Supporting modules: `java_strings.dfy` models the `String.compareTo` order,
`String.valueOf(int)`, `Integer.parseInt` and a sort. `tax_model.dfy` holds
the library's entities (expense, person, document, types). `wrappers.dfy`
holds `Option` and `Result`.

Exceptions are modelled as `Result` values. Background tasks are modelled as
ordinary calls whose results are passed to the success or failure handler.
The process's surroundings are parameters:
- the settings map;
- the database contents (`MetadataStore`);
- the share (`RemoteStore`);
- whether creating the cache directory succeeds (`mkdirOk`);
- whether walking the cache directory throws (`walkFails`);
- the current year.

## Model

| member | source | states |
|---|---|---|
| SmartCache.CacheRoot | src/main/java/com/simonepugliese/taxreportgui/util/ServiceManager.java:29-33 | `Paths.get(tmp, "TaxReportCache")`: a normal path that is not empty and does not end in a separator; for an empty temporary directory it is the relative path "TaxReportCache" itself |
| SmartCache.CacheRootParent | src/main/java/com/simonepugliese/taxreportgui/util/ServiceManager.java:31-32 | for a non-empty temporary directory, the cache directory's parent is that directory, normalised |
| SmartCache.ServiceManager.constructor | src/main/java/com/simonepugliese/taxreportgui/util/ServiceManager.java:29-33 | a fresh manager has no collaborators and caches under `<tmp>/TaxReportCache` |
| SmartCache.CacheRootName | src/main/java/com/simonepugliese/taxreportgui/util/ServiceManager.java:32 | the cache directory's own name is "TaxReportCache", whatever the temporary directory |
| SmartCache.CacheDirNameIsSimple | src/main/java/com/simonepugliese/taxreportgui/util/ServiceManager.java:32 | "TaxReportCache" is one path component |
| SmartCache.ConfigGet | src/main/java/com/simonepugliese/taxreportgui/gui/ConfigService.java:46 | `get(key, def)`: the stored value when the key is set, else the default |
| SmartCache.DefaultPortParses | src/main/java/com/simonepugliese/taxreportgui/util/ServiceManager.java:51 | the default port "3306" parses as 3306 |
| SmartCache.FindByYear | src/main/java/com/simonepugliese/taxreportgui/controller/DashboardController.java:230 | `findByYear(year)`: the expenses the database holds for that year, none for an unknown year |
| SmartCache.InitFailure | src/main/java/com/simonepugliese/taxreportgui/util/ServiceManager.java:45-55 | an empty or missing host is rejected with the "Configurazione mancante" IllegalState; there is no early failure exactly when a host is set and the port (default "3306") parses as an int |
| SmartCache.CacheAfterInit | src/main/java/com/simonepugliese/taxreportgui/util/ServiceManager.java:68-71 | creating the cache directory keeps its files; the directory exists afterwards iff it existed or could be created |
| SmartCache.InitResult | src/main/java/com/simonepugliese/taxreportgui/util/ServiceManager.java:42-72 | init succeeds iff nothing is rejected early and the cache directory exists afterwards |
| SmartCache.ServiceManager.Init | src/main/java/com/simonepugliese/taxreportgui/util/ServiceManager.java:42-72 | returns InitResult; an early failure assigns no collaborator; otherwise metadata, storage and service are all set, and the cache directory is created |
| SmartCache.ServiceManager.IsReady | src/main/java/com/simonepugliese/taxreportgui/util/ServiceManager.java:84-86 | ready iff the service is set |
| SmartCache.ServiceManager.LazilyInitialised | src/main/java/com/simonepugliese/taxreportgui/util/ServiceManager.java:99 | the state after `if (!isReady()) init();`: unchanged when already ready or when init fails early; otherwise all three collaborators are set from the given database and share, and the cache directory is created when possible |
| SmartCache.ServiceManager.EnsureReady | src/main/java/com/simonepugliese/taxreportgui/util/ServiceManager.java:99 | performs that step: the new state is LazilyInitialised; ready afterwards iff it was or init did not fail early; the result is Ok when already ready, else InitResult |
| SmartCache.ServiceManager.GetService | src/main/java/com/simonepugliese/taxreportgui/util/ServiceManager.java:74-77 | yields the service iff the manager is ready, else IllegalState "Servizio non inizializzato" |
| SmartCache.ServiceManager.GetMetadata | src/main/java/com/simonepugliese/taxreportgui/util/ServiceManager.java:79-82 | yields the metadata iff it is set, else IllegalState "Metadata non inizializzato" |
| SmartCache.LoadFile | src/main/java/com/simonepugliese/taxreportgui/util/ServiceManager.java:117-120 | a complete transfer yields exactly the stored bytes; a broken one yields a proper prefix of them; the call is refused iff the share is unreachable or lacks the file |
| SmartCache.Filename | src/main/java/com/simonepugliese/taxreportgui/util/ServiceManager.java:103 | the document's basename, which holds no separator |
| SmartCache.ParentPath | src/main/java/com/simonepugliese/taxreportgui/util/ServiceManager.java:104 | the parent of the relative path, or "" exactly when `getParent()` is null |
| SmartCache.LocalPath | src/main/java/com/simonepugliese/taxreportgui/util/ServiceManager.java:107 | `cachePath.resolve(name)`: the cache directory for an empty name; otherwise a path whose name is `name` and whose parent is the cache directory |
| SmartCache.IsHit | src/main/java/com/simonepugliese/taxreportgui/util/ServiceManager.java:110 | the cached file exists and is not empty |
| SmartCache.Resolve | src/main/java/com/simonepugliese/taxreportgui/util/ServiceManager.java:101-122 | a hit (the basename's cached file exists and is non-empty) asks the share nothing, leaves the cache alone and returns the cached path; a miss asks exactly (parent, basename); with the local file system failing only when the cache directory is missing, it succeeds iff the transfer completes and the directory exists, storing the share's bytes; a missing directory is a storage error that writes nothing; a refused call is a retrieval error that writes nothing; a broken transfer is a retrieval error that leaves the received prefix; success always names `cache/<basename>`, and that file exists |
| SmartCache.ServiceManager.DownloadDocument | src/main/java/com/simonepugliese/taxreportgui/util/ServiceManager.java:98-123 | initialises first when not ready: an early init failure leaves every collaborator as it was and stops; otherwise metadata, storage and service are set, and an init error (no cache directory) stops; then it behaves as Resolve on the current cache, and records every remote request in the ghost `fetchLog` |
| SmartCache.MissWritesRemoteBytes | src/main/java/com/simonepugliese/taxreportgui/util/ServiceManager.java:115-122 | a successful miss writes exactly the share's bytes for (parent, basename) |
| SmartCache.SecondResolveHits | src/main/java/com/simonepugliese/taxreportgui/util/ServiceManager.java:109-120 | after a successful resolve that leaves a non-empty file, the next resolve of the same document is a hit whatever the share holds |
| SmartCache.SameBasenameAliases | src/main/java/com/simonepugliese/taxreportgui/util/ServiceManager.java:102-113 | two documents with the same basename from different directories share one cached file: the second document is served the first one's bytes without any remote request |
| SmartCache.BrokenTransferBecomesHit | src/main/java/com/simonepugliese/taxreportgui/util/ServiceManager.java:110-120 | a transfer that breaks after at least one byte fails, yet leaves a truncated file that the next resolve serves as a hit |
| JavaFile.Collapse | src/main/java/com/simonepugliese/taxreportgui/util/ServiceManager.java:102 | runs of separators collapse to one; first and last characters are kept; an already collapsed path is unchanged (what else it keeps is stated by the three Collapse lemmas) |
| JavaFile.Normalize | src/main/java/com/simonepugliese/taxreportgui/util/ServiceManager.java:102 | the result is normal (no doubled separator, no trailing one except the root); a normal path is unchanged, so normalising is idempotent |
| JavaFile.NormalizeIdempotent | src/main/java/com/simonepugliese/taxreportgui/util/ServiceManager.java:102 | normalising a normalised path changes nothing |
| JavaFile.CollapseDropsDoubledSeparator | src/main/java/com/simonepugliese/taxreportgui/util/ServiceManager.java:102 | "a//b" and "a/b" collapse alike |
| JavaFile.CollapseAppendName | src/main/java/com/simonepugliese/taxreportgui/util/ServiceManager.java:102 | a trailing component without separators is kept as it is |
| JavaFile.CollapseAppendSeparator | src/main/java/com/simonepugliese/taxreportgui/util/ServiceManager.java:102 | one separator after a path not ending in one is kept |
| JavaFile.NormalizeDropsDoubledSeparator | src/main/java/com/simonepugliese/taxreportgui/util/ServiceManager.java:102 | `new File("a//b")` and `new File("a/b")` are the same path |
| JavaFile.NormalizeDropsTrailingSeparator | src/main/java/com/simonepugliese/taxreportgui/util/ServiceManager.java:102 | a trailing separator on a non-empty path makes no difference |
| JavaFile.LastSeparator | src/main/java/com/simonepugliese/taxreportgui/util/ServiceManager.java:103-104 | the index of the last separator, or -1 when there is none |
| JavaFile.Name | src/main/java/com/simonepugliese/taxreportgui/util/ServiceManager.java:103 | `getName()`: the last component of the normalised path, which holds no separator |
| JavaFile.Parent | src/main/java/com/simonepugliese/taxreportgui/util/ServiceManager.java:104 | `getParent()`: null iff the normalised path has no separator or is "/"; a parent is never the empty string |
| JavaFile.ParentAndNameRebuildPath | src/main/java/com/simonepugliese/taxreportgui/util/ServiceManager.java:102-104 | parent, separator and basename put back together give the normalised path |
| JavaFile.RedundantSeparatorIgnored | src/main/java/com/simonepugliese/taxreportgui/util/ServiceManager.java:102-104 | doubled separators change neither the name nor the parent |
| JavaFile.LastSeparatorOfChild | src/main/java/com/simonepugliese/taxreportgui/util/ServiceManager.java:103-104 | in "w" + name, with w ending in the separator and name free of it, the last separator is w's |
| JavaFile.SplitChild | src/main/java/com/simonepugliese/taxreportgui/util/ServiceManager.java:102-104 | "dir/name" below a normal directory other than "/" is normal and splits into parent "dir" and name "name" |
| JavaFile.SimpleName | src/main/java/com/simonepugliese/taxreportgui/util/ServiceManager.java:103 | a single component is normal and is its own name |
| JavaFile.NameOfNormalizedChild | src/main/java/com/simonepugliese/taxreportgui/util/ServiceManager.java:32 | whatever precedes it, the normalised "t/n" ends in n and has the name n |
| JavaFile.CollapseWithSeparator | src/main/java/com/simonepugliese/taxreportgui/util/ServiceManager.java:32 | collapsing "t/" gives the normalised t plus one separator, or "/" when t normalises to the root |
| JavaFile.ParentOfChild | src/main/java/com/simonepugliese/taxreportgui/util/ServiceManager.java:104 | in a normal "w" + name with w ending in the separator, the parent is w without it, or "/" for the root |
| JavaFile.NameOfChild | src/main/java/com/simonepugliese/taxreportgui/util/ServiceManager.java:103 | in a normal "w" + name with w ending in the separator, the name is the last component |
| JavaFile.ParentOfNormalizedChild | src/main/java/com/simonepugliese/taxreportgui/util/ServiceManager.java:32 | the parent of the normalised "t/n" is the normalised t |
| JavaStrings.ParseInt | src/main/java/com/simonepugliese/taxreportgui/util/ServiceManager.java:51 | a parsed port always lies in the 32-bit int range (acceptance and rejection are stated by ParseIntAccepts and ParseIntRejects) |
| JavaStrings.UnsignedPart | src/main/java/com/simonepugliese/taxreportgui/util/ServiceManager.java:51 | what follows an optional leading '-' or '+' |
| JavaStrings.ParseIntOfDigits | src/main/java/com/simonepugliese/taxreportgui/util/ServiceManager.java:51 | a sign followed by digits parses to the signed value when it lies in the int range, else fails |
| JavaStrings.ParseIntAccepts | src/main/java/com/simonepugliese/taxreportgui/util/ServiceManager.java:51 | a run of digits, bare or with '+', parses to its value iff it is at most 2^31-1; with '-', to its negation iff the value is at most 2^31 |
| JavaStrings.ParseIntRejects | src/main/java/com/simonepugliese/taxreportgui/util/ServiceManager.java:51 | "", "-" and "+" are rejected, and so is anything with a non-digit after the optional sign |
| JavaStrings.Less | src/main/java/com/simonepugliese/taxreportgui/controller/AddExpenseController.java:195 | `String.compareTo` < 0: the first differing character decides, else the proper prefix comes first |
| JavaStrings.LessIrreflexive | src/main/java/com/simonepugliese/taxreportgui/controller/AddExpenseController.java:195 | no string sorts before itself |
| JavaStrings.LessAsymmetric | src/main/java/com/simonepugliese/taxreportgui/controller/AddExpenseController.java:195 | the `compareTo` order never puts two strings both before each other |
| JavaStrings.LessTransitive | src/main/java/com/simonepugliese/taxreportgui/controller/AddExpenseController.java:195 | the `compareTo` order is transitive |
| JavaStrings.LessTotal | src/main/java/com/simonepugliese/taxreportgui/controller/AddExpenseController.java:195 | any two distinct strings are ordered one way or the other |
| JavaStrings.SortDescending | src/main/java/com/simonepugliese/taxreportgui/controller/AddExpenseController.java:194-196 | the sorted list holds exactly the set's elements, one each, greatest first |
| JavaStrings.IntToStringInjective | src/main/java/com/simonepugliese/taxreportgui/controller/AddExpenseController.java:189-191 | different years give different strings |
| JavaStrings.IntToString | src/main/java/com/simonepugliese/taxreportgui/controller/AddExpenseController.java:190 | `String.valueOf(int)`: a minus sign for negative numbers, then the decimal digits without leading zeros |
| JavaStrings.ParseIntOfIntToString | src/main/java/com/simonepugliese/taxreportgui/controller/AddExpenseController.java:190 | parsing the string of any 32-bit int gives that int back |
| AddExpense.AttachmentItem.FromLocal | src/main/java/com/simonepugliese/taxreportgui/controller/AddExpenseController.java:53-57 | a local item wraps the file, and its name is the file's name; it is not downloading |
| AddExpense.AttachmentItem.FromDocument | src/main/java/com/simonepugliese/taxreportgui/controller/AddExpenseController.java:59-63 | a stored item wraps the document, and its name is the basename of the relative path (the cache key); it is not downloading |
| AddExpense.AddExpenseController.constructor | src/main/java/com/simonepugliese/taxreportgui/controller/AddExpenseController.java:33-44 | an empty form: no expense being edited, no person, year, date or items, empty description |
| AddExpense.OpenStep | src/main/java/com/simonepugliese/taxreportgui/controller/AddExpenseController.java:132-142 | a download starts iff the item is a stored document not already downloading, and the flag is set when it does; a click during a download is ignored; a local file opens on the desktop with the flag untouched |
| AddExpense.FinishStep | src/main/java/com/simonepugliese/taxreportgui/controller/AddExpenseController.java:151-165 | both completions clear the flag; success shows the file, failure shows the error |
| AddExpense.Step | src/main/java/com/simonepugliese/taxreportgui/controller/AddExpenseController.java:132-165 | one event on an item: a double click goes through OpenStep and counts a started download; a completion goes through FinishStep |
| AddExpense.Run | src/main/java/com/simonepugliese/taxreportgui/controller/AddExpenseController.java:132-165 | a sequence of events applied one after another |
| AddExpense.OpenAttachment | src/main/java/com/simonepugliese/taxreportgui/controller/AddExpenseController.java:132-167 | new flag and action are OpenStep of the old flag |
| AddExpense.OnDownloadFinished | src/main/java/com/simonepugliese/taxreportgui/controller/AddExpenseController.java:151-165 | new flag and shown outcome are FinishStep of the task's result |
| AddExpense.SingleFlightHolds | src/main/java/com/simonepugliese/taxreportgui/controller/AddExpenseController.java:138-165 | over any sequence of clicks and completions, an attachment item for a stored document has at most one download in flight, and its flag is set exactly while it has one |
| AddExpense.LocalNeverDownloads | src/main/java/com/simonepugliese/taxreportgui/controller/AddExpenseController.java:133-136 | events on a local item never start a download nor change the flag |
| AddExpense.RetryAfterFailure | src/main/java/com/simonepugliese/taxreportgui/controller/AddExpenseController.java:139-165 | a click during a download changes nothing; after a failure, the next click starts a new download |
| AddExpense.CollectYears | src/main/java/com/simonepugliese/taxreportgui/controller/AddExpenseController.java:184-196 | the list holds a year iff it is a database year or within three of the current year; it has no repeats and is in descending string order |
| AddExpense.YearRange | src/main/java/com/simonepugliese/taxreportgui/controller/AddExpenseController.java:188-191 | the seven strings of the current year -3 to +3 |
| AddExpense.AddExpenseController.LoadAvailableYears | src/main/java/com/simonepugliese/taxreportgui/controller/AddExpenseController.java:178-216 | the manager is initialised lazily first, and is ready afterwards iff it was or init did not fail early; on success the year box gets the CollectYears list and, for a new expense, the current year; on failure it gets just the current year (selected); the other form fields are unchanged |
| AddExpense.PartitionItems | src/main/java/com/simonepugliese/taxreportgui/controller/AddExpenseController.java:269-278 | new attachments are the local items' attachments in list order; surviving documents are the stored items' documents when editing, else none |
| AddExpense.AttachmentOf | src/main/java/com/simonepugliese/taxreportgui/controller/AddExpenseController.java:271 | the upload for a local item: its type, its name and its file |
| AddExpense.LocalAttachments | src/main/java/com/simonepugliese/taxreportgui/controller/AddExpenseController.java:269-272 | the attachments of the local items, in list order |
| AddExpense.ServerDocuments | src/main/java/com/simonepugliese/taxreportgui/controller/AddExpenseController.java:273-278 | the documents of the stored items, in list order |
| AddExpense.PartitionIsExact | src/main/java/com/simonepugliese/taxreportgui/controller/AddExpenseController.java:269-278 | every item lands in exactly one of the two lists |
| AddExpense.LocalAttachmentsExactly | src/main/java/com/simonepugliese/taxreportgui/controller/AddExpenseController.java:270-272 | an attachment is uploaded iff it is the attachment of some local item |
| AddExpense.BuildExpense | src/main/java/com/simonepugliese/taxreportgui/controller/AddExpenseController.java:279-286 | an edited expense keeps its id and state and carries the surviving documents; a new one has no id, state or documents; a missing date becomes "" |
| AddExpense.AddExpenseController.HandleSave | src/main/java/com/simonepugliese/taxreportgui/controller/AddExpenseController.java:262-287 | the manager is initialised lazily first; an init error aborts; no selected person registers nothing; otherwise the built expense is registered with the local uploads |
| Dashboard.Filtered | src/main/java/com/simonepugliese/taxreportgui/controller/DashboardController.java:96-100 | an expense is shown iff it is in the master list and Matches the selection; never more rows than the master list (the exact list, in order, is fixed by FilteredDistributes) |
| Dashboard.Matches | src/main/java/com/simonepugliese/taxreportgui/controller/DashboardController.java:96-100 | the predicate: the person set is empty or holds the person's id, and the category set is empty or holds the type |
| Dashboard.FilteredDistributes | src/main/java/com/simonepugliese/taxreportgui/controller/DashboardController.java:96-100 | filtering a concatenation is the concatenation of the filtered parts, and a one-row list is kept iff the row matches: the shown rows are exactly the matching rows, in master-list order, repetitions included |
| Dashboard.FilteredAppend | src/main/java/com/simonepugliese/taxreportgui/controller/DashboardController.java:96-100 | filtering a concatenation gives the filtered parts, concatenated |
| Dashboard.FilteredSingle | src/main/java/com/simonepugliese/taxreportgui/controller/DashboardController.java:96-100 | a one-row list is kept iff its row matches |
| Dashboard.NoSelectionShowsAll | src/main/java/com/simonepugliese/taxreportgui/controller/DashboardController.java:60-65 | with both sets empty the whole master list is shown, as with the initial predicate |
| Dashboard.CountCompleted | src/main/java/com/simonepugliese/taxreportgui/controller/DashboardController.java:117 | the completed count never exceeds the number of rows |
| Dashboard.ComputeStats | src/main/java/com/simonepugliese/taxreportgui/controller/DashboardController.java:114-118 | total is the filtered size; completed counts COMPLETED rows; partial is non-negative and completed + partial = total |
| Dashboard.NoPartialIffAllCompleted | src/main/java/com/simonepugliese/taxreportgui/controller/DashboardController.java:116-118 | nothing is left to complete iff every shown expense is COMPLETED |
| Dashboard.ButtonLabel | src/main/java/com/simonepugliese/taxreportgui/controller/DashboardController.java:107-108 | the caption is the bare base iff nothing is selected, else "base (n)" |
| Dashboard.ButtonLabelInjective | src/main/java/com/simonepugliese/taxreportgui/controller/DashboardController.java:107-108 | equal captions mean equal selection sizes |
| Dashboard.ButtonStyle | src/main/java/com/simonepugliese/taxreportgui/controller/DashboardController.java:110-111 | the highlight style is set iff something is selected |
| Dashboard.ApplyTogglesMembership | src/main/java/com/simonepugliese/taxreportgui/controller/DashboardController.java:145-153 | an id ends up selected iff its last toggle selected it, or it was never toggled and was selected before |
| Dashboard.MultiSelectBounded | src/main/java/com/simonepugliese/taxreportgui/controller/DashboardController.java:147-153 | the dialog adds only ids it lists |
| Dashboard.ApplyToggles | src/main/java/com/simonepugliese/taxreportgui/controller/DashboardController.java:145-153 | the dialog's working copy after the checkbox toggles: each toggle adds or removes its id |
| Dashboard.MultiSelect | src/main/java/com/simonepugliese/taxreportgui/controller/DashboardController.java:131-167 | a result exists iff "Applica" was pressed, and it is the toggled copy of the current selection |
| Dashboard.PersonIds | src/main/java/com/simonepugliese/taxreportgui/controller/DashboardController.java:69-72 | the dialog's items are the persons' ids, in order |
| Dashboard.TypeNames | src/main/java/com/simonepugliese/taxreportgui/controller/DashboardController.java:81-83 | the dialog's items are the category names, in order |
| Dashboard.CategoryNamesRoundTrip | src/main/java/com/simonepugliese/taxreportgui/controller/DashboardController.java:84-88 | mapping categories to names and back returns the same selection |
| Dashboard.CategoryNames | src/main/java/com/simonepugliese/taxreportgui/controller/DashboardController.java:84 | the names of the selected categories |
| Dashboard.CategoriesNamed | src/main/java/com/simonepugliese/taxreportgui/controller/DashboardController.java:86-88 | the categories with the given names |
| Dashboard.SeedYears | src/main/java/com/simonepugliese/taxreportgui/controller/DashboardController.java:221-224 | the year list is never empty; an empty list becomes the current year; otherwise it is unchanged |
| Dashboard.YearToLoad | src/main/java/com/simonepugliese/taxreportgui/controller/DashboardController.java:226-227 | the loaded year is in the list; it is the selected year when present, else the first one |
| Dashboard.RunLoadTask | src/main/java/com/simonepugliese/taxreportgui/controller/DashboardController.java:215-234 | the manager is initialised lazily first; an init error fails the task; otherwise it yields the seeded years, a loaded year in them (chosen by YearToLoad), that year's expenses and the persons |
| Dashboard.DashboardController.constructor | src/main/java/com/simonepugliese/taxreportgui/controller/DashboardController.java:41-49 | empty data and selections; not updating |
| Dashboard.DashboardController.ApplyFilters | src/main/java/com/simonepugliese/taxreportgui/controller/DashboardController.java:93-104 | captions, styles and statistics agree with the selection and the filtered rows; data and selections unchanged |
| Dashboard.DashboardController.FilterAll | src/main/java/com/simonepugliese/taxreportgui/controller/DashboardController.java:60-65 | both selections are emptied and every expense is shown; data, persons, year list, year and the update flag are unchanged |
| Dashboard.DashboardController.FilterPerson | src/main/java/com/simonepugliese/taxreportgui/controller/DashboardController.java:67-77 | on confirmation the person selection becomes the toggled copy and the view is refreshed, with categories, data, years and the update flag unchanged; on cancel nothing changes |
| Dashboard.DashboardController.FilterCategory | src/main/java/com/simonepugliese/taxreportgui/controller/DashboardController.java:79-91 | on confirmation the categories become those named by the toggled copy of the names, with persons, data, years and the update flag unchanged; on cancel nothing changes |
| Dashboard.DashboardController.RequestLoad | src/main/java/com/simonepugliese/taxreportgui/controller/DashboardController.java:208-211 | a load is refused iff an update is in progress; an accepted one carries the chosen year |
| Dashboard.DashboardController.OnLoadSucceeded | src/main/java/com/simonepugliese/taxreportgui/controller/DashboardController.java:237-259 | the nested load is refused; years, loaded year, persons and data are installed; the view agrees with them; the flag is clear afterwards |
| Startup.FileSystem.Delete | src/main/java/com/simonepugliese/taxreportgui/HelloApplication.java:41 | deletion succeeds iff the path exists, is deletable and has nothing below it, and removes just that path |
| Startup.FileSystem.constructor | src/main/java/com/simonepugliese/taxreportgui/HelloApplication.java:33-48 | a file system holding the given paths, with the given undeletable ones |
| Startup.DescendantSortsAfter | src/main/java/com/simonepugliese/taxreportgui/HelloApplication.java:38-39 | a path below a directory sorts after it in path order |
| Startup.DescendantsComeFirst | src/main/java/com/simonepugliese/taxreportgui/HelloApplication.java:38-41 | in the reverse-sorted walk every descendant precedes its ancestor |
| Startup.RootComesLast | src/main/java/com/simonepugliese/taxreportgui/HelloApplication.java:38-41 | the cache root is the last path tried |
| Startup.DeleteStep | src/main/java/com/simonepugliese/taxreportgui/HelloApplication.java:41 | each single delete of the sweep succeeds iff the whole sweep is meant to remove that path |
| Startup.CleanCache | src/main/java/com/simonepugliese/taxreportgui/HelloApplication.java:33-48 | no root: nothing changes; a failing walk is swallowed and nothing changes; otherwise it tries every walked path, descendants first and root last, and removes exactly the walked paths that are deletable with nothing undeletable below them |
| Startup.SweepIsIdempotent | src/main/java/com/simonepugliese/taxreportgui/HelloApplication.java:38-41 | a second sweep right after the first removes nothing more |
| Startup.OnePinnedPathKeepsItsAncestors | src/main/java/com/simonepugliese/taxreportgui/HelloApplication.java:41 | when one walked path cannot be deleted, everything else is removed except that path's ancestors |
| Startup.Start | src/main/java/com/simonepugliese/taxreportgui/HelloApplication.java:18-26 | the sweep runs first and the main view is loaded after it, whatever the sweep did; no cache directory or a failing walk leaves the file system as it was; a completed sweep removes exactly the removable walked paths |

## Left out

- Threading. The `Task`s, `new Thread` and `Platform.runLater` become
  sequential calls. A background task's result is passed to its handler as an
  argument. Interleavings of two load tasks, or of a download with a
  deletion, are not modelled.
- JavaFX rendering is not modelled: cell factories, list refreshes,
  placeholders, progress indicators, alerts, the pie chart, the statistic
  label texts, view switching and FXML loading. `Startup.Start` only records
  that the main view is loaded after the sweep.
- `Desktop.open` is reduced to the `OpenOnDesktop` action. Its IO failure is
  only printed.
- Some members of the collaborators are taken as given:
  `TaxReportService.registerExpense`, `runComplianceCheck` and
  `getAllPersons`, the MariaDB and SMB clients' own failures, and their
  constructors (taken never to throw). `HandleSave` ends at the hand-over to
  `registerExpense`. `handleRefresh` and `handleEdit` are not part of this
  model.
- AddExpense.AddExpenseController.HandleSave: opening the `FileInputStream`
  of a local attachment is taken to succeed. An attachment records the
  file's path instead of the stream.
- The clock and the date picker are parameters: the current year, and a date
  already formatted as dd/MM/yyyy.
- `setEditingExpense`, `handleBrowseFiles`, `loadPersons` and
  `handlePersonSelection` only copy values into the form. Their item creation
  is covered by the two `AttachmentItem` constructors.
- AddExpense.SingleFlightHolds: the guard is per attachment item, not per
  document or cache file. Editing the same expense again builds new items
  while an old form's download may still run, and two documents with the same
  basename get separate items; in both cases two downloads can write the same
  cached file at once. The model proves single flight for one item only.
- Only Unix paths are modelled: '/' separators, with `java.io.File` and
  `java.nio.file.Path` normalisation as on Unix. Windows drive prefixes and
  '\' separators are left out.
- `UnixPath.compareTo` compares the UTF-8 bytes of the paths; the model
  compares characters. UTF-8 byte order is code-point order, so the two agree
  on every path that is valid Unicode.
- JavaStrings.Less: `String.compareTo` compares UTF-16 code units, while
  Dafny orders characters by scalar value. The two orders differ when a
  supplementary character (above U+FFFF, two surrogate code units) is compared
  with a character from U+E000 to U+FFFF. Year strings are plain digits, so
  the year list is not affected.
- SmartCache.IsHit: a document whose path normalises to "" (or to "/") has
  the basename "". Its basename can also be "." or "..", as for the paths
  "a/." or "2024/..".
  Java resolves these names to the cache directory itself or to the temporary
  directory. Both exist and usually have a non-zero length, so Java serves
  the directory as a cache hit without asking the share. The model treats "",
  "." and ".." as ordinary cache entries: a miss, a download and an entry
  under that name.
- SmartCache.Resolve: the local file system fails only when the cache
  directory is missing. In Java, `new FileOutputStream` also throws when the
  cached file exists but cannot be written (a permission error, say), and
  `transferTo` throws when a local write fails part-way (a full disk, say).
  A failure part-way leaves a truncated file, which the next call serves as a
  hit, as `SmartCache.BrokenTransferBecomesHit` shows for a broken remote
  read.
- SmartCache.ServiceManager.DownloadDocument: it behaves as
  `SmartCache.Resolve` after the lazy init, so it has the same two gaps: no
  local write failures, and "", "." and ".." treated as ordinary entries.
- JavaStrings.ParseInt: accepts an optional sign followed by ASCII digits
  only. `Integer.parseInt` also accepts non-ASCII Unicode digits, which the
  model does not.
- Dashboard.RunLoadTask: when the database answers with an empty year list,
  Java adds the current year to that list in place. A read-only list would
  throw there, and the model does not represent that. The model returns a new
  list.
- The nested load in `Dashboard.DashboardController.OnLoadSucceeded` assumes
  that the view file wires the year box's action to `loadData`. That wiring
  is not part of this model.
- Dashboard.DashboardController.constructor: the initial caption texts come
  from the view file and are not modelled.
- Startup.CleanCache: a walk that throws is modelled as throwing before any
  deletion, because the sort reads the whole walk first. A delete that throws
  a `SecurityException` part-way, which would end the sweep early, is not
  modelled. Per-path failures are modelled only as `File.delete` returning
  false.
- The source writes a downloaded file directly to its final path, sweeps the
  whole cache at start-up, and keys the cache by basename. The model follows
  it: it has no temporary-file rename, no age-based expiry and no
  per-document key.
- Logging to standard output and standard error is left out.
