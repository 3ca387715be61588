# ViewMyRecords migration pipeline — a Dafny model of its deterministic core

This project models the browser-independent logic of the HR-document migration scripts.
It covers four areas:

- **Path derivation.**
  - `resolve_target_path` of the three migration engines. Breadcrumb levels are bound to
    configured names, regex rewrites are applied, the `{{Name}}` template is rendered and
    forbidden characters are stripped.
  - The restructuring rule that re-roots a path at its first `HR` folder.
  - `split_manifest_path` of the indexing pass.
  - The patent-journal folder of `generate_ipo_path`.
  - The crawler's local-folder and sidecar naming.
- **The resumable ledger.**
  - Key sets loaded from JSONL manifests.
  - De-duplication at discovery.
  - The todo list and its batches.
  - The optimized engine's "Success-only" migrated set.
  - The append-only manifests.
- **ZIP-wrapper repair.**
  - Detection by the local file header signature `PK\x03\x04` (section 4.3.7 of PKWARE's
    APPNOTE.TXT, the .ZIP File Format Specification).
  - The best-member rule.
  - Spilling every member of an archive into its folder.
  - Both are modelled over an abstract folder: a map from file names to bytes, and a map
    from sub-folder names to the files each sub-folder holds.
- **Small decision rules.**
  - Grid-entry classification and the recursive crawl order.
  - The form-filling plan built from the classification and category tables.
  - The success/fail/skip tally.
  - The integer part of the progress bar.
  - The 14-column CSV row and the version-2 manifest.

Environment-dependent behaviour is passed in as function parameters:

- the regular-expression engine (`re.sub`, `re.match`);
- `strptime`;
- `os.path.normpath` and `os.path.join`;
- `zipfile.is_zipfile` and archive extraction;
- `Path.parts`;
- the outcome of every browser interaction.

The loaders read a JSONL file as `Option<seq<Line>>`: `None` is a missing file, and each
line is blank, malformed or a parsed JSON value. The writers work on `Ledger.Jsonl`, the
lines together with whether the text ends with a line break, because an append continues
a last line that a crash cut short. Python's truthiness, hashability, `dict.get`, `str.strip`,
`str.replace` and `str.split` are written out, and so are the `KeyError`/`TypeError` exits
that end a run. Each module follows one script:

| module | script |
|---|---|
| `PathResolver` | `resolve_target_path` (all three engines) |
| `Ledger` | `load_set_from_jsonl`, `load_migration_state`, the append-only writers |
| `Breadcrumbs` | the virtual seven-level hierarchy |
| `FullEngine` | full_migration_engine.py |
| `OptimizedEngine` | full_migration_engine_optimized.py |
| `ProductionEngine` | production_migration_engine.py |
| `Restructure` | restructure_migration.py |
| `Indexing` | indexing.py |
| `Crawler` | production_migration_engine_new.py |
| `Unzip` | final_unzip_fix.py and fix_vmr_data.py |
| `Ipo` | ipo_automation.py |

`Wrappers`, `Seqs`, `Text` and `Json` hold the shared vocabulary.

Every operation is a pure function of its inputs. It follows that `resolve_target_path` is
deterministic: the same breadcrumb, file name and configuration give the same path.

## Model

| member | source | states |
|---|---|---|
| PathResolver.BindLevels | full_migration_engine.py:44-51 | binding the first n level names gives a context whose keys are exactly those names, each holding the value of its last binding |
| PathResolver.BoundValueAtLastOccurrence | full_migration_engine.py:47-51 | level name i gets breadcrumb entry i when the breadcrumb is long enough, otherwise "Unknown" |
| PathResolver.BoundValueFromConfiguredLevels | full_migration_engine.py:47-51 | a bound value always comes from a configured level position, so breadcrumb entries past the configured names are never bound |
| PathResolver.BuildContext | full_migration_engine.py:39-53 | the keys are the level names plus "FileName"; "FileName" holds the file name even when a level has that name |
| PathResolver.Assign | full_migration_engine.py:53 | dict assignment: the key ends up bound to the value, every other key is unchanged, and an existing key keeps its position |
| PathResolver.ApplyRewrite | full_migration_engine.py:64-74 | a rewrite touches only a field present in the context; success stores the stripped result, failure leaves the value; the key set never changes |
| PathResolver.ApplyRewrites | full_migration_engine.py:63-74 | fields no rule names keep their values; the key set is preserved |
| PathResolver.FailingRewritesKeepContext | full_migration_engine.py:70-74 | when every rewrite raises, resolution continues with the context unchanged |
| PathResolver.RenderKeepsUnknownPlaceholder | full_migration_engine.py:77-81 | a placeholder whose key is not in the context survives rendering verbatim |
| PathResolver.UnknownPlaceholderSurvives | full_migration_engine.py:30-86 | a template placeholder for a name that is neither a level nor "FileName" appears in the resolved path |
| PathResolver.RenderWithoutPlaceholders | full_migration_engine.py:77-81 | a template without `{` renders to itself whatever the context |
| PathResolver.RenderBindsPlaceholders | full_migration_engine.py:77-81 | for a template of `{`-free literal text and placeholders of brace-free keys, and a context of brace-free keys and `{`-free values, rendering turns each placeholder of a key in the context into that key's value and leaves every other piece as written, whatever the order of the context |
| PathResolver.RenderLeavesNoKnownPlaceholder | full_migration_engine.py:77-81 | for such templates and contexts, no placeholder of a key in the context is left after rendering |
| PathResolver.RenderOnePlaceholder | full_migration_engine.py:77-81 | a template that is a single known placeholder renders to the key's value |
| PathResolver.Sanitize | full_migration_engine.py:84 | the result contains no forbidden character and only characters of the input |
| PathResolver.SanitizeIsFilter | full_migration_engine.py:84 | the replace chain deletes exactly the forbidden characters and keeps all others in order |
| PathResolver.Resolve | full_migration_engine.py:30-84 | the pre-normpath path contains no forbidden character, including ones from literal template text |
| PathResolver.ResolveFull | full_migration_engine_optimized.py:61-94 | the full and optimized engines strip `: * ? " < > \|`; a normpath that adds none of them keeps the path free of them |
| PathResolver.ResolveProduction | production_migration_engine.py:268-290 | the production engine strips only `:`, `*` and `?` before normpath |
| Ledger.LineKey | production_migration_engine.py:40-47 | a line yields a key only when it parses, is an object, and its field is truthy and hashable; in the optimized engine only a "Success" entry yields its original_filename |
| Ledger.CollectMembership | production_migration_engine.py:33-51 | a value is loaded exactly when some line yields it as its key |
| Ledger.SkippedLinesChangeNothing | full_migration_engine_optimized.py:40-48 | blank and malformed lines add nothing to the loaded set, wherever they appear |
| Ledger.LoadSet | production_migration_engine.py:33-51 | a missing file gives the empty set; otherwise the loop collects exactly the keys of the lines |
| Ledger.Append | production_migration_engine.py:29-31 | the file keeps every line the write does not continue and gains one line, which reads back as the record exactly when the file ended a line or its cut-off tail was blank; the text then ends with a line break |
| Ledger.AppendThenCollect | full_migration_engine_optimized.py:127-130 | reloading after an append gives the kept lines' keys plus the key of the line the record became; after a file that ended a line, the old set plus the record's key |
| Ledger.Swallowed | production_migration_engine.py:29-31 | the next record is lost exactly when the file ends in a cut-off line that is not blank |
| Ledger.AppendAllLines | production_migration_engine.py:29-31 | after a run of appends the file holds its kept lines, the line the first record became, and one line per later record |
| Ledger.AppendAllThenCollect | production_migration_engine.py:29-51 | reloading after a run of appends gives the kept lines' keys plus the keys of every record except a swallowed first one |
| Ledger.RecordsCollect | production_migration_engine.py:33-51 | a key is loaded from records on lines of their own exactly when one of them yields it |
| Ledger.AppendAfterCutLineLosesRecord | production_migration_engine.py:29-31 | as written, a record appended after a non-blank cut-off line is lost on reload, together with that line |
| Ledger.CutLineDropsNextRecord | production_migration_engine.py:29-31 | a queue whose last line was cut off loses the next job's URL on reload; with the corrected writer the URL is reloaded |
| Ledger.AppendOnNewLine | production_migration_engine.py:29-31 | the corrected writer keeps every line and puts the record on a line of its own |
| Ledger.AppendOnNewLineThenCollect | production_migration_engine.py:29-51 | with the corrected writer, reloading gives the old set plus the record's key, whatever the file ended with |
| Breadcrumbs.FromAttributes | full_migration_engine.py:178-189 | an absent or empty attribute takes its default (DefaultGroup, HR, Active, 2023, UnknownUser); others are kept |
| Breadcrumbs.VirtualEmployee | production_migration_engine.py:148-151 | " ( 9999 )" is appended exactly when the label contains no `(` |
| Breadcrumbs.VirtualEmployeeIdempotent | production_migration_engine.py:148-151 | applying the dummy ID twice is the same as applying it once |
| Breadcrumbs.WebHierarchy | production_migration_engine.py:153-161 | the hierarchy has seven elements, "11_nov" at index 4 and "Docs" at index 6 |
| Breadcrumbs.EveryLevelBound | full_migration_engine.py:47-51 | with at most seven distinct level names, each is bound to its hierarchy element |
| FullEngine.StatusText | full_migration_engine.py:219-231 | the status is "Success" exactly for a saved download, "Skipped (No Link)" without a link, and "Failed: …" on an error |
| FullEngine.Entry | full_migration_engine.py:234-248 | the entry records the stripped file name and is a "Success" entry exactly when the file was saved |
| FullEngine.LogManifest | full_migration_engine.py:135-145 | the stored list gets the entry appended at its end; a missing or unreadable file becomes `[entry]`; a non-list raises |
| FullEngine.RunAppendsEveryEntry | full_migration_engine.py:164-248 | after a run the manifest is the prior list followed by one entry per card, in card order |
| FullEngine.UnreadableManifestIsReplaced | full_migration_engine.py:138-142 | an unreadable manifest is replaced by the entries of this run |
| FullEngine.NonListManifestStopsRun | full_migration_engine.py:143 | a stored manifest that is not a list makes the first append raise, leaving the file as it was |
| OptimizedEngine.Step | full_migration_engine_optimized.py:152-217 | an already-migrated name is skipped without an entry; otherwise one entry is appended and the set grows by the name exactly when the status is "Success" |
| OptimizedEngine.StepKeepsStateInSync | full_migration_engine_optimized.py:30-56 | on a manifest that ends a line, the in-memory migrated set stays equal to what reloading the manifest would give, and the manifest still ends a line |
| OptimizedEngine.CutManifestLosesEntry | full_migration_engine_optimized.py:127-130 | as written, after a non-blank cut-off last line the next entry is lost on reload although a saved card joins the in-memory set |
| OptimizedEngine.RunKeepsStateInSync | full_migration_engine_optimized.py:135-217 | the same holds after a whole run |
| OptimizedEngine.RunRecordsSaved | full_migration_engine_optimized.py:216-217 | the migrated set only grows, and contains every card saved during the run |
| OptimizedEngine.RunOnlyAppends | full_migration_engine_optimized.py:127-130 | the manifest never shrinks and keeps every line a write does not continue; on a manifest that ends a line, every earlier line stays as a prefix |
| OptimizedEngine.RerunAfterSuccessIsNoOp | full_migration_engine_optimized.py:157-159 | when every card is already migrated, a run changes nothing |
| ProductionEngine.Discover | production_migration_engine.py:80-122 | no appended job carries a URL already queued |
| ProductionEngine.DiscoverSound | production_migration_engine.py:80-122 | every appended job comes from a linked card, in card order: its URL is the card's link, its file name the card's stripped text, and its context the card's breadcrumb attributes |
| ProductionEngine.DiscoverDistinct | production_migration_engine.py:97-122 | the jobs appended in one run have pairwise distinct URLs |
| ProductionEngine.DiscoverComplete | production_migration_engine.py:80-122 | after discovery every linked card's URL is queued |
| ProductionEngine.DiscoveredJobsReload | production_migration_engine.py:29-51 | reloading a queue that ended a line after discovery yields the old URL set plus every new job's URL; after a cut-off last line, the kept lines' URLs plus those of every new job except a swallowed first one |
| ProductionEngine.RediscoveryAddsNothing | production_migration_engine.py:97-98 | discovering the same page again appends no job |
| ProductionEngine.LoadQueue | production_migration_engine.py:234-240 | a missing queue is empty; otherwise any malformed line raises, and its index is reported |
| ProductionEngine.Todo | production_migration_engine.py:243 | the todo list exists exactly when every item has a hashable `source_url`, and then holds the not-done items in queue order |
| ProductionEngine.TodoIsPendingQueue | production_migration_engine.py:243 | an item is in the todo list exactly when its URL is not done; the list is a subsequence of the queue |
| ProductionEngine.Batches | production_migration_engine.py:254-258 | the batches concatenate back to the todo list; each is non-empty, at most the batch size, and every batch but the last is full |
| ProductionEngine.ParseJob | production_migration_engine.py:140-157 | a job is read exactly when it has a text file name, an object context with the five breadcrumb fields as text, and a `source_url`; the job carries those values |
| ProductionEngine.ParseJobJson | production_migration_engine.py:108-119 | a job written by discovery is read back by execution as the same job |
| ProductionEngine.ProcessJob | production_migration_engine.py:138-223 | a job yields an entry unless the exception handler itself fails on `job['filename']` |
| ProductionEngine.JobEntry | production_migration_engine.py:194-210 | the entry carries the job's `source_url`; the status is "Success" or "Failed (Link Not Found)" |
| ProductionEngine.FailEntry | production_migration_engine.py:219-223 | an exception entry has no `source_url` |
| ProductionEngine.StepsAppendCrash | production_migration_engine.py:138-223 | once a job's error escapes the loop, no later job is processed |
| ProductionEngine.StepsAppendOk | production_migration_engine.py:138-223 | without an escaping error, the entries of two stretches of jobs are those of the whole, in order |
| ProductionEngine.StepsSpec | production_migration_engine.py:133-223 | entry i is item i's result, and the run stops early only at an item whose step fails, with that failure |
| ProductionEngine.ProcessAll | production_migration_engine.py:133-223 | entry i is job i's entry, and the run stops early only at a job whose error escapes the handler |
| ProductionEngine.ProcessBatches | production_migration_engine.py:254-258 | processing batch after batch equals processing the todo list in one pass |
| ProductionEngine.RunExecution | production_migration_engine.py:227-258 | execution succeeds exactly when the queue loads and the todo list can be formed; it then processes the todo list in order |
| ProductionEngine.NextDoneSet | production_migration_engine.py:203-231 | on a manifest that ends a line, the next run's done set adds exactly the truthy URLs of jobs that did not raise ("Failed (Link Not Found)" counts as done, an exception is retried); after a cut-off last line it is the kept lines' URLs plus those of every such job except a swallowed first entry |
| Restructure.ParseEntry | restructure_migration.py:45-57 | an entry is read exactly when it is an object with `filename`, `metadata` and a text `path`; the file name may be of any kind; the three values are carried over |
| Restructure.TrimToHR | restructure_migration.py:59-67 | there is no result exactly when there is no "HR" component; otherwise the result starts at the first "HR" |
| Restructure.IsSkippedIff | restructure_migration.py:73-85 | a component is skipped exactly when it is the file name, when stripped and lowered it equals the lowered form of a configured folder name, or a non-empty skip regex matches it |
| Restructure.KeptParts | restructure_migration.py:70-88 | no kept part is the file name, skip-listed or matched by the skip regex, and every other part is kept |
| Restructure.KeptPartsInOrder | restructure_migration.py:70-90 | the kept parts are an order-preserving subsequence of the trimmed path |
| Restructure.RestructureEntry | restructure_migration.py:59-118 | a restructured entry's new path starts with the target root and ends with the file name, which is text; the file name, old path and metadata are carried over |
| Restructure.RestructureEntryKeptIff | restructure_migration.py:59-118 | an entry without an "HR" component is dropped whatever its file name; with one it raises exactly when the file name is not text, and is otherwise kept exactly when, outside a dry run, its source exists; the new parts are the root, the kept folders and the file name |
| Restructure.RestructureAll | restructure_migration.py:44-118 | the run succeeds exactly when no entry raises, and outputs at most one item per entry |
| Restructure.Gather | restructure_migration.py:44-118 | the entry loop for any loop body: it succeeds exactly when no step raises, with at most one item per entry |
| Restructure.GatherOutputs | restructure_migration.py:44-118 | a successful loop outputs every item a step produced, and nothing a step did not produce |
| Restructure.RestructureAllOutputs | restructure_migration.py:44-118 | every entry that is restructured appears in the output, and every output item is the restructuring of some entry |
| Restructure.DryRunKeepsEveryHREntry | restructure_migration.py:97-118 | in a dry run the output has exactly one entry per HR-bearing input entry |
| Restructure.CsvRow | restructure_migration.py:121-147 | a row has exactly the 14 header keys; "File Name" is the file name and an absent metadata key is "" |
| Restructure.HeadersAreDistinct | restructure_migration.py:121-126 | the 14 headers are distinct and "File Name" comes first |
| Restructure.CsvRows | restructure_migration.py:128-147 | one row per restructured entry, in order; a non-object metadata raises |
| Restructure.ManifestV2 | restructure_migration.py:161-167 | `total_files` is the number of restructured entries; `files` lists them in order with version "2.0" |
| Indexing.Filled | indexing.py:65-68 | for 0 ≤ current ≤ total the filled width lies in [0, length], and equals length when current == total |
| Indexing.FilledMonotone | indexing.py:65-68 | more progress never fills fewer cells |
| Indexing.Bar | indexing.py:65-67 | the bar has exactly `length` cells, and a cell is full exactly when it lies below the filled width |
| Indexing.SplitManifestPath | indexing.py:621-638 | only a leading technical folder is dropped; otherwise the folders plus the file name give back the parts, and empty parts give ([], "") |
| Indexing.SplitKeepsOtherFolders | indexing.py:626-638 | a path not starting with a technical folder splits into its folders and its last component |
| Indexing.Translate | indexing.py:464-472 | a value is translated exactly when it is a non-empty string key of the table; a truthy unhashable value raises |
| Indexing.TextActions | indexing.py:510-517 | exactly the text fields with truthy values are filled, with their own selectors |
| Indexing.Plan | indexing.py:458-535 | the plan raises exactly when the metadata is not an object or a truthy classification or category is unhashable |
| Indexing.ClassificationPlanned | indexing.py:464-472 | the classification is chosen exactly when the value is a key of the classification table, using the mapped code |
| Indexing.CategoryPlanned | indexing.py:529-535 | the category is chosen exactly when the value is a key of the category table, using the mapped code |
| Indexing.SubtypeFallsBack | indexing.py:475 | the sub-type is "Document Sub Type", falling back to "Document SubType Internal" |
| Indexing.TextFieldFilledIff | indexing.py:510-517 | text field i is filled exactly when its value is truthy |
| Indexing.FillMetadata | indexing.py:458-590 | filling raises exactly when the plan does, and returns without saving exactly when no change was accepted |
| Indexing.NothingToFillSucceeds | indexing.py:539-586 | empty metadata succeeds without a save |
| Indexing.ManifestPath | indexing.py:727 | the path is `new_path`, else `path`, else `old_path`, by truthiness |
| Indexing.Process | indexing.py:737-744 | an entry that passed the skip test raises exactly when its manifest path is not text, and is otherwise counted as migrated or failed, never skipped |
| Indexing.ClassifyAsWritten | indexing.py:724-744 | as written, an entry is skipped exactly when it is an object whose file name is a string or list (so it can be sliced) and whose file name or metadata is falsy |
| Indexing.Classify | indexing.py:724-744 | with the skip test first, an entry is skipped exactly when it is an object whose file name or metadata is falsy; it differs from the as-written step only by skipping a file name that cannot be sliced |
| Indexing.Tally | indexing.py:720-744 | a completed loop's three counters add up to the number of files; a failure is the error of one of the entries |
| Indexing.TallyCompletesIff | indexing.py:720-744 | the loop completes exactly when no entry raises |
| Indexing.TallyCountsEveryEntry | indexing.py:724-744 | each counter equals the number of entries with that verdict |
| Indexing.CorrectedTallyCompletes | indexing.py:724-744 | with the skip test first, a manifest of objects with string paths is tallied completely |
| Crawler.GridItems | production_migration_engine_new.py:143-166 | folder and file labels are non-empty and never navigation entries |
| Crawler.GridItemsIsTwoFilters | production_migration_engine_new.py:150-162 | folders are the listed spans whose onclick opens a folder, files are the other listed spans, both in listing order |
| Crawler.OpensFolderIff | production_migration_engine_new.py:157-159 | a span opens a folder exactly when its onclick (or "") contains "getFolderandFileList" |
| Crawler.FileVisits | production_migration_engine_new.py:547-559 | every listed file except the three pseudo-files is visited in the current folder, and nothing else |
| Crawler.FileVisitsFollowListing | production_migration_engine_new.py:547-559 | attempt i is for the i-th listed file that is not a pseudo-file, with one attempt per such file |
| Crawler.CrawlStaysBelow | production_migration_engine_new.py:531-595 | every visit lies at or below the starting path and never targets a pseudo-file |
| Crawler.FilesBeforeSubfolders | production_migration_engine_new.py:547-576 | a folder's files are visited before any of its sub-folders |
| Crawler.SubfoldersInListingOrder | production_migration_engine_new.py:562-576 | sub-folders are crawled in listing order |
| Crawler.LocalFolder | production_migration_engine_new.py:543 | the local folder is the output base followed by the breadcrumb without its first element |
| Crawler.CleanMetadata | production_migration_engine_new.py:394-400 | exactly the Locator values are removed and every other value is kept unchanged |
| Crawler.CleanMetadataIdempotent | production_migration_engine_new.py:394-400 | cleaning cleaned metadata changes nothing |
| Crawler.SidecarName | production_migration_engine_new.py:508-511 | the name is the folder path with every separator turned into "_", then "_", the file name and ".json" |
| Crawler.SidecarNameRepeatsFileName | production_migration_engine_new.py:507-556 | at the call site the path passed is the relative path of the file itself, so the name is the flattened breadcrumb below the root, the file name twice joined by "_", and ".json" |
| Crawler.SidecarFlattensPath | production_migration_engine_new.py:508-510 | no separator survives in the flattened part of the name |
| Crawler.Sidecar | production_migration_engine_new.py:507-512 | a sidecar is written exactly when the cleaned metadata is non-empty |
| Crawler.BestByName | production_migration_engine_new.py:481-487 | the first member named like the file, else the first member |
| Crawler.Unwrap | production_migration_engine_new.py:462-505 | a non-ZIP download is kept; for a ZIP the temp folder is always removed; the download fails exactly when extraction raises, and then the saved archive stays at the file path; an empty archive stays too, and otherwise the best member replaces it |
| Crawler.Record | production_migration_engine_new.py:514-524 | the record has status "success", the file name and the cleaned metadata |
| Unzip.FirstWhere | final_unzip_fix.py:39-48 | the first member satisfying the test, or none exactly when no member does |
| Unzip.BestForWrapper | final_unzip_fix.py:39-48 | the first member named like the wrapper, else the first `.pdf`, else the first member |
| Unzip.CleanZipWrapper | final_unzip_fix.py:7-61 | a non-ZIP file and an empty or invalid archive leave the folder's files untouched; otherwise the file holds the chosen member's bytes; the temp folder is removed on every path |
| Unzip.ScanLeavesJsonUntouched | final_unzip_fix.py:63-68 | the set of files is kept, `.json` files are never changed, no extraction folder of a scanned file is left, and no sub-folder appears or changes |
| Unzip.MoveOne | fix_vmr_data.py:29-31 | a member named like a sub-folder goes inside it, and the move raises exactly when that sub-folder already holds the name; otherwise the member becomes a file of the folder, replacing one of that name |
| Unzip.MoveAll | fix_vmr_data.py:27-32 | at most every member is moved; the sub-folders stay the same and no file disappears |
| Unzip.MoveAllStopsAtClash | fix_vmr_data.py:28-32 | the moves stop exactly at the first member whose sub-folder already holds its name or received it from an earlier member |
| Unzip.MoveAllLastWins | fix_vmr_data.py:27-32 | among the moved members, a name that is no sub-folder holds the bytes of the last member with that name, a sub-folder holds the member that went inside it, every new file comes from a member, and names no moved member uses keep their contents |
| Unzip.ExtractZipAsWritten | fix_vmr_data.py:7-41 | as written, an unreadable archive leaves the new extraction folder behind, and on every path the extraction folder is either removed or left behind while other sub-folders stay |
| Unzip.MemberNamedLikeFolderGoesInside | fix_vmr_data.py:29-31 | a member named `scan` beside a sub-folder `scan` ends up as `scan/scan`, not as a file |
| Unzip.MoveClashLeavesTempFolder | fix_vmr_data.py:28-41 | as written, a member that cannot be moved ends the extraction with the earlier members moved and both the archive and the extraction folder left |
| Unzip.EmptyZipRemovesTempFolder | fix_vmr_data.py:21-24 | as written, an empty archive leaves the files as they were and removes only its extraction folder |
| Unzip.ExtractZipAsWrittenSpills | fix_vmr_data.py:27-36 | as written, when the archive has members and no move raises, every member is moved, then the archive and the extraction folder are removed |
| Unzip.ExtractZipAsWrittenLands | fix_vmr_data.py:27-36 | as written, in that case a member named like no sub-folder lands with the bytes of the last member of its name, a member named like a sub-folder lands inside it, and files no member names are unchanged |
| Unzip.ExtractZip | fix_vmr_data.py:7-41 | corrected: the extraction folder is always removed and no other sub-folder is touched; an invalid or empty archive leaves the files untouched |
| Unzip.ExtractZipSpillsEveryMember | fix_vmr_data.py:27-36 | corrected: when no move raises, every member lands with the bytes of the last member of its name (inside the sub-folder of that name if there is one), the archive is gone exactly when no member took its name, and other files are untouched; when a move raises, the archive stays |
| Unzip.ScanAndFixZips | fix_vmr_data.py:73-80 | a scan adds no sub-folder other than extraction folders of the listed files |
| Unzip.NoZipNoChange | fix_vmr_data.py:73-80 | when no listed file is a ZIP, the folder is unchanged |
| Ipo.JournalId | ipo_automation.py:14 | the journal number is accepted exactly when it splits on "/" into two fields, and the id is the first |
| Ipo.PartFolder | ipo_automation.py:24 | the part folder is the stripped name with each space replaced by "_", so it has no spaces |
| Ipo.YearMonth | ipo_automation.py:17-18 | the year text, "_" and the English month name |
| Ipo.IpoPath | ipo_automation.py:8-27 | the path exists exactly when the journal number has two fields and the date parses, and is base / year_month / Journal_id / part folder |
| Ipo.YearFieldIsIgnored | ipo_automation.py:14-21 | the field after "/" does not affect the path |
| Ipo.SaveName | ipo_automation.py:90 | the save name has no spaces and ends in ".pdf" |
| Ipo.SaveNameMatchesFolder | ipo_automation.py:73-90 | a stripped part name is saved under its folder's name plus ".pdf" |
| Ipo.RowTargets | ipo_automation.py:72-91 | a row raises exactly when some non-blank part's path fails; otherwise it has one target per non-blank part, in order, each the part's folder and save name |
| Ipo.PartTargets | ipo_automation.py:72-91 | the part loop for any path step: it raises exactly when the step raises on some non-blank part |
| Ipo.PartTargetsFollowParts | ipo_automation.py:72-91 | a completed part loop has one target per non-blank part, in order, each the step's value for that part |
| Ipo.InFirstFive | ipo_automation.py:58 | a target of the first five rows' targets is a target of one of those rows, and conversely |
| Ipo.Targets | ipo_automation.py:58-108 | a save is attempted for a target exactly when it belongs to one of the first five rows and that row did not raise |
| Ipo.SavedFiles | ipo_automation.py:81-99 | given the outcome of each save attempt, a file is saved exactly when it is the target of a first-five row that did not raise and its attempt succeeded; a failed attempt does not stop the row |
| Ipo.BadJournalNumberSkipsRow | ipo_automation.py:72-78 | a row with a bad journal number and a non-empty part raises and saves nothing |
| Ipo.OnlyFirstFiveRows | ipo_automation.py:58 | rows after the fifth are never looked at |

## Left out

- Playwright and DOM interaction: login, pop-ups, selector fallbacks, navigation, panel scraping, clicks and `go_back`. A browser outcome is an input of the model. `Crawl` takes every navigation to succeed; the `except`/`break` recovery of production_migration_engine_new.py:560-595 is not modelled.
- Regular expressions, `strptime`, `os.path.normpath`, `os.path.join`, `os.path.relpath`, `Path.parts`, `zipfile.is_zipfile` and archive extraction are parameters. They have no Dafny definition here.
- `str.lower` is modelled for ASCII letters only.
- JSON floats are not modelled: the pipeline writes none, so a float read back (whose `0.0` is falsy) has no case in the `Json` datatype.
- Python's `1 == True` set quirk is not modelled: keys are compared as JSON values.
- Job fields that are not strings (a list as `raw_employee`, say) are taken to raise. Python would sometimes carry on with them.
- The `rule["pattern"]` lookup of the full engines raises `KeyError` on a malformed rule. The model's rules always carry both fields.
- Form-metadata scraping and every timestamp (`download_timestamp`, `processed_at`, `restructured_at`, the manifest's `timestamp`) are not modelled; the manifest timestamp is an input.
- An I/O error part-way through a JSONL file is not modelled: a file is either missing or fully read.
- The float percentage printed by `progress_bar` is left out; only the integer fill is modelled.
- `fix_nesting` in fix_vmr_data.py is left out: its merge depends on platform-specific `shutil.move` behaviour.
- The output ZIP creation and the timestamped manifest of `run_migration` are left out.
- Random delays, retries, timeouts and browser-context restarts are left out.
- `os.walk` is modelled as one folder listing at a time.
- `%Y` is the year text the date oracle returns; month names are the C locale's.
- Unzip.BestForWrapper: the comment at final_unzip_fix.py:37 says "largest file", but the code falls back to the first file. The model follows the code.
- ProductionEngine.Batches: the number of batches is not stated; it follows from the sizes.
- OptimizedEngine.StepKeepsStateInSync: holds only for a manifest whose text ends with a line break. After a crash that cut the last line short, the in-memory set and a reload diverge, as `CutManifestLosesEntry` shows.
- OptimizedEngine.RunKeepsStateInSync: holds only from a manifest whose text ends with a line break, for the same reason.
- Ledger.Merge: the cut-off text is taken to be the start of a record written by the same writers, which cannot combine with the next record into valid JSON unless it is blank. Arbitrary foreign text at the end of a file is not modelled.
- PathResolver.RenderBindsPlaceholders: stated only for templates made of `{`-free literal text and placeholders of brace-free keys. For other templates a replacement can form a new placeholder, as in `{{a{{b}}c}}` rendered with `b` bound to empty text and then `ac` bound: the first replacement forms `{{ac}}`, which the second one replaces.
- Unzip.ExtractZipAsWritten: the contents of an extraction folder left behind are not tracked; the folder is recorded as present and empty.
- Unzip: a member named like the archive's own extraction folder (`<archive>_temp_extract`) is not given special treatment.
- Unzip.ScanAndFixZips: `os.walk` also descends into sub-folders, including extraction folders and members moved inside sub-folders; the model scans one folder listing and keeps sub-folder contents one level deep.
- Crawler.SidecarNameRepeatsFileName: `os.path.relpath` is taken to return the breadcrumb components below the root followed by the file name, with no `..` or `.` components.

## Findings

| source | as written | input that shows it | evidently intended | confidence | as-written member | corrected member |
|---|---|---|---|---|---|---|
| indexing.py:729-734 | the progress bar slices `filename[:40]` before the `not filename` skip | an entry `{"metadata": {"Remarks": "x"}}` without `filename`: `None[:40]` raises and ends the whole run | such an entry is counted as skipped | not executed | Indexing.MissingFilenameEndsRun | Indexing.MissingFilenameIsSkipped |
| fix_vmr_data.py:27-35 | members are moved next to the archive before the archive is removed | archive `a.pdf` holding one member `a.pdf`: the member overwrites the archive, then `os.remove` deletes it | the extracted document survives | not executed | Unzip.SameNameMemberIsDeleted | Unzip.ExtractZipSpillsEveryMember |
| fix_vmr_data.py:9-10,38-39 | the temp folder is created before extraction and only removed on success | an invalid archive: `extractall` raises and `a.pdf_temp_extract` stays behind | the folder is left as it was | not executed | Unzip.InvalidZipLeavesTempFolder | Unzip.ExtractZip |
| production_migration_engine.py:29-31 | `append_jsonl` writes the record right after whatever the file ends with | a queue whose last line `{"source_url": "u1", "fil` was cut off by a crash: the next job is written onto that line, which no longer parses, so its URL is not reloaded | every appended record is reloaded | not executed | Ledger.CutLineDropsNextRecord | Ledger.AppendOnNewLineThenCollect |
| full_migration_engine_optimized.py:127-130 | `log_manifest` appends the entry right after whatever the manifest ends with | a manifest whose last line was cut off by a crash, then a saved card: the name joins `MIGRATED_FILES`, but a restart does not reload it and downloads the card again | the entry is reloaded on restart | not executed | OptimizedEngine.CutManifestLosesEntry | Ledger.AppendOnNewLineThenCollect |
