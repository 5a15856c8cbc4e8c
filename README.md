# CleanC core, modelled in Dafny

CleanC is a disk cleaner for drive C: of a Windows machine. It has two halves:

- **The Electron back end** (`electron/main.js`) measures folders and classifies any path as safe, caution, danger or unknown to delete. It also:
  - walks the drive for large files and large cache folders;
  - builds the drive overview, where big folders are "exploded" into their large subfolders;
  - moves items into a recovery zone, lists them and restores or purges them. Listing and restore read two on-disk layouts: the sidecar layout the `move-to-recovery-zone` handler writes, and a legacy layout written by `moveToRecoveryZone`, which nothing in `electron/main.js` calls any more;
  - deletes paths and reports the space freed;
  - expands `%NAME%` environment tokens.
- **The Vue renderer** keeps the scan and clean state (`src/composables/useDiskScanner.ts`) and the interface language (`src/composables/useLanguage.ts`).

Each modelled module matches one part of the source:

| module | what it models |
|---|---|
| `Text` (text.dfy) | The string helpers the code relies on: lower-casing, `includes`, `indexOf`, first-occurrence `replace`, `path.basename`, `path.extname`, `path.join`. |
| `Seqs` (seqs.dfy) | `Array.prototype.sort` with a `b.x - a.x` comparator, as a stable insertion sort with its sortedness and permutation lemmas. Also `reduce` as `Sum` and `filter` as `Filter`. |
| `FileTree` (filetree.dfy) | The directory tree the back end reads, and `getDirSizeExact` as the recursive `DirSize`. |
| `Classify` (classify.dfy) | `getDeleteRecommendation` and its three rule tables. Each regular expression becomes a case-insensitive predicate on the lower-cased path with `/` as separator: segment, segment-then-separator, suffix or substring. |
| `LargeScan` (largescan.dfy) | The `scan-large-files` handler. A `ScanSession` class holds the walk's closure state (`results`, `scannedCount`, the cancel flag) and runs `scanDir` as recursive methods, proved against the functional `DirHits`/`RootsHits`. |
| `Overview` (overview.dfy) | The `scan-c-drive` handler and its explosion loop. An `OverviewScan` class holds the cancel flag; its methods are proved against the function `Overview`. |
| `Recovery` (recovery.dfy) | The recovery zone, listed below. Every handler is a step function on `Fs(disk, zone)` returning the new filesystem and the reply. |
| `Storage` (storage.dfy) | A `Volume` class whose fields are the filesystem. Each handler is a method that updates the fields the way the source does, proved to end in the state its step function gives. |
| `Deletion` (deletion.dfy) | `directDeletePath` and `delete-large-file`: measure before, delete, measure after. |
| `EnvVars` (envvars.dfy) | `expandEnvVars`: the five-entry table applied case-insensitively in order, then the generic `%NAME%` pass. |
| `DiskScanner` (diskscanner.dfy) | `getDiskInfo`, `scanCleanableItems`, `scan`, `clean` and `cancelScan`, as a `Scanner` class over the renderer's refs. Ghost logs record every value the progress refs take. |
| `Language` (language.dfy) | The start-up language choice, and `toggleLanguage`, `setLanguage` and `translate` on a `Settings` class. |

The recovery zone in `Recovery` covers:

- the sidecar writer (`move-to-recovery-zone`);
- the legacy writer (`moveToRecoveryZone` with `moveDirectoryRecursive`). No handler calls it; it is modelled because it defines the layout that listing and restore still accept, and `moveDirectoryRecursive` is also the legacy restore's mover;
- the dual-layout listing (`getRecoveryZoneItems`);
- restore (`restoreFromRecoveryZone`);
- purge (`permanentDeleteFromRecoveryZone`).

What the program cannot know in advance is modelled as a parameter:

- **Cancellation.** The cancel button is an oracle `requests: nat -> bool`. Each check site of the source polls it once. Once a poll returns true the session stays cancelled.
- **Sizes and deletes.** The renderer's back-end replies are functions: `size: string -> nat` for `get-dir-size` and `del: string -> DeleteResult` for `delete-path`. The reply of `get-disk-info` is an `Option<DiskReply>`.
- **Shell commands.** PowerShell `Move-Item` and `Remove-Item` are outcome parameters:
  - `ok`: whether the move or unlink happened;
  - `left`: what a recursive delete leaves behind, required to be a pruned copy of the tree, by `Pruned`.
- **Clocks.** Timestamps are opaque values: `stamp` for names and `movedAt` for metadata.

Paths are Windows paths. The classifier normalises them to lower case with `/` as separator. The filesystem maps are keyed by full path. The recovery zone is the sequence of entries in the zone folder, in `readdirSync` order.

## Model

| member | source | states |
|---|---|---|
| FileTree.DirSizeIsSumOfFiles | electron/main.js:110-126 | The exact size of a directory is the sum of the sizes of all files readable at any depth below it, with no depth limit. Unreadable files and unlistable folders add 0. |
| FileTree.StatSizeSumsFiles | electron/main.js:238-241 | A folder in the recovery zone is listed and purged with the sum of the sizes of all readable files at any depth below it. |
| FileTree.MeasuredFolder | electron/main.js:1155-1160 | A folder measured as a folder is the sum of all readable files below it; measured as a file it is 0. |
| FileTree.ChildrenSizePermutation | electron/main.js:113-123 | The size of a folder does not depend on the order in which `readdirSync` lists its entries. |
| FileTree.PrunedSizeLe | electron/main.js:689-700 | Whatever part of a tree a failing recursive delete leaves behind measures no more than the tree did before. |
| Classify.Recommend | electron/main.js:868-933 | The verdict is safe exactly when its note is one of the four safe notes: old driver package, browser model cache, temp installer, temp file or cache. It is unknown exactly when the note is "needs review". |
| Classify.RecommendIsFirstMatch | electron/main.js:868-933 | `getDeleteRecommendation` is first-match-wins over one ordered rule list: the six special cases, then the safe, caution and danger tables, with unknown as the default. |
| Classify.SpecialRulesChain | electron/main.js:876-908 | Read as a list, the special cases give exactly the source's if-chain: ota `.exe`/`.zip` safe, ota `.dll`/`.sys`/`.so` danger, venv site-packages caution, browser model safe. After those, a program extension is safe only for an `.exe` in a temp place and danger otherwise. |
| Classify.TableRulesChain | electron/main.js:911-932 | The three tables read as rules give the table verdict: first match in safe, then caution, then danger, else unknown. |
| Classify.TableVerdict | electron/main.js:911-932 | The table verdict is safe exactly when some safe pattern matches. It is unknown exactly when no pattern of any table matches. |
| Classify.UnknownIff | electron/main.js:876-932 | A path is unknown exactly when no rule's guard holds for it. |
| Classify.NoRuleIsUnknown | electron/main.js:753-932 | No rule anywhere yields unknown, so unknown means only that nothing matched. |
| Classify.OtaDecides | electron/main.js:876-883 | A path containing `ota-artifacts` is safe for `.exe` and `.zip` and danger for `.dll`, `.sys` and `.so`, whatever the tables say. |
| Classify.OtaSameParentDiffers | electron/main.js:876-883 | Suppose a folder path contains `ota-artifacts`. Then `stem.exe` in it is safe and `stem.dll` in the same folder is danger. |
| Classify.VenvBeatsSafeTable | electron/main.js:885-887 | A `venv` or `.venv` segment followed anywhere later by `site-packages/` is caution, when the path is not under ota-artifacts. This holds even where a safe pattern such as `__pycache__` also matches. |
| Classify.ExeInTempIsSafe | electron/main.js:895-905 | An `.exe` with a `temp`, `cache`, `npm-cache` or `-updater` segment is safe, unless the venv or browser-model rule claims it first. |
| Classify.DllInTempIsDanger | electron/main.js:895-908 | A `.dll` outside the three special cases is danger, even in a temp folder. |
| Classify.ZipUnderTempIsSafe | electron/main.js:755-915 | A `.zip` under `\Temp\` is safe from the safe table, not caution from the archive rule of the caution table. |
| Classify.TablesDecide | electron/main.js:868-932 | A path that no special case touches, and that has no program extension, takes exactly the table verdict. |
| LargeScan.ConfigOf | electron/main.js:952-954 | `options.x \|\| default`: a missing or zero `minSize` becomes 100 MiB and a missing or zero `maxResults` becomes 200. Positive values are used as given. A missing `excludeDirs` is the empty list. |
| LargeScan.ExcludedBy | electron/main.js:987-991 | The exclusion loop answers the predicate "some non-empty exclude entry, lower-cased, occurs in the lower-cased path", with lower-casing folding ASCII letters only. |
| LargeScan.PrunedDirYieldsNothing | electron/main.js:982-996 | A directory is pruned, and yields no hits, in three cases: the depth exceeds 20, an exclude entry matches its path, or its base name is a protected name. |
| LargeScan.SkippedFolderYieldsNothing | electron/main.js:994-1055 | A subfolder with a protected name is descended into and yields nothing. |
| LargeScan.TerminalFolderHit | electron/main.js:1036-1052 | A folder whose name matches the terminal list yields at most one hit. That hit is the folder itself at `dir\name`, sized by its exact recursive size. |
| LargeScan.TerminalFolderNotDescended | electron/main.js:1036-1052 | What a terminal folder yields depends only on its name and total size, never on its contents: it is not descended. |
| LargeScan.RootsHitsGood | electron/main.js:1020-1051 | Every hit the walk can produce is at least `minSize` and carries the classifier's verdict for its path. |
| LargeScan.ScanLargeFiles | electron/main.js:951-1110 | The response is cancelled exactly when it is not a success, and a cancelled response has no results and no total. A success is sorted by size, largest first, holds at most `maxResults` hits, and its `totalSize` is their sum. Its hits are a permutation of a prefix of the complete walk's hits, and that prefix is the whole walk unless the list filled up. Every hit is at least `minSize` and classified. |
| LargeScan.ScanSession.ScanDir | electron/main.js:981-1065 | The recursive walk only appends. It never holds more than `maxResults`. What it appends is a prefix of the hits of the functional walk, and the whole of them unless cancelled or full. |
| LargeScan.ScanSession.VisitEntry | electron/main.js:1001-1060 | One loop iteration over a directory entry, with the same prefix guarantees for that entry's hits. |
| LargeScan.ScanSession.WalkRoots | electron/main.js:1068-1083 | The walk over the six root folders: its results are a prefix of all roots' hits, and the whole of them unless cancelled or full. |
| LargeScan.ResultsShape | electron/main.js:1086-1107 | Sorting a bounded prefix of the hits gives a sorted permutation of that prefix. |
| Overview.LaterSubsIgnored | electron/main.js:514-527 | Only the first 15 eligible subfolders, in listing order, count. Folders listed after them never change the node, so these are not the 15 largest. |
| Overview.TargetsAreDirs | electron/main.js:508-522 | The examined subfolders are directories whose names start with neither `$` nor `System Volume Information`. |
| Overview.SubShownIff | electron/main.js:535-536 | A subfolder contributes slices exactly when its size exceeds 10 MiB. |
| Overview.SubSlicesLarge | electron/main.js:558-589 | Every slice shown is larger than 10 MiB. |
| Overview.ExplodedConserves | electron/main.js:540-578 | A folder over 1 GiB is exploded into its promoted subfolders plus a remainder. The slices add up to the folder's size, except that a remainder of at most 10 MiB is dropped. |
| Overview.PromotedLarge | electron/main.js:546-566 | Each promoted subfolder is over 100 MiB and is a subfolder of the exploded folder, shown as `sub/grand`. |
| Overview.NodeShape | electron/main.js:509-602 | A top folder's node has the folder's name and path. It examines at most 15 subfolders, and its children are sorted, largest first, and are a permutation of all their slices, each over 10 MiB. Its value is the sum of the included subfolders' sizes, or the hard-coded default when that sum is 0, and the children never exceed it. |
| Overview.OverviewShape | electron/main.js:496-613 | The overview is sorted by value, largest first, and holds one node for each top folder that exists and is listable. |
| Overview.OverviewScan.Run | electron/main.js:481-614 | The reply says cancelled exactly when the session was cancelled, which needs a cancel request. A completed reply is exactly `Overview(fs)`. |
| Overview.ScanCDrive | electron/main.js:481-614 | A completed reply is the overview of the drive; a cancelled one needs a cancel request. |
| Overview.OverviewScan.ExplodeSub | electron/main.js:540-580 | Unless cancelled, the explosion loop yields exactly the exploded slices. |
| EnvVars.ExpandEnvVars | electron/main.js:93-107 | The loop that rewrites `result` one table entry at a time computes the table expansion followed by the generic `%NAME%` pass. |
| EnvVars.WithoutPercentUnchanged | electron/main.js:93-107 | A path without `%` comes back unchanged. |
| EnvVars.KnownRow | electron/main.js:95-105 | One of the five tokens, in any letter case, expands to its table value. |
| EnvVars.TempExpands | electron/main.js:96-104 | `%TEMP%` expands to the TEMP variable, or to `home\AppData\Local\Temp` when that is unset or empty. |
| EnvVars.UnknownTokenExpands | electron/main.js:106 | Any other `%NAME%` expands to the variable's value, or to nothing when it is unset or empty. |
| EnvVars.TmpUndefinedAsWritten | electron/main.js:97-104 | As written, `%TMP%` becomes the text `undefined` when TMP is unset or empty and TEMP is missing. |
| EnvVars.TmpRawTempAsWritten | electron/main.js:97-104 | As written, when TMP is unset or empty and TEMP is present, `%TMP%` becomes TEMP's value as it is. An empty TEMP gives the empty string, not a default. |
| EnvVars.TmpFallsBackLikeTemp | electron/main.js:96-97 | In the corrected table, `%TMP%` with TMP unset expands exactly as `%TEMP%` does. |
| Deletion.DirectDeleteFrees | electron/main.js:675-710 | `directDeletePath` always succeeds. A missing path frees 0 and changes nothing. Otherwise the space freed plus whatever the shell leaves behind equals the size before. No other path changes. |
| Deletion.DirectDeletePlainPath | electron/main.js:676-678 | A path without `%` tokens is deleted as given, by the handler as written and by its corrected variant. |
| Deletion.DirectDeleteTmpUnset | electron/main.js:676-678 | As written, with TMP unset or empty and TEMP missing, a `%TMP%` path is aimed at the relative path `undefined...`, not at the Temp folder. The corrected handler empties `home\AppData\Local\Temp...`. |
| Deletion.LargeFreedBounds | electron/main.js:1150-1212 | A successful `delete-large-file` reports between 0 and the measured size before the delete. |
| Deletion.LargeMissingSucceeds | electron/main.js:1193-1206 | Deleting a path that does not exist reports success with 0 freed. |
| Deletion.LargeWhollyRemoved | electron/main.js:1160-1206 | A delete that removes the whole item reports its measured size and that it is gone. |
| Deletion.LargeUnlinkFails | electron/main.js:1174-1207 | A file that unlink cannot remove makes the handler fail and changes nothing. |
| Deletion.LargeNothingFreedFails | electron/main.js:1193-1207 | A folder delete that frees nothing and leaves the folder in place fails. |
| Recovery.Put | electron/main.js:1233-1255 | Writing an entry into a folder makes it the entry of that name, leaves every other name as it was, and appends it when the name was new. |
| Recovery.RemoveFreshPut | electron/main.js:308-321 | Removing a freshly added name gives back the folder as it was. |
| Recovery.MoveDirectoryRecursive | electron/main.js:185-217 | The recursive mover computes `MoveDir`: what it moves, what it leaves, the bytes and the file count. |
| Recovery.MoveDirConserves | electron/main.js:185-217 | What is moved plus what is left equals the size of the source, and the count is the number of files in the source. |
| Recovery.MoveEntriesWhole | electron/main.js:185-217 | When every member can be moved, all of them arrive and nothing is left. |
| Recovery.RestoreMembers | electron/main.js:327-343 | The legacy restore's loop skips `_cleanc_metadata.json`. A member that meets a same-named entry of the other kind in the folder at `originalPath` stays in the zone: a file cannot be copied onto a folder, and a folder cannot be made where a file stands. Every other member is moved as by the move loop. |
| Recovery.RestoreEntriesWhole | electron/main.js:333-347 | When every member can move, exactly the members that do not meet an entry of the other kind reach `originalPath`, and their sizes are what is reported. Exactly the clashing members stay behind. |
| Recovery.ItemOf | electron/main.js:226-272 | Names ending in `.meta.json` are skipped. A readable sidecar wins and supplies the original path, time and directory flag, and the size is measured. Otherwise a folder's `_cleanc_metadata.json` supplies them, with the folder's size. Entries with neither are dropped. |
| Recovery.ListingShape | electron/main.js:220-279 | The listing is sorted by `movedAt`, newest first, and holds exactly the items of the zone's entries that pass the rules above. |
| Recovery.GetRecoveryZoneItems | electron/main.js:220-279 | The listing loop computes `RecoveryItems`. |
| Recovery.MovedIsListed | electron/main.js:1215-1268 | After a successful move the zone listing (`getRecoveryZoneItems`) shows the item, with its measured size and original path. |
| Recovery.MoveIntoFreshNames | electron/main.js:1221-1261 | A move into unused names removes the path from the disk, appends the payload as `<stamp>_<basename>` and its sidecar `<dest>.meta.json` to the zone, and reports the measured size. |
| Recovery.RestoreNeedsMetadata | electron/main.js:286-297 | Restore answers that the metadata file cannot be found exactly when the item has no `.meta.json` sidecar and is not a readable folder holding `_cleanc_metadata.json`. That answer changes nothing. |
| Recovery.RestoreFromSidecar | electron/main.js:282-324 | Restoring through a sidecar puts the payload back at `originalPath` when no folder is there. A folder restored onto an existing folder lands inside it under its zone name. A file cannot be copied onto a folder, so that restore fails and changes nothing. On success the payload and the sidecar leave the zone and the reply is `size \|\| 0`. |
| Recovery.MoveThenRestore | electron/main.js:1215-1268 | Moving an item and then restoring it with `restoreFromRecoveryZone` gives back the original filesystem and reports the measured size. |
| Recovery.LegacyMoveWhole | electron/main.js:129-182 | The legacy writer, when every member can be moved: the folder and its metadata file appear in the zone, the source is left empty, and the reply counts its bytes and files. |
| Recovery.LegacyMoveConserves | electron/main.js:129-182 | Bytes moved plus bytes left in the source equal the source's size, and the count is its file count. |
| Recovery.LegacyMovedIsListed | electron/main.js:129-182 | A legacy move is shown by `getRecoveryZoneItems`, with its original path, time and directory flag. |
| Recovery.RestoreLegacyWhole | electron/main.js:327-355 | The legacy restore creates `originalPath`, or keeps the folder already there, and copies the members except the metadata file into it. A same-named entry of the same kind is overwritten, and the folder's other entries are kept. When no member meets an entry of the other kind, it removes the zone entry and reports the moved size. Otherwise the clashing members stay in the zone folder, the others arrive, and the restore fails. A file at `originalPath` makes it fail with nothing changed. |
| Recovery.LegacyMoveThenRestore | electron/main.js:129-355 | Legacy move followed by restore gives back the original filesystem and reports the source's size: the members are copied back into the emptied source folder. |
| Recovery.LegacyLeftoversUnlisted | electron/main.js:327-358 | A legacy restore that leaves members behind fails. The leftover folder stays in the zone with its metadata file gone, so the listing no longer shows it. A file at `originalPath` makes it fail before anything moves. |
| Recovery.DeleteOutcome | electron/main.js:364-391 | Purging takes the sidecar away whatever happens and touches nothing else outside the entry. If the delete succeeds, the entry is gone and its measured size is reported. If it fails, the reply is failure and what stays is what `Remove-Item` did not get to: the entry with some of its contents removed, no larger than before, or nothing. |
| Storage.Volume.MoveToRecoveryZone | electron/main.js:1215-1268 | The handler ends in the state and reply of `MoveStep`. |
| Storage.Volume.MoveToRecoveryZoneLegacy | electron/main.js:129-182 | The legacy writer ends in the state and reply of `LegacyMoveStep`. |
| Storage.Volume.RestoreFromRecoveryZone | electron/main.js:282-361 | Restore ends in the state and reply of `RestoreStep`, whose cases are stated by `RestoreNeedsMetadata`, `RestoreFromSidecar` and `RestoreLegacyWhole`. |
| Storage.Volume.PermanentDelete | electron/main.js:364-391 | Purge ends in the state and reply of `DeleteStep`. |
| Storage.Volume.DirectDeletePath | electron/main.js:675-710 | It expands the path with the table as written and ends in the state and reply of `Deletion.DirectDeletePath`; the zone is unchanged. |
| Storage.Volume.DeleteLargeFile | electron/main.js:1150-1212 | It ends in the state and reply of `DeleteLarge`, and the zone is unchanged. |
| DiskScanner.DiskInfoBalanced | src/composables/useDiskScanner.ts:130-158 | The figures for drive C: always balance, `used + free == total`, for a real reply (whose total and free are kept) as for the placeholder. Nothing is cleanable yet. |
| DiskScanner.FoundFromRules | src/composables/useDiskScanner.ts:204-235 | Each rule yields at most one item, exactly when its measured size exceeds 1 MiB. |
| DiskScanner.ScannedItemsProps | src/composables/useDiskScanner.ts:198-241 | The scanned items are sorted by size, largest first. They are a permutation of the items found and have the same total. Their ids are distinct when the rules' ids are. |
| DiskScanner.ScannedItemsFromRules | src/composables/useDiskScanner.ts:198-241 | An item is scanned exactly when it comes from a rule whose size exceeds 1 MiB. |
| DiskScanner.Scanner.ScanCleanableItems | src/composables/useDiskScanner.ts:198-242 | The batch loop returns `ScannedItems`, and sets the progress to exactly the batch values. |
| DiskScanner.Scanner.ScanBatch | src/composables/useDiskScanner.ts:205-235 | One batch extends the items found so far by the items of the batch's rules, in rule order. |
| DiskScanner.BatchProgressBounds | src/composables/useDiskScanner.ts:237 | The progress after each batch is `70 + floor(i / n * 25)`. It stays within 70..94 and never decreases. |
| DiskScanner.ScanProgressShape | src/composables/useDiskScanner.ts:237-270 | A scan's progress starts at 0, ends at 100 and never decreases, and every value before the last is at most 95. |
| DiskScanner.TableBatches | src/composables/useDiskScanner.ts:204-237 | For the 32 built-in rules the batch values are 70, 73, 77, 81, 85, 89, 93. |
| DiskScanner.Scanner.Scan | src/composables/useDiskScanner.ts:244-278 | A scan already running changes nothing. Otherwise the scan sets the disk info, the folder data, the scanned items and the cleanable total, with the progress trace above; the disk figures balance, `used + free == total`. It leaves the cleaning state alone. |
| DiskScanner.Scanner.RunScan | src/composables/useDiskScanner.ts:247-270 | The body of `scan`, with the same final state and progress trace. |
| DiskScanner.Scanner.CancelScan | src/composables/useDiskScanner.ts:364-375 | An acknowledged cancel while `isScanning` is set clears `isScanning` and resets the progress to 0; the renderer's own scan runs on. Otherwise nothing changes. |
| DiskScanner.Scanner.ScanSettled | src/composables/useDiskScanner.ts:274-276 | The delayed reset clears `isScanning`. |
| DiskScanner.CleanedIdsMembers | src/composables/useDiskScanner.ts:315-327 | An id is recorded as cleaned exactly when a selected item with that id was deleted successfully. |
| DiskScanner.CleanedCount | src/composables/useDiskScanner.ts:343-346 | The item count is the number of successful deletes. |
| DiskScanner.FreedIsSumOfSuccesses | src/composables/useDiskScanner.ts:315-327 | The freed total is the sum over the items whose delete succeeded of the reported freed space, or of the item's size when the reply reports 0. Failures add nothing. |
| DiskScanner.CleanRemovesExactly | src/composables/useDiskScanner.ts:285-332 | With distinct ids, clean removes exactly the selected items whose delete succeeded and keeps every other item in its order. |
| DiskScanner.CleanableDrops | src/composables/useDiskScanner.ts:336 | The cleanable total before a clean is the total of the items kept plus that of the items cleaned away. |
| DiskScanner.CleanTraceShape | src/composables/useDiskScanner.ts:302-311 | While cleaning n items the progress takes `current = 1..n` in turn, with `total = n`, the item's name and the space freed so far. |
| DiskScanner.Scanner.Clean | src/composables/useDiskScanner.ts:281-361 | Nothing changes while a clean runs, for an empty id list, or when no current item is selected. Otherwise:<br>- the items become those not cleaned;<br>- `cleanable` is their total;<br>- free and used come from the new disk info;<br>- the result records the freed space and the count;<br>- the progress runs through the trace above. |
| DiskScanner.Scanner.CleanEach | src/composables/useDiskScanner.ts:302-327 | The delete loop returns the cleaned ids and the freed space, and logs one progress value per item. |
| DiskScanner.Scanner.CleanSettled | src/composables/useDiskScanner.ts:356-359 | The delayed reset clears `isCleaning` and zeroes the progress. |
| Language.Settings.constructor | src/composables/useLanguage.ts:6-18 | The start-up language is `InitialLang` of the system language and the saved value. |
| Language.UnknownSavedIgnored | src/composables/useLanguage.ts:15-18 | A saved value other than `zh` and `en` is ignored: the choice is the one made with nothing saved. |
| Language.InitialLangIgnoresCase | src/composables/useLanguage.ts:9-12 | The system language is compared without regard to letter case. |
| Language.SavedIsRestored | src/composables/useLanguage.ts:15-34 | What toggle or set saves is read back as the same language at the next start. |
| Language.Settings.Toggle | src/composables/useLanguage.ts:25-28 | Toggle switches to the other language and saves it under `cleanc-language`. |
| Language.FlipTwice | src/composables/useLanguage.ts:26 | Toggling twice gives back the language, and toggling once always changes it. |
| Language.Settings.Set | src/composables/useLanguage.ts:31-34 | Set makes the language exactly the one given and saves it. |
| Language.Settings.Translate | src/composables/useLanguage.ts:37-45 | The loop computes the looked-up text with each parameter applied in order. |
| Language.MissingKeyShowsKey | src/composables/useLanguage.ts:37-45 | A key with no text, or an empty one, is shown as the key itself, whatever parameters are passed, as long as none of their placeholders is part of the key. |
| Language.OnlyFirstReplaced | src/composables/useLanguage.ts:41 | A parameter replaces only the first occurrence of its `{name}`. |
| Language.UnmatchedUntouched | src/composables/useLanguage.ts:39-44 | Parameters whose placeholders do not occur leave the text unchanged. |
| Language.InterpolatedAppend | src/composables/useLanguage.ts:40-42 | Applying two lists of parameters one after the other is applying their concatenation. |

## Left out

- Electron windows, the tray, IPC registration, admin detection and restart, and process spawning: these are host plumbing.
- The PowerShell `Move-Item`/`Remove-Item` commands and the `wmic` call are foreign calls. They become outcome parameters; their quoting is not modelled and neither is the parsing of their output.
- `yieldControl`, the 200 ms throttle of `sendProgress`, the progress messages and `scannedCount`'s role in them, `withTimeout` and `Promise.all`: these are scheduling. Batches are modelled as running one rule after another, which gives the same items in the same order.
- The `setTimeout` resets after `scan` and `clean` become the `ScanSettled` and `CleanSettled` methods.
- Timestamps and ISO dates are opaque parameters. MB/GB log formatting with `toFixed` and `console.log` are left out.
- `get-smart-suggestions` depends on the clock and on file times.
- The mock data used when the renderer runs without Electron is left out. That covers the disk-info figures only when no reply comes; clean without `ipcRenderer`; `getDirectorySize`'s random fallback.
- `scanDirectoryStructure`, `ensureRecoveryZone` and `get-exclude-dirs` are left out; the folder data of `scan` is a parameter.
- `src/i18n.ts` is data: the translation tables are a parameter.
- Full regular-expression semantics: each pattern of the rule tables is a predicate of one of four shapes.
- `$`-patterns in the replacement text of `String.replace` are assumed absent, in `translate` and in `expandEnvVars`.
- In `translate`, `String(v)` is taken as given: parameter values are strings, in `Object.entries` order.
- `Math.floor(i / n * 25)` uses floating point; it is modelled as the integer `(i * 25) / n`, which agrees for these magnitudes.
- Integers are unbounded; file sizes never approach JavaScript's 2^53 limit.
- `move-to-recovery-zone`: a `Move-Item` onto an existing zone folder moves the item inside that folder; the model replaces the zone entry of that name. Zone names carry the move's timestamp, so the name is new in practice. The legacy writer's `mkdirSync` keeps an existing destination folder; the model starts it empty.
- Recovery.MoveDirectoryRecursive: a file that is copied but whose unlink fails (a locked file) is modelled as moved. The source leaves it in both places and counts nothing for it. This is not captured: the model has no per-file unlink outcome.
- Recovery.MoveDirConserves: holds for the model of `MoveDirectoryRecursive` above. With a locked file the source counts fewer bytes and files than the conservation law gives.
- Recovery.LegacyMoveConserves: the same gap for the legacy writer's own loop (electron/main.js:155-160).
- Storage.Volume.MoveToRecoveryZoneLegacy: the same gap; a locked file ends up both in the zone and at the source.
- Recovery.RestoreMembers: the legacy restore's file branch copies, adds the size, then unlinks (electron/main.js:339-342). A failed unlink leaves the file in the zone and at `originalPath`; the model counts it as moved.
- Recovery.RestoreLegacyWhole: a member folder meeting a folder of the same name replaces it in the model. `moveDirectoryRecursive` merges the two at every depth, and below the top level a file meeting a folder (or the reverse) stays behind there; the model checks kinds one level deep only.
- Recovery.RestoreFromSidecar: a folder restored onto an existing file replaces it when `ok`; whether `Move-Item -Force` accepts that is the `ok` parameter.
- LargeScan.ExcludedBy: lower-casing folds ASCII letters only. `toLowerCase` also folds other letters, so an exclude entry that differs from the path only in the case of a non-ASCII letter excludes in the source and not in the model. The classifier and `expandEnvVars` share this.
- Text.Join: `path.join` also normalises `..`, `.` and repeated separators; the model joins with one `\`.
- EnvVars.Get: environment names are looked up case-sensitively; Windows ignores their case.
- FileTree.StatSize: an `Other` entry (a link or a device) measures as a failed stat. `fs.statSync` follows a link to its target, which the model does not represent.
- FileTree.MeasuredSize: the same link gap. `delete-large-file` and the move handler measure an `Other` entry as a failed stat, where `fs.statSync` follows the link (electron/main.js:1155-1160, 1227-1230).
- DiskScanner.CleanRemovesExactly: requires distinct item ids. That the 32 built-in rules have distinct ids, which gives this for scanned items, is not proved.
- LargeScan.ScanLargeFiles: states the results as a permutation of a prefix of the walk's hits, not which sort order ties take; the stable sort keeps the walk's order for equal sizes.

## Findings

| source | as written | input that shows it | evidently intended | confidence | as-written member | corrected member |
|---|---|---|---|---|---|---|
| electron/main.js:97 | `'%TMP%': process.env.TMP \|\| process.env.TEMP` has no last fallback, unlike every other entry of the table. | TMP unset or empty and TEMP unset: `replace` inserts the value `undefined` as text, so `%TMP%\x` becomes `undefined\x`. An empty TEMP instead gives `\x`. | Fall back to the same default as `%TEMP%`, `home\AppData\Local\Temp`. | not executed | EnvVars.TmpUndefinedAsWritten | EnvVars.TmpFallsBackLikeTemp |

The handler `directDeletePath` is modelled as written (`Deletion.DirectDeletePath`, `Deletion.DirectDeleteTmpUnset`). `Deletion.DirectDeletePathCorrected` is the same handler over the corrected table.
