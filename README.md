# FreshFood over-the-air model updates, in Dafny

This project models the over-the-air (OTA) model-update pipeline of the
FreshFood Android app and proves properties of the model. It also models the
small pure and stateful pieces of the app's screens.

**The update pipeline (`ml/`)**

- **Ledger.** `ModelManager` keeps it in the preferences file `freshfood_models`. It maps `"metadata_" + name` to the JSON text of a `ModelMetadata` record.
- **Asset store.** Model files live at `files/models/<name>.tflite`. `initialize` seeds them from the bundled assets and backfills missing records.
- **Downloader.** `ModelDownloader.downloadAndVerify` does these steps in order:
  - streams the HTTP body into `cache/<name>_temp.tflite` while digesting it;
  - rejects the body unless its SHA-256 matches the expected digest, ignoring case;
  - installs it by `renameTo`, falling back to copy-then-delete.
- **Orchestrator.** `ModelUpdateManager.checkForUpdates` runs one cycle:
  - emits `Checking`;
  - fetches the manifest;
  - selects the stale entries (remote version above the local one; a missing record counts as 0);
  - for each stale entry in manifest order, emits `Downloading`, downloads, and records the new version;
  - stops with `Error` at the first failure, or ends with `Success(updated)`.

**The screens**

- `ScanHistoryAdapter`:
  - the positional remove and insert used by swipe-to-delete and undo;
  - the badge of a row;
  - the relative date of a row;
  - `ScanDiff`.
- `ScanFragment`:
  - the power-of-two sample size;
  - the clamped output size;
  - the capture file name.
- `ContributeActivity`:
  - the ordered form checks;
  - the freshness level sent;
  - the three-attempt retry with backoff;
  - the resulting toast;
  - the contribution counter.
- `ResultActivity`:
  - the badge;
  - the capitalised fruit type;
  - the fallback texts;
  - the guard for a missing extra.
- `ScanResultExtensions`: the conversions between the UI model and the database row.

**How the model is built**

- **Stateful code becomes classes.** The file system (`Storage.FileSystem`), the preferences file (`Storage.Preferences`), the downloader and the adapter's `currentList` are classes. Their methods carry `modifies` clauses.
- **Each loop becomes a method with invariants.** This covers the manifest diff, the download loop, the chunk loop, `initialize` and the retry loop. Each method that changes state is proved equal to a function of the state before the call, such as `RunCycle`, `DownloadOutcome` or `InitAll`, and the properties are lemmas about those functions. The others state their result's properties in their own ensures: `PerformUploadWithRetry`, `SampleSize`, `GetAllModelMetadata` and `Sha256Stream`.
- **Things the code gets from outside are parameters:**
  - SHA-256 is an uninterpreted `HashFunction`;
  - the network is a `Response` for each URL;
  - file-system faults during install are a `DiskFaults` value for each model;
  - the clock is a `now` value;
  - the bundled assets are a map;
  - the upload service is the outcome of each attempt.

Three behaviours of the code are modelled as written:
- Installing happens inside the downloader.
- The old installed file is deleted before the rename, so a failed copy fallback loses it. `Downloader.FailedFallbackLosesInstalledModel` and `ModelUpdateManager.InstallFailureOrphansRecord` show this.
- A read error in the middle of the stream leaves the temp file in place.

## Model

| member | source | states |
|---|---|---|
| Status.IsTerminal | app/src/main/java/com/jody/freshfood/ml/UpdateStatus.kt:3-10 | `Success` and `Error` are terminal; `Idle`, `Checking` and `Downloading` are not |
| Status.ErrorCauseDefaultsToNull | app/src/main/java/com/jody/freshfood/ml/UpdateStatus.kt:8 | an `Error` built without a cause has a null cause and is terminal |
| Metadata.ToJson | app/src/main/java/com/jody/freshfood/ml/ModelMetadata.kt:11-18 | the object has exactly the keys `modelName`, `version`, `sha256`, `lastUpdated`, each holding the record's value |
| Metadata.FromJson | app/src/main/java/com/jody/freshfood/ml/ModelMetadata.kt:21-34 | null for null and for unparseable text; otherwise a record, with missing `version` → 1, `lastUpdated` → 0, and strings → "" |
| Metadata.RoundTrip | app/src/main/java/com/jody/freshfood/ml/ModelMetadata.kt:11-34 | `fromJson(toJson(m)) == m` for every record |
| Metadata.EmptyObjectDefaults | app/src/main/java/com/jody/freshfood/ml/ModelMetadata.kt:24-30 | `{}` decodes to `("", 1, "", 0)` |
| Json.OptString | app/src/main/java/com/jody/freshfood/ml/ModelMetadata.kt:25 | an absent key gives ""; a string member gives its text |
| Json.OptInt | app/src/main/java/com/jody/freshfood/ml/ModelMetadata.kt:26 | an absent key gives the fallback; an in-range number gives itself |
| Json.OptLong | app/src/main/java/com/jody/freshfood/ml/ModelMetadata.kt:28 | an absent key gives the fallback; a number gives itself |
| Digest.Hex | app/src/main/java/com/jody/freshfood/ml/ModelDownloader.kt:48 | two characters per byte: characters 2i and 2i+1 are the `%02x` digits of byte i, high nibble first, all lower-case hex |
| Digest.HexInjective | app/src/main/java/com/jody/freshfood/ml/ModelDownloader.kt:48 | two byte strings with the same rendering are equal |
| Digest.HexDigest | app/src/main/java/com/jody/freshfood/ml/ModelDownloader.kt:48 | the rendered digest has 64 characters and no upper-case letter |
| Digest.HexDigestInjective | app/src/main/java/com/jody/freshfood/ml/ModelDownloader.kt:48-49 | equal rendered digests mean equal SHA-256 digests; two byte strings that both pass the check against one expected digest have the same SHA-256 |
| Digest.FlattenAppend | app/src/main/java/com/jody/freshfood/ml/ModelDownloader.kt:36-46 | the bytes of two chunk runs are the concatenation of their bytes |
| Downloader.ChunkingIrrelevant | app/src/main/java/com/jody/freshfood/ml/ModelDownloader.kt:36-49 | two bodies with the same bytes, however they are split into reads, give the same result and leave the same files |
| Digest.StreamingEquivalence | app/src/main/java/com/jody/freshfood/ml/ModelDownloader.kt:36-48 | any two chunkings of the same bytes digest alike, one single chunk included |
| Digest.MatchesLowercase | app/src/main/java/com/jody/freshfood/ml/ModelDownloader.kt:48-49 | the case-insensitive check is equality with the lower-cased expected digest |
| Storage.ModelFile | app/src/main/java/com/jody/freshfood/ml/ModelDownloader.kt:54-56 | the installed file is `models/<name>.tflite` |
| Storage.TempFile | app/src/main/java/com/jody/freshfood/ml/ModelDownloader.kt:31 | the staging file is `cache/<name>_temp.tflite` |
| Storage.PathsDistinct | app/src/main/java/com/jody/freshfood/ml/ModelDownloader.kt:31-56 | distinct names have distinct installed and staging files, and no staging file is ever an installed file |
| Storage.FileSystem.Delete | app/src/main/java/com/jody/freshfood/ml/ModelDownloader.kt:32 | `delete` removes the one path and nothing else |
| Storage.FileSystem.Truncate | app/src/main/java/com/jody/freshfood/ml/ModelDownloader.kt:37 | opening an output stream leaves the file present and empty |
| Storage.FileSystem.Append | app/src/main/java/com/jody/freshfood/ml/ModelDownloader.kt:41 | a buffer write appends its bytes to that file only |
| Storage.FileSystem.Write | app/src/main/java/com/jody/freshfood/ml/ModelDownloader.kt:58-61 | a completed rename or copy sets the target's bytes |
| Storage.Preferences.PutString | app/src/main/java/com/jody/freshfood/ml/ModelManager.kt:78 | `putString` sets one key |
| Text.RemoveSuffix | app/src/main/java/com/jody/freshfood/ml/ModelManager.kt:44 | with the suffix, the result plus the suffix is the input; without it, the input is unchanged |
| Text.Lowercase | app/src/main/java/com/jody/freshfood/ui/home/adapter/ScanHistoryAdapter.kt:63 | same length, each character lower-cased |
| Text.CapitalizeFirst | app/src/main/java/com/jody/freshfood/ui/result/ResultActivity.kt:73 | same length; only the first character is upper-cased |
| Text.EqualsIgnoreCaseLower | app/src/main/java/com/jody/freshfood/ml/ModelDownloader.kt:49 | against a string with no upper-case letter, `equals(ignoreCase = true)` is equality with the lower-cased other side |
| Text.DecimalRoundTrip | app/src/main/java/com/jody/freshfood/ui/home/adapter/ScanHistoryAdapter.kt:84 | the decimal text of an integer parses back to it |
| ModelManager.MetadataKey | app/src/main/java/com/jody/freshfood/ml/ModelManager.kt:72 | the key is `"metadata_"` followed by the name |
| ModelManager.MetadataKeyInjective | app/src/main/java/com/jody/freshfood/ml/ModelManager.kt:49 | two names share a ledger key only if they are equal |
| ModelManager.GetModelMetadata | app/src/main/java/com/jody/freshfood/ml/ModelManager.kt:70-74 | no key gives null; otherwise the result is `fromJson` of the stored text |
| ModelManager.UpdateModelMetadata | app/src/main/java/com/jody/freshfood/ml/ModelManager.kt:76-79 | the ledger becomes the old ledger with the record's key set to its JSON |
| ModelManager.GetAfterPut | app/src/main/java/com/jody/freshfood/ml/ModelManager.kt:70-79 | after `updateModelMetadata(m)`, `getModelMetadata(m.modelName)` is `m`, and every other name reads as before |
| ModelManager.LastWriteWins | app/src/main/java/com/jody/freshfood/ml/ModelManager.kt:76-79 | of two writes for one name, the later is read back |
| ModelManager.GetModelFile | app/src/main/java/com/jody/freshfood/ml/ModelManager.kt:81-84 | `models/<name>.tflite`, the file the downloader installs to |
| ModelManager.Sha256 | app/src/main/java/com/jody/freshfood/ml/ModelManager.kt:94-103 | the lower-case hex digest of the whole file, or "" when the file cannot be read |
| ModelManager.InitAsset | app/src/main/java/com/jody/freshfood/ml/ModelManager.kt:31-63 | a missing file is copied and gets a version-1 record with its digest; a missing asset changes nothing; a present file without a record gets a backfilled version-1 record; the record of a present file is never overwritten (a missing file's copy replaces any record); each write sets exactly the asset's own key, and every other file and record keeps its value; nothing is removed |
| ModelManager.Initialize | app/src/main/java/com/jody/freshfood/ml/ModelManager.kt:21-68 | the loop over the four bundled assets ends in `InitAll` of the state before the call |
| ModelManager.InitAssetSeeds | app/src/main/java/com/jody/freshfood/ml/ModelManager.kt:31-63 | after an asset is processed it is seeded (a file and a record, or still absent because the copy failed); seeding another asset does not undo this |
| ModelManager.InitAllSeedsEvery | app/src/main/java/com/jody/freshfood/ml/ModelManager.kt:31-53 | a failure on one asset does not stop the rest: every listed asset ends seeded |
| ModelManager.InitAllFixpoint | app/src/main/java/com/jody/freshfood/ml/ModelManager.kt:33-58 | on a state where every asset is seeded, `initialize` changes nothing |
| ModelManager.InitAllFrame | app/src/main/java/com/jody/freshfood/ml/ModelManager.kt:31-63 | over any list of assets, e.g. the four bundled ones, every file that is no asset's installed file, and every ledger key that is no asset's key (a downloaded model's record, say), is left as it was |
| ModelManager.InitializeIdempotent | app/src/main/java/com/jody/freshfood/ml/ModelManager.kt:21-68 | a second `initialize`, at any later time, changes neither files nor ledger |
| ModelManager.BundledAssetIsModelFile | app/src/main/java/com/jody/freshfood/ml/ModelManager.kt:32-44 | a `.tflite` asset is copied to the installed file of the model it registers |
| ModelManager.GetAllModelMetadata | app/src/main/java/com/jody/freshfood/ml/ModelManager.kt:108-119 | `m` is listed iff some `"metadata_"` key holds text that parses to `m`; there is a list of distinct keys, one per element, whose i-th key holds the i-th record, and it covers every such key; every other key is ignored |
| Downloader.Verdict | app/src/main/java/com/jody/freshfood/ml/ModelDownloader.kt:21-70 | success iff the body arrived whole with a matching digest and the install completed; success names `models/<name>.tflite`; each failure returns the code's exception: the call's own, "HTTP code when downloading name" for a non-2xx status, "Empty response body for name", the read's, the `SecurityException` "SHA256 mismatch for name", or the copy's when rename and copy fail |
| Downloader.DownloadOutcome | app/src/main/java/com/jody/freshfood/ml/ModelDownloader.kt:21-70 | the result of a download is its verdict, whatever the files held before |
| Downloader.DownloadFiles | app/src/main/java/com/jody/freshfood/ml/ModelDownloader.kt:25-52 | only the staging and installed files of the model change; a failed call, a non-2xx status or no body changes nothing; a read error leaves the partial staging file; a mismatch removes the staging file and keeps the installed one |
| Downloader.DownloadInstalls | app/src/main/java/com/jody/freshfood/ml/ModelDownloader.kt:54-65 | success installs exactly the streamed bytes, whose digest matched, and removes the staging file; any other failure leaves the installed file as it was |
| Downloader.FailedFallbackLosesInstalledModel | app/src/main/java/com/jody/freshfood/ml/ModelDownloader.kt:57-63 | when rename and then copy fail, the call fails, and the model's installed file is missing or shorter than the verified bytes |
| Downloader.ModelDownloader.DownloadAndVerify | app/src/main/java/com/jody/freshfood/ml/ModelDownloader.kt:21-70 | the chunk loop and install steps end in the result and files `DownloadOutcome` gives for the files before the call |
| Downloader.ModelDownloader.Sha256Stream | app/src/main/java/com/jody/freshfood/ml/ModelDownloader.kt:73-87 | the digest of the whole file however `read` splits it, or "" for a missing file |
| ModelUpdateManager.CollectStale | app/src/main/java/com/jody/freshfood/ml/ModelUpdateManager.kt:34-41 | the loop yields `StaleEntries` of the ledger and manifest |
| ModelUpdateManager.DownloadOne | app/src/main/java/com/jody/freshfood/ml/ModelUpdateManager.kt:50-65 | one turn of the download loop leaves the state that `Step` gives |
| ModelUpdateManager.DownloadStale | app/src/main/java/com/jody/freshfood/ml/ModelUpdateManager.kt:48-68 | the download loop and the final `Success` give the events and store of `InstallAll` |
| ModelUpdateManager.CheckForUpdates | app/src/main/java/com/jody/freshfood/ml/ModelUpdateManager.kt:18-69 | the events emitted and the files and ledger left are those of `RunCycle` on the state before the call |
| ModelUpdateManager.RunAfterFailure | app/src/main/java/com/jody/freshfood/ml/ModelUpdateManager.kt:62-65 | after the first failure, later entries are neither downloaded nor recorded |
| ModelUpdateManager.RunShape | app/src/main/java/com/jody/freshfood/ml/ModelUpdateManager.kt:50-65 | without a failure, one `Downloading` per entry; with one, `Downloading` events followed by a single `Error` |
| ModelUpdateManager.CycleShape | app/src/main/java/com/jody/freshfood/ml/ModelUpdateManager.kt:18-69 | a cycle starts with `Checking`; it ends with exactly one terminal event, with only `Downloading` in between; a failed service or manifest gives `[Checking, Error(cause)]` and changes nothing |
| ModelUpdateManager.StaleEntriesMembers | app/src/main/java/com/jody/freshfood/ml/ModelUpdateManager.kt:34-41 | an entry is downloaded iff it is in the manifest and its version exceeds the local one (a missing record counts as 0) |
| ModelUpdateManager.StaleEntriesAppend | app/src/main/java/com/jody/freshfood/ml/ModelUpdateManager.kt:34-41 | the stale list keeps manifest order: it distributes over concatenation |
| ModelUpdateManager.NoneStale | app/src/main/java/com/jody/freshfood/ml/ModelUpdateManager.kt:35-46 | a manifest with no newer entry gives an empty `toUpdate` |
| ModelUpdateManager.LocalVersionOfMissing | app/src/main/java/com/jody/freshfood/ml/ModelUpdateManager.kt:36-38 | without a record, an entry is stale iff its version is positive |
| ModelUpdateManager.FirstFailure | app/src/main/java/com/jody/freshfood/ml/ModelUpdateManager.kt:50-65 | every entry before the index succeeds, and the entry at the index (if any) fails |
| ModelUpdateManager.DownloadEvents | app/src/main/java/com/jody/freshfood/ml/ModelUpdateManager.kt:51 | one `Downloading(name, 0)` per entry, in order |
| ModelUpdateManager.Names | app/src/main/java/com/jody/freshfood/ml/ModelUpdateManager.kt:61 | the names of the entries, in order |
| ModelUpdateManager.StepOutcome | app/src/main/java/com/jody/freshfood/ml/ModelUpdateManager.kt:51-64 | on success a turn appends the name to `updated`, records `{name, version, sha256, now}` and emits `Downloading`; on failure it emits `Downloading` then `Error` and stops |
| ModelUpdateManager.RunOutcome | app/src/main/java/com/jody/freshfood/ml/ModelUpdateManager.kt:48-66 | the loop fails iff some entry fails; `updated` and the ledger cover exactly the entries before the first failure; the events are `Downloading` up to and including it, then `Error` |
| ModelUpdateManager.InstallAllOutcome | app/src/main/java/com/jody/freshfood/ml/ModelUpdateManager.kt:48-68 | all succeed: `Downloading` each, then `Success(names in order)`, with every record written; else the events stop at the first failure's `Error` and the earlier records stay written |
| ModelUpdateManager.CycleAllSucceed | app/src/main/java/com/jody/freshfood/ml/ModelUpdateManager.kt:19-68 | a fully successful cycle: `[Checking] + Downloading… + [Success(stale names)]`, with a record for each stale entry |
| ModelUpdateManager.CycleStopsAtFailure | app/src/main/java/com/jody/freshfood/ml/ModelUpdateManager.kt:19-65 | a cycle whose k-th download fails: `Downloading` up to entry k, then its `Error`; no later entry is attempted; records for exactly the first k |
| ModelUpdateManager.PutAllOther | app/src/main/java/com/jody/freshfood/ml/ModelUpdateManager.kt:60 | a record for a name not downloaded is left alone |
| ModelUpdateManager.PutAllRecords | app/src/main/java/com/jody/freshfood/ml/ModelUpdateManager.kt:54-60 | with distinct names, each downloaded entry's record is what the ledger holds afterwards |
| ModelUpdateManager.PutAllMonotone | app/src/main/java/com/jody/freshfood/ml/ModelUpdateManager.kt:38-60 | writing only stale records never lowers a name's local version |
| ModelUpdateManager.VersionsNeverDecrease | app/src/main/java/com/jody/freshfood/ml/ModelUpdateManager.kt:18-69 | no cycle lowers the local version of any name |
| ModelUpdateManager.NothingStaleAfter | app/src/main/java/com/jody/freshfood/ml/ModelUpdateManager.kt:35-61 | after a fully successful cycle (distinct names), no manifest entry is stale |
| ModelUpdateManager.RerunIsQuiet | app/src/main/java/com/jody/freshfood/ml/ModelUpdateManager.kt:35-46 | for a manifest with distinct names, a rerun on the same manifest after a fully successful cycle downloads nothing, emits `[Checking, Success([])]` and changes nothing |
| ModelUpdateManager.StepKeepsConsistent | app/src/main/java/com/jody/freshfood/ml/ModelUpdateManager.kt:50-61 | a turn keeps every record's digest matching the installed file, unless a verified download fails during install |
| ModelUpdateManager.InstalledKeepsConsistent | app/src/main/java/com/jody/freshfood/ml/ModelUpdateManager.kt:53-61 | a completed install whose bytes match the manifest digest, recorded with that digest, keeps every record matching its file |
| ModelUpdateManager.UnrecordedKeepsConsistent | app/src/main/java/com/jody/freshfood/ml/ModelUpdateManager.kt:62-65 | a failed download that records nothing and leaves the installed file alone keeps every record matching its file |
| ModelUpdateManager.RunKeepsConsistent | app/src/main/java/com/jody/freshfood/ml/ModelUpdateManager.kt:48-66 | the same for the whole download loop |
| ModelUpdateManager.CycleKeepsConsistent | app/src/main/java/com/jody/freshfood/ml/ModelUpdateManager.kt:18-69 | nothing is recorded unless its digest matched, and a consistent store stays consistent, save for the install-failure case |
| ModelUpdateManager.InstallFailureOrphansRecord | app/src/main/java/com/jody/freshfood/ml/ModelDownloader.kt:57-63 | when the copy fallback cannot open its target, the surviving old record no longer matches any installed file |
| Badges.OverripeMentionsRipe | app/src/main/java/com/jody/freshfood/ui/home/adapter/ScanHistoryAdapter.kt:66-67 | a label that mentions "overripe" also mentions "ripe" |
| HistoryAdapter.Removed | app/src/main/java/com/jody/freshfood/ui/home/adapter/ScanHistoryAdapter.kt:36 | one shorter; elements before the position are kept, later ones move down by one |
| HistoryAdapter.InsertionIndex | app/src/main/java/com/jody/freshfood/ui/home/adapter/ScanHistoryAdapter.kt:43 | a valid position is kept, anything else becomes the size |
| HistoryAdapter.Inserted | app/src/main/java/com/jody/freshfood/ui/home/adapter/ScanHistoryAdapter.kt:43-44 | one longer; the item is at the clamped index, with the rest shifted |
| HistoryAdapter.UndoRemove | app/src/main/java/com/jody/freshfood/ui/home/adapter/ScanHistoryAdapter.kt:34-46 | `insertItem(p, removeItem(p))` restores the list |
| HistoryAdapter.InsertOutOfRangeAppends | app/src/main/java/com/jody/freshfood/ui/home/adapter/ScanHistoryAdapter.kt:43 | an out-of-range position appends |
| HistoryAdapter.ScanHistoryAdapter.RemoveItem | app/src/main/java/com/jody/freshfood/ui/home/adapter/ScanHistoryAdapter.kt:34-39 | a valid position returns the element and removes it; an invalid one (where `removeAt` throws) changes nothing |
| HistoryAdapter.ScanHistoryAdapter.InsertItem | app/src/main/java/com/jody/freshfood/ui/home/adapter/ScanHistoryAdapter.kt:41-46 | the list becomes `Inserted(old list, position, item)` |
| HistoryAdapter.HistoryBadgeNeverOverripe | app/src/main/java/com/jody/freshfood/ui/home/adapter/ScanHistoryAdapter.kt:63-70 | the history list never shows the overripe badge; an overripe label gets the ripe badge |
| HistoryAdapter.HistoryBadgeRules | app/src/main/java/com/jody/freshfood/ui/home/adapter/ScanHistoryAdapter.kt:63-70 | fresh if "fresh", or if neither "ripe" nor "spoil"/"bad"; ripe if "ripe" without "fresh"; spoiled if "spoil"/"bad" without "fresh" or "ripe" |
| HistoryAdapter.FormatRelative | app/src/main/java/com/jody/freshfood/ui/home/adapter/ScanHistoryAdapter.kt:81-91 | an "N days ago" row always has N ≥ 2 |
| HistoryAdapter.FormatRelativeBuckets | app/src/main/java/com/jody/freshfood/ui/home/adapter/ScanHistoryAdapter.kt:83-90 | under one day, or in the future: today; one to two days: yesterday; otherwise the number of whole days |
| HistoryAdapter.ScanDiffConsistent | app/src/main/java/com/jody/freshfood/ui/home/adapter/ScanHistoryAdapter.kt:94-102 | same item iff same id; equal contents imply the same item; an edited row with its id kept is the same item |
| ScanScreen.PowerOfTwoGap | app/src/main/java/com/jody/freshfood/ui/scan/ScanFragment.kt:233 | no power of two lies strictly between a power of two and its double |
| ScanScreen.DoublingStep | app/src/main/java/com/jody/freshfood/ui/scan/ScanFragment.kt:233 | a doubling keeps `scale` a power of two within 32 bits, with every smaller power still too small |
| ScanScreen.SampleSize | app/src/main/java/com/jody/freshfood/ui/scan/ScanFragment.kt:231-233 | `scale` is a power of two ≥ 1 with `w/scale ≤ maxDim` and `h/scale ≤ maxDim`; it is the least such power; it is 1 when both sides already fit |
| ScanScreen.CoerceAtMost | app/src/main/java/com/jody/freshfood/ui/scan/ScanFragment.kt:239-240 | the result is at most both the value and the bound, and is one of them |
| ScanScreen.ScaledSize | app/src/main/java/com/jody/freshfood/ui/scan/ScanFragment.kt:237-241 | each side capped at `maxDim` |
| ScanScreen.ScaledSizeStable | app/src/main/java/com/jody/freshfood/ui/scan/ScanFragment.kt:237-241 | sides within the bound are kept; capping twice is capping once |
| ScanScreen.Padded | app/src/main/java/com/jody/freshfood/ui/scan/ScanFragment.kt:212 | at least the width, all digits |
| ScanScreen.PaddedTwoDigits | app/src/main/java/com/jody/freshfood/ui/scan/ScanFragment.kt:212 | a number below 100 pads to two digits |
| ScanScreen.PaddedFourDigits | app/src/main/java/com/jody/freshfood/ui/scan/ScanFragment.kt:212 | a number below 10000 pads to four digits |
| ScanScreen.PaddedValue | app/src/main/java/com/jody/freshfood/ui/scan/ScanFragment.kt:212 | zero padding keeps the number: the padded digits read back as `n` |
| ScanScreen.CaptureFileNameShape | app/src/main/java/com/jody/freshfood/ui/scan/ScanFragment.kt:211-214 | a capture name is `SCAN_yyyyMMdd_HHmmss.jpg`: 24 characters, digits where the pattern has letters, and the digits at 5-8, 9-10, 11-12, 14-15, 16-17 and 18-19 read back as the year, month, day, hour, minute and second |
| ScanScreen.CaptureFileNameInjective | app/src/main/java/com/jody/freshfood/ui/scan/ScanFragment.kt:211-214 | captures at different times get different names |
| ContributeScreen.Validate | app/src/main/java/com/jody/freshfood/ui/contribute/ContributeActivity.kt:135-162 | checks image, then fruit type, then freshness, then consent; reports only the first failing check; submits iff all pass |
| ContributeScreen.FreshnessLevelDistinct | app/src/main/java/com/jody/freshfood/ui/contribute/ContributeActivity.kt:172-178 | the four buttons send four distinct non-empty levels; anything else sends "" |
| ContributeScreen.PerformUploadWithRetry | app/src/main/java/com/jody/freshfood/ui/contribute/ContributeActivity.kt:242-269 | 1 to 3 calls; no call after a success; success iff the last call succeeds; giving up means 3 failures and throws the third one's exception; delays of 1000 ms then 2000 ms, none after the last call |
| ContributeScreen.UploadFeedback | app/src/main/java/com/jody/freshfood/ui/contribute/ContributeActivity.kt:184-218 | success thanks the user; an `IOException` shows the network error; any other exception shows its message |
| ContributeScreen.CountAfterSuccess | app/src/main/java/com/jody/freshfood/ui/contribute/ContributeActivity.kt:187-189 | the stored count (0 if none) plus one, wrapping at `Int.MAX_VALUE` |
| ContributeScreen.RejectedThriceIsNetworkError | app/src/main/java/com/jody/freshfood/ui/contribute/ContributeActivity.kt:248-269 | three `success = false` answers end in the network-error toast |
| ResultScreen.InsightsText | app/src/main/java/com/jody/freshfood/ui/result/ResultActivity.kt:93 | empty insights iff the dummy note is shown; otherwise the insights |
| ResultScreen.AdviceText | app/src/main/java/com/jody/freshfood/ui/result/ResultActivity.kt:95 | null advice iff the default advice is shown; otherwise the advice |
| ResultScreen.DaysLeftText | app/src/main/java/com/jody/freshfood/ui/result/ResultActivity.kt:96 | null days iff "unknown" is shown; otherwise the formatted count |
| ResultScreen.PopulateUI | app/src/main/java/com/jody/freshfood/ui/result/ResultActivity.kt:73-96 | fruit type with only its first character upper-cased; the label as is; the badge by `ResultBadge`; the three fallback texts |
| ResultScreen.OnCreate | app/src/main/java/com/jody/freshfood/ui/result/ResultActivity.kt:37-44 | a missing extra finishes with the no-data toast and populates nothing; otherwise the screen is populated from the extra |
| ResultScreen.ResultBadgeRules | app/src/main/java/com/jody/freshfood/ui/result/ResultActivity.kt:76-83 | overripe iff "overripe" without "fresh"; ripe iff "ripe" without "fresh" or "overripe"; spoiled iff "spoil"/"bad" without "fresh" or "ripe" |
| ResultScreen.BadgesAgreeExceptOverripe | app/src/main/java/com/jody/freshfood/ui/result/ResultActivity.kt:76-83 | the result screen and the history list pick the same badge, except for an overripe label, which the list shows as ripe |
| ResultScreen.CapitalizeIdempotent | app/src/main/java/com/jody/freshfood/ui/result/ResultActivity.kt:73 | capitalising the fruit type twice is capitalising it once |
| ScanResults.ToEntity | app/src/main/java/com/jody/freshfood/data/model/ScanResultExtensions.kt:9-20 | `id = 0`, `scanDate = now`, and the six shared fields are copied |
| ScanResults.ToScanResult | app/src/main/java/com/jody/freshfood/data/model/ScanResultExtensions.kt:26-36 | the six shared fields are copied, and `insights` is the argument |
| ScanResults.ResultRoundTrip | app/src/main/java/com/jody/freshfood/data/model/ScanResultExtensions.kt:9-36 | `toScanResult(toEntity(r), r.insights) == r` |
| ScanResults.EntityRoundTrip | app/src/main/java/com/jody/freshfood/data/model/ScanResultExtensions.kt:9-36 | entity → result → entity keeps every field, except that `id` becomes 0 and `scanDate` becomes now |
| ScanResults.DefaultInsightsEmpty | app/src/main/java/com/jody/freshfood/data/model/ScanResultExtensions.kt:26 | the default insights are "" |

## Left out

- Network plumbing (OkHttp, Retrofit, `ModelUpdateService.create`, `ContributeService`): the manifest fetch, each URL's response and each upload attempt's outcome are inputs. Building the request, its Base64 image and the app version are not modelled.
- SHA-256 itself (FIPS 180-4) is an uninterpreted function. `String.format("%02x")` is modelled as a lower-case hex table.
- org.json is modelled as a typed map of members. Text escaping, nested values and doubles are not modelled, and a numeric string is parsed only as a plain decimal.
- Every preferences value is JSON text, because this file is only ever written with `putString`. The `as? String` test in `getAllModelMetadata` is therefore always true here.
- Case mapping (`lowercase`, `uppercaseChar`, `equals(ignoreCase = true)`) is ASCII only.
- Creating the `models/` directory (`mkdirs`) is not modelled, and neither is the outer `catch` of `initialize`.
- Copying a bundled asset either completes or fails before writing, depending on whether the asset exists. A copy that fails part-way is not modelled.
- File-system faults are per model name, and HTTP responses are per URL. A cycle uses one clock value, `now`, for all its records.
- Exception messages are never null. `e.message ?: "Unknown error"` and Kotlin's `"null"` text for a null message are therefore not modelled.
- Four rare I/O failure paths are not modelled, because the model has no input for them:
  - `FileOutputStream(tempFile)` failing to open (`ModelDownloader.kt:37`), which would leave the staging file absent. The nearest modelled input, a read failure with no chunks, leaves it empty.
  - `tempFile.delete()` failing after a completed copy (`ModelDownloader.kt:62`), which would leave the staging file behind.
  - A read error on a present file in `sha256Stream` (`ModelDownloader.kt:79-86`), which would return "". `Sha256Stream` returns "" only for a missing file.
  - An exception from `readBytes` or `getPackageInfo` before the first upload attempt (`ContributeActivity.kt:226-230`), which would reach the error toast after zero calls. `PerformUploadWithRetry` always makes at least one call.
- Concurrency (`@Synchronized`, `flowOn`, coroutines, `delay`) is left out. The events are returned as a list in emission order, and the delays as a list of milliseconds.
- `submitList` is modelled as committing the new list at once. `ListAdapter` commits it after a background diff, so `HistoryAdapter.UndoRemove` describes the list once that diff has landed.
- Android UI and lifecycle are left out: toasts, intents, views, images, the camera, bitmap decoding and JPEG encoding. The bitmap decoded at the chosen sample size is an input.
- Floats are left out: confidence is an opaque 32-bit value that is only copied, and the percentages computed from it are not modelled.
- Randomness (the dummy predictor, `ScanViewModel`) is left out.
- The Room database, the DAO and the repository are left out; they only delegate.
- ScanScreen.SampleSize: requires `maxDim ≥ 1`, the bound its only caller passes (1024). No `Int` overflow of `scale` is modelled for other bounds.
- ModelUpdateManager.RerunIsQuiet and ModelUpdateManager.NothingStaleAfter: require distinct model names in the manifest, which the code does not check. Staleness is computed against the ledger as it was when the cycle started (`ModelUpdateManager.kt:34-41`). So for a manifest `[a v3, a v2]` both entries are downloaded, v2 overwrites v3, and the next cycle downloads v3 again.
- ScanScreen.CaptureFileNameShape: stated for years 0 to 9999 only. `SimpleDateFormat` prints more digits beyond that.
- HistoryAdapter.FormatRelativeBuckets: stated only for elapsed times of fewer than 2^31 days in either direction. Beyond that, the `toInt()` wrap-around is modelled but not characterised.
- ContributeScreen.PerformUploadWithRetry: the fallback `lastException ?: IOException(...)` is kept, but it is unreachable, because every failed attempt sets the exception.
