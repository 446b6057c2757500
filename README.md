# emu-sync in Dafny

emu-sync keeps a ROM and BIOS library in step with an object-store bucket.
A publisher uploads files from a source tree and records them in a
manifest. The manifest maps each relative path to a size and an MD5. Each
client downloads what its own local manifest says it lacks. This project
models the engine behind that sync and the small components around it,
and proves properties of the model:

- the manifest, its JSON form, its atomic save and its three-way diff (`Manifest`);
- the upload hash cache (`Cache`) and the upload run: scan, diff, upload, delete, publish (`Upload`);
- the download run (`Sync`): the lock, the filter, the diff, drift healing, atomic per-file downloads, threshold saves, the delete-or-retain policy and the final save;
- the self-healing verifier (`Verification`);
- the retry loop (`Retry`), the token-bucket rate limiter and its reader (`RateLimit`);
- the in-memory bucket with error injection that stands for the object store (`Mock`), and the key prefixing of the real client (`Storage`);
- configuration validation and path defaults (`Config`);
- the directory grouping and selection encoding behind `emu-sync choose` (`Choose`, with `Sorting` for `sort.Slice`);
- the sync endpoints of the web UI: the event log, the event-stream cursor, the status classification and the one-sync-at-a-time gate (`Web`);
- version comparison for self-update (`Update`);
- setup tokens, which are base64 JSON (`Token`, `Base64`);
- the JSON-lines progress reporter (`Progress`).

The surroundings are abstract:

- The local filesystem is the class `FileSystem.Disk`. It holds path-to-bytes files with modification times, the set of directories with the size `os.Stat` reports for each, and per-path fault sets for reading, writing, renaming, removing, stat and directory creation, so the error branches of these calls can be reached.
- The bucket is `Mock.MockBackend`: a map of objects, a call log and per-key error maps.
- JSON text, TOML, MD5 and the RFC 3339 text form of `time.Time` are the function-valued fields of `Json.Lib`. A round-trip lemma assumes `Lib.RoundTrips()`, which says that unmarshal inverts marshal and that parsing a formatted instant gives it back. Decoding a JSON value tree into the system's structs is modelled concretely: absent or null fields give zero values, and a wrong JSON type is an error. The time fields, `generated_at` of the manifest and `mtime` of the hash cache, are JSON strings: a number there is a decoding error.
- Time, the random jitter, the elapsed-time refill of the limiter, the operating system and environment variables, and `cfg.ShouldSync` are parameters.

Where a Go call panics, the model returns `None`.

Worker pools are modelled by their sequential path (`Workers` ≤ 1). Both
engines run each transfer through the same retry loop as `Retry.WithBackoff`,
with a context that is never cancelled, and keep that loop as written for a
negative retry count; the clamped loop of the second finding below is proved
on its own.

The upload run prunes and saves the hash cache after the uploads and
deletes, just before it publishes the manifest
(`internal/upload/upload.go:133-135`), and the model does the same
(`Upload.Publish`, `Upload.Run`). A crash during the transfers therefore
loses the hashes computed in that run.

## Model

| member | source | states |
|---|---|---|
| Retry.Pow2 | internal/retry/retry.go:25 | 1<<attempt is a positive whole number of seconds |
| Retry.WithBackoff | internal/retry/retry.go:13-36 | for any maxRetries, negative ones included, the attempt loop's error, call count and delays are exactly those of the reference run `Run` from attempt 0 |
| Retry.CallsBounded | internal/retry/retry.go:9-16 | the operation is called at most maxRetries+1 times with at most maxRetries delays, and at least once exactly when maxRetries is not negative; with a negative count the run makes no call and no delay and returns nil |
| Retry.FirstSuccessStops | internal/retry/retry.go:16-18 | when attempts before k fail uncancelled and attempt k succeeds, the run returns nil after exactly k+1 calls |
| Retry.NoRetriesCallsOnce | internal/retry/retry.go:12 | with maxRetries 0 the operation is called once and its result is returned with no delay |
| Retry.ExhaustionReturnsLastError | internal/retry/retry.go:14-35 | when every attempt fails and nothing is cancelled, the last attempt's error is returned after maxRetries+1 calls |
| Retry.CancellationStops | internal/retry/retry.go:29-31 | cancellation during the delay after failed attempt c returns ctx.Err() after c+1 calls |
| Retry.DelaysDoubling | internal/retry/retry.go:24-27 | the i-th delay is 2^i seconds plus that attempt's jitter, so within [2^i s, 2^i s + 1 s); one delay separates consecutive calls, plus the one a cancellation cut short |
| Retry.ConstantOutcome | internal/retry/retry.go:13-36 | uncancelled, an operation that always gives the same result is tried once when it succeeds and maxRetries+1 times when it fails, and that result is returned; with a negative maxRetries it is never tried and nil is returned |
| Retry.NegativeRetriesNeverCall | internal/retry/retry.go:14 | with a negative maxRetries the loop body never runs: no call, no delay, nil error |
| Retry.FailureReportedAsSuccess | internal/retry/retry.go:13-15 | an operation that always fails, run with maxRetries -1, is reported as a success without being called |
| Retry.RunClamped | internal/retry/retry.go:9-12 | with the count clamped at zero the operation is called at least once and at most max(maxRetries, 0)+1 times, and a failed first call followed by success takes at least two calls |
| Retry.ClampedAgrees | internal/retry/retry.go:9-14 | the clamped run equals the loop as written for every count that is not negative, and for a negative count it calls the operation once and returns its result |
| Cache.LookupIn | internal/upload/cache.go:56-65 | lookup hits exactly when an entry for the key has the same size and mtime, and then gives its MD5 |
| Cache.LookupAfterUpdate | internal/upload/cache.go:67-69 | right after update(k, s, m, h), lookup(k, s, m) gives h, and lookups of other keys are unchanged |
| Cache.FromJsonValue | internal/upload/cache.go:33-41 | a JSON object without "files" decodes to an empty map |
| Cache.DecodeFiles | internal/upload/cache.go:33-41 | a null "files" member decodes to an empty map, and a decoded object keeps exactly its keys |
| Cache.LoadFiles | internal/upload/cache.go:27-43 | an unreadable file, one that is not JSON, or one that does not decode (a numeric mtime, say) gives an empty cache, never an error; a file save wrote (mtimes as RFC 3339 text) loads back whole, by Cache.SaveLoadRoundTrip |
| Cache.DecodeEntry | internal/upload/cache.go:11-15 | a null entry is the zero entry; a numeric mtime is a decoding error, and a text mtime is read as RFC 3339 |
| Cache.FromToJson | internal/upload/cache.go:33-54 | decoding the saved JSON form gives back every entry |
| Cache.SaveLoadRoundTrip | internal/upload/cache.go:27-54 | a cache file written by save loads back with exactly the saved entries |
| Cache.HashCache.constructor | internal/upload/cache.go:21-23 | a new cache is empty |
| Cache.HashCache.Load | internal/upload/cache.go:27-43 | loadHashCache holds what LoadFiles gives |
| Cache.HashCache.Lookup | internal/upload/cache.go:56-65 | the cache's lookup is LookupIn on its entries |
| Cache.HashCache.Update | internal/upload/cache.go:67-69 | update upserts one entry, after which lookup with the same size and mtime hits |
| Cache.HashCache.Prune | internal/upload/cache.go:71-78 | prune keeps exactly the entries whose keys are valid |
| Cache.HashCache.Save | internal/upload/cache.go:45-54 | the parent directory is created first; save fails exactly when creating it or writing the file fails, leaving the files unchanged, and otherwise writes the JSON form of the entries at the path and nothing else |
| Config.Validate | internal/config/config.go:77-94 | validation fails on the first missing required field with that field's message, otherwise keeps the config and defaults empty sync_dirs to roms and bios |
| Config.ValidateIdempotent | internal/config/config.go:77-94 | validating a validated config changes nothing |
| Config.Load | internal/config/config.go:58-75 | a read failure and a parse failure are reported with their prefixes; otherwise the result is the validated parsed config |
| Config.DarwinManifestPath | internal/config/config.go:46-48 | on darwin the local manifest is under Library/Application Support/emu-sync |
| Config.XdgManifestPath | internal/config/config.go:49-52 | elsewhere, with XDG_DATA_HOME set, it is under $XDG_DATA_HOME/emu-sync |
| Config.HomeManifestPath | internal/config/config.go:53-54 | elsewhere, without it, it is under .local/share/emu-sync in the home directory |
| Storage.NewClient | internal/storage/storage.go:54-58 | the client keeps the bucket and the prefix with one trailing slash removed |
| Storage.NewClientTrimsOneSlash | internal/storage/storage.go:57 | only one trailing slash is removed: "a//" becomes "a/" |
| Storage.PrefixedKeyShape | internal/storage/storage.go:74-80 | without a prefix the key is used as is; with one the object key is prefix + "/" + key |
| Storage.PrefixedKeyInjective | internal/storage/storage.go:74-80 | two keys that give the same object key are the same key |
| Storage.ManifestObjectKey | internal/storage/storage.go:200-208 | the manifest is addressed as emu-sync-manifest.json under the prefix |
| Mock.MockBackend.constructor | internal/storage/mock.go:21-29 | a new mock has no objects, no calls and no injected errors |
| Mock.MockBackend.Ping | internal/storage/mock.go:31-33 | Ping always succeeds |
| Mock.MockBackend.UploadFile | internal/storage/mock.go:35-50 | the call is logged; an injected error wins, then a local read error; otherwise the file's bytes become the object |
| Mock.MockBackend.UploadBytes | internal/storage/mock.go:52-63 | the call is logged; an injected error wins; otherwise the data becomes the object |
| Mock.MockBackend.DownloadBytes | internal/storage/mock.go:82-97 | the call is logged; an injected error, then not-found, else the object's bytes |
| Mock.MockBackend.DownloadFile | internal/storage/mock.go:65-80 | the same precedence as DownloadBytes; on success the object's bytes are written at the local path |
| Mock.MockBackend.DeleteObject | internal/storage/mock.go:99-110 | the call is logged; an injected error wins; otherwise the key is gone, absent or not |
| Mock.MockBackend.DownloadManifest | internal/storage/mock.go:112-114 | DownloadBytes at the manifest key |
| Mock.MockBackend.UploadManifest | internal/storage/mock.go:116-118 | UploadBytes at the manifest key |
| Manifest.New | internal/manifest/manifest.go:33-40 | a new manifest is version 1, stamped with the given time, and lists no file |
| Manifest.IsEmptyMeansNoKeys | internal/manifest/manifest.go:142-145 | IsEmpty holds exactly when no key is listed |
| Manifest.DecodeEntry | internal/manifest/manifest.go:14-17 | a null entry decodes to size 0 and an empty MD5 |
| Manifest.DecodeFiles | internal/manifest/manifest.go:68-70 | a null files member gives an empty map; a decoded object keeps exactly its keys |
| Manifest.FromJsonValue | internal/manifest/manifest.go:62-73 | a document without files decodes to an empty file map; a text generated_at is read as RFC 3339, and one of another JSON type (a number) makes decoding fail |
| Json.DecodeTime | internal/manifest/manifest.go:22 | a time.Time field decodes from RFC 3339 text, null leaves the zero time, and any other JSON type is an error |
| Manifest.ParseJSON | internal/manifest/manifest.go:61-73 | parsing succeeds exactly when the text is JSON and decodes into a manifest, whose generated_at must be RFC 3339 text or null (Manifest.FromJsonValue) |
| Manifest.ParseWithoutFilesIsEmpty | internal/manifest/manifest.go:68-70 | a document with a version and an RFC 3339 generated_at but no files member parses to a manifest with an empty file map |
| Manifest.DecodeEntryInverts | internal/manifest/manifest.go:14-17 | decoding an entry's JSON gives the entry back |
| Manifest.DecodeFilesInverts | internal/manifest/manifest.go:23 | decoding the files member's JSON gives every entry back |
| Manifest.ToJsonParseRoundTrip | internal/manifest/manifest.go:61-102 | ParseJSON(ToJSON(m)) is m, files included |
| Manifest.LoadJSON | internal/manifest/manifest.go:42-59 | a read failure is an error; a successful read gives exactly ParseJSON of the bytes read, and a success implies the read succeeded |
| Manifest.SaveJSON | internal/manifest/manifest.go:75-97 | success exactly when creating the parent directory, writing the temp file and renaming it all succeed; a failed mkdir returns "creating manifest directory: ..." and changes no file; on success the file at the path is the new JSON, and after a failure it is left as it was |
| Manifest.HashFile | internal/manifest/manifest.go:126-140 | the MD5 of the file's bytes exactly when the file can be read |
| Manifest.ChangedIsInequality | internal/manifest/manifest.go:112 | entries count as modified exactly when they differ in MD5 or size |
| Manifest.Diff | internal/manifest/manifest.go:104-124 | added, modified and deleted list, without repeats, exactly the keys only remote has, the keys both have with different content, and the keys only local has |
| Manifest.DiffDisjoint | internal/manifest/manifest.go:104-124 | the three lists are pairwise disjoint |
| Manifest.DiffInverse | internal/manifest/manifest.go:104-124 | swapping the manifests swaps added and deleted and keeps modified |
| Manifest.DiffSelfEmpty | internal/manifest/manifest.go:104-124 | a manifest differs from itself in nothing |
| Manifest.DiffEmptyIffSameFiles | internal/manifest/manifest.go:104-124 | the diff is empty exactly when the file maps are equal |
| Progress.With | internal/progress/progress.go:24-30 | an omitempty field is present with its value unless it is omitted, and every other field is unchanged |
| Progress.EventFromJson | internal/progress/progress.go:22-31 | only an object or null decodes into an Event |
| Progress.EventRoundTrip | internal/progress/progress.go:22-31 | reading an event's JSON back gives the same event, zero-valued fields included |
| Progress.StringFieldRoundTrip | internal/progress/progress.go:23-26 | the event, file and error fields read back as written |
| Progress.IntFieldRoundTrip | internal/progress/progress.go:25-30 | the size and count fields read back as written |
| Progress.Reporter.constructor | internal/progress/progress.go:40-44 | a new reporter has written nothing |
| Progress.Reporter.Emit | internal/progress/progress.go:46-58 | a disabled reporter writes nothing; an enabled one writes exactly one line, the JSON of the event |
| Progress.Reporter.Start | internal/progress/progress.go:60-63 | emits a start event with the file and size |
| Progress.Reporter.Complete | internal/progress/progress.go:65-68 | emits a complete event with the file |
| Progress.Reporter.FileError | internal/progress/progress.go:70-73 | emits an error event with the file and the error text |
| Progress.Reporter.Delete | internal/progress/progress.go:75-78 | emits a delete event with the file |
| Progress.Reporter.Skip | internal/progress/progress.go:80-83 | emits a skip event with the file |
| Progress.Reporter.Done | internal/progress/progress.go:85-94 | emits a done event with the four counts |
| Progress.LinesReadBack | internal/progress/progress.go:46-58 | every line written parses back to the event emitted at that point, in call order |
| Base64.ValueOfCharOf | internal/token/token.go:33 | every sextet's character of the standard alphabet decodes to that sextet |
| Base64.Encode | internal/token/token.go:28 | standard padded base64 gives 4 characters per started 3 bytes and no line breaks |
| Base64.DecodeEncode | internal/token/token.go:28-36 | decoding the standard encoding of any bytes gives them back |
| Base64.DecodeQuantum | internal/token/token.go:33 | a 4-character group decodes to 1 to 3 bytes, fewer than 3 exactly when it ends in padding |
| Base64.FullGroup | internal/token/token.go:28-33 | the four characters encoding any three bytes decode back to those bytes |
| Base64.DecodeNeedsWholeGroups | internal/token/token.go:33-36 | text whose length without line breaks is not a multiple of 4 is rejected |
| Token.FromJsonValue | internal/token/token.go:38-41 | null decodes to empty data; anything but an object or null is rejected |
| Token.FromToJsonValue | internal/token/token.go:12-20 | the JSON form of token data, prefix omitted when empty, decodes to the same data |
| Token.Decode | internal/token/token.go:31-48 | bad base64 and bad JSON are rejected with their own prefixes, data without bucket, key_id or secret_key is rejected, and decoding succeeds exactly when none of these happens |
| Token.DecodeEncode | internal/token/token.go:22-48 | a token made from data with the required fields decodes to the same data |
| Token.EncodeWithoutRequiredIsRefused | internal/token/token.go:43-45 | a token made from data missing a required field is refused with the missing-fields message |
| Token.ToConfig | internal/token/token.go:50-67 | the storage fields and emulation path are copied, sync_dirs is roms and bios, delete is on, and the rest is zero |
| Token.FromConfig | internal/token/token.go:69-80 | the storage fields and the emulation path are copied |
| Token.ToConfigFromConfig | internal/token/token.go:50-80 | sharing a config as a token keeps its storage settings and emulation path |
| Token.FromConfigToConfig | internal/token/token.go:50-80 | token data survives the trip through a config unchanged |
| Token.DecodedTokenValidates | internal/token/token.go:50-67 | the config of a decoded token passes validation exactly when it names an emulation path, and validation then leaves it unchanged |
| Update.SegmentValue | internal/update/update.go:95-96 | a segment of digits is its decimal value, and a segment that is not a number counts as 0 |
| Update.Segments | internal/update/update.go:91-92 | a version has at least one segment and no segment contains a dot |
| Update.SegmentsJoin | internal/update/update.go:91-92 | joining the segments with dots gives back the version without its leading "v" |
| Update.ParseVersion | internal/update/update.go:90-99 | parseVersion gives one number per segment, in order |
| Update.SegmentValues | internal/update/update.go:93-97 | the loop gives one number per segment, in order, each segment's value as SegmentValue reads it |
| Update.Parsed | internal/update/update.go:90-99 | the parsed numbers, one per segment, each the segment's value |
| Update.ParsedIs | internal/update/update.go:90-99 | any list with one segment value per segment is the parsed version |
| Update.CompareFrom | internal/update/update.go:72-87 | the comparison is always -1, 0 or 1 |
| Update.CompareVersions | internal/update/update.go:60-88 | CompareVersions is the segment-wise comparison of the parsed versions, with missing segments as 0 |
| Update.IsUpdateAvailable | internal/update/update.go:101-108 | never for a dev build; otherwise exactly when the current version is below the latest |
| Update.CompareReflexive | internal/update/update.go:60-88 | a version compares equal to itself |
| Update.CompareAntisymmetric | internal/update/update.go:60-88 | swapping the arguments negates the result |
| Update.CompareZeroIff | internal/update/update.go:62-87 | two versions compare equal exactly when every segment agrees, missing ones counting as 0 |
| Update.CompareBelowIff | internal/update/update.go:72-87 | a version is below another exactly when the first differing segment is smaller |
| Update.CompareTransitive | internal/update/update.go:60-88 | the comparison is transitive |
| Update.SmallSegment | internal/update/update.go:95 | a one- or two-digit segment has its decimal value |
| Update.NoUpdateToSameOrOlder | internal/update/update.go:101-108 | no update is offered when the latest version is the running one or older |
| Update.SegmentsCompareNumerically | internal/update/update.go:95 | for any major and patch segments, "vA.10.C" parses and compares above "vA.9.C" although "10" sorts before "9" as text |
| Update.MissingSegmentIsZero | internal/update/update.go:62 | every version compares equal to itself with ".0" appended (v1.0 == v1.0.0) |
| Update.ParsedAppendZero | internal/update/update.go:91-99 | appending ".0" to any version appends one segment of value 0 to its parse |
| Verification.Check | internal/sync/verify.go:37-69 | an entry is missing exactly when stat says not-exist, matches exactly when it is a file of the right size whose MD5 agrees, is mismatched when what is at the path (a directory included) has another size or the file's MD5 differs, and is an error when stat fails or hashing fails (a directory of the recorded size cannot be read) |
| Verification.HashVerdict | internal/sync/verify.go:57-69 | once sizes agree, hashing fails exactly when the file cannot be read, and the entry matches exactly when the MD5 agrees |
| Verification.Classify | internal/sync/verify.go:34-70 | each listed key is reported once, under its verdict, and the keys to remove are exactly the missing and mismatched ones, without repeats |
| Verification.Record | internal/sync/verify.go:38-69 | one turn of the loop files one more key under its verdict and keeps the loop's invariant |
| Verification.VerdictsPartition | internal/sync/verify.go:37-70 | every entry lands in exactly one of OK, Mismatch, Missing and Errors |
| Verification.ReportCounts | internal/sync/verify.go:37-70 | the four lists together are as long as the manifest |
| Verification.Pruned | internal/sync/verify.go:72-76 | the pruned manifest keeps the version, the time and exactly the entries not removed, unchanged |
| Verification.PrunedKeepsCheckedAndFailed | internal/sync/verify.go:72-76 | what stays in the manifest is exactly what matched or could not be checked |
| Verification.Verify | internal/sync/verify.go:21-83 | a load failure returns no result and changes nothing; otherwise the result reports every entry, the manifest is rewritten without the stale entries only when there are some, the save failing exactly when SaveJSON's directory creation, write or rename fails, and a failed save still returns the result with its error |
| Verification.RemoveEntries | internal/sync/verify.go:74-76 | deleting each listed key leaves exactly the entries whose keys are not listed |
| Strings.Section | internal/sync/verify.go:89-106 | a titled list is absent when empty and otherwise starts with its title, holds every item under its mark and ends with the last item |
| Verification.SummaryLines | internal/sync/verify.go:85-111 | the summary starts with the OK count and has a titled list for each non-empty kind of problem plus a final line when nothing is wrong |
| Verification.SummaryListsAll | internal/sync/verify.go:89-106 | every mismatched, missing and failed file has its own line under its mark |
| Verification.SummaryEndsAllMatch | internal/sync/verify.go:108-110 | the summary ends with "All files match the manifest." exactly when nothing is mismatched, missing or failed |
| Sync.SyncLock.constructor | internal/sync/sync.go:22-37 | the lock starts free, with the given outcome of opening the lock file |
| Sync.SyncLock.Acquire | internal/sync/sync.go:22-37 | an open failure is reported with its prefix; a held lock gives "another sync is already running"; otherwise the lock is taken |
| Sync.SyncLock.Release | internal/sync/sync.go:39-42 | the lock is free afterwards |
| Sync.FilterRemote | internal/sync/sync.go:108-115 | the filtered manifest is version 1, keeps the remote's time, and holds exactly the remote entries ShouldSync accepts, unchanged |
| Sync.CheckDrift | internal/sync/sync.go:130-145 | one turn of the drift loop keeps its invariant with one key fewer to check |
| Sync.HealDrift | internal/sync/sync.go:119-145 | the additions are extended, each once, by exactly the selected keys listed locally, not queued and missing from disk, and those keys leave the local manifest while every other entry stays |
| Sync.CleanTempFiles | internal/sync/sync.go:363-377 | every leftover temporary file under the base path is removed unless its removal fails, and nothing else changes |
| Sync.DownloadOne | internal/sync/sync.go:337-361 | the error is the first failure among mkdir, download and rename; on success the object's bytes are at the final path and the temporary file is gone; on failure the final path is untouched and the temporary file is removed unless that fails |
| Sync.DownloadWithRetry | internal/sync/sync.go:239-241 | retrying a download gives the same outcome and effect as one downloadOne, as WithBackoff does for an operation with a constant result; with a negative maxRetries nil is returned and neither the disk nor the bucket's call log changes |
| Sync.DownloadSequential | internal/sync/sync.go:230-264 | the local manifest, downloaded keys, errors, unsaved bytes and mid-sync saves are those of the reference DownloadBatch |
| Sync.BatchPartition | internal/sync/sync.go:234-250 | each key is either downloaded or adds exactly one error, and it is downloaded exactly when its retried download reports success |
| Sync.NegativeRetriesCommitAll | internal/sync/sync.go:239-250 | with a negative maxRetries every queued key is listed as downloaded with no error, so its remote entry is committed though nothing was fetched |
| Sync.BatchCommits | internal/sync/sync.go:249 | each download commits the remote entry for its key, and a failed key leaves the local entry as it was |
| Sync.BatchUnsavedBelow | internal/sync/sync.go:254-262 | with a positive threshold and sizes that are not negative, fewer than threshold downloaded bytes are ever left unsaved |
| Sync.BatchSavesBounded | internal/sync/sync.go:254-262 | every mid-sync save follows at least threshold downloaded bytes, and there are no more saves than downloads |
| Sync.BatchSavesSubsumed | internal/sync/sync.go:249-262 | a mid-sync save never records a key the final manifest lacks |
| Sync.RemovePartition | internal/sync/sync.go:202-208 | each deleted-upstream key is either removed or adds one error, and it is removed exactly when its removal does not fail (an absent file counts as removed) |
| Sync.AfterRemovesShape | internal/sync/sync.go:202-207 | removing only drops files: what stays is unchanged, and a key's file stays exactly when its removal fails |
| Sync.ApplyDeletes | internal/sync/sync.go:172-212 | a dry run lists every key as deleted and changes nothing; with delete disabled every key is retained; otherwise the removed keys are deleted and leave the manifest, and failures become errors |
| Sync.PlanSync | internal/sync/sync.go:84-145 | a failed manifest download or parse is the error; otherwise the plan is the filtered selection, the diff plus drift, and the local manifest without drifted entries |
| Sync.MakePlan | internal/sync/sync.go:108-159 | filtering, diffing and healing drift give a plan that meets Planned |
| Sync.PlannedFrom | internal/sync/sync.go:108-159 | what FilterRemote, Diff and HealDrift establish adds up to Planned |
| Sync.QueueConcat | internal/sync/sync.go:159 | the healed additions followed by the modified keys queue each key once |
| Sync.PlanOnlySelected | internal/sync/sync.go:108-159 | only keys ShouldSync accepts are downloaded, and no more of them than the filtered manifest holds |
| Sync.Threshold | internal/sync/sync.go:152-156 | the save threshold is positive: the option when positive, 50 MiB otherwise |
| Sync.Run | internal/sync/sync.go:72-228 | the lock is released on every path and a dry run never takes it; lock, download and parse failures return no result; a dry run reports the plan and changes nothing; otherwise downloads follow DownloadBatch, deletes follow the delete policy, skipped counts the unqueued files, and the final manifest is saved, or "saving local manifest: ..." is returned exactly when SaveJSON's directory creation, write or rename fails |
| Sync.SummaryLines | internal/sync/sync.go:379-396 | the summary has the downloaded, deleted, unchanged and total lines, a retained line only when files were kept, and every error under its mark |
| Sync.ExecuteSync | internal/sync/sync.go:147-228 | after planning: a dry run reports the queued and deleted keys and changes nothing; otherwise temporary files are cleaned, downloads follow DownloadBatch, the delete policy is applied to what the downloads left, and the final manifest is saved, failing exactly when SaveJSON's directory creation, write or rename fails |
| Upload.PathForKeyFor | internal/upload/upload.go:253-257 | the key walked from a path (filepath.Rel then ToSlash) joins back onto the source path to give that path |
| Upload.JoinIsPathFor | internal/upload/upload.go:162 | the path uploadSequential opens for a non-empty key, filepath.Join(source, key), is the path the scan recorded that key from |
| Upload.CachedHashAgrees | internal/upload/upload.go:259-285 | in a sound scan, a file whose cache entry hits with a non-empty hash takes that hash and keeps the entry; any other file takes the MD5 of its bytes |
| Upload.CacheAfterRecord | internal/upload/upload.go:276-285 | recording a file's entry and its cache update keeps the cache in step with the manifest being built |
| Upload.HitsAfterRecord | internal/upload/upload.go:260-265 | the hits counted stay exactly the files whose lookup hit, after one more file is recorded |
| Upload.SoundAfterRecord | internal/upload/upload.go:287-290 | adding a walked file's entry (size and hash chosen as lines 259-285 choose it) keeps the manifest sound |
| Upload.ResolveHash | internal/upload/upload.go:259-285 | a cache hit counts exactly when lookup succeeds; a non-empty hit is used and the cache is unchanged; a read failure gives no hash; otherwise the MD5 is computed and stored in the cache under the file's size and mtime |
| Upload.ScanFile | internal/upload/upload.go:233-291 | one callback of the walk keeps the scan invariant: on success the file's key is added, on a read failure nothing changes and the file is one that failed; the hit counter grows by exactly 1 when the file's size and mtime hit the cache as it stood before the call and by 0 otherwise; the cache is left as it was (a hit or a read failure) or gains exactly this file's new entry |
| Upload.VisitFile | internal/upload/upload.go:233-291 | after one more callback the counter equals CountHits over the visit order with this file appended, and the cache hits a walked file exactly when the initial cache did or the file has been visited and read |
| Upload.ReflectsAfterVisit | internal/upload/upload.go:259-285 | a callback adds 1 to the hit count exactly when its file hits the current cache, which is exactly when it hit the initial cache or was visited and read before; only its own key changes, so every other file keeps its answer |
| Upload.CountHitsDistinct | internal/upload/upload.go:259-263 | when no file is visited twice, the hit count is exactly the number of visited files that hit the cache loaded at the start |
| Upload.WalkSyncDir | internal/upload/upload.go:223-296 | walking one sync dir keeps the scan invariant and only adds keys; the counter equals CountHits over the visit order extended by this walk's visits, which are distinct files of this dir, all of them (each with its key recorded) unless a read failed (dot-names skipped when asked) |
| Upload.ScanFiles | internal/upload/upload.go:233-291 | running the callback over a set of walked files keeps the scan invariant; the counter equals CountHits over the visit order extended by these visits, which are distinct members of the set, all of them (each with a key) unless a read fails; a failure names one of them |
| Upload.BuildManifest | internal/upload/upload.go:221-296 | the manifest is version 1 stamped now; every entry is a walked file with its size and cached-or-computed hash; with no read failure every walked file is in it; the hit count equals CountHits of the visit order under the cache as it was, every visit is a walked file, and with no read failure every walked file is visited |
| Upload.UploadWithRetry | internal/upload/upload.go:162-172 | the upload is retried as Retry.WithBackoff retries it; on success the object holds the file's bytes, on failure the bucket is unchanged and the error is the backend's; with a negative maxRetries nil is returned, UploadFile is never called and the bucket is unchanged |
| Upload.UploadPartition | internal/upload/upload.go:160-175 | every key to upload ends either uploaded or as an error, and uploaded holds exactly the keys whose retried upload reports success |
| Upload.NegativeRetriesUploadNothing | internal/upload/upload.go:166-173 | with a negative maxRetries every key is listed as uploaded with no error while the bucket is left as it was |
| Upload.UploadSequential | internal/upload/upload.go:160-175 | the uploaded keys, the errors and the new bucket are those of uploading each key in order, each with its retries |
| Upload.Deletable | internal/upload/upload.go:115-129 | the keys reported deleted are exactly the keys whose DeleteObject does not fail |
| Upload.DeleteErrors | internal/upload/upload.go:123-126 | every key to delete is either reported deleted or gives one error |
| Upload.AfterDeletes | internal/upload/upload.go:115-129 | after the deletes the bucket holds the old objects unchanged, less exactly the keys whose delete succeeded |
| Upload.DeleteRemoved | internal/upload/upload.go:115-129 | a dry run reports every key deleted and touches nothing; otherwise the deleted keys, errors and bucket follow Deletable, DeleteErrors and AfterDeletes |
| Upload.SaveCache | internal/upload/upload.go:148-158 | the cache is pruned to the manifest's keys and written to the cache path, unless creating its directory or writing fails, in which case the files are unchanged (the error is only logged) |
| Upload.PrunedIsSaved | internal/upload/upload.go:148-158 | the pruned cache a scan leaves behind holds, for each manifest file, its size, mtime and hash |
| Upload.PriorManifest | internal/upload/upload.go:84-97 | a missing or undownloadable remote manifest counts as an empty one; otherwise it is parsed and a parse error aborts |
| Upload.UploadsLand | internal/upload/upload.go:160-175 | with a count that is not negative, every key whose upload succeeds is in the bucket afterwards with its file's bytes |
| Upload.FetchPrior | internal/upload/upload.go:84-97 | the remote manifest used for diffing is PriorManifest of the bucket |
| Upload.TransferChanges | internal/upload/upload.go:99-131 | toUpload is exactly the added and modified keys and toDelete the deleted ones, each without repeats; skipped is the manifest's size less the uploads; a dry run reports both lists and changes nothing; otherwise uploads then deletes are applied |
| Upload.DeletableCount | internal/upload/upload.go:115-129 | the keys reported deleted have no repeats when the keys to delete have none |
| Upload.Publish | internal/upload/upload.go:133-144 | the cache is pruned and saved, then the manifest's JSON is uploaded; a failed upload returns "uploading manifest: ..." and leaves the bucket unchanged |
| Upload.Scan | internal/upload/upload.go:51-62 | the cache is loaded from its path and the manifest built with it is sound, complete when no read fails, and its pruned cache is what SavedCache says; the hit count is CountHits of the walk's visits under the loaded cache |
| Upload.Run | internal/upload/upload.go:48-146 | the manifest is built soundly; a successful result reports as cacheHits exactly CountHits of the scan's visits under the loaded cache; a dry run changes neither bucket nor disk; manifest-only transfers nothing and publishes the manifest; an unparseable remote manifest aborts before any change; otherwise the uploads and deletes of the diff are applied, the manifest is published and the pruned cache is written |
| Upload.RunScanned | internal/upload/upload.go:62-146 | after the scan, a successful result carries the scan's hit count; the manifest-only branch lists nothing to transfer; every other outcome is that of PublishOnly or TransferAndPublish |
| Upload.PublishOnly | internal/upload/upload.go:69-82 | manifest-only: succeeds exactly when dry or the manifest upload has no injected error; the result skips every file and lists nothing else; a dry run changes nothing; otherwise the manifest is published and the pruned cache written |
| Upload.TransferAndPublish | internal/upload/upload.go:84-146 | an unparseable remote manifest aborts with bucket and disk unchanged; a missing one counts as empty; otherwise the outcome is that of TransferDiff against the parsed remote manifest |
| Upload.TransferDiff | internal/upload/upload.go:99-146 | the upload list is the added plus modified keys and the delete list the deleted keys, each without repeats; success exactly when dry or the manifest upload has no injected error; the result, the bucket (uploads, then deletes, then the manifest) and the written cache are those of the reference functions; a dry run changes nothing |
| Upload.RescanIsStable | internal/upload/upload.go:221-296 | scanning an unchanged tree again with the cache the first scan saved gives the same manifest entries |
| Upload.SecondRunPlansNothing | internal/upload/upload.go:99-102 | after a run, a second run over the unchanged tree finds nothing added, modified or deleted against the manifest it published |
| Upload.SummaryLines | internal/upload/upload.go:297-314 | the summary has four lines, one more with cache hits, and a header plus one line per error with errors; it starts with the upload count and ends with the total of uploaded and skipped |
| Choose.BuildGroups | cmd/choose.go:167-245 | one group per directory of the manifest, sorted by directory; each lists every key of its directory once, under its base name and size, sorted by name, with the sizes summed; a group is included exactly when a non-key sync_dirs entry is its directory or above it, and each file is excluded as sync_exclude (included group) or the absence of its key from sync_dirs (other groups) says |
| Choose.Collect | cmd/choose.go:168-183 | the map has one group per directory of a manifest key, each covering exactly that directory's keys with their sizes summed |
| Choose.CollectStep | cmd/choose.go:170-183 | adding one key to the group of its directory (a new group for a new directory) keeps every group covering exactly the keys seen so far |
| Choose.CoversAdd | cmd/choose.go:177-182 | appending a key's record and adding its size keeps its own group's keys, distinctness, records and total right |
| Choose.CoversOther | cmd/choose.go:170-183 | a key of another directory leaves a group's cover unchanged |
| Choose.SortedKeepsCover | cmd/choose.go:186-190 | sorting a group's files by name keeps what it covers and its total and orders the files by name |
| Choose.SortKeepsSum | cmd/choose.go:186-190 | sorting the files leaves the sum of their sizes unchanged |
| Choose.InsertKeepsSum | cmd/choose.go:186-190 | inserting a file adds exactly its size to the sum |
| Choose.Lookups | cmd/choose.go:192-209 | excludeSet is the set of sync_exclude entries; sync_dirs entries that are manifest keys go to fileIncludes and the others to dirIncludes |
| Choose.IsIncluded | cmd/choose.go:212-219 | the group is included exactly when some dirIncludes entry is its directory or a directory above it |
| Choose.MarkFiles | cmd/choose.go:221-232 | each file keeps its key, name and size, and is excluded exactly when its key is in excludeSet (included group) or not in fileIncludes (other group) |
| Choose.MarkedFlags | cmd/choose.go:192-232 | flags set from the lookup sets are the flags the configuration defines |
| Choose.Finish | cmd/choose.go:186-232 | one directory's group, sorted and flagged, covers its keys and carries the configuration's flags |
| Choose.GatherOne | cmd/choose.go:211-239 | one group handled: the loop invariant is kept and fewer directories remain |
| Choose.Gather | cmd/choose.go:211-239 | every directory's group is gathered once, covering its keys, sorted by name and flagged |
| Choose.BuildStep | cmd/choose.go:236-239 | appending a finished group of a new directory keeps the gathered groups one per directory |
| Choose.SortedGroups | cmd/choose.go:240-242 | sorting the gathered groups by directory gives one group per manifest directory in strictly increasing directory order, with their flags |
| Choose.KeyInOneGroup | cmd/choose.go:167-245 | every manifest key is listed in exactly one group, the group of its directory, under its base name |
| Choose.SameDirSameGroup | cmd/choose.go:236-242 | no two groups share a directory |
| Choose.Toggle | cmd/choose.go:101-113 | toggling group idx flips its included flag and sets every file's excluded flag to the opposite of the new state; the other groups are unchanged |
| Choose.ToggleKeepsGroups | cmd/choose.go:101-113 | toggling keeps the groups one per directory with the same files, sizes and order |
| Choose.SelectedKeys | cmd/choose.go:125-130 | the keys of the files not excluded: all of them exactly when no file is excluded, none exactly when every file is |
| Choose.ExcludedKeys | cmd/choose.go:142-146 | the keys of the excluded files, none exactly when no file is excluded |
| Choose.Encoded | cmd/choose.go:119-147 | sync_dirs holds exactly what some group contributes to it, and sync_exclude exactly what some included group excludes |
| Choose.EncodeSelections | cmd/choose.go:119-147 | the loop's sync_dirs and sync_exclude are Encoded of the groups, in group order |
| Choose.EncodeGroup | cmd/choose.go:122-147 | one group appends its directory (included, or every file selected), its selected keys (some selected) or nothing to sync_dirs, and its excluded keys to sync_exclude only when included |
| Choose.Individual | cmd/choose.go:125-130 | the loop collects the selected keys in file order |
| Choose.AppendExcluded | cmd/choose.go:142-146 | the loop appends the excluded keys in file order |
| Choose.ToggledContribution | cmd/choose.go:101-147 | a group toggled on contributes just its directory and no exclusions; a non-empty group toggled off contributes nothing |
| Choose.EncodedDirIncluded | cmd/choose.go:119-147 | when no group's directory lies below another's and none is a key, reloading the encoded sync_dirs includes a group exactly when it contributed its own directory |
| Choose.EncodedExclude | cmd/choose.go:141-146 | a file's key is in the encoded sync_exclude exactly when its group is included and the file is excluded |
| Choose.EncodedKey | cmd/choose.go:123-137 | a file's key is in the encoded sync_dirs exactly when its own group listed it individually |
| Choose.SelectionRoundTrip | cmd/choose.go:119-147 | reading the encoded sync_dirs and sync_exclude back as buildGroups does gives every file the excluded flag it had |
| Choose.ReloadKeepsSelection | cmd/choose.go:119-245 | groups rebuilt from the saved configuration give every file the excluded flag it had before saving |
| Sorting.InsertBy | cmd/choose.go:187-189 | insertion adds exactly the one element to the multiset |
| Sorting.SortBy | cmd/choose.go:187-189 | the sorted sequence is a permutation of the input |
| Sorting.InsertSorted | cmd/choose.go:187-189 | inserting into a sequence ordered by the key keeps it ordered |
| Sorting.SortSorted | cmd/choose.go:186-190 | the result is ordered by the key (the `<` of sort.Slice's less function, as a non-strict order) |
| Sorting.InsertDistinct | cmd/choose.go:240-242 | inserting an element whose identity is new keeps identities distinct |
| Sorting.SortDistinct | cmd/choose.go:240-242 | sorting keeps distinct identities distinct |
| RateLimit.Refilled | internal/ratelimit/ratelimit.go:33-39 | the refilled balance is the old one plus the refill, capped at one second's worth of tokens |
| RateLimit.Take | internal/ratelimit/ratelimit.go:28-54 | the balance and deficit are never negative; a deficit arises exactly when the refilled balance is below n; balance less deficit is the refilled balance less n; the bucket never exceeds the rate |
| RateLimit.Limiter.constructor | internal/ratelimit/ratelimit.go:19-25 | a new limiter starts with a full bucket of one second's tokens at the current time |
| RateLimit.Limiter.Wait | internal/ratelimit/ratelimit.go:28-54 | the new balance and the deficit slept off are those of Take; the clock is now, or the time after the sleep when there was a deficit |
| RateLimit.Source.Read | internal/ratelimit/ratelimit.go:74 | the wrapped reader hands over up to len bytes from its front and reports EOF once empty |
| RateLimit.Reader.constructor | internal/ratelimit/ratelimit.go:58-65 | the reader wraps the given source and limiter |
| RateLimit.Reader.Read | internal/ratelimit/ratelimit.go:67-79 | the inner read is asked for at most 64 KiB; its bytes and EOF pass through unchanged; tokens are taken, as Take says, only when bytes were read |
| Web.EventLog.constructor | cmd/web.go:37-39 | a new event log has no lines and is not finished |
| Web.EventLog.Write | cmd/web.go:41-51 | a write appends the text without its trailing newlines as one line and reports the whole input written |
| Web.EventLog.Finish | cmd/web.go:53-61 | finishing marks the log done |
| Web.EventLog.Read | cmd/web.go:63-70 | reading from an index at or past the end gives no lines; from a valid index the lines from there; a negative index panics (None); the done flag is reported with the lines |
| Web.Pending | cmd/web.go:350-356 | one pass sends one event per line from the cursor on, each with its line index as id |
| Web.Poll | cmd/web.go:350-369 | one pass of the stream loop sends Pending from the cursor, advances the cursor past what it sent, and reports whether the log is done |
| Web.PendingPrefix | cmd/web.go:350-356 | a pass over a prefix of the log followed by a pass over the grown log from the advanced cursor sends what a single pass over the grown log sends |
| Web.StreamDeliversEachLineOnce | cmd/web.go:350-369 | a client polling a growing log receives each line from its starting cursor exactly once, in order, with its index as id |
| Web.CursorAsWritten | cmd/web.go:343-348 | the starting cursor is the Last-Event-ID plus one when it is a number, else 0 |
| Web.NegativeIdPanics | cmd/web.go:343-348 | a Last-Event-ID of -2 gives cursor -1, and the first read from it panics whatever the log holds |
| Web.Cursor | cmd/web.go:343-348 | corrected cursor: the id plus one for a non-negative numeric id, else 0 |
| Web.CursorReads | cmd/web.go:343-348 | the corrected cursor never makes the read panic, and it equals the written cursor wherever that one is not negative |
| Web.ResumeAfter | cmd/web.go:343-356 | a client that reconnects with the id of the last event it saw receives exactly the events after that one |
| Web.StatusOf | cmd/web.go:372-400 | the state is idle exactly with no log, running exactly with a log and no result, failed or complete by whether the result has errors; counts come exactly with a result, and are its counts and summary |
| Web.RunSettings | cmd/web.go:238-245 | 0 workers means 1 and 0 retries means 3; other settings are kept |
| Web.Recorded | cmd/web.go:253-260 | a returned result is recorded as it is; a failed run records a result holding just the error |
| Web.Server.constructor | cmd/web.go:82-87 | a new server has no sync log and no result |
| Web.Server.SyncStatus | cmd/web.go:372-400 | the status is StatusOf the server's state; running exactly while a started sync has not finished |
| Web.Server.StartSync | cmd/web.go:264-321 | 409 exactly while a sync runs; else 400 for a bad body, 500 when the config cannot be written, 200 otherwise; only 200 changes state, giving a fresh empty log and a running status |
| Web.Server.RunSync | cmd/web.go:231-262 | the sync runs with the defaulted settings; its result (or the error) is recorded, the log finished and the sync marked done, with the state failed or complete accordingly |
| Strings.TrimTrailingNewlines | cmd/web.go:42 | strings.TrimRight(s, "\n"): the result is a prefix of the input, does not end in a newline, and only newlines were removed |
| Strings.Atoi | cmd/web.go:345 | strconv.Atoi accepts exactly a non-empty run of digits, optionally after a "+" or "-" sign; digits give their decimal value, and a sign gives that value or its negation |
| Strings.FormatInt | cmd/web.go:353 | the %d text of an event id reads back through Atoi as the same id |
| Strings.SplitJoin | internal/update/update.go:92 | joining the parts of strings.Split with the separator gives back the input |
| Strings.SplitOfJoin | internal/update/update.go:92 | splitting a join of separator-free pieces gives back exactly the pieces, the converse of SplitJoin |
| Strings.SplitSnoc | internal/update/update.go:92 | appending a separator and a separator-free piece appends exactly that piece to the split |
| Strings.LexLessTransitive | cmd/choose.go:187-189 | Go's `<` on strings is transitive |
| Strings.LexLessTotal | cmd/choose.go:187-189 | any two distinct strings are ordered one way or the other by `<` |
| Strings.LexLessIrreflexive | cmd/choose.go:240-242 | no string is below itself |

## Left out

- Concurrency: `downloadParallel` and `uploadParallel`, with their goroutines and channels, are left out. So are all mutexes, `exitOnce`, and the event stream's blocking wait on `notify`, `shutdown` and the request context. The model runs the sequential path only.
- The flock calls of the sync lock are left out. `Sync.SyncLock` is a held flag plus an injectable open error. `acquireLock` also creates the default manifest's directory with `os.MkdirAll` and creates `sync.lock` there with `O_CREATE`; neither the directory nor the lock file is written to the disk model, so `Sync.Run` leaves `disk.dirs` and `disk.files` without them.
- The S3 SDK calls in `internal/storage/storage.go` are left out. Only `ManifestKey`, the prefix trimming and `prefixedKey` are modelled, and the manifest routing is modelled on the mock bucket.
- MD5, JSON and TOML text, RFC 3339 time text, and the streaming read in `HashFile` are library internals. They are the oracles of `Json.Lib`, and each round trip assumes `Lib.RoundTrips()`. Instants are whole numbers, so the model does not show time.Time's marshal error for a year outside 0-9999.
- Paths are assumed clean: the source path, the emulation path, every sync dir, the home directory and `$XDG_DATA_HOME` have no trailing or doubled "/" and no "." or ".." element. `filepath.Join` and `filepath.Rel` clean their results, and `Strings.Join`, `Strings.Dir`, `Upload.DirPath`, `Upload.KeyFor`, `Upload.PathFor` and `Sync.LocalPath` do not. With a source path such as "src/", Go walks "src/roms", while `Upload.Walked`, `Upload.BuildManifest`, `Upload.Scan` and `Upload.Run` look for "src//roms", find nothing, and so plan to delete every remote object. `Sync.Run`, `Sync.HealDrift`, `Sync.DownloadOne` and `Verification.Check` likewise address files below an unclean emulation path at paths the disk does not hold. `Config.XdgManifestPath` and `Config.HomeManifestPath` concatenate their inputs: with `$XDG_DATA_HOME` set to "/data/", `filepath.Join` gives "/data/emu-sync/…" and the model "/data//emu-sync/…".
- The rate limiter's floating-point refill and its `time.Sleep` are left out. The refill and the clock after the sleep are integer inputs, and `Limiter.Wait` returns the deficit instead of sleeping.
- The retry jitter is an oracle, and the sleep is a delay value.
- Json.Field matches object keys exactly. `encoding/json` also matches a key that differs only in case, and when several keys match one field the last in document order wins. A `JsonValue` object is a map without document order, so that choice cannot be expressed. `Manifest.FromJsonValue`, `Cache.FromJsonValue`, `Cache.LoadFiles` and `Token.Decode` therefore treat a key such as "Files" or "MD5" as absent, where Go would read it.
- Go's fixed-width integers are not modelled. `strconv.Atoi` has no range error here, sizes are unbounded, and the `n+1` of the event-stream cursor cannot overflow.
- Sorting.SortBy: Go's `sort.Slice` is not stable. The model fixes one order among equal keys. The contracts state only what any order satisfies: a permutation, ordered by the key.
- The interactive choose loop, the drill-in loop, the printing and `formatSize` are left out, and so are the HTTP plumbing, JSON responses and `openBrowser` of the web UI.
- `applySelections`, `handleSave` and the web UI's `encodeSelections` use `fileInfo.Selected`. `cmd/choose.go` has no such field, so they are left out. `Choose.EncodeSelections` models the encoding written inline in `cmd/choose.go`.
- The configuration fields `Prefix`, `MaxRetries`, `SaveThreshold` and `SkipDotfiles` are read by the engines but are not declared in `internal/config/config.go`. So are `cfg.ShouldSync`, `ValidatePath` and `ParseBandwidthLimit`. The engines take the settings as options, `ShouldSync` is an opaque predicate, and `Web.Server` keeps the configured worker and retry counts as constants.
- Web.Server.StartSync: the request-body decoding and `config.Write` are boolean inputs. Their effect on the stored configuration is not modelled.
- The event stream is modelled as (id, data) pairs. The "id: …\ndata: …\n\n" framing is not modelled.
- `EventLog.Write` takes its input as a string instead of bytes.
- `internal/sync/sync.go` reports progress with `Progress.Retain` and a five-argument `Done`. Neither exists in `internal/progress/progress.go`, so the sync run's progress events are left out.
- Error texts are modelled only where a contract depends on them: "another sync is already running", "opening lock file: …", "uploading manifest: …" and "saving local manifest: …". Other errors are opaque strings.
- Sync.DownloadSequential: states the manifest, the lists, the unsaved-byte counter and the threshold saves. It does not restate the disk after the whole batch. Each file's effect on the disk is stated by `Sync.DownloadWithRetry`.
- Sync.DownloadWithRetry: a transfer's outcome is the same on every attempt. A fault that clears between retries is modelled only in `Retry.WithBackoff`, where the outcome of each attempt is an oracle.
- Upload.UploadWithRetry: the same holds for uploads.
- Choose.SelectionRoundTrip: needs two premises that `cmd/choose.go` does not check. No group's directory may lie below another group's directory (`Flat`). No directory may itself be a manifest key (`DirsNotKeys`). Without `Flat` the round trip fails: on reload, a group whose directory lies below an included group's directory is included again, whatever its own flags were.
- Choose.ReloadKeepsSelection: needs the same two premises as Choose.SelectionRoundTrip.
- The CLI commands, service installation, the setup wizards, and the network and exec parts of self-update are outside the modelled core.

## Findings

| source | as written | input that shows it | evidently intended | confidence | as-written member | corrected member |
|---|---|---|---|---|---|---|
| cmd/web.go:343-348 with cmd/web.go:63-70 | the stream starts at Last-Event-ID + 1 for any number `strconv.Atoi` accepts, including negative ones, and `read` slices `lines[from:]` | a request with header `Last-Event-ID: -2` gives cursor -1, and the first `read(-1)` panics on the slice bounds, whatever the log holds | an id the stream never sent (ids are line indices, never negative) restarts the stream at 0 | not executed | Web.CursorAsWritten, Web.NegativeIdPanics | Web.Cursor, Web.CursorReads |
| internal/retry/retry.go:13-15 with cmd/sync.go:45-47 and cmd/upload.go:53-55 | the CLI replaces only a zero retry count with 3, and for a negative count the attempt loop never runs and WithBackoff returns nil | a configured retry count of -1 (`cfg.Sync.MaxRetries`): every queued download is reported as downloaded and its entry committed to the local manifest with nothing fetched, and every upload is reported as uploaded while the bucket is untouched, after which the published manifest names objects the bucket lacks | the doc comment counts retries after a first call, so a negative count means no retries and one call | not executed | Retry.NegativeRetriesNeverCall, Retry.FailureReportedAsSuccess, Sync.NegativeRetriesCommitAll, Upload.NegativeRetriesUploadNothing | Retry.RunClamped, Retry.ClampedAgrees |
