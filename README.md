# shell-sync: a verified model of the sync engine

shell-sync keeps shell histories in step across machines. A background loop
authenticates once with a remote file store and then, on every timer tick until it
is told to stop, walks the configured history files in order. For each file it:

1. downloads the remote copy into a temporary file;
2. reads the local copy;
3. merges the two into one deduplicated sequence, local lines first;
4. runs every merged line through the secret filter, which may redact or drop it;
5. writes the result over the local file;
6. uploads the local file.

This project models that engine in Dafny and proves properties of the model.

- `history.dfy` (module `History`): the merge. `MergeHistories` is a method with
  the source's two loops and its `seen` set. It is proved equal to `Merge`, the
  deduplication `Dedup` of the concatenation, and the lemmas state what `Merge`
  guarantees.
- `filter.dfy` (module `Filter`): the secret filter. Regular expressions come from a
  foreign library, so a compiled pattern is any value of a type parameter `M`.
  Compiling is a function `compile: string -> Option<M>` and matching is a function
  `matches: (M, string) -> bool`. `NewSecretFilter` is the compile loop with its early
  error return. `FilterLine` is the first-match scan. `SetupFilter` is the guard in
  `main.go` that builds a filter only when filtering is enabled.
- `store.dfy` (module `Store`): the collaborators as abstract stores. The two stores are
  maps from path to lines. The class `Host` holds both stores and a trace of every
  collaborator call. An oracle supplies the outcome of each call as a fault value,
  and the call's effect on the stores follows the code that can fail:
  - a scanner error keeps the lines read before it;
  - a failed line write leaves the lines written before it;
  - a broken download leaves a partial temporary file;
  - an upload needs the local file to exist.
- `syncer.dfy` (module `Syncer`): the engine. `ApplyFilter` (the inline filter loop),
  `SyncTarget` (one file's cycle), `SyncPass` (all files in order) and `SyncLoop`
  (the authentication gate and the tick/stop loop) are methods on a `Host`. Each is
  proved equal to a function of the state it starts from: `FilterLines`, `Cycle`,
  `Pass` and `Loop`. The timer and the stop channel become a sequence of `Tick`/`Stop`
  events. Each tick carries the faults of the pass it starts.
- `syncer_lemmas.dfy` (module `SyncerLemmas`): what those functions guarantee. It
  covers the filter application, one cycle, the passes, the loop and the worked
  example.
- `lines.dfy` and `wrappers.dfy`: sequence helpers and `Option`/`Result`.

In these places the model follows the code where a reader might expect otherwise:

- A failed write of the local file does not stop the upload (syncer/syncer.go:70-77).
  The upload then publishes whatever the local file holds: the old copy when the file
  could not be created, or the lines written before the failure.
  `SyncerLemmas.CyclePublishesStaleCopy` states this.
- Writing the local file is not atomic. The file is truncated when it is created and
  then written line by line (history/history.go:25-38), even though its doc comment
  says "atomic write". `Store.Written` states what a failed write leaves behind.
- A failed read gives an empty sequence only when the file cannot be opened. After a
  scanner error the caller keeps the lines read before it, because it ignores the
  error (history/history.go:16-21, syncer/syncer.go:41, 48).
- A download that fails while copying leaves the temporary file behind. The file is
  removed only after a successful download (syncer/syncer.go:40-45).

## Model

| member | source | states |
|---|---|---|
| `History.Dedup` | history/history.go:42-56 | a line occurs in the output exactly when it occurs in the input: nothing lost, nothing invented |
| `History.DedupNoDuplicates` | history/history.go:44-55 | the output never holds a line twice |
| `History.MergeHistories` | history/history.go:41-57 | the two loops over `local` and `remote`, with `seen` equal to the set of lines in `merged` as the loop invariant, return exactly `Dedup(local + remote)` |
| `History.DedupFirstOccurrenceOrder` | history/history.go:44-55 | output lines appear in the order of their first occurrence in the input |
| `History.DedupOfDistinct` | history/history.go:44-55 | a duplicate-free input is returned unchanged |
| `History.MergeIsDuplicateFreeUnion` | history/history.go:42-56 | the merge has no duplicates and holds exactly the lines of `local` and `remote` |
| `History.MergeFirstOccurrenceOrder` | history/history.go:42-56 | each line sits at its first occurrence in `local` then `remote`, so local positions take priority |
| `History.MergeSplit` | history/history.go:44-55 | the merge is `Dedup(local)` followed by the remote lines not in `local`, deduplicated, in remote order |
| `History.MergeWithEmpty` | history/history.go:43-56 | merging with an empty side deduplicates the other side; two empty sides give an empty result |
| `History.MergeOfDisjoint` | history/history.go:41-57 | duplicate-free disjoint inputs give `local + remote`, of length `|local| + |remote|` |
| `History.MergeExample` | history/history.go:41-57 | `["ls -la","cd /tmp"]` merged with `["cd /tmp","rm -rf /tmp/x"]` is `["ls -la","cd /tmp","rm -rf /tmp/x"]` |
| `Filter.NewSecretFilter` | filter/filter.go:13-23 | fails exactly when some pattern does not compile, with an error naming the first such pattern; on success it holds one compiled matcher per pattern, in order, and the action unchanged |
| `Filter.FilterLine` | filter/filter.go:25-36 | if some pattern matches, the result is `("[REDACTED]", true)` under "redact" and `("", true)` under "block"; otherwise, or under any other action, it is `(line, false)` |
| `Filter.FilterLineDependsOnlyOnAnyMatch` | filter/filter.go:26-33 | the result depends only on the action and on whether some pattern matches, not on which pattern or how many |
| `Filter.FilterLineNoPatterns` | filter/filter.go:26-35 | with no patterns every line passes unchanged, unmatched |
| `Filter.SetupFilter` | main.go:38-44 | a disabled filter is absent; an enabled one is present exactly when every pattern compiles, holding one compiled matcher per pattern in order and the action unchanged; otherwise the error names the first pattern that does not compile |
| `Store.ScanLines` | history/history.go:9-22 | a read returns a prefix of the file: none of it when it cannot be opened, all of it when the scan succeeds |
| `Store.ReadFile` | history/history.go:9-22 | the lines read are a prefix of the file; none when the file is missing or cannot be opened; all of them on a clean scan; after a scanner error, as many as were read before it |
| `Store.Downloaded` | filebrowser/filebrowser.go:96-120 | a successful download puts the remote lines in the target file; no other local file changes |
| `Store.Written` | history/history.go:25-38 | a successful write replaces the file's lines; a failed creation changes nothing; otherwise the file holds a prefix of the lines; no other file changes |
| `Store.Uploaded` | filebrowser/filebrowser.go:56-93 | a successful upload gives the remote file the local file's lines; a failed one leaves the remote file as it was; no other remote file changes |
| `Store.Host.constructor` | syncer/syncer.go:19 | the stores as given, no calls yet |
| `Store.Host.Authenticate` | filebrowser/filebrowser.go:30-53 | returns the oracle's outcome and records the call |
| `Store.Host.DownloadFile` | filebrowser/filebrowser.go:96-120 | succeeds only for an existing remote file copied in full; the local store becomes `Downloaded`; the call is recorded |
| `Store.Host.ReadLines` | history/history.go:9-22 | returns `ReadFile` of the local store, changes nothing and records the call |
| `Store.Host.RemoveFile` | syncer/syncer.go:42 | the file is gone from the local store; the call is recorded |
| `Store.Host.WriteLines` | history/history.go:25-38 | the local store becomes `Written`; the result says whether every line was written; the call is recorded |
| `Store.Host.UploadFile` | filebrowser/filebrowser.go:56-93 | succeeds only when the local file exists; the remote store becomes `Uploaded`; the call is recorded |
| `Syncer.TmpPath` | syncer/syncer.go:37 | the temporary download path differs from the history path |
| `Syncer.ApplyFilter` | syncer/syncer.go:54-67 | the appending loop returns exactly `FilterLines` of the merged lines |
| `Syncer.FetchRemote` | syncer/syncer.go:37-45 | the download goes to the temporary path; only after it succeeds is the temporary file read back and removed; the remote lines are that read or nothing; the remote store is unchanged |
| `Syncer.PublishLocal` | syncer/syncer.go:70-77 | the local file becomes `Written`, then the upload runs whatever the write's outcome and the remote store becomes `Uploaded` from the local file as written |
| `Syncer.SyncTarget` | syncer/syncer.go:33-78 | one target's download, read, merge, filter, write and upload leave the host in state `Cycle` of its previous state |
| `Syncer.SyncPass` | syncer/syncer.go:32-78 | the loop over the targets leaves the host in state `Pass`: the cycles of all targets, in configuration order |
| `Syncer.SyncLoop` | syncer/syncer.go:15-81 | the host ends in state `Loop`: authentication, then one pass per tick until the first stop; it returns the number of passes run, 0 after a failed authentication |
| `SyncerLemmas.FilterLinesDisabled` | syncer/syncer.go:55-66 | without a filter the written sequence equals the merged one |
| `SyncerLemmas.FilterLinesImage` | syncer/syncer.go:54-67 | with a filter the written sequence maps FilterLine's text over exactly the merged lines not dropped as `matched && result == ""`, in order |
| `SyncerLemmas.FilterLinesRedact` | syncer/syncer.go:54-67 | under "redact" the length is kept and each line is the merged line or, when a pattern matches it, `"[REDACTED]"` |
| `SyncerLemmas.FilterLinesBlock` | syncer/syncer.go:56-60 | under "block" exactly the lines no pattern matches are written, in order, so no written line matches a pattern |
| `SyncerLemmas.FilterLinesOtherAction` | filter/filter.go:26-35 | under any other action nothing is filtered, even lines that match |
| `SyncerLemmas.CycleCalls` | syncer/syncer.go:33-78 | the cycle's calls are: download; then read and remove of the temporary file only after a successful download; local read; write of `Filter(Merge(local, remote))`; upload of the same path, whatever the write's outcome |
| `SyncerLemmas.CycleFiles` | syncer/syncer.go:36-77 | the local file holds the filtered merge after a good write, is untouched when creation fails, and holds a prefix after a failed line write; the remote file gets the local file's final content; the temporary file is gone after a successful download, holds a prefix after a broken copy, and is untouched when the request fails or the remote file is missing; no other file changes |
| `SyncerLemmas.CycleWithoutRemote` | syncer/syncer.go:38-45 | a failed download, or an unreadable temporary file, leaves only the local lines to merge |
| `SyncerLemmas.CycleWithoutLocal` | syncer/syncer.go:47-48 | a missing or unopenable local file leaves only the remote lines to merge |
| `SyncerLemmas.CycleWithoutFaults` | syncer/syncer.go:33-78 | when every call succeeds, both copies end up as the filtered merge of the two previous copies |
| `SyncerLemmas.CyclePublishesStaleCopy` | syncer/syncer.go:70-77 | when the local file cannot be created, the upload still happens and publishes the copy the local file held before the cycle |
| `SyncerLemmas.CycleTracePaths` | syncer/syncer.go:38-77 | a cycle's calls name its path once among the downloads, once among the writes and once among the uploads |
| `SyncerLemmas.CyclePaths` | syncer/syncer.go:33-78 | a cycle adds its path once to the downloads, writes and uploads of the trace, whatever fails |
| `SyncerLemmas.PassFromPaths` | syncer/syncer.go:32-78 | the rest of a pass downloads, writes and uploads the remaining targets' paths in configuration order; a failure never stops a later target |
| `SyncerLemmas.PassPaths` | syncer/syncer.go:32-78 | a full pass downloads, writes and uploads every configured path once, in configuration order |
| `SyncerLemmas.RunLoopPaths` | syncer/syncer.go:25-80 | each tick before the first stop runs one full pass, so the paths appear once per tick, in order |
| `SyncerLemmas.LoopAuthFailure` | syncer/syncer.go:19-23 | after a failed authentication the only new call is the authentication: no download, no upload, stores untouched |
| `SyncerLemmas.LoopPaths` | syncer/syncer.go:17-80 | after a successful authentication the loop runs one full pass per tick before the first stop |
| `SyncerLemmas.RunLoopStops` | syncer/syncer.go:25-29 | once stop is observed no pass starts: events after it change neither the state nor the pass count |
| `SyncerLemmas.LoopStops` | syncer/syncer.go:15-81 | the same for the whole loop, authentication included |
| `SyncerLemmas.CycleExampleUnfiltered` | syncer/syncer.go:51-67 | the example without a filter writes `["ls -la","cd /tmp","rm -rf /tmp/x"]` |
| `SyncerLemmas.CycleExampleBlock` | syncer/syncer.go:51-67 | the example with pattern `rm -rf` under "block" writes `["ls -la","cd /tmp"]` |
| `SyncerLemmas.CycleExampleRedact` | syncer/syncer.go:51-67 | the example with pattern `rm -rf` under "redact" writes `["ls -la","cd /tmp","[REDACTED]"]` |

## Left out

- The HTTP client of filebrowser/filebrowser.go (JSON login, bearer token, multipart
  upload, status codes) is reduced to calls that succeed or fail as an oracle says.
  A missing remote file fails the download and a missing local file fails the upload,
  as the code does. `ListFiles` is not used by the sync cycle and is not modelled.
- Regular-expression syntax and matching (Go's `regexp`) are a foreign library. They
  are the parameters `compile` and `matches`, and the compile error's text is not
  modelled.
- File contents are sequences of lines. Bytes, newline handling, the scanner's token
  limit and a write or copy that breaks in the middle of a line are modelled at line
  granularity: a failure keeps a prefix of whole lines.
- Errors from closing files and from removing the temporary file are ignored by the
  code. The model assumes the removal succeeds.
- The interval timer, wall-clock time and the default interval of config/config.go
  (0 becomes 15 seconds) are abstracted into the `Tick` events. When the timer and
  the stop signal are both ready, Go's `select` picks either; the event sequence
  fixes that choice.
- Loading YAML configuration, log-file setup, logging, the goroutine launch, the
  `WaitGroup` and OS signal handling in main.go are not modelled.
- Syncer.SyncLoop: the model assumes that no outside writer touches either store,
  neither within a cycle nor between passes. The shell appending to the local
  history and another machine uploading its own copy are not modelled, so each
  pass starts from the state the previous pass left. The state equality
  `host.State() == Loop(...)` holds only under that assumption. The path lemmas
  and the stop lemmas do not depend on it. No locking and no concurrent execution
  are modelled.
- Syncer.SyncLoop: the events are a finite prefix of the run. The Go loop never
  returns without a stop signal; the model also returns when the events run out
  first, and then states what the run has done up to that point.
- Go's distinction between a nil slice and an empty slice does not exist in Dafny.
  The merge of two empty histories is the empty sequence.
