# unreal-pack-gen: a Dafny model of the pack builder

unreal-pack-gen builds Unreal Engine feature packs. `DataManager` does the work. It holds:

- the pack metadata (`packInfo`);
- the registry of staged files in a temporary pack folder (`tmpFilePaths`);
- the generated manifest, config, response and packing-script data;
- the three job lists of its external-job scheduler (active, pending and failed jobs);
- the per-process output buffers and the cleanup actions it runs on exit.

Creating a pack runs these steps:

1. Stage a temporary folder tree from a JSON pack layout, turning filename patterns into names.
2. Write the data files.
3. Start UnrealPak.
4. Queue copies and an archive that wait on the job kinds they depend on.
5. Either copy the content into the engine or register the deletion of the `.upack` for cleanup.

`DirectoryPickerComponent._truncatePath` shortens a Windows path for display.

The model is split into these modules:

- `Manager` (datamanager.dfy): the `DataManager` class. Its fields are updated in place by methods with `modifies` clauses. Its loops carry invariants tying them to the specification functions of the other modules.
- `Jobs`: the scheduler as functions on the job lists. It covers the per-kind exit-code predicate, reaping (`Survivors`, `NewFailures`) and activation of pending jobs (`Activate`).
- `Buffers`: the `jobStdout` map and the text flushed to the console.
- `Layout`: the pack layout as a JSON tree, the `_recursiveCreateDir` walk, the fixed-key check, `_recursiveSearch` and the pattern-to-name conversion.
- `Patterns`: the `str.format` subset the patterns use.
- `PackMeta`: `packInfo`, `setPackInfo`, `getMissingPackInfo`, asset-type inference and the texts built from the metadata.
- `Truncate`: `_truncatePath`.
- `Seqs`, `Text`, `Paths`: Python list, `str` and `ntpath` operations on sequences.

Calls into the operating system are parameters:

- `Popen` hands out pids from a `nextPid` counter.
- `poll()` is a `status: Pid -> Status` function.
- The pipe is an `output: Pid -> string` function.
- `os.path.exists`, `abspath`, `normpath`, `relpath` and `sanitize_filename` are uninterpreted function values in `Host`.
- The random part of the temporary directory's name is a `suffix` argument.
- The iteration order of a Python set is an `order` argument.
- The listing from `os.walk` is a `walk` argument.

Python exceptions become `Fail`/`Failure` results carrying a `ManagerError`, and the model keeps the state the source has reached when it raises.

## Model

| member | source | states |
|---|---|---|
| Manager.DataManager.Open | dataManager.py:23-81 | Construction succeeds exactly when a given UnrealPak path exists or, with none given, the engine lookup found one. The engine directory is four levels above a given UnrealPak. Failure is `PackerNotFound`. A new manager has no jobs and the initial pack info. |
| Manager.DataManager.constructor | dataManager.py:53-81 | Every field starts as `__init__` sets it: empty job lists, buffers and cleanup list, unset pack info, no staging, no generated data. |
| Jobs.ExitCodeVerdict | dataManager.py:502-508 | Success means a robocopy code of at most 7, or code 0 for UnrealPak and archive jobs. An unknown kind has no verdict, which the poll counts as a failure. |
| Jobs.ExitCodeBoundaries | dataManager.py:502-508 | Boundary values: robocopy 7 succeeds and 8 fails, UnrealPak 1 fails, archive 0 succeeds, an unknown kind has no verdict. |
| Jobs.ReapClassifies | dataManager.py:511-533 | Reaping splits the active jobs into the running ones (kept) and the exited ones (removed). Each list keeps scan order and their sizes add up. Exactly the exited jobs with a failing exit code are recorded as failed. |
| Jobs.SurvivorsKeepPids | dataManager.py:533 | The jobs kept after a poll still have distinct pids, all below the next pid. |
| Jobs.ActivateKinds | dataManager.py:539-549 | After the pending scan, the active kinds are those before it plus the kinds of the jobs it started. |
| Jobs.ActivateSplits | dataManager.py:543-554 | The pending scan splits the pending list into started and still-waiting jobs, each in pending order, together holding every pending job. |
| Jobs.ActivateDecisions | dataManager.py:543-551 | A started job's wait-set is disjoint from the kinds active before it, including kinds started earlier in the same scan. Every job left waiting is blocked by a kind active at the end. |
| Jobs.ActivateAllBlocked | dataManager.py:543-554 | When every pending job is blocked, the scan starts nothing and leaves the list as it is. |
| Jobs.ActivateSettles | dataManager.py:537-555 | A second scan right after the first, with no job exiting in between, starts nothing. |
| Jobs.ActivatePrefix | dataManager.py:543-554 | The scan of a prefix of the pending list is a prefix of the scan of the whole list: decisions are made in order and never revisited. |
| Jobs.FirstPendingJob | dataManager.py:543-551 | The first pending job starts exactly when its wait-set is disjoint from the active kinds. |
| Jobs.ActivateCons | dataManager.py:543-554 | The scan takes the head of the pending list first. A head free to start is started and its kind blocks the rest; a blocked head stays first in the waiting list. |
| Jobs.SurvivorsSingle | dataManager.py:511-533 | A poll of a single job keeps it exactly when it is still running. |
| Jobs.Launch | dataManager.py:546-548 | Started jobs get consecutive fresh pids, in start order, and keep their kinds. |
| Jobs.PollNeverGrows | dataManager.py:484-491 | Across one poll, the number of active plus pending jobs never grows. |
| Jobs.FailedKinds | dataManager.py:568-575 | Returns `None` exactly when nothing failed. Otherwise returns each failed kind once, and only kinds that failed. |
| Buffers.WriteOut | dataManager.py:578-591 | The pid's buffer holds its previous text (empty when new or closed) followed by the pipe text. Other buffers are untouched. |
| Buffers.ReapBuffersOther | dataManager.py:511-531 | The reaping scan leaves alone the buffer of a pid that none of its jobs has. |
| Buffers.ReapBuffersAt | dataManager.py:511-531 | With distinct pids, after reaping, a running job's buffer holds all its output so far and an exited job's buffer is closed. |
| Buffers.FlushedIsReapedOutput | dataManager.py:524-530 | With distinct pids, the console text of a poll is the stored text plus new output of exactly the reaped jobs, in scan order. |
| Manager.DataManager.WriteJobOutToStream | dataManager.py:578-591 | `jobStdout` becomes `WriteOut` of the old buffers with the pipe text. |
| Manager.DataManager.WriteStoredJobOutToConsole | dataManager.py:594-609 | The console gets the stored text, or the pipe text when no buffer exists. The buffer is closed when asked, otherwise created if missing. |
| Manager.DataManager.ReapJob | dataManager.py:513-530 | One job: output stored. If exited, it is recorded when failed, its buffer is flushed to the console unless `noStdOut`, and the buffer is closed. |
| Manager.DataManager.ReapScan | dataManager.py:511-531 | The reaping loop: the compacted slots are the survivors. `failedJobs`, `jobStdout` and the console become the `NewFailures`, `ReapBuffers` and `Flushed` of the scan. |
| Manager.DataManager.PollActiveJobs | dataManager.py:494-534 | `pollActiveJobs`: the active jobs become the survivors, with the failures, buffers and console as above. Returns the new count. Keeps `Valid`. |
| Manager.DataManager.ActiveKinds | dataManager.py:539-541 | The loop collecting `activeJobTypes` returns the set of active kinds. |
| Manager.DataManager.ActivateOne | dataManager.py:543-551 | One pending job carries the scan state from `pending[..i]` to `pending[..i + 1]` and keeps pids distinct and fresh. |
| Manager.DataManager.ActivateScan | dataManager.py:543-554 | The activation loop: the slots left compact to `Activate(...).waiting`. The started jobs are appended to the active jobs with fresh pids, in order. |
| Manager.DataManager.PollPendingJobs | dataManager.py:537-555 | `pollPendingJobs`: the active and pending lists and `nextPid` become those of `Activate` from the active kinds. Returns the pending count. Keeps `Valid`. |
| Manager.DataManager.PollJobs | dataManager.py:484-491 | Reap, then activate from the surviving kinds. Both counts are returned, and their sum never exceeds the number of jobs before the call. |
| Manager.CreatePackSchedule | dataManager.py:165-181 | For the queue `createPack(compressed, structure)` leaves on a manager with no jobs, polled as `PollJobs` does: nothing starts while UnrealPak runs. The first poll after it exits, whatever its exit code, starts only the `.upack` copy with the next pid. The first poll after the copy exits starts every export and leaves nothing pending. Waiting on a kind means waiting for it to stop running, not to succeed. |
| Manager.FirstPollStartsCopy | dataManager.py:432 | From no active kinds, the scan over the copy and the exports starts only the copy, whose kind blocks the exports. |
| Manager.ExportsBlocked | dataManager.py:442 | While a robocopy job is active, no export starts. |
| Manager.ExportsStart | dataManager.py:435-452 | From no active kinds, every export starts and none is left waiting: neither export waits on the archive's kind. |
| Manager.DataManager.ActiveJobCount | dataManager.py:558-560 | Zero exactly when there are no active jobs. |
| Manager.DataManager.PendingJobCount | dataManager.py:563-565 | Zero exactly when there are no pending jobs. |
| PackMeta.SetInfo | dataManager.py:86-133 | The name is kept only when given non-empty, and the clean name is set exactly when the name is, to the sanitised name with spaces turned to `_`. The asset types change only to a given list. |
| PackMeta.KeepUnlessGiven | dataManager.py:96-103 | A version or category is replaced exactly when the argument is non-empty; otherwise the field keeps its value, so it is never cleared. |
| PackMeta.CheckedPath | dataManager.py:111-115 | A non-empty assets or output path replaces the field if it exists and clears the field if not. A missing or empty argument keeps the field. |
| PackMeta.CheckedImage | dataManager.py:117-127 | Any given image path, even `''`, replaces the field if it exists and resets the field to `''` if not. A missing argument keeps the field. |
| PackMeta.SetInfoNoArgs | dataManager.py:89-94 | A call without arguments clears the name and clean name, changes nothing else, and makes the name reported missing. |
| Manager.DataManager.SetPackInfo | dataManager.py:86-133 | `packInfo` becomes `SetInfo` of the old value and the arguments. Keeps `Valid`. |
| PackMeta.UnsetAmong | dataManager.py:143 | Exactly the listed keys whose value is `None`, kept in the given order. |
| PackMeta.MissingPackInfo | dataManager.py:136-145 | `None` exactly when no value is `None`. Otherwise a non-empty list holding exactly the unset keys, in dict order. |
| PackMeta.AllKeysComplete | dataManager.py:57-69 | The key list holds every `packInfo` key, in dict order. |
| Manager.DataManager.AddAssetTypes | dataManager.py:148-151 | A set grows by the given types. A list, which has no `update`, makes the call raise and change nothing. |
| PackMeta.Classify | dataManager.py:286-297 | Non-`.uasset` files are skipped. A `.uasset` is typed by its upper-cased prefix up to the first `_` when the table has it, and untyped otherwise (no `_`, or unknown prefix). |
| PackMeta.InferPartition | dataManager.py:278-301 | The types added are exactly those of typed assets. The files reported are exactly the untyped `.uasset` files. |
| Manager.DataManager.InferDirectory | dataManager.py:285-297 | The inner loop over one directory returns its known types and its untyped assets. It fails exactly when the types are a list and the directory holds a typed asset. |
| Manager.DataManager.InferAssetTypes | dataManager.py:278-301 | Raises without an assets path, or at a typed asset once the types are a list. Otherwise the types of all typed assets are added, and the untyped files are returned in walk order (`None` if there are none). |
| Layout.Put | dataManager.py:317 | A dict store keeps the key list in insertion order and the dict and key list in step. |
| Layout.InitialRegistry | dataManager.py:323-332 | The registry is reset to the eight fixed keys, in order, all unset. |
| Layout.Walk | dataManager.py:311-317 | The walk keeps the registry well formed and only appends keys. |
| Layout.WalkRecordsLast | dataManager.py:311-317 | The walk records, for each key, exactly the last string entry of that name in document order, at its directory. Other keys keep their values. |
| Manager.WalkLayout | dataManager.py:311-317 | The recursive walk as a loop over entries computes `Walk`. |
| Layout.FirstMissing | dataManager.py:343-345 | `None` exactly when every key is set. Otherwise the result is an unset key. |
| Layout.MissingFixedKey | dataManager.py:342-345 | After the walk, the check fails exactly when some fixed key has no string entry anywhere in the layout, and the key it reports is such a key. |
| Manager.CheckRegistry | dataManager.py:343-345 | The check loop returns `FirstMissing`. |
| Layout.SearchSound | dataManager.py:634-642 | Whatever `_recursiveSearch` finds is a non-null value stored under the key at some depth. |
| Layout.SearchComplete | dataManager.py:634-642 | With no `null` under the key, the search finds something exactly when some entry at some depth has the key. |
| Patterns.FormatRender | dataManager.py:655-659 | Formatting a well-formed pattern never fails, and gives its literals with each field replaced by its value. |
| Patterns.FormatPlain | dataManager.py:655-659 | A pattern without braces formats to itself. |
| Patterns.PackBaseExt | dataManager.py:655-659 | `{PACKNAME}_{BASENAME}{EXT}` gives the pack name, `_`, the base name and the extension. |
| Paths.SplitExtParts | dataManager.py:653 | The two parts of `splitext` put together give the name back, and the extension is empty or one dot and what follows it. |
| Paths.BasenameOfDrivePath | dataManager.py:653 | The basename of a drive-letter path is its last component. |
| Layout.FilenameFromRendered | dataManager.py:629-659 | A given pattern gives its intended name, with the source file's stem and extension (which make up its basename) or `''` in place of `{BASENAME}` and `{EXT}`. |
| Layout.FilenameSearched | dataManager.py:646-647 | Without a given pattern, a key stored nowhere in the layout fails with `NoPattern`. A success uses a pattern stored under the key. |
| Layout.ResolveKeys | dataManager.py:348-369 | The conversion loop keeps the registry's keys and keeps every set entry set. |
| Layout.ResolveKeysStep | dataManager.py:348-369 | One more key: it stays stopped after an error, otherwise it converts that key or stops with its error. |
| Layout.ResolveKeysStops | dataManager.py:348-369 | After the first error, the remaining keys change nothing. |
| Layout.ResolveKeysAt | dataManager.py:348-369 | A completed conversion gives each key its own step's result on its recorded pattern. A failed one reports the error of a step on one of the keys. Keys outside the loop are untouched. |
| Layout.StagedSpecialKeys | dataManager.py:350-366 | After conversion, `assetFolder` has an empty name, and an image without a source keeps its directory with the name `''`. |
| Manager.ConvertPatterns | dataManager.py:348-369 | The conversion loop computes `ResolveKeys` on the registry, stopping at the first error and keeping the names converted before it. |
| Manager.FixedKeysStaged | dataManager.py:343-369 | When the check and the conversion both pass, all eight fixed keys are staged and the asset folder's name is empty. |
| Manager.StageRegistry | dataManager.py:340-369 | The staged registry is well formed. On success, all fixed keys are staged and the asset folder has an empty name. A failure is a missing fixed key or an unformattable pattern. |
| Manager.StageLayout | dataManager.py:340-369 | Walk, check and conversion as loops compute `StageRegistry`. |
| Manager.DataManager.ResetStaging | dataManager.py:323-336 | The registry is reset, the temporary directory is created and its removal is registered for cleanup. |
| Manager.DataManager.StagePack | dataManager.py:337-372 | The pack folder is set and created, and the registry becomes `StageRegistry`. The layout's folders are created. After a successful conversion, the asset folder's directory is created, unless it is the temporary directory, the pack folder or a layout folder; then it fails with `FolderExists`, keeping the staged registry. |
| Manager.DataManager.StageInto | dataManager.py:337-369 | The pack path becomes the pack folder, and the registry becomes `StageRegistry` of the layout in it. Keeps `Valid`. |
| Manager.DataManager.MakeStagedDirs | dataManager.py:313-372 | The pack folder and layout folders are recorded as made, and the asset folder's directory only when the staging passes. |
| Manager.StageOutcome | dataManager.py:372 | The staging fails with its own error when the walk, check or conversion failed. Otherwise it fails with `FolderExists` exactly when the asset folder's directory is among those already made, as `os.makedirs` raises on an existing directory. It passes exactly when neither happens. |
| Manager.DataManager.GeneratePackFileStruct | dataManager.py:304-372 | `generatePackFileStruct`: fails with `NoCleanName` after making the temporary directory (registry reset). An empty clean name fails with `FolderExists`, since the folder to make is the temporary directory itself; the pack path is set and nothing is staged. Otherwise it stages the layout as above, including the `FolderExists` failure for an asset folder's directory already made. On success all fixed keys are staged. Keeps `Valid`. |
| PackMeta.ManifestContents | dataManager.py:186-226 | The manifest has English entries. Its asset-type text names every asset type of the pack, set or list. It carries the name, category, thumbnail and single screenshot. |
| Manager.DataManager.GenerateManifestData | dataManager.py:186-226 | The manifest is built from the pack info and the staged image names. Raises, changing nothing, unless both images are staged. |
| PackMeta.ConfigRoundTrip | dataManager.py:229-235 | The config text has two lines, and its pack folder name reads back as the clean name (`None` when unset). |
| Manager.DataManager.GenerateConfigData | dataManager.py:229-235 | The config text is set for the clean name. |
| PackMeta.ResponseLines | dataManager.py:238-245 | The response text splits into its three relative paths, the first two ending in a backslash. |
| Manager.DataManager.GenerateResponseData | dataManager.py:238-245 | The response text is built from the staged entries. Raises, changing nothing, unless config, thumbnail and manifest are staged. |
| Manager.DataManager.GeneratePackingCmdData | dataManager.py:248-273 | The packing-script data is built from the packer path, the staged response and `.upack` names, and the engine directory. Raises, changing nothing, unless both are staged. |
| Manager.DataManager.GenerateTexts | dataManager.py:160-162 | With the fixed keys staged, the manifest, config and response are all generated and cannot fail. |
| Manager.DataManager.GenerateFileData | dataManager.py:154-162 | `generateFileData`: a failure is a staging failure. On success all fixed keys are staged and the three texts match the staged entries. |
| Manager.DataManager.FillDocuments | dataManager.py:381-384 | Generates the manifest and config if missing. Passes exactly when the manifest exists or its images are staged. |
| Manager.DataManager.FillScripts | dataManager.py:385-388 | Generates the response and packing script if missing. Passes exactly when each exists or its entries are staged. |
| Manager.DataManager.GenerateMissingData | dataManager.py:380-388 | Each missing text is generated from the staged entries, and existing ones are kept. Passes exactly when all can be, and then all four exist. |
| Manager.DataManager.WriteDataToTmpPack | dataManager.py:375-419 | Passes exactly when the missing texts can be generated, the written and copied entries are staged and the assets path is set. When all else is ready but the assets path is unset, it fails at the copy of the assets (`NoAssetsPath`), with the texts already generated. Text updates are as in `GenerateMissingData`. |
| Manager.DataManager.GenerateUpack | dataManager.py:422-432 | Starts UnrealPak with a fresh pid and queues the copy of the `.upack`, which waits on UnrealPak. Raises, changing nothing, unless the response and `.upack` are staged. |
| Manager.DataManager.ExportCompressedPack | dataManager.py:435-442 | Queues the archive, waiting on robocopy and UnrealPak. Raises, changing nothing, without an output path. |
| Manager.DataManager.ExportPackStruct | dataManager.py:445-452 | Registers the response rewrite first, then queues the structure copy, waiting on robocopy and UnrealPak. Raises after registering when there is no temporary directory. |
| Manager.DataManager.ExportContentToEngine | dataManager.py:471-479 | Starts the copy of the content into the engine with a fresh pid. Raises, changing nothing, unless the asset folder and temporary directory are there. |
| Manager.DataManager.QueueExports | dataManager.py:171-175 | The archive and then the structure export are queued when asked for. An archive without an output path fails first and changes nothing. |
| Manager.DataManager.ExportPack | dataManager.py:171-181 | After the exports, either the engine copy is started or the `.upack` deletion from the engine's `FeaturePacks` is registered. The whole new job, pid and cleanup state is stated. |
| Manager.DataManager.PackAndExport | dataManager.py:169-181 | UnrealPak and the `.upack` copy, then the exports. Each failure leaves the jobs started before it. |
| Manager.DataManager.CreatePack | dataManager.py:165-181 | Fails, starting nothing, unless writing is possible, the assets path is set and the `.upack` is staged; `NoAssetsPath` exactly when only the assets path is missing. An archive without an output path fails after UnrealPak is started. Otherwise it passes with the active jobs, pending jobs, pids and cleanup list stated exactly, in source order. |
| Manager.DataManager.ExportedResponse | dataManager.py:455-468 | The exported response text is the old text with the pack folder's path relative to UnrealPak's parent replaced by the exported file's directory. Raises exactly when an entry it reads is unset. |
| PackMeta.RewriteResponseLines | dataManager.py:465 | The rewrite acts on each line of the response text separately, and leaves a text without the old path unchanged. |
| Manager.Raising | dataManager.py:617-619 | When the list is drained from the end, the action that raises is the highest-indexed failing one; `None` exactly when no action fails. |
| Manager.DrainSplits | dataManager.py:617-619 | A drain loses nothing and runs nothing twice: what stays registered, followed by what ran in registration order, is the registered list. |
| Manager.DataManager.Cleanup | dataManager.py:614-620 | Pops and runs the actions last first. It passes, with the list empty and the log grown by the reversed list, exactly when no action fails. Otherwise it fails with the raising action, which was popped and run; the actions below it stay registered. |
| Manager.DataManager.Finalize | dataManager.py:726-729 | `__del__` drains what is still registered, with the same contract as `Cleanup`. |
| Manager.CleanupThenFinalize | dataManager.py:614-620 | `cleanup` then `__del__`, whatever actions raise: each registered action runs at most once, and one that raised is not run again. What is left plus everything run, in registration order, is the registered list. |
| Truncate.PyRFind | customComponents.py:219 | `rfind` with Python's clipping of the end index: -1 or the index of a backslash. |
| Truncate.TruncatePathAsWritten | customComponents.py:212-225 | The method as written computes `Shortened` at the as-written loop's index. |
| Truncate.TruncatePath | customComponents.py:212-225 | The corrected method computes `Shortened` at the intended index, where the search stops once it finds no backslash. |
| Truncate.SepIndexCounts | customComponents.py:217-219 | After `i` turns, the path from the index on holds exactly `i` backslashes and starts with one. -1 means the path holds fewer than `i`. |
| Truncate.TruncateShort | customComponents.py:221-223 | A path with at most `segCount` backslashes is shown unchanged. |
| Truncate.TruncateLong | customComponents.py:224-225 | A longer path is shown as its drive, `\...`, and the suffix starting at a backslash that holds exactly `segCount` backslashes. |
| Truncate.AgreeUpToTwo | customComponents.py:212-219 | For `segCount` at most 2 (the default is 2), the code as written and the corrected code agree. |
| Truncate.WrapAroundCounterexample | customComponents.py:218-219 | For `C:\a\b` with 4 segments, the code as written shows `C:\...\b`, while the corrected code shows the path unchanged. |

## Left out

- Command lines, working directories and `Popen` arguments: a process is a pid and a `Command` tag. Pids come from a counter, so pid reuse by the operating system is not modelled.
- Decoding the pipe output as UTF-8: `output` gives the text directly.
- Manager.DataManager.WriteJobOutToStream: `for line in job.stdout` blocks until the process closes its output, so in the source a poll waits for every active job's output to end, running or not. The model reads the whole `output` text at once and does not show this blocking. The `status` oracle may report any job as still running, so every property stated holds for the blocking behaviour as well.
- Manager.DataManager.PollActiveJobs: the console text does not include the two banner lines printed before each flushed buffer, only the buffers' text.
- Manager.DataManager.WriteDataToTmpPack: these writes are not modelled (file I/O): the JSON dump of the manifest, the writes of the config, response and packing-script texts, the crop and resize of the images (`cropAndResizeImage`, floating point) and the two `copytree` calls. The method states which entries must be staged and which data are generated. A write or copy that fails for a reason of the file system is not captured. `copytree(None, …)` lists the working directory and raises on its first entry; the model fails with `NoAssetsPath` whatever that directory holds.
- PackMeta.Classify: upper-cases ASCII letters only. Python's `str.upper` also maps other letters and can change the length (`ß` becomes `SS`), so a prefix with such letters can match a different table entry in the source.
- Patterns.FormatRender: covers fields named exactly `PACKNAME`, `BASENAME` or `EXT`, with `{{` and `}}` escapes. Format specs, conversions, indexing and attribute access (`{PACKNAME:>8}`, `{EXT!s}`, `{PACKNAME[0]}`) are accepted by Python's `str.format`; the model rejects such a pattern as a bad field.
- Layout.Walk: a layout object is a list of entries, which could hold one name twice. `json.load` never produces that: it keeps one entry per name, at the first position with the last value. Such lists are outside the source's domain; on them `Walk` and `Search` would visit every duplicate while `Lookup` takes the last.
- Manager.DataManager.GeneratePackingCmdData: keeps the values the batch script is built from (`PackingCmd`), not the script's text.
- `_getEnginePaths` (Windows registry) is the `found` argument of `Open`.
- `fetchJsonData`: the layout and the asset-type table are given already parsed. A file that fails to load (`None`) is not modelled.
- `openOutputDir`: it only launches the file explorer.
- Manager.DataManager.Cleanup: records the order in which the actions run, not their effects on disk. Whether an action raises is the `fails` argument. The response rewrite's text is `ExportedResponse`.
- Manager.DataManager.StagePack: `createdDirs` records the asset folder itself, not the intermediate directories `os.makedirs` also creates. The asset folder's directory counts as existing only when it equals, as a string, a directory the staging made; `normpath` is uninterpreted. A directory outside the staging that already exists, such as the engine directory reached through `..`, is not modelled as a failure of `os.makedirs`.
- Manager.DataManager.InferAssetTypes: adds the types found in one step at the end of the scan instead of one at a time. With a set no exception can come in between, and with a list the first typed asset raises before anything is added, so the final state is the same.
- Manager.StageLayout: the walk, check and conversion update a registry value that is stored at the end, instead of the dict in place. Nothing reads the dict in between.
- Manager.DataManager.GeneratePackFileStruct: `sanitize_filename` is taken to return a name without separators. A clean name such as `.` or `..`, or one naming a folder that already exists, is not modelled as a failure of `os.mkdir`.
- Paths.Join: a second part with a drive but no root, on the same drive as the first (`C:foo` onto `C:\x`), replaces the first instead of being appended.
- Python exception classes are collapsed into `ManagerError`. A `KeyError`, `TypeError` or `AttributeError` from an unset entry is `NotStaged`.
- The GUI code of `customComponents.py` other than `_truncatePath`, and `app.py`, are not part of this model.

## Findings

| source | as written | input that shows it | evidently intended | confidence | as-written member | corrected member |
|---|---|---|---|---|---|---|
| customComponents.py:218-219 | once `rfind` returns -1, the next turn searches `fullPath[0:-1]`, so the index wraps round to the last backslash | `C:\a\b` with `segCount` 4 is shown as `C:\...\b`. The defect is latent: the only call (customComponents.py:209) uses the default `segCount` of 2, where both versions agree (`Truncate.AgreeUpToTwo`) | a path with fewer than `segCount` backslashes is shown unchanged | not executed | Truncate.WrapAroundCounterexample | Truncate.TruncatePath |
