# FolderMonitorAdrian sender engine in Dafny

This project models `ImmediateSender`, the engine of FolderMonitorAdrian.
The engine watches a folder and mails every batch of new files. It runs in five steps:

- **Touch.** A file-system event (`on_touch`) puts an admitted path into the pending map, with the time of the touch.
- **Drain.** A periodic drain pass walks the pending map in insertion order. It drops paths whose file has vanished. It moves settled, openable files into a batch.
- **Package.** The batch is sent either as plain attachments or as one freshly built bundle. The choice depends on the configuration and on the batch's total size, rounded to hundredths of a MiB.
- **Archive.** After a delivery, each file is moved on its own into the backup folder. When its name is taken there, it gets a timestamped name.
- **Record.** Each moved path is recorded once in the persisted `processed_files` list. Then `last_run_utc` is set and the state is saved.

Modules:

- `Base`: the `Option` type and duplicate-freedom of sequences.
- `FileSystem`: the abstract disk. It has the watched files with their modification time, size and readiness, plus the names in the backup and temporary folders.
- `Paths`: the path rules the sender relies on:
  - pathlib's `name`, `suffix` and `stem`;
  - lower-casing of the extension;
  - the archive-name rule.
- `Packaging`: `bytes_to_mb`, the bundle-or-attach decision, the total size and the list of artifacts.
- `PersistedState`: loading the state file with its defaults, and saving it.
- `Tracker`: touch admission, and the functions that specify one drain pass.
- `Archive`: the function that specifies the per-file move loop, and its lemmas.
- `Sender`: the class `ImmediateSender`, whose fields hold the following, and whose methods are proved against the functions above:
  - the pause flag;
  - the pending map and its insertion order;
  - the processed list;
  - the last-run time;
  - the saved state file.

How the source's behaviour is represented:

- **Pending map.** The source uses a Python dict. It is modelled as a `map` plus a `seq` holding the keys in insertion order. Touching a known path again overwrites its timestamp and keeps its place, as a dict does.
- **Clock.** Time is a parameter, in integer seconds.
- **Collaborators.** The collaborators the engine calls are parameters of type `Env`:
  - whether building the bundle succeeds;
  - whether the mail transport succeeds;
  - which moves fail;
  - the timestamp strings.

Behaviours of the code that the model keeps as they are:

- **Re-touch.** A touch of a path that is already pending overwrites its timestamp (FolderMonitorAdrian.py:154).
- **Eligibility.** A pending path is promoted by its file's modification time, compared with the minimum age (FolderMonitorAdrian.py:170).
- **Extension filter.** The include and exclude lists are applied when a path is touched (FolderMonitorAdrian.py:148-152); the drain does not look at extensions.
- **Readiness.** A file is ready when opening it for reading succeeds (FolderMonitorAdrian.py:86-94). It is the `ready` flag of a file.
- **State saving.** After a delivery, `last_run_utc` is set and the state is saved whether or not the moves succeeded (FolderMonitorAdrian.py:217-231).
- **Fallback archive name.** The timestamped name is not checked against the backup folder (FolderMonitorAdrian.py:220-223). `Paths.ArchiveNameFallbackMayBeTaken` shows a folder in which it is already taken.
- **Names ending in a dot.** For such a name, for example `a.`, pathlib gives an empty suffix. Its timestamped name then does acquire a suffix (`a._<stamp>`). `Paths.ArchiveNameKeepsSuffix` states exactly when the suffix survives.

## Model

| member | source | states |
|---|---|---|
| PersistedState.Load | FolderMonitorAdrian.py:110-117 | A missing or unparseable state file gives an empty processed list and no last-run time; a parsed file keeps its list, or gets an empty one when the key is absent |
| PersistedState.Save | FolderMonitorAdrian.py:230-231 | The saved file holds the processed list and the record's last-run time, and loading it gives back the record that was saved |
| PersistedState.SaveIdempotent | FolderMonitorAdrian.py:110-117 | Save followed by load is a round trip, so repeating it changes nothing |
| Sender.ImmediateSender.constructor | FolderMonitorAdrian.py:98-125 | The configuration is stored, nothing is pending, the engine is not paused, and processed list and last-run time are those that loading the stored state gives |
| Sender.ImmediateSender.TogglePause | FolderMonitorAdrian.py:134-140 | The pause flag is negated and its new value is returned |
| Paths.Name | FolderMonitorAdrian.py:219 | The final path component contains no separator and is no longer than the path |
| Paths.NameOfJoin | FolderMonitorAdrian.py:219 | Joining a folder and a separator-free name and taking the final component gives the name back |
| Paths.LastDot | FolderMonitorAdrian.py:148 | The index found is a dot and no dot follows it, or -1 when the string has no dot |
| Paths.Suffix | FolderMonitorAdrian.py:148 | A suffix is empty or a dot followed by at least one dot-free character, strictly shorter than the name |
| Paths.Stem | FolderMonitorAdrian.py:221 | The stem followed by the suffix is the whole name |
| Paths.Lower | FolderMonitorAdrian.py:148 | Lower-casing keeps the length, maps every character through the ASCII lower-case map and leaves no upper-case letter |
| Paths.Extension | FolderMonitorAdrian.py:148 | The extension compared against the filters is empty or a lower-case dot-suffix |
| Tracker.Admitted | FolderMonitorAdrian.py:145-152 | A touch is admitted exactly when the path exists, is a regular file, its lower-cased suffix is in the include list when that is non-empty, and is not in the exclude list when that is non-empty |
| Sender.ImmediateSender.OnTouch | FolderMonitorAdrian.py:142-154 | While paused or for a non-admitted path nothing changes; otherwise the path's timestamp becomes now (overwriting), a new path joins the end of the order, and every other entry is unchanged; the map/order invariant is kept |
| Tracker.Eligible | FolderMonitorAdrian.py:167-171 | A pending path is promoted exactly when its file exists, its modification time lies at least the minimum age before now, and it can be opened |
| Tracker.Kept | FolderMonitorAdrian.py:167-173 | A pending path stays pending exactly when its file exists and it is not eligible |
| Tracker.Promoted | FolderMonitorAdrian.py:164-173 | The batch of one pass is never longer than the pending order, and every path in it is eligible |
| Tracker.Retained | FolderMonitorAdrian.py:164-173 | The order left by one pass is never longer than the pending order, and every path in it is kept |
| Tracker.RetainedEntries | FolderMonitorAdrian.py:163-175 | The pending map after a pass holds exactly the old paths that still exist but are not eligible, with their old timestamps |
| Tracker.AfterVisitEntries | FolderMonitorAdrian.py:164-173 | Visiting a prefix of the order removes exactly the visited paths that are not kept and changes no timestamp |
| Tracker.RetainedEntriesAfterPass | FolderMonitorAdrian.py:164-173 | A map that lost exactly the non-kept paths of a full pass and changed no timestamp equals the retained entries |
| Tracker.PromotedMembers | FolderMonitorAdrian.py:170-173 | The batch holds exactly the eligible paths: existing, old enough by modification time, and ready |
| Tracker.RetainedMembers | FolderMonitorAdrian.py:167-173 | The remaining order holds exactly the visited paths that exist and are not eligible |
| Tracker.DrainDistinct | FolderMonitorAdrian.py:164-173 | From a duplicate-free order the batch and the remaining order are duplicate-free |
| Tracker.DrainPartition | FolderMonitorAdrian.py:167-173 | Every batched path exists; a vanished path is neither batched nor kept; an existing path is batched exactly when it is not kept |
| Tracker.DrainPass | FolderMonitorAdrian.py:163-175 | A full pass leaves the retained entries, the batch is exactly the eligible pending paths, the new order lists exactly the remaining keys, and batch and remaining pending paths are disjoint |
| Sender.ImmediateSender.Drain | FolderMonitorAdrian.py:161-175 | The batch is the eligible pending paths in order and duplicate-free; pending becomes the retained entries with unchanged timestamps and order; no batched path stays pending |
| Sender.ImmediateSender.SweepOnce | FolderMonitorAdrian.py:156-181 | While paused nothing changes; otherwise the batch and the new pending map and order are those of one drain pass, and every batched file exists; an empty batch changes nothing else; a non-empty batch fails exactly when its bundle or its delivery fails, reporting a bundle failure exactly when the bundle could not be built, and then nothing moves and the state is unchanged; mail is handed over exactly unless the bundle could not be built; a built bundle is removed from the temporary folder whatever the outcome, and nothing else there changes; while on success disk and processed list are the archiving of the batch and the last-run time and saved state are updated; the error is absorbed; no batched path stays pending; every path that leaves pending had vanished, is still on disk, or is recorded as processed |
| Packaging.CentiMiB | FolderMonitorAdrian.py:35-36 | The size in hundredths of a MiB is within half a hundredth of the exact quotient, and a tie goes to the even neighbour |
| Packaging.Bundled | FolderMonitorAdrian.py:188 | A batch is bundled exactly when bundling is forced, or the limit is positive and the total rounded to hundredths of a MiB exceeds it |
| Packaging.BundledBySize | FolderMonitorAdrian.py:188 | Without forced bundling, a limit of zero or less never bundles; a positive limit bundles exactly when the byte total exceeds it by more than half a hundredth of a MiB, or by exactly that when the limit is odd |
| Packaging.TenMiBLimit | FolderMonitorAdrian.py:188 | With a 10 MiB limit, 8 MiB goes as attachments and 12 MiB as one bundle |
| Packaging.TotalBytes | FolderMonitorAdrian.py:184 | The total is at least every file's size and is zero for an empty batch |
| Packaging.Artifacts | FolderMonitorAdrian.py:188-196 | A bundled batch gives exactly one artifact, the bundle built from the batch at the bundle path; otherwise one attachment per file, in batch order |
| Sender.ImmediateSender.ProcessFiles | FolderMonitorAdrian.py:183-231 | A missing file, a failed bundle or a failed delivery abandons the batch with no move and no state change (a built bundle is still removed); after delivery the disk and processed list are the archiving of the batch, exactly the movable files leave, processed keeps its prefix, gains exactly the moved paths, appends only paths it did not hold and none twice, and stays duplicate-free, and last-run time and saved state are updated |
| Sender.ImmediateSender.ArchiveBatch | FolderMonitorAdrian.py:217-228 | The move loop leaves exactly the disk and processed list that archiving the files one after another gives |
| Paths.ArchiveName | FolderMonitorAdrian.py:219-222 | A free name is used as is; a taken one is replaced by a different, timestamped name one separator and one stamp longer |
| Paths.JoinKeepsSuffix | FolderMonitorAdrian.py:221-222 | Appending "_" and a dot-free stamp to a stem and re-adding a non-empty suffix keeps that suffix |
| Paths.JoinAfterBareName | FolderMonitorAdrian.py:221-222 | A suffix-less name with "_" and a dot-free stamp appended stays suffix-less exactly when the name does not end in a dot |
| Paths.ArchiveNameKeepsSuffix | FolderMonitorAdrian.py:219-222 | The archive name keeps the original suffix exactly when the name is free or does not end in a dot |
| Paths.ArchiveNameFallbackMayBeTaken | FolderMonitorAdrian.py:220-223 | The timestamped name is not checked: with both names taken, the name chosen is one already in the backup folder |
| Archive.ArchiveAll | FolderMonitorAdrian.py:217-228 | Archiving a batch leaves the temporary folder alone and adds at most one processed entry per file |
| Archive.ArchiveOne | FolderMonitorAdrian.py:217-228 | A missing or failing file changes nothing; a moved file leaves the watched files and its archive name joins the backup folder; the processed list is unchanged when the path is already in it and otherwise gains the path at its end |
| Archive.ArchiveAllDisk | FolderMonitorAdrian.py:217-228 | After a batch exactly the present non-failing files have left, a failed move does not stop later ones, the backup folder only grows and the temporary folder is untouched |
| Archive.ArchiveAllRecords | FolderMonitorAdrian.py:225-226 | The processed list keeps its old entries as a prefix, and a path is in it exactly when it was before or it is a present, non-failing file of the batch |
| Archive.ArchiveAllAppendsFresh | FolderMonitorAdrian.py:225-226 | Whatever the processed list held before, even repeated entries, the entries a batch appends are pairwise different and none of them was already in the list |
| Archive.ArchiveAllDistinct | FolderMonitorAdrian.py:225-226 | A duplicate-free processed list stays duplicate-free |
| Archive.ArchiveTwo | FolderMonitorAdrian.py:217 | A two-file batch is archived first file, then second |
| Archive.SameNameMoves | FolderMonitorAdrian.py:219-223 | Of two movable files with the same free name, the second goes under the timestamped name after the first took the plain one |
| Archive.SameNameKeptApart | FolderMonitorAdrian.py:219-223 | Two different files with the same name, both movable and with both names free, end up as two distinct backup files |

## Left out

- Mail delivery: SMTP and MIME (`send_mail`, `attach_file`) are left out, because they are network I/O. Only delivery success and the artifacts handed over are modelled; the subject and body text are not.
- Bundle building: ZIP creation and staging copies (`make_zip_of_files`) are abstracted to a success flag and a temporary path.
- Threads: the worker thread, the lock, the stop event, `stop`/`join` and the sleeps of the sweep loop are left out. `OnTouch` and `Drain` are atomic steps, and `SweepOnce` is a single iteration of the loop.
- Filesystem: real `stat`, `open`, `shutil.move` and `unlink` are left out, and so is the creation of the watch, backup and state folders at start-up (FolderMonitorAdrian.py:119-120). The file system is an abstract map, readiness is a flag, and a move fails either for a listed path or when the source is gone. A failed removal would leave the bundle in the temporary folder; its error is swallowed at FolderMonitorAdrian.py:212-215. The model always removes it.
- Drain errors: an exception raised inside the drain loop for an existing path (swallowed by `except: pass`) is not modelled. Such a path would stay pending.
- Persistence: `save_json` failing, a state file holding JSON that is not an object, and state keys other than `processed_files` and `last_run_utc` are left out.
- Clock: time is an integer number of seconds, not a float. Each batch has one timestamp string, and the exact `strftime` and ISO formats are not modelled.
- Packaging.Artifacts: the bundle's `members` are the batch's paths. The archive itself holds one entry per distinct file name, because files are staged by name (FolderMonitorAdrian.py:77-78), and its entries follow the staging folder's listing order (FolderMonitorAdrian.py:80-81). Neither the collapsing of same-named files nor the entry order is modelled.
- SweepOnce: the file system is assumed not to change between the drain pass and the processing of its batch; both see the same `disk`. In the code a file deleted in between makes the size read at FolderMonitorAdrian.py:184 fail, and lines 177-180 absorb that error. This is why `SweepOnce` promises `failure != Some(StatFailed)`.
- Tracker.Eligible: readiness is a flag of its own. A directory can never be opened for reading (FolderMonitorAdrian.py:86-94), but a `FileInfo` with `ready` set and `isFile` unset is not excluded, so the model's drain would batch such a path where the code never does.
- Packaging.Bundled: `max_total_attachment_mb` is taken in hundredths of a MiB. A configured limit with more than two decimals is not modelled.
- Paths.Lower: only ASCII letters are lower-cased. Unicode case mapping and path normalisation are not modelled, and `/` is the only separator.
- Configuration and logging: logging, configuration loading, `get_base_dir`, `resolve_relative_to_base`, the watchdog `Handler`, the tray icon and `main` are infrastructure outside the engine.
