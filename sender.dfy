/**
 * The sender engine: it tracks touched files, promotes settled ones into a
 * batch on each sweep, mails the batch as attachments or as one bundle, and
 * after a successful delivery moves the files to the backup folder and
 * records them in its persisted state.
 *
 * The watcher thread and the sweep thread share only the pending map under a
 * lock; here `OnTouch` and `Drain` are atomic steps of one sequential object.
 */
module Sender {
  import opened Base
  import opened FileSystem
  import opened Paths
  import opened Packaging
  import opened PersistedState
  import opened Tracker
  import opened Archive

  /** Why a batch was not completed: the error that leaves `ProcessFiles`. */
  datatype Failure =
    | StatFailed      // a file of the batch no longer exists when its size is read
    | BundleFailed    // building the bundle failed
    | DeliveryFailed  // the mail transport reported an error

  /** The answers of the collaborators the engine calls while processing one batch. */
  datatype Env = Env(
    zipPath: string,           // where the bundle is built in the temporary folder
    zipOk: bool,               // whether building the bundle succeeds
    sendOk: bool,              // whether the mail transport accepts the mail
    failedMoves: set<string>,  // the files whose move to the backup folder fails
    stamp: string,             // the local time used in fallback archive names
    runUtc: string)            // the time stored as `last_run_utc`

  /** Every file of the batch exists, so its size can be read. */
  predicate AllPresent(files: seq<string>, disk: Disk)
  {
    forall f :: f in files ==> f in disk.files
  }

  /** What is handed to the mail transport: the number of files and the artifacts. */
  datatype Mail = Mail(fileCount: nat, artifacts: seq<Artifact>)

  class ImmediateSender {
    const includeExt: seq<string>
    const excludeExt: seq<string>
    const minAge: int
    const maxCenti: int   // `max_total_attachment_mb`, in hundredths of a MiB
    const zipBefore: bool

    var paused: bool
    /** Pending paths with the time of their latest admitted touch. */
    var pending: map<string, int>
    /** The keys of `pending` in insertion order, the order in which a dict is iterated. */
    var order: seq<string>
    /** `state["processed_files"]`. */
    var processed: seq<string>
    /** `state["last_run_utc"]`. */
    var lastRunUtc: Option<string>
    /** What the state file on disk holds. */
    var stateFile: StateFile

    ghost predicate Valid()
      reads this
    {
      Distinct(order) && (forall p :: p in order <==> p in pending)
    }

    /** Whether this sender bundles a batch whose files are all present on `disk`. */
    predicate BundlesBatch(files: seq<string>, disk: Disk)
      requires AllPresent(files, disk)
    {
      Bundled(zipBefore, maxCenti, TotalBytes(files, disk.files))
    }

    /**
     * Start-up: the configuration is fixed, nothing is pending, the engine
     * runs, and the state is whatever loading the state file gives.
     */
    constructor (includeExt: seq<string>, excludeExt: seq<string>, minAge: int, maxCenti: int,
                 zipBefore: bool, stored: StateFile)
      ensures Valid()
      ensures this.includeExt == includeExt && this.excludeExt == excludeExt
      ensures this.minAge == minAge && this.maxCenti == maxCenti && this.zipBefore == zipBefore
      ensures !paused && pending == map[] && order == []
      ensures Record(processed, lastRunUtc) == Load(stored)
      ensures stateFile == stored
    {
      this.includeExt, this.excludeExt := includeExt, excludeExt;
      this.minAge, this.maxCenti, this.zipBefore := minAge, maxCenti, zipBefore;
      var loaded := Load(stored);
      processed, lastRunUtc := loaded.processedFiles, loaded.lastRunUtc;
      stateFile := stored;
      pending, order := map[], [];
      paused := false;
    }

    /** Flips the pause flag and reports its new value. */
    method TogglePause() returns (nowPaused: bool)
      modifies this`paused
      ensures paused == !old(paused)
      ensures nowPaused == paused
    {
      paused := !paused;
      nowPaused := paused;
    }

    /**
     * A touch of `path` at time `now`.  While paused, or when the path is not
     * admitted, nothing changes.  Otherwise the path's timestamp becomes `now`,
     * overwriting an earlier one; a new path goes to the end of the order, a
     * known one keeps its place; no other entry changes.
     */
    method OnTouch(path: string, files: map<string, FileInfo>, now: int)
      requires Valid()
      modifies this`pending, this`order
      ensures Valid()
      ensures paused || !Admitted(path, files, includeExt, excludeExt) ==>
        pending == old(pending) && order == old(order)
      ensures !paused && Admitted(path, files, includeExt, excludeExt) ==>
        && pending == old(pending)[path := now]
        && order == (if path in old(pending) then old(order) else old(order) + [path])
    {
      if paused {
        return;
      }
      if path !in files || !files[path].isFile {
        return;
      }
      var ext := Extension(path);
      if includeExt != [] && ext !in includeExt {
        return;
      }
      if excludeExt != [] && ext in excludeExt {
        return;
      }
      if path !in pending {
        AppendDistinct(order, path);
        order := order + [path];
      }
      pending := pending[path := now];
    }

    /**
     * One drain pass at time `now`: walks the pending paths in order, drops
     * those whose file has vanished, and moves the eligible ones into the
     * batch.  The batch is exactly the eligible pending paths in order, and
     * the remaining entries keep their timestamps and their order.
     */
    method Drain(files: map<string, FileInfo>, now: int) returns (batch: seq<string>)
      requires Valid()
      modifies this`pending, this`order
      ensures Valid()
      ensures batch == Promoted(old(order), files, now, minAge)
      ensures order == Retained(old(order), files, now, minAge)
      ensures pending == RetainedEntries(old(pending), files, now, minAge)
      ensures Distinct(batch)
      ensures forall p :: p in batch <==> p in old(pending) && Eligible(p, files, now, minAge)
      ensures forall p :: p in batch ==> p !in pending
    {
      var snapshot := order;
      batch := [];
      var kept := [];
      var i := 0;
      while i < |snapshot|
        invariant 0 <= i <= |snapshot|
        invariant batch == Promoted(snapshot[..i], files, now, minAge)
        invariant kept == Retained(snapshot[..i], files, now, minAge)
        invariant pending == AfterVisit(old(pending), snapshot[..i], files, now, minAge)
      {
        var p := snapshot[i];
        assert snapshot[..i + 1][..i] == snapshot[..i];
        if p !in files {
          pending := pending - {p};
        } else if now - files[p].mtime >= minAge && files[p].ready {
          batch := batch + [p];
          pending := pending - {p};
        } else {
          kept := kept + [p];
        }
        i := i + 1;
      }
      assert snapshot[..i] == snapshot;
      order := kept;
      DrainPass(old(pending), snapshot, files, now, minAge);
    }

    /**
     * Delivers one batch and, on success, archives it.  When a file of the
     * batch is missing, or the bundle cannot be built, or the mail transport
     * fails, the batch is abandoned: no file moves, the processed list, the
     * last-run time and the state file stay as they were (a built bundle is
     * still removed from the temporary folder).  After a delivery every file
     * is archived on its own, the last-run time is set and the state is saved,
     * whether or not the moves succeeded.
     */
    method ProcessFiles(files: seq<string>, disk: Disk, env: Env)
      returns (disk': Disk, mail: Option<Mail>, failure: Option<Failure>)
      modifies this`processed, this`lastRunUtc, this`stateFile
      ensures failure == Some(StatFailed) <==> !AllPresent(files, disk)
      ensures failure == Some(BundleFailed) <==> AllPresent(files, disk) && BundlesBatch(files, disk) && !env.zipOk
      ensures failure == Some(DeliveryFailed) <==>
        AllPresent(files, disk) && (BundlesBatch(files, disk) ==> env.zipOk) && !env.sendOk
      ensures mail.None? <==> failure == Some(StatFailed) || failure == Some(BundleFailed)
      ensures mail.Some? ==>
        && AllPresent(files, disk)
        && mail.value == Mail(|files|, Artifacts(files, BundlesBatch(files, disk), env.zipPath))
      ensures disk'.temp ==
        if AllPresent(files, disk) && BundlesBatch(files, disk) && env.zipOk then disk.temp - {env.zipPath} else disk.temp
      ensures failure != None ==>
        && disk'.files == disk.files && disk'.backup == disk.backup
        && processed == old(processed) && lastRunUtc == old(lastRunUtc) && stateFile == old(stateFile)
      ensures failure == None ==>
        && Progress(disk', processed)
           == ArchiveAll(files, env.failedMoves, env.stamp, Progress(Disk(disk.files, disk.backup, disk'.temp), old(processed)))
        && lastRunUtc == Some(env.runUtc)
        && stateFile == Save(Record(processed, lastRunUtc))
      ensures failure == None ==>
        && disk'.files == disk.files - Movable(files, env.failedMoves)
        && disk.backup <= disk'.backup
        && |old(processed)| <= |processed| && processed[..|old(processed)|] == old(processed)
        && (forall x :: x in processed <==> x in old(processed) || (x in files && x !in env.failedMoves))
        && (Distinct(old(processed)) ==> Distinct(processed))
        && Distinct(processed[|old(processed)|..])
        && (forall x :: x in processed[|old(processed)|..] ==> x !in old(processed))
    {
      if !(forall f :: f in files ==> f in disk.files) {
        return disk, None, Some(StatFailed);
      }
      var total := TotalBytes(files, disk.files);
      var bundled := zipBefore || (maxCenti > 0 && CentiMiB(total) > maxCenti);
      var temp := disk.temp;
      if bundled && !env.zipOk {
        return disk, None, Some(BundleFailed);
      }
      if bundled {
        temp := temp + {env.zipPath};
      }
      mail := Some(Mail(|files|, Artifacts(files, bundled, env.zipPath)));
      // the bundle is removed whatever the transport answers
      if bundled {
        temp := temp - {env.zipPath};
      }
      assert temp == if bundled then disk.temp - {env.zipPath} else disk.temp;
      if !env.sendOk {
        return Disk(disk.files, disk.backup, temp), mail, Some(DeliveryFailed);
      }
      failure := None;

      ghost var start := Progress(Disk(disk.files, disk.backup, temp), processed);
      disk' := ArchiveBatch(files, Disk(disk.files, disk.backup, temp), env.failedMoves, env.stamp);
      lastRunUtc := Some(env.runUtc);
      stateFile := Save(Record(processed, lastRunUtc));
      ArchiveAllDisk(files, env.failedMoves, env.stamp, start);
      ArchiveAllRecords(files, env.failedMoves, env.stamp, start);
      if Distinct(start.processed) {
        ArchiveAllDistinct(files, env.failedMoves, env.stamp, start);
      }
      ArchiveAllAppendsFresh(files, env.failedMoves, env.stamp, start);
    }

    /**
     * The move loop of a delivered batch: each file in turn is moved to the
     * backup folder under its archive name, and its path is appended to the
     * processed list unless already there; a failed move skips that file only.
     */
    method ArchiveBatch(files: seq<string>, disk: Disk, failedMoves: set<string>, stamp: string) returns (disk': Disk)
      modifies this`processed
      ensures Progress(disk', processed) == ArchiveAll(files, failedMoves, stamp, Progress(disk, old(processed)))
    {
      ghost var start := Progress(disk, processed);
      var present, backup := disk.files, disk.backup;
      var i := 0;
      while i < |files|
        invariant 0 <= i <= |files|
        invariant Progress(Disk(present, backup, disk.temp), processed) == ArchiveAll(files[..i], failedMoves, stamp, start)
      {
        var f := files[i];
        ghost var before := ArchiveAll(files[..i], failedMoves, stamp, start);
        assert files[..i + 1][..i] == files[..i];
        if f in present && f !in failedMoves {
          var dest := ArchiveName(Name(f), backup, stamp);
          present := present - {f};
          backup := backup + {dest};
          if f !in processed {
            processed := processed + [f];
          }
        }
        assert Progress(Disk(present, backup, disk.temp), processed) == ArchiveOne(f, failedMoves, stamp, before);
        i := i + 1;
      }
      assert files[..i] == files;
      disk' := Disk(present, backup, disk.temp);
    }

    /**
     * One iteration of the sweep loop.  While paused nothing happens.
     * Otherwise one drain pass runs and a non-empty batch is processed as
     * `ProcessFiles` describes; its error is absorbed.  No path leaves the
     * pending map without an account: its file had vanished, it is still on
     * disk, or it was archived and recorded as processed.
     */
    method SweepOnce(disk: Disk, now: int, env: Env)
      returns (disk': Disk, batch: seq<string>, mail: Option<Mail>, failure: Option<Failure>)
      requires Valid()
      modifies this`pending, this`order, this`processed, this`lastRunUtc, this`stateFile
      ensures Valid()
      ensures old(paused) ==>
        && disk' == disk && batch == [] && mail == None && failure == None
        && pending == old(pending) && order == old(order)
        && processed == old(processed) && lastRunUtc == old(lastRunUtc) && stateFile == old(stateFile)
      ensures !old(paused) ==>
        && batch == Promoted(old(order), disk.files, now, minAge)
        && order == Retained(old(order), disk.files, now, minAge)
        && pending == RetainedEntries(old(pending), disk.files, now, minAge)
      ensures AllPresent(batch, disk)
      ensures forall p :: p in batch ==> p !in pending
      ensures batch == [] ==>
        && disk' == disk && mail == None && failure == None
        && processed == old(processed) && lastRunUtc == old(lastRunUtc) && stateFile == old(stateFile)
      ensures failure != Some(StatFailed)
      ensures batch != [] ==>
        (failure == None <==> (BundlesBatch(batch, disk) ==> env.zipOk) && env.sendOk)
      ensures batch != [] ==> (mail.None? <==> BundlesBatch(batch, disk) && !env.zipOk)
      ensures batch != [] ==> (failure == Some(BundleFailed) <==> BundlesBatch(batch, disk) && !env.zipOk)
      ensures mail.Some? ==>
        mail.value == Mail(|batch|, Artifacts(batch, BundlesBatch(batch, disk), env.zipPath))
      ensures disk'.temp ==
        if batch != [] && BundlesBatch(batch, disk) && env.zipOk then disk.temp - {env.zipPath} else disk.temp
      ensures batch != [] && failure != None ==>
        && disk'.files == disk.files && disk'.backup == disk.backup
        && processed == old(processed) && lastRunUtc == old(lastRunUtc) && stateFile == old(stateFile)
      ensures batch != [] && failure == None ==>
        && Progress(disk', processed)
           == ArchiveAll(batch, env.failedMoves, env.stamp, Progress(Disk(disk.files, disk.backup, disk'.temp), old(processed)))
        && lastRunUtc == Some(env.runUtc)
        && stateFile == Save(Record(processed, lastRunUtc))
      ensures forall p :: p in old(pending) && p !in pending ==>
        p !in disk.files || p in disk'.files || p in processed
    {
      disk', batch, mail, failure := disk, [], None, None;
      if paused {
        return;
      }
      batch := Drain(disk.files, now);
      assert AllPresent(batch, disk);
      if batch != [] {
        disk', mail, failure := ProcessFiles(batch, disk, env);
        assert failure.Some? ==> failure.value.StatFailed? || failure.value.BundleFailed? || failure.value.DeliveryFailed?;
        forall p | p in old(pending) && p !in pending && p in disk.files && p !in disk'.files
          ensures p in processed
        {
          assert p in batch;
        }
      }
    }
  }
}
