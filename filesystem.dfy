/**
 * The part of the outside world the sender looks at.  Nothing here performs
 * I/O: the filesystem is a value that the engine's operations receive and,
 * when they move files, return changed.
 */
module FileSystem {

  /**
   * What `stat` and an open-for-read attempt say about an existing path:
   * whether it is a regular file, its modification time (seconds), its size
   * (bytes), and whether it can currently be opened for reading (the
   * readiness check of the watcher, which is an ordinary shared open).
   * Opening a directory for reading fails, so on a real disk `ready` implies
   * `isFile`; the model does not require this of a `FileInfo`.
   */
  datatype FileInfo = FileInfo(isFile: bool, mtime: int, size: nat, ready: bool)

  /**
   * `files` maps each existing path (as its string form) to what `stat` says
   * about it; `backup` holds the names present in the backup folder; `temp`
   * holds the paths present in the temporary folder where bundles are built.
   */
  datatype Disk = Disk(files: map<string, FileInfo>, backup: set<string>, temp: set<string>)
}
