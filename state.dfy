/**
 * The sender's persisted record: the list of source paths it has archived
 * and the time of its last successful run, read once at start-up and
 * rewritten after every delivered batch.
 */
module PersistedState {
  import opened Base

  /** The record the sender keeps in memory (`self.state`). */
  datatype Record = Record(processedFiles: seq<string>, lastRunUtc: Option<string>)

  /**
   * What reading the state file yields: no file, a file that does not parse,
   * or a parsed object whose `processed_files` and `last_run_utc` keys may
   * each be absent.
   */
  datatype StateFile =
    | Missing
    | Unparseable
    | Parsed(processedFiles: Option<seq<string>>, lastRunUtc: Option<string>)

  /**
   * Loading: a missing or unparseable file gives an empty record; a parsed
   * file keeps its list of processed files when it has one, and an empty list
   * takes the place of an absent one.
   */
  function Load(file: StateFile): (r: Record)
    ensures !file.Parsed? ==> r == Record([], None)
    ensures file.Parsed? ==> r.lastRunUtc == file.lastRunUtc
    ensures file.Parsed? && file.processedFiles.Some? ==> r.processedFiles == file.processedFiles.value
    ensures file.Parsed? && file.processedFiles.None? ==> r.processedFiles == []
  {
    match file
    case Missing => Record([], None)
    case Unparseable => Record([], None)
    case Parsed(files, last) => Record(if files.Some? then files.value else [], last)
  }

  /** Saving writes both keys, so loading the saved file gives the record back. */
  function Save(r: Record): (file: StateFile)
    ensures file.Parsed? && file.processedFiles.Some?
    ensures Load(file) == r
  {
    Parsed(Some(r.processedFiles), r.lastRunUtc)
  }

  /** Saving the same record twice leaves a file that loads to that record. */
  lemma SaveIdempotent(r: Record)
    ensures Load(Save(Load(Save(r)))) == r
  {
  }
}
