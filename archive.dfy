/**
 * What happens after a batch has been delivered: each file is moved into the
 * backup folder on its own, and the original path of every file that moved
 * is recorded once in the list of processed files.  A move that fails leaves
 * the file where it is and does not stop the files after it.
 */
module Archive {
  import opened Base
  import opened FileSystem
  import opened Paths

  /** The disk and the list of processed files while the batch is being archived. */
  datatype Progress = Progress(disk: Disk, processed: seq<string>)

  /**
   * Archives one file.  The move succeeds when the file is still present and
   * is not among the moves that fail (`failed` stands for the errors the
   * operating system reports).  On success the file leaves the watched
   * files, its archive name joins the backup folder, and its path is
   * appended to the processed list unless it is already there.
   */
  function ArchiveOne(f: string, failed: set<string>, stamp: string, p: Progress): (q: Progress)
    ensures q.disk.temp == p.disk.temp
    ensures f !in p.disk.files || f in failed ==> q == p
    ensures f in p.disk.files && f !in failed ==>
      && q.disk.files == p.disk.files - {f}
      && q.disk.backup == p.disk.backup + {ArchiveName(Name(f), p.disk.backup, stamp)}
      && f in q.processed
    ensures f in p.processed ==> q.processed == p.processed
    ensures f in p.disk.files && f !in failed && f !in p.processed ==> q.processed == p.processed + [f]
  {
    if f in p.disk.files && f !in failed then
      var dest := ArchiveName(Name(f), p.disk.backup, stamp);
      Progress(Disk(p.disk.files - {f}, p.disk.backup + {dest}, p.disk.temp),
               if f in p.processed then p.processed else p.processed + [f])
    else p
  }

  /**
   * Archives the files of a batch one after another, starting from `start`.
   * The temporary folder is not touched, and each file adds at most one
   * entry to the processed list.
   */
  function ArchiveAll(files: seq<string>, failed: set<string>, stamp: string, start: Progress): (r: Progress)
    ensures r.disk.temp == start.disk.temp
    ensures |start.processed| <= |r.processed| <= |start.processed| + |files|
    decreases |files|
  {
    if files == [] then start
    else ArchiveOne(files[|files| - 1], failed, stamp, ArchiveAll(files[..|files| - 1], failed, stamp, start))
  }

  /** The paths of `files` whose move is not reported as failing. */
  function Movable(files: seq<string>, failed: set<string>): set<string>
  {
    set x | x in files && x !in failed
  }

  /**
   * After archiving a batch, exactly the present, non-failing files of the
   * batch have left the watched files, and the others are untouched; the
   * backup folder only gains names; the temporary folder is not touched.
   */
  lemma {:induction false} ArchiveAllDisk(files: seq<string>, failed: set<string>, stamp: string, start: Progress)
    ensures var r := ArchiveAll(files, failed, stamp, start);
      && r.disk.files == start.disk.files - Movable(files, failed)
      && r.disk.temp == start.disk.temp
      && start.disk.backup <= r.disk.backup
    decreases |files|
  {
    if files != [] {
      var init, f := files[..|files| - 1], files[|files| - 1];
      assert files == init + [f];
      ArchiveAllDisk(init, failed, stamp, start);
      assert Movable(files, failed) == Movable(init, failed) + (if f in failed then {} else {f});
    }
  }

  /**
   * After archiving a batch, the processed list keeps its old entries, in
   * order, as a prefix, and a path is in the new list exactly when it was in
   * the old one or it is a file of the batch that was present and did not
   * fail to move.  A failed move does not keep later files from moving.
   */
  lemma {:induction false} ArchiveAllRecords(files: seq<string>, failed: set<string>, stamp: string, start: Progress)
    ensures var r := ArchiveAll(files, failed, stamp, start);
      && |start.processed| <= |r.processed|
      && r.processed[..|start.processed|] == start.processed
      && (forall x :: x in r.processed <==>
            x in start.processed || (x in files && x in start.disk.files && x !in failed))
    decreases |files|
  {
    if files != [] {
      var init, f := files[..|files| - 1], files[|files| - 1];
      assert files == init + [f];
      ArchiveAllRecords(init, failed, stamp, start);
      ArchiveAllDisk(init, failed, stamp, start);
      var before := ArchiveAll(init, failed, stamp, start);
      var r := ArchiveOne(f, failed, stamp, before);
      if f in before.disk.files && f !in failed && f !in before.processed {
        assert r.processed == before.processed + [f];
        assert r.processed[..|start.processed|] == before.processed[..|start.processed|];
      } else {
        assert r.processed == before.processed;
      }
    }
  }

  /** Archiving never records a path twice: a duplicate-free list stays duplicate-free. */
  lemma {:induction false} ArchiveAllDistinct(files: seq<string>, failed: set<string>, stamp: string, start: Progress)
    requires Distinct(start.processed)
    ensures Distinct(ArchiveAll(files, failed, stamp, start).processed)
    decreases |files|
  {
    if files != [] {
      var init, f := files[..|files| - 1], files[|files| - 1];
      ArchiveAllDistinct(init, failed, stamp, start);
      var before := ArchiveAll(init, failed, stamp, start);
      if f in before.disk.files && f !in failed && f !in before.processed {
        AppendDistinct(before.processed, f);
      }
    }
  }

  /**
   * Whatever the processed list held before, even repeated entries, the
   * entries a batch appends are new to it and pairwise different: a path is
   * never appended when it is already recorded, nor appended twice.
   */
  lemma {:induction false} ArchiveAllAppendsFresh(files: seq<string>, failed: set<string>, stamp: string, start: Progress)
    ensures var r := ArchiveAll(files, failed, stamp, start);
      var k := |start.processed|;
      && k <= |r.processed|
      && Distinct(r.processed[k..])
      && (forall x :: x in r.processed[k..] ==> x !in start.processed)
    decreases |files|
  {
    if files != [] {
      var init, f := files[..|files| - 1], files[|files| - 1];
      var k := |start.processed|;
      ArchiveAllAppendsFresh(init, failed, stamp, start);
      ArchiveAllRecords(init, failed, stamp, start);
      var before := ArchiveAll(init, failed, stamp, start);
      if f in before.disk.files && f !in failed && f !in before.processed {
        var added := before.processed[k..];
        assert f !in added by {
          forall i | 0 <= i < |added| ensures added[i] != f {
            assert added[i] == before.processed[k + i];
          }
        }
        AppendDistinct(added, f);
        assert (before.processed + [f])[k..] == added + [f];
        assert f !in start.processed by {
          assert before.processed[..k] == start.processed;
          forall i | 0 <= i < k ensures start.processed[i] != f {
            assert start.processed[i] == before.processed[i];
          }
        }
      }
    }
  }

  /** Helper: archiving a two-file batch is archiving the first file, then the second. */
  lemma ArchiveTwo(f1: string, f2: string, failed: set<string>, stamp: string, start: Progress)
    ensures ArchiveAll([f1, f2], failed, stamp, start)
         == ArchiveOne(f2, failed, stamp, ArchiveOne(f1, failed, stamp, start))
  {
    assert [f1][..0] == [];
    assert ArchiveAll([f1], failed, stamp, start) == ArchiveOne(f1, failed, stamp, start);
    assert [f1, f2][..1] == [f1];
  }

  /** Helper: adding two fresh, different names to a set grows it by two. */
  lemma AddTwo(s: set<string>, a: string, b: string)
    ensures (s + {a}) + {b} == s + {a, b}
    ensures a !in s && b !in s && a != b ==> |s + {a, b}| == |s| + 2
  {
  }

  /**
   * Two different files with the same name, both free to move, end up as two
   * different files in the backup folder: the first under its own name, the
   * second under the timestamped name, provided neither name was taken.
   */
  lemma SameNameKeptApart(f1: string, f2: string, failed: set<string>, stamp: string, start: Progress)
    requires f1 != f2 && Name(f1) == Name(f2)
    requires f1 in start.disk.files && f2 in start.disk.files && f1 !in failed && f2 !in failed
    requires Name(f1) !in start.disk.backup
    requires Stem(Name(f1)) + "_" + stamp + Suffix(Name(f1)) !in start.disk.backup
    ensures var n := Name(f1);
      var b := ArchiveAll([f1, f2], failed, stamp, start).disk.backup;
      var fallback := Stem(n) + "_" + stamp + Suffix(n);
      && n != fallback
      && b == start.disk.backup + {n, fallback}
      && |b| == |start.disk.backup| + 2
  {
    var n := Name(f1);
    var fallback := Stem(n) + "_" + stamp + Suffix(n);
    assert |fallback| == |n| + 1 + |stamp|;
    ArchiveTwo(f1, f2, failed, stamp, start);
    SameNameMoves(f1, f2, failed, stamp, start, n, fallback);
    AddTwo(start.disk.backup, n, fallback);
  }

  /** Helper: the two moves of `SameNameKeptApart`, one after the other. */
  lemma SameNameMoves(f1: string, f2: string, failed: set<string>, stamp: string, start: Progress, n: string, fallback: string)
    requires f1 != f2 && Name(f1) == n && Name(f2) == n
    requires f1 in start.disk.files && f2 in start.disk.files && f1 !in failed && f2 !in failed
    requires n !in start.disk.backup
    requires fallback == ArchiveName(n, start.disk.backup + {n}, stamp)
    ensures ArchiveOne(f2, failed, stamp, ArchiveOne(f1, failed, stamp, start)).disk.backup
         == (start.disk.backup + {n}) + {fallback}
  {
    var one := ArchiveOne(f1, failed, stamp, start);
    assert one.disk.backup == start.disk.backup + {n};
    assert f2 in one.disk.files;
  }
}
