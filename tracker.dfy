/**
 * The rules of the pending tracker: which touched paths are admitted, which
 * pending paths one drain pass promotes into the batch, and which it keeps
 * for a later pass.  The sender's methods are proved against these functions.
 */
module Tracker {
  import opened Base
  import opened FileSystem
  import opened Paths

  /**
   * A touch of `path` is admitted when the path exists and is a regular file,
   * its extension is listed in `includeExt` (when that list is non-empty), and
   * is not listed in `excludeExt` (when that list is non-empty).
   */
  predicate Admitted(path: string, files: map<string, FileInfo>, includeExt: seq<string>, excludeExt: seq<string>)
  {
    && path in files
    && files[path].isFile
    && (includeExt == [] || Extension(path) in includeExt)
    && (excludeExt == [] || Extension(path) !in excludeExt)
  }

  /**
   * A pending path is promoted when it still exists, its modification time
   * lies at least `minAge` seconds before `now`, and it can be opened.
   */
  predicate Eligible(p: string, files: map<string, FileInfo>, now: int, minAge: int)
  {
    p in files && now - files[p].mtime >= minAge && files[p].ready
  }

  /** A pending path stays pending when it still exists but is not yet eligible. */
  predicate Kept(p: string, files: map<string, FileInfo>, now: int, minAge: int)
  {
    p in files && !Eligible(p, files, now, minAge)
  }

  /**
   * The batch one pass collects from pending paths in iteration order `s`:
   * never longer than `s`, and every path in it is eligible.
   */
  function Promoted(s: seq<string>, files: map<string, FileInfo>, now: int, minAge: int): (r: seq<string>)
    ensures |r| <= |s|
    ensures forall i :: 0 <= i < |r| ==> Eligible(r[i], files, now, minAge)
    decreases |s|
  {
    if s == [] then []
    else
      var last := s[|s| - 1];
      Promoted(s[..|s| - 1], files, now, minAge) + (if Eligible(last, files, now, minAge) then [last] else [])
  }

  /**
   * The pending paths, in iteration order, that one pass leaves in place:
   * never more than `s` holds, and every one of them is kept.
   */
  function Retained(s: seq<string>, files: map<string, FileInfo>, now: int, minAge: int): (r: seq<string>)
    ensures |r| <= |s|
    ensures forall i :: 0 <= i < |r| ==> Kept(r[i], files, now, minAge)
    decreases |s|
  {
    if s == [] then []
    else
      var last := s[|s| - 1];
      Retained(s[..|s| - 1], files, now, minAge) + (if Kept(last, files, now, minAge) then [last] else [])
  }

  /** The pending map after a pass: the kept entries, with their timestamps unchanged. */
  function RetainedEntries(pending: map<string, int>, files: map<string, FileInfo>, now: int, minAge: int): (m: map<string, int>)
    ensures forall p :: p in m <==> p in pending && Kept(p, files, now, minAge)
    ensures forall p :: p in m ==> m[p] == pending[p]
  {
    map p | p in pending && Kept(p, files, now, minAge) :: pending[p]
  }

  /**
   * The pending map after a pass has visited the paths of `s` in order: each
   * visited path that is not kept has been removed.
   */
  function AfterVisit(pending: map<string, int>, s: seq<string>, files: map<string, FileInfo>, now: int, minAge: int): map<string, int>
    decreases |s|
  {
    if s == [] then pending
    else
      var m := AfterVisit(pending, s[..|s| - 1], files, now, minAge);
      var last := s[|s| - 1];
      if Kept(last, files, now, minAge) then m else m - {last}
  }

  /** Visiting removes exactly the visited paths that are not kept and changes no timestamp. */
  lemma {:induction false} AfterVisitEntries(pending: map<string, int>, s: seq<string>, files: map<string, FileInfo>, now: int, minAge: int)
    ensures forall p :: p in AfterVisit(pending, s, files, now, minAge) <==> p in pending && (p in s ==> Kept(p, files, now, minAge))
    ensures forall p :: p in AfterVisit(pending, s, files, now, minAge) ==> AfterVisit(pending, s, files, now, minAge)[p] == pending[p]
    decreases |s|
  {
    if s != [] {
      var init := s[..|s| - 1];
      AfterVisitEntries(pending, init, files, now, minAge);
      assert s == init + [s[|s| - 1]];
    }
  }

  /**
   * A map that lost exactly the visited paths that are not kept, and changed
   * no timestamp, is the pending map `RetainedEntries` describes.
   */
  lemma RetainedEntriesAfterPass(before: map<string, int>, after: map<string, int>, s: seq<string>,
                                 files: map<string, FileInfo>, now: int, minAge: int)
    requires forall p :: p in before ==> p in s
    requires forall p :: p in after <==> p in before && (p in s ==> Kept(p, files, now, minAge))
    requires forall p :: p in after ==> after[p] == before[p]
    ensures after == RetainedEntries(before, files, now, minAge)
  {
  }

  /** The batch holds exactly the eligible paths of `s`. */
  lemma {:induction false} PromotedMembers(s: seq<string>, files: map<string, FileInfo>, now: int, minAge: int)
    ensures forall x :: x in Promoted(s, files, now, minAge) <==> x in s && Eligible(x, files, now, minAge)
    decreases |s|
  {
    if s != [] {
      var init := s[..|s| - 1];
      PromotedMembers(init, files, now, minAge);
      assert s == init + [s[|s| - 1]];
    }
  }

  /** The retained paths are exactly the kept paths of `s`. */
  lemma {:induction false} RetainedMembers(s: seq<string>, files: map<string, FileInfo>, now: int, minAge: int)
    ensures forall x :: x in Retained(s, files, now, minAge) <==> x in s && Kept(x, files, now, minAge)
    decreases |s|
  {
    if s != [] {
      var init := s[..|s| - 1];
      RetainedMembers(init, files, now, minAge);
      assert s == init + [s[|s| - 1]];
    }
  }

  /** Promoting or retaining from a duplicate-free order gives duplicate-free results. */
  lemma {:induction false} DrainDistinct(s: seq<string>, files: map<string, FileInfo>, now: int, minAge: int)
    requires Distinct(s)
    ensures Distinct(Promoted(s, files, now, minAge))
    ensures Distinct(Retained(s, files, now, minAge))
    decreases |s|
  {
    if s != [] {
      var init, last := s[..|s| - 1], s[|s| - 1];
      assert Distinct(init);
      assert last !in init by {
        forall i | 0 <= i < |init| ensures init[i] != last {
          assert s[i] == init[i];
        }
      }
      DrainDistinct(init, files, now, minAge);
      PromotedMembers(init, files, now, minAge);
      RetainedMembers(init, files, now, minAge);
      if Eligible(last, files, now, minAge) {
        AppendDistinct(Promoted(init, files, now, minAge), last);
      }
      if Kept(last, files, now, minAge) {
        AppendDistinct(Retained(init, files, now, minAge), last);
      }
    }
  }

  /**
   * One pass splits the pending paths three ways: each is promoted, kept, or
   * dropped because it vanished; a vanished path is never promoted, and the
   * batch and the kept paths have nothing in common.
   */
  lemma DrainPartition(s: seq<string>, files: map<string, FileInfo>, now: int, minAge: int)
    ensures forall x :: x in Promoted(s, files, now, minAge) ==> x in s && x in files
    ensures forall x :: x in s && x !in files ==> x !in Promoted(s, files, now, minAge) && x !in Retained(s, files, now, minAge)
    ensures forall x :: x in s && x in files ==> (x in Promoted(s, files, now, minAge) <==> x !in Retained(s, files, now, minAge))
  {
    PromotedMembers(s, files, now, minAge);
    RetainedMembers(s, files, now, minAge);
  }

  /**
   * What one whole pass over a duplicate-free order of the pending keys
   * leaves: the visited map is the kept entries, the batch and the new order
   * are duplicate-free, the new order lists exactly the kept keys, the batch
   * is exactly the eligible pending paths, and no batched path stays pending.
   */
  lemma DrainPass(pending: map<string, int>, s: seq<string>, files: map<string, FileInfo>, now: int, minAge: int)
    requires Distinct(s) && (forall p :: p in s <==> p in pending)
    ensures AfterVisit(pending, s, files, now, minAge) == RetainedEntries(pending, files, now, minAge)
    ensures Distinct(Promoted(s, files, now, minAge)) && Distinct(Retained(s, files, now, minAge))
    ensures forall p :: p in Retained(s, files, now, minAge) <==> p in RetainedEntries(pending, files, now, minAge)
    ensures forall p :: p in Promoted(s, files, now, minAge) <==> p in pending && Eligible(p, files, now, minAge)
    ensures forall p :: p in Promoted(s, files, now, minAge) ==> p !in RetainedEntries(pending, files, now, minAge)
  {
    AfterVisitEntries(pending, s, files, now, minAge);
    RetainedEntriesAfterPass(pending, AfterVisit(pending, s, files, now, minAge), s, files, now, minAge);
    DrainDistinct(s, files, now, minAge);
    PromotedMembers(s, files, now, minAge);
    RetainedMembers(s, files, now, minAge);
  }
}
