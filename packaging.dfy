/**
 * How a batch is packaged for delivery: the total size of its files, the
 * sender's megabyte rounding, the bundle-or-attach decision, and the list of
 * artifacts handed to the mail transport.
 */
module Packaging {
  import opened FileSystem

  const MiB: nat := 1048576

  /**
   * The sender's `bytes_to_mb`, kept in hundredths: `bytes / 2^20` rounded to
   * two decimals.  The quotient is exact in binary, and Python's `round`
   * rounds it to the nearest hundredth with ties going to the even one.
   */
  function CentiMiB(bytes: nat): (c: nat)
    ensures (2 * c - 1) * MiB <= 200 * bytes <= (2 * c + 1) * MiB
    ensures 200 * bytes == (2 * c + 1) * MiB ==> c % 2 == 0
    ensures 200 * bytes == (2 * c - 1) * MiB ==> c % 2 == 0
  {
    var n := 100 * bytes;
    var q, r := n / MiB, n % MiB;
    if 2 * r < MiB then q
    else if 2 * r > MiB then q + 1
    else if q % 2 == 0 then q
    else q + 1
  }

  /**
   * Whether a batch of `totalBytes` is sent as one bundle: always when
   * bundling is configured, otherwise when a positive limit (in hundredths of
   * a MiB) is exceeded by the rounded total.
   */
  predicate Bundled(zipBefore: bool, maxCenti: int, totalBytes: nat)
  {
    zipBefore || (maxCenti > 0 && CentiMiB(totalBytes) > maxCenti)
  }

  /**
   * The size rule in bytes: with bundling not forced and a positive limit of
   * `maxCenti` hundredths, a batch is bundled exactly when its byte total lies
   * more than half a hundredth above the limit, or exactly half a hundredth
   * above it when the limit is odd (a tie rounds up to the even neighbour).
   * A limit of zero or below never bundles.
   */
  lemma BundledBySize(maxCenti: int, totalBytes: nat)
    ensures maxCenti <= 0 ==> !Bundled(false, maxCenti, totalBytes)
    ensures maxCenti > 0 ==>
      (Bundled(false, maxCenti, totalBytes) <==>
         200 * totalBytes > (2 * maxCenti + 1) * MiB
         || (200 * totalBytes == (2 * maxCenti + 1) * MiB && maxCenti % 2 == 1))
  {
    if maxCenti > 0 {
      var c := CentiMiB(totalBytes);
      if 200 * totalBytes == (2 * maxCenti + 1) * MiB {
        assert c == maxCenti || c == maxCenti + 1;
      }
    }
  }

  /** A limit of 10 MiB: 8 MiB in total goes as attachments, 12 MiB as one bundle. */
  lemma TenMiBLimit()
    ensures !Bundled(false, 1000, 8 * MiB)
    ensures Bundled(false, 1000, 12 * MiB)
  {
    assert CentiMiB(8 * MiB) == 800;
    assert CentiMiB(12 * MiB) == 1200;
  }

  /** The sum of the sizes of `files`, counting a repeated path each time. */
  function TotalBytes(files: seq<string>, fs: map<string, FileInfo>): (t: nat)
    requires forall f :: f in files ==> f in fs
    ensures forall f :: f in files ==> fs[f].size <= t
    ensures files == [] ==> t == 0
    decreases |files|
  {
    if files == [] then 0
    else TotalBytes(files[..|files| - 1], fs) + fs[files[|files| - 1]].size
  }

  /** What the mail transport is given for one batch. */
  datatype Artifact =
    | Attachment(path: string)                  // one file of the batch, attached as it is
    | Bundle(path: string, members: seq<string>)  // a freshly built archive holding the batch

  /**
   * The artifacts for a batch: one bundle at `zipPath` holding every file,
   * or each file attached on its own, in batch order.
   */
  function Artifacts(files: seq<string>, bundled: bool, zipPath: string): (r: seq<Artifact>)
    ensures bundled ==> |r| == 1 && r[0].Bundle? && r[0].path == zipPath && r[0].members == files
    ensures !bundled ==> |r| == |files| && forall i :: 0 <= i < |files| ==> r[i] == Attachment(files[i])
    decreases |files|
  {
    if bundled then [Bundle(zipPath, files)]
    else if files == [] then []
    else Artifacts(files[..|files| - 1], false, zipPath) + [Attachment(files[|files| - 1])]
  }
}
