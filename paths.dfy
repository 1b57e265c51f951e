/**
 * The pieces of `pathlib` the sender relies on: a path's final component
 * (`name`), the split of that name into `stem` and `suffix`, ASCII
 * lower-casing of the suffix for the extension filter, and the rule that
 * picks a file's name in the backup folder.
 */
module Paths {

  /** The final component of `p`: everything after its last '/'. */
  function Name(p: string): (n: string)
    ensures '/' !in n
    ensures |n| <= |p|
    decreases |p|
  {
    if p == [] || p[|p| - 1] == '/' then [] else Name(p[..|p| - 1]) + [p[|p| - 1]]
  }

  /** The name of `dir/n` is `n`, whatever the directory, when `n` holds no '/'. */
  lemma {:induction false} NameOfJoin(dir: string, n: string)
    requires '/' !in n
    ensures Name(dir + "/" + n) == n
    decreases |n|
  {
    var p := dir + "/" + n;
    if n != [] {
      var init := n[..|n| - 1];
      NameOfJoin(dir, init);
      assert p[..|p| - 1] == dir + "/" + init;
      assert p[|p| - 1] == n[|n| - 1];
      assert n == init + [n[|n| - 1]];
    } else {
      assert p[|p| - 1] == '/';
    }
  }

  /** The index of the last '.' in `s`, or -1 when there is none (`str.rfind`). */
  function LastDot(s: string): (i: int)
    ensures -1 <= i < |s|
    ensures 0 <= i ==> s[i] == '.'
    ensures forall j :: i < j < |s| ==> s[j] != '.'
    decreases |s|
  {
    if s == [] then -1 else if s[|s| - 1] == '.' then |s| - 1 else LastDot(s[..|s| - 1])
  }

  /**
   * pathlib's `suffix`: from the last dot to the end, provided that dot is
   * neither the first nor the last character of the name; otherwise empty.
   */
  function Suffix(name: string): (s: string)
    ensures s == [] || (2 <= |s| < |name| && s[0] == '.' && '.' !in s[1..])
  {
    var i := LastDot(name);
    if 0 < i < |name| - 1 then name[i..] else []
  }

  /** pathlib's `stem`: the name without its suffix. */
  function Stem(name: string): (t: string)
    ensures t + Suffix(name) == name
  {
    var i := LastDot(name);
    if 0 < i < |name| - 1 then name[..i] else name
  }

  function LowerChar(c: char): char
  {
    if 'A' <= c <= 'Z' then (c as int + 32) as char else c
  }

  /** `str.lower`, restricted to ASCII letters. */
  function Lower(s: string): (r: string)
    ensures |r| == |s|
    ensures forall i :: 0 <= i < |s| ==> r[i] == LowerChar(s[i])
    ensures forall i :: 0 <= i < |r| ==> !('A' <= r[i] <= 'Z')
    decreases |s|
  {
    if s == [] then [] else Lower(s[..|s| - 1]) + [LowerChar(s[|s| - 1])]
  }

  /** The extension the include/exclude filter compares: the lower-cased suffix of the path's name. */
  function Extension(path: string): (e: string)
    ensures e == [] || (e[0] == '.' && |e| >= 2 && '.' !in e[1..])
    ensures forall i :: 0 <= i < |e| ==> !('A' <= e[i] <= 'Z')
  {
    Lower(Suffix(Name(path)))
  }

  /**
   * The name under which a file called `name` is stored in the backup folder
   * whose current names are `taken`: the name itself when it is free,
   * otherwise the stem, an underscore, the timestamp and the suffix.  The
   * fallback name is not checked against `taken`.
   */
  function ArchiveName(name: string, taken: set<string>, stamp: string): (dest: string)
    ensures name !in taken ==> dest == name
    ensures name in taken ==> dest != name && |dest| == |name| + 1 + |stamp|
  {
    if name !in taken then name else Stem(name) + "_" + stamp + Suffix(name)
  }

  /** A name of two or more characters whose last character is a dot. */
  predicate EndsInDot(name: string)
  {
    |name| >= 2 && name[|name| - 1] == '.'
  }

  /** When `k` is the position of the last dot of `s`, LastDot finds it. */
  lemma LastDotAt(s: string, k: int)
    requires -1 <= k < |s|
    requires 0 <= k ==> s[k] == '.'
    requires forall j :: k < j < |s| ==> s[j] != '.'
    ensures LastDot(s) == k
  {
  }

  /** Appending "_" and a dot-free stamp, then a suffix, yields a name with that suffix. */
  lemma JoinKeepsSuffix(stem: string, stamp: string, suff: string)
    requires '.' !in stamp
    requires 2 <= |suff| && suff[0] == '.' && '.' !in suff[1..]
    ensures Suffix(stem + "_" + stamp + suff) == suff
  {
    var dest := stem + "_" + stamp + suff;
    var k := |stem| + 1 + |stamp|;
    assert dest[k..] == suff;
    forall j | k < j < |dest| ensures dest[j] != '.' {
      assert dest[j] == suff[1..][j - k - 1];
    }
    LastDotAt(dest, k);
  }

  /**
   * Appending "_" and a dot-free stamp to a name without suffix yields a name
   * without suffix, unless the name ends in a dot.
   */
  lemma JoinAfterBareName(name: string, stamp: string)
    requires '.' !in stamp && Suffix(name) == []
    ensures Suffix(name + "_" + stamp) == [] <==> !EndsInDot(name)
  {
    var dest := name + "_" + stamp;
    var i := LastDot(name);
    forall j | i < j < |dest| ensures dest[j] != '.' {
      if j >= |name| {
        assert j == |name| || dest[j] == stamp[j - |name| - 1];
      } else {
        assert dest[j] == name[j];
      }
    }
    assert 0 <= i ==> dest[i] == name[i];
    LastDotAt(dest, i);
    if EndsInDot(name) {
      assert i == |name| - 1;
    }
  }

  /**
   * The archive name keeps the file's extension, with one exception: a name
   * that ends in a dot (its suffix is empty) gains the suffix "._<stamp>"
   * when the fallback is used.  Timestamps contain no dot.
   */
  lemma ArchiveNameKeepsSuffix(name: string, taken: set<string>, stamp: string)
    requires '.' !in stamp
    ensures Suffix(ArchiveName(name, taken, stamp)) == Suffix(name) <==> (name !in taken || !EndsInDot(name))
  {
    if name in taken {
      var stem, suff := Stem(name), Suffix(name);
      if suff != [] {
        JoinKeepsSuffix(stem, stamp, suff);
        assert name == stem + suff;
        assert name[|name| - 1] == suff[|suff| - 1] == suff[1..][|suff| - 2];
      } else {
        assert stem == name;
        assert ArchiveName(name, taken, stamp) == name + "_" + stamp;
        JoinAfterBareName(name, stamp);
      }
    }
  }

  /**
   * The fallback name is not checked: when the timestamped name is already in
   * the backup folder, the archive name is a taken name.
   */
  lemma ArchiveNameFallbackMayBeTaken()
    ensures var taken := {"a.txt", "a" + "_" + "20240101_120000" + ".txt"};
      ArchiveName("a.txt", taken, "20240101_120000") in taken
  {
    LastDotAt("a.txt", 1);
    assert Stem("a.txt") == "a";
  }
}
