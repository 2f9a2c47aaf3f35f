/** Eviction in one cache directory (CCache/cleanup.c): the files found, oldest first, are unlinked until the directory
    is below its limits, and the statistics file is told what is left.

    The file-system state is the set of names present.  `stuck` are the files whose unlink fails (with something other
    than ENOENT).  qsort is taken at its word: `order` is a permutation of the files found, in ascending order.
 */
module Cleanup {
  import opened Lex
  import opened Stats
  import opened Wrappers

  datatype File = File(fname: string, mtime: int, size: nat)

  /** files_compare */
  function FilesCompare(f1: File, f2: File): int {
    if f2.mtime == f1.mtime then Compare(f2.fname, f1.fname, false)
    else if f2.mtime > f1.mtime then -1
    else 1
  }

  // ----- the order

  /** Only a file with the same name and time compares equal, and the comparison turns around. */
  lemma CompareIsTotal(f: File, g: File)
    ensures FilesCompare(f, g) == 0 <==> f.mtime == g.mtime && f.fname == g.fname
    ensures FilesCompare(f, g) == -FilesCompare(g, f)
  {
    CompareZero(g.fname, f.fname, false);
    CompareAntisymmetric(g.fname, f.fname, false);
  }

  lemma CompareIsTransitive(f: File, g: File, h: File)
    requires FilesCompare(f, g) < 0 && FilesCompare(g, h) < 0
    ensures FilesCompare(f, h) < 0
  {
    if f.mtime == g.mtime == h.mtime { CompareTransitive(h.fname, g.fname, f.fname, false); }
  }

  ghost predicate Distinct(files: seq<File>) {
    forall i, j :: 0 <= i < j < |files| ==> files[i].fname != files[j].fname
  }

  ghost predicate Ascending(files: seq<File>) {
    forall i, j :: 0 <= i < j < |files| ==> FilesCompare(files[i], files[j]) <= 0
  }

  /** The name `a` comes before `b`: at the first place where they differ it has the smaller character, or it ends there. */
  ghost predicate NameBefore(a: string, b: string) {
    exists k: nat :: k <= |a| && k < |b| && a[..k] == b[..k] && (k == |a| || a[k] < b[k])
  }

  lemma NamesCompare(a: string, b: string)
    ensures Compare(a, b, false) < 0 <==> NameBefore(a, b)
  {
    CompareMeans(a, b, false);
    if Before(a, b, false) {
      var k: nat :| k <= |a| && k < |b| && a[..k] == b[..k] && (k == |a| || Rank(a[k], false) < Rank(b[k], false));
    }
    if NameBefore(a, b) {
      var k: nat :| k <= |a| && k < |b| && a[..k] == b[..k] && (k == |a| || a[k] < b[k]);
      assert k == |a| || Rank(a[k], false) < Rank(b[k], false);
    }
  }

  /** The order of eviction: the older file first; of two files of one time, the one with the later name. */
  ghost predicate Precedes(f: File, g: File) {
    f.mtime < g.mtime || (f.mtime == g.mtime && (f.fname == g.fname || NameBefore(g.fname, f.fname)))
  }

  lemma ComparePrecedes(f: File, g: File)
    ensures FilesCompare(f, g) <= 0 <==> Precedes(f, g)
  {
    hide NameBefore;
    NamesCompare(g.fname, f.fname);
    CompareZero(g.fname, f.fname, false);
  }

  lemma AscendingMeans(files: seq<File>)
    ensures Ascending(files) <==> forall i, j :: 0 <= i < j < |files| ==> Precedes(files[i], files[j])
  {
    hide FilesCompare, Precedes;
    forall i, j | 0 <= i < j < |files| ensures FilesCompare(files[i], files[j]) <= 0 <==> Precedes(files[i], files[j]) {
      ComparePrecedes(files[i], files[j]);
    }
  }

  lemma WithoutOne<T>(a: seq<T>, i: nat)
    requires i < |a|
    ensures multiset(a[..i] + a[i + 1..]) == multiset(a) - multiset{a[i]}
  {
    assert a == a[..i] + ([a[i]] + a[i + 1..]);
    assert multiset(a) == multiset(a[..i]) + (multiset{a[i]} + multiset(a[i + 1..]));
  }

  lemma WithoutFirst<T>(a: seq<T>)
    requires a != []
    ensures multiset(a[1..]) == multiset(a) - multiset{a[0]}
  {
    WithoutOne(a, 0);
    assert a[..0] + a[1..] == a[1..];
  }

  lemma Occurs<T>(a: seq<T>, b: seq<T>, i: nat) returns (j: nat)
    requires multiset(a) == multiset(b) && i < |a|
    ensures |a| == |b| && j < |b| && b[j] == a[i]
  {
    assert |multiset(a)| == |a| && |multiset(b)| == |b|;
    assert a[i] in multiset(b);
    j :| 0 <= j < |b| && b[j] == a[i];
  }

  lemma SameFirst(a: seq<File>, b: seq<File>)
    requires Ascending(a) && Ascending(b) && multiset(a) == multiset(b) && a != [] && Distinct(a)
    ensures b != [] && a[0] == b[0]
  {
    hide FilesCompare;
    var i := Occurs(a, b, 0);
    var j := Occurs(b, a, 0);
    CompareIsTotal(a[0], b[0]);
  }

  /** What qsort leaves is determined by what is sorted: the ties its instability could show do not occur. */
  lemma {:induction false} SortedUnique(a: seq<File>, b: seq<File>)
    requires Ascending(a) && Ascending(b) && Distinct(a) && multiset(a) == multiset(b)
    ensures a == b
    decreases |a|
  {
    hide FilesCompare;
    if a == [] {
      assert |multiset(b)| == 0;
    } else {
      SameFirst(a, b);
      WithoutFirst(a);
      WithoutFirst(b);
      SortedUnique(a[1..], b[1..]);
      assert a == [a[0]] + a[1..] && b == [b[0]] + b[1..];
    }
  }

  // ----- what is left

  function Sum(files: seq<File>): nat {
    if files == [] then 0 else files[0].size + Sum(files[1..])
  }

  /** The files still there after the first `k` have had their unlink. */
  function Left(files: seq<File>, k: nat, stuck: set<string>): seq<File>
    requires k <= |files|
  {
    if k == 0 then files
    else (if files[0].fname in stuck then [files[0]] else []) + Left(files[1..], k - 1, stuck)
  }

  function Names(files: seq<File>): set<string> {
    set i | 0 <= i < |files| :: files[i].fname
  }

  lemma SumConcat(a: seq<File>, b: seq<File>)
    ensures Sum(a + b) == Sum(a) + Sum(b)
  {
    if a == [] {
      assert a + b == b;
    } else {
      assert (a + b)[1..] == a[1..] + b;
    }
  }

  lemma {:induction false} SumPermutation(a: seq<File>, b: seq<File>)
    requires multiset(a) == multiset(b)
    ensures Sum(a) == Sum(b) && |a| == |b|
    decreases |a|
  {
    assert |multiset(a)| == |a| && |multiset(b)| == |b|;
    if a != [] {
      var i := Occurs(a, b, 0);
      WithoutOne(b, i);
      WithoutFirst(a);
      SumPermutation(a[1..], b[..i] + b[i + 1..]);
      SumWithout(b, i);
    }
  }

  lemma SumWithout(b: seq<File>, i: nat)
    requires i < |b|
    ensures Sum(b) == b[i].size + Sum(b[..i] + b[i + 1..])
  {
    SumConcat(b[..i], b[i..]);
    SumConcat(b[..i], b[i + 1..]);
    assert b == b[..i] + b[i..];
    assert b[i..][1..] == b[i + 1..];
  }

  /** One more unlink: a stuck file stays in the sum, another leaves it. */
  lemma {:induction false} LeftStep(files: seq<File>, k: nat, stuck: set<string>)
    requires k < |files|
    ensures Sum(Left(files, k, stuck))
         == Sum(Left(files, k + 1, stuck)) + (if files[k].fname in stuck then 0 else files[k].size)
    decreases k
  {
    if k == 0 {
      assert Left(files[1..], 0, stuck) == files[1..];
      if files[0].fname in stuck { assert [files[0]] + files[1..] == files; }
      else { assert [] + files[1..] == files[1..]; }
    } else {
      LeftStep(files[1..], k - 1, stuck);
      var head := if files[0].fname in stuck then [files[0]] else [];
      SumConcat(head, Left(files[1..], k - 1, stuck));
      SumConcat(head, Left(files[1..], k, stuck));
    }
  }

  /** Without failures what is left is a suffix of the order. */
  lemma {:induction false} LeftSuffix(files: seq<File>, k: nat, stuck: set<string>)
    requires k <= |files| && forall i :: 0 <= i < k ==> files[i].fname !in stuck
    ensures Left(files, k, stuck) == files[k..]
    decreases k
  {
    if k > 0 {
      assert forall i :: 0 <= i < k - 1 ==> files[1..][i] == files[i + 1];
      LeftSuffix(files[1..], k - 1, stuck);
      assert files[1..][k - 1..] == files[k..];
    }
  }

  /** The count that is reported is the true one exactly when no unlink failed. */
  lemma {:induction false} CountExact(files: seq<File>, k: nat, stuck: set<string>)
    requires k <= |files|
    ensures |Left(files, k, stuck)| >= |files| - k
    ensures |Left(files, k, stuck)| == |files| - k <==> forall i :: 0 <= i < k ==> files[i].fname !in stuck
    decreases k
  {
    if k > 0 {
      CountExact(files[1..], k - 1, stuck);
      if forall i :: 0 <= i < k ==> files[i].fname !in stuck {
        assert forall i :: 0 <= i < k - 1 ==> files[1..][i].fname !in stuck;
      } else if files[0].fname !in stuck {
        var i :| 0 <= i < k && files[i].fname in stuck;
        assert files[1..][i - 1].fname in stuck;
      }
    }
  }

  /** With `k` files dealt with, the directory counts as below its limits; a limit of zero is none. */
  ghost predicate Below(files: seq<File>, k: nat, stuck: set<string>, sizeLimit: nat, filesLimit: nat)
    requires k <= |files|
  {
    && (sizeLimit == 0 || Sum(Left(files, k, stuck)) < sizeLimit)
    && (filesLimit == 0 || |files| - k < filesLimit)
  }

  /** Where the deleting stops: at the first place below the limits, or at the end. */
  ghost predicate StopsAt(files: seq<File>, k: nat, stuck: set<string>, sizeLimit: nat, filesLimit: nat) {
    && k <= |files|
    && (k < |files| ==> Below(files, k, stuck, sizeLimit, filesLimit))
    && forall i :: 0 <= i < k ==> !Below(files, i, stuck, sizeLimit, filesLimit)
  }

  /** What is left is the stuck files and those not come to. */
  lemma {:induction false} LeftMembers(files: seq<File>, k: nat, stuck: set<string>, g: File)
    requires k <= |files|
    ensures g in Left(files, k, stuck) <==> exists i :: 0 <= i < |files| && files[i] == g && (k <= i || g.fname in stuck)
    decreases k
  {
    if k > 0 {
      LeftMembers(files[1..], k - 1, stuck, g);
      if i :| 0 <= i < |files| && files[i] == g && (k <= i || g.fname in stuck) {
        if i > 0 { assert files[1..][i - 1] == g; }
      }
      if i :| 0 <= i < |files[1..]| && files[1..][i] == g && (k - 1 <= i || g.fname in stuck) {
        assert files[i + 1] == g;
      }
    }
  }

  /** Nothing that is left is older than anything that was deleted, except files that could not be. */
  lemma OldestFirst(files: seq<File>, k: nat, stuck: set<string>, f: File, g: File)
    requires Ascending(files) && k <= |files|
    requires f in files[..k] && f.fname !in stuck
    requires g in Left(files, k, stuck) && g.fname !in stuck
    ensures Precedes(f, g)
  {
    hide Left;
    LeftMembers(files, k, stuck, g);
    var i :| 0 <= i < k && files[..k][i] == f;
    var j :| k <= j < |files| && files[j] == g;
    ComparePrecedes(files[i], files[j]);
  }

  /** A stuck file can be older than a deleted one: two files, the older one stuck, a limit of one file. */
  lemma StuckIsOlder()
    ensures var files := [File("a", 1, 1), File("b", 2, 1)];
            && Ascending(files) && StopsAt(files, 2, {"a"}, 0, 1)
            && File("a", 1, 1) in Left(files, 2, {"a"}) && File("b", 2, 1) !in Left(files, 2, {"a"})
  {
    var files := [File("a", 1, 1), File("b", 2, 1)];
    assert Left(files[1..], 1, {"a"}) == Left(files[1..][1..], 0, {"a"}) == [];
    assert Left(files, 2, {"a"}) == [files[0]];
    assert Left(files, 1, {"a"}) == [files[0]] + Left(files[1..], 0, {"a"});
  }

  ghost predicate Fits(files: seq<File>, sizeLimit: nat, filesLimit: nat) {
    (sizeLimit == 0 || Sum(files) < sizeLimit) && (filesLimit == 0 || |files| < filesLimit)
  }

  /** Without failures: what is left is below both limits or nothing, and with fewer deletions it would not have been. */
  lemma ShortestPrefix(files: seq<File>, k: nat, stuck: set<string>, sizeLimit: nat, filesLimit: nat)
    requires StopsAt(files, k, stuck, sizeLimit, filesLimit)
    requires forall i :: 0 <= i < |files| ==> files[i].fname !in stuck
    ensures files[k..] == [] || Fits(files[k..], sizeLimit, filesLimit)
    ensures forall i :: 0 <= i < k ==> !Fits(files[i..], sizeLimit, filesLimit)
  {
    LeftSuffix(files, k, stuck);
    forall i | 0 <= i < k ensures !Fits(files[i..], sizeLimit, filesLimit) {
      LeftSuffix(files, i, stuck);
      assert !Below(files, i, stuck, sizeLimit, filesLimit);
    }
  }

  /** A failing unlink makes the report wrong: two files, the older one stuck, a limit of two files. */
  lemma StuckMiscounts()
    ensures var files := [File("a", 1, 1), File("b", 2, 1)];
            StopsAt(files, 1, {"a"}, 0, 2) && |files| - 1 == 1 && |Left(files, 1, {"a"})| == 2
  {
    var files := [File("a", 1, 1), File("b", 2, 1)];
    assert Left(files[1..], 0, {"a"}) == files[1..];
  }

  // ----- the code

  class Cleaner {
    var dir: set<string>
    var totalSize: nat
    var totalFiles: nat
    var sizeThreshold: nat
    var filesThreshold: nat

    constructor (names: set<string>)
      ensures dir == names
    {
      dir := names;
      totalSize, totalFiles, sizeThreshold, filesThreshold := 0, 0, 0, 0;
    }

    /** sort_and_clean, after the sort */
    method SortAndClean(order: seq<File>, stuck: set<string>) returns (ghost k: nat)
      requires totalSize == Sum(order)
      modifies this`dir, this`totalSize, this`totalFiles
      ensures StopsAt(order, k, stuck, sizeThreshold, filesThreshold)
      ensures dir == old(dir) - (Names(order[..k]) - stuck)
      ensures totalSize == Sum(Left(order, k, stuck)) && totalFiles == |order| - k
    {
      hide Sum, Left;
      var numFiles := |order|;
      var i := 0;
      NoneGone(order, stuck);
      assert Names(order[..0]) == {};
      while i < numFiles
        invariant 0 <= i <= numFiles
        invariant totalSize == Sum(Left(order, i, stuck))
        invariant dir == old(dir) - (Names(order[..i]) - stuck)
        invariant forall j :: 0 <= j < i ==> !Below(order, j, stuck, sizeThreshold, filesThreshold)
      {
        if (sizeThreshold == 0 || totalSize < sizeThreshold) && (filesThreshold == 0 || numFiles - i < filesThreshold) {
          break;
        }
        LeftStep(order, i, stuck);
        NamesStep(order, i);
        if order[i].fname !in stuck {
          dir := dir - {order[i].fname};
          totalSize := totalSize - order[i].size;
        }
        i := i + 1;
      }
      totalFiles := numFiles - i;
      k := i;
    }

    /** cleanup_dir: the files are counted as they are found, cleaned, and the result goes to the statistics file. */
    method CleanupDir(found: seq<File>, order: seq<File>, stuck: set<string>, maxfiles: nat, maxsize: nat, stats: StatsFile)
      returns (ghost k: nat)
      requires multiset(order) == multiset(found) && Ascending(order) && Distinct(order)
      modifies this, stats
      ensures StopsAt(order, k, stuck, maxsize * 8 / 10, maxfiles * 8 / 10)
      ensures dir == old(dir) - (Names(order[..k]) - stuck)
      ensures var cs := SizesSet(Counts(old(stats.content), stats.longMax), |order| - k, Sum(Left(order, k, stuck)));
              Counters(cs) && stats.content == Overwrite(old(stats.content), TextFrom(cs, 0))
    {
      hide Sum, Left, StopsAt, Names, Ascending, Distinct, Counts, TextFrom, SizesSet;
      sizeThreshold := maxsize * 8 / 10;
      filesThreshold := maxfiles * 8 / 10;
      totalSize := Traverse(found);
      SumPermutation(found, order);
      k := SortAndClean(order, stuck);
      stats.SetSizes(totalFiles, totalSize);
    }
  }

  /** traverse with traverse_fn: the sizes are added up. */
  method Traverse(found: seq<File>) returns (total: nat)
    ensures total == Sum(found)
  {
    total := 0;
    var i := 0;
    assert found[..0] == [];
    while i < |found|
      invariant 0 <= i <= |found| && total == Sum(found[..i])
    {
      SumConcat(found[..i], [found[i]]);
      assert found[..i + 1] == found[..i] + [found[i]];
      assert Sum([found[i]]) == found[i].size + Sum([found[i]][1..]);
      total := total + found[i].size;
      i := i + 1;
    }
    assert found[..i] == found;
  }

  lemma NoneGone(files: seq<File>, stuck: set<string>)
    ensures Left(files, 0, stuck) == files
  {
  }

  lemma NamesStep(files: seq<File>, i: nat)
    requires i < |files|
    ensures Names(files[..i + 1]) == Names(files[..i]) + {files[i].fname}
  {
    var a, b := Names(files[..i + 1]), Names(files[..i]) + {files[i].fname};
    forall x | x in b ensures x in a {
      if x == files[i].fname {
        assert files[..i + 1][i].fname == x;
      } else {
        var j :| 0 <= j < i && files[..i][j].fname == x;
        assert files[..i + 1][j].fname == x;
      }
    }
  }

  /** What the statistics say after a cleanup in which no unlink failed is what is left, in counters 11 (files) and 12
      (size): modulo 2^32, and as far as a `long` reads it back.  The other counters stay. */
  lemma StatsAreExact(content: string, longMax: nat, order: seq<File>, k: nat, stuck: set<string>)
    requires k <= |order| && forall i :: 0 <= i < k ==> order[i].fname !in stuck
    ensures var cs := SizesSet(Counts(content, longMax), |order| - k, Sum(Left(order, k, stuck)));
            var r := Counts(Overwrite(content, TextFrom(cs, 0)), longMax);
            && r[11] == Min(|order[k..]| % TWO32, longMax)
            && r[12] == Min(Sum(order[k..]) % TWO32, longMax)
            && (forall n :: 0 <= n < 23 && n != 11 && n != 12 ==> r[n] == Min(Counts(content, longMax)[n], longMax))
  {
    hide Sum, Left, Counts, TextFrom;
    LeftSuffix(order, k, stuck);
    var cs := SizesSet(Counts(content, longMax), |order| - k, Sum(Left(order, k, stuck)));
    CountsAreCounters(content, longMax);
    RoundTrip(cs, content, longMax);
  }
}
