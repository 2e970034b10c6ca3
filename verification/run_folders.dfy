/**
 * Run-folder allocation of ReportGenerator: `<reports>/<yyyyMMdd>/<n>/`,
 * where n is the first positive index whose folder does not exist yet,
 * and the "last run" lookup that reuses the same scan without creating
 * the run folder.
 */
module RunFolders {
  import opened Text
  import opened FileSystem

  /** The string java.io.File gives for an absolute path: "/a/b". */
  function PathString(p: Path): string {
    SegmentsString(p, |p|)
  }

  /** The first n segments of p, each behind a '/'. */
  function SegmentsString(p: Path, n: nat): string
    requires n <= |p|
  {
    if n == 0 then "" else SegmentsString(p, n - 1) + "/" + p[n - 1]
  }

  /** A path string does not depend on segments after the ones it shows. */
  lemma {:induction false} SegmentsExtend(p: Path, x: string, n: nat)
    requires n <= |p|
    ensures SegmentsString(p + [x], n) == SegmentsString(p, n)
  {
    if n > 0 {
      SegmentsExtend(p, x, n - 1);
      assert (p + [x])[n - 1] == p[n - 1];
    }
  }

  /** The string of a child path is the parent's string, '/', the name. */
  lemma PathStringAppend(p: Path, x: string)
    ensures PathString(p + [x]) == PathString(p) + "/" + x
  {
    SegmentsExtend(p, x, |p|);
  }

  /** A folder path as the report code hands it out: with a trailing '/'. */
  function FolderString(p: Path): (s: string)
    ensures |s| > 0 && s[|s| - 1] == '/'
  {
    PathString(p) + "/"
  }

  /** `validateDirectory`: a plain file sitting at p is deleted, then a
      missing p is created with a single `mkdir`. */
  function ValidateT(t: Tree, p: Path): Tree {
    var t1 := if p in t && t[p] != Dir then DeleteT(t, p).0 else t;
    if p !in t1 then MkdirT(t1, p).0 else t1
  }

  /** validateDirectory touches p only; when p can be validated it is a
      directory afterwards, and a directory already there is left alone. */
  lemma ValidateEffect(t: Tree, p: Path)
    requires WellFormed(t)
    ensures WellFormed(ValidateT(t, p))
    ensures forall q :: q != p ==> (q in ValidateT(t, p) <==> q in t)
    ensures forall q :: q != p && q in t ==> ValidateT(t, p)[q] == t[q]
    ensures CanCreate(t, p) ==> IsDir(ValidateT(t, p), p)
    ensures IsDir(t, p) ==> ValidateT(t, p) == t
    ensures p !in t ==> !HasChildren(ValidateT(t, p), p)
  {
    var t1 := if p in t && t[p] != Dir then DeleteT(t, p).0 else t;
    DeleteWellFormed(t, p);
    MkdirWellFormed(t1, p);
    if p !in t {
      var t' := ValidateT(t, p);
      forall q | q in t' && Under(q, p) ensures false {
        assert q in t;
        ValidAncestor(t, q, |p|);
      }
    }
  }

  method ValidateDirectory(fs: FileSystem, p: Path)
    requires fs.Valid()
    modifies fs
    ensures fs.Valid()
    ensures fs.tree == ValidateT(old(fs.tree), p)
  {
    if fs.Exists(p) && !fs.IsDirectory(p) {
      var _ := fs.Delete(p);
    }
    if !fs.Exists(p) {
      var _ := fs.Mkdir(p);
    }
  }

  /** The run folders `d/<i>` with i >= from that exist in t. */
  ghost function Taken(t: Tree, d: Path, from: nat): set<Path> {
    set q | q in t && |q| == |d| + 1 && q[..|d|] == d && IsDigits(q[|d|]) && ParseNat(q[|d|]) >= from
  }

  lemma TakenShrinks(t: Tree, d: Path, from: nat)
    requires d + [NatStr(from)] in t
    ensures Taken(t, d, from + 1) < Taken(t, d, from)
  {
    var q := d + [NatStr(from)];
    assert q[..|d|] == d && q[|d|] == NatStr(from);
    ParseNatStr(from);
    assert q in Taken(t, d, from);
  }

  /** The first index from `from` on whose run folder is free: the value the
      existence scan of createReportPath stops at. */
  ghost function FirstFree(t: Tree, d: Path, from: nat): (n: nat)
    ensures n >= from
    ensures d + [NatStr(n)] !in t
    ensures forall i :: from <= i < n ==> d + [NatStr(i)] in t
    decreases Taken(t, d, from)
  {
    if d + [NatStr(from)] in t then
      TakenShrinks(t, d, from);
      FirstFree(t, d, from + 1)
    else from
  }

  /** The least free index is unique: any index with the leastness property
      is the one FirstFree finds. */
  lemma FirstFreeUnique(t: Tree, d: Path, n: nat)
    requires n >= 1 && d + [NatStr(n)] !in t
    requires forall i :: 1 <= i < n ==> d + [NatStr(i)] in t
    ensures FirstFree(t, d, 1) == n
  {
    var m := FirstFree(t, d, 1);
  }

  /** The `while (file.exists()) index++` scan of createReportPath. */
  method ScanIndex(fs: FileSystem, d: Path) returns (n: nat)
    ensures n >= 1
    ensures d + [NatStr(n)] !in fs.tree
    ensures forall i :: 1 <= i < n ==> d + [NatStr(i)] in fs.tree
    ensures n == FirstFree(fs.tree, d, 1)
  {
    n := 1;
    while fs.Exists(d + [NatStr(n)])
      invariant n >= 1
      invariant forall i :: 1 <= i < n ==> d + [NatStr(i)] in fs.tree
      decreases Taken(fs.tree, d, n)
    {
      TakenShrinks(fs.tree, d, n);
      n := n + 1;
    }
    FirstFreeUnique(fs.tree, d, n);
  }

  /** The tree after the reports root and the date folder are validated. */
  function DateFolderTree(t: Tree, reports: Path, date: string): Tree {
    ValidateT(ValidateT(t, reports), reports + [date])
  }

  /** `createReportPath(subtract1)`. With subtract1 false it allocates the
      run folder; with subtract1 true (`getLastReportPath`) it names the
      last allocated one. */
  method CreateReportPath(fs: FileSystem, reports: Path, date: string, subtract1: bool) returns (s: string)
    requires fs.Valid()
    modifies fs
    ensures fs.Valid()
    ensures var d := reports + [date];
            var t1 := ValidateT(old(fs.tree), reports);
            if subtract1 && d !in t1 then
              fs.tree == t1 && s == PathString(d)
            else
              var t2 := DateFolderTree(old(fs.tree), reports, date);
              var n := FirstFree(t2, d, 1);
              if subtract1 then
                fs.tree == t2 && s == FolderString(d + [NatStr(n - 1)])
              else
                fs.tree == ValidateT(t2, d + [NatStr(n)]) && s == FolderString(d + [NatStr(n)])
  {
    ValidateDirectory(fs, reports);
    var d := reports + [date];
    if subtract1 && !fs.Exists(d) {
      return PathString(d);
    }
    ValidateDirectory(fs, d);
    s := RunFolder(fs, d, subtract1);
  }

  /** The index-folder part of createReportPath, once the date folder d is
      in place: scan for the first free index n, then either name run n - 1
      or create run n. */
  method RunFolder(fs: FileSystem, d: Path, subtract1: bool) returns (s: string)
    requires fs.Valid()
    modifies fs
    ensures fs.Valid()
    ensures var n := FirstFree(old(fs.tree), d, 1);
            if subtract1 then
              fs.tree == old(fs.tree) && s == FolderString(d + [NatStr(n - 1)])
            else
              fs.tree == ValidateT(old(fs.tree), d + [NatStr(n)]) && s == FolderString(d + [NatStr(n)])
  {
    var index := ScanIndex(fs, d);
    if subtract1 {
      return FolderString(d + [NatStr(index - 1)]);
    }
    ValidateDirectory(fs, d + [NatStr(index)]);
    s := FolderString(d + [NatStr(index)]);
  }

  /** After an allocation the reports root, the date folder and the run
      folder `d/<n>` are directories, the run folder is empty, n is the
      least positive index that was free, and when the date folder was
      already there, all smaller indices were taken before the call. */
  lemma AllocationCreatesRunFolder(t: Tree, reports: Path, date: string)
    requires WellFormed(t) && CanCreate(t, reports)
    ensures var d := reports + [date];
            var t2 := DateFolderTree(t, reports, date);
            var n := FirstFree(t2, d, 1);
            var run := d + [NatStr(n)];
            var t3 := ValidateT(t2, run);
            && WellFormed(t3)
            && IsDir(t3, reports) && IsDir(t3, d) && IsDir(t3, run) && !HasChildren(t3, run)
            && n >= 1 && run !in t2
            && (forall i :: 1 <= i < n ==> d + [NatStr(i)] in t3)
            && (IsDir(t, reports) && IsDir(t, d) ==> forall i :: 1 <= i < n ==> d + [NatStr(i)] in t)
  {
    var d := reports + [date];
    var t1 := ValidateT(t, reports);
    ValidateEffect(t, reports);
    assert Parent(d) == reports;
    ValidateEffect(t1, d);
    var t2 := DateFolderTree(t, reports, date);
    var n := FirstFree(t2, d, 1);
    var run := d + [NatStr(n)];
    assert Parent(run) == d;
    ValidateEffect(t2, run);
    assert d != reports && run != d && run != reports;
  }

  /** getLastReportPath creates nothing beneath the date folder, and the
      index it names is 0 or a run folder that exists. */
  lemma LastReportLookup(t: Tree, reports: Path, date: string)
    requires WellFormed(t)
    ensures var d := reports + [date];
            var t2 := DateFolderTree(t, reports, date);
            var n := FirstFree(t2, d, 1);
            && (forall q :: Under(q, d) ==> (q in t2 <==> q in t))
            && (n - 1 == 0 || d + [NatStr(n - 1)] in t2)
  {
    var d := reports + [date];
    var t1 := ValidateT(t, reports);
    ValidateEffect(t, reports);
    ValidateEffect(t1, d);
    forall q | Under(q, d) ensures q != reports && q != d {
    }
  }

  /** Consecutive allocations: once run n is created, the next scan stops at
      n + 1 when that folder is free. With an empty date folder the first
      allocation is 1, so N allocations in a row yield 1, ..., N. */
  lemma NextAllocation(t: Tree, d: Path, n: nat)
    requires n == FirstFree(t, d, 1)
    requires d + [NatStr(n + 1)] !in t
    ensures FirstFree(t[d + [NatStr(n)] := Dir], d, 1) == n + 1
  {
    var t' := t[d + [NatStr(n)] := Dir];
    if d + [NatStr(n + 1)] == d + [NatStr(n)] {
      assert (d + [NatStr(n + 1)])[|d|] == NatStr(n + 1);
      NatStrInjective(n + 1, n);
      assert false;
    }
    FirstFreeUnique(t', d, n + 1);
  }

  lemma FirstAllocation(t: Tree, d: Path)
    requires !HasChildren(t, d)
    ensures FirstFree(t, d, 1) == 1
  {
    assert Under(d + [NatStr(1)], d);
  }
}
