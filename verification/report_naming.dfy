/**
 * File naming of ReportGenerator: `getFileType` and the collision-avoiding
 * `getReportName` scan.
 *
 * The report folder is a path; the names built inside it are strings, as
 * in the Java code, and `folder + [leaf]` is the file the string
 * `dir + leaf` denotes.
 */
module ReportNaming {
  import opened Text
  import opened FileSystem
  import opened RunFolders

  /** `getFileType`: the upper-cased text after the last '.', or the whole
      string upper-cased when there is no '.'. */
  function FileType(path: string): string {
    Upper(AfterLast(path, '.'))
  }

  /** The same as upper-casing the substring behind the last '.'. */
  lemma FileTypeSubstring(path: string)
    ensures FileType(path) == Upper(path[LastIndexOf(path, '.') + 1..])
  {
    AfterLastSuffix(path, '.');
  }

  /** The type has no '.'; without a '.' it is the whole path upper-cased. */
  lemma FileTypeShape(path: string)
    ensures '.' !in FileType(path)
    ensures '.' !in path ==> FileType(path) == Upper(path)
  {
    AfterLastWithout(path, '.', '.');
    UpperKeeps(AfterLast(path, '.'), '.');
    if '.' !in path {
      AfterLastNone(path, '.');
    }
  }

  /** Only the text after the last '.' matters for the type. */
  lemma FileTypeAppend(a: string, b: string)
    requires '.' in b
    ensures FileType(a + b) == FileType(b)
  {
    AfterLastAppend(a, b, '.');
  }

  /** The type of a name `stem.ext` is its extension, whatever the stem. */
  lemma FileTypeOfExtension(stem: string, ext: string)
    requires '.' !in ext
    ensures FileType(stem + "." + ext) == Upper(ext)
  {
    var p := stem + ".";
    assert p[|p| - 1] == '.';
    AfterLastAppend(p, ext, '.');
  }

  /** The first candidate: `<id>-<file name>`. */
  function FirstLeaf(realFilename: string, id: nat): string {
    NatStr(id) + "-" + BaseName(realFilename)
  }

  /** One retry of the scan: a counter goes between the stem of the
      original name and the extension `ext` read back from the previous
      candidate. */
  function NextLeaf(realFilename: string, id: nat, index: nat, ext: string): string
    requires '.' in realFilename
  {
    NatStr(id) + "-" + BaseName(realFilename[..LastIndexOf(realFilename, '.')] + NatStr(index) + "." + ext)
  }

  /** The k-th name the scan tries (k = 0 is the first). */
  function Candidate(dir: string, realFilename: string, id: nat, k: nat): string
    requires k == 0 || '.' in realFilename
  {
    if k == 0 then FirstLeaf(realFilename, id)
    else NextLeaf(realFilename, id, k, FileType(dir + Candidate(dir, realFilename, id, k - 1)))
  }

  /** One step of the candidate sequence. */
  lemma CandidateNext(dir: string, realFilename: string, id: nat, k: nat)
    requires '.' in realFilename
    ensures Candidate(dir, realFilename, id, k + 1)
            == NextLeaf(realFilename, id, k + 1, FileType(dir + Candidate(dir, realFilename, id, k)))
  {
  }

  /** Naming the candidate before the k-th one. */
  lemma CandidateBefore(dir: string, realFilename: string, id: nat, k: nat, j: nat)
    requires '.' in realFilename && k == j + 1
    ensures Candidate(dir, realFilename, id, k - 1) == Candidate(dir, realFilename, id, j)
  {
  }

  /** The k-th candidate is already taken in the folder. */
  ghost predicate Tried(t: Tree, folder: Path, dir: string, realFilename: string, id: nat, k: nat)
    requires k == 0 || '.' in realFilename
  {
    folder + [Candidate(dir, realFilename, id, k)] in t
  }

  /** The first n candidates are all taken. */
  ghost predicate AllTried(t: Tree, folder: Path, dir: string, realFilename: string, id: nat, n: nat)
    requires n == 0 || '.' in realFilename
  {
    forall j :: 0 <= j < n ==> Tried(t, folder, dir, realFilename, id, j)
  }

  lemma AllTriedStep(t: Tree, folder: Path, dir: string, realFilename: string, id: nat, n: nat)
    requires '.' in realFilename
    requires AllTried(t, folder, dir, realFilename, id, n)
    requires folder + [Candidate(dir, realFilename, id, n)] in t
    ensures AllTried(t, folder, dir, realFilename, id, n + 1)
  {
  }

  /** `leaf` is the k-th candidate, it is free, and every earlier one is
      taken. */
  ghost predicate FreeAt(t: Tree, folder: Path, dir: string, realFilename: string, id: nat, k: nat, leaf: string) {
    && (k == 0 || '.' in realFilename)
    && leaf == Candidate(dir, realFilename, id, k)
    && folder + [leaf] !in t
    && AllTried(t, folder, dir, realFilename, id, k)
  }

  /** What getReportName returns: `None` is the
      `StringIndexOutOfBoundsException` a retry raises when the file name
      has no '.'; otherwise the first candidate that is free, all earlier
      ones being taken. */
  ghost predicate IsReportName(t: Tree, folder: Path, dir: string, realFilename: string, id: nat, r: Option<string>) {
    match r
    case None =>
      '.' !in realFilename && folder + [FirstLeaf(realFilename, id)] in t
    case Some(leaf) =>
      exists k: nat :: FreeAt(t, folder, dir, realFilename, id, k, leaf)
  }

  /** Only one index can be the first free one. */
  lemma FreeAtUnique(t: Tree, folder: Path, dir: string, realFilename: string, id: nat, k1: nat, k2: nat, l1: string, l2: string)
    requires FreeAt(t, folder, dir, realFilename, id, k1, l1)
    requires FreeAt(t, folder, dir, realFilename, id, k2, l2)
    ensures k1 == k2 && l1 == l2
  {
    if k1 < k2 {
      TakenBefore(t, folder, dir, realFilename, id, k2, l2, k1);
      assert false;
    } else if k2 < k1 {
      TakenBefore(t, folder, dir, realFilename, id, k1, l1, k2);
      assert false;
    }
  }

  lemma TakenBefore(t: Tree, folder: Path, dir: string, realFilename: string, id: nat, k: nat, leaf: string, j: nat)
    requires FreeAt(t, folder, dir, realFilename, id, k, leaf) && j < k
    ensures folder + [Candidate(dir, realFilename, id, j)] in t
  {
    assert Tried(t, folder, dir, realFilename, id, j);
  }

  /** Two scans over the same tree give the same name. */
  lemma ReportNameUnique(t: Tree, folder: Path, dir: string, realFilename: string, id: nat, r1: Option<string>, r2: Option<string>)
    requires IsReportName(t, folder, dir, realFilename, id, r1)
    requires IsReportName(t, folder, dir, realFilename, id, r2)
    ensures r1 == r2
  {
    if r1.Some? && r2.Some? {
      var k1: nat :| FreeAt(t, folder, dir, realFilename, id, k1, r1.value);
      var k2: nat :| FreeAt(t, folder, dir, realFilename, id, k2, r2.value);
      FreeAtUnique(t, folder, dir, realFilename, id, k1, k2, r1.value, r2.value);
    }
  }

  // ---------------------------------------------------------------------
  // The shape of the candidates.

  /** The file name has its last '.' after its last '/': the usual case. */
  predicate DotInName(s: string) {
    LastIndexOf(s, '.') > LastIndexOf(s, '/')
  }

  /** The file name has no '.', but a directory in front of it has one. */
  predicate DotOnlyInDirectory(s: string) {
    0 <= LastIndexOf(s, '.') < LastIndexOf(s, '/')
  }

  /** The stem of the file name: its name part up to the last '.'. */
  function NameStem(s: string): string
    requires DotInName(s)
  {
    BaseName(s[..LastIndexOf(s, '.')])
  }

  /** The k-th retry name in the usual case: `<id>-<stem><k>.<EXT>`. */
  function Retry(realFilename: string, id: nat, k: nat): string
    requires DotInName(realFilename)
  {
    NatStr(id) + "-" + NameStem(realFilename) + NatStr(k) + "." + FileType(realFilename)
  }

  /** A path is its directory part, up to and including the last '/',
      followed by its name. */
  lemma BaseNameSplit(s: string)
    ensures s == s[..LastIndexOf(s, '/') + 1] + BaseName(s)
  {
    AfterLastSuffix(s, '/');
  }

  /** In the usual case the name part holds the '.'. */
  lemma DotInBaseName(s: string)
    requires DotInName(s)
    ensures '.' in BaseName(s)
  {
    var sl := LastIndexOf(s, '/');
    var d := LastIndexOf(s, '.');
    AfterLastSuffix(s, '/');
    assert BaseName(s)[d - sl - 1] == s[d];
  }

  /** In the usual case the type holds neither '.' nor '/'. */
  lemma TypeShape(s: string)
    requires DotInName(s)
    ensures '.' !in FileType(s) && '/' !in FileType(s)
  {
    FileTypeShape(s);
    var d := LastIndexOf(s, '.');
    var e := AfterLast(s, '.');
    AfterLastSuffix(s, '.');
    forall i | 0 <= i < |e| ensures e[i] != '/' {
      assert e[i] == s[d + 1 + i];
    }
    UpperKeeps(e, '/');
  }

  /** The type read back from a candidate whose name ends in `.<EXT>`. */
  lemma TypeOfRetry(dir: string, realFilename: string, id: nat, k: nat)
    requires DotInName(realFilename)
    ensures FileType(dir + Retry(realFilename, id, k)) == FileType(realFilename)
  {
    TypeShape(realFilename);
    var e := FileType(realFilename);
    var a := NatStr(id) + "-" + NameStem(realFilename) + NatStr(k);
    AppendAssoc4(dir, a, ".", e);
    FileTypeOfExtension(dir + a, e);
    UpperIdempotent(AfterLast(realFilename, '.'));
  }

  /** The type read back from the first candidate is the type of the
      original file name. */
  lemma TypeOfFirst(dir: string, realFilename: string, id: nat)
    requires DotInName(realFilename)
    ensures FileType(dir + FirstLeaf(realFilename, id)) == FileType(realFilename)
  {
    var s := realFilename;
    var b := BaseName(s);
    DotInBaseName(s);
    BaseNameSplit(s);
    FileTypeAppend(s[..LastIndexOf(s, '/') + 1], b);
    AppendAssoc3(dir, NatStr(id) + "-", b);
    FileTypeAppend(dir + (NatStr(id) + "-"), b);
  }

  /** One retry in the usual case, given the type read back from the
      previous candidate. */
  lemma NextIsRetry(realFilename: string, id: nat, k: nat)
    requires DotInName(realFilename)
    ensures NextLeaf(realFilename, id, k, FileType(realFilename)) == Retry(realFilename, id, k)
  {
    var s := realFilename;
    var e := FileType(s);
    var n := NatStr(k);
    var stem := s[..LastIndexOf(s, '.')];
    AppendAssoc4(stem, n, ".", e);
    TypeShape(s);
    DigitsHaveNo(n, '/');
    AfterLastAppend(stem, n + "." + e, '/');
    AppendAssoc5(NatStr(id) + "-", NameStem(s), n, ".", e);
  }

  /** In the usual case every retry is `<id>-<stem><k>.<EXT>` ... */
  lemma {:induction false} CandidateIsRetry(dir: string, realFilename: string, id: nat, k: nat)
    requires DotInName(realFilename) && k >= 1
    ensures Candidate(dir, realFilename, id, k) == Retry(realFilename, id, k)
    decreases k, 0
  {
    TypeOfCandidate(dir, realFilename, id, k - 1);
    NextIsRetry(realFilename, id, k);
  }

  /** ... and every candidate reads back the type of the original name. */
  lemma {:induction false} TypeOfCandidate(dir: string, realFilename: string, id: nat, k: nat)
    requires DotInName(realFilename)
    ensures FileType(dir + Candidate(dir, realFilename, id, k)) == FileType(realFilename)
    decreases k, 1
  {
    if k == 0 {
      TypeOfFirst(dir, realFilename, id);
    } else {
      CandidateIsRetry(dir, realFilename, id, k);
      TypeOfRetry(dir, realFilename, id, k);
    }
  }

  /** Two retries in the usual case differ whenever their counters do. */
  lemma RetryInjective(realFilename: string, id: nat, j: nat, k: nat)
    requires DotInName(realFilename)
    requires Retry(realFilename, id, j) == Retry(realFilename, id, k)
    ensures j == k
  {
    var p := NatStr(id) + "-" + NameStem(realFilename);
    var e := "." + FileType(realFilename);
    AppendAssoc3(p + NatStr(j), ".", FileType(realFilename));
    AppendAssoc3(p + NatStr(k), ".", FileType(realFilename));
    assert |NatStr(j)| == |NatStr(k)|;
    assert NatStr(j) == (p + NatStr(j) + e)[|p|..|p| + |NatStr(j)|];
    assert NatStr(k) == (p + NatStr(k) + e)[|p|..|p| + |NatStr(k)|];
    NatStrInjective(j, k);
  }

  /** When the only '.' is in a directory, the name itself has none. */
  lemma FirstLeafPlain(realFilename: string, id: nat)
    requires DotOnlyInDirectory(realFilename)
    ensures '.' !in FirstLeaf(realFilename, id) && '/' !in FirstLeaf(realFilename, id)
  {
    var s := realFilename;
    var sl := LastIndexOf(s, '/');
    var b := BaseName(s);
    AfterLastSuffix(s, '/');
    AfterLastWithout(s, '/', '/');
    forall i | 0 <= i < |b| ensures b[i] != '.' {
      assert b[i] == s[sl + 1 + i];
    }
    DigitsHaveNo(NatStr(id), '.');
    DigitsHaveNo(NatStr(id), '/');
  }

  /** A folder string as the report code builds it: ending in '/'. */
  predicate FolderName(dir: string) {
    |dir| > 0 && dir[|dir| - 1] == '/'
  }

  /** What the type read back from `<folder>/<plain name>` starts with:
      the folder string after its last '.', upper-cased; it ends in '/'. */
  function TypeHead(dir: string): (h: string)
    requires FolderName(dir)
    ensures |h| > 0 && h[|h| - 1] == '/'
  {
    Upper(AfterLast(dir, '.'))
  }

  /** The type read back from a plain name (no '.') in the folder runs from
      the folder's last '.' to the end: the upper-cased name follows a '/'. */
  lemma TypeOfPlain(dir: string, prev: string)
    requires FolderName(dir)
    requires '.' !in prev
    ensures FileType(dir + prev) == TypeHead(dir) + Upper(prev)
  {
    AfterLastAppend(dir, prev, '.');
    UpperAppend(AfterLast(dir, '.'), prev);
  }

  /** A retry whose extension ends in `/<b>` is `<id>-<b>`. */
  lemma NextAfterSlash(realFilename: string, id: nat, k: nat, a: string, b: string)
    requires '.' in realFilename
    requires |a| > 0 && a[|a| - 1] == '/' && '/' !in b
    ensures NextLeaf(realFilename, id, k, a + b) == NatStr(id) + "-" + b
  {
    AfterLastBehind(realFilename[..LastIndexOf(realFilename, '.')] + NatStr(k) + ".", a, b, '/');
  }

  lemma PlainPrefixed(id: nat, b: string)
    requires '.' !in b && '/' !in b
    ensures var c := NatStr(id) + "-" + b;
            '.' !in c && '/' !in c
  {
    DigitsHaveNo(NatStr(id), '.');
    DigitsHaveNo(NatStr(id), '/');
  }

  /** When the only '.' is in a directory, a retry from a plain previous
      name puts `<id>-` in front of the upper-cased previous name. */
  lemma PlainRetry(dir: string, realFilename: string, id: nat, k: nat, prev: string)
    requires FolderName(dir)
    requires '.' in realFilename
    requires '.' !in prev && '/' !in prev
    ensures NextLeaf(realFilename, id, k, FileType(dir + prev)) == NatStr(id) + "-" + Upper(prev)
  {
    UpperPlain(prev);
    TypeOfPlain(dir, prev);
    NextAfterSlash(realFilename, id, k, TypeHead(dir), Upper(prev));
  }

  lemma UpperPlain(s: string)
    requires '.' !in s && '/' !in s
    ensures '.' !in Upper(s) && '/' !in Upper(s)
  {
    UpperKeeps(s, '/');
    UpperKeeps(s, '.');
  }

  /** When the only '.' is in a directory, no candidate has a '.' or a '/'. */
  lemma {:induction false} CandidatePlain(dir: string, realFilename: string, id: nat, k: nat)
    requires FolderName(dir)
    requires DotOnlyInDirectory(realFilename)
    ensures var c := Candidate(dir, realFilename, id, k);
            '.' !in c && '/' !in c
    decreases k
  {
    if k == 0 {
      FirstLeafPlain(realFilename, id);
    } else {
      var prev := Candidate(dir, realFilename, id, k - 1);
      CandidatePlain(dir, realFilename, id, k - 1);
      PlainRetry(dir, realFilename, id, k, prev);
      UpperPlain(prev);
      PlainPrefixed(id, Upper(prev));
    }
  }

  /** When the only '.' is in a directory, each retry is `<id>-` in front
      of the upper-cased previous name ... */
  lemma CandidateGrows(dir: string, realFilename: string, id: nat, k: nat)
    requires FolderName(dir)
    requires DotOnlyInDirectory(realFilename)
    requires k >= 1
    ensures Candidate(dir, realFilename, id, k)
            == NatStr(id) + "-" + Upper(Candidate(dir, realFilename, id, k - 1))
  {
    CandidatePlain(dir, realFilename, id, k - 1);
    PlainRetry(dir, realFilename, id, k, Candidate(dir, realFilename, id, k - 1));
  }

  /** ... so the names it tries keep getting longer. */
  lemma CandidateLonger(dir: string, realFilename: string, id: nat, k: nat)
    requires FolderName(dir)
    requires DotOnlyInDirectory(realFilename)
    requires k >= 1
    ensures |Candidate(dir, realFilename, id, k)| > |Candidate(dir, realFilename, id, k - 1)|
  {
    CandidateGrows(dir, realFilename, id, k);
  }

  // ---------------------------------------------------------------------
  // The scan.

  /** Existing names of the folder's children that are retries k >= from
      (usual case). */
  ghost function RetriesTaken(t: Tree, folder: Path, realFilename: string, id: nat, from: nat): set<string>
    requires DotInName(realFilename)
  {
    set q | q in t && |q| == |folder| + 1 && q[..|folder|] == folder
              && (exists k: nat :: k >= from && q[|folder|] == Retry(realFilename, id, k))
          :: q[|folder|]
  }

  /** Existing names of the folder's children at least n characters long. */
  ghost function LongNamesTaken(t: Tree, folder: Path, n: nat): set<string> {
    set q | q in t && |q| == |folder| + 1 && q[..|folder|] == folder && |q[|folder|]| >= n :: q[|folder|]
  }

  /** How many taken names the scan may still run into: it shrinks with
      every retry after the first. */
  ghost function ScanMeasure(t: Tree, folder: Path, dir: string, realFilename: string, id: nat, index: nat, leaf: string): nat {
    if DotInName(realFilename) then |RetriesTaken(t, folder, realFilename, id, index)|
    else |LongNamesTaken(t, folder, |leaf|)|
  }

  /** `getReportName`: try `<id>-<name>`, then `<id>-<stem><k>.<EXT>` for
      k = 1, 2, ..., until a name is free in the folder. Reads the
      filesystem and changes nothing. */
  method GetReportName(fs: FileSystem, folder: Path, dir: string, realFilename: string, id: nat) returns (r: Option<string>)
    requires dir == FolderString(folder)
    ensures IsReportName(fs.tree, folder, dir, realFilename, id, r)
    ensures r.Some? ==> folder + [r.value] !in fs.tree
    ensures folder + [FirstLeaf(realFilename, id)] !in fs.tree ==> r == Some(FirstLeaf(realFilename, id))
    ensures r.None? <==> '.' !in realFilename && folder + [FirstLeaf(realFilename, id)] in fs.tree
  {
    var leaf := FirstLeaf(realFilename, id);
    var index := 0;
    ghost var measure: nat := ScanMeasure(fs.tree, folder, dir, realFilename, id, index, leaf);
    while fs.Exists(folder + [leaf])
      invariant index == 0 || '.' in realFilename
      invariant leaf == Candidate(dir, realFilename, id, index)
      invariant AllTried(fs.tree, folder, dir, realFilename, id, index)
      invariant measure == ScanMeasure(fs.tree, folder, dir, realFilename, id, index, leaf)
      decreases (if index == 0 then 1 else 0), measure
    {
      if LastIndexOf(realFilename, '.') < 0 {
        return None;
      }
      ScanStep(fs.tree, folder, dir, realFilename, id, index, leaf);
      AllTriedStep(fs.tree, folder, dir, realFilename, id, index);
      var ext := FileType(dir + leaf);
      leaf := NextLeaf(realFilename, id, index + 1, ext);
      index := index + 1;
      measure := ScanMeasure(fs.tree, folder, dir, realFilename, id, index, leaf);
    }
    ScanFound(fs.tree, folder, dir, realFilename, id, index, leaf);
    r := Some(leaf);
  }

  /** Where the scan stops: the name it reached is the report name. */
  lemma ScanFound(t: Tree, folder: Path, dir: string, realFilename: string, id: nat, index: nat, leaf: string)
    requires index == 0 || '.' in realFilename
    requires leaf == Candidate(dir, realFilename, id, index)
    requires AllTried(t, folder, dir, realFilename, id, index)
    requires folder + [leaf] !in t
    ensures IsReportName(t, folder, dir, realFilename, id, Some(leaf))
    ensures folder + [FirstLeaf(realFilename, id)] !in t ==> leaf == FirstLeaf(realFilename, id)
    ensures '.' in realFilename || folder + [FirstLeaf(realFilename, id)] !in t
  {
    assert FreeAt(t, folder, dir, realFilename, id, index, leaf);
    if index > 0 {
      assert Tried(t, folder, dir, realFilename, id, 0);
    }
  }

  /** One pass of the scan: the retry it builds is the next candidate, and
      from the second pass on the measure shrinks. */
  lemma ScanStep(t: Tree, folder: Path, dir: string, realFilename: string, id: nat, index: nat, leaf: string)
    requires FolderName(dir)
    requires '.' in realFilename
    requires leaf == Candidate(dir, realFilename, id, index)
    requires folder + [leaf] in t
    ensures NextLeaf(realFilename, id, index + 1, FileType(dir + leaf))
            == Candidate(dir, realFilename, id, index + 1)
    ensures index >= 1 ==>
              ScanMeasure(t, folder, dir, realFilename, id, index + 1, Candidate(dir, realFilename, id, index + 1))
              < ScanMeasure(t, folder, dir, realFilename, id, index, leaf)
  {
    if index >= 1 {
      ScanProgress(t, folder, dir, realFilename, id, index, leaf);
    }
  }

  /** Each retry after the first removes the tried name from the measure. */
  lemma ScanProgress(t: Tree, folder: Path, dir: string, realFilename: string, id: nat, index: nat, leaf: string)
    requires FolderName(dir)
    requires index >= 1 && '.' in realFilename
    requires leaf == Candidate(dir, realFilename, id, index)
    requires folder + [leaf] in t
    ensures ScanMeasure(t, folder, dir, realFilename, id, index + 1, Candidate(dir, realFilename, id, index + 1))
            < ScanMeasure(t, folder, dir, realFilename, id, index, leaf)
  {
    if DotInName(realFilename) {
      RetryProgress(t, folder, dir, realFilename, id, index);
    } else {
      PlainProgress(t, folder, dir, realFilename, id, index);
    }
  }

  lemma RetryProgress(t: Tree, folder: Path, dir: string, realFilename: string, id: nat, index: nat)
    requires DotInName(realFilename) && index >= 1
    requires folder + [Candidate(dir, realFilename, id, index)] in t
    ensures |RetriesTaken(t, folder, realFilename, id, index + 1)| < |RetriesTaken(t, folder, realFilename, id, index)|
  {
    CandidateIsRetry(dir, realFilename, id, index);
    RetriesShrink(t, folder, realFilename, id, index);
  }

  lemma PlainProgress(t: Tree, folder: Path, dir: string, realFilename: string, id: nat, index: nat)
    requires FolderName(dir)
    requires DotOnlyInDirectory(realFilename)
    requires folder + [Candidate(dir, realFilename, id, index)] in t
    ensures |LongNamesTaken(t, folder, |Candidate(dir, realFilename, id, index + 1)|)|
            < |LongNamesTaken(t, folder, |Candidate(dir, realFilename, id, index)|)|
  {
    CandidateLonger(dir, realFilename, id, index + 1);
    CandidateBefore(dir, realFilename, id, index + 1, index);
    LongNamesShrink(t, folder, Candidate(dir, realFilename, id, index), |Candidate(dir, realFilename, id, index + 1)|);
  }

  /** A taken retry k leaves the measure once the scan is past k. */
  lemma RetriesShrink(t: Tree, folder: Path, realFilename: string, id: nat, k: nat)
    requires DotInName(realFilename)
    requires folder + [Retry(realFilename, id, k)] in t
    ensures |RetriesTaken(t, folder, realFilename, id, k + 1)| < |RetriesTaken(t, folder, realFilename, id, k)|
  {
    var leaf := Retry(realFilename, id, k);
    var q := folder + [leaf];
    assert q[..|folder|] == folder && q[|folder|] == leaf;
    assert leaf in RetriesTaken(t, folder, realFilename, id, k);
    if leaf in RetriesTaken(t, folder, realFilename, id, k + 1) {
      var j: nat :| j >= k + 1 && leaf == Retry(realFilename, id, j);
      RetryInjective(realFilename, id, k, j);
      assert false;
    }
    StrictSubsetSmaller(RetriesTaken(t, folder, realFilename, id, k + 1), RetriesTaken(t, folder, realFilename, id, k));
  }

  /** A taken name leaves the measure once the scan tries longer names. */
  lemma LongNamesShrink(t: Tree, folder: Path, leaf: string, n: nat)
    requires folder + [leaf] in t && n > |leaf|
    ensures |LongNamesTaken(t, folder, n)| < |LongNamesTaken(t, folder, |leaf|)|
  {
    var q := folder + [leaf];
    assert q[..|folder|] == folder && q[|folder|] == leaf;
    assert leaf in LongNamesTaken(t, folder, |leaf|);
    StrictSubsetSmaller(LongNamesTaken(t, folder, n), LongNamesTaken(t, folder, |leaf|));
  }

  /** Set-size facts the scan measure relies on. */
}
