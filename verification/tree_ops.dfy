/**
 * Recursive delete and recursive copy of directory trees, as ReportGenerator
 * does them with java.io.File: `deleteFileOrFolder` and
 * `copy`/`copyDirectory`/`copyFile`.
 */
module TreeOps {
  import opened Text
  import opened FileSystem

  /** The paths at or beneath p. */
  ghost function Subtree(t: Tree, p: Path): set<Path> {
    set q | q in t && Within(q, p)
  }

  /** t without p and everything beneath it; the root is never removed. */
  function Removed(t: Tree, p: Path): Tree {
    map q | q in t && (q == [] || !Within(q, p)) :: t[q]
  }

  // ---------------------------------------------------------------------
  // deleteFileOrFolder

  /** q lies beneath p in a child of p that the delete loop has finished. */
  predicate Cleared(q: Path, p: Path, rest: set<Path>) {
    Under(q, p) && q[..|p| + 1] !in rest
  }

  /** The tree while the delete loop runs: the subtrees of the children of p
      that are no longer in `rest` are gone. */
  function Pruned(t: Tree, p: Path, rest: set<Path>): Tree {
    map q | q in t && !Cleared(q, p, rest) :: t[q]
  }

  lemma PrunedStart(t: Tree, p: Path)
    requires WellFormed(t)
    ensures Pruned(t, p, Children(t, p)) == t
  {
    forall q | q in t && Under(q, p) ensures q[..|p| + 1] in Children(t, p) {
      ValidAncestor(t, q, |p| + 1);
      assert q[..|p| + 1][..|p|] == p;
    }
  }

  /** An unfinished child keeps its node while the loop runs. */
  lemma PrunedChild(t: Tree, p: Path, rest: set<Path>, f: Path)
    requires f in rest && rest <= Children(t, p)
    ensures f in Pruned(t, p, rest) && Pruned(t, p, rest)[f] == t[f]
  {
    assert |f| == |p| + 1 && f[..|p| + 1] == f;
  }

  /** Nothing lies beneath a path that is not a directory. */
  lemma NothingBeneath(t: Tree, p: Path)
    requires WellFormed(t) && !IsDir(t, p)
    ensures forall q :: q in t ==> !Under(q, p)
  {
    forall q | q in t && Under(q, p) ensures false {
      AncestorDir(t, q, |p|);
    }
  }

  lemma PrunedNoDir(t: Tree, p: Path)
    requires WellFormed(t) && !IsDir(t, p)
    ensures Pruned(t, p, {}) == t
  {
    NothingBeneath(t, p);
  }

  /** Deleting the subtree of an unfinished child directory finishes it. */
  lemma PrunedDir(t: Tree, p: Path, rest: set<Path>, f: Path)
    requires f in rest && rest <= Children(t, p)
    ensures Removed(Pruned(t, p, rest), f) == Pruned(t, p, rest - {f})
  {
    assert |f| == |p| + 1 && f[..|p|] == p;
    forall q | q in t
      ensures (Within(q, f) && q != []) <==> (Cleared(q, p, rest - {f}) && !Cleared(q, p, rest))
    {
      if Under(q, p) {
        assert Within(q, f) <==> q[..|p| + 1] == f;
      }
    }
  }

  /** A plain file has nothing beneath it, so deleting it finishes it. */
  lemma PrunedFile(t: Tree, p: Path, rest: set<Path>, f: Path)
    requires WellFormed(t)
    requires f in rest && rest <= Children(t, p) && IsFile(t, f)
    ensures DeleteT(Pruned(t, p, rest), f).0 == Pruned(t, p, rest - {f})
  {
    var t1 := Pruned(t, p, rest);
    NothingBeneath(t, f);
    PrunedChild(t, p, rest, f);
    PrunedDir(t, p, rest, f);
    assert Removed(t1, f) == t1 - {f};
  }

  /** Once every child is finished, deleting p itself yields Removed. */
  lemma PrunedEnd(t: Tree, p: Path)
    requires WellFormed(t)
    ensures DeleteT(Pruned(t, p, {}), p).0 == Removed(t, p)
  {
    var t1 := Pruned(t, p, {});
    if p in t1 && p != [] {
      assert !HasChildren(t1, p);
    }
    if p !in t {
      forall q | q in t && Under(q, p) ensures false {
        ValidAncestor(t, q, |p|);
      }
    }
  }

  /** While the loop runs, the subtree of an unfinished child is a strict
      part of the subtree of p: the measure of the recursion. */
  lemma PrunedSmaller(t: Tree, p: Path, rest: set<Path>, f: Path)
    requires f in rest && rest <= Children(t, p) && p in t
    ensures |Subtree(Pruned(t, p, rest), f)| < |Subtree(t, p)|
  {
    assert |f| == |p| + 1 && f[..|p|] == p;
    var a := Subtree(Pruned(t, p, rest), f);
    var b := Subtree(t, p);
    forall q | q in a ensures q in b {
      assert q[..|p|] == p;
    }
    assert p in b && p !in a;
    StrictSubsetSmaller(a, b);
  }

  /** `deleteFileOrFolder`: the children of a directory are deleted one by
      one (recursively when they are directories), then the path itself.
      Every delete succeeds on this filesystem, so the whole subtree is gone
      and nothing outside it changes. */
  method DeleteFileOrFolder(fs: FileSystem, file: Path)
    requires fs.Valid()
    modifies fs
    ensures fs.Valid()
    ensures fs.tree == Removed(old(fs.tree), file)
    decreases |Subtree(fs.tree, file)|
  {
    ghost var t0 := fs.tree;
    var files := fs.List(file);
    if files.Some? {
      var rest := files.value;
      PrunedStart(t0, file);
      while rest != {}
        invariant fs.Valid()
        invariant rest <= Children(t0, file)
        invariant fs.tree == Pruned(t0, file, rest)
        decreases rest
      {
        var f :| f in rest;
        PrunedChild(t0, file, rest, f);
        if fs.IsDirectory(f) {
          PrunedSmaller(t0, file, rest, f);
          DeleteFileOrFolder(fs, f);
          PrunedDir(t0, file, rest, f);
        } else {
          PrunedFile(t0, file, rest, f);
          var _ := fs.Delete(f);
        }
        rest := rest - {f};
      }
    } else {
      PrunedNoDir(t0, file);
    }
    PrunedEnd(t0, file);
    var _ := fs.Delete(file);
  }

  /** After the delete neither the path nor anything beneath it exists
      (the root excepted), and every other path keeps its node. */
  lemma DeleteRemovesSubtree(t: Tree, file: Path)
    requires WellFormed(t)
    ensures forall q :: Within(q, file) && q != [] ==> q !in Removed(t, file)
    ensures forall q :: !Within(q, file) ==> (q in Removed(t, file) <==> q in t)
    ensures forall q :: q in Removed(t, file) ==> Removed(t, file)[q] == t[q]
    ensures WellFormed(Removed(t, file))
  {
    var r := Removed(t, file);
    forall q | q in r && q != [] ensures IsDir(r, Parent(q)) {
      assert IsDir(t, Parent(q));
    }
  }
}

module CopyOps {
  import opened Text
  import opened FileSystem
  import opened TreeOps

  // ---------------------------------------------------------------------
  // Paths relative to a root.

  /** Neither path lies at or beneath the other. */
  predicate Disjoint(a: Path, b: Path) {
    !Within(a, b) && !Within(b, a)
  }

  lemma PathAssoc(a: Path, b: Path, c: Path)
    ensures (a + b) + c == a + (b + c)
  {
  }

  /** Two roots that a path lies beneath are nested. */
  lemma WithinBoth(q: Path, a: Path, b: Path)
    requires Within(q, a) && Within(q, b)
    ensures Within(a, b) || Within(b, a)
  {
    if |a| <= |b| {
      assert b[..|a|] == q[..|b|][..|a|];
    } else {
      assert a[..|b|] == q[..|a|][..|b|];
    }
  }

  /** Two different children of one directory have disjoint subtrees. */
  lemma SiblingsDisjoint(q: Path, p: Path, m: string, n: string)
    requires m != n && Within(q, p + [m])
    ensures !Within(q, p + [n])
  {
    assert (p + [m])[|p|] == m && (p + [n])[|p|] == n;
    if Within(q, p + [n]) {
      WithinBoth(q, p + [m], p + [n]);
    }
  }

  lemma AppendWithin(p: Path, r: Path)
    ensures Within(p + r, p)
  {
    assert (p + r)[..|p|] == p;
  }

  /** A path beneath the child p + [n] is p followed by n and the rest. */
  lemma ChildSplit(p: Path, n: string, r: Path)
    requires Within(p + r, p + [n])
    ensures |r| > 0 && r[0] == n && p + r == (p + [n]) + r[1..]
  {
    assert (p + r)[|p|] == (p + [n])[|p|];
    assert r == [n] + r[1..];
    PathAssoc(p, [n], r[1..]);
  }

  // ---------------------------------------------------------------------
  // Comparing the tree before and after a copy.

  /** Nothing outside p differs between t0 and t1. */
  ghost predicate SameOutside(t0: Tree, t1: Tree, p: Path) {
    forall q :: !Within(q, p) ==> (q in t1 <==> q in t0) && (q in t1 ==> t1[q] == t0[q])
  }

  /** Nothing at or beneath p differs between t0 and t1. */
  ghost predicate SameWithin(t0: Tree, t1: Tree, p: Path) {
    forall q :: Within(q, p) ==> (q in t1 <==> q in t0) && (q in t1 ==> t1[q] == t0[q])
  }

  /** Nothing was removed and no directory was replaced. */
  ghost predicate Extends(t0: Tree, t1: Tree) {
    forall q :: q in t0 ==> q in t1 && (t0[q] == Dir ==> t1[q] == Dir)
  }

  /** Every path beneath tgt that is new or changed holds what the
      corresponding path beneath src held. */
  ghost predicate FromSource(t0: Tree, t1: Tree, src: Path, tgt: Path) {
    forall r :: tgt + r in t1 && (tgt + r !in t0 || t1[tgt + r] != t0[tgt + r]) ==>
      src + r in t0 && t1[tgt + r] == t0[src + r]
  }

  /** Where both src + r and tgt + r exist, both are directories or
      neither is: no file stands in the way of a directory and no directory
      in the way of a file. */
  ghost predicate Compatible(t: Tree, src: Path, tgt: Path) {
    forall r :: src + r in t && tgt + r in t ==> (t[src + r] == Dir <==> t[tgt + r] == Dir)
  }

  /** Everything at or beneath src in t0 has its copy beneath tgt in t1:
      the same directories and files with the same contents. */
  ghost predicate Mirrored(t0: Tree, t1: Tree, src: Path, tgt: Path) {
    forall r :: src + r in t0 ==> tgt + r in t1 && t1[tgt + r] == t0[src + r]
  }

  lemma SameOutsideTrans(t0: Tree, t1: Tree, t2: Tree, p: Path, p': Path)
    requires SameOutside(t0, t1, p) && SameOutside(t1, t2, p') && Within(p', p)
    ensures SameOutside(t0, t2, p)
  {
    forall q | !Within(q, p) ensures !Within(q, p') {
      if Within(q, p') {
        WithinBoth(q, p', p);
      }
    }
  }

  lemma ExtendsTrans(t0: Tree, t1: Tree, t2: Tree)
    requires Extends(t0, t1) && Extends(t1, t2)
    ensures Extends(t0, t2)
  {
  }

  /** A change confined to one subtree leaves a disjoint subtree alone. */
  lemma SameOutsideSpares(t0: Tree, t1: Tree, p: Path, s: Path)
    requires SameOutside(t0, t1, p) && Disjoint(s, p)
    ensures SameWithin(t0, t1, s)
  {
    forall q | Within(q, s) ensures !Within(q, p) {
      if Within(q, p) {
        WithinBoth(q, s, p);
      }
    }
  }

  lemma FromSourceTrans(t0: Tree, t1: Tree, t2: Tree, src: Path, tgt: Path)
    requires FromSource(t0, t1, src, tgt) && FromSource(t1, t2, src, tgt)
    requires SameWithin(t0, t1, src)
    ensures FromSource(t0, t2, src, tgt)
  {
    forall r | tgt + r in t2 && (tgt + r !in t0 || t2[tgt + r] != t0[tgt + r])
      ensures src + r in t0 && t2[tgt + r] == t0[src + r]
    {
      AppendWithin(src, r);
    }
  }

  /** What a child copy brings in comes from the source directory. */
  lemma FromSourceLift(t0: Tree, t1: Tree, src: Path, tgt: Path, n: string)
    requires FromSource(t0, t1, src + [n], tgt + [n]) && SameOutside(t0, t1, tgt + [n])
    ensures FromSource(t0, t1, src, tgt)
  {
    forall r | tgt + r in t1 && (tgt + r !in t0 || t1[tgt + r] != t0[tgt + r])
      ensures src + r in t0 && t1[tgt + r] == t0[src + r]
    {
      ChildSplit(tgt, n, r);
      PathAssoc(src, [n], r[1..]);
      assert r == [n] + r[1..];
    }
  }

  lemma SameWithinTrans(t0: Tree, t1: Tree, t2: Tree, p: Path)
    requires SameWithin(t0, t1, p) && SameWithin(t1, t2, p)
    ensures SameWithin(t0, t2, p)
  {
  }

  /** What holds of a subtree holds of every subtree inside it. */
  lemma SameWithinNarrow(t0: Tree, t1: Tree, p: Path, s: Path)
    requires SameWithin(t0, t1, p) && Within(s, p)
    ensures SameWithin(t0, t1, s)
  {
    forall q | Within(q, s) ensures Within(q, p) {
      if Under(q, s) && Under(s, p) {
        assert q[..|s|][..|p|] == q[..|p|];
      }
    }
  }

  // ---------------------------------------------------------------------
  // copyFile

  /** The size of the buffer copyFile moves the bytes through. */
  const ChunkSize: nat := 1024

  /** `copyFile`: opening the input stream fails unless src is a file;
      opening the output stream creates or truncates tgt (and fails as a
      write does); then the bytes src holds at that moment are written. */
  function CopyFileT(t: Tree, src: Path, tgt: Path): (Tree, bool) {
    if !IsFile(t, src) then (t, false)
    else
      var (t1, truncated) := WriteT(t, tgt, "");
      if !truncated then (t, false) else (t1[tgt := t1[src]], true)
  }

  /** For two different paths copyFile is a write of the source's content
      to the target, and it fails when the source is not a file. */
  lemma CopyFileWrites(t: Tree, src: Path, tgt: Path)
    requires src != tgt
    ensures CopyFileT(t, src, tgt) == if IsFile(t, src) then WriteT(t, tgt, t[src].content) else (t, false)
  {
    if IsFile(t, src) && WriteT(t, tgt, "").1 {
      assert t[tgt := File("")][src] == File(t[src].content);
      UpdateTwice(t, tgt, File(""), File(t[src].content));
    }
  }

  /** Copying a file onto itself empties it: the output stream truncates
      the file before the input stream reads a byte. */
  lemma CopyFileOntoItself(t: Tree, p: Path)
    requires WellFormed(t) && IsFile(t, p)
    ensures CopyFileT(t, p, p) == (t[p := File("")], true)
  {
    assert p != [] && IsDir(t, Parent(p));
    UpdateTwice(t, p, File(""), File(""));
  }

  lemma UpdateTwice(t: Tree, p: Path, a: Node, b: Node)
    ensures t[p := a][p := b] == t[p := b]
  {
  }

  lemma ChunkAppend(data: string, pos: nat, length: nat)
    requires pos + length <= |data|
    ensures data[..pos] + data[pos..pos + length] == data[..pos + length]
  {
  }

  /** The in-place form of copyFile: open both streams, then move the
      bytes src holds once the output stream is open. */
  method CopyFile(fs: FileSystem, src: Path, tgt: Path) returns (ok: bool)
    requires fs.Valid()
    modifies fs
    ensures fs.Valid()
    ensures (fs.tree, ok) == CopyFileT(old(fs.tree), src, tgt)
  {
    var input := fs.Read(src);
    if input.None? {
      return false;
    }
    ok := fs.Write(tgt, "");
    if !ok {
      return;
    }
    var stream := fs.Read(src);
    WriteChunks(fs, tgt, stream.value);
  }

  /** The transfer loop of copyFile: chunks of at most ChunkSize are
      appended to the freshly truncated target until the input is
      exhausted, which leaves exactly the input in the target. */
  method WriteChunks(fs: FileSystem, tgt: Path, data: string)
    requires fs.Valid() && tgt in fs.tree && fs.tree[tgt] == File("")
    modifies fs
    ensures fs.Valid()
    ensures fs.tree == old(fs.tree)[tgt := File(data)]
  {
    ghost var t1 := fs.tree;
    var pos := 0;
    UpdateTwice(t1, tgt, File(""), File(data[..0]));
    assert t1[tgt := File(data[..0])] == t1;
    while pos < |data|
      invariant fs.Valid()
      invariant 0 <= pos <= |data|
      invariant fs.tree == t1[tgt := File(data[..pos])]
      decreases |data| - pos
    {
      var length := if |data| - pos < ChunkSize then |data| - pos else ChunkSize;
      var _ := fs.Append(tgt, data[pos..pos + length]);
      ChunkAppend(data, pos, length);
      UpdateTwice(t1, tgt, File(data[..pos]), File(data[..pos + length]));
      pos := pos + length;
    }
    assert data[..pos] == data;
  }

  /** What copyFile does to the tree, in the terms of the directory copy:
      only tgt changes, it gets the source's content, and when src is a file
      and tgt can take it, the copy succeeds. */
  lemma CopyFileEffect(t: Tree, src: Path, tgt: Path)
    requires WellFormed(t) && !IsDir(t, src) && src != tgt
    ensures var (t', ok) := CopyFileT(t, src, tgt);
            && SameOutside(t, t', tgt)
            && Extends(t, t')
            && FromSource(t, t', src, tgt)
            && (src in t && Compatible(t, src, tgt) && CanCreate(t, tgt) ==> ok && Mirrored(t, t', src, tgt))
  {
    var (t', ok) := CopyFileT(t, src, tgt);
    NothingBeneath(t, src);
    forall r | tgt + r in t' && (tgt + r !in t || t'[tgt + r] != t[tgt + r])
      ensures src + r in t && t'[tgt + r] == t[src + r]
    {
      assert r == [];
      assert tgt + r == tgt && src + r == src;
    }
    if src in t && Compatible(t, src, tgt) && CanCreate(t, tgt) {
      assert src + [] == src && tgt + [] == tgt;
      forall r | src + r in t ensures tgt + r in t' && t'[tgt + r] == t[src + r] {
        if r != [] {
          AppendWithin(src, r);
        }
        assert r == [];
      }
    }
  }

  // ---------------------------------------------------------------------
  // copyDirectory

  /** The children of src the loop has still to copy have untouched
      targets. */
  ghost predicate Pending(t0: Tree, t1: Tree, src: Path, tgt: Path, rest: set<Path>) {
    forall c :: c in rest && |src| < |c| ==> SameWithin(t0, t1, tgt + [c[|src|]])
  }

  /** The children of src the loop has copied are mirrored beneath tgt. */
  ghost predicate Done(t0: Tree, t1: Tree, src: Path, tgt: Path, rest: set<Path>) {
    forall c :: c in Children(t0, src) && c !in rest ==> Mirrored(t0, t1, c, tgt + [c[|src|]])
  }

  /** A child of src and its target: src and tgt extended by the same name,
      and as disjoint as src and tgt. */
  lemma ChildPaths(t: Tree, src: Path, tgt: Path, c: Path)
    requires c in Children(t, src) && Disjoint(src, tgt)
    ensures c == src + [c[|src|]] && Under(c, src)
    ensures Disjoint(c, tgt + [c[|src|]]) && Within(tgt + [c[|src|]], tgt)
  {
    assert c == c[..|src|] + [c[|src|]];
    AppendWithin(tgt, [c[|src|]]);
  }

  /** Compatibility of src and tgt carries over to a child that is still to
      be copied, while its target is untouched; its target's parent tgt is a
      directory, so the child copy can create it. */
  lemma ChildReady(t0: Tree, t1: Tree, src: Path, tgt: Path, rest: set<Path>, c: Path)
    requires Compatible(t0, src, tgt) && IsDir(t0, tgt) && Disjoint(src, tgt)
    requires c in rest && rest <= Children(t0, src)
    requires SameOutside(t0, t1, tgt) && Extends(t0, t1) && Pending(t0, t1, src, tgt, rest)
    ensures c in t1 && Compatible(t1, c, tgt + [c[|src|]]) && CanCreate(t1, tgt + [c[|src|]])
  {
    var n := c[|src|];
    var tc := tgt + [n];
    ChildPaths(t0, src, tgt, c);
    SameOutsideSpares(t0, t1, tgt, src);
    assert Parent(tc) == tgt;
    forall r | c + r in t1 && tc + r in t1 ensures (t1[c + r] == Dir <==> t1[tc + r] == Dir) {
      AppendWithin(c, r);
      AppendWithin(tc, r);
      SameWithinNarrow(t0, t1, src, c);
      PathAssoc(src, [n], r);
      PathAssoc(tgt, [n], r);
      assert src + ([n] + r) in t0 && tgt + ([n] + r) in t0;
    }
  }

  /** Copying one child leaves the targets of the other pending children
      untouched. */
  lemma StepPending(t0: Tree, tb: Tree, ta: Tree, src: Path, tgt: Path, rest: set<Path>, c: Path)
    requires Pending(t0, tb, src, tgt, rest) && c in rest && rest <= Children(t0, src)
    requires SameOutside(tb, ta, tgt + [c[|src|]])
    ensures Pending(t0, ta, src, tgt, rest - {c})
  {
    forall c' | c' in rest - {c} && |src| < |c'| ensures SameWithin(t0, ta, tgt + [c'[|src|]]) {
      assert c == c[..|src|] + [c[|src|]] && c' == c'[..|src|] + [c'[|src|]];
      forall q | Within(q, tgt + [c'[|src|]]) ensures !Within(q, tgt + [c[|src|]]) {
        SiblingsDisjoint(q, tgt, c'[|src|], c[|src|]);
      }
    }
  }

  /** A copy confined to one target leaves the mirror of a sibling intact. */
  lemma MirroredKept(t0: Tree, tb: Tree, ta: Tree, c: Path, tgt: Path, m: string, n: string)
    requires Mirrored(t0, tb, c, tgt + [m]) && SameOutside(tb, ta, tgt + [n]) && m != n
    ensures Mirrored(t0, ta, c, tgt + [m])
  {
    forall r | c + r in t0 ensures tgt + [m] + r in ta && ta[tgt + [m] + r] == t0[c + r] {
      AppendWithin(tgt + [m], r);
      SiblingsDisjoint(tgt + [m] + r, tgt, m, n);
    }
  }

  /** A mirror made from tb counts from t0 when the source side of the two
      agrees. */
  lemma MirroredRebase(t0: Tree, tb: Tree, ta: Tree, c: Path, tc: Path)
    requires Mirrored(tb, ta, c, tc) && SameWithin(t0, tb, c)
    ensures Mirrored(t0, ta, c, tc)
  {
    forall r | c + r in t0 ensures tc + r in ta && ta[tc + r] == t0[c + r] {
      AppendWithin(c, r);
    }
  }

  lemma StepDone(t0: Tree, tb: Tree, ta: Tree, src: Path, tgt: Path, rest: set<Path>, c: Path)
    requires Done(t0, tb, src, tgt, rest) && c in rest && rest <= Children(t0, src)
    requires SameWithin(t0, tb, src) && Disjoint(src, tgt)
    requires SameOutside(tb, ta, tgt + [c[|src|]]) && Mirrored(tb, ta, c, tgt + [c[|src|]])
    ensures Done(t0, ta, src, tgt, rest - {c})
  {
    ChildPaths(t0, src, tgt, c);
    SameWithinNarrow(t0, tb, src, c);
    MirroredRebase(t0, tb, ta, c, tgt + [c[|src|]]);
    forall c' | c' in Children(t0, src) && c' !in rest - {c} && c' != c
      ensures Mirrored(t0, ta, c', tgt + [c'[|src|]])
    {
      ChildPaths(t0, src, tgt, c');
      MirroredKept(t0, tb, ta, c', tgt, c'[|src|], c[|src|]);
    }
  }

  /** Once every child is mirrored and tgt is a directory, the whole of src
      is mirrored. */
  lemma DoneAll(t0: Tree, t1: Tree, src: Path, tgt: Path)
    requires WellFormed(t0) && IsDir(t0, src) && IsDir(t1, tgt)
    requires Done(t0, t1, src, tgt, {})
    ensures Mirrored(t0, t1, src, tgt)
  {
    forall r | src + r in t0 ensures tgt + r in t1 && t1[tgt + r] == t0[src + r] {
      if r == [] {
        assert src + r == src && tgt + r == tgt;
      } else {
        var n := r[0];
        var c := src + [n];
        ValidAncestor(t0, src + r, |src| + 1);
        assert (src + r)[..|src| + 1] == c;
        assert c in Children(t0, src);
        assert r == [n] + r[1..];
        PathAssoc(src, [n], r[1..]);
        PathAssoc(tgt, [n], r[1..]);
      }
    }
  }

  /** The target folder step of copyDirectory: a missing tgt is created
      (and `t1` is the tree after it). The step meets every promise of the
      copy for the target itself, and it readies tgt for the children. */
  lemma TargetReady(t0: Tree, t1: Tree, src: Path, tgt: Path)
    requires WellFormed(t0) && IsDir(t0, src) && Disjoint(src, tgt)
    requires if tgt in t0 then t1 == t0 else t1 == t0[tgt := Dir]
    ensures SameOutside(t0, t1, tgt) && Extends(t0, t1) && FromSource(t0, t1, src, tgt)
    ensures SameWithin(t0, t1, src)
    ensures Compatible(t0, src, tgt) ==> Compatible(t1, src, tgt) && IsDir(t1, tgt)
  {
    assert src + [] == src && tgt + [] == tgt;
    forall r | tgt + r in t1 && (tgt + r !in t0 || t1[tgt + r] != t0[tgt + r])
      ensures src + r in t0 && t1[tgt + r] == t0[src + r]
    {
      assert r == [];
    }
    if tgt !in t0 {
      NothingBeneath(t0, tgt);
      forall r | src + r in t1 && tgt + r in t1 ensures r == [] {
        if r != [] {
          AppendWithin(tgt, r);
        }
      }
    }
  }

  /** The recursion measure: the subtree of a child of src, taken in a
      tree whose src side is that of t0, is smaller than the subtree of src
      in t0. */
  lemma SubtreeSmaller(t0: Tree, t1: Tree, src: Path, c: Path)
    requires SameWithin(t0, t1, src) && src in t0 && Under(c, src)
    ensures |Subtree(t1, c)| < |Subtree(t0, src)|
  {
    var a := Subtree(t1, c);
    var b := Subtree(t0, src);
    forall q | q in a ensures q in b {
      if Under(q, c) {
        assert q[..|c|][..|src|] == q[..|src|];
      }
    }
    assert src in b && src !in a;
    StrictSubsetSmaller(a, b);
  }

  /** `copy`: a directory is copied by copyDirectory, anything else by
      copyFile; `ok` is false when an IOException ends the copy. The source
      and target subtrees must be disjoint (a target inside the source would
      be copied into itself without end). Only the target's subtree
      changes, nothing is removed and no directory is replaced, every new or
      changed path holds what the corresponding source path holds, and when
      src exists, kinds agree wherever source and target paths meet, and the
      target can be created, the copy succeeds and mirrors the source. */
  method Copy(fs: FileSystem, src: Path, tgt: Path) returns (ok: bool)
    requires fs.Valid() && Disjoint(src, tgt)
    modifies fs
    ensures fs.Valid()
    ensures SameOutside(old(fs.tree), fs.tree, tgt)
    ensures Extends(old(fs.tree), fs.tree)
    ensures FromSource(old(fs.tree), fs.tree, src, tgt)
    ensures src in old(fs.tree) && Compatible(old(fs.tree), src, tgt) && CanCreate(old(fs.tree), tgt) ==>
              ok && Mirrored(old(fs.tree), fs.tree, src, tgt)
    decreases |Subtree(fs.tree, src)|, 2
  {
    if fs.IsDirectory(src) {
      ok := CopyDirectory(fs, src, tgt);
    } else {
      CopyFileEffect(fs.tree, src, tgt);
      ok := CopyFile(fs, src, tgt);
    }
  }

  /** The state of the copyDirectory loop, with t1 the tree once tgt is in
      place and `rest` the children still to copy: the changes so far are
      those of a copy into tgt, the pending targets are untouched, and when
      tgt was ready for src (`good`) every copied child is mirrored. */
  ghost predicate Progress(t1: Tree, t: Tree, src: Path, tgt: Path, rest: set<Path>, good: bool, ok: bool) {
    && rest <= Children(t1, src)
    && SameOutside(t1, t, tgt) && Extends(t1, t) && FromSource(t1, t, src, tgt)
    && Pending(t1, t, src, tgt, rest)
    && (good ==> ok && Done(t1, t, src, tgt, rest))
  }

  /** What a loop step needs before it copies the child c. */
  lemma BeforeChild(t0: Tree, t1: Tree, tb: Tree, src: Path, tgt: Path, rest: set<Path>, c: Path, good: bool)
    requires src in t0 && SameWithin(t0, t1, src) && Disjoint(src, tgt)
    requires good ==> Compatible(t1, src, tgt) && IsDir(t1, tgt)
    requires c in rest && Progress(t1, tb, src, tgt, rest, good, true)
    ensures c == src + [c[|src|]] && Disjoint(c, tgt + [c[|src|]])
    ensures |Subtree(tb, c)| < |Subtree(t0, src)|
    ensures good ==> c in tb && Compatible(tb, c, tgt + [c[|src|]]) && CanCreate(tb, tgt + [c[|src|]])
  {
    ChildPaths(t1, src, tgt, c);
    SameOutsideSpares(t1, tb, tgt, src);
    SameWithinTrans(t0, t1, tb, src);
    SubtreeSmaller(t0, tb, src, c);
    if good {
      ChildReady(t1, tb, src, tgt, rest, c);
    }
  }

  /** A loop step that copied the child c keeps the loop state. */
  lemma AfterChild(t1: Tree, tb: Tree, ta: Tree, src: Path, tgt: Path, rest: set<Path>, c: Path, good: bool, ok: bool)
    requires Disjoint(src, tgt) && c in rest && Progress(t1, tb, src, tgt, rest, good, true)
    requires c == src + [c[|src|]]
    requires var tc := tgt + [c[|src|]];
             && SameOutside(tb, ta, tc) && Extends(tb, ta) && FromSource(tb, ta, c, tc)
             && (good ==> ok && Mirrored(tb, ta, c, tc))
    ensures Progress(t1, ta, src, tgt, rest - {c}, good, ok)
  {
    var tc := tgt + [c[|src|]];
    ChildPaths(t1, src, tgt, c);
    SameOutsideSpares(t1, tb, tgt, src);
    SameOutsideTrans(t1, tb, ta, tgt, tc);
    ExtendsTrans(t1, tb, ta);
    FromSourceLift(tb, ta, src, tgt, c[|src|]);
    FromSourceTrans(t1, tb, ta, src, tgt);
    StepPending(t1, tb, ta, src, tgt, rest, c);
    if good {
      StepDone(t1, tb, ta, src, tgt, rest, c);
    }
  }

  /** `copyDirectory`: a missing target is created first (when that fails
      the copy ends without an error and nothing is copied); then every
      child of src is copied to the same name beneath tgt, in no particular
      order, until one fails. */
  method CopyDirectory(fs: FileSystem, src: Path, tgt: Path) returns (ok: bool)
    requires fs.Valid() && IsDir(fs.tree, src) && Disjoint(src, tgt)
    modifies fs
    ensures fs.Valid()
    ensures SameOutside(old(fs.tree), fs.tree, tgt)
    ensures Extends(old(fs.tree), fs.tree)
    ensures FromSource(old(fs.tree), fs.tree, src, tgt)
    ensures Compatible(old(fs.tree), src, tgt) && CanCreate(old(fs.tree), tgt) ==>
              ok && Mirrored(old(fs.tree), fs.tree, src, tgt)
    ensures tgt !in old(fs.tree) && !MkdirT(old(fs.tree), tgt).1 ==> ok && fs.tree == old(fs.tree)
    decreases |Subtree(fs.tree, src)|, 1
  {
    ghost var t0 := fs.tree;
    if !fs.Exists(tgt) {
      var made := fs.Mkdir(tgt);
      if !made {
        return true;
      }
    }
    ghost var t1 := fs.tree;
    TargetReady(t0, t1, src, tgt);
    ghost var good := Compatible(t1, src, tgt) && IsDir(t1, tgt);
    ok := CopyChildren(fs, src, tgt, t0, good);
    SameOutsideTrans(t0, t1, fs.tree, tgt, tgt);
    ExtendsTrans(t0, t1, fs.tree);
    FromSourceTrans(t0, t1, fs.tree, src, tgt);
    if good {
      DoneAll(t1, fs.tree, src, tgt);
      MirroredRebase(t0, t1, fs.tree, src, tgt);
    }
  }

  /** The loop of copyDirectory over `source.list()`, once tgt is in place;
      t0 is the tree the directory copy started from, and `good` says that
      tgt was ready for src. */
  method CopyChildren(fs: FileSystem, src: Path, tgt: Path, ghost t0: Tree, ghost good: bool) returns (ok: bool)
    requires fs.Valid() && IsDir(fs.tree, src) && Disjoint(src, tgt)
    requires src in t0 && SameWithin(t0, fs.tree, src)
    requires good ==> Compatible(fs.tree, src, tgt) && IsDir(fs.tree, tgt)
    modifies fs
    ensures fs.Valid()
    ensures SameOutside(old(fs.tree), fs.tree, tgt) && Extends(old(fs.tree), fs.tree)
    ensures FromSource(old(fs.tree), fs.tree, src, tgt)
    ensures good ==> ok && Done(old(fs.tree), fs.tree, src, tgt, {})
    decreases |Subtree(t0, src)|, 0
  {
    ghost var t1 := fs.tree;
    var kids := fs.List(src);
    var rest := kids.value;
    ok := true;
    while ok && rest != {}
      invariant fs.Valid()
      invariant Progress(t1, fs.tree, src, tgt, rest, good, ok)
      decreases rest
    {
      var c :| c in rest;
      ghost var tb := fs.tree;
      BeforeChild(t0, t1, tb, src, tgt, rest, c, good);
      ok := Copy(fs, c, tgt + [c[|src|]]);
      AfterChild(t1, tb, fs.tree, src, tgt, rest, c, good, ok);
      rest := rest - {c};
    }
  }
}
