/**
 * An abstract filesystem: a finite map from paths (sequences of name
 * segments, the root being the empty path) to nodes, and the java.io.File
 * operations the report and configuration code relies on.
 *
 * Each operation is first given as a function of the tree that returns the
 * new tree and the boolean the Java call returns; the `FileSystem` class
 * holds the mutable tree and its methods are proved to behave as those
 * functions say.
 */
module FileSystem {
  import opened Text

  type Path = seq<string>

  datatype Node = Dir | File(content: string)

  type Tree = map<Path, Node>

  function Parent(p: Path): Path
    requires p != []
  {
    p[..|p| - 1]
  }

  /** q lies strictly beneath p. */
  predicate Under(q: Path, p: Path) {
    |p| < |q| && q[..|p|] == p
  }

  /** q is p or lies beneath it. */
  predicate Within(q: Path, p: Path) {
    q == p || Under(q, p)
  }

  predicate IsDir(t: Tree, p: Path) {
    p in t && t[p] == Dir
  }

  predicate IsFile(t: Tree, p: Path) {
    p in t && t[p].File?
  }

  /** The root is a directory and every other path hangs from a directory. */
  ghost predicate WellFormed(t: Tree) {
    IsDir(t, []) && forall p :: p in t && p != [] ==> IsDir(t, Parent(p))
  }

  predicate HasChildren(t: Tree, p: Path) {
    exists q :: q in t && Under(q, p)
  }

  /** `File.mkdir`: succeeds only for a missing path whose parent is a directory. */
  function MkdirT(t: Tree, p: Path): (Tree, bool) {
    if p !in t && p != [] && IsDir(t, Parent(p)) then (t[p := Dir], true) else (t, false)
  }

  /** `File.delete`: removes a file or an empty directory, never the root. */
  function DeleteT(t: Tree, p: Path): (Tree, bool) {
    if p in t && p != [] && (t[p].File? || !HasChildren(t, p)) then (t - {p}, true) else (t, false)
  }

  /** Opening a `FileOutputStream` (or `PrintWriter`) on p and writing c:
      creates or truncates a file whose parent is a directory; fails on a
      directory or when the parent is missing. */
  function WriteT(t: Tree, p: Path, c: string): (Tree, bool) {
    if p != [] && IsDir(t, Parent(p)) && !IsDir(t, p) then (t[p := File(c)], true) else (t, false)
  }

  /** `File.createNewFile` on a missing path: creates an empty file when the
      parent is a directory; `false` stands for the IOException it throws
      otherwise. */
  function CreateNewFileT(t: Tree, p: Path): (Tree, bool) {
    if p !in t && p != [] && IsDir(t, Parent(p)) then (t[p := File("")], true) else (t, false)
  }

  /** `write` on an open `FileOutputStream`: appends c to the file at p. */
  function AppendT(t: Tree, p: Path, c: string): (Tree, bool) {
    if IsFile(t, p) then (t[p := File(t[p].content + c)], true) else (t, false)
  }

  /** `File.renameTo` on a file, with the POSIX rule that an existing
      file at the destination is replaced. */
  function RenameT(t: Tree, src: Path, dst: Path): (Tree, bool) {
    if IsFile(t, src) && dst != [] && IsDir(t, Parent(dst)) && !IsDir(t, dst)
    then ((t - {src})[dst := t[src]], true)
    else (t, false)
  }

  /** `File.mkdirs`: create p and whatever ancestors are missing. */
  function MkdirsT(t: Tree, p: Path): (Tree, bool)
    decreases |p|
  {
    if p in t || p == [] then (t, false)
    else if MkdirT(t, p).1 then MkdirT(t, p)
    else
      var (t1, ok1) := MkdirsT(t, Parent(p));
      if ok1 || Parent(p) in t1 then MkdirT(t1, p) else (t1, false)
  }

  lemma MkdirWellFormed(t: Tree, p: Path)
    requires WellFormed(t)
    ensures WellFormed(MkdirT(t, p).0)
  {
  }

  lemma DeleteWellFormed(t: Tree, p: Path)
    requires WellFormed(t)
    ensures WellFormed(DeleteT(t, p).0)
  {
    var (t', ok) := DeleteT(t, p);
    if ok {
      forall q | q in t' && q != [] ensures IsDir(t', Parent(q)) {
        if Parent(q) == p {
          assert Under(q, p);
        }
      }
    }
  }

  lemma WriteWellFormed(t: Tree, p: Path, c: string)
    requires WellFormed(t)
    ensures WellFormed(WriteT(t, p, c).0)
  {
    var (t', ok) := WriteT(t, p, c);
    if ok {
      forall q | q in t' && q != [] ensures IsDir(t', Parent(q)) {
        assert IsDir(t, Parent(q));
      }
    }
  }

  lemma AppendWellFormed(t: Tree, p: Path, c: string)
    requires WellFormed(t)
    ensures WellFormed(AppendT(t, p, c).0)
  {
    var (t', ok) := AppendT(t, p, c);
    if ok {
      forall q | q in t' && q != [] ensures IsDir(t', Parent(q)) {
        assert IsDir(t, Parent(q));
      }
    }
  }

  lemma RenameWellFormed(t: Tree, src: Path, dst: Path)
    requires WellFormed(t)
    ensures WellFormed(RenameT(t, src, dst).0)
  {
    var (t', ok) := RenameT(t, src, dst);
    if ok {
      forall q | q in t' && q != [] ensures IsDir(t', Parent(q)) {
        assert IsDir(t, Parent(q));
      }
    }
  }

  /** p can be made a directory by a single `mkdir` (or already exists):
      it is there, or its parent is a directory. */
  ghost predicate CanCreate(t: Tree, p: Path) {
    p in t || (p != [] && IsDir(t, Parent(p)))
  }

  /** No proper-or-improper prefix of p is a file. */
  ghost predicate NoFileOnWay(t: Tree, p: Path) {
    forall k :: 0 <= k <= |p| ==> !IsFile(t, p[..k])
  }

  /** `mkdirs` only ever adds directories, and only on the way to p; it
      reports success only when p was missing. */
  lemma {:induction false} MkdirsKeeps(t: Tree, p: Path)
    ensures forall q :: q in t ==> q in MkdirsT(t, p).0 && MkdirsT(t, p).0[q] == t[q]
    ensures forall q :: q in MkdirsT(t, p).0 && q !in t ==> Within(p, q) && MkdirsT(t, p).0[q] == Dir
    ensures MkdirsT(t, p).1 ==> p !in t
    decreases |p|
  {
    if p !in t && p != [] && !MkdirT(t, p).1 {
      var t1 := MkdirsT(t, Parent(p)).0;
      MkdirsKeeps(t, Parent(p));
      forall q | q in MkdirsT(t, p).0 && q !in t ensures Within(p, q) {
        if q in t1 {
          assert Within(Parent(p), q);
        }
      }
    }
  }

  lemma {:induction false} MkdirsWellFormed(t: Tree, p: Path)
    requires WellFormed(t)
    ensures WellFormed(MkdirsT(t, p).0)
    decreases |p|
  {
    if p !in t && p != [] && !MkdirT(t, p).1 {
      MkdirsWellFormed(t, Parent(p));
      MkdirWellFormed(MkdirsT(t, Parent(p)).0, p);
    }
  }

  /** When no file blocks the way, p is a directory after `mkdirs`. */
  lemma {:induction false} MkdirsReaches(t: Tree, p: Path)
    requires WellFormed(t) && NoFileOnWay(t, p)
    ensures IsDir(MkdirsT(t, p).0, p)
    decreases |p|
  {
    if p in t {
      assert p[..|p|] == p;
    } else if p == [] {
    } else if !MkdirT(t, p).1 {
      var t1 := MkdirsT(t, Parent(p)).0;
      forall k | 0 <= k <= |Parent(p)| ensures !IsFile(t, Parent(p)[..k]) {
        assert Parent(p)[..k] == p[..k];
      }
      MkdirsReaches(t, Parent(p));
      MkdirsKeeps(t, Parent(p));
      assert !Within(Parent(p), p);
    }
  }

  /** In a well-formed tree every prefix of an existing path exists. */
  lemma {:induction false} ValidAncestor(t: Tree, q: Path, k: nat)
    requires WellFormed(t) && q in t && k <= |q|
    ensures q[..k] in t
    decreases |q| - k
  {
    if k < |q| {
      ValidAncestor(t, q, k + 1);
      assert Parent(q[..k + 1]) == q[..k];
    } else {
      assert q[..k] == q;
    }
  }

  /** In a well-formed tree every proper prefix of an existing path is a
      directory. */
  lemma AncestorDir(t: Tree, q: Path, k: nat)
    requires WellFormed(t) && q in t && k < |q|
    ensures IsDir(t, q[..k])
  {
    ValidAncestor(t, q, k + 1);
    assert Parent(q[..k + 1]) == q[..k];
  }

  /** The direct children of p. */
  function Children(t: Tree, p: Path): set<Path> {
    set q | q in t && |q| == |p| + 1 && q[..|p|] == p
  }

  /** A strict subset is smaller. */
  lemma StrictSubsetSmaller<T>(a: set<T>, b: set<T>)
    requires a < b
    ensures |a| < |b|
  {
    var x :| x in b && x !in a;
    var c := b - {x};
    assert a <= c;
    assert b == c + {x};
    SubsetNoLarger(a, c);
  }
  lemma {:induction false} SubsetNoLarger<T>(a: set<T>, b: set<T>)
    requires a <= b
    ensures |a| <= |b|
    decreases |b|
  {
    if a != {} {
      var x :| x in a;
      SubsetNoLarger(a - {x}, b - {x});
    }
  }

  /** The filesystem as mutable state. */
  class FileSystem {
    var tree: Tree

    ghost predicate Valid()
      reads this
    {
      WellFormed(tree)
    }

    constructor (t: Tree)
      requires WellFormed(t)
      ensures Valid() && tree == t
    {
      tree := t;
    }

    predicate Exists(p: Path)
      reads this
    {
      p in tree
    }

    predicate IsDirectory(p: Path)
      reads this
    {
      IsDir(tree, p)
    }

    /** Reading a whole file; `None` when p is missing or a directory
        (the `FileNotFoundException` of a `FileInputStream`). */
    method Read(p: Path) returns (r: Option<string>)
      ensures r.Some? <==> IsFile(tree, p)
      ensures r.Some? ==> tree[p] == File(r.value)
    {
      if p in tree && tree[p].File? {
        r := Some(tree[p].content);
      } else {
        r := None;
      }
    }

    /** `File.listFiles`: the children of a directory, in no particular
        order; `None` (null) when p is not a directory. */
    method List(p: Path) returns (r: Option<set<Path>>)
      ensures r == if IsDir(tree, p) then Some(Children(tree, p)) else None
    {
      if IsDir(tree, p) {
        r := Some(Children(tree, p));
      } else {
        r := None;
      }
    }

    method Mkdir(p: Path) returns (ok: bool)
      requires Valid()
      modifies this
      ensures Valid()
      ensures (tree, ok) == MkdirT(old(tree), p)
    {
      MkdirWellFormed(tree, p);
      if p !in tree && p != [] && IsDir(tree, Parent(p)) {
        tree := tree[p := Dir];
        ok := true;
      } else {
        ok := false;
      }
    }

    method Mkdirs(p: Path) returns (ok: bool)
      requires Valid()
      modifies this
      ensures Valid()
      ensures (tree, ok) == MkdirsT(old(tree), p)
      decreases |p|
    {
      MkdirsWellFormed(tree, p);
      if p in tree || p == [] {
        return false;
      }
      ok := Mkdir(p);
      if ok {
        return;
      }
      var up := Mkdirs(Parent(p));
      if up || Exists(Parent(p)) {
        ok := Mkdir(p);
      } else {
        ok := false;
      }
    }

    method Delete(p: Path) returns (ok: bool)
      requires Valid()
      modifies this
      ensures Valid()
      ensures (tree, ok) == DeleteT(old(tree), p)
    {
      DeleteWellFormed(tree, p);
      if p in tree && p != [] && (tree[p].File? || !HasChildren(tree, p)) {
        tree := tree - {p};
        ok := true;
      } else {
        ok := false;
      }
    }

    method Write(p: Path, c: string) returns (ok: bool)
      requires Valid()
      modifies this
      ensures Valid()
      ensures (tree, ok) == WriteT(old(tree), p, c)
    {
      WriteWellFormed(tree, p, c);
      if p != [] && IsDir(tree, Parent(p)) && !IsDir(tree, p) {
        tree := tree[p := File(c)];
        ok := true;
      } else {
        ok := false;
      }
    }

    method CreateNewFile(p: Path) returns (ok: bool)
      requires Valid()
      modifies this
      ensures Valid()
      ensures (tree, ok) == CreateNewFileT(old(tree), p)
    {
      if p !in tree && p != [] && IsDir(tree, Parent(p)) {
        tree := tree[p := File("")];
        ok := true;
      } else {
        ok := false;
      }
    }

    method Append(p: Path, c: string) returns (ok: bool)
      requires Valid()
      modifies this
      ensures Valid()
      ensures (tree, ok) == AppendT(old(tree), p, c)
    {
      AppendWellFormed(tree, p, c);
      if IsFile(tree, p) {
        tree := tree[p := File(tree[p].content + c)];
        ok := true;
      } else {
        ok := false;
      }
    }

    method Rename(src: Path, dst: Path) returns (ok: bool)
      requires Valid()
      modifies this
      ensures Valid()
      ensures (tree, ok) == RenameT(old(tree), src, dst)
    {
      RenameWellFormed(tree, src, dst);
      if IsFile(tree, src) && dst != [] && IsDir(tree, Parent(dst)) && !IsDir(tree, dst) {
        tree := (tree - {src})[dst := tree[src]];
        ok := true;
      } else {
        ok := false;
      }
    }
  }
}
