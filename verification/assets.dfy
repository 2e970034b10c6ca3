/**
 * Staging of the HTML assets next to a summary report (`copyHtmlFolder`):
 * the `html` folder beside the report is created, then filled either from
 * the asset tree of a development checkout or, when that is not on disk,
 * from the fixed manifest of bundled resources.
 */
module Assets {
  import opened Text
  import opened FileSystem
  import opened TreeOps
  import opened CopyOps

  /** How the staging of the bundled assets ends: normally, with an
      IOException (caught inside copyHtmlFolder), or with an unchecked
      exception that escapes to the caller (a resource missing from the
      bundle makes its stream null). */
  datatype Staging = Staged | IoAborted | Unchecked

  /** The asset folders, relative to the report folder, created before any
      asset file is written. */
  const AssetFolders: seq<Path> := [["html", "js"], ["html", "img"], ["html", "fonts"], ["html", "css"]]

  const ScriptNames: seq<string> := ["bootstrap.min.js", "jquery-1.9.1.min.js", "jquery.flot.pie.min.js", "jquery.flot.min.js"]

  const ImageNames: seq<string> := ["noise.jpg", "logo.png", "logo - copia.png", "check_radio_sheet.png"]

  const FontNames: seq<string> := [
    "fontawesome-webfont.woff2", "fontawesome-webfont.woff", "fontawesome-webfont.ttf",
    "fontawesome-webfont.svg", "fontawesome-webfont.eot",
    "fontello.woff2", "fontello.woff", "fontello.ttf", "fontello.svg", "fontello.eot",
    "FontAwesome.otf", "Roboto-Bold.ttf"]

  const StyleNames: seq<string> := ["font-awesome.css", "default.css", "bootstrap.css", "fontello.css"]

  /** The files `names` inside `folder`. */
  function InFolder(folder: Path, names: seq<string>): (r: seq<Path>)
    ensures |r| == |names|
    ensures forall i :: 0 <= i < |names| ==> r[i] == folder + [names[i]]
  {
    if names == [] then [] else InFolder(folder, names[..|names| - 1]) + [folder + [names[|names| - 1]]]
  }

  /** The bundled asset files, relative to the report folder, in the order
      they are copied; a resource is looked up by the same relative path. */
  const AssetFiles: seq<Path> :=
    InFolder(AssetFolders[0], ScriptNames) + InFolder(AssetFolders[1], ImageNames) +
    InFolder(AssetFolders[2], FontNames) + InFolder(AssetFolders[3], StyleNames)

  /** Every asset file sits directly in one of the asset folders: four
      scripts, four images, twelve fonts and four style sheets, in that
      order. */
  lemma ManifestShape()
    ensures |AssetFiles| == 24 && |AssetFolders| == 4
    ensures forall i :: 0 <= i < 4 ==> AssetFiles[i] == AssetFolders[0] + [ScriptNames[i]]
    ensures forall i :: 4 <= i < 8 ==> AssetFiles[i] == AssetFolders[1] + [ImageNames[i - 4]]
    ensures forall i :: 8 <= i < 20 ==> AssetFiles[i] == AssetFolders[2] + [FontNames[i - 8]]
    ensures forall i :: 20 <= i < 24 ==> AssetFiles[i] == AssetFolders[3] + [StyleNames[i - 20]]
  {
  }

  // ---------------------------------------------------------------------
  // The asset folders

  /** `if (!item.exists()) item.mkdirs()` for each folder beneath base. */
  function EnsureFoldersT(t: Tree, base: Path, folders: seq<Path>): Tree
    decreases |folders|
  {
    if folders == [] then t
    else
      var p := base + folders[0];
      EnsureFoldersT(if p in t then t else MkdirsT(t, p).0, base, folders[1..])
  }

  method EnsureFolders(fs: FileSystem, base: Path, folders: seq<Path>)
    requires fs.Valid()
    modifies fs
    ensures fs.Valid()
    ensures fs.tree == EnsureFoldersT(old(fs.tree), base, folders)
  {
    var i := 0;
    while i < |folders|
      invariant fs.Valid()
      invariant 0 <= i <= |folders|
      invariant EnsureFoldersT(old(fs.tree), base, folders) == EnsureFoldersT(fs.tree, base, folders[i..])
    {
      assert folders[i..][1..] == folders[i + 1..];
      var p := base + folders[i];
      if !fs.Exists(p) {
        var _ := fs.Mkdirs(p);
      }
      i := i + 1;
    }
  }

  /** Once the folders are ensured, each of them is a directory, provided
      no file stood on the way to any of them. Nothing existing is lost. */
  lemma {:induction false} FoldersReady(t: Tree, base: Path, folders: seq<Path>)
    requires WellFormed(t)
    requires forall i :: 0 <= i < |folders| ==> NoFileOnWay(t, base + folders[i])
    ensures WellFormed(EnsureFoldersT(t, base, folders))
    ensures forall i :: 0 <= i < |folders| ==> IsDir(EnsureFoldersT(t, base, folders), base + folders[i])
    decreases |folders|
  {
    if folders != [] {
      var p := base + folders[0];
      var t1 := if p in t then t else MkdirsT(t, p).0;
      if p !in t {
        MkdirsKeeps(t, p);
        MkdirsWellFormed(t, p);
        MkdirsReaches(t, p);
      } else {
        assert p[..|p|] == p;
      }
      forall i | 0 <= i < |folders[1..]| ensures NoFileOnWay(t1, base + folders[1..][i]) {
        assert NoFileOnWay(t, base + folders[i + 1]);
      }
      FoldersReady(t1, base, folders[1..]);
      var t2 := EnsureFoldersT(t1, base, folders[1..]);
      FoldersKeep(t1, base, folders[1..]);
      forall i | 0 <= i < |folders| ensures IsDir(t2, base + folders[i]) {
        if i > 0 {
          assert folders[i] == folders[1..][i - 1];
        }
      }
    }
  }

  /** Ensuring the folders keeps every existing node. */
  lemma {:induction false} FoldersKeep(t: Tree, base: Path, folders: seq<Path>)
    ensures forall q :: q in t ==> q in EnsureFoldersT(t, base, folders) && EnsureFoldersT(t, base, folders)[q] == t[q]
    decreases |folders|
  {
    if folders != [] {
      var p := base + folders[0];
      var t1 := if p in t then t else MkdirsT(t, p).0;
      if p !in t {
        MkdirsKeeps(t, p);
      }
      FoldersKeep(t1, base, folders[1..]);
    }
  }

  /** What ensuring the folders adds is a directory on the way to one of
      the folders beneath base, so inside `inside` when base lies there and
      `inside` already exists. */
  lemma {:induction false} FoldersInside(t: Tree, base: Path, folders: seq<Path>, inside: Path)
    requires WellFormed(t) && inside in t && Within(base, inside)
    ensures forall q :: q in EnsureFoldersT(t, base, folders) && q !in t ==>
              Under(q, inside) && EnsureFoldersT(t, base, folders)[q] == Dir
    decreases |folders|
  {
    if folders != [] {
      var p := base + folders[0];
      var t1 := if p in t then t else MkdirsT(t, p).0;
      if p !in t {
        MkdirsKeeps(t, p);
        MkdirsWellFormed(t, p);
        AppendWithinAt(base, folders[0], inside);
        MkdirsInside(t, p, inside);
      }
      FoldersInside(t1, base, folders[1..], inside);
      FoldersKeep(t1, base, folders[1..]);
    }
  }

  lemma AppendWithinAt(base: Path, f: Path, inside: Path)
    requires Within(base, inside)
    ensures Within(base + f, inside)
  {
    AppendWithin(base, f);
    if Under(base, inside) {
      assert (base + f)[..|inside|] == base[..|inside|];
    }
  }

  /** `mkdirs` of a path beneath an existing folder adds nothing outside it. */
  lemma MkdirsInside(t: Tree, p: Path, inside: Path)
    requires WellFormed(t) && inside in t && Within(p, inside)
    ensures forall q :: q in MkdirsT(t, p).0 && q !in t ==> Under(q, inside)
  {
    MkdirsKeeps(t, p);
    forall q | q in MkdirsT(t, p).0 && q !in t ensures Under(q, inside) {
      assert Within(p, q);
      if |q| <= |inside| {
        assert q == inside[..|q|] by {
          assert p[..|inside|] == inside || p == inside;
        }
        ValidAncestor(t, inside, |q|);
      }
      assert q[..|inside|] == p[..|inside|];
    }
  }

  // ---------------------------------------------------------------------
  // The asset files

  /** One asset: a missing file is created with `createNewFile`, the file is
      opened for writing (which truncates it), and the resource is written.
      A null resource stream fails only after the file is open. */
  function StageAssetT(t: Tree, p: Path, resource: Option<string>): (Tree, Staging) {
    var (t1, created) := if p in t then (t, true) else CreateNewFileT(t, p);
    if !created then (t, IoAborted)
    else
      var (t2, truncated) := WriteT(t1, p, "");
      if !truncated then (t1, IoAborted)
      else if resource.None? then (t2, Unchecked)
      else (AppendT(t2, p, resource.value).0, Staged)
  }

  function Resource(resources: map<Path, string>, f: Path): Option<string> {
    if f in resources then Some(resources[f]) else None
  }

  /** The asset loop: the files in order, until one of them fails. */
  function StageAssetsT(t: Tree, base: Path, files: seq<Path>, resources: map<Path, string>): (Tree, Staging)
    decreases |files|
  {
    if files == [] then (t, Staged)
    else
      var (t1, o) := StageAssetT(t, base + files[0], Resource(resources, files[0]));
      if o != Staged then (t1, o) else StageAssetsT(t1, base, files[1..], resources)
  }

  method StageAsset(fs: FileSystem, p: Path, resource: Option<string>) returns (o: Staging)
    requires fs.Valid()
    modifies fs
    ensures fs.Valid()
    ensures (fs.tree, o) == StageAssetT(old(fs.tree), p, resource)
  {
    if !fs.Exists(p) {
      var created := fs.CreateNewFile(p);
      if !created {
        return IoAborted;
      }
    }
    var truncated := fs.Write(p, "");
    if !truncated {
      return IoAborted;
    }
    if resource.None? {
      return Unchecked;
    }
    var _ := fs.Append(p, resource.value);
    o := Staged;
  }

  method StageAssets(fs: FileSystem, base: Path, files: seq<Path>, resources: map<Path, string>) returns (o: Staging)
    requires fs.Valid()
    modifies fs
    ensures fs.Valid()
    ensures (fs.tree, o) == StageAssetsT(old(fs.tree), base, files, resources)
  {
    var i := 0;
    while i < |files|
      invariant fs.Valid()
      invariant 0 <= i <= |files|
      invariant StageAssetsT(old(fs.tree), base, files, resources) == StageAssetsT(fs.tree, base, files[i..], resources)
    {
      assert files[i..][1..] == files[i + 1..];
      o := StageAsset(fs, base + files[i], Resource(resources, files[i]));
      if o != Staged {
        return;
      }
      i := i + 1;
    }
    o := Staged;
  }

  /** Once an asset fails, the rest are not attempted: the whole loop ends
      as the loop over the files up to the failing one does. */
  lemma {:induction false} StageAbortStops(t: Tree, base: Path, files: seq<Path>, resources: map<Path, string>, k: nat)
    requires k <= |files| && StageAssetsT(t, base, files[..k], resources).1 != Staged
    ensures StageAssetsT(t, base, files, resources) == StageAssetsT(t, base, files[..k], resources)
    decreases k
  {
    assert k > 0;
    var (t1, o) := StageAssetT(t, base + files[0], Resource(resources, files[0]));
    assert files[..k][0] == files[0];
    if o == Staged {
      assert files[..k][1..] == files[1..][..k - 1];
      StageAbortStops(t1, base, files[1..], resources, k - 1);
    }
  }

  /** The paths the asset loop may write. */
  function Targets(base: Path, files: seq<Path>): set<Path> {
    set i | 0 <= i < |files| :: base + files[i]
  }

  lemma TargetsCons(base: Path, files: seq<Path>)
    requires files != []
    ensures Targets(base, files) == {base + files[0]} + Targets(base, files[1..])
  {
    forall q | q in Targets(base, files[1..]) ensures q in Targets(base, files) {
      var i :| 0 <= i < |files[1..]| && q == base + files[1..][i];
      assert q == base + files[i + 1];
    }
    forall q | q in Targets(base, files) ensures q == base + files[0] || q in Targets(base, files[1..]) {
      var i :| 0 <= i < |files| && q == base + files[i];
      if i > 0 {
        assert q == base + files[1..][i - 1];
      }
    }
  }

  /** t0 and t1 differ at most on the paths in s. */
  ghost predicate SameExcept(t0: Tree, t1: Tree, s: set<Path>) {
    forall q :: q !in s ==> (q in t1 <==> q in t0) && (q in t1 ==> t1[q] == t0[q])
  }

  /** One asset changes its own path only. */
  lemma StageAssetOnly(t: Tree, p: Path, resource: Option<string>)
    ensures SameExcept(t, StageAssetT(t, p, resource).0, {p})
  {
  }

  /** The asset loop changes nothing but its target paths. */
  lemma {:induction false} StageOnlyTargets(t: Tree, base: Path, files: seq<Path>, resources: map<Path, string>)
    ensures SameExcept(t, StageAssetsT(t, base, files, resources).0, Targets(base, files))
    decreases |files|
  {
    if files != [] {
      var (t1, o) := StageAssetT(t, base + files[0], Resource(resources, files[0]));
      StageAssetOnly(t, base + files[0], Resource(resources, files[0]));
      StageOnlyTargets(t1, base, files[1..], resources);
      TargetsCons(base, files);
    }
  }

  /** A writable asset ends up holding its resource. */
  lemma StageAssetWrites(t: Tree, p: Path, c: string)
    requires p != [] && IsDir(t, Parent(p)) && !IsDir(t, p)
    ensures StageAssetT(t, p, Some(c)) == (t[p := File(c)], Staged)
  {
    var t1 := if p in t then t else CreateNewFileT(t, p).0;
    assert t1 == t || t1 == t[p := File("")];
    UpdateTwice(t, p, File(""), File(""));
    UpdateTwice(t, p, File(""), File(c));
    assert "" + c == c;
  }

  /** What every asset needs to be written: its folder is a directory,
      nothing but a file sits at its path, and the bundle holds it. */
  ghost predicate Writable(t: Tree, base: Path, files: seq<Path>, resources: map<Path, string>) {
    forall i :: 0 <= i < |files| ==>
      |files[i]| > 0 && IsDir(t, Parent(base + files[i])) && !IsDir(t, base + files[i]) && files[i] in resources
  }

  predicate Distinct<T(==)>(xs: seq<T>) {
    forall i, j :: 0 <= i < j < |xs| ==> xs[i] != xs[j]
  }

  lemma AppendDistinct(base: Path, f: Path, g: Path)
    requires f != g
    ensures base + f != base + g
  {
    assert f == (base + f)[|base|..] && g == (base + g)[|base|..];
  }

  /** When every asset is writable, the loop runs to the end and each
      asset file holds its resource. */
  lemma {:induction false} StageAllWritten(t: Tree, base: Path, files: seq<Path>, resources: map<Path, string>)
    requires WellFormed(t) && Distinct(files) && Writable(t, base, files, resources)
    ensures StageAssetsT(t, base, files, resources).1 == Staged
    ensures forall i :: 0 <= i < |files| ==>
              base + files[i] in StageAssetsT(t, base, files, resources).0 &&
              StageAssetsT(t, base, files, resources).0[base + files[i]] == File(resources[files[i]])
    decreases |files|
  {
    if files != [] {
      var p := base + files[0];
      var (t1, o) := StageAssetT(t, p, Resource(resources, files[0]));
      assert p != [] by {
        assert |p| >= |files[0]| > 0;
      }
      StageAssetWrites(t, p, resources[files[0]]);
      forall i | 0 <= i < |files[1..]|
        ensures |files[1..][i]| > 0 && IsDir(t1, Parent(base + files[1..][i])) && !IsDir(t1, base + files[1..][i])
      {
        AppendDistinct(base, files[0], files[i + 1]);
        assert files[1..][i] == files[i + 1];
      }
      StageAllWritten(t1, base, files[1..], resources);
      var t2 := StageAssetsT(t1, base, files[1..], resources).0;
      StageOnlyTargets(t1, base, files[1..], resources);
      assert p !in Targets(base, files[1..]) by {
        forall i | 0 <= i < |files[1..]| ensures p != base + files[1..][i] {
          AppendDistinct(base, files[0], files[i + 1]);
        }
      }
      forall i | 0 <= i < |files| ensures base + files[i] in t2 && t2[base + files[i]] == File(resources[files[i]]) {
        if i > 0 {
          assert files[i] == files[1..][i - 1];
        }
      }
    }
  }

  /** No asset is listed twice. */
  lemma ManifestDistinct()
    ensures Distinct(AssetFiles)
  {
    var a := InFolder(AssetFolders[0], ScriptNames);
    var b := InFolder(AssetFolders[1], ImageNames);
    var c := InFolder(AssetFolders[2], FontNames);
    var d := InFolder(AssetFolders[3], StyleNames);
    NamesDistinct();
    InFolderDistinct(AssetFolders[0], ScriptNames);
    InFolderDistinct(AssetFolders[1], ImageNames);
    InFolderDistinct(AssetFolders[2], FontNames);
    InFolderDistinct(AssetFolders[3], StyleNames);
    FoldersApart(AssetFolders[0], AssetFolders[1], ScriptNames, ImageNames);
    FoldersApart(AssetFolders[0], AssetFolders[2], ScriptNames, FontNames);
    FoldersApart(AssetFolders[1], AssetFolders[2], ImageNames, FontNames);
    FoldersApart(AssetFolders[0], AssetFolders[3], ScriptNames, StyleNames);
    FoldersApart(AssetFolders[1], AssetFolders[3], ImageNames, StyleNames);
    FoldersApart(AssetFolders[2], AssetFolders[3], FontNames, StyleNames);
    DistinctConcat(a, b);
    ApartConcat(a, b, c);
    DistinctConcat(a + b, c);
    ApartConcat(a, b, d);
    ApartConcat(a + b, c, d);
    DistinctConcat(a + b + c, d);
  }

  /** No file name repeats within its folder. */
  lemma NamesDistinct()
    ensures Distinct(ScriptNames) && Distinct(ImageNames) && Distinct(FontNames) && Distinct(StyleNames)
  {
    ScriptNamesDistinct();
    ImageNamesDistinct();
    FontNamesDistinct();
    StyleNamesDistinct();
  }

  lemma ScriptNamesDistinct()
    ensures Distinct(ScriptNames)
  {
  }

  lemma ImageNamesDistinct()
    ensures Distinct(ImageNames)
  {
  }

  lemma FontNamesDistinct()
    ensures Distinct(FontNames)
  {
  }

  lemma StyleNamesDistinct()
    ensures Distinct(StyleNames)
  {
  }

  /** No element of a equals an element of b. */
  predicate Apart<T(==)>(a: seq<T>, b: seq<T>) {
    forall i, j :: 0 <= i < |a| && 0 <= j < |b| ==> a[i] != b[j]
  }

  lemma DistinctConcat<T>(a: seq<T>, b: seq<T>)
    requires Distinct(a) && Distinct(b) && Apart(a, b)
    ensures Distinct(a + b)
  {
  }

  lemma ApartConcat<T>(a: seq<T>, b: seq<T>, c: seq<T>)
    requires Apart(a, c) && Apart(b, c)
    ensures Apart(a + b, c)
  {
  }

  lemma InFolderDistinct(folder: Path, names: seq<string>)
    requires Distinct(names)
    ensures Distinct(InFolder(folder, names))
  {
    var r := InFolder(folder, names);
    forall i, j | 0 <= i < j < |r| ensures r[i] != r[j] {
      assert r[i][|folder|] == names[i] && r[j][|folder|] == names[j];
    }
  }

  /** Files in two different folders of the same depth are different. */
  lemma FoldersApart(f: Path, g: Path, m: seq<string>, n: seq<string>)
    requires f != g && |f| == |g|
    ensures Apart(InFolder(f, m), InFolder(g, n))
  {
    var a := InFolder(f, m);
    var b := InFolder(g, n);
    forall i, j | 0 <= i < |a| && 0 <= j < |b| ensures a[i] != b[j] {
      assert a[i][..|f|] == f && b[j][..|g|] == g;
    }
  }

  /** What ensuring the folders adds is no longer than the longest folder. */
  lemma {:induction false} FoldersShort(t: Tree, base: Path, folders: seq<Path>, n: nat)
    requires forall i :: 0 <= i < |folders| ==> |folders[i]| <= n
    ensures forall q :: q in EnsureFoldersT(t, base, folders) && q !in t ==> |q| <= |base| + n
    decreases |folders|
  {
    if folders != [] {
      var p := base + folders[0];
      var t1 := if p in t then t else MkdirsT(t, p).0;
      if p !in t {
        MkdirsKeeps(t, p);
      }
      FoldersShort(t1, base, folders[1..], n);
      FoldersKeep(t1, base, folders[1..]);
    }
  }

  lemma ParentAppend(base: Path, f: Path)
    requires |f| > 0
    ensures Parent(base + f) == base + Parent(f)
  {
  }

  /** The shape of the manifest: folders `html/<sub>`, files
      `html/<sub>/<name>` sitting in one of the folders. */
  predicate HtmlLayout(folders: seq<Path>, files: seq<Path>) {
    && (forall j :: 0 <= j < |folders| ==> |folders[j]| == 2 && folders[j][0] == "html")
    && (forall i :: 0 <= i < |files| ==> |files[i]| == 3 && files[i][0] == "html" && Parent(files[i]) in folders)
  }

  lemma ManifestLayout()
    ensures HtmlLayout(AssetFolders, AssetFiles) && Distinct(AssetFiles)
  {
    ManifestShape();
    ManifestDistinct();
  }

  /** The bundled branch of copyHtmlFolder: when no file stands on the way to
      the asset folders, no asset path is a directory and the bundle holds
      every asset, all the folders are directories and every file holds its
      resource afterwards. */
  lemma ManifestStaged(t: Tree, base: Path, folders: seq<Path>, files: seq<Path>, resources: map<Path, string>)
    requires HtmlLayout(folders, files) && Distinct(files)
    requires WellFormed(t)
    requires forall i :: 0 <= i < |folders| ==> NoFileOnWay(t, base + folders[i])
    requires forall i :: 0 <= i < |files| ==> !IsDir(t, base + files[i]) && files[i] in resources
    ensures var (t3, o) := StageAssetsT(EnsureFoldersT(t, base, folders), base, files, resources);
            && o == Staged
            && (forall i :: 0 <= i < |folders| ==> IsDir(t3, base + folders[i]))
            && (forall i :: 0 <= i < |files| ==> base + files[i] in t3 && t3[base + files[i]] == File(resources[files[i]]))
  {
    var t2 := EnsureFoldersT(t, base, folders);
    FoldersReady(t, base, folders);
    FoldersKeep(t, base, folders);
    FoldersShort(t, base, folders, 2);
    forall i | 0 <= i < |files|
      ensures |files[i]| > 0 && IsDir(t2, Parent(base + files[i])) && !IsDir(t2, base + files[i])
    {
      ParentAppend(base, files[i]);
      var j :| 0 <= j < |folders| && Parent(files[i]) == folders[j];
    }
    StageAllWritten(t2, base, files, resources);
    StageOnlyTargets(t2, base, files, resources);
    forall j | 0 <= j < |folders| ensures base + folders[j] !in Targets(base, files) {
    }
  }

  /** ManifestStaged for the manifest itself. */
  lemma AllAssetsStaged(t: Tree, base: Path, resources: map<Path, string>)
    requires WellFormed(t)
    requires forall i :: 0 <= i < |AssetFolders| ==> NoFileOnWay(t, base + AssetFolders[i])
    requires forall i :: 0 <= i < |AssetFiles| ==> !IsDir(t, base + AssetFiles[i]) && AssetFiles[i] in resources
    ensures var (t3, o) := StageAssetsT(EnsureFoldersT(t, base, AssetFolders), base, AssetFiles, resources);
            && o == Staged
            && (forall i :: 0 <= i < |AssetFolders| ==> IsDir(t3, base + AssetFolders[i]))
            && (forall i :: 0 <= i < |AssetFiles| ==> base + AssetFiles[i] in t3 && t3[base + AssetFiles[i]] == File(resources[AssetFiles[i]]))
  {
    ManifestLayout();
    ManifestStaged(t, base, AssetFolders, AssetFiles, resources);
  }

  /** What `copyHtmlFolder` leaves in t, starting from t0, with outcome o:
      after `html` is ensured, either the development asset directory is
      copied into it (files are skipped; a failed copy only aborts), or the
      bundled asset folders and files are staged, or nothing more happens. */
  ghost predicate HtmlInstalled(t0: Tree, t: Tree, folder: Path, devAssets: Path, codeSource: bool,
                                resources: map<Path, string>, o: Staging) {
    var html := folder + ["html"];
    var t1 := if html in t0 then t0 else MkdirsT(t0, html).0;
    if devAssets in t1 then
      && o != Unchecked
      && (!IsDir(t1, devAssets) ==> t == t1 && o == Staged)
      && (IsDir(t1, devAssets) ==>
            && SameOutside(t1, t, html) && Extends(t1, t)
            && FromSource(t1, t, devAssets, html)
            && (Compatible(t1, devAssets, html) && CanCreate(t1, html) ==>
                  o == Staged && Mirrored(t1, t, devAssets, html)))
    else if codeSource then
      (t, o) == StageAssetsT(EnsureFoldersT(t1, folder, AssetFolders), folder, AssetFiles, resources)
    else
      t == t1 && o == Staged
  }

  /** `copyHtmlFolder` for the report folder `folder`: `html` beside the
      report is created with mkdirs when missing; then, when the
      development asset tree `devAssets` exists, a directory there is copied
      into it (an IOException is caught); otherwise, when the code source is
      known, the asset folders are ensured and the bundled assets are
      staged. Only an unchecked exception of the bundled branch reaches the
      caller. When the report folder exists, nothing outside its `html`
      folder changes. */
  method CopyHtmlFolder(fs: FileSystem, folder: Path, devAssets: Path, codeSource: bool, resources: map<Path, string>)
    returns (o: Staging)
    requires fs.Valid() && Disjoint(devAssets, folder + ["html"])
    modifies fs
    ensures fs.Valid()
    ensures HtmlInstalled(old(fs.tree), fs.tree, folder, devAssets, codeSource, resources, o)
    ensures IsDir(old(fs.tree), folder) ==> SameOutside(old(fs.tree), fs.tree, folder + ["html"])
    ensures o == Unchecked ==> codeSource && devAssets !in old(fs.tree)
  {
    ghost var t0 := fs.tree;
    var html := folder + ["html"];
    if !fs.Exists(html) {
      KeptByMkdirs(fs.tree, html, devAssets);
      var _ := fs.Mkdirs(html);
    }
    ghost var t1 := fs.tree;
    if IsDir(t0, folder) {
      HtmlFolderInside(t0, folder);
    }
    o := Staged;
    if fs.Exists(devAssets) {
      if fs.IsDirectory(devAssets) {
        var ok := CopyDirectory(fs, devAssets, html);
        if !ok {
          o := IoAborted;
        }
        if IsDir(t0, folder) {
          SameOutsideTrans(t0, t1, fs.tree, html, html);
        }
      }
    } else if codeSource {
      EnsureFolders(fs, folder, AssetFolders);
      o := StageAssets(fs, folder, AssetFiles, resources);
      if IsDir(t0, folder) {
        ManifestLayout();
        BundledInside(t0, t1, folder, AssetFolders, AssetFiles, resources);
      }
    }
  }

  /** `mkdirs` keeps what exists. */
  lemma KeptByMkdirs(t: Tree, p: Path, q: Path)
    ensures q in t ==> q in MkdirsT(t, p).0
  {
    MkdirsKeeps(t, p);
  }

  /** Creating the `html` folder of an existing report folder changes
      nothing outside it. */
  lemma HtmlFolderInside(t: Tree, folder: Path)
    requires WellFormed(t) && IsDir(t, folder)
    ensures var html := folder + ["html"];
            SameOutside(t, if html in t then t else MkdirsT(t, html).0, html)
  {
    var html := folder + ["html"];
    if html !in t {
      assert Parent(html) == folder;
      assert MkdirT(t, html).1;
    }
  }

  /** The bundled branch, run after the `html` folder step on an existing
      report folder, changes nothing outside that `html` folder. */
  lemma BundledInside(t0: Tree, t1: Tree, folder: Path, folders: seq<Path>, files: seq<Path>, resources: map<Path, string>)
    requires HtmlLayout(folders, files)
    requires WellFormed(t0) && IsDir(t0, folder) && WellFormed(t1)
    requires SameOutside(t0, t1, folder + ["html"])
    ensures SameOutside(t0, StageAssetsT(EnsureFoldersT(t1, folder, folders), folder, files, resources).0, folder + ["html"])
  {
    var html := folder + ["html"];
    var t2 := EnsureFoldersT(t1, folder, folders);
    assert folder in t1 by {
      assert !Within(folder, html);
    }
    FoldersKeep(t1, folder, folders);
    FoldersInside(t1, folder, folders, folder);
    FoldersShort(t1, folder, folders, 2);
    forall q | q in t2 && q !in t1 ensures Within(q, html) {
      FoldersNew(t1, folder, folders, q);
    }
    StageOnlyTargets(t2, folder, files, resources);
    forall q | q in Targets(folder, files) ensures Within(q, html) {
      var i :| 0 <= i < |files| && q == folder + files[i];
      HeadWithin(folder, files[i]);
    }
  }

  /** base + f lies within base + [f[0]]. */
  lemma HeadWithin(base: Path, f: Path)
    requires |f| > 0
    ensures Within(base + f, base + [f[0]])
  {
    assert f == [f[0]] + f[1..];
    PathAssoc(base, [f[0]], f[1..]);
    AppendWithin(base + [f[0]], f[1..]);
  }

  /** A folder the bundled branch adds lies on the way to `base/html/<sub>`,
      beneath base: so it is `base/html` or lies beneath it. */
  lemma {:induction false} FoldersNew(t: Tree, base: Path, folders: seq<Path>, q: Path)
    requires forall j :: 0 <= j < |folders| ==> |folders[j]| == 2 && folders[j][0] == "html"
    requires q in EnsureFoldersT(t, base, folders) && q !in t && Under(q, base)
    ensures Within(q, base + ["html"])
    decreases |folders|
  {
    assert folders != [];
    var p := base + folders[0];
    var t1 := if p in t then t else MkdirsT(t, p).0;
    FoldersKeep(t1, base, folders[1..]);
    if q in t1 {
      MkdirsKeeps(t, p);
      assert Within(p, q);
      assert q[..|base| + 1] == p[..|base| + 1] == base + ["html"];
    } else {
      FoldersNew(t1, base, folders[1..], q);
    }
  }
}
