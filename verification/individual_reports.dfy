/**
 * generateIndividualReport of ReportGenerator: the artifacts written for
 * one report `<folder>/<base>` and, when the report is compared with the
 * report of a fixed file, for `<folder>/<base>_fixed`.
 *
 * The control flow does not depend on what the filesystem calls return,
 * so the operation is described by the list of steps it takes
 * (`IndividualPlan`); `GenerateIndividualReport` takes exactly those steps,
 * `IndividualRun` states the tree they produce, and `MainRules`,
 * `FixedRules` and `ExpectedKeeps` say which files exist afterwards and
 * what else is left alone.
 */
module IndividualReports {
  import opened Text
  import opened FileSystem
  import opened TreeOps
  import opened RunFolders

  /** What the renderers produced for one report: the XML report, the METS
      document when there is one, the JSON rendering of the XML, the HTML
      page and the PDF document when there is one. */
  datatype Rendered = Rendered(xml: string, mets: Option<string>, json: string, html: string, pdf: Option<string>)

  /** An individual report: its renderings, whether it holds data, and the
      renderings of the fixed file it is compared with, if any. */
  datatype Report = Report(main: Rendered, hasData: bool, compare: Option<Rendered>)

  /** One filesystem step of the report writer. */
  datatype Action =
    | Write(path: Path, content: string)  // writeProcomputedIndividual, a renderer, or a PDF save
    | MakeDirs(path: Path)                // File.mkdirs
    | Remove(path: Path)                  // deleteFileOrFolder

  function Apply(t: Tree, a: Action): Tree {
    match a
    case Write(p, c) => WriteT(t, p, c).0
    case MakeDirs(p) => MkdirsT(t, p).0
    case Remove(p) => Removed(t, p)
  }

  /** The tree after taking the steps of `plan` in order. */
  function Run(t: Tree, plan: seq<Action>): Tree
    decreases |plan|
  {
    if plan == [] then t else Run(Apply(t, plan[0]), plan[1..])
  }

  lemma {:induction false} RunAppend(t: Tree, p: seq<Action>, q: seq<Action>)
    ensures Run(t, p + q) == Run(Run(t, p), q)
    decreases |p|
  {
    if p == [] {
      assert p + q == q;
    } else {
      assert (p + q)[0] == p[0];
      assert (p + q)[1..] == p[1..] + q;
      RunAppend(Apply(t, p[0]), p[1..], q);
    }
  }

  lemma RunOne(t: Tree, a: Action)
    ensures Run(t, [a]) == Apply(t, a)
  {
    assert [a][1..] == [];
  }

  lemma RunSnoc(t: Tree, p: seq<Action>, a: Action)
    ensures Run(t, p + [a]) == Apply(Run(t, p), a)
  {
    RunAppend(t, p, [a]);
    RunOne(Run(t, p), a);
  }

  lemma ApplyWellFormed(t: Tree, a: Action)
    requires WellFormed(t)
    ensures WellFormed(Apply(t, a))
  {
    match a
    case Write(p, c) => WriteWellFormed(t, p, c);
    case MakeDirs(p) => MkdirsWellFormed(t, p);
    case Remove(p) => DeleteRemovesSubtree(t, p);
  }

  // ---------------------------------------------------------------------
  // Names

  /** The artifact paths of one report. */
  datatype Names = Names(xml: Path, mets: Path, json: Path, htmlDir: Path, html: Path, pdf: Path)

  /** The HTML page of the report whose file name is `name`: `html/<name>`
      beside the report. */
  function HtmlTarget(folder: Path, name: string): Path {
    folder + ["html", name]
  }

  /** `<base>.xml`, `<base>.mets.xml`, `<base>.json`, `html/<base>.html` and
      `<base>.pdf` beside the report name. */
  function MainNames(folder: Path, base: string): Names {
    Names(folder + [base + ".xml"], folder + [base + ".mets.xml"], folder + [base + ".json"],
          folder + ["html"], HtmlTarget(folder, base + ".html"), folder + [base + ".pdf"])
  }

  /** The names of the fixed-file report: `_fixed` before the extension,
      and `Mets_fixed.xml` for the METS document. */
  function FixedNames(folder: Path, base: string): Names {
    Names(folder + [base + "_fixed.xml"], folder + [base + "Mets_fixed.xml"], folder + [base + "_fixed.json"],
          folder + ["html"], HtmlTarget(folder, base + "_fixed.html"), folder + [base + "_fixed.pdf"])
  }

  /** Appending an extension to the report name's string names the sibling
      file: the string form of every artifact but the HTML page. */
  lemma SiblingName(folder: Path, base: string, ext: string)
    ensures PathString(folder + [base]) + ext == PathString(folder + [base + ext])
  {
    PathStringAppend(folder, base);
    PathStringAppend(folder, base + ext);
    AppendAssoc3(PathString(folder) + "/", base, ext);
  }

  /** The artifact paths hang from `folder` (the HTML page from its `html`
      folder), the `html` folder is none of the files, and the XML report
      is none of the others. */
  predicate Layout(n: Names, folder: Path) {
    && |n.xml| == |folder| + 1 && Parent(n.xml) == folder
    && |n.mets| == |folder| + 1 && Parent(n.mets) == folder
    && |n.json| == |folder| + 1 && Parent(n.json) == folder
    && |n.pdf| == |folder| + 1 && Parent(n.pdf) == folder
    && |n.htmlDir| == |folder| + 1 && Parent(n.htmlDir) == folder
    && |n.html| == |folder| + 2 && Parent(n.html) == n.htmlDir
    && n.htmlDir != n.xml && n.htmlDir != n.mets && n.htmlDir != n.json && n.htmlDir != n.pdf
    && n.xml != n.mets && n.xml != n.json && n.xml != n.pdf
    && n.mets != n.json && n.mets != n.pdf && n.json != n.pdf
  }

  function Leaves(n: Names): set<Path> {
    {n.xml, n.mets, n.json, n.html, n.pdf}
  }

  /** Every path a report may write, for itself and for its fixed file. */
  function Artifacts(folder: Path, base: string): set<Path> {
    Leaves(MainNames(folder, base)) + Leaves(FixedNames(folder, base))
  }

  /** A name ending in a suffix longer than "html", or starting with '.', is
      not "html". */
  lemma NotHtml(base: string, s: string)
    requires |s| > 4 || (|s| == 4 && s[0] == '.')
    ensures base + s != "html"
  {
    if |base| == 0 {
      assert base + s == s && "html"[0] == 'h';
    }
  }

  /** Two names that differ in length, or at one place, are different. */
  lemma OtherName(folder: Path, a: string, b: string)
    requires |a| != |b| || exists i :: 0 <= i < |a| && i < |b| && a[i] != b[i]
    ensures folder + [a] != folder + [b]
  {
    assert (folder + [a])[|folder|] == a && (folder + [b])[|folder|] == b;
  }

  lemma ChildParent(folder: Path, x: string)
    ensures Parent(folder + [x]) == folder
  {
    assert (folder + [x])[..|folder|] == folder;
  }

  lemma HtmlParent(folder: Path, name: string)
    ensures Parent(HtmlTarget(folder, name)) == folder + ["html"]
    ensures Parent(folder + ["html"]) == folder
  {
    assert HtmlTarget(folder, name)[..|folder| + 1] == folder + ["html"];
    ChildParent(folder, "html");
  }

  lemma MainLayout(folder: Path, base: string)
    ensures Layout(MainNames(folder, base), folder)
  {
    var n := MainNames(folder, base);
    ChildParent(folder, base + ".xml");
    ChildParent(folder, base + ".mets.xml");
    ChildParent(folder, base + ".json");
    ChildParent(folder, base + ".pdf");
    HtmlParent(folder, base + ".html");
    NotHtml(base, ".xml");
    NotHtml(base, ".mets.xml");
    NotHtml(base, ".json");
    NotHtml(base, ".pdf");
    OtherName(folder, "html", base + ".xml");
    OtherName(folder, "html", base + ".mets.xml");
    OtherName(folder, "html", base + ".json");
    OtherName(folder, "html", base + ".pdf");
    OtherName(folder, base + ".xml", base + ".mets.xml");
    OtherName(folder, base + ".xml", base + ".json");
    assert (base + ".xml")[|base| + 1] == 'x' && (base + ".pdf")[|base| + 1] == 'p';
    OtherName(folder, base + ".xml", base + ".pdf");
    OtherName(folder, base + ".mets.xml", base + ".json");
    OtherName(folder, base + ".mets.xml", base + ".pdf");
    OtherName(folder, base + ".json", base + ".pdf");
  }

  lemma FixedLayout(folder: Path, base: string)
    ensures Layout(FixedNames(folder, base), folder)
  {
    var n := FixedNames(folder, base);
    ChildParent(folder, base + "_fixed.xml");
    ChildParent(folder, base + "Mets_fixed.xml");
    ChildParent(folder, base + "_fixed.json");
    ChildParent(folder, base + "_fixed.pdf");
    HtmlParent(folder, base + "_fixed.html");
    OtherName(folder, "html", base + "_fixed.xml");
    OtherName(folder, "html", base + "Mets_fixed.xml");
    OtherName(folder, "html", base + "_fixed.json");
    OtherName(folder, "html", base + "_fixed.pdf");
    OtherName(folder, base + "_fixed.xml", base + "Mets_fixed.xml");
    OtherName(folder, base + "_fixed.xml", base + "_fixed.json");
    assert (base + "_fixed.xml")[|base| + 7] == 'x' && (base + "_fixed.pdf")[|base| + 7] == 'p';
    OtherName(folder, base + "_fixed.xml", base + "_fixed.pdf");
    OtherName(folder, base + "Mets_fixed.xml", base + "_fixed.json");
    OtherName(folder, base + "Mets_fixed.xml", base + "_fixed.pdf");
    OtherName(folder, base + "_fixed.json", base + "_fixed.pdf");
  }

  /** No path of the fixed-file report is a path of the report itself or
      its `html` folder: the file names differ in length. */
  lemma FixedApartAt(folder: Path, base: string, q: Path)
    ensures q in Leaves(FixedNames(folder, base)) ==> q !in Leaves(MainNames(folder, base)) && q != folder + ["html"]
  {
    if q in Leaves(FixedNames(folder, base)) {
      assert |q| > 0 && |q[|q| - 1]| >= |base| + 10;
    }
  }

  /** The report folder is neither an artifact nor the `html` folder. */
  lemma FolderApart(n: Names, folder: Path)
    requires Layout(n, folder)
    ensures folder !in Leaves(n) && folder != n.htmlDir
  {
  }

  /** None of the report's artifacts exists. */
  predicate Absent(t: Tree, n: Names) {
    n.xml !in t && n.mets !in t && n.json !in t && n.html !in t && n.pdf !in t
  }

  // ---------------------------------------------------------------------
  // The steps

  /** The steps before the `containsData` check: the XML report, then the
      METS document when there is one and "XML" is requested, then the JSON
      rendering when "JSON" is requested. */
  function HeadPlan(n: Names, r: Rendered, formats: seq<string>): (plan: seq<Action>)
    ensures 1 <= |plan| <= 3 && plan[0] == Write(n.xml, r.xml)
  {
    [Write(n.xml, r.xml)]
      + (if r.mets.Some? && "XML" in formats then [Write(n.mets, r.mets.value)] else [])
      + (if "JSON" in formats then [Write(n.json, r.json)] else [])
  }

  /** The steps after the data check: the HTML steps, then the closing
      steps. */
  function TailPlan(n: Names, r: Rendered, formats: seq<string>, fixed: bool): seq<Action> {
    HtmlPlan(n, r, formats, fixed) + ClosePlan(n, r, formats, fixed)
  }

  /** When "HTML" is requested, the HTML page is written, after the `html`
      folder is created with mkdirs (not in the fixed variant). */
  function HtmlPlan(n: Names, r: Rendered, formats: seq<string>, fixed: bool): seq<Action> {
    if "HTML" !in formats then []
    else if fixed then [Write(n.html, r.html)]
    else [MakeDirs(n.htmlDir), Write(n.html, r.html)]
  }

  /** The PDF document is saved when "PDF" is requested and there is one,
      then the XML report is deleted when "XML" is not requested. In the
      fixed variant a missing PDF document is dereferenced all the same:
      the exception skips the rest of the block. */
  function ClosePlan(n: Names, r: Rendered, formats: seq<string>, fixed: bool): seq<Action> {
    if fixed && "PDF" in formats && r.pdf.None? then []
    else
      (if "PDF" in formats && r.pdf.Some? then [Write(n.pdf, r.pdf.value)] else [])
        + (if "XML" !in formats then [Remove(n.xml)] else [])
  }

  /** The steps of generateIndividualReport for the report name
      `folder/<base>`: a report without data stops after the head steps. */
  function IndividualPlan(folder: Path, base: string, ir: Report, formats: seq<string>): (plan: seq<Action>)
    ensures |plan| >= 1 && plan[0] == Write(folder + [base + ".xml"], ir.main.xml)
    ensures !ir.hasData ==> forall a :: a in plan ==> a.Write?
  {
    var main := MainNames(folder, base);
    HeadPlan(main, ir.main, formats)
      + (if !ir.hasData then [] else TailPlan(main, ir.main, formats, false) + FixedPlan(folder, base, ir.compare, formats))
  }

  /** The steps for the fixed file's report, when there is one. */
  function FixedPlan(folder: Path, base: string, compare: Option<Rendered>, formats: seq<string>): seq<Action> {
    match compare
    case None => []
    case Some(c) =>
      var fx := FixedNames(folder, base);
      HeadPlan(fx, c, formats) + TailPlan(fx, c, formats, true)
  }

  // ---------------------------------------------------------------------
  // The operation

  /** The head steps, with the XML, METS and JSON writes of the report. */
  method WriteHead(fs: FileSystem, n: Names, r: Rendered, formats: seq<string>)
    requires fs.Valid()
    modifies fs
    ensures fs.Valid()
    ensures fs.tree == Run(old(fs.tree), HeadPlan(n, r, formats))
  {
    ghost var t0 := fs.tree;
    var _ := fs.Write(n.xml, r.xml);
    ghost var done := [Write(n.xml, r.xml)];
    RunOne(t0, Write(n.xml, r.xml));
    if r.mets.Some? && "XML" in formats {
      var _ := fs.Write(n.mets, r.mets.value);
      RunSnoc(t0, done, Write(n.mets, r.mets.value));
      done := done + [Write(n.mets, r.mets.value)];
    }
    if "JSON" in formats {
      var _ := fs.Write(n.json, r.json);
      RunSnoc(t0, done, Write(n.json, r.json));
      done := done + [Write(n.json, r.json)];
    }
    assert done == HeadPlan(n, r, formats);
  }

  /** The steps after the data check; `fixed` selects the fixed-file
      variant. */
  method WriteTail(fs: FileSystem, n: Names, r: Rendered, formats: seq<string>, fixed: bool)
    requires fs.Valid()
    modifies fs
    ensures fs.Valid()
    ensures fs.tree == Run(old(fs.tree), TailPlan(n, r, formats, fixed))
  {
    ghost var t0 := fs.tree;
    if "HTML" in formats {
      if fixed {
        var _ := fs.Write(n.html, r.html);
        RunOne(t0, Write(n.html, r.html));
      } else {
        var _ := fs.Mkdirs(n.htmlDir);
        RunOne(t0, MakeDirs(n.htmlDir));
        var _ := fs.Write(n.html, r.html);
        RunSnoc(t0, [MakeDirs(n.htmlDir)], Write(n.html, r.html));
        assert [MakeDirs(n.htmlDir)] + [Write(n.html, r.html)] == HtmlPlan(n, r, formats, fixed);
      }
    }
    ghost var t1 := fs.tree;
    CloseReport(fs, n, r, formats, fixed);
    RunAppend(t0, HtmlPlan(n, r, formats, fixed), ClosePlan(n, r, formats, fixed));
  }

  /** The PDF save and the deletion of the XML report. */
  method CloseReport(fs: FileSystem, n: Names, r: Rendered, formats: seq<string>, fixed: bool)
    requires fs.Valid()
    modifies fs
    ensures fs.Valid()
    ensures fs.tree == Run(old(fs.tree), ClosePlan(n, r, formats, fixed))
  {
    ghost var t0 := fs.tree;
    ghost var done: seq<Action> := [];
    if "PDF" in formats {
      if r.pdf.Some? {
        var _ := fs.Write(n.pdf, r.pdf.value);
        RunOne(t0, Write(n.pdf, r.pdf.value));
        done := [Write(n.pdf, r.pdf.value)];
      } else if fixed {
        // getPDF() is null: the save raises an exception, caught around the block
        return;
      }
    }
    if "XML" !in formats {
      DeleteFileOrFolder(fs, n.xml);
      RunSnoc(t0, done, Remove(n.xml));
      done := done + [Remove(n.xml)];
    }
    assert done == ClosePlan(n, r, formats, fixed);
  }

  /** The report of the fixed file, when there is one. */
  method WriteFixed(fs: FileSystem, folder: Path, base: string, compare: Option<Rendered>, formats: seq<string>)
    requires fs.Valid()
    modifies fs
    ensures fs.Valid()
    ensures fs.tree == Run(old(fs.tree), FixedPlan(folder, base, compare, formats))
  {
    if compare.Some? {
      ghost var t0 := fs.tree;
      var fx := FixedNames(folder, base);
      WriteHead(fs, fx, compare.value, formats);
      WriteTail(fs, fx, compare.value, formats, true);
      RunAppend(t0, HeadPlan(fx, compare.value, formats), TailPlan(fx, compare.value, formats, true));
    }
  }

  /** `generateIndividualReport(folder/<base>, ir, config)`, with the
      requested formats `formats`. */
  method GenerateIndividualReport(fs: FileSystem, folder: Path, base: string, ir: Report, formats: seq<string>)
    requires fs.Valid()
    modifies fs
    ensures fs.Valid()
    ensures fs.tree == Run(old(fs.tree), IndividualPlan(folder, base, ir, formats))
  {
    ghost var t0 := fs.tree;
    var main := MainNames(folder, base);
    WriteHead(fs, main, ir.main, formats);
    ghost var head := HeadPlan(main, ir.main, formats);
    if !ir.hasData {
      RunAppend(t0, head, []);
      return;
    }
    ghost var t1 := fs.tree;
    WriteTail(fs, main, ir.main, formats, false);
    WriteFixed(fs, folder, base, ir.compare, formats);
    ghost var tail := TailPlan(main, ir.main, formats, false);
    ghost var fixed := FixedPlan(folder, base, ir.compare, formats);
    RunAppend(t1, tail, fixed);
    RunAppend(t0, head, tail + fixed);
  }

  // ---------------------------------------------------------------------
  // Which files a report leaves behind

  /** The tree after the head steps when their writes succeed: the XML
      report, the METS document when there is one and "XML" is requested,
      the JSON rendering when "JSON" is requested. */
  function HeadOut(t: Tree, n: Names, r: Rendered, formats: seq<string>): Tree {
    var t1 := t[n.xml := File(r.xml)];
    var t2 := if r.mets.Some? && "XML" in formats then t1[n.mets := File(r.mets.value)] else t1;
    if "JSON" in formats then t2[n.json := File(r.json)] else t2
  }

  /** The HTML steps add the `html` folder and the page. */
  function HtmlOut(t: Tree, n: Names, r: Rendered, formats: seq<string>, fixed: bool): Tree {
    if "HTML" !in formats then t
    else if fixed then t[n.html := File(r.html)]
    else t[n.htmlDir := Dir][n.html := File(r.html)]
  }

  /** The closing steps add the PDF document, and take the XML report away
      unless it is kept. */
  function CloseOut(t: Tree, n: Names, r: Rendered, formats: seq<string>, fixed: bool): Tree {
    var t1 := if "PDF" in formats && r.pdf.Some? then t[n.pdf := File(r.pdf.value)] else t;
    if KeepsXml(r, formats, fixed) then t1 else t1 - {n.xml}
  }

  /** The XML report stays when "XML" is requested, and in the fixed
      variant also when the missing PDF document's exception skips its
      deletion. */
  predicate KeepsXml(r: Rendered, formats: seq<string>, fixed: bool) {
    "XML" in formats || (fixed && "PDF" in formats && r.pdf.None?)
  }

  function BlockOut(t: Tree, n: Names, r: Rendered, formats: seq<string>, fixed: bool): Tree {
    CloseOut(HtmlOut(HeadOut(t, n, r, formats), n, r, formats, fixed), n, r, formats, fixed)
  }

  /** The tree generateIndividualReport leaves when its writes succeed. */
  function Expected(t: Tree, folder: Path, base: string, ir: Report, formats: seq<string>): Tree {
    var main := MainNames(folder, base);
    if !ir.hasData then HeadOut(t, main, ir.main, formats)
    else
      var t1 := BlockOut(t, main, ir.main, formats, false);
      match ir.compare
      case None => t1
      case Some(c) => BlockOut(t1, FixedNames(folder, base), c, formats, true)
  }

  lemma {:induction false} RunWellFormed(t: Tree, plan: seq<Action>)
    requires WellFormed(t)
    ensures WellFormed(Run(t, plan))
    decreases |plan|
  {
    if plan != [] {
      ApplyWellFormed(t, plan[0]);
      RunWellFormed(Apply(t, plan[0]), plan[1..]);
    }
  }

  /** Deleting a plain file removes that one entry. */
  lemma RemoveFile(t: Tree, p: Path)
    requires WellFormed(t) && IsFile(t, p)
    ensures Run(t, [Remove(p)]) == t - {p}
  {
    RunOne(t, Remove(p));
    NothingBeneath(t, p);
  }

  /** Writing a file into a directory, where no directory is in the way. */
  lemma WriteInto(t: Tree, p: Path, c: string)
    requires p != [] && IsDir(t, Parent(p)) && !IsDir(t, p)
    ensures Run(t, [Write(p, c)]) == t[p := File(c)]
  {
    RunOne(t, Write(p, c));
  }

  lemma HeadEffect(t: Tree, n: Names, r: Rendered, formats: seq<string>, folder: Path)
    requires Layout(n, folder) && IsDir(t, folder) && NoDirs(t, n)
    ensures Run(t, HeadPlan(n, r, formats)) == HeadOut(t, n, r, formats)
  {
    var a := [Write(n.xml, r.xml)];
    var b := if r.mets.Some? && "XML" in formats then [Write(n.mets, r.mets.value)] else [];
    var c := if "JSON" in formats then [Write(n.json, r.json)] else [];
    RunAppend(t, a + b, c);
    RunAppend(t, a, b);
    WriteInto(t, n.xml, r.xml);
    var t1 := t[n.xml := File(r.xml)];
    var t2 := t1;
    if r.mets.Some? && "XML" in formats {
      WriteInto(t1, n.mets, r.mets.value);
      t2 := t1[n.mets := File(r.mets.value)];
    }
    if "JSON" in formats {
      WriteInto(t2, n.json, r.json);
    }
  }

  lemma HtmlEffect(t: Tree, n: Names, r: Rendered, formats: seq<string>, fixed: bool, folder: Path)
    requires Layout(n, folder) && IsDir(t, folder)
    requires !IsDir(t, n.html) && !IsFile(t, n.htmlDir)
    requires fixed && "HTML" in formats ==> IsDir(t, n.htmlDir)
    ensures Run(t, HtmlPlan(n, r, formats, fixed)) == HtmlOut(t, n, r, formats, fixed)
  {
    if "HTML" in formats {
      if fixed {
        WriteInto(t, n.html, r.html);
      } else {
        var t1 := t[n.htmlDir := Dir];
        assert MkdirsT(t, n.htmlDir).0 == t1;
        RunOne(t, MakeDirs(n.htmlDir));
        RunAppend(t, [MakeDirs(n.htmlDir)], [Write(n.html, r.html)]);
        assert [MakeDirs(n.htmlDir)] + [Write(n.html, r.html)] == HtmlPlan(n, r, formats, fixed);
        WriteInto(t1, n.html, r.html);
      }
    }
  }

  lemma CloseEffect(t: Tree, n: Names, r: Rendered, formats: seq<string>, fixed: bool, folder: Path)
    requires WellFormed(t) && Layout(n, folder) && IsDir(t, folder)
    requires IsFile(t, n.xml) && !IsDir(t, n.pdf)
    ensures Run(t, ClosePlan(n, r, formats, fixed)) == CloseOut(t, n, r, formats, fixed)
  {
    if !(fixed && "PDF" in formats && r.pdf.None?) {
      var a := if "PDF" in formats && r.pdf.Some? then [Write(n.pdf, r.pdf.value)] else [];
      var b := if "XML" !in formats then [Remove(n.xml)] else [];
      RunAppend(t, a, b);
      var t1 := t;
      if "PDF" in formats && r.pdf.Some? {
        WriteInto(t, n.pdf, r.pdf.value);
        WriteWellFormed(t, n.pdf, r.pdf.value);
        t1 := t[n.pdf := File(r.pdf.value)];
      }
      if "XML" !in formats {
        RemoveFile(t1, n.xml);
      }
    }
  }

  /** What the head steps leave as it was. */
  lemma HeadFrame(t: Tree, n: Names, r: Rendered, formats: seq<string>, folder: Path)
    requires Layout(n, folder)
    ensures var t1 := HeadOut(t, n, r, formats);
            && IsFile(t1, n.xml)
            && (IsDir(t1, folder) <==> IsDir(t, folder))
            && (IsDir(t1, n.html) <==> IsDir(t, n.html))
            && (IsDir(t1, n.htmlDir) <==> IsDir(t, n.htmlDir))
            && (IsFile(t1, n.htmlDir) <==> IsFile(t, n.htmlDir))
            && (IsDir(t1, n.pdf) ==> IsDir(t, n.pdf))
  {
  }

  /** What the HTML steps leave as it was. */
  lemma HtmlFrame(t: Tree, n: Names, r: Rendered, formats: seq<string>, fixed: bool, folder: Path)
    requires Layout(n, folder)
    ensures var t1 := HtmlOut(t, n, r, formats, fixed);
            && (IsFile(t1, n.xml) <==> IsFile(t, n.xml))
            && (IsDir(t1, folder) <==> IsDir(t, folder))
            && (IsDir(t1, n.pdf) <==> IsDir(t, n.pdf))
  {
  }

  /** A well-formed tree where a report's steps succeed: its folder is a
      directory, its artifacts are not directories and its `html` folder is
      not a file. */
  ghost predicate Fits(t: Tree, n: Names, folder: Path) {
    WellFormed(t) && Layout(n, folder) && IsDir(t, folder) && NoDirs(t, n) && !IsFile(t, n.htmlDir)
  }

  /** A report with data, head and tail. */
  lemma BlockEffect(t: Tree, n: Names, r: Rendered, formats: seq<string>, fixed: bool, folder: Path)
    requires Fits(t, n, folder) && (fixed && "HTML" in formats ==> IsDir(t, n.htmlDir))
    ensures Run(t, HeadPlan(n, r, formats) + TailPlan(n, r, formats, fixed)) == BlockOut(t, n, r, formats, fixed)
    ensures WellFormed(BlockOut(t, n, r, formats, fixed))
  {
    var head := HeadPlan(n, r, formats);
    var html := HtmlPlan(n, r, formats, fixed);
    var close := ClosePlan(n, r, formats, fixed);
    RunAppend(t, head, html + close);
    HeadEffect(t, n, r, formats, folder);
    RunWellFormed(t, head);
    var t1 := HeadOut(t, n, r, formats);
    HeadFrame(t, n, r, formats, folder);
    RunAppend(t1, html, close);
    HtmlEffect(t1, n, r, formats, fixed, folder);
    RunWellFormed(t1, html);
    var t2 := HtmlOut(t1, n, r, formats, fixed);
    HtmlFrame(t1, n, r, formats, fixed, folder);
    CloseEffect(t2, n, r, formats, fixed, folder);
    RunWellFormed(t2, close);
  }

  /** The head steps change nothing but the XML report, the METS document
      and the JSON rendering. */
  lemma HeadKeeps(t: Tree, n: Names, r: Rendered, formats: seq<string>, q: Path)
    requires q != n.xml && q != n.mets && q != n.json
    ensures var b := HeadOut(t, n, r, formats);
            (q in b <==> q in t) && (q in t ==> b[q] == t[q])
  {
  }

  /** A block changes nothing but its own artifacts and its `html` folder. */
  lemma BlockKeeps(t: Tree, n: Names, r: Rendered, formats: seq<string>, fixed: bool, q: Path)
    requires q !in Leaves(n) && (q == n.htmlDir ==> fixed || "HTML" !in formats)
    ensures var b := BlockOut(t, n, r, formats, fixed);
            (q in b <==> q in t) && (q in t ==> b[q] == t[q])
  {
  }

  /** p holds the document c when there is one, and is absent otherwise. */
  predicate Holds(e: Tree, p: Path, c: Option<string>) {
    match c
    case None => p !in e
    case Some(s) => p in e && e[p] == File(s)
  }

  /** The head steps, on a tree without the report's artifacts, leave the
      XML report, the METS document when "XML" is requested and the JSON
      rendering when "JSON" is requested, and nothing of the HTML page or
      the PDF document. */
  lemma HeadLeaves(t: Tree, n: Names, r: Rendered, formats: seq<string>, folder: Path)
    requires Layout(n, folder) && Absent(t, n)
    ensures var b := HeadOut(t, n, r, formats);
            && Holds(b, n.xml, Some(r.xml))
            && Holds(b, n.mets, if "XML" in formats then r.mets else None)
            && Holds(b, n.json, if "JSON" in formats then Some(r.json) else None)
            && Holds(b, n.html, None) && Holds(b, n.pdf, None)
            && (n.htmlDir in b <==> n.htmlDir in t) && (n.htmlDir in t ==> b[n.htmlDir] == t[n.htmlDir])
  {
  }

  /** A block with data, on a tree without the report's artifacts, leaves
      each requested artifact, keeps the XML report exactly when KeepsXml
      says so, and creates the `html` folder for the page (in the fixed
      variant the folder is already there). */
  lemma BlockLeaves(t: Tree, n: Names, r: Rendered, formats: seq<string>, fixed: bool, folder: Path)
    requires Layout(n, folder) && Absent(t, n)
    ensures var b := BlockOut(t, n, r, formats, fixed);
            && Holds(b, n.xml, if KeepsXml(r, formats, fixed) then Some(r.xml) else None)
            && Holds(b, n.mets, if "XML" in formats then r.mets else None)
            && Holds(b, n.json, if "JSON" in formats then Some(r.json) else None)
            && Holds(b, n.html, if "HTML" in formats then Some(r.html) else None)
            && Holds(b, n.pdf, if "PDF" in formats then r.pdf else None)
            && ("HTML" in formats && !fixed ==> IsDir(b, n.htmlDir))
            && (!IsFile(t, n.htmlDir) ==> !IsFile(b, n.htmlDir))
  {
    HeadLeaves(t, n, r, formats, folder);
  }

  /** The artifacts of f are none of those of m, nor m's `html` folder. */
  predicate Separate(f: Names, m: Names) {
    && f.xml !in Leaves(m) && f.mets !in Leaves(m) && f.json !in Leaves(m)
    && f.html !in Leaves(m) && f.pdf !in Leaves(m)
    && f.xml != m.htmlDir && f.mets != m.htmlDir && f.json != m.htmlDir
    && f.html != m.htmlDir && f.pdf != m.htmlDir
  }

  lemma FixedSeparate(folder: Path, base: string)
    ensures Separate(FixedNames(folder, base), MainNames(folder, base))
  {
    var fx := FixedNames(folder, base);
    FixedApartAt(folder, base, fx.xml);
    FixedApartAt(folder, base, fx.mets);
    FixedApartAt(folder, base, fx.json);
    FixedApartAt(folder, base, fx.html);
    FixedApartAt(folder, base, fx.pdf);
  }

  /** Two reports in one folder whose pages share the `html` folder and
      whose artifacts do not exist yet. */
  predicate Pair(t: Tree, m: Names, f: Names, folder: Path) {
    && IsDir(t, folder) && !IsFile(t, m.htmlDir)
    && Layout(m, folder) && Layout(f, folder) && f.htmlDir == m.htmlDir && Separate(f, m)
    && Absent(t, m) && Absent(t, f)
  }

  lemma FixedPair(t: Tree, folder: Path, base: string)
    requires IsDir(t, folder) && !IsFile(t, folder + ["html"])
    requires Absent(t, MainNames(folder, base)) && Absent(t, FixedNames(folder, base))
    ensures Pair(t, MainNames(folder, base), FixedNames(folder, base), folder)
  {
    MainLayout(folder, base);
    FixedLayout(folder, base);
    FixedSeparate(folder, base);
  }

  /** A second block for other artifacts in the same `html` folder, after a
      first block that made that folder. */
  lemma SecondBlock(t: Tree, m: Names, r: Rendered, f: Names, c: Rendered, formats: seq<string>, folder: Path)
    requires WellFormed(t) && Pair(t, m, f, folder)
    ensures var t1 := BlockOut(t, m, r, formats, false);
            Run(t1, HeadPlan(f, c, formats) + TailPlan(f, c, formats, true)) == BlockOut(t1, f, c, formats, true)
  {
    BlockEffect(t, m, r, formats, false, folder);
    BlockLeaves(t, m, r, formats, false, folder);
    FolderApart(m, folder);
    BlockKeeps(t, m, r, formats, false, folder);
    BlockKeeps(t, m, r, formats, false, f.xml);
    BlockKeeps(t, m, r, formats, false, f.mets);
    BlockKeeps(t, m, r, formats, false, f.json);
    BlockKeeps(t, m, r, formats, false, f.html);
    BlockKeeps(t, m, r, formats, false, f.pdf);
    var t1 := BlockOut(t, m, r, formats, false);
    assert Fits(t1, f, folder);
    BlockEffect(t1, f, c, formats, true, folder);
  }

  /** The steps for the fixed file's report follow those of the report. */
  lemma FixedBlock(t: Tree, folder: Path, base: string, ir: Report, formats: seq<string>)
    requires ir.hasData && ir.compare.Some?
    requires WellFormed(t) && IsDir(t, folder) && !IsFile(t, folder + ["html"])
    requires Absent(t, MainNames(folder, base)) && Absent(t, FixedNames(folder, base))
    ensures var t1 := BlockOut(t, MainNames(folder, base), ir.main, formats, false);
            Run(t1, FixedPlan(folder, base, ir.compare, formats)) == Expected(t, folder, base, ir, formats)
  {
    FixedPair(t, folder, base);
    SecondBlock(t, MainNames(folder, base), ir.main, FixedNames(folder, base), ir.compare.value, formats, folder);
  }

  /** The report's own artifacts are plain files or missing. */
  predicate NoDirs(t: Tree, n: Names) {
    !IsDir(t, n.xml) && !IsDir(t, n.mets) && !IsDir(t, n.json) && !IsDir(t, n.html) && !IsDir(t, n.pdf)
  }

  lemma MainReady(t: Tree, folder: Path, base: string)
    requires WellFormed(t) && IsDir(t, folder) && !IsFile(t, folder + ["html"])
    requires Absent(t, MainNames(folder, base))
    ensures Fits(t, MainNames(folder, base), folder)
  {
    MainLayout(folder, base);
  }

  /** When the report folder exists, no `html` file is in the way and no
      artifact exists yet, generateIndividualReport leaves exactly the
      tree `Expected` describes. */
  lemma IndividualRun(t: Tree, folder: Path, base: string, ir: Report, formats: seq<string>)
    requires WellFormed(t) && IsDir(t, folder) && !IsFile(t, folder + ["html"])
    requires Absent(t, MainNames(folder, base)) && Absent(t, FixedNames(folder, base))
    ensures Run(t, IndividualPlan(folder, base, ir, formats)) == Expected(t, folder, base, ir, formats)
  {
    MainReady(t, folder, base);
    var main := MainNames(folder, base);
    var head := HeadPlan(main, ir.main, formats);
    if !ir.hasData {
      RunAppend(t, head, []);
      HeadEffect(t, main, ir.main, formats, folder);
    } else {
      DataRun(t, folder, base, ir, formats);
    }
  }

  lemma DataRun(t: Tree, folder: Path, base: string, ir: Report, formats: seq<string>)
    requires ir.hasData
    requires WellFormed(t) && IsDir(t, folder) && !IsFile(t, folder + ["html"])
    requires Absent(t, MainNames(folder, base)) && Absent(t, FixedNames(folder, base))
    requires Fits(t, MainNames(folder, base), folder)
    ensures Run(t, IndividualPlan(folder, base, ir, formats)) == Expected(t, folder, base, ir, formats)
  {
    var main := MainNames(folder, base);
    var head := HeadPlan(main, ir.main, formats);
    var tail := TailPlan(main, ir.main, formats, false);
    var fixed := FixedPlan(folder, base, ir.compare, formats);
    assert head + (tail + fixed) == (head + tail) + fixed;
    RunAppend(t, head + tail, fixed);
    BlockEffect(t, main, ir.main, formats, false, folder);
    if ir.compare.Some? {
      FixedBlock(t, folder, base, ir, formats);
    }
  }

  // ---------------------------------------------------------------------
  // The rules, artifact by artifact

  /** The fixed-file block keeps the report's artifacts and `html` folder. */
  lemma FixedKeepsMain(t: Tree, m: Names, f: Names, c: Rendered, formats: seq<string>)
    requires Separate(f, m) && f.htmlDir == m.htmlDir
    ensures var e := BlockOut(t, f, c, formats, true);
            && (forall q :: q in Leaves(m) ==> (q in e <==> q in t) && (q in t ==> e[q] == t[q]))
            && (m.htmlDir in e <==> m.htmlDir in t) && (m.htmlDir in t ==> e[m.htmlDir] == t[m.htmlDir])
  {
    forall q | q in Leaves(m)
      ensures var e := BlockOut(t, f, c, formats, true);
              (q in e <==> q in t) && (q in t ==> e[q] == t[q])
    {
      BlockKeeps(t, f, c, formats, true, q);
    }
    BlockKeeps(t, f, c, formats, true, m.htmlDir);
  }

  /** The report's own artifacts: the XML report stays when "XML" is
      requested and also when the report holds no data (the deletion comes
      after the early return); METS only with "XML", JSON with "JSON"; the
      HTML page (in a new `html` folder) and the PDF document only for a
      report with data. */
  lemma MainRules(t: Tree, folder: Path, base: string, ir: Report, formats: seq<string>)
    requires Absent(t, MainNames(folder, base))
    ensures var e := Expected(t, folder, base, ir, formats);
            var m := MainNames(folder, base);
            var r := ir.main;
            && Holds(e, m.xml, if "XML" in formats || !ir.hasData then Some(r.xml) else None)
            && Holds(e, m.mets, if "XML" in formats then r.mets else None)
            && Holds(e, m.json, if "JSON" in formats then Some(r.json) else None)
            && Holds(e, m.html, if ir.hasData && "HTML" in formats then Some(r.html) else None)
            && Holds(e, m.pdf, if ir.hasData && "PDF" in formats then r.pdf else None)
            && (ir.hasData && "HTML" in formats ==> IsDir(e, m.htmlDir))
  {
    var m := MainNames(folder, base);
    MainLayout(folder, base);
    if !ir.hasData {
      HeadLeaves(t, m, ir.main, formats, folder);
    } else {
      BlockLeaves(t, m, ir.main, formats, false, folder);
      if ir.compare.Some? {
        FixedSeparate(folder, base);
        FixedKeepsMain(BlockOut(t, m, ir.main, formats, false), m, FixedNames(folder, base), ir.compare.value, formats);
      }
    }
  }

  /** A first block leaves the artifacts of a separate report missing. */
  lemma KeepsAbsent(t: Tree, m: Names, r: Rendered, f: Names, formats: seq<string>, hasData: bool)
    requires Separate(f, m) && Absent(t, f)
    ensures Absent(if hasData then BlockOut(t, m, r, formats, false) else HeadOut(t, m, r, formats), f)
  {
    if hasData {
      BlockKeeps(t, m, r, formats, false, f.xml);
      BlockKeeps(t, m, r, formats, false, f.mets);
      BlockKeeps(t, m, r, formats, false, f.json);
      BlockKeeps(t, m, r, formats, false, f.html);
      BlockKeeps(t, m, r, formats, false, f.pdf);
    }
  }

  /** The fixed-file artifacts exist only for a report with data that is
      compared with a fixed file, each under the same condition as the
      report's own; the XML report stays as KeepsXml says for the fixed
      variant. */
  lemma FixedRules(t: Tree, folder: Path, base: string, ir: Report, formats: seq<string>)
    requires Absent(t, FixedNames(folder, base))
    ensures var e := Expected(t, folder, base, ir, formats);
            var f := FixedNames(folder, base);
            var c := if ir.hasData then ir.compare else None;
            && Holds(e, f.xml, if c.Some? && KeepsXml(c.value, formats, true) then Some(c.value.xml) else None)
            && Holds(e, f.mets, if c.Some? && "XML" in formats then c.value.mets else None)
            && Holds(e, f.json, if c.Some? && "JSON" in formats then Some(c.value.json) else None)
            && Holds(e, f.html, if c.Some? && "HTML" in formats then Some(c.value.html) else None)
            && Holds(e, f.pdf, if c.Some? && "PDF" in formats then c.value.pdf else None)
  {
    var m := MainNames(folder, base);
    var f := FixedNames(folder, base);
    FixedSeparate(folder, base);
    KeepsAbsent(t, m, ir.main, f, formats, ir.hasData);
    if ir.hasData && ir.compare.Some? {
      FixedLayout(folder, base);
      BlockLeaves(BlockOut(t, m, ir.main, formats, false), f, ir.compare.value, formats, true, folder);
    }
  }

  /** Every path that is not an artifact of the report or of its fixed
      file, and not the `html` folder the report creates, is left as it
      was. */
  lemma ExpectedKeeps(t: Tree, folder: Path, base: string, ir: Report, formats: seq<string>, q: Path)
    requires q !in Artifacts(folder, base)
    requires q == folder + ["html"] ==> !(ir.hasData && "HTML" in formats)
    ensures var e := Expected(t, folder, base, ir, formats);
            (q in e <==> q in t) && (q in t ==> e[q] == t[q])
  {
    var m := MainNames(folder, base);
    if !ir.hasData {
      HeadKeeps(t, m, ir.main, formats, q);
    } else {
      BlockKeeps(t, m, ir.main, formats, false, q);
      if ir.compare.Some? {
        BlockKeeps(BlockOut(t, m, ir.main, formats, false), FixedNames(folder, base), ir.compare.value, formats, true, q);
      }
    }
  }
}
