/**
 * makeSummaryReport of ReportGenerator: the summary of a run written into
 * the run folder (`summary.xml`, `summary.json`, `report.html` with its
 * `html` assets, `report.pdf`), then the whole run folder copied to the
 * configured output folder, if there is one.
 */
module SummaryReports {
  import opened Text
  import opened FileSystem
  import opened TreeOps
  import opened CopyOps
  import opened Assets
  import opened IndividualReports

  /** What the renderers produce for the global report: its XML text, the
      JSON rendering of that text, the HTML page and the PDF document. */
  datatype Global = Global(xml: string, json: string, html: string, pdf: string)

  function SummaryXml(folder: Path): Path { folder + ["summary.xml"] }
  function SummaryJson(folder: Path): Path { folder + ["summary.json"] }
  function SummaryHtml(folder: Path): Path { folder + ["report.html"] }
  function SummaryPdf(folder: Path): Path { folder + ["report.pdf"] }

  /** The paths a summary with the requested `formats` may change:
      `summary.xml` and, should a directory stand there, everything in it
      (deleteFileOrFolder removes it recursively); `summary.json` when
      "JSON" is requested; the page and everything in the `html` folder
      when "HTML" is; `report.pdf` when "PDF" is. */
  predicate Touched(q: Path, folder: Path, formats: seq<string>) {
    || Within(q, SummaryXml(folder))
    || ("JSON" in formats && q == SummaryJson(folder))
    || ("HTML" in formats && (q == SummaryHtml(folder) || Within(q, folder + ["html"])))
    || ("PDF" in formats && q == SummaryPdf(folder))
  }

  /** q is in t1 exactly as in t0. */
  predicate Kept(t0: Tree, t1: Tree, q: Path) {
    (q in t1 <==> q in t0) && (q in t1 ==> t1[q] == t0[q])
  }

  /** t1 differs from t0 only in paths a summary may change. */
  ghost predicate Untouched(t0: Tree, t1: Tree, folder: Path, formats: seq<string>) {
    forall q :: !Touched(q, folder, formats) ==> Kept(t0, t1, q)
  }

  /** The run folder is a directory and none of the summary files is a
      directory. */
  predicate Ready(t: Tree, folder: Path) {
    && IsDir(t, folder)
    && !IsDir(t, SummaryXml(folder)) && !IsDir(t, SummaryJson(folder))
    && !IsDir(t, SummaryHtml(folder)) && !IsDir(t, SummaryPdf(folder))
  }

  /** The summary files in t of a summary that started from t0 and got
      past the HTML staging: the XML summary stays only when "XML" is
      requested, each other requested rendering holds what its renderer
      produced, and each one not requested is as it was in t0 (a file of an
      earlier run stays, a missing one stays missing). */
  predicate SummaryFiles(t0: Tree, t: Tree, folder: Path, g: Global, formats: seq<string>) {
    && Holds(t, SummaryXml(folder), if "XML" in formats then Some(g.xml) else None)
    && (if "JSON" in formats then Holds(t, SummaryJson(folder), Some(g.json)) else Kept(t0, t, SummaryJson(folder)))
    && (if "HTML" in formats then Holds(t, SummaryHtml(folder), Some(g.html)) else Kept(t0, t, SummaryHtml(folder)))
    && (if "PDF" in formats then Holds(t, SummaryPdf(folder), Some(g.pdf)) else Kept(t0, t, SummaryPdf(folder)))
  }

  lemma SummaryParents(folder: Path)
    ensures Parent(SummaryXml(folder)) == folder && Parent(SummaryJson(folder)) == folder
    ensures Parent(SummaryHtml(folder)) == folder && Parent(SummaryPdf(folder)) == folder
  {
    ChildParent(folder, "summary.xml");
    ChildParent(folder, "summary.json");
    ChildParent(folder, "report.html");
    ChildParent(folder, "report.pdf");
  }

  /** Two children of one folder with different names: neither lies
      within the other. */
  lemma ChildrenApart(folder: Path, a: string, b: string)
    requires a != b
    ensures !Within(folder + [a], folder + [b])
  {
    assert (folder + [a])[|folder|] == a && (folder + [b])[|folder|] == b;
  }

  /** The summary files are four different paths, none within `summary.xml`
      but itself, none in the `html` folder, and the run folder is none of
      them. */
  lemma SummaryApart(folder: Path)
    ensures !Within(SummaryJson(folder), SummaryXml(folder)) && !Within(SummaryHtml(folder), SummaryXml(folder))
    ensures !Within(SummaryPdf(folder), SummaryXml(folder))
    ensures SummaryJson(folder) != SummaryHtml(folder) && SummaryJson(folder) != SummaryPdf(folder)
    ensures SummaryHtml(folder) != SummaryPdf(folder)
    ensures !Within(SummaryXml(folder), folder + ["html"]) && !Within(SummaryJson(folder), folder + ["html"])
    ensures !Within(SummaryHtml(folder), folder + ["html"]) && !Within(SummaryPdf(folder), folder + ["html"])
    ensures !Within(folder, SummaryXml(folder)) && !Within(folder, folder + ["html"])
  {
    assert "summary.xml"[8] == 'x' && "summary.json"[8] == 'j';
    ChildrenApart(folder, "summary.json", "summary.xml");
    assert "summary.xml"[0] == 's' && "report.html"[0] == 'r' && "report.pdf"[0] == 'r';
    ChildrenApart(folder, "report.html", "summary.xml");
    ChildrenApart(folder, "report.pdf", "summary.xml");
    OtherName(folder, "summary.json", "report.html");
    OtherName(folder, "summary.json", "report.pdf");
    OtherName(folder, "report.html", "report.pdf");
    assert "html"[0] == 'h';
    ChildrenApart(folder, "summary.xml", "html");
    ChildrenApart(folder, "summary.json", "html");
    ChildrenApart(folder, "report.html", "html");
    ChildrenApart(folder, "report.pdf", "html");
  }

  /** The first steps: `summary.xml` (the XML renderer writes it and
      returns its text), then `summary.json` when "JSON" is requested. */
  function DataT(t: Tree, folder: Path, g: Global, formats: seq<string>): Tree {
    var t1 := WriteT(t, SummaryXml(folder), g.xml).0;
    if "JSON" in formats then WriteT(t1, SummaryJson(folder), g.json).0 else t1
  }

  /** The last steps: `report.pdf` when "PDF" is requested, then the
      deletion of `summary.xml` when "XML" is not. */
  function FinishT(t: Tree, folder: Path, g: Global, formats: seq<string>): Tree {
    var t1 := if "PDF" in formats then WriteT(t, SummaryPdf(folder), g.pdf).0 else t;
    if "XML" in formats then t1 else Removed(t1, SummaryXml(folder))
  }

  /** The first steps change only the XML summary and, when requested, the
      JSON summary, and in a ready run folder write them. */
  lemma DataEffect(t: Tree, folder: Path, g: Global, formats: seq<string>)
    ensures forall q :: q != SummaryXml(folder) && ("JSON" in formats ==> q != SummaryJson(folder)) ==>
              Kept(t, DataT(t, folder, g, formats), q)
    ensures Ready(t, folder) ==>
              var t1 := DataT(t, folder, g, formats);
              && Ready(t1, folder) && Holds(t1, SummaryXml(folder), Some(g.xml))
              && ("JSON" in formats ==> Holds(t1, SummaryJson(folder), Some(g.json)))
  {
    SummaryParents(folder);
    SummaryApart(folder);
  }

  /** The last steps change only the PDF document, when requested, and
      what lies within `summary.xml`; in a ready run folder holding the XML summary they
      write the PDF document and keep the XML summary exactly when "XML" is
      requested. */
  lemma FinishEffect(t: Tree, folder: Path, g: Global, formats: seq<string>)
    requires WellFormed(t)
    ensures forall q :: ("PDF" in formats ==> q != SummaryPdf(folder)) && !Within(q, SummaryXml(folder)) ==>
              Kept(t, FinishT(t, folder, g, formats), q)
    ensures Ready(t, folder) && IsFile(t, SummaryXml(folder)) ==>
              var t2 := FinishT(t, folder, g, formats);
              && ("PDF" in formats ==> Holds(t2, SummaryPdf(folder), Some(g.pdf)))
              && ("XML" in formats ==> Kept(t, t2, SummaryXml(folder)))
              && ("XML" !in formats ==> SummaryXml(folder) !in t2)
  {
    SummaryParents(folder);
    SummaryApart(folder);
  }

  method WriteData(fs: FileSystem, folder: Path, g: Global, formats: seq<string>)
    requires fs.Valid()
    modifies fs
    ensures fs.Valid()
    ensures fs.tree == DataT(old(fs.tree), folder, g, formats)
  {
    var _ := fs.Write(SummaryXml(folder), g.xml);
    if "JSON" in formats {
      var _ := fs.Write(SummaryJson(folder), g.json);
    }
  }

  method Finish(fs: FileSystem, folder: Path, g: Global, formats: seq<string>)
    requires fs.Valid()
    modifies fs
    ensures fs.Valid()
    ensures fs.tree == FinishT(old(fs.tree), folder, g, formats)
  {
    if "PDF" in formats {
      var _ := fs.Write(SummaryPdf(folder), g.pdf);
    }
    if "XML" !in formats {
      DeleteFileOrFolder(fs, SummaryXml(folder));
    }
  }

  /** What the HTML steps (copyHtmlFolder, then the page) promise: only the
      `html` folder changes when the run folder exists, and the page too
      when they get through (`ok`); when they get through in a ready run
      folder, the page is written. */
  ghost predicate PageStep(t1: Tree, t2: Tree, folder: Path, g: Global, ok: bool) {
    && (IsDir(t1, folder) ==>
          forall q :: (ok ==> q != SummaryHtml(folder)) && !Within(q, folder + ["html"]) ==> Kept(t1, t2, q))
    && (ok && Ready(t1, folder) ==> Ready(t2, folder) && Holds(t2, SummaryHtml(folder), Some(g.html)))
  }

  /** copyHtmlFolder alone is a PageStep that does not get through; writing
      the page after it completes one that does. */
  lemma PageEffect(t0: Tree, t1: Tree, folder: Path, g: Global)
    requires IsDir(t0, folder) ==> SameOutside(t0, t1, folder + ["html"])
    ensures PageStep(t0, t1, folder, g, false)
    ensures PageStep(t0, WriteT(t1, SummaryHtml(folder), g.html).0, folder, g, true)
  {
    SummaryParents(folder);
    SummaryApart(folder);
    if IsDir(t0, folder) {
      assert !Within(folder, folder + ["html"]);
      assert Kept(t0, t1, folder);
    }
  }

  /** copyHtmlFolder, then the HTML page. `staged` is the tree copyHtmlFolder
      leaves and `o` its outcome; `Unchecked` stands for the unchecked
      exception that escapes it and skips the page. */
  method WritePage(fs: FileSystem, folder: Path, g: Global, devAssets: Path, codeSource: bool, resources: map<Path, string>)
    returns (o: Staging, ghost staged: Tree)
    requires fs.Valid() && Disjoint(devAssets, folder + ["html"])
    modifies fs
    ensures fs.Valid()
    ensures HtmlInstalled(old(fs.tree), staged, folder, devAssets, codeSource, resources, o)
    ensures fs.tree == if o == Unchecked then staged else WriteT(staged, SummaryHtml(folder), g.html).0
    ensures o == Unchecked ==> codeSource && devAssets !in old(fs.tree)
    ensures PageStep(old(fs.tree), fs.tree, folder, g, o != Unchecked)
  {
    ghost var t0 := fs.tree;
    o := CopyHtmlFolder(fs, folder, devAssets, codeSource, resources);
    staged := fs.tree;
    PageEffect(t0, fs.tree, folder, g);
    if o == Unchecked {
      return;
    }
    var _ := fs.Write(SummaryHtml(folder), g.html);
  }

  /** Writing the page leaves the `html` folder alone. */
  lemma PageKeepsAssets(t: Tree, folder: Path, g: Global)
    ensures SameWithin(t, WriteT(t, SummaryHtml(folder), g.html).0, folder + ["html"])
  {
    SummaryApart(folder);
  }

  /** The last steps leave the `html` folder alone. */
  lemma FinishKeepsAssets(t: Tree, folder: Path, g: Global, formats: seq<string>)
    requires WellFormed(t)
    ensures SameWithin(t, FinishT(t, folder, g, formats), folder + ["html"])
  {
    FinishEffect(t, folder, g, formats);
    SummaryApart(folder);
    ChildrenApart(folder, "html", "summary.xml");
    forall q | Within(q, folder + ["html"]) ensures !Within(q, SummaryXml(folder)) && q != SummaryPdf(folder) {
      if Within(q, SummaryXml(folder)) {
        WithinBoth(q, folder + ["html"], SummaryXml(folder));
      }
    }
  }

  /** The summary steps change only what a summary may change. */
  lemma SummaryUntouched(t0: Tree, t2: Tree, folder: Path, g: Global, formats: seq<string>)
    requires WellFormed(t2) && IsDir(t0, folder)
    requires "HTML" in formats ==> PageStep(DataT(t0, folder, g, formats), t2, folder, g, true)
    requires "HTML" !in formats ==> t2 == DataT(t0, folder, g, formats)
    ensures Untouched(t0, FinishT(t2, folder, g, formats), folder, formats)
  {
    var t1 := DataT(t0, folder, g, formats);
    DataEffect(t0, folder, g, formats);
    FinishEffect(t2, folder, g, formats);
    SummaryApart(folder);
    assert Kept(t0, t1, folder);
  }

  /** In a ready run folder, the summary steps leave the summary files
      SummaryFiles describes. */
  lemma SummaryWritten(t0: Tree, t2: Tree, folder: Path, g: Global, formats: seq<string>)
    requires WellFormed(t2) && Ready(t0, folder)
    requires "HTML" in formats ==> PageStep(DataT(t0, folder, g, formats), t2, folder, g, true)
    requires "HTML" !in formats ==> t2 == DataT(t0, folder, g, formats)
    ensures SummaryFiles(t0, FinishT(t2, folder, g, formats), folder, g, formats)
  {
    var t1 := DataT(t0, folder, g, formats);
    var t3 := FinishT(t2, folder, g, formats);
    DataEffect(t0, folder, g, formats);
    SummaryApart(folder);
    assert Kept(t0, t1, folder);
    assert Kept(t1, t2, SummaryXml(folder)) && Kept(t1, t2, SummaryJson(folder)) && Kept(t1, t2, SummaryPdf(folder));
    FinishEffect(t2, folder, g, formats);
    assert Kept(t2, t3, SummaryJson(folder)) && Kept(t2, t3, SummaryHtml(folder));
    if "JSON" !in formats {
      assert Kept(t0, t1, SummaryJson(folder));
    }
    if "HTML" !in formats {
      assert Kept(t0, t1, SummaryHtml(folder));
    }
    if "PDF" !in formats {
      assert Kept(t0, t1, SummaryPdf(folder)) && Kept(t2, t3, SummaryPdf(folder));
    }
  }

  /** When copyHtmlFolder raises the unchecked exception, only the `html`
      folder has changed since the first steps: `summary.xml` is still
      there, and the page and the PDF document are as they were. */
  lemma UncheckedKeepsXml(t0: Tree, t2: Tree, folder: Path, g: Global, formats: seq<string>)
    requires "HTML" in formats
    requires PageStep(DataT(t0, folder, g, formats), t2, folder, g, false)
    ensures IsDir(t0, folder) ==>
              Untouched(t0, t2, folder, formats) && Kept(t0, t2, SummaryHtml(folder)) && Kept(t0, t2, SummaryPdf(folder))
    ensures Ready(t0, folder) ==> Holds(t2, SummaryXml(folder), Some(g.xml))
  {
    var t1 := DataT(t0, folder, g, formats);
    DataEffect(t0, folder, g, formats);
    SummaryApart(folder);
    if IsDir(t0, folder) {
      assert Kept(t0, t1, folder);
    }
  }

  /** The summary steps inside the run folder: the returned text is the XML
      summary, and `None` stands for the unchecked exception of
      copyHtmlFolder, which leaves `summary.xml` in place even when "XML"
      is not requested and writes neither the page nor the PDF document.
      When "HTML" is requested, `staged` is the tree copyHtmlFolder leaves,
      `o` its outcome, and the `html` folder ends as it left it. Nothing a
      summary does not write changes. */
  method WriteSummary(fs: FileSystem, folder: Path, g: Global, formats: seq<string>,
                      devAssets: Path, codeSource: bool, resources: map<Path, string>)
    returns (r: Option<string>, ghost staged: Tree, ghost o: Staging)
    requires fs.Valid() && Disjoint(devAssets, folder + ["html"])
    modifies fs
    ensures fs.Valid()
    ensures r.None? <==> "HTML" in formats && o == Unchecked
    ensures r.None? ==> codeSource && devAssets !in old(fs.tree)
    ensures r.Some? ==> r.value == g.xml
    ensures "HTML" in formats ==>
              && HtmlInstalled(DataT(old(fs.tree), folder, g, formats), staged, folder, devAssets, codeSource, resources, o)
              && SameWithin(staged, fs.tree, folder + ["html"])
    ensures IsDir(old(fs.tree), folder) ==> Untouched(old(fs.tree), fs.tree, folder, formats)
    ensures r.Some? && Ready(old(fs.tree), folder) ==> SummaryFiles(old(fs.tree), fs.tree, folder, g, formats)
    ensures r.None? && IsDir(old(fs.tree), folder) ==>
              Kept(old(fs.tree), fs.tree, SummaryHtml(folder)) && Kept(old(fs.tree), fs.tree, SummaryPdf(folder))
    ensures r.None? && Ready(old(fs.tree), folder) ==> Holds(fs.tree, SummaryXml(folder), Some(g.xml))
  {
    ghost var t0 := fs.tree;
    WriteData(fs, folder, g, formats);
    staged, o := fs.tree, Staged;
    if "HTML" in formats {
      var page: Staging;
      page, staged := WritePage(fs, folder, g, devAssets, codeSource, resources);
      o := page;
      if page == Unchecked {
        UncheckedKeepsXml(t0, fs.tree, folder, g, formats);
        r := None;
        return;
      }
      PageKeepsAssets(staged, folder, g);
    }
    ghost var t2 := fs.tree;
    Finish(fs, folder, g, formats);
    FinishKeepsAssets(t2, folder, g, formats);
    if IsDir(t0, folder) {
      SummaryUntouched(t0, t2, folder, g, formats);
    }
    if Ready(t0, folder) {
      SummaryWritten(t0, t2, folder, g, formats);
    }
    r := Some(g.xml);
  }

  // ---------------------------------------------------------------------
  // The copy to the output folder

  /** A path beneath nothing but missing paths is missing. */
  lemma MissingBeneath(t: Tree, p: Path, r: Path)
    requires WellFormed(t) && p !in t
    ensures p + r !in t
  {
    if p + r in t {
      assert (p + r)[..|p|] == p;
      ValidAncestor(t, p + r, |p|);
    }
  }

  /** A path whose parent lies within p lies within p. */
  lemma ParentWithin(q: Path, p: Path)
    requires q != [] && Within(Parent(q), p)
    ensures Within(q, p)
  {
    assert q[..|p|] == Parent(q)[..|p|];
  }

  /** An output folder that can be created before the summary can still be
      created when the copy starts, and a missing one is in the way of
      nothing. */
  lemma OutputReady(t0: Tree, t1: Tree, folder: Path, out: Path)
    requires WellFormed(t1) && Disjoint(folder, out)
    requires forall q :: !Within(q, folder) ==> Kept(t0, t1, q)
    ensures CanCreate(t0, out) ==> CanCreate(t1, out)
    ensures out !in t0 ==> out !in t1 && Compatible(t1, folder, out)
  {
    assert Kept(t0, t1, out);
    if out != [] {
      if Within(Parent(out), folder) {
        ParentWithin(out, folder);
      }
      assert Kept(t0, t1, Parent(out));
    }
    if out !in t0 {
      forall r | folder + r in t1 && out + r in t1 ensures false {
        MissingBeneath(t1, out, r);
      }
    }
  }

  /** A copy into a folder disjoint from its source mirrors the source as
      it is after the copy. */
  lemma MirroredAfter(t1: Tree, t2: Tree, folder: Path, out: Path)
    requires Disjoint(folder, out) && SameOutside(t1, t2, out) && Mirrored(t1, t2, folder, out)
    ensures Mirrored(t2, t2, folder, out)
  {
    forall r | folder + r in t2 ensures out + r in t2 && t2[out + r] == t2[folder + r] {
      AppendWithin(folder, r);
      if Within(folder + r, out) {
        WithinBoth(folder + r, folder, out);
      }
    }
  }

  /** Untouched paths of the run folder are untouched within it. */
  lemma UntouchedInside(t0: Tree, t1: Tree, folder: Path, formats: seq<string>)
    requires Untouched(t0, t1, folder, formats)
    ensures forall q :: !Within(q, folder) ==> Kept(t0, t1, q)
  {
    forall q | !Within(q, folder) ensures !Touched(q, folder, formats) {
      AppendWithin(folder, ["summary.xml"]);
      AppendWithin(folder, ["summary.json"]);
      AppendWithin(folder, ["report.html"]);
      AppendWithin(folder, ["report.pdf"]);
      AppendWithin(folder, ["html"]);
      if Within(q, folder + ["html"]) {
        WithinTrans(q, folder + ["html"], folder);
      }
    }
  }

  lemma WithinTrans(a: Path, b: Path, c: Path)
    requires Within(a, b) && Within(b, c)
    ensures Within(a, c)
  {
    if a != b && b != c {
      assert a[..|c|] == a[..|b|][..|c|];
    }
  }

  /** `makeSummaryReport(folder, gr, config)` with `output` the configured
      output folder. `staged` and `o` are as in WriteSummary, and `written`
      is the tree once the summary is written, before the copy. When the
      run folder exists, the summary files are as SummaryFiles says, nothing
      a summary does not write changes outside the output folder, and an
      output folder that can be created and is compatible with the run
      folder ends up holding a copy of the whole run folder, whether it is
      new or left by an earlier run. */
  method MakeSummaryReport(fs: FileSystem, folder: Path, g: Global, formats: seq<string>, output: Option<Path>,
                           devAssets: Path, codeSource: bool, resources: map<Path, string>)
    returns (r: Option<string>, ghost staged: Tree, ghost o: Staging, ghost written: Tree)
    requires fs.Valid() && Disjoint(devAssets, folder + ["html"])
    requires output.Some? ==> Disjoint(folder, output.value)
    modifies fs
    ensures fs.Valid()
    ensures r.None? <==> "HTML" in formats && o == Unchecked
    ensures r.None? ==> codeSource && devAssets !in old(fs.tree)
    ensures r.Some? ==> r.value == g.xml
    ensures "HTML" in formats ==>
              && HtmlInstalled(DataT(old(fs.tree), folder, g, formats), staged, folder, devAssets, codeSource, resources, o)
              && SameWithin(staged, fs.tree, folder + ["html"])
    ensures IsDir(old(fs.tree), folder) ==> Untouched(old(fs.tree), written, folder, formats)
    ensures r.None? || output.None? ==> fs.tree == written
    ensures output.Some? ==> SameOutside(written, fs.tree, output.value)
    ensures Ready(old(fs.tree), folder) && r.Some? ==> SummaryFiles(old(fs.tree), fs.tree, folder, g, formats)
    ensures IsDir(old(fs.tree), folder) ==>
              forall q :: !Touched(q, folder, formats) && (output.Some? ==> !Within(q, output.value)) ==>
                Kept(old(fs.tree), fs.tree, q)
    ensures IsDir(old(fs.tree), folder) && r.Some? && output.Some? && CanCreate(old(fs.tree), output.value)
            && Compatible(written, folder, output.value) ==>
              Mirrored(fs.tree, fs.tree, folder, output.value)
    ensures IsDir(old(fs.tree), folder) && r.Some? && output.Some? && output.value !in old(fs.tree)
            && CanCreate(old(fs.tree), output.value) ==>
              Mirrored(fs.tree, fs.tree, folder, output.value)
  {
    ghost var t0 := fs.tree;
    r, staged, o := WriteSummary(fs, folder, g, formats, devAssets, codeSource, resources);
    written := fs.tree;
    if r.None? || output.None? {
      return;
    }
    var out := output.value;
    var _ := Copy(fs, folder, out);
    if IsDir(t0, folder) {
      OutputCopied(t0, written, fs.tree, folder, out, formats);
    }
    AppendWithin(folder, ["html"]);
    CopyKeepsInside(written, fs.tree, folder, out, folder + ["html"]);
    SummaryKept(t0, written, fs.tree, folder, out, g, formats);
  }

  /** What the copy to the output folder adds to the summary: nothing
      outside the output folder changes, and an output folder that can be
      created and is compatible with the run folder, or is missing, ends up
      mirroring the run folder. */
  lemma OutputCopied(t0: Tree, t1: Tree, t2: Tree, folder: Path, out: Path, formats: seq<string>)
    requires WellFormed(t1) && Disjoint(folder, out) && IsDir(t0, folder)
    requires Untouched(t0, t1, folder, formats) && SameOutside(t1, t2, out)
    requires folder in t1 && Compatible(t1, folder, out) && CanCreate(t1, out) ==> Mirrored(t1, t2, folder, out)
    ensures forall q :: !Touched(q, folder, formats) && !Within(q, out) ==> Kept(t0, t2, q)
    ensures CanCreate(t0, out) && (Compatible(t1, folder, out) || out !in t0) ==> Mirrored(t2, t2, folder, out)
  {
    UntouchedInside(t0, t1, folder, formats);
    OutputReady(t0, t1, folder, out);
    SummaryApart(folder);
    assert Kept(t0, t1, folder);
    if CanCreate(t0, out) && Compatible(t1, folder, out) {
      MirroredAfter(t1, t2, folder, out);
    }
  }

  /** A copy confined to the output folder leaves everything within the
      run folder alone. */
  lemma CopyKeepsInside(t1: Tree, t2: Tree, folder: Path, out: Path, p: Path)
    requires Disjoint(folder, out) && SameOutside(t1, t2, out) && Within(p, folder)
    ensures SameWithin(t1, t2, p)
  {
    forall q | Within(q, p) ensures !Within(q, out) {
      WithinTrans(q, p, folder);
      if Within(q, out) {
        WithinBoth(q, folder, out);
      }
    }
  }

  /** The copy leaves the summary files as they were. */
  lemma SummaryKept(t0: Tree, t1: Tree, t2: Tree, folder: Path, out: Path, g: Global, formats: seq<string>)
    requires Disjoint(folder, out) && SameOutside(t1, t2, out)
    ensures SummaryFiles(t0, t1, folder, g, formats) ==> SummaryFiles(t0, t2, folder, g, formats)
  {
    CopyKeepsInside(t1, t2, folder, out, folder);
    forall n | n in ["summary.xml", "summary.json", "report.html", "report.pdf"] ensures Kept(t1, t2, folder + [n]) {
      AppendWithin(folder, [n]);
    }
  }
}
