/**
 * Where generateIndividualReport writes a report's HTML page. The Java
 * computes it on strings: it takes the file name behind the last '/' of
 * `<reportName>.html` and replaces every occurrence of that name in the
 * whole path with `html/<name>`. The intended place is the `html` folder
 * beside the report, `HtmlTarget`, which the rest of the model uses.
 */
module HtmlPage {
  import opened Text
  import opened FileSystem
  import opened RunFolders
  import opened IndividualReports

  /** The page path as the source computes it from the report name. */
  function HtmlTargetAsWritten(reportName: string): string {
    var htmlFile := reportName + ".html";
    var name := AfterLast(htmlFile, '/');
    AfterLastAppend(reportName, ".html", '/');
    assert '/' !in ".html";
    ReplaceAll(htmlFile, name, "html/" + name)
  }

  /** The as-written page path of a report name whose `.html` file is
      `pre + pat`, with the name `pat` behind its last '/' and nowhere
      before it. */
  lemma AsWrittenSuffix(reportName: string, pre: string, pat: string)
    requires |pat| > 0 && reportName + ".html" == pre + pat
    requires AfterLast(pre + pat, '/') == pat
    requires forall i :: 0 <= i < |pre| ==> !OccursAt(pre + pat, pat, i)
    ensures HtmlTargetAsWritten(reportName) == pre + ("html/" + pat)
  {
    ReplaceOnlySuffix(pre, pat, "html/" + pat);
  }

  lemma RegroupName(x: string, stem: string)
    ensures (x + "/" + stem) + ".html" == (x + "/") + (stem + ".html")
  {
  }

  lemma RegroupPage(x: string, pat: string)
    ensures x + "/" + "html" + "/" + pat == (x + "/") + ("html/" + pat)
  {
  }

  lemma ChildPath(folder: Path, a: string, b: string)
    ensures folder + [a, b] == (folder + [a]) + [b]
  {
  }

  /** When the page name occurs in the path only as its own last segment,
      the string substitution lands on the intended place. */
  lemma HtmlTargetAgrees(folder: Path, stem: string)
    requires '/' !in stem
    requires forall i :: 0 <= i < |PathString(folder) + "/"| ==>
               !OccursAt(PathString(folder) + "/" + (stem + ".html"), stem + ".html", i)
    ensures HtmlTargetAsWritten(PathString(folder + [stem])) == PathString(HtmlTarget(folder, stem + ".html"))
  {
    var x := PathString(folder);
    var pat := stem + ".html";
    PathStringAppend(folder, stem);
    RegroupName(x, stem);
    assert AfterLast((x + "/") + pat, '/') == pat by {
      assert '/' !in ".html";
      AfterLastBehind(x, "/", pat, '/');
      assert x + ("/" + pat) == (x + "/") + pat;
    }
    AsWrittenSuffix(PathString(folder + [stem]), x + "/", pat);
    ChildPath(folder, "html", pat);
    PathStringAppend(folder + ["html"], pat);
    PathStringAppend(folder, "html");
    RegroupPage(x, pat);
  }

  /** The file name behind the last '/' of a child's path string with an
      extension appended is the child's name with the extension. */
  lemma AfterLastChild(p: Path, name: string, ext: string)
    requires '/' !in name && '/' !in ext
    ensures AfterLast(PathString(p + [name]) + ext, '/') == name + ext
  {
    var x := PathString(p);
    var r := PathString(p + [name]);
    PathStringAppend(p, name);
    assert r == x + ("/" + name);
    AfterLastBehind(x, "/", name, '/');
    AfterLastAppend(r, ext, '/');
  }

  /** A path string starts with '/' and the first segment. */
  lemma {:induction false} SegmentsStart(p: Path, n: nat)
    requires 1 <= n <= |p|
    ensures |SegmentsString(p, n)| > |p[0]| && SegmentsString(p, n)[..|p[0]| + 1] == "/" + p[0]
  {
    if n > 1 {
      SegmentsStart(p, n - 1);
      var s := SegmentsString(p, n - 1);
      assert (s + "/" + p[n - 1])[..|p[0]| + 1] == s[..|p[0]| + 1];
    }
  }

  /** A report folder called `a.html` holding the report of `a`: every
      "a.html" in `/a.html/a.html` is replaced, so the page goes to
      `/html/a.html/html/a.html` instead of `/a.html/html/a.html`. */
  lemma HtmlTargetMisplaced()
    ensures HtmlTargetAsWritten(PathString(["a.html", "a"])) != PathString(HtmlTarget(["a.html"], "a.html"))
  {
    var pat := "a.html";
    var rep := "html/" + pat;
    var r := PathString(["a.html", "a"]);
    var s := r + ".html";
    SegmentsStart(["a.html", "a"], 2);
    assert s[0] == '/' && s[1..7] == pat;
    assert AfterLast(s, '/') == pat by {
      assert ["a.html", "a"] == ["a.html"] + ["a"];
      assert '/' !in ".html" && '/' !in "a";
      AfterLastChild(["a.html"], "a", ".html");
    }
    assert s[..|pat|] != pat by {
      assert pat[0] == 'a';
    }
    assert s[1..][..|pat|] == pat;
    var w := HtmlTargetAsWritten(r);
    assert w == [s[0]] + ReplaceAll(s[1..], pat, rep);
    assert ReplaceAll(s[1..], pat, rep) == rep + ReplaceAll(s[1..][|pat|..], pat, rep);
    assert w[1] == 'h';
    var q := HtmlTarget(["a.html"], pat);
    assert |q| == 3 && q[0] == pat;
    SegmentsStart(q, 3);
    assert PathString(q)[..7] == "/" + pat;
  }
}
