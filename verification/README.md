# DPF Manager report writer and conformance-checker store, modelled in Dafny

This project models two parts of DPF Manager, a conformance checker for TIFF
files:

- the report generator (`ReportGenerator`). It allocates a numbered run
  folder under the reports folder for each check. It chooses a free name
  for each file's individual report. It writes the individual reports (XML,
  METS, JSON, HTML, PDF, and a second set for the fixed file). It writes
  the run's summary, installs the HTML assets beside it, and copies the
  run folder to the configured output folder. It also provides the
  recursive delete and copy helpers these steps use.
- the interoperability manager (`InteroperabilityManager`). It stores the
  list of conformance-checker definitions as a `tns:ListOutput` XML
  document, saves it through a temporary `.new` file, and reads it back
  from the configuration file or from the built-in definition.

The filesystem is a value: a map from segment paths to `Dir` or
`File(content)` (`FileSystem.Tree`). Each `java.io.File` call the code
makes is a function on that map returning the new tree and the call's
boolean result (`MkdirT`, `DeleteT`, `WriteT`, `RenameT`, `MkdirsT`, ...).
The class `FileSystem.FileSystem` holds the current tree in a field. Its
methods update the field and are proved equal to those functions.

Each operation of the Java code is a method over a `FileSystem` object. The
method is proved against a function that states the tree it leaves. The
lemmas beside it say what that tree contains: which files exist and with
what content, what is left alone, and what happens on each error path.

Where the Java loops, the model loops too:

- the run-index scan in `RunFolders.ScanIndex`;
- the collision scan in `ReportNaming.GetReportName`;
- the per-child loop of `deleteFileOrFolder` in `TreeOps.DeleteFileOrFolder`;
- the loop over a directory's entries in `CopyOps.CopyChildren`;
- the 1024-byte chunk loop of `copyFile` in `CopyOps.WriteChunks`;
- the manifest loops of `copyHtmlFolder` in `Assets.EnsureFolders` and
  `Assets.StageAssets`;
- the loop over the definitions in `Interoperability.GetXml`;
- the decoding loop in `Interoperability.ReadConformanceCheckers`.

The modules follow the source:

| file | module | models |
|---|---|---|
| text.dfy | `Text` | `lastIndexOf`, ASCII `toUpperCase`, `Integer.toString`, `File.getName`, `String.replace` |
| filesystem.dfy | `FileSystem` | the filesystem calls the code makes |
| run_folders.dfy | `RunFolders` | `createReportPath`, `getLastReportPath`, `validateDirectory` |
| report_naming.dfy | `ReportNaming` | `getFileType`, `getReportName` |
| tree_ops.dfy | `TreeOps`, `CopyOps` | `deleteFileOrFolder`, `copy`, `copyDirectory`, `copyFile` |
| assets.dfy | `Assets` | `copyHtmlFolder` |
| individual_reports.dfy | `IndividualReports` | `generateIndividualReport`, `writeProcomputedIndividual` |
| html_page.dfy | `HtmlPage` | the string substitution that places an individual HTML page |
| summary_reports.dfy | `SummaryReports` | `makeSummaryReport` |
| interoperability.dfy | `Interoperability` | `writeChanges`, `getXML`, `getString`, `loadFromFile`, `loadFromBuiltIn`, `readConformanceCheckers` |

Source paths in the table below are relative to the repository root.

## Model

| member | source | states |
|---|---|---|
| FileSystem.FileSystem.Read | src/main/java/dpfmanager/shell/modules/report/core/ReportGenerator.java:398-407 | Reading a path yields its content exactly when the path is a file. |
| FileSystem.FileSystem.Mkdirs | src/main/java/dpfmanager/shell/modules/report/core/ReportGenerator.java:437-439 | `mkdirs` creates every missing ancestor one level at a time; the result equals `MkdirsT`. |
| FileSystem.MkdirsKeeps | src/main/java/dpfmanager/shell/modules/report/core/ReportGenerator.java:437-439 | `mkdirs` changes no existing entry; every new entry is a directory on the way to the target; it reports success only if the target was absent. |
| FileSystem.MkdirsReaches | src/main/java/dpfmanager/shell/modules/report/core/ReportGenerator.java:437-439 | When no file blocks the way, the target is a directory afterwards. |
| Text.LastIndexOf | src/main/java/dpfmanager/shell/modules/report/core/ReportGenerator.java:186 | The result is -1 or the position of the character, and no later position holds it. |
| Text.LastIndexAbsent | src/main/java/dpfmanager/shell/modules/report/core/ReportGenerator.java:186 | `lastIndexOf` is -1 exactly when the character does not occur. |
| Text.Upper | src/main/java/dpfmanager/shell/modules/report/core/ReportGenerator.java:186 | Upper-casing keeps the length and maps each character on its own (ASCII letters only). |
| Text.UpperIdempotent | src/main/java/dpfmanager/shell/modules/report/core/ReportGenerator.java:186 | Upper-casing twice is upper-casing once. |
| Text.ParseNatStr | src/main/java/dpfmanager/shell/modules/report/core/ReportGenerator.java:138-147 | The decimal name of an index folder reads back as the same number. |
| Text.NatStrInjective | src/main/java/dpfmanager/shell/modules/report/core/ReportGenerator.java:138-147 | Distinct indices name distinct folders. |
| Text.AfterLastSuffix | src/main/java/dpfmanager/shell/modules/report/core/ReportGenerator.java:573 | The text behind the last separator is the substring after `lastIndexOf`. |
| Text.ReplaceOnlySuffix | src/main/java/dpfmanager/shell/modules/report/core/ReportGenerator.java:574 | When the pattern occurs only at the very end, replacing every occurrence rewrites just that suffix. |
| RunFolders.ValidateDirectory | src/main/java/dpfmanager/shell/modules/report/core/ReportGenerator.java:168-177 | The new tree is `ValidateT`: delete a non-directory at the path, then `mkdir` if it is missing. |
| RunFolders.ValidateEffect | src/main/java/dpfmanager/shell/modules/report/core/ReportGenerator.java:168-177 | Only the path itself changes. If it can be created, it is a directory afterwards. An existing directory is left alone. A new directory is empty. |
| RunFolders.FirstFree | src/main/java/dpfmanager/shell/modules/report/core/ReportGenerator.java:137-142 | The scan stops at the first index whose folder does not exist; every index before it exists. |
| RunFolders.FirstFreeUnique | src/main/java/dpfmanager/shell/modules/report/core/ReportGenerator.java:137-142 | Any index that is free while all indices below it are taken is the one the scan finds. |
| RunFolders.ScanIndex | src/main/java/dpfmanager/shell/modules/report/core/ReportGenerator.java:137-142 | The loop returns an index of at least 1 whose folder is absent, with all lower indices present. |
| RunFolders.CreateReportPath | src/main/java/dpfmanager/shell/modules/report/core/ReportGenerator.java:124-152 | Covers both modes and the early return for a missing date folder when looking up the last report. Otherwise the date folder is validated. The last report is index-1. A new run validates the first free index folder and returns its path with a trailing '/'. |
| RunFolders.RunFolder | src/main/java/dpfmanager/shell/modules/report/core/ReportGenerator.java:137-151 | The index part: `subtract1` leaves the tree unchanged and names the last index; otherwise the first free index folder is created. |
| RunFolders.AllocationCreatesRunFolder | src/main/java/dpfmanager/shell/modules/report/core/ReportGenerator.java:110-112 | A new run folder is an empty directory. It was absent before, sits in the date folder inside the reports folder, and every lower index already exists. |
| RunFolders.LastReportLookup | src/main/java/dpfmanager/shell/modules/report/core/ReportGenerator.java:114-116 | `getLastReportPath` leaves everything under the date folder as it was and names an existing index folder, or index 0 when there is none. |
| RunFolders.NextAllocation | src/main/java/dpfmanager/shell/modules/report/core/ReportGenerator.java:137-148 | After index n is created, the next allocation takes n+1 when that is free. |
| RunFolders.FirstAllocation | src/main/java/dpfmanager/shell/modules/report/core/ReportGenerator.java:137-142 | In an empty date folder the first run gets index 1. |
| ReportNaming.FileTypeSubstring | src/main/java/dpfmanager/shell/modules/report/core/ReportGenerator.java:184-188 | The file type is the upper-cased substring after the last '.'. |
| ReportNaming.FileTypeShape | src/main/java/dpfmanager/shell/modules/report/core/ReportGenerator.java:184-188 | The type never contains '.'. Without a '.', it is the whole path upper-cased. |
| ReportNaming.FileTypeAppend | src/main/java/dpfmanager/shell/modules/report/core/ReportGenerator.java:184-188 | Only the text after the last '.' matters. |
| ReportNaming.FileTypeOfExtension | src/main/java/dpfmanager/shell/modules/report/core/ReportGenerator.java:184-188 | The type of `stem.ext` is `ext` upper-cased. |
| ReportNaming.GetReportName | src/main/java/dpfmanager/shell/modules/report/core/ReportGenerator.java:198-213 | The result is the unique name the scan defines and does not exist. A free `<id>-<name>` is taken as is. The call fails exactly when the file name has no '.' and `<id>-<name>` exists (`substring(0, -1)` throws). |
| ReportNaming.ReportNameUnique | src/main/java/dpfmanager/shell/modules/report/core/ReportGenerator.java:198-213 | The scan's outcome is determined by the tree and the inputs. |
| ReportNaming.TakenBefore | src/main/java/dpfmanager/shell/modules/report/core/ReportGenerator.java:201-210 | Every candidate tried before the chosen one exists. |
| ReportNaming.ScanFound | src/main/java/dpfmanager/shell/modules/report/core/ReportGenerator.java:201-211 | A free candidate reached after all earlier ones were taken is the report name; when the first is free, it is chosen. |
| ReportNaming.CandidateIsRetry | src/main/java/dpfmanager/shell/modules/report/core/ReportGenerator.java:203-208 | When the file name itself has a '.', retry k is `<id>-<stem><k>.<TYPE>`, with the type read back from the previous candidate. |
| ReportNaming.TypeOfCandidate | src/main/java/dpfmanager/shell/modules/report/core/ReportGenerator.java:204 | Every candidate has the type of the original file name. |
| ReportNaming.RetryInjective | src/main/java/dpfmanager/shell/modules/report/core/ReportGenerator.java:203-208 | Different retry counters give different names. |
| ReportNaming.CandidateGrows | src/main/java/dpfmanager/shell/modules/report/core/ReportGenerator.java:203-208 | When the only '.' is in the directory part, each retry is `<id>-` plus the previous candidate upper-cased. |
| ReportNaming.CandidateLonger | src/main/java/dpfmanager/shell/modules/report/core/ReportGenerator.java:203-208 | In that case every retry is longer than the one before. |
| ReportNaming.RetryProgress | src/main/java/dpfmanager/shell/modules/report/core/ReportGenerator.java:202-210 | Each taken retry leaves fewer existing retry names ahead, so the scan ends. |
| ReportNaming.PlainProgress | src/main/java/dpfmanager/shell/modules/report/core/ReportGenerator.java:202-210 | In the growing case each taken candidate leaves fewer existing names at least as long, so the scan ends. |
| TreeOps.DeleteFileOrFolder | src/main/java/dpfmanager/shell/modules/report/core/ReportGenerator.java:294-306 | The new tree is the old one with the path and everything beneath it removed. |
| CopyOps.DeleteRemovesSubtree | src/main/java/dpfmanager/shell/modules/report/core/ReportGenerator.java:294-306 | After the delete nothing at or beneath the path exists. Everything else is kept with its content, and the tree stays well formed. |
| CopyOps.CopyFile | src/main/java/dpfmanager/shell/modules/report/core/ReportGenerator.java:398-407 | Opening the target truncates it; the chunks are then appended; the result equals `CopyFileT`. |
| CopyOps.WriteChunks | src/main/java/dpfmanager/shell/modules/report/core/ReportGenerator.java:402-405 | Appending the source 1024 characters at a time leaves the whole content in the target. |
| CopyOps.CopyFileWrites | src/main/java/dpfmanager/shell/modules/report/core/ReportGenerator.java:398-407 | Copying a file onto another path writes its content there; a missing source fails with nothing changed. |
| CopyOps.CopyFileOntoItself | src/main/java/dpfmanager/shell/modules/report/core/ReportGenerator.java:398-407 | Copying a file onto itself empties it: the output stream truncates before anything is read. |
| CopyOps.CopyFileEffect | src/main/java/dpfmanager/shell/modules/report/core/ReportGenerator.java:398-407 | Only the target changes and nothing is removed. What changes comes from the source. When the target can be created, the copy succeeds and mirrors the source. |
| CopyOps.Copy | src/main/java/dpfmanager/shell/modules/report/core/ReportGenerator.java:315-321 | A copy changes nothing outside the target and removes nothing. What is new beneath the target comes from the same place beneath the source. With compatible kinds and a creatable target, the whole source tree is mirrored. |
| CopyOps.CopyDirectory | src/main/java/dpfmanager/shell/modules/report/core/ReportGenerator.java:330-341 | Same guarantees as `Copy` for a directory. When `mkdir` of a missing target fails, the call returns with nothing changed. |
| CopyOps.CopyChildren | src/main/java/dpfmanager/shell/modules/report/core/ReportGenerator.java:338-340 | The loop over the entries copies each child to the same name under the target. |
| Assets.ManifestShape | src/main/java/dpfmanager/shell/modules/report/core/ReportGenerator.java:465-500 | The bundled manifest: 4 scripts, 4 images, 12 fonts and 4 style sheets, each directly inside its folder. |
| Assets.ManifestDistinct | src/main/java/dpfmanager/shell/modules/report/core/ReportGenerator.java:465-495 | No asset is listed twice. |
| Assets.ManifestLayout | src/main/java/dpfmanager/shell/modules/report/core/ReportGenerator.java:465-500 | Every asset's folder is one of the four asset folders under `html`. |
| Assets.EnsureFolders | src/main/java/dpfmanager/shell/modules/report/core/ReportGenerator.java:503-507 | The new tree is `EnsureFoldersT`: `mkdirs` of each folder that does not exist. |
| Assets.FoldersReady | src/main/java/dpfmanager/shell/modules/report/core/ReportGenerator.java:503-507 | Afterwards every asset folder is a directory when no file blocks it. |
| Assets.StageAsset | src/main/java/dpfmanager/shell/modules/report/core/ReportGenerator.java:510-522 | One asset: `createNewFile` when absent, then the resource written over it. An I/O failure aborts, and a missing resource is an unchecked failure. |
| Assets.StageAssets | src/main/java/dpfmanager/shell/modules/report/core/ReportGenerator.java:510-525 | The asset loop stops at the first failure. |
| Assets.StageAbortStops | src/main/java/dpfmanager/shell/modules/report/core/ReportGenerator.java:510-525 | After a failure at asset k, the later assets are not touched. |
| Assets.StageOnlyTargets | src/main/java/dpfmanager/shell/modules/report/core/ReportGenerator.java:510-522 | Staging changes only the listed asset paths. |
| Assets.StageAllWritten | src/main/java/dpfmanager/shell/modules/report/core/ReportGenerator.java:510-522 | With distinct, writable targets and every resource present, each asset holds its resource's content. |
| Assets.AllAssetsStaged | src/main/java/dpfmanager/shell/modules/report/core/ReportGenerator.java:454-525 | The bundled branch creates the four folders and writes all 24 assets with their content. |
| Assets.CopyHtmlFolder | src/main/java/dpfmanager/shell/modules/report/core/ReportGenerator.java:431-537 | `html` is created when missing. A development asset directory is copied into it and mirrored when compatible. A development asset file does nothing. Without one, and with a code source, the manifest is staged; without a code source nothing more happens. Only the bundled branch can fail unchecked. Nothing outside `html` changes. |
| Assets.BundledInside | src/main/java/dpfmanager/shell/modules/report/core/ReportGenerator.java:454-525 | The bundled branch changes nothing outside the `html` folder. |
| IndividualReports.GenerateIndividualReport | src/main/java/dpfmanager/shell/modules/report/core/ReportGenerator.java:555-631 | The method takes exactly the steps of `IndividualPlan`. |
| IndividualReports.IndividualPlan | src/main/java/dpfmanager/shell/modules/report/core/ReportGenerator.java:555-570 | The XML report is written first. A report without data only writes files (XML, METS, JSON). |
| IndividualReports.WriteHead | src/main/java/dpfmanager/shell/modules/report/core/ReportGenerator.java:556-568 | The XML report, then METS when present and "XML" is requested, then JSON when requested. |
| IndividualReports.CloseReport | src/main/java/dpfmanager/shell/modules/report/core/ReportGenerator.java:579-591 | The PDF is saved when requested and present, then the XML report is deleted unless "XML" is requested. In the fixed variant a missing PDF throws and skips the delete. |
| IndividualReports.IndividualRun | src/main/java/dpfmanager/shell/modules/report/core/ReportGenerator.java:555-631 | When the report folder is a directory and no artifact exists yet, the steps produce the tree `Expected`. |
| IndividualReports.MainRules | src/main/java/dpfmanager/shell/modules/report/core/ReportGenerator.java:556-591 | Which main artifacts exist afterwards and with what content, format by format. XML stays when requested or when there is no data. HTML and PDF appear only with data. The `html` folder exists when an HTML page is written. |
| IndividualReports.FixedRules | src/main/java/dpfmanager/shell/modules/report/core/ReportGenerator.java:594-630 | The same for the `_fixed` artifacts, which exist only for a report with data and a compared report. `Mets_fixed.xml` is used for METS. |
| IndividualReports.ExpectedKeeps | src/main/java/dpfmanager/shell/modules/report/core/ReportGenerator.java:555-631 | Every path other than the report's artifacts (and the `html` folder when a page is written) is left as it was. |
| IndividualReports.HeadEffect | src/main/java/dpfmanager/shell/modules/report/core/ReportGenerator.java:561-568 | The head steps write their files into the report folder. |
| IndividualReports.BlockLeaves | src/main/java/dpfmanager/shell/modules/report/core/ReportGenerator.java:556-591 | One report block leaves exactly the requested artifacts. |
| IndividualReports.FixedKeepsMain | src/main/java/dpfmanager/shell/modules/report/core/ReportGenerator.java:594-630 | Writing the fixed report leaves the main report's artifacts as they were. |
| IndividualReports.RunWellFormed | src/main/java/dpfmanager/shell/modules/report/core/ReportGenerator.java:539-547 | Any sequence of writes, `mkdirs` and deletes keeps the tree well formed. |
| HtmlPage.HtmlTargetAgrees | src/main/java/dpfmanager/shell/modules/report/core/ReportGenerator.java:572-577 | When the page name occurs in the report path only as its last segment, the string substitution yields `html/<name>` beside the report. |
| HtmlPage.HtmlTargetMisplaced | src/main/java/dpfmanager/shell/modules/report/core/ReportGenerator.java:572-577 | A folder named like the page makes the substitution rewrite the folder too. |
| SummaryReports.WriteData | src/main/java/dpfmanager/shell/modules/report/core/ReportGenerator.java:649-653 | `summary.xml` is written, then `summary.json` when "JSON" is requested. |
| SummaryReports.DataEffect | src/main/java/dpfmanager/shell/modules/report/core/ReportGenerator.java:649-653 | Only `summary.xml` changes, and `summary.json` only when "JSON" is requested. In a run folder they hold the XML and JSON renderings. |
| SummaryReports.Finish | src/main/java/dpfmanager/shell/modules/report/core/ReportGenerator.java:658-663 | The PDF is written when requested, then `summary.xml` is deleted unless "XML" is requested. |
| SummaryReports.FinishEffect | src/main/java/dpfmanager/shell/modules/report/core/ReportGenerator.java:658-663 | Only `summary.xml` changes, and the PDF only when "PDF" is requested. The PDF holds its rendering, and `summary.xml` is kept exactly when "XML" is requested. |
| SummaryReports.WritePage | src/main/java/dpfmanager/shell/modules/report/core/ReportGenerator.java:654-657 | The `html` folder ends as `copyHtmlFolder` leaves it (`Assets.HtmlInstalled`), then `report.html` is written. An unchecked failure of the bundled branch skips the page. Only the `html` folder and the page change. |
| SummaryReports.WriteSummary | src/main/java/dpfmanager/shell/modules/report/core/ReportGenerator.java:641-663 | The result is the XML text, or none exactly when "HTML" is requested and the asset installation throws. With "HTML", the `html` folder ends as `copyHtmlFolder` leaves it. Nothing changes beyond `summary.xml` and the requested files (the `html` folder only with "HTML"). In a run folder every requested summary file holds its content and every other one is as before. After a failure `summary.xml` survives and the page and the PDF are as before. |
| SummaryReports.SummaryWritten | src/main/java/dpfmanager/shell/modules/report/core/ReportGenerator.java:641-663 | The requested summary files hold their renderings; `summary.json`, `report.html` and `report.pdf` are as before when not requested; `summary.xml` exists exactly when "XML" is requested. |
| SummaryReports.SummaryUntouched | src/main/java/dpfmanager/shell/modules/report/core/ReportGenerator.java:641-663 | The summary changes nothing beyond `summary.xml`, the requested files and, with "HTML", the `html` folder. |
| SummaryReports.UncheckedKeepsXml | src/main/java/dpfmanager/shell/modules/report/core/ReportGenerator.java:654-657 | When the asset installation throws, the XML summary stays in place and the page and the PDF are as before. |
| SummaryReports.MakeSummaryReport | src/main/java/dpfmanager/shell/modules/report/core/ReportGenerator.java:641-681 | Everything `WriteSummary` promises, outside the output folder. Then the copy touches only the output folder. An output folder that can be created and is compatible with the run folder mirrors the run folder afterwards, whether it is new or left by an earlier run. |
| SummaryReports.OutputCopied | src/main/java/dpfmanager/shell/modules/report/core/ReportGenerator.java:665-676 | The copy to the output folder changes nothing outside it. An output folder that is missing, or compatible with the run folder, and can be created ends up mirroring the run folder. |
| SummaryReports.SummaryKept | src/main/java/dpfmanager/shell/modules/report/core/ReportGenerator.java:665-676 | Copying to a disjoint output folder keeps the summary files. |
| Interoperability.ListOutput | src/main/java/dpfmanager/shell/modules/interoperability/core/InteroperabilityManager.java:81-86 | The document root is `tns:ListOutput` in the interoperability namespace with its two attributes. Its single child is `ConformanceCheckers`, which holds the given nodes. |
| Interoperability.GetXml | src/main/java/dpfmanager/shell/modules/interoperability/core/InteroperabilityManager.java:76-104 | The document holds the forms of the non-null definitions, or there is no document when the builder cannot be created. |
| Interoperability.SerialisedForms | src/main/java/dpfmanager/shell/modules/interoperability/core/InteroperabilityManager.java:89-95 | Each node is the form of a definition, one per non-null definition. |
| Interoperability.PresentInOrder | src/main/java/dpfmanager/shell/modules/interoperability/core/InteroperabilityManager.java:89-95 | The nodes keep the list order, and no non-null definition is skipped. |
| Interoperability.SerialisedAll | src/main/java/dpfmanager/shell/modules/interoperability/core/InteroperabilityManager.java:89-95 | When no definition is null, there is exactly one node per definition, in order. |
| Interoperability.GetString | src/main/java/dpfmanager/shell/modules/interoperability/core/InteroperabilityManager.java:106-129 | The text of that document without the XML declaration, or "" when the transformer throws. |
| Interoperability.ByTagNamed | src/main/java/dpfmanager/shell/modules/interoperability/core/InteroperabilityManager.java:173 | The lookup returns only elements with the requested tag. |
| Interoperability.DecodedPrefix | src/main/java/dpfmanager/shell/modules/interoperability/core/InteroperabilityManager.java:174-182 | One definition per element, in document order. When the list stops short, the next element failed to decode. |
| Interoperability.ReadConformanceCheckers | src/main/java/dpfmanager/shell/modules/interoperability/core/InteroperabilityManager.java:169-184 | The result is the decoded `conformanceChecker` elements up to the first that throws. |
| Interoperability.LoadFromFile | src/main/java/dpfmanager/shell/modules/interoperability/core/InteroperabilityManager.java:134-149 | A missing configuration file gives the empty list. Otherwise the result is the parsed file's definitions, or empty when parsing fails. |
| Interoperability.LoadFromBuiltIn | src/main/java/dpfmanager/shell/modules/interoperability/core/InteroperabilityManager.java:154-167 | The definitions of the built-in text, or empty when parsing fails. |
| Interoperability.NewPath | src/main/java/dpfmanager/shell/modules/interoperability/core/InteroperabilityManager.java:51 | `<cfg>.new` is a sibling of the configuration file, distinct from it, and neither contains the other. |
| Interoperability.WriteChanges | src/main/java/dpfmanager/shell/modules/interoperability/core/InteroperabilityManager.java:48-74 | Write `.new`, delete the old file, rename. The result is the rename's. A transformer failure changes nothing and returns false. |
| Interoperability.SaveEffect | src/main/java/dpfmanager/shell/modules/interoperability/core/InteroperabilityManager.java:48-74 | Success happens exactly when there is a text, the folder exists, `.new` is not a directory and the old file is not a non-empty directory. On success the configuration holds the text and `.new` is gone. A failure before writing changes nothing. A failed rename leaves `.new` holding the text. |
| Interoperability.ReplaceStep | src/main/java/dpfmanager/shell/modules/interoperability/core/InteroperabilityManager.java:65-67 | Delete and rename succeed unless the old file is a non-empty directory, and then move `.new` onto it. |
| Interoperability.SaveThenLoad | src/main/java/dpfmanager/shell/modules/interoperability/core/InteroperabilityManager.java:48-149 | After a successful save, loading from the file gives back the same list, when every definition round-trips and the parser reads back the written document. |
| Interoperability.StringThenLoad | src/main/java/dpfmanager/shell/modules/interoperability/core/InteroperabilityManager.java:106-167 | The string form parsed back gives the same list under the same conditions. |
| Interoperability.ReadBack | src/main/java/dpfmanager/shell/modules/interoperability/core/InteroperabilityManager.java:76-104 | Reading the checkers of the assembled document gives back the list, when every definition round-trips. |
| Interoperability.FailedSaveKeepsList | src/main/java/dpfmanager/shell/modules/interoperability/core/InteroperabilityManager.java:48-74 | A save that fails before the delete reports false and leaves the stored list unchanged. |

## Left out

- Paths are sequences of segments rather than strings. Absolute-path
  resolution (`getAbsolutePath`, `substring` up to the last separator) is
  therefore the parent folder. String paths are kept only where the code
  computes with the string: `getFileType` and the `getReportName`
  candidates. `HtmlPage` states the page-path substitution on strings and
  relates it to the segment path; the rest of the model uses the segment
  path.
- The configuration directory, today's date (`FastDateFormat` of
  `new Date()`), the configuration-file path and the built-in definition
  text are parameters. The clock and `DPFManagerProperties` are not part of
  this model.
- `toUpperCase` is modelled for ASCII letters only. Locale-dependent and
  non-ASCII case mapping is not modelled.
- The report id is a `nat`. A negative `int` id is not modelled.
- The order in which `listFiles` and `list` return entries is not modelled.
  The copy and delete loops take the entries in an unspecified order, and
  every contract holds for any order.
- Streams are whole strings. The 1024-byte chunk loop of `copyFile` is kept
  (`CopyOps.WriteChunks`). The 4096-byte loops of the bundled assets and
  of `extractFile` write the whole resource in one step. The JAR code
  source is a flag, and the class-path resources are a map from asset path
  to content.
- The renderers (`parseGlobal` of the XML, HTML and PDF reports,
  `xmlToJson`, the PDF document's `save`) are inputs, given as the texts
  they produce. `Conformance.toXML`, `Conformance.fromXML`, the XML parser
  and the transformer are function parameters. `DocumentBuilder` failure is
  the `builderOk` flag. What the transformer makes of a null document is
  the serialiser's business.
- Logging, `printStackTrace` and the message `context` are not modelled.
  Concurrency is not modelled: the filesystem changes only through the
  modelled calls.
- CopyOps.Copy: requires the source and the target to be disjoint
  (neither lies at or beneath the other). Three cases the Java code can
  meet are not modelled. A target equal to the source copies every file
  onto itself and empties it (`CopyOps.CopyFileOntoItself` shows this for
  one file). A source beneath the target finishes, but it can write into the
  tree it is reading. A target beneath the source makes every level create
  the target again inside the directory being listed. That recursion
  stops only when `mkdir` fails on an over-long path or the stack
  overflows.
- CopyOps.CopyDirectory: requires the same disjointness as `CopyOps.Copy`.
  The same three cases are not modelled.
- CopyOps.CopyChildren: requires the same disjointness as `CopyOps.Copy`.
  The same three cases are not modelled.
- Assets.CopyHtmlFolder: requires the development asset folder to be
  disjoint from the report's `html` folder, since it copies with
  `copyDirectory`. An asset folder equal to `html`, beneath it or above it
  is not modelled.
- Assets.CopyHtmlFolder: the development-folder branch copies with
  `copyDirectory`. An `IOException` there is caught and printed, so the
  model's `IoAborted` outcome and a normal return look the same to callers.
- SummaryReports.WritePage: requires the same disjointness of the asset
  folder and `html` as `Assets.CopyHtmlFolder`.
- SummaryReports.WriteSummary: requires the same disjointness of the asset
  folder and `html` as `Assets.CopyHtmlFolder`.
- SummaryReports.MakeSummaryReport: requires the asset folder and `html`
  to be disjoint, as `Assets.CopyHtmlFolder` does. It also requires the
  output folder to be disjoint from the run folder, as `CopyOps.Copy`
  does. An output folder equal to the run folder, one that contains it
  (such as the reports root), or one inside it is not modelled. A failed
  copy to the output folder is logged at debug level and otherwise
  ignored. When the output folder holds a file where the run folder has a
  directory, or the reverse, the copy can stop part way. In those cases
  the contract promises only that nothing outside the output folder
  changes.
- A transformer that throws part way is modelled as writing nothing. A
  partial `.new` file is not modelled.
- DOM failures other than creating the builder (`importNode`,
  `appendChild`) are not modelled.
- `getElementsByTagName` is matched on the qualified tag name. Namespace
  prefixes are not resolved.
- IndividualReports.GenerateIndividualReport: the HTML page is written to
  `html/<name>` beside the report. The source builds the path by replacing
  the page name everywhere in the report path. The two agree when the
  page name occurs only as the path's last segment
  (`HtmlPage.HtmlTargetAgrees`). Otherwise they differ (see Findings).
- Text.BaseName: `File.getName` first drops trailing and repeated
  separators, so `a/b/` names `b`. The model takes what follows the last
  '/', so `a/b/` names the empty string.
- IndividualReports.GenerateIndividualReport: `OutOfMemoryError` and other
  errors thrown by the renderers are not modelled. The individual writes of
  `writeProcomputedIndividual` swallow their exceptions, and a write into a
  missing folder leaves the tree as it was.

## Findings

| source | as written | input that shows it | evidently intended | confidence | as-written member | corrected member |
|---|---|---|---|---|---|---|
| src/main/java/dpfmanager/shell/modules/report/core/ReportGenerator.java:572-577 | The HTML page path is built by replacing every occurrence of the page's file name in the whole report path with `html/<name>`. | A report `a` in a folder named `a.html`: `/a.html/a.html` becomes `/html/a.html/html/a.html`. | Replace only the last segment, giving `/a.html/html/a.html`. | low; not executed | HtmlPage.HtmlTargetMisplaced | IndividualReports.MainRules |
