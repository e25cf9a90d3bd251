/** Small worked instances of the processor, checked against the model. */
module Scenarios {
  import opened Paths
  import opened Disk
  import opened ScanProcessor

  /** Every platform call succeeds. */
  const AllSucceed := Oracles(true, _ => true, _ => true, _ => true)

  /** An inbox with a PDF, a text file and a sub-directory; no outbox yet. */
  const Inbox := FS({"/in", "/in/sub"}, {"/in/a.pdf", "/in/b.txt"})

  const AfterMkdir := State(FS({"/in", "/in/sub", "/out"}, {"/in/a.pdf", "/in/b.txt"}), EmptyReport)
  const AfterPdf := State(FS({"/in", "/in/sub", "/out"}, {"/in/b.txt", "/out/a.pdf"}), Report(["a.pdf"], [], []))
  const AfterText := State(FS({"/in", "/in/sub", "/out"}, {"/out/a.pdf"}), Report(["a.pdf"], ["b.txt"], []))

  lemma PdfStep()
    ensures Step("/in", "/out", AllSucceed, AfterMkdir, "a.pdf") == AfterPdf
  {
    LastIndexIsLast("a.pdf", '.');
    assert "a.pdf"[1] == '.';
    assert Extension("a.pdf") == "pdf";
    assert Lower("pdf") == "pdf";
    assert Join("/in", "a.pdf") == "/in/a.pdf";
    assert Join("/out", "a.pdf") == "/out/a.pdf";
    assert "/out/a.pdf" !in Occupied(AfterMkdir.fs);
  }

  lemma TextStep()
    ensures Step("/in", "/out", AllSucceed, AfterPdf, "b.txt") == AfterText
  {
    LastIndexIsLast("b.txt", '.');
    assert "b.txt"[1] == '.';
    assert Extension("b.txt") == "txt";
    assert Lower("txt")[0] == 't';
    assert Join("/in", "b.txt") == "/in/b.txt";
    assert "/in/b.txt"[1] != "/out/a.pdf"[1];
    assert AfterPdf.fs.files - {"/in/b.txt"} == {"/out/a.pdf"};
  }

  lemma DirStep()
    ensures Run("/in", "/out", AllSucceed, AfterText, ["sub"]) == AfterText
  {
    assert Join("/in", "sub") == "/in/sub";
    assert "/in/sub"[4] != "/out/a.pdf"[4];
    assert ["sub"][1..] == [];
  }

  lemma TextThenDir()
    ensures Run("/in", "/out", AllSucceed, AfterPdf, ["b.txt", "sub"]) == AfterText
  {
    TextStep();
    DirStep();
    assert ["b.txt", "sub"][1..] == ["sub"];
  }

  /** With every call succeeding, the PDF is moved under its own name, the
      text file is deleted and the sub-directory is skipped. */
  lemma ExampleRun()
    ensures var r := ProcessDirectory("/in/", "/out", Inbox, ["a.pdf", "b.txt", "sub"], AllSucceed);
      && r.report == Report(["a.pdf"], ["b.txt"], [])
      && r.fs.files == {"/out/a.pdf"}
  {
    assert Normalize("/in/") == "/in";
    assert Normalize("/out") == "/out";
    assert DestReady("/out", Inbox, AllSucceed);
    PdfStep();
    TextThenDir();
    assert ["a.pdf", "b.txt", "sub"][1..] == ["b.txt", "sub"];
  }

  /** A regular file where the destination directory should be: `mkdir`
      fails on the occupied path, so the run stops with one error even though
      `mkdir` would succeed on a free path, and nothing is touched. */
  lemma ExampleDestIsFile()
    ensures var fs := FS({"/in"}, {"/in/a.pdf", "/out"});
      ProcessDirectory("/in", "/out", fs, ["a.pdf"], AllSucceed)
        == State(fs, Report([], [], ["Cannot create dest dir: /out"]))
  {
    assert Normalize("/in") == "/in";
    assert Normalize("/out") == "/out";
    assert !DestReady("/out", FS({"/in"}, {"/in/a.pdf", "/out"}), AllSucceed);
    assert CannotCreateDest("/out") == "Cannot create dest dir: /out";
  }

  /** A destination of "/" trims to the empty path, which is never a
      directory and which `mkdir` never creates: the run stops with one error
      even when `mkdir` would succeed on any other path. */
  lemma ExampleRootDest()
    ensures var fs := FS({"/in"}, {"/in/a.pdf"});
      ProcessDirectory("/in", "/", fs, ["a.pdf"], AllSucceed)
        == State(fs, Report([], [], ["Cannot create dest dir: "]))
  {
    assert Normalize("/in") == "/in";
    assert Normalize("/") == "";
    assert CannotCreateDest("") == "Cannot create dest dir: ";
  }

  lemma StemOfReport()
    ensures Stem("report.pdf") == "report"
  {
    var name := "report.pdf";
    LastIndexIsLast(name, '.');
    assert name[6] == '.' && name[7] != '.' && name[8] != '.' && name[9] != '.';
  }

  /** The three candidate paths the loop can look at for `report.pdf` in `/out`. */
  lemma ReportCandidates()
    ensures Join("/out", "report.pdf") == "/out/report.pdf"
    ensures Join("/out", Suffixed("report", 1)) == "/out/report_1.pdf"
    ensures Join("/out", Suffixed("report", 2)) == "/out/report_2.pdf"
    ensures "/out/report_2.pdf" !in {"/out/report.pdf", "/out/report_1.pdf"}
  {
    assert Suffixed("report", 1) == "report_1.pdf";
    assert Suffixed("report", 2) == "report_2.pdf";
    SecondCandidateFree();
  }

  lemma SecondCandidateFree()
    ensures "/out/report_2.pdf" !in {"/out/report.pdf", "/out/report_1.pdf"}
  {
    assert "/out/report_2.pdf"[12] != "/out/report.pdf"[12];
    assert "/out/report_2.pdf"[12] != "/out/report_1.pdf"[12];
  }

  /** When `report.pdf` and `report_1.pdf` are taken, the next PDF called
      `report.pdf` goes to `report_2.pdf`. */
  lemma ExampleRenaming()
    ensures PickTarget("/out", "report.pdf", {"/out/report.pdf", "/out/report_1.pdf"}) == Target("report_2.pdf", 2)
  {
    StemOfReport();
    ReportCandidates();
    var t := PickTarget("/out", "report.pdf", {"/out/report.pdf", "/out/report_1.pdf"});
    assert t.counter != 1;
    assert Suffixed("report", 2) == "report_2.pdf";
  }
}
