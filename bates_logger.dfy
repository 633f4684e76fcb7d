/** The driver of the Bates logger (bates_logger.py:47-103): building one log
    row per existing PDF in a candidate list, and the two ways of producing
    that list. The file system, PyMuPDF and the CSV writer are parameters:
    `fileExists` stands for `os.path.exists`, `readPdf` for what PyMuPDF
    would read from a path, and `seps` for the separators `os.path.basename`
    splits on. */
module BatesLogger {
  import opened Collections
  import opened BatesPattern
  import opened Extraction
  import opened PathText

  /** One row of the log: the columns beginning_bates, ending_bates, filename. */
  datatype Row = Row(beginningBates: string, endingBates: string, filename: string)

  /** `value or ''` for an optional match. */
  function OrEmpty(o: Option<string>): string
  {
    match o
    case None => ""
    case Some(v) => v
  }

  /** The paths that get a row (lines 56-62): a ".pdf" name in any letter
      case, naming a file that exists. */
  function IsCandidate(fileExists: string -> bool): string -> bool
  {
    path => EndsWithPdfIgnoreCase(path) && fileExists(path)
  }

  /** The row appended for one candidate path (lines 65-77). Each Bates
      column is empty or one match of the pattern, and the filename is the
      path's last segment. */
  function RowFor(path: string, readPdf: string -> PdfFile, seps: set<char>): (r: Row)
    ensures r.beginningBates == "" || IsBatesToken(r.beginningBates)
    ensures r.endingBates == "" || IsBatesToken(r.endingBates)
    ensures r.beginningBates != "" <==> ExtractBatesNumbers(readPdf(path)).first.Some?
    ensures r.endingBates != "" <==> ExtractBatesNumbers(readPdf(path)).last.Some?
    ensures var pair := ExtractBatesNumbers(readPdf(path));
            && (pair.first.Some? ==> r.beginningBates == pair.first.value)
            && (pair.last.Some? ==> r.endingBates == pair.last.value)
    ensures EndsWith(path, r.filename) && forall k :: 0 <= k < |r.filename| ==> r.filename[k] !in seps
    ensures |r.filename| < |path| ==> path[|path| - |r.filename| - 1] in seps
  {
    var pair := ExtractBatesNumbers(readPdf(path));
    Row(OrEmpty(pair.first), OrEmpty(pair.last), BaseName(path, seps))
  }

  /** `RowFor` as a function of the path alone. */
  function RowOf(readPdf: string -> PdfFile, seps: set<char>): string -> Row
  {
    path => RowFor(path, readPdf, seps)
  }

  /** One more path of the list adds its row exactly when it is a candidate. */
  lemma RowsStep(fileList: seq<string>, i: nat, fileExists: string -> bool,
                 readPdf: string -> PdfFile, seps: set<char>)
    requires i < |fileList|
    ensures var path := fileList[i];
            var pair := ExtractBatesNumbers(readPdf(path));
            Map(RowOf(readPdf, seps), Filter(IsCandidate(fileExists), fileList[..i + 1])) ==
            Map(RowOf(readPdf, seps), Filter(IsCandidate(fileExists), fileList[..i])) +
            (if EndsWithPdfIgnoreCase(path) && fileExists(path)
             then [Row(OrEmpty(pair.first), OrEmpty(pair.last), BaseName(path, seps))]
             else [])
  {
    FilterMapPrefixStep(IsCandidate(fileExists), RowOf(readPdf, seps), fileList, i);
    assert IsCandidate(fileExists)(fileList[i]) ==
           (EndsWithPdfIgnoreCase(fileList[i]) && fileExists(fileList[i]));
  }

  /** The loop of `process_file_list` (lines 51-79): the rows, in input order,
      for exactly the candidate paths, one each, whatever their Bates values. */
  method ProcessFileList(fileList: seq<string>, fileExists: string -> bool,
                         readPdf: string -> PdfFile, seps: set<char>)
    returns (rows: seq<Row>)
    ensures |rows| == |Filter(IsCandidate(fileExists), fileList)|
    ensures forall k :: 0 <= k < |rows| ==>
              rows[k] == RowFor(Filter(IsCandidate(fileExists), fileList)[k], readPdf, seps)
  {
    rows := [];
    var i := 0;
    while i < |fileList|
      invariant 0 <= i <= |fileList|
      invariant rows == Map(RowOf(readPdf, seps), Filter(IsCandidate(fileExists), fileList[..i]))
    {
      var path := fileList[i];
      RowsStep(fileList, i, fileExists, readPdf, seps);
      if EndsWithPdfIgnoreCase(path) {
        if fileExists(path) {
          var filename := BaseName(path, seps);
          var pair := ExtractBatesNumbers(readPdf(path));
          var row := Row(OrEmpty(pair.first), OrEmpty(pair.last), filename);
          rows := rows + [row];
        }
      }
      i := i + 1;
    }
    assert fileList[..i] == fileList;
  }

  /** The paths that get a row are the candidates, each as many times as it
      appears in the list and in list order; no other path gets one. */
  lemma CandidatesOfFileList(fileList: seq<string>, fileExists: string -> bool)
    ensures forall path ::
              multiset(Filter(IsCandidate(fileExists), fileList))[path] ==
              if EndsWithPdfIgnoreCase(path) && fileExists(path) then multiset(fileList)[path] else 0
    ensures IsSubsequence(Filter(IsCandidate(fileExists), fileList), fileList)
  {
    forall path
      ensures multiset(Filter(IsCandidate(fileExists), fileList))[path] ==
              if EndsWithPdfIgnoreCase(path) && fileExists(path) then multiset(fileList)[path] else 0
    {
      FilterCount(IsCandidate(fileExists), fileList, path);
    }
    FilterIsSubsequence(IsCandidate(fileExists), fileList);
  }

  /** A stripped list-file line that is kept (line 97): non-empty and ending
      in ".pdf", lower case only. */
  predicate IsListedPdf(line: string)
  {
    |line| > 0 && EndsWith(line, ".pdf")
  }

  /** `line.strip()` for every line of the list file. */
  function StrippedLines(lines: seq<string>): seq<string>
  {
    seq(|lines|, k requires 0 <= k < |lines| => Strip(lines[k]))
  }

  /** `read_file_list_from_txt` (line 97), given the lines the file yields:
      stripped, non-empty entries ending in lower-case ".pdf", in file order. */
  function ReadFileListFromTxt(lines: seq<string>): (r: seq<string>)
    ensures forall k :: 0 <= k < |r| ==> IsStripped(r[k]) && |r[k]| > 0 && EndsWith(r[k], ".pdf")
    ensures IsSubsequence(r, StrippedLines(lines))
    ensures forall line ::
              multiset(r)[line] == if IsListedPdf(line) then multiset(StrippedLines(lines))[line] else 0
  {
    FilterIsSubsequence(IsListedPdf, StrippedLines(lines));
    forall line
      ensures multiset(Filter(IsListedPdf, StrippedLines(lines)))[line] ==
              if IsListedPdf(line) then multiset(StrippedLines(lines))[line] else 0
    {
      FilterCount(IsListedPdf, StrippedLines(lines), line);
    }
    Filter(IsListedPdf, StrippedLines(lines))
  }

  /** Reading back a list made of the entries read from a list file gives
      those entries unchanged. */
  lemma ReadFileListIdempotent(lines: seq<string>)
    ensures ReadFileListFromTxt(ReadFileListFromTxt(lines)) == ReadFileListFromTxt(lines)
  {
    var once := ReadFileListFromTxt(lines);
    forall k | 0 <= k < |once|
      ensures StrippedLines(once)[k] == once[k]
    {
      StripFixesStripped(once[k]);
    }
    assert StrippedLines(once) == once;
    FilterKeepsAllAccepted(IsListedPdf, once);
  }

  lemma StripScanLine()
    ensures Strip("SCAN.PDF\n") == "SCAN.PDF"
  {
    var line := "SCAN.PDF\n";
    assert LeadingSpace(line) == 0;
    assert line[0..] == line;
    assert line[..8] == "SCAN.PDF";
    assert TrailingSpace("SCAN.PDF") == 0;
    assert TrailingSpace(line) == 1;
  }

  /** The list file's suffix test is case-sensitive, unlike the one applied
      to candidates: an upper-case ".PDF" line is dropped from the list even
      though the row builder would accept that path. */
  lemma ListFileIsCaseSensitive()
    ensures ReadFileListFromTxt(["SCAN.PDF\n"]) == []
    ensures EndsWithPdfIgnoreCase("SCAN.PDF")
  {
    StripScanLine();
    assert StrippedLines(["SCAN.PDF\n"]) == ["SCAN.PDF"];
    assert !IsListedPdf("SCAN.PDF");
    assert Filter(IsListedPdf, ["SCAN.PDF"]) == [] by {
      assert ["SCAN.PDF"][..0] == [];
    }
    PdfSuffixAnyCase("SCAN.PDF");
  }

  /** `part.startswith('.')`. */
  predicate StartsWithDot(part: string)
  {
    |part| > 0 && part[0] == '.'
  }

  /** No part of the path starts with a dot (line 103 as written). */
  predicate HasNoDotPart(parts: seq<string>)
  {
    forall m :: 0 <= m < |parts| ==> !StartsWithDot(parts[m])
  }

  /** `scan_directory_for_pdfs` (line 103) as written, given the parts of
      every path `rglob("*.pdf")` enumerates: the paths none of whose parts
      starts with a dot, in enumeration order. */
  function ScanDirectoryForPdfsAsWritten(found: seq<seq<string>>): (r: seq<seq<string>>)
    ensures forall k :: 0 <= k < |r| ==> HasNoDotPart(r[k])
    ensures IsSubsequence(r, found)
    ensures forall parts ::
              multiset(r)[parts] == if HasNoDotPart(parts) then multiset(found)[parts] else 0
  {
    FilterIsSubsequence(HasNoDotPart, found);
    forall parts
      ensures multiset(Filter(HasNoDotPart, found))[parts] ==
              if HasNoDotPart(parts) then multiset(found)[parts] else 0
    {
      FilterCount(HasNoDotPart, found, parts);
    }
    Filter(HasNoDotPart, found)
  }

  /** A part that the corrected scan treats as hidden: one starting with a
      dot, as on line 103, except the parent-directory part "..". Hidden
      files such as ".x.pdf" stay excluded, as in the code. */
  predicate IsHiddenPart(part: string)
  {
    StartsWithDot(part) && part != ".."
  }

  predicate HasNoHiddenPart(parts: seq<string>)
  {
    forall m :: 0 <= m < |parts| ==> !IsHiddenPart(parts[m])
  }

  /** `scan_directory_for_pdfs` with ".." no longer counted as hidden and
      every other part treated as on line 103: the enumerated paths with no
      hidden part, in enumeration order, each kept as often as it is
      enumerated. */
  function ScanDirectoryForPdfs(found: seq<seq<string>>): (r: seq<seq<string>>)
    ensures forall k :: 0 <= k < |r| ==> HasNoHiddenPart(r[k])
    ensures IsSubsequence(r, found)
    ensures forall parts ::
              multiset(r)[parts] == if HasNoHiddenPart(parts) then multiset(found)[parts] else 0
  {
    FilterIsSubsequence(HasNoHiddenPart, found);
    forall parts
      ensures multiset(Filter(HasNoHiddenPart, found))[parts] ==
              if HasNoHiddenPart(parts) then multiset(found)[parts] else 0
    {
      FilterCount(HasNoHiddenPart, found, parts);
    }
    Filter(HasNoHiddenPart, found)
  }

  /** Scanning a root reached through ".." (say "../case") drops every PDF
      under it as written, since the part ".." starts with a dot; the
      corrected scan keeps them. */
  lemma ParentRootDropsEverything()
    ensures ScanDirectoryForPdfsAsWritten([["..", "case", "a.pdf"]]) == []
    ensures ScanDirectoryForPdfs([["..", "case", "a.pdf"]]) == [["..", "case", "a.pdf"]]
  {
    var path := ["..", "case", "a.pdf"];
    assert !HasNoDotPart(path) by {
      assert StartsWithDot(path[0]);
    }
    assert HasNoHiddenPart(path) by {
      forall m | 0 <= m < |path|
        ensures !IsHiddenPart(path[m])
      {
        if m == 0 {
          assert path[0] == "..";
        }
      }
    }
    assert [path][..0] == [];
  }
}
