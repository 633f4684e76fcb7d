/** Worked cases of the extraction and of the row builder on concrete page
    texts and paths. */
module Scenarios {
  import opened BatesPattern
  import opened Extraction
  import opened PathText
  import opened Collections
  import opened BatesLogger

  /** One page holding two stamps: the first page's search takes the first,
      the last page's search the second. */
  lemma TwoStampsOnOnePage()
    ensures ExtractBatesNumbers(PdfFile(["DTB 0001 / DTB 0002"], NoFailure))
            == BatesPair(Some("DTB 0001"), Some("DTB 0002"))
  {
    var text := "DTB 0001 / DTB 0002";
    assert IsBatesAt(text, 0);
    assert IsBatesAt(text, 11);
    assert FindAllFrom(text, 8) == FindAllFrom(text, 9);
    assert FindAllFrom(text, 9) == FindAllFrom(text, 10);
    assert FindAllFrom(text, 10) == FindAllFrom(text, 11);
    assert FindAllFrom(text, 19) == [];
    assert text[11..19] == "DTB 0002";
    assert FindAllFrom(text, 11) == ["DTB 0002"];
    assert text[0..8] == "DTB 0001";
    assert FindAll(text) == ["DTB 0001", "DTB 0002"];
  }
}

module EndToEnd {
  import opened BatesPattern
  import opened Extraction
  import opened PathText
  import opened Collections
  import opened BatesLogger

  const Found: seq<seq<string>> := [["case", "a.pdf"], ["case", "b.pdf"], ["case", ".hidden", "c.pdf"]]

  /** The document each path opens to: a.pdf is stamped DTB 0100 on its
      first page and DTB 0105 on its last, every other file has no stamp. */
  function ReadPdf(path: string): PdfFile
  {
    if path == "case/a.pdf" then PdfFile(["Exhibit DTB 0100 Filed", "DTB 0105 End"], NoFailure)
    else PdfFile(["Cover letter"], NoFailure)
  }

  /** The directory scan, as written, drops the PDF under the hidden folder
      and keeps the other two in enumeration order. */
  /** A three-element list whose last element alone is dropped. */
  lemma FilterDropsThird<T>(keep: T -> bool, a: T, b: T, c: T)
    requires keep(a) && keep(b) && !keep(c)
    ensures Filter(keep, [a, b, c]) == [a, b]
  {
    assert [a, b, c][..2] == [a, b];
    assert [a, b][..1] == [a];
    assert [a][..0] == [];
    assert Filter(keep, [a]) == [a];
    assert Filter(keep, [a, b]) == [a, b];
  }

  /** Only the third path runs through a dot-leading (and hidden) part. */
  lemma FoundParts()
    ensures HasNoDotPart(Found[0]) && HasNoDotPart(Found[1]) && !HasNoDotPart(Found[2])
    ensures HasNoHiddenPart(Found[0]) && HasNoHiddenPart(Found[1]) && !HasNoHiddenPart(Found[2])
  {
    assert IsHiddenPart(Found[2][1]);
  }

  /** A filter that keeps the first two paths and drops the third. */
  lemma FilterFound(keep: seq<string> -> bool)
    requires keep(Found[0]) && keep(Found[1]) && !keep(Found[2])
    ensures Filter(keep, Found) == Found[..2]
  {
    FilterDropsThird(keep, Found[0], Found[1], Found[2]);
    assert Found == [Found[0], Found[1], Found[2]];
  }

  lemma ScanSkipsHiddenFolder()
    ensures ScanDirectoryForPdfsAsWritten(Found) == Found[..2]
  {
    FoundParts();
    FilterFound(HasNoDotPart);
  }

  lemma CorrectedScanSkipsHiddenFolder()
    ensures ScanDirectoryForPdfs(Found) == Found[..2]
  {
    FoundParts();
    FilterFound(HasNoHiddenPart);
  }

  lemma FirstPageOfA()
    ensures FirstOnPage("Exhibit DTB 0100 Filed") == Some("DTB 0100")
  {
    var text := "Exhibit DTB 0100 Filed";
    assert text[8..16] == "DTB 0100";
    forall j | 0 <= j < 8
      ensures !IsBatesAt(text, j)
    {
      assert text[j] != 'D';
    }
    assert IsLeftmost(text, 8);
    ExtremesAreUnique(text, 8, FirstStart(text));
  }

  lemma LastPageOfA()
    ensures LastOnPage("DTB 0105 End") == Some("DTB 0105")
  {
    var text := "DTB 0105 End";
    assert IsRightmost(text, 0);
    ExtremesAreUnique(text, 0, LastStart(text));
    assert text[0..8] == "DTB 0105";
  }

  lemma UnstampedPage()
    ensures FirstOnPage("Cover letter") == None && LastOnPage("Cover letter") == None
  {
    var text := "Cover letter";
    forall i: nat
      ensures !IsBatesAt(text, i)
    {
      if i + TokenLength <= |text| {
        assert text[i] != 'D';
      }
    }
  }

  lemma FileNames()
    ensures BaseName("case/a.pdf", {'/'}) == "a.pdf"
    ensures BaseName("case/b.pdf", {'/'}) == "b.pdf"
  {
    assert "case/a.pdf" == "case" + ['/'] + "a.pdf";
    BaseNameOfJoin("case", '/', "a.pdf", {'/'});
    assert "case/b.pdf" == "case" + ['/'] + "b.pdf";
    BaseNameOfJoin("case", '/', "b.pdf", {'/'});
  }

  /** The stamped file gets its two stamps, the unstamped one a row with
      both Bates columns empty. */
  lemma RowsOfScenario()
    ensures RowFor("case/a.pdf", ReadPdf, {'/'}) == Row("DTB 0100", "DTB 0105", "a.pdf")
    ensures RowFor("case/b.pdf", ReadPdf, {'/'}) == Row("", "", "b.pdf")
  {
    assert ReadPdf("case/a.pdf") == PdfFile(["Exhibit DTB 0100 Filed", "DTB 0105 End"], NoFailure);
    assert "case/b.pdf"[5] != "case/a.pdf"[5];
    assert ReadPdf("case/b.pdf") == PdfFile(["Cover letter"], NoFailure);
    FirstPageOfA();
    LastPageOfA();
    UnstampedPage();
    FileNames();
  }
}
