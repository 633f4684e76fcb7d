# Bates logger, modelled in Dafny

The Bates logger reads searchable PDFs and writes a log with one row per document. Each row holds
the document's beginning and ending Bates numbers and its file name. A Bates number is a stamp
matching the fixed pattern `DTB \d{4}`: the letters `DTB`, one space and four digits. The
beginning number is the first stamp on the first page. The ending number is the last stamp on
the last page.

This project models the logic of `bates_logger.py`:

- `BatesPattern` (bates_pattern.dfy): the pattern as an 8-character window, `re.findall` as the
  regex engine's scan, and a reference definition listing every index where the pattern
  matches. It proves the scan returns exactly the windows at those indices, in order. Matches
  cannot overlap, because a `D` occurs only at offset 0 of a match. It also defines the
  leftmost and rightmost match.
- `Extraction` (extraction.dfy): `extract_bates_numbers` over a document given as its page
  texts, plus the step at which PyMuPDF raises, if any. An exception keeps whatever had already
  been assigned.
- `PathText` (path_text.dfy): `str.strip()` with Python's white-space set, the case-insensitive
  `.pdf` test, `str.endswith` and `os.path.basename` over a given separator set.
- `BatesLogger` (bates_logger.dfy): the row-building loop of `process_file_list` as a method,
  and the two list producers `read_file_list_from_txt` and `scan_directory_for_pdfs`.
- `Collections` (collections.dfy): order-preserving filtering shared by the above, and what it
  keeps.
- `Scenarios`, `EndToEnd` (scenarios.dfy): concrete documents and paths worked through the model.

Two behaviours of the code that the model keeps as written:

- The `except` (bates_logger.py:42-45) returns whatever had already been assigned. So a document
  that fails on its last page keeps its first value, and one that fails to open gets neither.
- `doc.close()` (bates_logger.py:41) runs only when every step before it succeeded. Release of
  the handle is not modelled.

## Model

| member | source | states |
|---|---|---|
| `BatesPattern.IsBatesAt` | bates_logger.py:12 | `DTB \d{4}` matches at index `i`: eight characters from `i`, `D`, `T`, `B`, a space, then four ASCII digits |
| `BatesPattern.FindAllFrom` | bates_logger.py:29 | every string `re.findall` returns for `DTB \d{4}` is one whole match: 8 characters, `DTB `, four digits |
| `BatesPattern.MatchStartsFrom` | bates_logger.py:12 | reference definition: every index from `p` on where the pattern matches, strictly increasing, with none missed |
| `BatesPattern.FindAllFromIsEveryMatch` | bates_logger.py:29 | the regex scan, which resumes after each match, returns exactly the windows at every match index, in order |
| `BatesPattern.FindAll` | bates_logger.py:29 | `re.findall(pattern, text)`: the scan from index 0; what it returns is stated by `BatesPattern.FindAllIsEveryMatch` |
| `BatesPattern.FindAllIsEveryMatch` | bates_logger.py:29 | `findall` on a page returns exactly the windows at every match index, in order, as many as there are matches |
| `BatesPattern.NoOverlap` | bates_logger.py:12 | two matches of the pattern never overlap |
| `BatesPattern.FirstStart` | bates_logger.py:31 | the leftmost match index: a match with no match before it |
| `BatesPattern.LastStart` | bates_logger.py:39 | the rightmost match index: a match with no match after it |
| `BatesPattern.MatchStartsEnds` | bates_logger.py:29-39 | the first and last reference match indices are the leftmost and rightmost matches |
| `BatesPattern.FindAllEnds` | bates_logger.py:29-39 | `findall` is non-empty exactly when the text matches; element 0 is the leftmost match's window and element -1 the rightmost's |
| `BatesPattern.FirstNotAfterLast` | bates_logger.py:26-39 | the leftmost match does not start after the rightmost; they coincide exactly when `findall` returns one match |
| `Extraction.FirstOnPage` | bates_logger.py:29-31 | `first_matches[0]` when there is one: present exactly when the page matches, and then the leftmost match |
| `Extraction.LastOnPage` | bates_logger.py:37-39 | `last_matches[-1]` when there is one: present exactly when the page matches, and then the rightmost match |
| `Extraction.ExtractBatesNumbers` | bates_logger.py:16-45 | each side is absent or a Bates token. The first is present exactly when the first page was read and matches, and is then its leftmost match. The last is present exactly when the last page was read and matches, and is then its rightmost match. Zero pages or an early failure leave a side absent |
| `Extraction.FailureKeepsAssigned` | bates_logger.py:42-45 | an exception keeps earlier assignments: failing on the last page gives the clean first value and no last, failing on close gives the clean result, failing earlier gives nothing |
| `Extraction.OnePageDocument` | bates_logger.py:25-39 | for one page the two searches run on the same text: both or neither side is found, first start ≤ last start, equal exactly when the page holds one occurrence |
| `PathText.IsSpace` | bates_logger.py:97 | the characters `str.strip()` removes: Python's white space, U+0009-U+000D, U+001C-U+0020, U+0085, U+00A0, U+1680, U+2000-U+200A, U+2028, U+2029, U+202F, U+205F, U+3000 |
| `PathText.Strip` | bates_logger.py:97 | `line.strip()`: a slice starting after the leading white space, with only white space after it, and white space at neither end |
| `PathText.StripIdempotent` | bates_logger.py:97 | stripping a stripped line changes nothing |
| `PathText.EndsWithPdfIgnoreCase` | bates_logger.py:56 | `path.lower().endswith('.pdf')`, with ASCII lowering |
| `PathText.PdfSuffixAnyCase` | bates_logger.py:56 | `path.lower().endswith('.pdf')` holds exactly when the last four characters are `.`, `p`/`P`, `d`/`D`, `f`/`F` |
| `PathText.BaseName` | bates_logger.py:65 | `os.path.basename`: the longest tail of the path holding no separator |
| `PathText.BaseNameOfJoin` | bates_logger.py:65 | the base name of `dir + sep + name` is `name` when `name` has no separator |
| `BatesLogger.IsCandidate` | bates_logger.py:56-62 | a path gets a row exactly when its lower-cased name ends in `.pdf` and it exists |
| `BatesLogger.RowFor` | bates_logger.py:65-77 | each Bates column is the value extraction found for that side, or `''` when it found none, and then a Bates token. The filename is the longest separator-free tail of the path: it ends the path and is preceded by a separator or starts it |
| `BatesLogger.RowsStep` | bates_logger.py:53-77 | one more listed path adds its row to the rows exactly when it is a candidate, and adds nothing otherwise |
| `BatesLogger.ProcessFileList` | bates_logger.py:51-79 | one row per path that ends in `.pdf` in any case and exists, in input order, whatever its Bates values; the row count equals the number of such paths |
| `BatesLogger.CandidatesOfFileList` | bates_logger.py:53-62 | the rows go to exactly the qualifying paths, each as often as it is listed, in list order; no other path gets a row |
| `BatesLogger.IsListedPdf` | bates_logger.py:97 | a stripped line is kept when it is non-empty and ends in lower-case `.pdf` |
| `BatesLogger.ReadFileListFromTxt` | bates_logger.py:92-97 | every entry is stripped, non-empty and ends in lower-case `.pdf`; entries keep file order. Each stripped line that passes the test appears exactly as often as in the file, and no other line appears |
| `BatesLogger.ReadFileListIdempotent` | bates_logger.py:97 | applying the list filter to its own output returns it unchanged |
| `BatesLogger.ListFileIsCaseSensitive` | bates_logger.py:97 | a `SCAN.PDF` line is dropped from the list although the row builder's test accepts that path |
| `BatesLogger.HasNoDotPart` | bates_logger.py:103 | no part of the path starts with `.` |
| `BatesLogger.ScanDirectoryForPdfsAsWritten` | bates_logger.py:103 | a subsequence of the enumerated paths, in order, none with a part starting with `.`. Each path with no such part appears exactly as often as it is enumerated, and no other path appears |
| `BatesLogger.ScanDirectoryForPdfs` | bates_logger.py:99-103 | a subsequence of the enumerated paths, in order. It keeps exactly the paths with no hidden part, as often as they are enumerated. A hidden part starts with `.` and is not `..` |
| `BatesLogger.ParentRootDropsEverything` | bates_logger.py:103 | a path under `../case` is dropped as written and kept by the corrected scan |
| `Collections.Filter` | bates_logger.py:97 | the `if` clause of a comprehension: at most as many elements, every one accepted |
| `Collections.FilterCount` | bates_logger.py:103 | filtering keeps each accepted value as often as it occurs and drops every rejected one |
| `Collections.FilterIsSubsequence` | bates_logger.py:103 | filtering keeps the survivors in their original order |
| `Scenarios.TwoStampsOnOnePage` | bates_logger.py:26-39 | a page with `DTB 0001` then `DTB 0002` gives `DTB 0001` as first and `DTB 0002` as last |
| `EndToEnd.ScanSkipsHiddenFolder` | bates_logger.py:103 | the scan as written drops `case/.hidden/c.pdf` and keeps `case/a.pdf` and `case/b.pdf`, in order |
| `EndToEnd.CorrectedScanSkipsHiddenFolder` | bates_logger.py:99-103 | the corrected scan gives the same result on that tree: `.hidden` is still skipped |
| `EndToEnd.RowsOfScenario` | bates_logger.py:65-77 | a file stamped `DTB 0100`/`DTB 0105` gets those values and `a.pdf`; an unstamped file gets empty columns and `b.pdf` |

## Left out

- PyMuPDF (`fitz.open`, `len(doc)`, `get_text`, `doc.close`, bates_logger.py:22-41) is foreign code. A document is given as its page texts plus an abstract failure point. No layout, encoding or text-extraction behaviour is modelled.
- Releasing the document handle (bates_logger.py:41) is a resource effect, not a value.
- `os.path.exists` (bates_logger.py:60) is the parameter `fileExists`. The file read for a path is the parameter `readPdf`.
- `Path.rglob("*.pdf")` (bates_logger.py:103) is not modelled: its enumeration order, its glob case sensitivity and the rendering `str(p)`. The scan takes the enumerated paths as sequences of parts and returns parts.
- Opening and reading the list file (bates_logger.py:96) is not modelled, including UTF-8 decoding and line splitting. The filter takes the lines as the file iterator yields them.
- `os.path.basename` (bates_logger.py:65) uses a fixed separator set given as a parameter. Windows drive prefixes such as `C:name.pdf` are not split off.
- Writing the CSV (bates_logger.py:82-88) is output only: the header, quoting, encoding and overwriting, including the second loop that writes the rows. Every `print` is console output and is left out too.
- The `__main__` block and the constants for the root directory and output file (bates_logger.py:13-14, 106-121) are configuration only.
- `BatesPattern.IsDigit` accepts only ASCII `0`-`9`. Python 3's `\d` on `str` also matches other Unicode decimal digits, such as Arabic-Indic digits.
- `PathText.LowerChar` lowers only ASCII letters. No other character lowers to `.`, `p`, `d` or `f`, so the `.pdf` test itself is unaffected.

## Findings

| source | as written | input that shows it | evidently intended | confidence | as-written member | corrected member |
|---|---|---|---|---|---|---|
| bates_logger.py:103 | drops every path with any part starting with `.`, including the parent-directory part `..` | scanning root `../case`: `rglob` yields parts `("..", "case", "a.pdf")`, so the path is dropped and the log is empty | skip hidden folders (lines 4 and 101) but not the parent-directory part `..`; only the treatment of `..` changes, and hidden files such as `.x.pdf` stay excluded as the code excludes them | medium, not executed | `BatesLogger.ScanDirectoryForPdfsAsWritten` (shown by `BatesLogger.ParentRootDropsEverything`) | `BatesLogger.ScanDirectoryForPdfs` |
