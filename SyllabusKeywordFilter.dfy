/**
 * `utils/syllabus_keyword_filter.py`: lists the PDFs of a directory, backs them up, and deletes
 * those whose text does not mention a keyword as a substring, ignoring case. The directory
 * listing, the file test and the extracted PDF text are parameters; copies and deletions are
 * returned as lists.
 */
module SyllabusKeywordFilter {
  import opened Text
  import opened Seqs
  import opened Paths
  import opened Filtering

  /** `f.lower().endswith('.pdf')`. */
  predicate IsPdfName(f: String) { EndsWith(Lower(f), ".pdf") }

  /**
   * `find_pdf_files`: `directory/f` for every entry `f` of `listing` (`os.listdir`) whose name
   * ends in ".pdf" in any case and for which `isFile` (`os.path.isfile`) holds, in listing order.
   */
  function FindPdfFiles(directory: String, listing: seq<String>, isFile: String -> bool): (r: seq<String>)
    ensures |r| <= |listing|
    ensures forall g :: g in r ==>
              exists f :: f in listing && IsPdfName(f) && isFile(JoinPath(directory, f)) && g == JoinPath(directory, f)
    ensures forall f :: f in listing && IsPdfName(f) && isFile(JoinPath(directory, f)) ==> JoinPath(directory, f) in r
    decreases |listing|
  {
    if listing == [] then []
    else
      var f := listing[0];
      var path := JoinPath(directory, f);
      var rest := FindPdfFiles(directory, listing[1..], isFile);
      assert f in listing;
      assert forall x :: x in listing[1..] ==> x in listing;
      assert forall x :: x in listing ==> x == f || x in listing[1..];
      if IsPdfName(f) && isFile(path) then [path] + rest else rest
  }

  /**
   * The backup name of a PDF: `os.path.join(backup_dir, os.path.relpath(pdf_file, pdf_dir))`.
   * The files come from `find_pdf_files`, directly inside `pdf_dir`, so the relative path is the
   * base name.
   */
  function BackupPath(backupDir: String, pdfFile: String): (r: String)
    ensures EndsWith(r, Basename(pdfFile))
  {
    JoinPath(backupDir, Basename(pdfFile))
  }

  /** The copy loop: each file paired with its destination, in order. */
  method CopyEach(files: seq<String>, dest: String -> String) returns (copies: seq<(String, String)>)
    ensures |copies| == |files|
    ensures forall i :: 0 <= i < |copies| ==> copies[i] == (files[i], dest(files[i]))
  {
    copies := [];
    for i := 0 to |files|
      invariant |copies| == i
      invariant forall j :: 0 <= j < i ==> copies[j] == (files[j], dest(files[j]))
    {
      copies := copies + [(files[i], dest(files[i]))];
    }
  }

  function BackupDestination(backupDir: String): String -> String {
    f => BackupPath(backupDir, f)
  }

  /**
   * `backup_pdfs`: one copy per PDF, in order, from the file to its backup name. Creating the
   * directories is not modelled.
   */
  method BackupPdfs(pdfFiles: seq<String>, backupDir: String) returns (copies: seq<(String, String)>)
    ensures |copies| == |pdfFiles|
    ensures forall i :: 0 <= i < |copies| ==> copies[i] == (pdfFiles[i], BackupPath(backupDir, pdfFiles[i]))
  {
    copies := CopyEach(pdfFiles, BackupDestination(backupDir));
  }

  /** A listed PDF is backed up under its own name in the backup directory. */
  lemma BackupKeepsName(backupDir: String, directory: String, f: String)
    requires '/' !in f
    ensures BackupPath(backupDir, JoinPath(directory, f)) == JoinPath(backupDir, f)
    ensures Basename(BackupPath(backupDir, JoinPath(directory, f))) == f
  {
    BasenameOfJoin(directory, f);
    BasenameOfJoin(backupDir, f);
  }

  /**
   * `check_keywords_in_pdf`: the keywords whose upper-cased form is a substring of the
   * upper-cased text. Text extraction swallows its own errors and yields what it read, so
   * this never fails.
   */
  function CheckKeywordsInPdf(pdfText: String, keywords: seq<String>): (r: (bool, set<String>))
    ensures forall k :: k in r.1 ==> k in keywords
    ensures r.0 <==> r.1 != {}
    ensures forall k :: k in keywords && Contains(pdfText, k) ==> k in r.1
    ensures pdfText == [] ==> forall k :: k in r.1 ==> k == []
  {
    var found := FoundSubstrings(pdfText, keywords);
    assert forall k :: k in keywords && Contains(pdfText, k) ==> k in found by {
      forall k | k in keywords && Contains(pdfText, k) ensures k in found {
        VerbatimKeywordFound(pdfText, keywords, k);
      }
    }
    (found != {}, found)
  }

  /** The keep test of `filter_pdfs`. */
  function PdfHasKeyword(keywords: seq<String>, pdfText: String -> String): String -> bool {
    f => CheckKeywordsInPdf(pdfText(f), keywords).0
  }

  /**
   * `filter_pdfs`: the PDFs whose text mentions a keyword are kept, the others removed, and the
   * removed ones deleted unless `dryRun`.
   */
  method FilterPdfs(pdfFiles: seq<String>, keywords: seq<String>, dryRun: bool, pdfText: String -> String)
    returns (kept: seq<String>, removed: seq<String>, deleted: seq<String>)
    ensures kept == Filter(pdfFiles, PdfHasKeyword(keywords, pdfText))
    ensures removed == Filter(pdfFiles, Not(PdfHasKeyword(keywords, pdfText)))
    ensures deleted == if dryRun then [] else removed
  {
    kept, removed, deleted := PartitionFiles(pdfFiles, PdfHasKeyword(keywords, pdfText), dryRun);
  }

  /** A PDF whose text names a keyword verbatim is never deleted. */
  lemma VerbatimMentionNotDeleted(pdfFiles: seq<String>, keywords: seq<String>, pdfText: String -> String, f: String, k: String)
    requires k in keywords && Contains(pdfText(f), k)
    ensures f !in Filter(pdfFiles, Not(PdfHasKeyword(keywords, pdfText)))
  {
    assert k in CheckKeywordsInPdf(pdfText(f), keywords).1;
  }
}
