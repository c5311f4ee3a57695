/** `find_first_pdf`: the first file, in the order `os.walk` reports them,
    whose lower-cased name ends in `.pdf`. */
module Locator {
  import opened Options
  import opened Text

  /** One directory reported by `os.walk`: its path and the names of the
      files directly inside it, in listing order. The search ignores the
      sub-directory list, so it is not recorded. */
  datatype WalkStep = WalkStep(root: string, files: seq<string>)

  type Walk = seq<WalkStep>

  /** The only test a file name must pass: case-insensitive `.pdf` suffix. */
  predicate IsPdfName(name: string)
    ensures IsPdfName(name) ==> |name| >= 4 && name[|name| - 4] == '.'
  {
    var lower := ToLower(name);
    assert EndsWith(lower, ".pdf") ==> lower[|lower| - 4..][0] == LowerChar(name[|name| - 4]);
    EndsWith(lower, ".pdf")
  }

  /** File `j` of directory `i` of the walk qualifies. */
  predicate PdfAt(walk: Walk, i: int, j: int) {
    0 <= i < |walk| && 0 <= j < |walk[i].files| && IsPdfName(walk[i].files[j])
  }

  /** Walk order: directory by directory, file by file within each. */
  predicate Precedes(i: int, j: int, i': int, j': int) {
    i < i' || (i == i' && j < j')
  }

  ghost predicate FirstPdfAt(walk: Walk, i: int, j: int) {
    && PdfAt(walk, i, j)
    && forall i', j' :: PdfAt(walk, i', j') ==> !Precedes(i', j', i, j)
  }

  /** Position of the first qualifying name in one directory, or `|files|`. */
  function FirstPdfIn(files: seq<string>): (k: nat)
    ensures k <= |files|
    ensures forall j :: 0 <= j < k ==> !IsPdfName(files[j])
    ensures k < |files| ==> IsPdfName(files[k])
    decreases |files|
  {
    if |files| == 0 || IsPdfName(files[0]) then 0 else 1 + FirstPdfIn(files[1..])
  }

  lemma WalkTail(walk: Walk)
    requires |walk| > 0
    ensures forall i, j :: PdfAt(walk, i, j) && i > 0 ==> PdfAt(walk[1..], i - 1, j)
    ensures forall i, j :: PdfAt(walk[1..], i, j) ==> PdfAt(walk, i + 1, j)
  {
  }

  /** Directory and file position of the first qualifying file. */
  function FirstPdfPosition(walk: Walk): (r: Option<(nat, nat)>)
    ensures r.None? <==> forall i, j :: !PdfAt(walk, i, j)
    ensures r.Some? ==> FirstPdfAt(walk, r.value.0, r.value.1)
    decreases |walk|
  {
    if |walk| == 0 then None
    else
      var k := FirstPdfIn(walk[0].files);
      if k < |walk[0].files| then
        assert PdfAt(walk, 0, k);
        Some((0, k))
      else
        WalkTail(walk);
        match FirstPdfPosition(walk[1..])
        case None => None
        case Some(p) => Some((p.0 + 1, p.1))
  }

  /** `find_first_pdf(mount_path)`: the joined path of the first qualifying
      file, or `None` exactly when no file in the walk qualifies. */
  function FindFirstPdf(walk: Walk): (r: Option<string>)
    ensures r.None? <==> forall i, j :: !PdfAt(walk, i, j)
    ensures r.Some? ==> exists i, j :: FirstPdfAt(walk, i, j) && r.value == Join(walk[i].root, walk[i].files[j])
    ensures r.Some? ==> |r.value| >= 4
  {
    match FirstPdfPosition(walk)
    case None => None
    case Some(p) => Some(Join(walk[p.0].root, walk[p.0].files[p.1]))
  }

  /** Case is ignored in the suffix and nothing else about the name is
      looked at. */
  lemma PdfNameSuffix(name: string)
    ensures IsPdfName(name) <==>
      && |name| >= 4
      && name[|name| - 4] == '.'
      && name[|name| - 3] in "pP"
      && name[|name| - 2] in "dD"
      && name[|name| - 1] in "fF"
  {
    var n := |name|;
    if n >= 4 {
      assert ToLower(name)[n - 4..] == [LowerChar(name[n - 4]), LowerChar(name[n - 3]), LowerChar(name[n - 2]), LowerChar(name[n - 1])];
    }
  }

  /** Hidden, editor-lock and system names are not filtered out. */
  lemma HiddenAndTemporaryNamesQualify()
    ensures IsPdfName(".hidden.pdf") && IsPdfName("~$Draft.PDF") && IsPdfName("$RECYCLE.Pdf")
    ensures !IsPdfName("slides.pdf.bak") && !IsPdfName("pdf")
  {
    PdfNameSuffix(".hidden.pdf");
    PdfNameSuffix("~$Draft.PDF");
    PdfNameSuffix("$RECYCLE.Pdf");
    PdfNameSuffix("slides.pdf.bak");
    PdfNameSuffix("pdf");
  }

}
