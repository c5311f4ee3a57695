/** `convert_pdf_to_images`: wipe the working directory, then save one
    image per page under its page name until the document runs out or a
    page raises. The exception is logged and swallowed. */
module Render {
  import opened Options
  import opened PageNames

  /** What the PDF library does with the found file: it cannot be opened,
      or it opens with `pageCount` pages and loading, rasterizing or saving
      page `failsAt` raises (`None`: every page goes through). */
  datatype Document = Unopenable | Opened(pageCount: nat, failsAt: Option<nat>)

  /** How many page files the loop saves before it stops. */
  function PagesWritten(doc: Document): nat {
    match doc
    case Unopenable => 0
    case Opened(count, failsAt) =>
      if failsAt.Some? && failsAt.value < count then failsAt.value else count
  }

  /** The conversion logs success rather than an error. */
  predicate ConvertsCompletely(doc: Document) {
    doc.Opened? && !(doc.failsAt.Some? && doc.failsAt.value < doc.pageCount)
  }

  /** The working directory's contents after the conversion, and whether
      it finished without an exception. */
  datatype Conversion = Conversion(pages: set<string>, complete: bool)

  /** The page loop from page `i` on. */
  function SavePagesFrom(dir: set<string>, count: nat, failsAt: Option<nat>, i: nat): (r: Conversion)
    requires i <= PagesWritten(Opened(count, failsAt))
    ensures r.pages == dir + (set j | i <= j < PagesWritten(Opened(count, failsAt)) :: PageName(j))
    ensures r.complete <==> ConvertsCompletely(Opened(count, failsAt))
    decreases count - i
  {
    if i == count then Conversion(dir, true)
    else if failsAt == Some(i) then Conversion(dir, false)
    else
      var r := SavePagesFrom(dir + {PageName(i)}, count, failsAt, i + 1);
      assert (set j | i <= j < PagesWritten(Opened(count, failsAt)) :: PageName(j))
          == {PageName(i)} + (set j | i + 1 <= j < PagesWritten(Opened(count, failsAt)) :: PageName(j));
      r
  }

  /** The directory is removed and recreated empty before any page is
      saved, so it ends up holding exactly the pages saved by this call,
      whatever it held before; an unopenable file or a failing page ends
      the loop early without an error reaching the caller. */
  function ConvertPdfToImages(doc: Document): (r: Conversion)
    ensures r.pages == PageSet(PagesWritten(doc))
    ensures r.complete <==> ConvertsCompletely(doc)
  {
    // The directory is removed and created again, so the loop starts from nothing.
    match doc
    case Unopenable => Conversion({}, false)
    case Opened(count, failsAt) => SavePagesFrom({}, count, failsAt, 0)
  }

  /** Page names are pairwise different, so `count` pages are `count` files. */
  lemma {:induction false} PageSetSize(count: nat)
    ensures |PageSet(count)| == count
    decreases count
  {
    if count > 0 {
      PageSetSize(count - 1);
      assert PageSet(count) == PageSet(count - 1) + {PageName(count - 1)};
      if PageName(count - 1) in PageSet(count - 1) {
        var i :| 0 <= i < count - 1 && PageName(i) == PageName(count - 1);
        PageNameInjective(i, count - 1);
      }
    }
  }

  /** A complete conversion leaves one file per page of the document. */
  lemma CompleteConversionHasEveryPage(doc: Document)
    requires ConvertsCompletely(doc)
    ensures ConvertPdfToImages(doc).pages == PageSet(doc.pageCount)
    ensures |ConvertPdfToImages(doc).pages| == doc.pageCount
  {
    PageSetSize(doc.pageCount);
  }

  /** When page `k` fails, the directory holds pages 0 .. k-1 and the
      failure is only visible as `complete == false`. */
  lemma FailedConversionKeepsPrefix(count: nat, k: nat)
    requires k < count
    ensures ConvertPdfToImages(Opened(count, Some(k))) == Conversion(PageSet(k), false)
  {
  }

  /** Whatever the outcome, a sorted listing of the directory is page order. */
  lemma ConvertedListingInPageOrder(doc: Document, listing: seq<string>)
    requires PagesWritten(doc) <= 100000
    requires StrictlySorted(listing)
    requires forall x :: x in listing <==> x in ConvertPdfToImages(doc).pages
    ensures listing == PageSeq(PagesWritten(doc))
  {
    SortedListingIsPageOrder(PagesWritten(doc), listing);
  }

}
