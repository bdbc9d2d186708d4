/** The page geometry shared by the three margin composers
    (`PdfViewModel.convert`, `addMarginToPdf2`, `convertBitmaps2Pdf`): every
    bitmap becomes one page of size (start + width + end, top + height +
    bottom), computed with `Int` arithmetic, with the bitmap drawn at an
    offset the composer chooses. */
module MarginLayout {
  import opened Kotlin
  import opened Android

  /** The four margins a composer works with. */
  datatype Margins = Margins(top: Int32, bottom: Int32, start: Int32, end: Int32)

  /** `PageInfo.Builder(start + width + end, top + height + bottom, 1)`:
      page number 1, and each side the exact sum whenever that is an `Int`
      (`MaxMarginOverflows` shows what happens when it is not). */
  function PaddedInfo(bitmap: Bitmap, margins: Margins): (info: PageInfo)
    ensures IntMin <= margins.start + bitmap.width + margins.end <= IntMax ==>
      info.width == margins.start + bitmap.width + margins.end
    ensures IntMin <= margins.top + bitmap.height + margins.bottom <= IntMax ==>
      info.height == margins.top + bitmap.height + margins.bottom
    ensures info.pageNumber == 1
  {
    PlusPlus(margins.start, bitmap.width, margins.end);
    PlusPlus(margins.top, bitmap.height, margins.bottom);
    PageInfo(Plus(Plus(margins.start, bitmap.width), margins.end),
             Plus(Plus(margins.top, bitmap.height), margins.bottom),
             1)
  }

  /** The page emitted for one bitmap drawn at (left, top). */
  function PaddedPage(bitmap: Bitmap, margins: Margins, left: Int32, top: Int32): Page
  {
    Page(PaddedInfo(bitmap, margins), [Drawing(bitmap, left, top)])
  }

  /** The pages emitted for a list of bitmaps: page i comes from bitmap i. */
  function PaddedPages(bitmaps: seq<Bitmap>, margins: Margins, left: Int32, top: Int32): (pages: seq<Page>)
    ensures |pages| == |bitmaps|
    ensures forall i :: 0 <= i < |bitmaps| ==> pages[i] == PaddedPage(bitmaps[i], margins, left, top)
  {
    if |bitmaps| == 0 then []
    else [PaddedPage(bitmaps[0], margins, left, top)] + PaddedPages(bitmaps[1..], margins, left, top)
  }

  /** Every page has a size `PageInfo.Builder` accepts. */
  predicate AllFit(pages: seq<Page>)
  {
    forall i :: 0 <= i < |pages| ==> pages[i].info.Valid()
  }

  /** The loop every composer runs on its `PdfDocument`: for each bitmap in
      order, build the page info, start a page, draw the bitmap at
      (left, top), finish the page. It stops at the first page info the
      builder rejects, which the source sees as an exception. */
  method AddPaddedPages(doc: PdfDocument, bitmaps: seq<Bitmap>, margins: Margins, left: Int32, top: Int32)
    returns (ok: bool)
    requires doc.current == Null
    modifies doc
    ensures doc.current == Null
    ensures ok == AllFit(PaddedPages(bitmaps, margins, left, top))
    ensures ok ==> doc.pages == old(doc.pages) + PaddedPages(bitmaps, margins, left, top)
  {
    var i := 0;
    while i < |bitmaps|
      invariant 0 <= i <= |bitmaps|
      invariant doc.current == Null
      invariant doc.pages == old(doc.pages) + PaddedPages(bitmaps[..i], margins, left, top)
      invariant AllFit(PaddedPages(bitmaps[..i], margins, left, top))
    {
      var bitmap := bitmaps[i];
      var info := PaddedInfo(bitmap, margins);
      PaddedPagesSnoc(bitmaps, i, margins, left, top);
      if !info.Valid() {
        return false;
      }
      ghost var before := doc.pages;
      doc.StartPage(info);
      doc.DrawBitmap(bitmap, left, top);
      assert doc.current.value == PaddedPage(bitmap, margins, left, top);
      doc.FinishPage();
      assert doc.pages == before + [PaddedPage(bitmap, margins, left, top)];
      i := i + 1;
    }
    assert bitmaps[..i] == bitmaps;
    return true;
  }

  /** The pages of the first i + 1 bitmaps are those of the first i
      followed by the page of bitmap i; they all fit when the first i do
      and bitmap i's does, and when bitmap i's does not, no list holding it
      fits. */
  lemma PaddedPagesSnoc(bitmaps: seq<Bitmap>, i: nat, margins: Margins, left: Int32, top: Int32)
    requires i < |bitmaps|
    ensures PaddedPages(bitmaps[..i + 1], margins, left, top)
         == PaddedPages(bitmaps[..i], margins, left, top) + [PaddedPage(bitmaps[i], margins, left, top)]
    ensures AllFit(PaddedPages(bitmaps[..i], margins, left, top)) && PaddedInfo(bitmaps[i], margins).Valid() ==>
      AllFit(PaddedPages(bitmaps[..i + 1], margins, left, top))
    ensures !PaddedInfo(bitmaps[i], margins).Valid() ==> !AllFit(PaddedPages(bitmaps, margins, left, top))
  {
    var longer := PaddedPages(bitmaps[..i + 1], margins, left, top);
    var shorter := PaddedPages(bitmaps[..i], margins, left, top);
    var appended := shorter + [PaddedPage(bitmaps[i], margins, left, top)];
    forall k | 0 <= k < i + 1
      ensures longer[k] == appended[k]
    {
      assert bitmaps[..i + 1][k] == bitmaps[k];
      if k < i {
        assert bitmaps[..i][k] == bitmaps[k];
      }
    }
    assert longer == appended;
    assert PaddedPages(bitmaps, margins, left, top)[i].info == PaddedInfo(bitmaps[i], margins);
  }

  /** With all margins zero every page has its bitmap's size, and every page fits. */
  lemma ZeroMarginsKeepSize(bitmaps: seq<Bitmap>)
    ensures var pages := PaddedPages(bitmaps, Margins(0, 0, 0, 0), 0, 0);
      && AllFit(pages)
      && forall i :: 0 <= i < |bitmaps| ==>
           pages[i].info.width == bitmaps[i].width && pages[i].info.height == bitmaps[i].height
  {
  }

  /** Non-negative margins that do not overflow give pages the builder accepts. */
  lemma {:induction false} NonNegativeMarginsFit(bitmaps: seq<Bitmap>, margins: Margins, left: Int32, top: Int32)
    requires margins.top >= 0 && margins.bottom >= 0 && margins.start >= 0 && margins.end >= 0
    requires forall i :: 0 <= i < |bitmaps| ==>
      margins.start + bitmaps[i].width + margins.end <= IntMax &&
      margins.top + bitmaps[i].height + margins.bottom <= IntMax
    ensures AllFit(PaddedPages(bitmaps, margins, left, top))
  {
    var pages := PaddedPages(bitmaps, margins, left, top);
    forall i | 0 <= i < |pages|
      ensures pages[i].info.Valid()
    {
      PlusPlus(margins.start, bitmaps[i].width, margins.end);
      PlusPlus(margins.top, bitmaps[i].height, margins.bottom);
    }
  }

  /** A margin of `Int.MAX_VALUE` makes the width wrap to a negative `Int`,
      so no page of a non-empty list fits. */
  lemma {:induction false} MaxMarginOverflows(bitmaps: seq<Bitmap>, margins: Margins, left: Int32, top: Int32)
    requires |bitmaps| > 0
    requires margins.start == IntMax && 0 <= margins.end <= IntMax - bitmaps[0].width
    ensures !AllFit(PaddedPages(bitmaps, margins, left, top))
  {
    var b := bitmaps[0];
    var x := IntMax + b.width + margins.end;
    PlusPlus(margins.start, b.width, margins.end);
    assert PaddedPages(bitmaps, margins, left, top)[0].info.width == Wrap(x);
    assert IntRange <= x - IntMin < 2 * IntRange;
    assert (x - IntMin) % IntRange == x - IntMin - IntRange;
    assert Wrap(x) < 0;
  }

  /** Three 200 x 300 pages with margins top 10, bottom 20, left 5, right 5
      become three 210 x 330 pages with the bitmap drawn at (5, 10). */
  lemma ThreePageScenario(content: nat)
    ensures var b := Bitmap(200, 300, content);
      var pages := PaddedPages([b, b, b], Margins(10, 20, 5, 5), 5, 10);
      && |pages| == 3
      && forall i :: 0 <= i < 3 ==>
           pages[i] == Page(PageInfo(210, 330, 1), [Drawing(b, 5, 10)])
  {
  }
}
