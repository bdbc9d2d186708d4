/** `PdfBitmapConverter`: rasterises an input PDF page by page through the
    one `PdfRenderer` it keeps, and composes bitmaps into a padded PDF. */
module PdfBitmapConverters {
  import opened Kotlin
  import opened Android
  import opened MarginLayout

  /** The bitmaps rendered from a list of pages: bitmap i is page i rendered. */
  function RenderAll(pages: seq<SourcePage>): (bitmaps: seq<Bitmap>)
    ensures |bitmaps| == |pages|
    ensures forall i :: 0 <= i < |pages| ==> bitmaps[i] == Render(pages[i])
  {
    if |pages| == 0 then [] else [Render(pages[0])] + RenderAll(pages[1..])
  }

  /** The renderer a converter keeps: none yet, an open one, or one that
      has been closed and not replaced. */
  datatype RendererSlot = NoRenderer | LiveRenderer | ClosedRenderer

  /** How `convertPdf2Bitmaps` ends, given the renderer the converter keeps
      and what opening the uri yields. Closing a renderer that is already
      closed throws before the uri is opened; otherwise an unopenable uri
      throws, a null descriptor gives no bitmaps, and a readable document
      gives one bitmap per page, in page order, each of its page's size and
      showing that page. */
  function Rasterize(slot: RendererSlot, opening: OpenOutcome): (r: Outcome<seq<Bitmap>>)
    ensures r.Throws? <==> slot == ClosedRenderer || opening.OpenFails?
    ensures r.Returns? && opening.NoDescriptor? ==> r.value == []
    ensures r.Returns? && opening.Opened? ==> |r.value| == |opening.document.pages|
    ensures r.Returns? && opening.Opened? ==> forall i :: 0 <= i < |r.value| ==>
      var page := opening.document.pages[i];
      r.value[i].width == page.width && r.value[i].height == page.height && r.value[i].content == page.content
  {
    if slot == ClosedRenderer then Throws
    else
      match opening
      case Opened(document) => Returns(RenderAll(document.pages))
      case NoDescriptor => Returns([])
      case OpenFails => Throws
  }

  /** The renderer the converter keeps after `convertPdf2Bitmaps`: a live one
      exactly when a document was opened past the close; otherwise the one it
      kept before, which is closed now, or none when it had none. */
  function SlotAfter(slot: RendererSlot, opening: OpenOutcome): (r: RendererSlot)
    ensures r == LiveRenderer <==> slot != ClosedRenderer && opening.Opened?
    ensures r == NoRenderer <==> slot == NoRenderer && !opening.Opened?
  {
    if slot != ClosedRenderer && opening.Opened? then LiveRenderer
    else if slot == NoRenderer then NoRenderer
    else ClosedRenderer
  }

  /** Once a conversion meets a null descriptor after a document was read,
      the converter keeps a closed renderer and every later conversion
      throws, whatever uri it is given. */
  lemma ClosedRendererIsKept(document: SourceDocument, later: OpenOutcome)
    ensures var slot := SlotAfter(SlotAfter(NoRenderer, Opened(document)), NoDescriptor);
      && slot == ClosedRenderer
      && Rasterize(slot, later) == Throws
      && SlotAfter(slot, later) == ClosedRenderer
  {
  }

  class PdfBitmapConverter {
    /** The renderer of the last document opened, kept after conversion. */
    var pdfRenderer: PdfRenderer?
    /** Every renderer this converter has opened, oldest first. */
    ghost var sessions: seq<PdfRenderer>

    /** The stored renderer is the newest session and every other one is
        closed: at most one rendering session is live. */
    ghost predicate Valid()
      reads this, sessions
    {
      && (pdfRenderer != null ==> |sessions| > 0 && pdfRenderer == sessions[|sessions| - 1])
      && (forall i :: 0 <= i < |sessions| - 1 ==> !sessions[i].isOpen)
      && (pdfRenderer == null ==> forall i :: 0 <= i < |sessions| ==> !sessions[i].isOpen)
    }

    /** The state of the stored renderer. */
    function Slot(): RendererSlot
      reads this, pdfRenderer
    {
      if pdfRenderer == null then NoRenderer
      else if pdfRenderer.isOpen then LiveRenderer
      else ClosedRenderer
    }

    constructor()
      ensures Valid() && pdfRenderer == null && sessions == []
      ensures Slot() == NoRenderer
    {
      pdfRenderer := null;
      sessions := [];
    }

    /** Any open session of this converter is the stored renderer. */
    lemma AtMostOneLiveSession()
      requires Valid()
      ensures forall r :: r in sessions && r.isOpen ==> r == pdfRenderer
    {
      forall r | r in sessions && r.isOpen
        ensures r == pdfRenderer
      {
        var i :| 0 <= i < |sessions| && sessions[i] == r;
        assert i == |sessions| - 1;
      }
    }

    /** `convertPdf2Bitmaps`: close the stored renderer, open the uri, and when
        that gives a document store a new renderer over it and render every
        page; a null descriptor gives no bitmaps. The stored renderer is not
        cleared after the close, so a conversion that opens nothing leaves a
        closed renderer behind, and the next call throws when it closes that
        renderer again. */
    method ConvertPdf2Bitmaps(context: Context) returns (bitmaps: Outcome<seq<Bitmap>>)
      requires Valid()
      modifies this, pdfRenderer
      ensures Valid()
      ensures bitmaps == Rasterize(old(Slot()), context.opening)
      ensures Slot() == SlotAfter(old(Slot()), context.opening)
      ensures old(pdfRenderer) != null ==> !old(pdfRenderer).isOpen
      ensures Slot() == LiveRenderer ==>
        && fresh(pdfRenderer)
        && pdfRenderer.pages == context.opening.document.pages
        && sessions == old(sessions) + [pdfRenderer]
      ensures Slot() != LiveRenderer ==> pdfRenderer == old(pdfRenderer) && sessions == old(sessions)
    {
      if pdfRenderer != null {
        var ok := pdfRenderer.Close();
        if !ok {
          return Throws;
        }
      }
      match context.opening
      case OpenFails =>
        bitmaps := Throws;
      case NoDescriptor =>
        bitmaps := Returns([]);
      case Opened(document) =>
        var renderer := new PdfRenderer(document);
        pdfRenderer := renderer;
        sessions := sessions + [renderer];
        bitmaps := Returns(RenderAll(renderer.pages));
    }

    /** `convertPdf2Bitmaps` with the stored renderer cleared right after it
        is closed: the converter never keeps a closed renderer, so a
        conversion throws only when the uri cannot be opened, and otherwise
        returns what a first conversion would. */
    method ConvertPdf2BitmapsCorrected(context: Context) returns (bitmaps: Outcome<seq<Bitmap>>)
      requires Valid() && Slot() != ClosedRenderer
      modifies this, pdfRenderer
      ensures Valid() && Slot() != ClosedRenderer
      ensures bitmaps.Throws? <==> context.opening.OpenFails?
      ensures bitmaps == Rasterize(NoRenderer, context.opening)
      ensures old(pdfRenderer) != null ==> !old(pdfRenderer).isOpen
    {
      if pdfRenderer != null {
        var ok := pdfRenderer.Close();
        assert ok;
        pdfRenderer := null;
      }
      match context.opening
      case OpenFails =>
        bitmaps := Throws;
      case NoDescriptor =>
        bitmaps := Returns([]);
      case Opened(document) =>
        var renderer := new PdfRenderer(document);
        pdfRenderer := renderer;
        sessions := sessions + [renderer];
        bitmaps := Returns(RenderAll(renderer.pages));
    }

    /** `convertBitmaps2Pdf` as written: one page per bitmap, sized with the
        four margins, but the bitmap is drawn at (marginStart, marginEnd).
        `destination` is the output uri; whether it can be written is
        `context.writable`. Null when a page size is rejected or the
        destination cannot be written, where the source throws. */
    method ConvertBitmaps2Pdf(context: Context, bitmaps: seq<Bitmap>, destination: Uri,
                              marginTop: Int32, marginBottom: Int32, marginStart: Int32, marginEnd: Int32)
      returns (written: Nullable<seq<Page>>)
      ensures written.NonNull? <==> AllFit(PaddedPages(bitmaps, Margins(marginTop, marginBottom, marginStart, marginEnd), marginStart, marginEnd)) && context.writable
      ensures written.NonNull? ==> written.value == PaddedPages(bitmaps, Margins(marginTop, marginBottom, marginStart, marginEnd), marginStart, marginEnd)
    {
      var doc := new PdfDocument();
      var ok := AddPaddedPages(doc, bitmaps, Margins(marginTop, marginBottom, marginStart, marginEnd), marginStart, marginEnd);
      if !ok || !context.writable {
        return Null;
      }
      ghost var pages := PaddedPages(bitmaps, Margins(marginTop, marginBottom, marginStart, marginEnd), marginStart, marginEnd);
      assert doc.pages == [] + pages;
      written := NonNull(doc.pages);
    }

    /** `convertBitmaps2Pdf` with the bitmap drawn at (marginStart, marginTop),
        as the two other composers do: each bitmap sits inside its page with
        the top margin above it and the start margin to its left.
        `destination` is used as in `ConvertBitmaps2Pdf`. */
    method ConvertBitmaps2PdfCorrected(context: Context, bitmaps: seq<Bitmap>, destination: Uri,
                                       marginTop: Int32, marginBottom: Int32, marginStart: Int32, marginEnd: Int32)
      returns (written: Nullable<seq<Page>>)
      ensures written.NonNull? <==> AllFit(PaddedPages(bitmaps, Margins(marginTop, marginBottom, marginStart, marginEnd), marginStart, marginTop)) && context.writable
      ensures written.NonNull? ==> written.value == PaddedPages(bitmaps, Margins(marginTop, marginBottom, marginStart, marginEnd), marginStart, marginTop)
    {
      var doc := new PdfDocument();
      var ok := AddPaddedPages(doc, bitmaps, Margins(marginTop, marginBottom, marginStart, marginEnd), marginStart, marginTop);
      if !ok || !context.writable {
        return Null;
      }
      ghost var pages := PaddedPages(bitmaps, Margins(marginTop, marginBottom, marginStart, marginEnd), marginStart, marginTop);
      assert doc.pages == [] + pages;
      written := NonNull(doc.pages);
    }
  }

  /** What `convertBitmaps2Pdf` as written does to the vertical bands: on a
      100 x 100 bitmap with only a top margin of 10, the page is 110 high but
      the bitmap is drawn at y = 0, so the blank band of 10 ends up below the
      bitmap and none is left above it. */
  lemma EndMarginOffsetExample(content: nat)
    ensures var b := Bitmap(100, 100, content);
      var pages := PaddedPages([b], Margins(10, 0, 0, 0), 0, 0);
      && pages[0].info.height == 110
      && pages[0].drawings[0].top == 0
      && pages[0].info.height - (pages[0].drawings[0].top + b.height) == 10
  {
  }
}
