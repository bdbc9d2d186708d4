/** What the core uses of the Android platform, reduced to what its logic
    depends on: uris, the answers a `Context` gives during one event, bitmaps,
    and the two PDF classes (`PdfRenderer` reads pages, `PdfDocument` writes
    them). Pixels and the PDF format itself are not modelled: a page is its
    size and an identifier of what it shows. */
module Android {
  import opened Kotlin

  /** An opaque content or file uri. */
  datatype Uri = Uri(text: string)

  /** The answers the platform gives the core through a `Context` while one
      event is handled: the content resolver's DISPLAY_NAME for the selected
      uri (Null when the query returns no cursor), the file name of the uri's
      path (the fallback of `getFileName`), what opening the uri for reading
      yields, whether writing an output PDF succeeds, and the uri
      `FileProvider` hands out for the written file. */
  datatype Context = Context(
    displayName: Nullable<string>,
    pathName: string,
    opening: OpenOutcome,
    writable: bool,
    providerUri: Uri)

  /** What `openFileDescriptor(uri, "r")` followed by `PdfRenderer(descriptor)`
      yields: a readable document; a null descriptor (the provider gave no
      file); or an exception (no such file, no permission, or a file that is
      not a PDF). */
  datatype OpenOutcome = Opened(document: SourceDocument) | NoDescriptor | OpenFails

  /** A page or bitmap dimension: a positive `Int`. */
  type Dim = x: int | 0 < x <= IntMax witness 1

  /** A page of the input PDF; `content` identifies what the page shows. */
  datatype SourcePage = SourcePage(width: Dim, height: Dim, content: nat)

  datatype SourceDocument = SourceDocument(pages: seq<SourcePage>)

  /** A decoded raster image and the page content it shows. */
  datatype Bitmap = Bitmap(width: Dim, height: Dim, content: nat)

  /** `PdfDocument.PageInfo`: the size of an output page and its number. */
  datatype PageInfo = PageInfo(width: Int32, height: Int32, pageNumber: Int32) {
    /** `PageInfo.Builder` throws unless width and height are positive and
        the page number is not negative. */
    predicate Valid()
    {
      width > 0 && height > 0 && pageNumber >= 0
    }
  }

  /** A bitmap drawn on a page canvas with its top-left corner at (left, top). */
  datatype Drawing = Drawing(bitmap: Bitmap, left: Int32, top: Int32)

  /** An output page: its page info and what was drawn on it, in order. */
  datatype Page = Page(info: PageInfo, drawings: seq<Drawing>)

  /** A PDF written to storage: its file name and its pages in order. */
  datatype PdfFile = PdfFile(name: string, pages: seq<Page>)

  /** `android.graphics.pdf.PdfDocument`: pages are started one at a time,
      drawn on, and finished, which appends them to the document. */
  class PdfDocument {
    var pages: seq<Page>
    var current: Nullable<Page>

    constructor()
      ensures pages == [] && current == Null
    {
      pages := [];
      current := Null;
    }

    /** `startPage`: only one page may be open at a time. */
    method StartPage(info: PageInfo)
      requires current == Null && info.Valid()
      modifies this
      ensures pages == old(pages) && current == NonNull(Page(info, []))
    {
      current := NonNull(Page(info, []));
    }

    /** `page.canvas.drawBitmap(bitmap, left, top, null)`. */
    method DrawBitmap(bitmap: Bitmap, left: Int32, top: Int32)
      requires current.NonNull?
      modifies this
      ensures pages == old(pages)
      ensures current == NonNull(old(current.value).(drawings := old(current.value.drawings) + [Drawing(bitmap, left, top)]))
    {
      var page := current.value;
      current := NonNull(page.(drawings := page.drawings + [Drawing(bitmap, left, top)]));
    }

    /** `finishPage`: the open page becomes the document's last page. */
    method FinishPage()
      requires current.NonNull?
      modifies this
      ensures pages == old(pages) + [old(current.value)] && current == Null
    {
      pages := pages + [current.value];
      current := Null;
    }
  }

  /** `android.graphics.pdf.PdfRenderer`: an open rendering session over one
      input document, until it is closed. */
  class PdfRenderer {
    const pages: seq<SourcePage>
    var isOpen: bool

    constructor(document: SourceDocument)
      ensures pages == document.pages && isOpen
    {
      pages := document.pages;
      isOpen := true;
    }

    /** `close()`: ends the session, and throws `IllegalStateException`
        when the renderer is already closed; `ok` is false when it threw. */
    method Close() returns (ok: bool)
      modifies this
      ensures ok == old(isOpen)
      ensures !isOpen
    {
      ok := isOpen;
      isOpen := false;
    }
  }

  /** Rendering one page gives a bitmap of the page's size showing the page. */
  function Render(page: SourcePage): Bitmap
  {
    Bitmap(page.width, page.height, page.content)
  }
}
