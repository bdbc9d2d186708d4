/** `PdfViewModel`: holds the published `PdfState` and replaces it
    wholesale in response to each event. Every handler is proved to leave
    the state and the converter's renderer as `PdfReducer` prescribes, and
    to keep the state invariant. */
module PdfViewModels {
  import opened Kotlin
  import opened Android
  import opened MarginLayout
  import opened PdfStates
  import opened PdfEvents
  import PdfReducer
  import Utils
  import PdfBitmapConverters

  class PdfViewModel {
    const pdfBitmapConverter: PdfBitmapConverters.PdfBitmapConverter
    /** The value of the state flow. */
    var state: PdfState

    ghost predicate Valid()
      reads this, pdfBitmapConverter, pdfBitmapConverter.sessions
    {
      Inv(state) && pdfBitmapConverter.Valid()
    }

    /** The published state and the state of the converter's renderer. */
    function Current(): PdfReducer.Machine
      reads this, pdfBitmapConverter, pdfBitmapConverter.pdfRenderer
    {
      PdfReducer.Machine(state, pdfBitmapConverter.Slot())
    }

    constructor()
      ensures Valid() && Current() == PdfReducer.InitialMachine
      ensures fresh(pdfBitmapConverter) && pdfBitmapConverter.sessions == []
    {
      pdfBitmapConverter := new PdfBitmapConverters.PdfBitmapConverter();
      state := Initial;
    }

    /** `emit`: one handler per event of the sealed set. */
    method Emit(event: PdfEvent)
      requires Valid()
      modifies this, pdfBitmapConverter, pdfBitmapConverter.pdfRenderer
      ensures Valid()
      ensures Current() == PdfReducer.Step(old(Current()), event)
    {
      match event
      case SetUri(context, uri) => SetUri(context, uri);
      case SetMarginTop(margin) => SetMarginTop(margin);
      case SetMarginBottom(margin) => SetMarginBottom(margin);
      case SetMarginStart(margin) => SetMarginLeft(margin);
      case SetMarginEnd(margin) => SetMarginRight(margin);
      case SetName(name) => SetName(name);
      case ClearUri => ClearUri();
      case ClearName => ClearName();
      case Convert(context) =>
        var written := Convert(context);
    }

    /** `convert`: mark busy with no error and no result, compose one page
        per bitmap into a new document, write it under the output name, and
        publish the provider uri; any failure publishes the error flag. */
    method Convert(context: Context) returns (written: Nullable<PdfFile>)
      requires Valid()
      modifies this
      ensures Valid()
      ensures state == PdfReducer.Convert(old(state), context)
      ensures written == PdfReducer.ConvertOutput(old(state), context)
    {
      ghost var before := state;
      state := state.(isConverting := true, isError := false, resultUri := Null);
      assert state == PdfReducer.StartConvert(before);
      var margins := state.EffectiveMargins();
      var bitmaps := state.bitmaps;
      var name := state.name;
      ghost var pages := PaddedPages(bitmaps, margins, margins.start, margins.top);
      assert PdfReducer.ConvertOutput(state, context) == PdfReducer.ConvertOutput(before, context);
      var doc := new PdfDocument();
      var composed := AddPaddedPages(doc, bitmaps, margins, margins.start, margins.top);
      if !composed || !context.writable {
        assert PdfReducer.ConvertOutput(before, context) == Null;
        state := state.(isConverting := false, isError := true);
        return Null;
      }
      assert doc.pages == pages;
      assert PdfReducer.ConvertOutput(before, context)
          == NonNull(PdfFile(name.OrElse(PdfReducer.ErrorName) + ".pdf", pages));
      written := NonNull(PdfFile(name.OrElse(PdfReducer.ErrorName) + ".pdf", doc.pages));
      assert written == PdfReducer.ConvertOutput(before, context);
      state := state.(isConverting := false, resultUri := NonNull(context.providerUri));
    }

    /** `setUri`: ignored for the current uri; otherwise derive the name,
        mark busy, rasterise through the converter, and publish uri, names
        and bitmaps together. When the converter throws, the exception
        leaves the coroutine and the busy state stays published. */
    method SetUri(context: Context, uri: Uri)
      requires Valid()
      modifies this, pdfBitmapConverter, pdfBitmapConverter.pdfRenderer
      ensures Valid()
      ensures Current() == PdfReducer.SetUri(old(Current()), context, uri)
      ensures old(state.uri) == NonNull(uri) ==> unchanged(pdfBitmapConverter)
    {
      if NonNull(uri) == state.uri {
        return;
      }
      var newOldName := Utils.GetFileName(context);
      state := state.(isConverting := true);
      var bitmaps := pdfBitmapConverter.ConvertPdf2Bitmaps(context);
      if bitmaps.Throws? {
        return;
      }
      state := state.(uri := NonNull(uri), oldName := NonNull(newOldName), name := NonNull(newOldName),
                      bitmaps := bitmaps.value, isConverting := false);
    }

    method SetMarginTop(margin: Int32)
      requires Valid()
      modifies this
      ensures Valid() && state == PdfReducer.SetMargin(old(state), Top, margin)
    {
      if NonNull(margin) == state.marginTop {
        return;
      }
      state := state.(marginTop := NonNull(margin));
    }

    method SetMarginBottom(margin: Int32)
      requires Valid()
      modifies this
      ensures Valid() && state == PdfReducer.SetMargin(old(state), Bottom, margin)
    {
      if NonNull(margin) == state.marginBottom {
        return;
      }
      state := state.(marginBottom := NonNull(margin));
    }

    /** Stores the start margin (the left edge in a left-to-right layout). */
    method SetMarginLeft(margin: Int32)
      requires Valid()
      modifies this
      ensures Valid() && state == PdfReducer.SetMargin(old(state), Start, margin)
    {
      if NonNull(margin) == state.marginStart {
        return;
      }
      state := state.(marginStart := NonNull(margin));
    }

    /** Stores the end margin (the right edge in a left-to-right layout). */
    method SetMarginRight(margin: Int32)
      requires Valid()
      modifies this
      ensures Valid() && state == PdfReducer.SetMargin(old(state), End, margin)
    {
      if NonNull(margin) == state.marginEnd {
        return;
      }
      state := state.(marginEnd := NonNull(margin));
    }

    method SetName(name: string)
      requires Valid()
      modifies this
      ensures Valid() && state == PdfReducer.SetName(old(state), name)
    {
      if NonNull(name) == state.name {
        return;
      }
      state := state.(name := NonNull(name));
    }

    method ClearUri()
      requires Valid()
      modifies this
      ensures Valid() && state == PdfReducer.ClearUri(old(state))
    {
      state := state.(uri := Null, oldName := Null);
    }

    method ClearName()
      requires Valid()
      modifies this
      ensures Valid() && state == PdfReducer.ClearName(old(state))
    {
      state := state.(name := Null);
    }
  }
}
