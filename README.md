# NoteRoom margin adder, modelled in Dafny

NoteRoom is an Android app that adds blank margins around every page of a
PDF. The user picks a document, and the app rasterises each page into a
bitmap. The user then types four margins and an output name, and the app
writes a new PDF. Each of its pages is one bitmap, padded by the margins.

This project models the app's core and proves properties of that model:

- **The job state machine.** `PdfViewModel` holds one immutable `PdfState`
  and replaces it on every `PdfEvent`. The view-model is a class with one
  `state` field and one method per event (`pdf_view_model.dfy`). Each
  method is proved to leave exactly the state, and the converter's
  renderer, that a pure transition function prescribes (`pdf_reducer.dfy`).
  The model proves these about the transitions:
  - the state invariant holds after any sequence of events;
  - setters and clears are idempotent;
  - independent setters commute;
  - selecting the same uri again after a finished selection does not
    rasterise again;
  - `convert` ends in exactly one of success or failure;
  - from a state that is not busy, only a `setUri` whose converter throws
    leaves the state busy.
- **The page geometry of the three margin composers**
  (`margin_layout.dfy`). These are the view-model's `convert`, the edit
  screen's `addMarginToPdf2` and `PdfBitmapConverter.convertBitmaps2Pdf`.
  - Each bitmap becomes a page of (start + width + end) by
    (top + height + bottom).
  - The sizes are computed with Kotlin's wrapping 32-bit `Int` addition.
  - A page size that `PdfDocument.PageInfo.Builder` rejects makes the
    composer fail.
  - As far as page geometry goes, the composers differ only in where they
    draw the bitmap. They also differ in other ways: the default file name,
    where the file goes, and how exceptions are reported.
- **The renderer discipline of `PdfBitmapConverter`**
  (`pdf_bitmap_converter.dfy`).
  - It closes the renderer it keeps, opens the uri, and renders page i
    into bitmap i.
  - A null descriptor gives an empty list.
  - Opening the uri can throw, and so can closing a renderer that is
    already closed. Either exception escapes the `setUri` coroutine.
  - At most one rendering session is open at any time.
- **The small text rules:**
  - the digit-only checks `isNumber` and `numberFilter`, with `\d` as the
    platform's digit class (Android's takes every Unicode decimal digit);
  - the file-stem rule of `Uri.getFileName`, with Kotlin's `split` that
    keeps empty pieces;
  - the edit screen's margin fields, shown with `Int.toString()` and read
    back with `toIntOrNull() ?: 0`;
  - the `canProcess` guard;
  - the older screen's filtered text fields and its button-enable rule.

## Platform stand-ins

Android is represented only by what the core observes of it, in
`android.dfy`:

- A `Context` is a value holding the platform's answers for one event:
  - the content resolver's display name, or null when the query returns
    no cursor;
  - the uri's path name;
  - what opening the uri yields: a document, a null descriptor (the
    provider gave no file), or an exception (no such file, no permission,
    or a file that is not a PDF);
  - whether the output file can be written;
  - the `FileProvider` uri of the written file.
- `PdfDocument` is a class that collects finished pages.
  `PageInfo.Builder`'s own rule applies: width and height must be
  positive and the page number non-negative, or it throws.
- `PdfRenderer` is a class with an open/closed flag. Its `close()`
  throws `IllegalStateException` when the renderer is already closed.
- Bitmaps and pages are records of their size plus an opaque content
  token.
- A call that can throw returns a Kotlin `Outcome`: it returns a value, or
  it throws.
- The characters the regular expression `\d` matches are a parameter of
  the older screen's fields. It holds at least the ASCII digits. The JVM's
  default reading is exactly those, while Android's ICU-based engine also
  takes the other Unicode decimal digits.

## Behaviour of the code worth knowing

- **Margin signs.** Each margin field stores whatever `toIntOrNull() ?: 0`
  gives (PdfEditScreen.kt:140, 157, 174, 191). So "-3" becomes the
  margin -3, and the setters in PdfViewModel.kt:116-134 do not reject it
  (`PdfEditScreen.MarginFieldEcho`).
  - Non-positive page sizes make `PageInfo.Builder` throw. `convert`
    catches that as a failure (PdfViewModel.kt:87-91).
  - Overflowing sizes wrap (`MarginLayout.MaxMarginOverflows`).
- **Empty names.** `canProcess` (PdfEditScreen.kt:69) only checks that the
  name is not null. So "" enables processing, and the file is then named
  ".pdf" (`PdfEditScreen.CanProcessAfterEvents`).
- **Bitmaps without a source.** `clearUri` (PdfViewModel.kt:141-146) nulls
  only `uri` and `oldName`, so the bitmaps stay
  (`PdfReducer.ClearUriKeepsBitmaps`).
- **Stuck busy flag.** `setUri` publishes `isConverting = true`
  (PdfViewModel.kt:102-104) before it calls the converter. When the
  converter throws, nothing catches it, and the busy state is the last one
  published (`PdfReducer.ClosedRendererScenario`).
- **Revision mismatch.** `PdfState.kt` and `PdfEvent.kt` come from another
  revision than `PdfViewModel.kt`:
  - they have `marginLeft`/`marginRight` (PdfState.kt:14-15) and
    `SetMarginLeft`/`SetMarginRight` (PdfEvent.kt:10-11);
  - they have no `isError`, no `resultUri` and no `Convert`, all of which
    `PdfViewModel.kt` uses (lines 35, 45-49, 83-91).

  The model uses the view-model's vocabulary: `marginStart`/`marginEnd`,
  `SetMarginStart`/`SetMarginEnd`, `isError`, `resultUri` and `Convert`.
  The view-model's own methods keep the names `setMarginLeft` and
  `setMarginRight`.

## Model

| member | source | states |
|---|---|---|
| `Kotlin.Plus` | app/src/main/java/com/brownstarlab/noteroom/presentation/pdf/PdfViewModel.kt:54-57 | `Int` addition is exact when the sum is in range; a non-negative plus a positive that overflows wraps to a negative value |
| `Kotlin.PlusPlus` | app/src/main/java/com/brownstarlab/noteroom/presentation/pdf/PdfViewModel.kt:54-57 | `a + b + c` evaluated left to right with wrap-around equals the exact sum wrapped once |
| `KotlinText.NatToString` | app/src/main/java/com/brownstarlab/noteroom/presentation/pdf/PdfEditScreen.kt:139 | the decimal spelling of a natural is a non-empty digit string denoting it, one digit below 10, with a leading '0' only for 0 itself |
| `KotlinText.IntToString` | app/src/main/java/com/brownstarlab/noteroom/presentation/pdf/PdfEditScreen.kt:139 | `Int.toString()` is the canonical spelling: digits denoting the value, preceded by '-' exactly for negative values, with no leading zero before or after the sign |
| `KotlinText.ToIntOrNull` | app/src/main/java/com/brownstarlab/noteroom/presentation/pdf/PdfEditScreen.kt:140 | `toIntOrNull()` is non-null exactly for an optional '+' or '-' followed by one or more digits whose signed value is an `Int` (down to -2^31 after '-'), and then gives that signed value; overflow gives null |
| `KotlinText.ParseShow` | app/src/main/java/com/brownstarlab/noteroom/presentation/pdf/PdfEditScreen.kt:139-140 | round trip: parsing the text `toString()` shows gives back every `Int`, negatives and `Int.MIN_VALUE` included |
| `Utils.IsNumber` | app/src/main/java/com/brownstarlab/noteroom/Utils.kt:55-57 | `isNumber` matches `[0-9]*` on the whole string: true iff every character is an ASCII digit, so also for "" |
| `Utils.Split` | app/src/main/java/com/brownstarlab/noteroom/Utils.kt:65 | `split(".")` yields at least one piece, no piece contains '.', and exactly one piece iff the name has no '.' |
| `Utils.Join` | app/src/main/java/com/brownstarlab/noteroom/Utils.kt:66 | `fastJoinToString(".")` starts with the first piece and puts the separator right after it when there is a second |
| `Utils.JoinSeparators` | app/src/main/java/com/brownstarlab/noteroom/Utils.kt:66 | pieces free of the separator join to a string containing it exactly when there are at least two pieces |
| `Utils.JoinSplit` | app/src/main/java/com/brownstarlab/noteroom/Utils.kt:65-66 | joining the pieces of a split with the same separator gives back the string |
| `Utils.Stem` | app/src/main/java/com/brownstarlab/noteroom/Utils.kt:65-66 | `subList(0, size - 1).fastJoinToString(".")` of the split name: a name without '.' has the empty stem |
| `Utils.Extension` | app/src/main/java/com/brownstarlab/noteroom/Utils.kt:65 | the last piece of the split holds no '.', and is the whole name when the name has none |
| `Utils.StemRoundTrip` | app/src/main/java/com/brownstarlab/noteroom/Utils.kt:65-66 | when the name contains '.', stem + "." + last piece is the name |
| `Utils.StemIsPrefixBeforeLastDot` | app/src/main/java/com/brownstarlab/noteroom/Utils.kt:65-66 | the stem is exactly the prefix of the name before its last '.' |
| `Utils.StemOfLastDot` | app/src/main/java/com/brownstarlab/noteroom/Utils.kt:65-66 | for any front and a dot-free back, the stem of front.back is front and its last piece is back |
| `Utils.StemExamples` | app/src/main/java/com/brownstarlab/noteroom/Utils.kt:65-66 | "a.b.pdf" gives "a.b"; "report" and ".pdf" give ""; "x." gives "x" |
| `Utils.GetFileName` | app/src/main/java/com/brownstarlab/noteroom/Utils.kt:59-68 | the derived name is the display name's stem (the round trip with its extension holds, and a dot-free name gives ""), or the file name of the uri's path when the query returns no cursor |
| `MarginLayout.PaddedInfo` | app/src/main/java/com/brownstarlab/noteroom/presentation/pdf/PdfViewModel.kt:53-59 | the page info has page number 1, and without overflow measures start + width + end by top + height + bottom |
| `MarginLayout.PaddedPages` | app/src/main/java/com/brownstarlab/noteroom/presentation/pdf/PdfViewModel.kt:51-70 | one page per bitmap, in order: page i is bitmap i padded by the margins and drawn at the composer's offset |
| `MarginLayout.AddPaddedPages` | app/src/main/java/com/brownstarlab/noteroom/presentation/pdf/PdfViewModel.kt:50-77 | the start/draw/finish loop succeeds iff every page size is accepted by the builder, and then appends exactly the padded pages to the document |
| `MarginLayout.ZeroMarginsKeepSize` | app/src/main/java/com/brownstarlab/noteroom/PdfBitmapConverter.kt:71-75 | with all margins zero every page has its bitmap's size and is accepted |
| `MarginLayout.NonNegativeMarginsFit` | app/src/main/java/com/brownstarlab/noteroom/presentation/pdf/PdfViewModel.kt:53-59 | non-negative margins whose sums stay within `Int` always give accepted page sizes |
| `MarginLayout.MaxMarginOverflows` | app/src/main/java/com/brownstarlab/noteroom/presentation/pdf/PdfViewModel.kt:53-59 | a start margin of `Int.MAX_VALUE` wraps the width negative, so the builder rejects the page and the conversion fails |
| `MarginLayout.ThreePageScenario` | app/src/main/java/com/brownstarlab/noteroom/presentation/pdf/PdfViewModel.kt:53-65 | three 200 x 300 bitmaps with margins 10/20/5/5 become three 210 x 330 pages with the bitmap at (5, 10) |
| `PdfBitmapConverters.RenderAll` | app/src/main/java/com/brownstarlab/noteroom/PdfBitmapConverter.kt:29-53 | `(0 until pageCount).map` yields one bitmap per page, bitmap i rendered from page i |
| `PdfBitmapConverters.Rasterize` | app/src/main/java/com/brownstarlab/noteroom/PdfBitmapConverter.kt:22-56 | `convertPdf2Bitmaps` throws exactly when the kept renderer is already closed or opening the uri throws; a null descriptor gives no bitmaps; a document gives exactly pageCount bitmaps, each with its page's width, height and content |
| `PdfBitmapConverters.SlotAfter` | app/src/main/java/com/brownstarlab/noteroom/PdfBitmapConverter.kt:24-28 | afterwards the converter keeps a live renderer exactly when a document was opened past the close, and no renderer only when it had none and opened none |
| `PdfBitmapConverters.ClosedRendererIsKept` | app/src/main/java/com/brownstarlab/noteroom/PdfBitmapConverter.kt:24-28 | after a document and then a null descriptor, the converter keeps a closed renderer, and every later conversion throws and keeps it |
| `PdfBitmapConverters.PdfBitmapConverter.constructor` | app/src/main/java/com/brownstarlab/noteroom/PdfBitmapConverter.kt:20 | a new converter holds no renderer and has opened none |
| `PdfBitmapConverters.PdfBitmapConverter.AtMostOneLiveSession` | app/src/main/java/com/brownstarlab/noteroom/PdfBitmapConverter.kt:24-28 | every open renderer this converter has opened is the stored one |
| `PdfBitmapConverters.PdfBitmapConverter.ConvertPdf2Bitmaps` | app/src/main/java/com/brownstarlab/noteroom/PdfBitmapConverter.kt:22-56 | as written: returns or throws as `Rasterize` says for the renderer it kept, and keeps the renderer `SlotAfter` says; the previous renderer ends closed; a fresh open renderer over the document's pages is stored exactly when one was opened; at most one session stays open |
| `PdfBitmapConverters.PdfBitmapConverter.ConvertPdf2BitmapsCorrected` | app/src/main/java/com/brownstarlab/noteroom/PdfBitmapConverter.kt:22-56 | with the stored renderer cleared after the close: throws only when opening the uri throws, returns what a first conversion returns, and never keeps a closed renderer |
| `PdfBitmapConverters.PdfBitmapConverter.ConvertBitmaps2Pdf` | app/src/main/java/com/brownstarlab/noteroom/PdfBitmapConverter.kt:58-91 | as written: writes iff every page size is accepted and the destination is writable; pages are the padded bitmaps drawn at (marginStart, marginEnd) |
| `PdfBitmapConverters.PdfBitmapConverter.ConvertBitmaps2PdfCorrected` | app/src/main/java/com/brownstarlab/noteroom/PdfBitmapConverter.kt:58-91 | with the draw offset corrected to (marginStart, marginTop): one page per bitmap, page i sized by the four margins with bitmap i at (marginStart, marginTop) |
| `PdfBitmapConverters.EndMarginOffsetExample` | app/src/main/java/com/brownstarlab/noteroom/PdfBitmapConverter.kt:77-82 | with only a top margin of 10 the as-written offset draws the bitmap at y = 0, so the blank band of 10 lies below the bitmap instead of above it |
| `PdfStates.PdfState.WithMargin` | app/src/main/java/com/brownstarlab/noteroom/presentation/pdf/PdfViewModel.kt:118-133 | `copy(marginX = v)` sets that edge's margin and leaves the other three margins and every other field unchanged |
| `PdfStates.InitialState` | app/src/main/java/com/brownstarlab/noteroom/presentation/pdf/PdfState.kt:6-17 | the fresh state has no uri, no old name, no bitmaps, is not busy, has no error or result, no margins and no name, and satisfies the state invariant |
| `PdfReducer.SetMargin` | app/src/main/java/com/brownstarlab/noteroom/presentation/pdf/PdfViewModel.kt:116-134 | a margin setter changes nothing iff the edge already holds the value; otherwise that edge holds it and no other field changes |
| `PdfReducer.SetName` | app/src/main/java/com/brownstarlab/noteroom/presentation/pdf/PdfViewModel.kt:136-139 | `setName` changes nothing iff the name is equal; otherwise only `name` changes |
| `PdfReducer.ClearUri` | app/src/main/java/com/brownstarlab/noteroom/presentation/pdf/PdfViewModel.kt:141-146 | `clearUri` nulls `uri` and `oldName` and keeps every other field |
| `PdfReducer.ClearName` | app/src/main/java/com/brownstarlab/noteroom/presentation/pdf/PdfViewModel.kt:148-150 | `clearName` nulls `name` and keeps every other field |
| `PdfReducer.SetUri` | app/src/main/java/com/brownstarlab/noteroom/presentation/pdf/PdfViewModel.kt:97-114 | the current uri changes nothing; for a new one the converter's renderer moves as `SlotAfter` says; when the converter throws, only the busy flag is set; otherwise the uri, the derived name as both `oldName` and `name`, and the rasterised bitmaps are stored, the state ends not busy, and margins and the convert flags are kept |
| `PdfReducer.StartConvert` | app/src/main/java/com/brownstarlab/noteroom/presentation/pdf/PdfViewModel.kt:45-49 | starting `convert` sets busy, clears the error and the result uri, and changes nothing else |
| `PdfReducer.ConvertOutput` | app/src/main/java/com/brownstarlab/noteroom/presentation/pdf/PdfViewModel.kt:50-86 | a file is produced exactly when every padded page size (margins 0 when missing) is accepted and the destination can be written; one page per bitmap, named after the name with ".pdf" when one is set |
| `PdfReducer.Convert` | app/src/main/java/com/brownstarlab/noteroom/presentation/pdf/PdfViewModel.kt:39-95 | after `convert` the state is not busy and exactly one of success (result uri set to the provider uri, no error) or failure (error, no result uri) holds; success iff the file could be produced; no other field changes |
| `PdfReducer.Step` | app/src/main/java/com/brownstarlab/noteroom/presentation/pdf/PdfViewModel.kt:25-37 | `emit`: only `SetUri` touches the converter's renderer or the bitmaps, and from a state that is not busy an event leaves the state busy exactly when it is a `setUri` whose converter throws |
| `PdfReducer.StepPreservesInv` | app/src/main/java/com/brownstarlab/noteroom/presentation/pdf/PdfViewModel.kt:25-37 | every event keeps the invariant, also when it stops at an exception: uri and old name set together, never an error beside a result |
| `PdfReducer.RunPreservesInv` | app/src/main/java/com/brownstarlab/noteroom/presentation/pdf/PdfViewModel.kt:25-37 | every sequence of events keeps the invariant |
| `PdfReducer.SetUriIdempotent` | app/src/main/java/com/brownstarlab/noteroom/presentation/pdf/PdfViewModel.kt:98 | after a finished selection, selecting the same uri again changes nothing, whatever the platform answers; a selection that threw stored no uri, so selecting it again runs again |
| `PdfReducer.SettersIdempotent` | app/src/main/java/com/brownstarlab/noteroom/presentation/pdf/PdfViewModel.kt:116-150 | repeating any margin, name or clear event changes nothing more |
| `PdfReducer.ConvertRepeatable` | app/src/main/java/com/brownstarlab/noteroom/presentation/pdf/PdfViewModel.kt:39-95 | converting again after a finished conversion reaches the same state |
| `PdfReducer.IndependentSettersCommute` | app/src/main/java/com/brownstarlab/noteroom/presentation/pdf/PdfViewModel.kt:116-139 | setters of different margins, or of a margin and the name, commute |
| `PdfReducer.ClearUriKeepsBitmaps` | app/src/main/java/com/brownstarlab/noteroom/presentation/pdf/PdfViewModel.kt:141-146 | after selecting a one-page document and clearing the uri, the state has no uri but still one bitmap |
| `PdfReducer.UnreadableSourceIsStored` | app/src/main/java/com/brownstarlab/noteroom/presentation/pdf/PdfViewModel.kt:105-112 | a new uri with a null descriptor is still stored, with no bitmaps, and the renderer kept before is left closed |
| `PdfReducer.ClosedRendererScenario` | app/src/main/java/com/brownstarlab/noteroom/PdfBitmapConverter.kt:24 | reading a document, then a uri with a null descriptor, then any new uri: the third selection throws while closing the closed renderer, and the view-model stays busy with the second uri |
| `PdfReducer.ConvertOutputGeometry` | app/src/main/java/com/brownstarlab/noteroom/presentation/pdf/PdfViewModel.kt:53-78 | the written file is named (name ?: "에러") + ".pdf"; page i shows bitmap i at (marginStart ?: 0, marginTop ?: 0) and, without overflow, measures the exact sums of the margins (0 when missing) and the bitmap's size |
| `PdfReducer.EmptyConversion` | app/src/main/java/com/brownstarlab/noteroom/presentation/pdf/PdfViewModel.kt:50-86 | with no bitmaps and a writable destination, `convert` succeeds with an empty document |
| `PdfViewModels.PdfViewModel.constructor` | app/src/main/java/com/brownstarlab/noteroom/presentation/pdf/PdfViewModel.kt:20-23 | a new view-model publishes the default state and owns a fresh converter with no renderer |
| `PdfViewModels.PdfViewModel.Emit` | app/src/main/java/com/brownstarlab/noteroom/presentation/pdf/PdfViewModel.kt:25-37 | every event leaves exactly the state and renderer the transition function prescribes, including a `setUri` that stops at an exception, and keeps the invariant and the converter's session discipline |
| `PdfViewModels.PdfViewModel.Convert` | app/src/main/java/com/brownstarlab/noteroom/presentation/pdf/PdfViewModel.kt:39-95 | `convert` builds the document page by page, returns the written file, and leaves the state `PdfReducer.Convert` prescribes |
| `PdfViewModels.PdfViewModel.SetUri` | app/src/main/java/com/brownstarlab/noteroom/presentation/pdf/PdfViewModel.kt:97-114 | `setUri` leaves the state and renderer `PdfReducer.SetUri` prescribes, busy when the converter throws; for the current uri the converter is untouched |
| `PdfViewModels.PdfViewModel.SetMarginTop` | app/src/main/java/com/brownstarlab/noteroom/presentation/pdf/PdfViewModel.kt:116-119 | `setMarginTop` leaves the state the guarded top-margin setter prescribes |
| `PdfViewModels.PdfViewModel.SetMarginBottom` | app/src/main/java/com/brownstarlab/noteroom/presentation/pdf/PdfViewModel.kt:121-124 | `setMarginBottom` leaves the state the guarded bottom-margin setter prescribes |
| `PdfViewModels.PdfViewModel.SetMarginLeft` | app/src/main/java/com/brownstarlab/noteroom/presentation/pdf/PdfViewModel.kt:126-129 | `setMarginLeft` leaves the state the guarded start-margin setter prescribes |
| `PdfViewModels.PdfViewModel.SetMarginRight` | app/src/main/java/com/brownstarlab/noteroom/presentation/pdf/PdfViewModel.kt:131-134 | `setMarginRight` leaves the state the guarded end-margin setter prescribes |
| `PdfViewModels.PdfViewModel.SetName` | app/src/main/java/com/brownstarlab/noteroom/presentation/pdf/PdfViewModel.kt:136-139 | `setName` leaves the state the guarded name setter prescribes |
| `PdfViewModels.PdfViewModel.ClearUri` | app/src/main/java/com/brownstarlab/noteroom/presentation/pdf/PdfViewModel.kt:141-146 | `clearUri` leaves the state the partial reset prescribes |
| `PdfViewModels.PdfViewModel.ClearName` | app/src/main/java/com/brownstarlab/noteroom/presentation/pdf/PdfViewModel.kt:148-150 | `clearName` leaves the state the partial reset prescribes |
| `PdfEditScreen.MarginFieldText` | app/src/main/java/com/brownstarlab/noteroom/presentation/pdf/PdfEditScreen.kt:139 | a field shows "" exactly when no margin is stored |
| `PdfEditScreen.ParseMargin` | app/src/main/java/com/brownstarlab/noteroom/presentation/pdf/PdfEditScreen.kt:140 | `toIntOrNull() ?: 0` gives the value of digits, of '+' and digits, and the negated value of '-' and digits whenever that is an `Int`; 0 for any other text and for numbers out of `Int` range |
| `PdfEditScreen.MarginEventStores` | app/src/main/java/com/brownstarlab/noteroom/presentation/pdf/PdfEditScreen.kt:140-191 | the event a field emits (`MarginEvent`, the setter of its own edge) stores the parsed text on its edge, leaves the other edges, and does not touch the renderer |
| `PdfEditScreen.MarginFieldRoundTrip` | app/src/main/java/com/brownstarlab/noteroom/presentation/pdf/PdfEditScreen.kt:139-140 | a margin field reads back the margin it shows, and an empty field reads as 0 |
| `PdfEditScreen.MarginFieldEcho` | app/src/main/java/com/brownstarlab/noteroom/presentation/pdf/PdfEditScreen.kt:138-191 | typing the spelling of any `Int`, negative ones included, into a field stores it on that field's edge only, and the field then shows what was typed |
| `PdfEditScreen.NonCanonicalTextIsRespelled` | app/src/main/java/com/brownstarlab/noteroom/presentation/pdf/PdfEditScreen.kt:139-140 | "007" and "+7" are stored as 7, so the field then shows "7" |
| `PdfEditScreen.OverflowShowsZero` | app/src/main/java/com/brownstarlab/noteroom/presentation/pdf/PdfEditScreen.kt:139-140 | a number too large for an `Int`, bare or after '+' (above 2147483647) or after '-' (above 2147483648), stores 0, so the field shows "0" |
| `PdfEditScreen.ClearedFieldShowsZero` | app/src/main/java/com/brownstarlab/noteroom/presentation/pdf/PdfEditScreen.kt:139-140 | erasing a field, or ending its text with a non-digit, stores 0, so the field shows "0" |
| `PdfEditScreen.CanProcessAfterEvents` | app/src/main/java/com/brownstarlab/noteroom/presentation/pdf/PdfEditScreen.kt:69 | `canProcess` (the output name is not null) holds after any `SetName`, the empty name included, and after a new uri whose conversion finishes; it fails after `ClearName` and in the fresh state |
| `PdfEditScreen.AddMarginToPdf2` | app/src/main/java/com/brownstarlab/noteroom/presentation/pdf/PdfEditScreen.kt:235-294 | shares a file iff every page size is accepted and the file can be written; it is named exportFileName + ".pdf" and page i is bitmap i padded by the margins, drawn at (marginStart, marginTop) |
| `PdfEditScreen.DoProcess` | app/src/main/java/com/brownstarlab/noteroom/presentation/pdf/PdfEditScreen.kt:70-82 | with missing margins as 0 and a missing name as "", the screen's composer produces a file exactly when the view-model's `convert` does, with the same pages, and the same file whenever a name is set |
| `PdfEditScreen.OnDone` | app/src/main/java/com/brownstarlab/noteroom/presentation/pdf/PdfEditScreen.kt:205-211 | the Done key does nothing without a name and otherwise writes exactly the file `convert` would |
| `PdfScreen.DigitsPlus` | app/src/main/java/com/brownstarlab/noteroom/PdfScreen.kt:44 | `^\d+$` matches exactly the non-empty strings of characters in the platform's `\d` class |
| `PdfScreen.NumberFilter` | app/src/main/java/com/brownstarlab/noteroom/PdfScreen.kt:43-45 | `numberFilter` accepts exactly "" and the strings of `\d` characters |
| `PdfScreen.NumberFilterIsIsNumber` | app/src/main/java/com/brownstarlab/noteroom/PdfScreen.kt:43-45 | everything `isNumber` accepts passes `numberFilter` whatever `\d` holds beyond the ASCII digits; with `\d` read as the ASCII digits the two accept the same strings |
| `PdfScreen.NonAsciiDigitPartsChecks` | app/src/main/java/com/brownstarlab/noteroom/Utils.kt:55-57 | where `\d` takes U+0663, as Android's ICU engine does, that one-character text passes `numberFilter` (PdfScreen.kt:44) and fails `isNumber` |
| `PdfScreen.Accept` | app/src/main/java/com/brownstarlab/noteroom/PdfScreen.kt:64 | a field takes the proposed text when it passes the filter and keeps its text otherwise, so a filtered field stays filtered |
| `PdfScreen.MarginFields.constructor` | app/src/main/java/com/brownstarlab/noteroom/PdfScreen.kt:37-40 | all four fields start as "", which satisfies the filter |
| `PdfScreen.MarginFields.OnTopChange` | app/src/main/java/com/brownstarlab/noteroom/PdfScreen.kt:64 | the top field is updated only with filtered text; the other fields are unchanged and all stay filtered |
| `PdfScreen.MarginFields.OnLeftChange` | app/src/main/java/com/brownstarlab/noteroom/PdfScreen.kt:80 | the left field is updated only with filtered text; the other fields are unchanged and all stay filtered |
| `PdfScreen.MarginFields.OnRightChange` | app/src/main/java/com/brownstarlab/noteroom/PdfScreen.kt:92 | the right field is updated only with filtered text; the other fields are unchanged and all stay filtered |
| `PdfScreen.MarginFields.OnBottomChange` | app/src/main/java/com/brownstarlab/noteroom/PdfScreen.kt:105 | the bottom field is updated only with filtered text; the other fields are unchanged and all stay filtered |
| `PdfScreen.MarginFields.AddMarginsEnabled` | app/src/main/java/com/brownstarlab/noteroom/PdfScreen.kt:136-137 | with the field invariant, the button is enabled exactly when a uri is given and all four fields hold non-empty digit strings; it is never enabled without a uri |

## Left out

- Concurrency is not modelled: the per-page `async`/`awaitAll`, `viewModelScope.launch`, the `Dispatchers` switches, the race between concurrent `startPage` calls on one document, and overlapping uncancelled `setUri` coroutines. Each operation is one atomic step.
- PdfViewModels.PdfViewModel.SetUri: what the platform does with an exception that escapes the `setUri` coroutine (by default it ends the app) is not modelled. The model stops the handler at the throw and continues from the busy state it had already published.
- PdfViewModels.PdfViewModel.Convert: the intermediate busy state is likewise not observable, and the `onError` callback is left out because it defaults to a no-op.
- The `minimumWait` delay in `convert` is not modelled: it goes into a copy of the list that is never awaited, and it has no effect on state.
- Floating point is left out: the `toFloat()` draw offsets are kept as the `Int` values they come from. The older screen's `toFloatOrNull` margins and its PDFBox `addMarginsToPdf` (`PDRectangle`/`AffineTransform` arithmetic) are not modelled.
- Pixel content is left out. Rendering is an opaque function of the page that keeps its size; the white fill and the render mode are not modelled.
- The PDF file format itself is handled by the platform and is not modelled: pages are size and drawing records.
- Compose UI, navigation, intents, toasts, `Activity.finish` and the `FileProvider` internals are not modelled. The provider uri comes with the `Context`.
- Utils.GetFileName: the content-resolver query is I/O and is not modelled. Its outcome is a parameter: a display name, or null when the query returns no cursor. A cursor with no row, a null display name, or a uri without a path when there is no cursor (`path!!`, Utils.kt:67) throws in the source; the model does not cover those cases.
- KotlinText.ToIntOrNull: only ASCII digits are modelled. Kotlin also accepts other Unicode decimal digits.
- PdfBitmapConverters.PdfBitmapConverter.ConvertPdf2Bitmaps: a failure while rendering a page is not modelled; every page of an opened document renders. The throws it does model are closing an already closed renderer and opening the uri (no such file, no permission, not a PDF).
- A partly written output file is not modelled: writing either succeeds or fails as a whole.
- PdfBitmapConverters.PdfBitmapConverter.ConvertBitmaps2Pdf: the exceptions this method lets escape become a null result.
- PdfEditScreen.AddMarginToPdf2: a page size the builder rejects, or a failed concurrent `startPage`, throws inside the `async` children (PdfEditScreen.kt:248-262). That cancels the enclosing `withContext`, so the error message in the `catch` (lines 287-291) is not shown and the exception escapes the `scope.launch` of `doProcess` (line 71) uncaught. The model returns null for it, as for a write failure, which the `catch` does report.

## Findings

| source | as written | input that shows it | evidently intended | confidence | as-written member | corrected member |
|---|---|---|---|---|---|---|
| app/src/main/java/com/brownstarlab/noteroom/PdfBitmapConverter.kt:77-82 | the bitmap is drawn at y = `marginEnd`, the right margin | a 100 x 100 bitmap with top margin 10 and the others 0: the page is 110 high, the bitmap is drawn at y = 0, and the blank band of 10 lies below it | y = `marginTop`, as in `PdfViewModel.convert` (PdfViewModel.kt:63-64) and `addMarginToPdf2` (PdfEditScreen.kt:257-258) | high; not executed | `PdfBitmapConverters.PdfBitmapConverter.ConvertBitmaps2Pdf`, `PdfBitmapConverters.EndMarginOffsetExample` | `PdfBitmapConverters.PdfBitmapConverter.ConvertBitmaps2PdfCorrected` |
| app/src/main/java/com/brownstarlab/noteroom/PdfBitmapConverter.kt:24-28 | `pdfRenderer?.close()` closes the stored renderer but does not clear the field, and only an opened document replaces it; after a uri with a null descriptor the closed renderer stays stored, and the next call closes it again, which throws `IllegalStateException` | select a readable PDF, then a uri whose provider gives a null descriptor, then any other uri: the third `setUri` throws out of its coroutine and the state stays `isConverting = true` with the second uri | set `pdfRenderer = null` after closing it, so that a later call never closes a renderer twice | medium; not executed | `PdfBitmapConverters.PdfBitmapConverter.ConvertPdf2Bitmaps`, `PdfBitmapConverters.ClosedRendererIsKept`, `PdfReducer.ClosedRendererScenario` | `PdfBitmapConverters.PdfBitmapConverter.ConvertPdf2BitmapsCorrected` |
