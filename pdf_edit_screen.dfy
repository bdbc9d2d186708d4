/** The logic of `PdfEditScreen`: the margin text fields (shown with
    `toString()`, read back with `toIntOrNull() ?: 0`), the `canProcess`
    guard, and the screen's own composer `addMarginToPdf2`. */
module PdfEditScreen {
  import opened Kotlin
  import opened KotlinText
  import opened Android
  import opened MarginLayout
  import opened PdfStates
  import opened PdfEvents
  import PdfReducer

  /** The text a margin field shows: the stored value, or "" when none. */
  function MarginFieldText(margin: Nullable<Int32>): (text: string)
    ensures text == "" <==> margin.Null?
  {
    match margin
    case Null => ""
    case NonNull(m) => IntToString(m)
  }

  /** What a margin field sends for the typed text: `toIntOrNull() ?: 0`.
      Digits with an optional '+' or '-' give their signed value when it is
      an `Int`; any other text, and a number out of `Int` range, becomes 0. */
  function ParseMargin(text: string): (m: Int32)
    ensures !(|Unsigned(text)| > 0 && AllDigits(Unsigned(text))) ==> m == 0
    ensures |text| > 0 && AllDigits(text) && DigitsValue(text) <= IntMax ==> m == DigitsValue(text)
    ensures |text| > 1 && text[0] == '+' && AllDigits(text[1..]) && DigitsValue(text[1..]) <= IntMax ==>
      m == DigitsValue(text[1..])
    ensures |text| > 1 && text[0] == '-' && AllDigits(text[1..]) && DigitsValue(text[1..]) <= IntMax + 1 ==>
      m == -(DigitsValue(text[1..]) as int)
    ensures (&& |Unsigned(text)| > 0 && AllDigits(Unsigned(text))
             && DigitsValue(Unsigned(text)) > IntMax + (if text[0] == '-' then 1 else 0)) ==> m == 0
  {
    ToIntOrNull(text).OrElse(0)
  }

  /** The event each margin field emits on a change. */
  function MarginEvent(edge: Edge, text: string): PdfEvent
  {
    match edge
    case Top => SetMarginTop(ParseMargin(text))
    case Bottom => SetMarginBottom(ParseMargin(text))
    case Start => SetMarginStart(ParseMargin(text))
    case End => SetMarginEnd(ParseMargin(text))
  }

  /** A margin field's event stores the parsed text on that field's edge
      and leaves the other three edges as they were. */
  lemma MarginEventStores(m: PdfReducer.Machine, edge: Edge, text: string)
    ensures var r := PdfReducer.Step(m, MarginEvent(edge, text));
      && r.state.Margin(edge) == NonNull(ParseMargin(text))
      && (forall other :: other != edge ==> r.state.Margin(other) == m.state.Margin(other))
      && r.renderer == m.renderer
  {
  }

  /** A field re-reads what it shows: an entered margin comes back unchanged,
      an empty field reads as 0. */
  lemma MarginFieldRoundTrip(margin: Nullable<Int32>)
    ensures ParseMargin(MarginFieldText(margin)) == margin.OrElse(0)
  {
    if margin.NonNull? {
      ParseShow(margin.value);
    }
  }

  /** Typing the canonical spelling of any `Int`, negative ones included,
      stores that value on the field's own edge and the field then shows
      exactly what was typed. */
  lemma MarginFieldEcho(m: PdfReducer.Machine, edge: Edge, i: Int32)
    ensures var r := PdfReducer.Step(m, MarginEvent(edge, IntToString(i))).state;
      && r.Margin(edge) == NonNull(i)
      && MarginFieldText(r.Margin(edge)) == IntToString(i)
      && forall other :: other != edge ==> r.Margin(other) == m.state.Margin(other)
  {
    ParseShow(i);
    MarginEventStores(m, edge, IntToString(i));
  }

  /** Other spellings of a number are stored by value and then shown in the
      canonical one: "007" and "+7" both make the field show "7". */
  lemma NonCanonicalTextIsRespelled()
    ensures ParseMargin("007") == 7 && MarginFieldText(NonNull(ParseMargin("007"))) == "7"
    ensures ParseMargin("+7") == 7
  {
    assert "007"[..2] == "00" && "00"[..1] == "0" && "0"[..0] == "";
    assert "+7"[1..] == "7" && "7"[..0] == "";
    assert IntToString(7) == NatToString(7) == [DigitChar(7)];
  }

  /** A number too large for an `Int`, as digits alone or after a sign,
      is dropped: the field stores 0 and shows "0". After '-' the bound is
      one higher, since -2147483648 is an `Int`. */
  lemma OverflowShowsZero(m: PdfReducer.Machine, edge: Edge, digits: string)
    requires |digits| > 0 && AllDigits(digits) && DigitsValue(digits) > IntMax
    ensures PdfReducer.Step(m, MarginEvent(edge, digits)).state.Margin(edge) == NonNull(0)
    ensures PdfReducer.Step(m, MarginEvent(edge, "+" + digits)).state.Margin(edge) == NonNull(0)
    ensures DigitsValue(digits) > IntMax + 1 ==>
      PdfReducer.Step(m, MarginEvent(edge, "-" + digits)).state.Margin(edge) == NonNull(0)
    ensures MarginFieldText(PdfReducer.Step(m, MarginEvent(edge, digits)).state.Margin(edge)) == "0"
  {
    assert ParseMargin(digits) == 0;
    assert ("+" + digits)[1..] == digits;
    assert ParseMargin("+" + digits) == 0;
    MarginEventStores(m, edge, digits);
    MarginEventStores(m, edge, "+" + digits);
    if DigitsValue(digits) > IntMax + 1 {
      assert ("-" + digits)[1..] == digits;
      assert ParseMargin("-" + digits) == 0;
      MarginEventStores(m, edge, "-" + digits);
    }
    assert IntToString(0) == NatToString(0) == [DigitChar(0)];
  }

  /** Erasing a field's text stores 0, so the field shows "0" rather than
      staying empty; text that is not a number does the same. */
  lemma ClearedFieldShowsZero(m: PdfReducer.Machine, edge: Edge, text: string)
    requires |text| == 0 || !IsDigit(text[|text| - 1])
    ensures PdfReducer.Step(m, MarginEvent(edge, text)).state.Margin(edge) == NonNull(0)
    ensures MarginFieldText(PdfReducer.Step(m, MarginEvent(edge, text)).state.Margin(edge)) == "0"
  {
    if |text| > 0 {
      assert !AllDigits(Unsigned(text)) || |Unsigned(text)| == 0 by {
        if |Unsigned(text)| > 0 {
          assert Unsigned(text)[|Unsigned(text)| - 1] == text[|text| - 1];
        }
      }
    }
    assert IntToString(0) == NatToString(0) == [DigitChar(0)];
  }

  /** `canProcess`: the output name is set; its content is not checked. */
  predicate CanProcess(state: PdfState)
  {
    state.name != Null
  }

  /** Which events enable processing: any `SetName`, even with "", and a
      new source whose conversion finishes (its stem becomes the name);
      `ClearName` disables it and the fresh state starts disabled. */
  lemma CanProcessAfterEvents(m: PdfReducer.Machine, name: string, context: Context, uri: Uri)
    ensures CanProcess(PdfReducer.Step(m, SetName(name)).state)
    ensures CanProcess(PdfReducer.Step(m, SetName("")).state)
    ensures !CanProcess(PdfReducer.Step(m, ClearName).state)
    ensures m.state.uri != NonNull(uri) && !PdfReducer.Aborts(m, SetUri(context, uri)) ==>
      CanProcess(PdfReducer.Step(m, SetUri(context, uri)).state)
    ensures !CanProcess(Initial)
  {
  }

  /** `addMarginToPdf2`: one page per bitmap, sized with the four margins,
      the bitmap drawn at (marginStart, marginTop), written to
      "<exportFileName>.pdf" and shared. Null when a page size is rejected
      or the file cannot be written: a write failure is caught and shown as
      an error message, while a rejected page size escapes the coroutine. */
  method AddMarginToPdf2(context: Context, exportFileName: string, originalBitmaps: seq<Bitmap>,
                         marginTop: Int32, marginBottom: Int32, marginStart: Int32, marginEnd: Int32)
    returns (shared: Nullable<PdfFile>)
    ensures shared.NonNull? <==> AllFit(PaddedPages(originalBitmaps, Margins(marginTop, marginBottom, marginStart, marginEnd), marginStart, marginTop)) && context.writable
    ensures shared.NonNull? ==> shared.value.name == exportFileName + ".pdf"
    ensures shared.NonNull? ==> shared.value.pages == PaddedPages(originalBitmaps, Margins(marginTop, marginBottom, marginStart, marginEnd), marginStart, marginTop)
  {
    var margins := Margins(marginTop, marginBottom, marginStart, marginEnd);
    var doc := new PdfDocument();
    var composed := AddPaddedPages(doc, originalBitmaps, margins, marginStart, marginTop);
    if !composed || !context.writable {
      return Null;
    }
    assert doc.pages == PaddedPages(originalBitmaps, margins, marginStart, marginTop);
    shared := NonNull(PdfFile(exportFileName + ".pdf", doc.pages));
  }

  /** `doProcess`: compose the state's bitmaps with each missing margin as 0
      and a missing name as "". It produces the same pages as the
      view-model's `convert`, and the same file whenever a name is set. */
  method DoProcess(state: PdfState, context: Context) returns (shared: Nullable<PdfFile>)
    ensures shared.NonNull? <==> PdfReducer.ConvertOutput(state, context).NonNull?
    ensures shared.NonNull? ==> shared.value.name == state.name.OrElse("") + ".pdf"
    ensures shared.NonNull? ==> shared.value.pages == PdfReducer.ConvertOutput(state, context).value.pages
    ensures state.name.NonNull? ==> shared == PdfReducer.ConvertOutput(state, context)
  {
    var m := state.EffectiveMargins();
    shared := AddMarginToPdf2(context, state.name.OrElse(""), state.bitmaps, m.top, m.bottom, m.start, m.end);
    assert m == Margins(m.top, m.bottom, m.start, m.end);
    if shared.NonNull? {
      assert shared.value.pages == PaddedPages(state.bitmaps, m, m.start, m.top);
    }
  }

  /** The keyboard's Done action: processes only when `canProcess`, and then
      writes exactly the file the view-model's `convert` would. */
  method OnDone(state: PdfState, context: Context) returns (shared: Nullable<PdfFile>)
    ensures !CanProcess(state) ==> shared == Null
    ensures CanProcess(state) ==> shared == PdfReducer.ConvertOutput(state, context)
  {
    shared := Null;
    if CanProcess(state) {
      shared := DoProcess(state, context);
    }
  }
}
