/** The view-model's transitions as pure functions of the published state
    and of the renderer its converter keeps: the specification `PdfViewModel`
    is proved against. Each asynchronous operation is taken as one atomic
    step, as observers see it once it has finished or has stopped at an
    exception. */
module PdfReducer {
  import opened Kotlin
  import opened Android
  import opened MarginLayout
  import opened PdfStates
  import opened PdfEvents
  import Utils
  import opened PdfBitmapConverters

  /** What the view-model holds between events: the published state and
      the renderer its converter keeps. */
  datatype Machine = Machine(state: PdfState, renderer: RendererSlot)

  /** A new view-model: the fresh state, and a converter with no renderer. */
  const InitialMachine: Machine := Machine(Initial, NoRenderer)

  /** The Korean word for "error", used as the file name when no name is set. */
  const ErrorName: string := "\U{C5D0}\U{B7EC}"

  /** `setMarginTop` and its siblings: nothing happens when the edge already
      holds the value; otherwise that one margin is replaced. */
  function SetMargin(s: PdfState, edge: Edge, margin: Int32): (r: PdfState)
    ensures r == s <==> s.Margin(edge) == NonNull(margin)
    ensures r.Margin(edge) == NonNull(margin)
    ensures r.WithMargin(edge, s.Margin(edge)) == s
  {
    if s.Margin(edge) == NonNull(margin) then s else s.WithMargin(edge, NonNull(margin))
  }

  /** `setName`: nothing happens on an equal name; otherwise only the name changes. */
  function SetName(s: PdfState, name: string): (r: PdfState)
    ensures r == s <==> s.name == NonNull(name)
    ensures r.name == NonNull(name)
    ensures r.(name := s.name) == s
  {
    if s.name == NonNull(name) then s else s.(name := NonNull(name))
  }

  /** `clearUri`: forgets the source and its name, and nothing else. */
  function ClearUri(s: PdfState): (r: PdfState)
    ensures r.uri == Null && r.oldName == Null
    ensures r.(uri := s.uri, oldName := s.oldName) == s
  {
    s.(uri := Null, oldName := Null)
  }

  /** `clearName`: forgets the output name, and nothing else. */
  function ClearName(s: PdfState): (r: PdfState)
    ensures r.name == Null
    ensures r.(name := s.name) == s
  {
    s.(name := Null)
  }

  /** Whether an event stops at an exception: a `setUri` for a new uri whose
      rasterisation throws. The exception leaves the coroutine after the
      busy flag was published, and nothing catches it. */
  predicate Aborts(m: Machine, event: PdfEvent)
  {
    event.SetUri? && m.state.uri != NonNull(event.uri)
    && Rasterize(m.renderer, event.context.opening).Throws?
  }

  /** `setUri`: nothing for the current uri. Otherwise the state is marked
      busy and the converter runs; when it returns, the source, its derived
      name (which also replaces the output name) and its bitmaps are stored
      and the busy flag is cleared, keeping margins and the compose flags;
      when it throws, the busy state is what stays published. */
  function SetUri(m: Machine, context: Context, uri: Uri): (r: Machine)
    ensures m.state.uri == NonNull(uri) ==> r == m
    ensures m.state.uri != NonNull(uri) ==> r.renderer == SlotAfter(m.renderer, context.opening)
    ensures Aborts(m, PdfEvents.SetUri(context, uri)) ==> r.state == m.state.(isConverting := true)
    ensures m.state.uri != NonNull(uri) && !Aborts(m, PdfEvents.SetUri(context, uri)) ==>
      var s := m.state;
      && r.state.uri == NonNull(uri)
      && r.state.oldName == NonNull(Utils.GetFileName(context))
      && r.state.name == r.state.oldName
      && r.state.bitmaps == Rasterize(m.renderer, context.opening).value
      && !r.state.isConverting
      && r.state.(uri := s.uri, oldName := s.oldName, name := s.name, bitmaps := s.bitmaps,
                  isConverting := s.isConverting) == s
  {
    if m.state.uri == NonNull(uri) then m
    else
      var newOldName := Utils.GetFileName(context);
      var converting := m.state.(isConverting := true);
      var renderer := SlotAfter(m.renderer, context.opening);
      match Rasterize(m.renderer, context.opening)
      case Throws => Machine(converting, renderer)
      case Returns(bitmaps) =>
        Machine(converting.(uri := NonNull(uri), oldName := NonNull(newOldName), name := NonNull(newOldName),
                            bitmaps := bitmaps, isConverting := false),
                renderer)
  }

  /** The first update of `convert`: busy, no error, no result. */
  function StartConvert(s: PdfState): (r: PdfState)
    ensures r.isConverting && !r.isError && r.resultUri == Null
    ensures r.(isConverting := s.isConverting, isError := s.isError, resultUri := s.resultUri) == s
  {
    s.(isConverting := true, isError := false, resultUri := Null)
  }

  /** The file `convert` writes: named after the output name (or "에러" when
      there is none) with ".pdf", one page per bitmap sized with the margins
      taken as 0 when not entered, the bitmap drawn at (start, top). Null
      when a page size is rejected or the file cannot be written. */
  function ConvertOutput(s: PdfState, context: Context): (r: Nullable<PdfFile>)
    ensures !context.writable ==> r.Null?
    ensures s.bitmaps == [] ==> (r.NonNull? <==> context.writable)
    ensures var m := s.EffectiveMargins();
      r.NonNull? <==> AllFit(PaddedPages(s.bitmaps, m, m.start, m.top)) && context.writable
    ensures r.NonNull? ==> |r.value.pages| == |s.bitmaps|
    ensures r.NonNull? && s.name.NonNull? ==> r.value.name == s.name.value + ".pdf"
  {
    var margins := s.EffectiveMargins();
    var pages := PaddedPages(s.bitmaps, margins, margins.start, margins.top);
    if AllFit(pages) && context.writable
    then NonNull(PdfFile(s.name.OrElse(ErrorName) + ".pdf", pages))
    else Null
  }

  /** `convert`, as it looks once finished: never busy, and either a result
      uri without an error (success) or an error without a result uri
      (failure); nothing else changes. */
  function Convert(s: PdfState, context: Context): (r: PdfState)
    ensures !r.isConverting
    ensures (r.resultUri.NonNull? && !r.isError) || (r.isError && r.resultUri.Null?)
    ensures r.resultUri.NonNull? <==> ConvertOutput(s, context).NonNull?
    ensures r.resultUri.NonNull? ==> r.resultUri.value == context.providerUri
    ensures r.(isConverting := s.isConverting, isError := s.isError, resultUri := s.resultUri) == s
  {
    var started := StartConvert(s);
    if ConvertOutput(started, context).NonNull?
    then started.(isConverting := false, resultUri := NonNull(context.providerUri))
    else started.(isConverting := false, isError := true)
  }

  /** `emit`: the dispatch over the sealed event set. Only a new source
      touches the converter's renderer or the bitmaps, and from a settled
      state the only way to stay busy is an event that stops at an
      exception. */
  function Step(m: Machine, event: PdfEvent): (r: Machine)
    ensures !event.SetUri? ==> r.renderer == m.renderer
    ensures r.state.bitmaps != m.state.bitmaps ==> event.SetUri?
    ensures !m.state.isConverting ==> (r.state.isConverting <==> Aborts(m, event))
  {
    match event
    case SetUri(context, uri) => SetUri(m, context, uri)
    case SetMarginTop(margin) => m.(state := SetMargin(m.state, Top, margin))
    case SetMarginBottom(margin) => m.(state := SetMargin(m.state, Bottom, margin))
    case SetMarginStart(margin) => m.(state := SetMargin(m.state, Start, margin))
    case SetMarginEnd(margin) => m.(state := SetMargin(m.state, End, margin))
    case SetName(name) => m.(state := SetName(m.state, name))
    case ClearUri => m.(state := ClearUri(m.state))
    case ClearName => m.(state := ClearName(m.state))
    case Convert(context) => m.(state := Convert(m.state, context))
  }

  /** What the view-model holds after a sequence of events, in order. */
  function Run(m: Machine, events: seq<PdfEvent>): Machine
    decreases |events|
  {
    if |events| == 0 then m else Run(Step(m, events[0]), events[1..])
  }

  /** Every event keeps the state invariant, also when it stops at an
      exception. */
  lemma StepPreservesInv(m: Machine, event: PdfEvent)
    requires Inv(m.state)
    ensures Inv(Step(m, event).state)
  {
  }

  /** Every state reached from the fresh state satisfies the invariant. */
  lemma {:induction false} RunPreservesInv(m: Machine, events: seq<PdfEvent>)
    requires Inv(m.state)
    ensures Inv(Run(m, events).state)
    decreases |events|
  {
    if |events| > 0 {
      StepPreservesInv(m, events[0]);
      RunPreservesInv(Step(m, events[0]), events[1..]);
    }
  }

  /** Selecting the same uri again does nothing once the first selection
      has finished: no second rasterisation, whatever the platform would now
      answer. A selection that stopped at an exception stored no uri, so
      selecting it again runs the converter again. */
  lemma SetUriIdempotent(m: Machine, first: Context, again: Context, uri: Uri)
    ensures !Aborts(m, PdfEvents.SetUri(first, uri)) ==>
      Step(Step(m, PdfEvents.SetUri(first, uri)), PdfEvents.SetUri(again, uri))
        == Step(m, PdfEvents.SetUri(first, uri))
    ensures Aborts(m, PdfEvents.SetUri(first, uri)) ==>
      Step(m, PdfEvents.SetUri(first, uri)).state.uri == m.state.uri
  {
  }

  /** Repeating a setter or a clear event changes nothing more. */
  lemma SettersIdempotent(m: Machine, event: PdfEvent)
    requires !event.SetUri? && !event.Convert?
    ensures Step(Step(m, event), event) == Step(m, event)
  {
  }

  /** Converting again from a finished state gives the same state: both end
      states are re-enterable and the outcome depends only on the pages,
      margins, name and platform. */
  lemma ConvertRepeatable(s: PdfState, context: Context)
    ensures Convert(Convert(s, context), context) == Convert(s, context)
  {
    var once := Convert(s, context);
    assert StartConvert(once).bitmaps == StartConvert(s).bitmaps;
    assert StartConvert(once).EffectiveMargins() == StartConvert(s).EffectiveMargins();
    assert ConvertOutput(StartConvert(once), context) == ConvertOutput(StartConvert(s), context);
  }

  /** Margins and the output name are independent fields: setting two
      different ones gives the same state in either order. */
  lemma IndependentSettersCommute(s: PdfState, edge: Edge, other: Edge, margin: Int32, value: Int32, name: string)
    requires edge != other
    ensures SetMargin(SetMargin(s, edge, margin), other, value) == SetMargin(SetMargin(s, other, value), edge, margin)
    ensures SetName(SetMargin(s, edge, margin), name) == SetMargin(SetName(s, name), edge, margin)
  {
  }

  /** Clearing the source keeps its pages: a state without a source can
      still hold bitmaps. */
  lemma ClearUriKeepsBitmaps(context: Context, uri: Uri, page: SourcePage)
    requires context.opening == Opened(SourceDocument([page]))
    ensures var m := Run(InitialMachine, [PdfEvents.SetUri(context, uri), PdfEvents.ClearUri]);
      m.state.uri == Null && |m.state.bitmaps| == 1
  {
    var m1 := Step(InitialMachine, PdfEvents.SetUri(context, uri));
    assert Run(InitialMachine, [PdfEvents.SetUri(context, uri), PdfEvents.ClearUri]) == Run(m1, [PdfEvents.ClearUri]);
    assert Run(m1, [PdfEvents.ClearUri]) == Run(Step(m1, PdfEvents.ClearUri), []);
  }

  /** A uri the provider gives no descriptor for is still stored, with no
      bitmaps; the renderer kept before is closed and not replaced. */
  lemma UnreadableSourceIsStored(m: Machine, context: Context, uri: Uri)
    requires context.opening.NoDescriptor? && m.renderer != ClosedRenderer && m.state.uri != NonNull(uri)
    ensures var r := Step(m, PdfEvents.SetUri(context, uri));
      && r.state.uri == NonNull(uri) && r.state.bitmaps == []
      && r.renderer == (if m.renderer == NoRenderer then NoRenderer else ClosedRenderer)
  {
  }

  /** Reading a document, then selecting a uri the provider gives no
      descriptor for, leaves the converter with a closed renderer: the next
      selection of a new uri throws while closing it again, and the view-model
      stays busy with the second uri, whatever the third one is. */
  lemma {:induction false} ClosedRendererScenario(a: Context, b: Context, c: Context, ua: Uri, ub: Uri, uc: Uri)
    requires a.opening.Opened? && b.opening.NoDescriptor? && ua != ub && ub != uc
    ensures var m := Run(InitialMachine, [PdfEvents.SetUri(a, ua), PdfEvents.SetUri(b, ub), PdfEvents.SetUri(c, uc)]);
      && m.state.isConverting
      && m.state.uri == NonNull(ub)
      && m.renderer == ClosedRenderer
  {
    var events := [PdfEvents.SetUri(a, ua), PdfEvents.SetUri(b, ub), PdfEvents.SetUri(c, uc)];
    var m1 := Step(InitialMachine, events[0]);
    assert m1.renderer == LiveRenderer && m1.state.uri == NonNull(ua);
    var m2 := Step(m1, events[1]);
    assert m2.renderer == ClosedRenderer && m2.state.uri == NonNull(ub) && !m2.state.isConverting;
    var m3 := Step(m2, events[2]);
    assert Aborts(m2, events[2]);
    assert m3.state.isConverting && m3.state.uri == NonNull(ub) && m3.renderer == ClosedRenderer;
    assert events[1..][1..][1..] == [];
    assert Run(InitialMachine, events) == Run(m1, events[1..]);
    assert Run(m1, events[1..]) == Run(m2, events[1..][1..]);
    assert Run(m2, events[1..][1..]) == Run(m3, events[1..][1..][1..]);
  }

  /** Page i of the converted file is bitmap i padded by the entered margins
      (0 when not entered) and drawn at (start, top); without overflow its
      size is the exact sum. The file is named after the output name, or
      "에러" when none is set, with ".pdf". */
  lemma ConvertOutputGeometry(s: PdfState, context: Context)
    requires ConvertOutput(s, context).NonNull?
    ensures var file := ConvertOutput(s, context).value;
      var m := s.EffectiveMargins();
      && file.name == s.name.OrElse(ErrorName) + ".pdf"
      && |file.pages| == |s.bitmaps|
      && forall i :: 0 <= i < |s.bitmaps| ==>
           && file.pages[i].drawings == [Drawing(s.bitmaps[i], m.start, m.top)]
           && (IntMin <= m.start + s.bitmaps[i].width + m.end <= IntMax ==>
                 file.pages[i].info.width == m.start + s.bitmaps[i].width + m.end)
           && (IntMin <= m.top + s.bitmaps[i].height + m.bottom <= IntMax ==>
                 file.pages[i].info.height == m.top + s.bitmaps[i].height + m.bottom)
  {
    var m := s.EffectiveMargins();
    forall i | 0 <= i < |s.bitmaps|
      ensures IntMin <= m.start + s.bitmaps[i].width + m.end <= IntMax ==>
                ConvertOutput(s, context).value.pages[i].info.width == m.start + s.bitmaps[i].width + m.end
      ensures IntMin <= m.top + s.bitmaps[i].height + m.bottom <= IntMax ==>
                ConvertOutput(s, context).value.pages[i].info.height == m.top + s.bitmaps[i].height + m.bottom
    {
      PlusPlus(m.start, s.bitmaps[i].width, m.end);
      PlusPlus(m.top, s.bitmaps[i].height, m.bottom);
    }
  }

  /** A conversion with no pages still succeeds when the file can be
      written: it yields an empty document. */
  lemma EmptyConversion(s: PdfState, context: Context)
    requires s.bitmaps == [] && context.writable
    ensures ConvertOutput(s, context).NonNull? && ConvertOutput(s, context).value.pages == []
    ensures Convert(s, context).resultUri == NonNull(context.providerUri)
  {
  }
}
