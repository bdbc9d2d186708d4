/** `PdfState`: the one immutable record the view-model publishes, in the
    view-model's vocabulary (marginStart/marginEnd, isError, resultUri). */
module PdfStates {
  import opened Kotlin
  import opened Android
  import opened MarginLayout

  /** The four page edges a margin belongs to. */
  datatype Edge = Top | Bottom | Start | End

  datatype PdfState = PdfState(
    uri: Nullable<Uri>,
    oldName: Nullable<string>,
    bitmaps: seq<Bitmap>,
    isConverting: bool,
    isError: bool,
    resultUri: Nullable<Uri>,
    marginTop: Nullable<Int32>,
    marginBottom: Nullable<Int32>,
    marginStart: Nullable<Int32>,
    marginEnd: Nullable<Int32>,
    name: Nullable<string>)
  {
    /** The margin stored for an edge; Null means "not entered". */
    function Margin(edge: Edge): Nullable<Int32>
    {
      match edge
      case Top => marginTop
      case Bottom => marginBottom
      case Start => marginStart
      case End => marginEnd
    }

    /** `copy(marginX = value)` for the edge's field. */
    function WithMargin(edge: Edge, value: Nullable<Int32>): (s: PdfState)
      ensures s.Margin(edge) == value
      ensures forall other :: other != edge ==> s.Margin(other) == Margin(other)
      ensures s.(marginTop := marginTop, marginBottom := marginBottom,
                 marginStart := marginStart, marginEnd := marginEnd) == this
    {
      match edge
      case Top => this.(marginTop := value)
      case Bottom => this.(marginBottom := value)
      case Start => this.(marginStart := value)
      case End => this.(marginEnd := value)
    }

    /** The margins a composer uses: each `?: 0`. */
    function EffectiveMargins(): Margins
    {
      Margins(marginTop.OrElse(0), marginBottom.OrElse(0), marginStart.OrElse(0), marginEnd.OrElse(0))
    }
  }

  /** `PdfState()`: every field at its declared default. */
  const Initial: PdfState :=
    PdfState(Null, Null, [], false, false, Null, Null, Null, Null, Null, Null)

  /** What holds of every state the view-model publishes, including the
      busy states in the middle of `setUri` and `convert`: a source and its
      name are set and cleared together, and a result uri never stands
      beside an error. */
  ghost predicate Inv(s: PdfState)
  {
    && (s.uri.Null? <==> s.oldName.Null?)
    && !(s.isError && s.resultUri.NonNull?)
  }

  /** The fresh state: no source, no pages, nothing entered, not busy. */
  lemma InitialState()
    ensures Inv(Initial)
    ensures Initial.uri == Null && Initial.oldName == Null && Initial.bitmaps == []
    ensures !Initial.isConverting && !Initial.isError && Initial.resultUri == Null
    ensures forall edge :: Initial.Margin(edge) == Null
    ensures Initial.name == Null
    ensures Initial.EffectiveMargins() == Margins(0, 0, 0, 0)
  {
  }
}
