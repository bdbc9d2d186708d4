/** `PdfEvent`: the closed set of events the view-model accepts, in the
    view-model's vocabulary (SetMarginStart/SetMarginEnd, Convert). The
    platform `Context` travels with the events that need it. */
module PdfEvents {
  import opened Kotlin
  import opened Android

  datatype PdfEvent =
    | SetUri(context: Context, uri: Uri)
    | SetMarginTop(margin: Int32)
    | SetMarginBottom(margin: Int32)
    | SetMarginStart(margin: Int32)
    | SetMarginEnd(margin: Int32)
    | SetName(name: string)
    | ClearUri
    | ClearName
    | Convert(context: Context)
}
