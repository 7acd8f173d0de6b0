/**
 * The form state of the generator page (src/pages/Index.tsx): the `QRData` record the
 * user fills in, the `QROptions` rendering settings, their initial values, the list of
 * selectable QR types and the type-selection update.
 *
 * Fields of the optional sub-records are `Option<string>`: the update helpers can build a
 * sub-record holding only the field just edited, so the others are `undefined` at run time.
 */
module QRTypes {
  import opened Wrappers

  datatype WifiInfo = WifiInfo(ssid: Option<string>, password: Option<string>, security: Option<string>)

  datatype ContactInfo = ContactInfo(
    name: Option<string>, phone: Option<string>, email: Option<string>, organization: Option<string>)

  datatype EventInfo = EventInfo(
    title: Option<string>, start: Option<string>, end: Option<string>,
    location: Option<string>, description: Option<string>)

  /** The form record; `kind` is the source's `type` field (a reserved word in Dafny). */
  datatype QRData = QRData(
    kind: string, content: string,
    wifi: Option<WifiInfo>, contact: Option<ContactInfo>, event: Option<EventInfo>)

  datatype ErrorCorrectionLevel = L | M | Q | H

  /**
   * The pattern descriptor read from `qrOptions.patterns`; it is not declared in the
   * source's `QROptions`, so it is optional, and only `shapeStyle` is ever read.
   */
  datatype PatternOptions = PatternOptions(shapeStyle: Option<string>)

  datatype QROptions = QROptions(
    color: string, backgroundColor: string, width: int, margin: int,
    errorCorrectionLevel: ErrorCorrectionLevel, patterns: Option<PatternOptions>)

  /**
   * The option object handed to the external QR encoder (`width`, `margin`,
   * `color.dark`, `color.light`, `errorCorrectionLevel`; the last may be omitted,
   * in which case the encoder uses its own default).
   */
  datatype EncoderOptions = EncoderOptions(
    width: int, margin: int, dark: string, light: string,
    errorCorrectionLevel: Option<ErrorCorrectionLevel>)

  /** The encoder options every view builds from the user's settings. */
  function EncoderOptionsOf(o: QROptions): (e: EncoderOptions)
    ensures e.width == o.width && e.margin == o.margin
    ensures e.dark == o.color && e.light == o.backgroundColor
    ensures e.errorCorrectionLevel == Some(o.errorCorrectionLevel)
  {
    EncoderOptions(o.width, o.margin, o.color, o.backgroundColor, Some(o.errorCorrectionLevel))
  }

  /** A notification raised through the toast hook; `destructive` is the error variant. */
  datatype Toast = Toast(title: string, description: string, destructive: bool)

  /** The form's state when the page opens: a URL code with no content and no sub-records. */
  const InitialData: QRData := QRData("url", "", None, None, None)

  /** The initial rendering settings. */
  const InitialOptions: QROptions := QROptions("#000000", "#FFFFFF", 256, 2, M, None)

  /** The ids of the eight type buttons, in display order. */
  const QrTypeIds: seq<string> := ["url", "text", "wifi", "contact", "email", "phone", "location", "event"]

  /** The type buttons' ids are pairwise distinct. */
  lemma QrTypeIdsDistinct()
    ensures |QrTypeIds| == 8
    ensures forall i, j | 0 <= i < j < |QrTypeIds| :: QrTypeIds[i] != QrTypeIds[j]
  {
  }

  /** Clicking a type button: `{ ...qrData, type: id, content: "" }`. */
  function SelectType(d: QRData, id: string): QRData {
    d.(kind := id, content := "")
  }

  /** Selecting a type sets the type, clears the content and keeps every sub-record. */
  lemma SelectTypeEffect(d: QRData, id: string)
    ensures SelectType(d, id).kind == id && SelectType(d, id).content == ""
    ensures SelectType(d, id).wifi == d.wifi
    ensures SelectType(d, id).contact == d.contact
    ensures SelectType(d, id).event == d.event
  {
  }

  /** Selecting the type already selected, with no content, changes nothing. */
  lemma SelectTypeIdempotent(d: QRData, id: string)
    ensures SelectType(SelectType(d, id), id) == SelectType(d, id)
    ensures d.kind == id && d.content == "" ==> SelectType(d, id) == d
  {
  }
}
