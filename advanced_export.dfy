/**
 * The export panel (src/components/AdvancedExport.tsx): its own copy of the payload
 * formatter, the PNG, SVG and PDF exporters with their file names and render options,
 * and `handleExport`, which runs the exporter of the chosen format under a busy flag
 * and reports the outcome in a toast.
 */
module AdvancedExport {
  import opened Wrappers
  import opened JsStrings
  import opened QRTypes
  import Preview = QRCodePreview

  /** The WiFi case of the copy, written out: the sample network unless an SSID is set. */
  function WifiCase(w: Option<WifiInfo>): string {
    if !(w.Some? && Truthy(w.value.ssid)) then "WIFI:T:WPA;S:SampleNetwork;P:password123;;"
    else
      "WIFI:T:" + OptOrElse(w.value.security, "WPA") + ";S:" + w.value.ssid.value +
      ";P:" + OptOrElse(w.value.password, "") + ";;"
  }

  /** The contact case of the copy, written out: the sample card unless a name is set. */
  function ContactCase(c: Option<ContactInfo>): string {
    if !(c.Some? && Truthy(c.value.name)) then "BEGIN:VCARD\nVERSION:3.0\nFN:Sample Contact\nEND:VCARD"
    else
      "BEGIN:VCARD" + "\n" + "VERSION:3.0" + "\n" + ("FN:" + c.value.name.value) +
      "\n" + ("TEL:" + OptOrElse(c.value.phone, "")) +
      "\n" + ("EMAIL:" + OptOrElse(c.value.email, "")) +
      "\n" + ("ORG:" + OptOrElse(c.value.organization, "")) + "\n" + "END:VCARD"
  }

  /**
   * The event case of the copy, written out with its `.replace` chains: the sample event
   * unless a title is set.
   */
  function EventCase(ev: Option<EventInfo>): string {
    if !(ev.Some? && Truthy(ev.value.title)) then "BEGIN:VEVENT\nSUMMARY:Sample Event\nEND:VEVENT"
    else
      var e := ev.value;
      var start := if e.start.Some? then Some(RemoveFirst(RemoveAll(e.start.value, {'-', ':'}), 'T')) else None;
      var end := if e.end.Some? then Some(RemoveFirst(RemoveAll(e.end.value, {'-', ':'}), 'T')) else None;
      "BEGIN:VEVENT" + "\n" + ("SUMMARY:" + e.title.value) +
      "\n" + ("DTSTART:" + OptOrElse(start, "")) +
      "\n" + ("DTEND:" + OptOrElse(end, "")) +
      "\n" + ("LOCATION:" + OptOrElse(e.location, "")) +
      "\n" + ("DESCRIPTION:" + OptOrElse(e.description, "")) + "\n" + "END:VEVENT"
  }

  /**
   * The panel's copy of `generateQRContent`, written out in full as the `switch` on the
   * type id it is in the source.
   */
  function GenerateQRContent(d: QRData): string {
    match d.kind
    case "url" => OrElse(d.content, "https://example.com")
    case "text" => OrElse(d.content, "Sample text")
    case "wifi" => WifiCase(d.wifi)
    case "contact" => ContactCase(d.contact)
    case "email" => "mailto:" + OrElse(d.content, "example@example.com")
    case "phone" => "tel:" + OrElse(d.content, "+1234567890")
    case "location" =>
      var coords := OrElse(d.content, "40.7128,-74.0060");
      if Includes(coords, ",") && !Includes(coords, " ") then "geo:" + coords
      else "geo:0,0?q=" + PercentEncode(coords)
    case "event" => EventCase(d.event)
    case _ => OrElse(d.content, "https://example.com")
  }

  /** The copy formats every record exactly as the preview does. */
  lemma FormatterAgrees(d: QRData)
    ensures GenerateQRContent(d) == Preview.GenerateQRContent(d)
  {
    var k := Preview.KindOf(d.kind);
    if k == Preview.Location {
      assert d.kind == "location";
      var coords := OrElse(d.content, Preview.DefaultCoords);
      assert Preview.GenerateQRContent(d) == Preview.LocationContent(coords);
    } else if k == Preview.Other {
      assert GenerateQRContent(d) == OrElse(d.content, "https://example.com");
      assert Preview.GenerateQRContent(d) == OrElse(d.content, Preview.DefaultUrl);
    } else if k == Preview.Url {
      assert d.kind == "url";
      assert GenerateQRContent(d) == OrElse(d.content, "https://example.com");
    } else if k == Preview.Text {
      assert d.kind == "text";
      assert GenerateQRContent(d) == OrElse(d.content, "Sample text");
    } else if k == Preview.Wifi {
      assert d.kind == "wifi";
      assert GenerateQRContent(d) == WifiCase(d.wifi);
      WifiAgrees(d.wifi);
    } else if k == Preview.Contact {
      assert d.kind == "contact";
      assert GenerateQRContent(d) == ContactCase(d.contact);
      ContactAgrees(d.contact);
    } else if k == Preview.Email {
      assert d.kind == "email";
      assert GenerateQRContent(d) == "mailto:" + OrElse(d.content, "example@example.com");
    } else if k == Preview.Phone {
      assert d.kind == "phone";
      assert GenerateQRContent(d) == "tel:" + OrElse(d.content, "+1234567890");
    } else {
      assert d.kind == "event";
      assert GenerateQRContent(d) == EventCase(d.event);
      EventAgrees(d.event);
    }
  }

  /** The copy's WiFi template and sample are the preview's. */
  lemma WifiAgrees(w: Option<WifiInfo>)
    ensures WifiCase(w) == Preview.WifiContent(w)
  {
  }

  /** The copy's vCard template and sample are the preview's. */
  lemma ContactAgrees(c: Option<ContactInfo>)
    ensures ContactCase(c) == Preview.VCardContent(c)
  {
  }

  /** The copy's event template, `.replace` chains and sample are the preview's. */
  lemma EventAgrees(ev: Option<EventInfo>)
    ensures EventCase(ev) == Preview.EventContent(ev)
  {
    if ev.Some? {
      Preview.DateTimeAgrees(ev.value.start);
      Preview.DateTimeAgrees(ev.value.end);
    }
  }

  datatype ExportFormat = Png | Svg | Pdf

  /** The format's id as the selector stores it (`'png' | 'svg' | 'pdf'`). */
  function FormatId(f: ExportFormat): string {
    match f
    case Png => "png"
    case Svg => "svg"
    case Pdf => "pdf"
  }

  /** The file name every exporter saves under: `qr-code-${type}-${Date.now()}.<format>`. */
  function ExportFileName(kind: string, f: ExportFormat, timestamp: nat): string {
    "qr-code-" + kind + "-" + NatToString(timestamp) + "." + FormatId(f)
  }

  /**
   * The extension of an export names its format, so exports in different formats never
   * share a name; the PNG export is named as the preview's download is.
   */
  lemma ExportFileNameFormat(kind: string, f: ExportFormat, g: ExportFormat, timestamp: nat)
    ensures var n := ExportFileName(kind, f, timestamp);
      |n| >= 4 && n[|n| - 4..] == "." + FormatId(f)
    ensures ExportFileName(kind, f, timestamp) == ExportFileName(kind, g, timestamp) ==> f == g
    ensures ExportFileName(kind, Png, timestamp) == Preview.DownloadFileName(kind, timestamp)
  {
    var x := "qr-code-" + kind + "-" + NatToString(timestamp);
    Extension(x, FormatId(f));
    Extension(x, FormatId(g));
    if ExportFileName(kind, f, timestamp) == ExportFileName(kind, g, timestamp) {
      FormatIdInjective(f, g);
    }
    PngExportName(kind, timestamp);
  }

  /** The PNG export's name is the preview's download name. */
  lemma PngExportName(kind: string, timestamp: nat)
    ensures ExportFileName(kind, Png, timestamp) == Preview.DownloadFileName(kind, timestamp)
  {
    var x := "qr-code-" + kind + "-" + NatToString(timestamp);
    assert FormatId(Png) == "png";
    assert ExportFileName(kind, Png, timestamp) == x + "." + "png";
    assert Preview.DownloadFileName(kind, timestamp) == x + ".png";
    assert x + "." + "png" == x + ("." + "png");
    assert "." + "png" == ".png";
  }

  /** A name ending in `.` and an extension of three letters ends with those four characters. */
  lemma Extension(x: string, ext: string)
    requires |ext| == 3
    ensures var n := x + "." + ext;
      |n| >= 4 && n[|n| - 4..] == "." + ext && n[|n| - 3..] == ext && n == x + ("." + ext)
  {
    var n := x + "." + ext;
    assert n[|n| - 4..] == "." + ext;
  }

  /** The ids of the three formats are different. */
  lemma FormatIdInjective(f: ExportFormat, g: ExportFormat)
    ensures FormatId(f) == FormatId(g) ==> f == g
  {
    assert FormatId(Png)[0] == 'p' && FormatId(Svg)[0] == 's' && FormatId(Pdf)[1] == 'd';
  }

  /** Exports at different instants get different names. */
  lemma ExportFileNameInjective(kind: string, f: ExportFormat, t1: nat, t2: nat)
    ensures ExportFileName(kind, f, t1) == ExportFileName(kind, f, t2) ==> t1 == t2
  {
    var n1 := ExportFileName(kind, f, t1);
    var n2 := ExportFileName(kind, f, t2);
    if n1 == n2 {
      var p := |"qr-code-" + kind + "-"|;
      assert n1[p..|n1| - 4] == NatToString(t1);
      assert n2[p..|n2| - 4] == NatToString(t2);
      NatToStringInjective(t1, t2);
    }
  }

  /** The encoder options of an export: the user's settings, but a fixed width of 400 for PDF. */
  function RenderOptions(f: ExportFormat, o: QROptions): (e: EncoderOptions)
    ensures e.margin == o.margin && e.dark == o.color && e.light == o.backgroundColor
    ensures e.errorCorrectionLevel == Some(o.errorCorrectionLevel)
    ensures e.width == if f == Pdf then 400 else o.width
  {
    if f == Pdf then EncoderOptionsOf(o).(width := 400) else EncoderOptionsOf(o)
  }

  /** PNG and SVG exports render exactly as the preview does; PDF differs at most in width. */
  lemma RenderOptionsAgree(f: ExportFormat, o: QROptions)
    ensures f != Pdf ==> RenderOptions(f, o) == EncoderOptionsOf(o)
    ensures RenderOptions(Pdf, o) == EncoderOptionsOf(o.(width := 400))
    ensures forall w: int :: RenderOptions(Pdf, o) == RenderOptions(Pdf, o.(width := w))
  {
  }

  /** The PDF caption: `QR Code - ${type.toUpperCase()}`. */
  function PdfCaption(kind: string): string {
    "QR Code - " + ToUpper(kind)
  }

  /**
   * The caption is the fixed prefix and then the type id with its ASCII letters
   * upper-cased, one character for one: lower-casing it gives back the lower-cased id.
   */
  lemma PdfCaptionShape(kind: string)
    ensures var c := PdfCaption(kind);
      |c| == 10 + |kind| && c[..10] == "QR Code - " &&
      ToLower(c[10..]) == ToLower(kind) &&
      forall i | 10 <= i < |c| :: !('a' <= c[i] <= 'z')
  {
    var c := PdfCaption(kind);
    assert c[10..] == ToUpper(kind);
    LowerOfUpper(kind);
    forall i | 10 <= i < |c|
      ensures !('a' <= c[i] <= 'z')
    {
      assert c[i] == UpperChar(kind[i - 10]);
    }
  }

  /** The PDF page: a 16 pt caption at (20, 30) and the image in the 100 by 100 box at (20, 50). */
  datatype PdfPage = PdfPage(
    fontSize: int, caption: string, captionX: int, captionY: int,
    image: string, imageX: int, imageY: int, imageWidth: int, imageHeight: int)

  function PdfPageOf(kind: string, image: string): PdfPage {
    PdfPage(16, PdfCaption(kind), 20, 30, image, 20, 50, 100, 100)
  }

  /** What an export hands to the browser: a named PNG data URL, SVG text or PDF page. */
  datatype ExportFile =
    | PngFile(name: string, dataUrl: string)
    | SvgFile(name: string, svg: string)
    | PdfFile(name: string, page: PdfPage)
  {
    function Format(): ExportFormat {
      match this
      case PngFile(_, _) => Png
      case SvgFile(_, _) => Svg
      case PdfFile(_, _) => Pdf
    }
  }

  function SuccessToast(f: ExportFormat): Toast {
    Toast("Export successful", "QR code exported as " + ToUpper(FormatId(f)), false)
  }

  const FailureToast: Toast := Toast("Export failed", "Please try again.", true)

  /**
   * The file one export produces, or `None` when the encoder throws. `toDataUrl` and
   * `toSvg` stand for the external encoder's `toDataURL` and `toString({type: 'svg'})`.
   */
  function ExportResult(d: QRData, o: QROptions, f: ExportFormat, timestamp: nat,
                        toDataUrl: (string, EncoderOptions) -> Option<string>,
                        toSvg: (string, EncoderOptions) -> Option<string>): Option<ExportFile>
  {
    var content := GenerateQRContent(d);
    var name := ExportFileName(d.kind, f, timestamp);
    match f
    case Png =>
      var image := toDataUrl(content, RenderOptions(Png, o));
      if image.Some? then Some(PngFile(name, image.value)) else None
    case Svg =>
      var svg := toSvg(content, RenderOptions(Svg, o));
      if svg.Some? then Some(SvgFile(name, svg.value)) else None
    case Pdf =>
      var image := toDataUrl(content, RenderOptions(Pdf, o));
      if image.Some? then Some(PdfFile(name, PdfPageOf(d.kind, image.value))) else None
  }

  /**
   * An export produces a file of the chosen format under that format's name, rendered
   * from the record's payload; it fails exactly when the encoder does.
   */
  lemma ExportResultShape(d: QRData, o: QROptions, f: ExportFormat, timestamp: nat,
                          toDataUrl: (string, EncoderOptions) -> Option<string>,
                          toSvg: (string, EncoderOptions) -> Option<string>)
    ensures var r := ExportResult(d, o, f, timestamp, toDataUrl, toSvg);
      var content := Preview.GenerateQRContent(d);
      var encoded := if f == Svg then toSvg(content, RenderOptions(f, o)) else toDataUrl(content, RenderOptions(f, o));
      (r.Some? <==> encoded.Some?) &&
      (r.Some? ==> r.value.Format() == f && r.value.name == ExportFileName(d.kind, f, timestamp))
    ensures var r := ExportResult(d, o, f, timestamp, toDataUrl, toSvg);
      f == Pdf && r.Some? ==> r.value.page.caption == PdfCaption(d.kind) && r.value.page.fontSize == 16
  {
    FormatterAgrees(d);
  }

  /** The panel's state: the selected format, the busy flag, the files exported and the toasts shown. */
  class Exporter {
    var exportFormat: ExportFormat
    var isExporting: bool
    var exported: seq<ExportFile>
    var toasts: seq<Toast>

    constructor ()
      ensures exportFormat == Png && !isExporting && exported == [] && toasts == []
    {
      exportFormat := Png;
      isExporting := false;
      exported := [];
      toasts := [];
    }

    /** The format selector. */
    method SetExportFormat(f: ExportFormat)
      modifies this
      ensures exportFormat == f
      ensures isExporting == old(isExporting) && exported == old(exported) && toasts == old(toasts)
    {
      exportFormat := f;
    }

    /** `exportPNG`: render the payload at the user's settings and save it as a PNG. */
    method ExportPng(d: QRData, o: QROptions, timestamp: nat,
                     toDataUrl: (string, EncoderOptions) -> Option<string>) returns (ok: bool)
      modifies this
      ensures var image := toDataUrl(Preview.GenerateQRContent(d), EncoderOptionsOf(o));
        ok == image.Some? &&
        exported == old(exported) + (if ok then [PngFile(ExportFileName(d.kind, Png, timestamp), image.value)] else [])
      ensures exportFormat == old(exportFormat) && isExporting == old(isExporting) && toasts == old(toasts)
    {
      FormatterAgrees(d);
      var content := GenerateQRContent(d);
      var image := toDataUrl(content, RenderOptions(Png, o));
      if image.None? {
        return false;
      }
      exported := exported + [PngFile(ExportFileName(d.kind, Png, timestamp), image.value)];
      return true;
    }

    /** `exportSVG`: render the payload as SVG text at the user's settings and save it. */
    method ExportSvg(d: QRData, o: QROptions, timestamp: nat,
                     toSvg: (string, EncoderOptions) -> Option<string>) returns (ok: bool)
      modifies this
      ensures var svg := toSvg(Preview.GenerateQRContent(d), EncoderOptionsOf(o));
        ok == svg.Some? &&
        exported == old(exported) + (if ok then [SvgFile(ExportFileName(d.kind, Svg, timestamp), svg.value)] else [])
      ensures exportFormat == old(exportFormat) && isExporting == old(isExporting) && toasts == old(toasts)
    {
      FormatterAgrees(d);
      var content := GenerateQRContent(d);
      var svg := toSvg(content, RenderOptions(Svg, o));
      if svg.None? {
        return false;
      }
      exported := exported + [SvgFile(ExportFileName(d.kind, Svg, timestamp), svg.value)];
      return true;
    }

    /** `exportPDF`: render the payload at width 400 and save it on a captioned PDF page. */
    method ExportPdf(d: QRData, o: QROptions, timestamp: nat,
                     toDataUrl: (string, EncoderOptions) -> Option<string>) returns (ok: bool)
      modifies this
      ensures var image := toDataUrl(Preview.GenerateQRContent(d), EncoderOptionsOf(o.(width := 400)));
        ok == image.Some? &&
        exported == old(exported) +
          (if ok then [PdfFile(ExportFileName(d.kind, Pdf, timestamp), PdfPageOf(d.kind, image.value))] else [])
      ensures exportFormat == old(exportFormat) && isExporting == old(isExporting) && toasts == old(toasts)
    {
      FormatterAgrees(d);
      var content := GenerateQRContent(d);
      var image := toDataUrl(content, RenderOptions(Pdf, o));
      if image.None? {
        return false;
      }
      exported := exported + [PdfFile(ExportFileName(d.kind, Pdf, timestamp), PdfPageOf(d.kind, image.value))];
      return true;
    }

    /**
     * `handleExport`: with the busy flag raised, run the one exporter the selected format
     * names, then show the success or the failure toast; the flag is lowered on both paths.
     */
    method HandleExport(d: QRData, o: QROptions, timestamp: nat,
                        toDataUrl: (string, EncoderOptions) -> Option<string>,
                        toSvg: (string, EncoderOptions) -> Option<string>)
      modifies this
      ensures !isExporting && exportFormat == old(exportFormat)
      ensures var r := ExportResult(d, o, exportFormat, timestamp, toDataUrl, toSvg);
        exported == old(exported) + (if r.Some? then [r.value] else []) &&
        toasts == old(toasts) + [if r.Some? then SuccessToast(exportFormat) else FailureToast]
    {
      FormatterAgrees(d);
      isExporting := true;
      var ok;
      match exportFormat {
        case Png => ok := ExportPng(d, o, timestamp, toDataUrl);
        case Svg => ok := ExportSvg(d, o, timestamp, toSvg);
        case Pdf => ok := ExportPdf(d, o, timestamp, toDataUrl);
      }
      if ok {
        toasts := toasts + [SuccessToast(exportFormat)];
      } else {
        toasts := toasts + [FailureToast];
      }
      isExporting := false;
    }
  }
}
