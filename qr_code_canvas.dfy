/**
 * The live canvas (src/components/QRCodeCanvas.tsx): its own copy of the payload
 * formatter, the guard that decides whether the pattern pass runs, the centred logo
 * with its white backing square, and the render effect that draws all of these and
 * hands a PNG snapshot of the canvas to `onQRGenerated`.
 */
module QRCodeCanvas {
  import opened Wrappers
  import opened JsStrings
  import opened QRTypes
  import Preview = QRCodePreview
  import Patterns = QRPatternUtils

  /** The WiFi case of the copy, written out: the sample network unless an SSID is set. */
  function WifiCase(w: Option<WifiInfo>): string {
    if !(w.Some? && Truthy(w.value.ssid)) then "WIFI:T:WPA;S:SampleNetwork;P:password123;;"
    else
      "WIFI:T:" + OptOrElse(w.value.security, "WPA") + ";S:" + w.value.ssid.value +
      ";P:" + OptOrElse(w.value.password, "") + ";;"
  }

  /** The contact case of the copy, written out: the sample card unless a name is set. */
  function ContactCase(c: Option<ContactInfo>): string {
    if !(c.Some? && Truthy(c.value.name)) then "BEGIN:VCARD\nVERSION:3.0\nFN:Sample Contact\nEND:VCARD"
    else
      "BEGIN:VCARD" + "\n" + "VERSION:3.0" + "\n" + ("FN:" + c.value.name.value) +
      "\n" + ("TEL:" + OptOrElse(c.value.phone, "")) +
      "\n" + ("EMAIL:" + OptOrElse(c.value.email, "")) +
      "\n" + ("ORG:" + OptOrElse(c.value.organization, "")) + "\n" + "END:VCARD"
  }

  /**
   * The event case of the copy, written out with its `.replace` chains: the sample event
   * unless a title is set.
   */
  function EventCase(ev: Option<EventInfo>): string {
    if !(ev.Some? && Truthy(ev.value.title)) then "BEGIN:VEVENT\nSUMMARY:Sample Event\nEND:VEVENT"
    else
      var e := ev.value;
      var start := if e.start.Some? then Some(RemoveFirst(RemoveAll(e.start.value, {'-', ':'}), 'T')) else None;
      var end := if e.end.Some? then Some(RemoveFirst(RemoveAll(e.end.value, {'-', ':'}), 'T')) else None;
      "BEGIN:VEVENT" + "\n" + ("SUMMARY:" + e.title.value) +
      "\n" + ("DTSTART:" + OptOrElse(start, "")) +
      "\n" + ("DTEND:" + OptOrElse(end, "")) +
      "\n" + ("LOCATION:" + OptOrElse(e.location, "")) +
      "\n" + ("DESCRIPTION:" + OptOrElse(e.description, "")) + "\n" + "END:VEVENT"
  }

  /**
   * The canvas's copy of `generateQRContent`, written out in full: the same `switch`,
   * case by case, as an `if` chain on the type id.
   */
  function GenerateQRContent(d: QRData): string {
    if d.kind == "url" then OrElse(d.content, "https://example.com")
    else if d.kind == "text" then OrElse(d.content, "Sample text")
    else if d.kind == "wifi" then WifiCase(d.wifi)
    else if d.kind == "contact" then ContactCase(d.contact)
    else if d.kind == "email" then "mailto:" + OrElse(d.content, "example@example.com")
    else if d.kind == "phone" then "tel:" + OrElse(d.content, "+1234567890")
    else if d.kind == "location" then
      var coords := OrElse(d.content, "40.7128,-74.0060");
      if Includes(coords, ",") && !Includes(coords, " ") then "geo:" + coords
      else "geo:0,0?q=" + PercentEncode(coords)
    else if d.kind == "event" then EventCase(d.event)
    else OrElse(d.content, "https://example.com")
  }

  /** The copy formats every record exactly as the preview does. */
  lemma FormatterAgrees(d: QRData)
    ensures GenerateQRContent(d) == Preview.GenerateQRContent(d)
  {
    var k := Preview.KindOf(d.kind);
    if k == Preview.Location {
      assert d.kind == "location";
      var coords := OrElse(d.content, Preview.DefaultCoords);
      assert Preview.GenerateQRContent(d) == Preview.LocationContent(coords);
    } else if k == Preview.Other {
      assert GenerateQRContent(d) == OrElse(d.content, "https://example.com");
      assert Preview.GenerateQRContent(d) == OrElse(d.content, Preview.DefaultUrl);
    } else if k == Preview.Url {
      assert d.kind == "url";
      assert GenerateQRContent(d) == OrElse(d.content, "https://example.com");
    } else if k == Preview.Text {
      assert d.kind == "text";
      assert GenerateQRContent(d) == OrElse(d.content, "Sample text");
    } else if k == Preview.Wifi {
      assert d.kind == "wifi";
      assert GenerateQRContent(d) == WifiCase(d.wifi);
      WifiAgrees(d.wifi);
    } else if k == Preview.Contact {
      assert d.kind == "contact";
      assert GenerateQRContent(d) == ContactCase(d.contact);
      ContactAgrees(d.contact);
    } else if k == Preview.Email {
      assert d.kind == "email";
      assert GenerateQRContent(d) == "mailto:" + OrElse(d.content, "example@example.com");
    } else if k == Preview.Phone {
      assert d.kind == "phone";
      assert GenerateQRContent(d) == "tel:" + OrElse(d.content, "+1234567890");
    } else {
      assert d.kind == "event";
      assert GenerateQRContent(d) == EventCase(d.event);
      EventAgrees(d.event);
    }
  }

  /** The copy's WiFi template and sample are the preview's. */
  lemma WifiAgrees(w: Option<WifiInfo>)
    ensures WifiCase(w) == Preview.WifiContent(w)
  {
  }

  /** The copy's vCard template and sample are the preview's. */
  lemma ContactAgrees(c: Option<ContactInfo>)
    ensures ContactCase(c) == Preview.VCardContent(c)
  {
  }

  /** The copy's event template, `.replace` chains and sample are the preview's. */
  lemma EventAgrees(ev: Option<EventInfo>)
    ensures EventCase(ev) == Preview.EventContent(ev)
  {
    if ev.Some? {
      Preview.DateTimeAgrees(ev.value.start);
      Preview.DateTimeAgrees(ev.value.end);
    }
  }

  /** `qrOptions.patterns?.shapeStyle && qrOptions.patterns.shapeStyle !== 'classic'`. */
  predicate ShouldApplyPatterns(o: QROptions) {
    o.patterns.Some? && Truthy(o.patterns.value.shapeStyle) && o.patterns.value.shapeStyle.value != "classic"
  }

  /**
   * The pass runs exactly for a set style id other than `classic`, and it is skipped
   * only where it would have drawn classic modules anyway.
   */
  lemma ShouldApplyPatternsStyle(o: QROptions)
    ensures ShouldApplyPatterns(o) <==>
      o.patterns.Some? && o.patterns.value.shapeStyle.Some? &&
      o.patterns.value.shapeStyle.value != "" && o.patterns.value.shapeStyle.value != "classic"
    ensures !ShouldApplyPatterns(o) ==> Patterns.StyleOf(o) == Patterns.Classic
    ensures ShouldApplyPatterns(o) ==> Patterns.StyleOf(o) == Patterns.ShapeStyleNamed(o.patterns.value.shapeStyle.value)
  {
    Patterns.StyleOfDefault(o);
    Patterns.ShapeStyleIds();
  }

  /** `logoSize = qrOptions.width * 0.2`. */
  function LogoSize(width: int): real {
    width as real * 0.2
  }

  /** `x = y = (qrOptions.width - logoSize) / 2`. */
  function LogoOffset(width: int): real {
    (width as real - LogoSize(width)) / 2.0
  }

  /** A rectangle drawn on the canvas: left, top, width and height. */
  datatype Rect = Rect(left: real, top: real, width: real, height: real)

  /** The logo's square. */
  function LogoRect(width: int): Rect {
    Rect(LogoOffset(width), LogoOffset(width), LogoSize(width), LogoSize(width))
  }

  /** The white square drawn under the logo: `fillRect(x - 5, y - 5, logoSize + 10, logoSize + 10)`. */
  function BackingRect(width: int): Rect {
    var x := LogoOffset(width);
    Rect(x - 5.0, x - 5.0, LogoSize(width) + 10.0, LogoSize(width) + 10.0)
  }

  /**
   * The logo is a square of a fifth of the canvas side and is centred: the gaps on its
   * left and right (and above and below) are equal and, with the logo, span the canvas.
   */
  lemma LogoCentred(width: int)
    ensures var r := LogoRect(width);
      r.width == r.height == width as real / 5.0 && r.left == r.top &&
      r.left + r.width + r.left == width as real &&
      r.top + r.height + r.top == width as real
  {
  }

  /**
   * The backing square reaches exactly 5 pixels past the logo on every side and, on a
   * canvas of at least 25 pixels, stays inside the canvas.
   */
  lemma BackingMargins(width: int)
    ensures var l := LogoRect(width); var b := BackingRect(width);
      l.left - b.left == 5.0 && (b.left + b.width) - (l.left + l.width) == 5.0 &&
      l.top - b.top == 5.0 && (b.top + b.height) - (l.top + l.height) == 5.0
    ensures width >= 25 ==>
      var b := BackingRect(width);
      0.0 <= b.left && b.left + b.width <= width as real && 0.0 <= b.top && b.top + b.height <= width as real
  {
  }

  /**
   * The commands the effect applies to the canvas, in order. `ApplyPatterns` is the
   * pattern pass: the image it leaves is what `QRPatternUtils.ApplyPatternStyles`
   * paints from the RGBA pixels of the encoder's drawing under these options.
   */
  datatype CanvasOp =
    | RenderQR(content: string, encoderOptions: EncoderOptions)
    | ApplyPatterns(options: QROptions)
    | FillRect(color: string, rect: Rect)
    | DrawImage(source: string, rect: Rect)

  /**
   * The canvas after a successful render: the encoder's drawing, then the pattern pass
   * when the guard holds, then, when a logo is set, the white backing and the logo.
   */
  function CanvasOps(d: QRData, o: QROptions, logo: Option<string>): seq<CanvasOp> {
    [RenderQR(GenerateQRContent(d), EncoderOptionsOf(o))] +
    (if ShouldApplyPatterns(o) then [ApplyPatterns(o)] else []) +
    (if Truthy(logo) then [FillRect("#FFFFFF", BackingRect(o.width)), DrawImage(logo.value, LogoRect(o.width))] else [])
  }

  /**
   * The drawing starts from the encoder's rendering of the preview's payload; the pattern
   * pass appears exactly when the guard holds and the logo exactly when one is set,
   * always last and on top of its white backing.
   */
  lemma CanvasOpsShape(d: QRData, o: QROptions, logo: Option<string>)
    ensures var ops := CanvasOps(d, o, logo);
      |ops| == 1 + (if ShouldApplyPatterns(o) then 1 else 0) + (if Truthy(logo) then 2 else 0) &&
      ops[0] == RenderQR(Preview.GenerateQRContent(d), EncoderOptionsOf(o)) &&
      (ApplyPatterns(o) in ops <==> ShouldApplyPatterns(o)) &&
      (Truthy(logo) ==> ops[|ops| - 1] == DrawImage(logo.value, LogoRect(o.width)) &&
                        ops[|ops| - 2] == FillRect("#FFFFFF", BackingRect(o.width))) &&
      (!Truthy(logo) ==> forall i | 0 <= i < |ops| :: !ops[i].DrawImage? && !ops[i].FillRect?)
  {
    FormatterAgrees(d);
  }

  /** The component's canvas and the data URLs it has handed to `onQRGenerated`. */
  class CanvasView {
    var ops: seq<CanvasOp>
    var emitted: seq<string>

    constructor ()
      ensures ops == [] && emitted == []
    {
      ops := [];
      emitted := [];
    }

    /**
     * The render effect. `hasCanvas` and `hasContext` say whether the canvas element and
     * its 2D context exist; `renderOk` whether the encoder succeeds; `logoLoads` whether
     * the logo image loads; `snapshot` is `toDataURL("image/png")` of a canvas drawn by
     * the given commands. An encoder error is only logged.
     */
    method Generate(d: QRData, o: QROptions, logo: Option<string>,
                    hasCanvas: bool, renderOk: bool, hasContext: bool, logoLoads: bool,
                    snapshot: seq<CanvasOp> -> string)
      modifies this
      ensures !hasCanvas || !renderOk ==> ops == old(ops) && emitted == old(emitted)
      ensures hasCanvas && renderOk && !hasContext ==>
        ops == [RenderQR(Preview.GenerateQRContent(d), EncoderOptionsOf(o))] && emitted == old(emitted)
      ensures hasCanvas && renderOk && hasContext ==>
        var drawn := CanvasOps(d, o, if logoLoads then logo else None);
        ops == drawn &&
        emitted == old(emitted) + (if !Truthy(logo) || logoLoads then [snapshot(drawn)] else [])
    {
      FormatterAgrees(d);
      if !hasCanvas {
        return;
      }
      var content := GenerateQRContent(d);
      if !renderOk {
        return;
      }
      ops := [RenderQR(content, EncoderOptionsOf(o))];
      if !hasContext {
        return;
      }
      if ShouldApplyPatterns(o) {
        ops := ops + [ApplyPatterns(o)];
      }
      if Truthy(logo) {
        if logoLoads {
          ops := ops + [FillRect("#FFFFFF", BackingRect(o.width)), DrawImage(logo.value, LogoRect(o.width))];
          emitted := emitted + [snapshot(ops)];
        }
      } else {
        emitted := emitted + [snapshot(ops)];
      }
    }
  }
}
