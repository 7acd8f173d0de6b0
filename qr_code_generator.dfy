/**
 * The input form (src/components/QRCodeGenerator.tsx): the helpers that copy the form
 * record with one field replaced, and the values the inputs display. Every caller
 * passes one of the fixed field names of the sub-record it edits, so the field is an
 * enumeration here.
 */
module QRCodeGenerator {
  import opened Wrappers
  import opened JsStrings
  import opened QRTypes
  import Preview = QRCodePreview

  datatype WifiField = Ssid | Password | Security
  datatype ContactField = Name | Phone | Email | Organization
  datatype EventField = Title | Start | End | Location | Description

  // ---------------------------------------------------------------------------
  // Reading and writing one field of a sub-record (`r[field]`, `{ ...r, [field]: v }`)
  // ---------------------------------------------------------------------------

  function WifiGet(w: WifiInfo, f: WifiField): Option<string> {
    match f
    case Ssid => w.ssid
    case Password => w.password
    case Security => w.security
  }

  function WifiSet(w: WifiInfo, f: WifiField, v: string): WifiInfo {
    match f
    case Ssid => w.(ssid := Some(v))
    case Password => w.(password := Some(v))
    case Security => w.(security := Some(v))
  }

  function ContactGet(c: ContactInfo, f: ContactField): Option<string> {
    match f
    case Name => c.name
    case Phone => c.phone
    case Email => c.email
    case Organization => c.organization
  }

  function ContactSet(c: ContactInfo, f: ContactField, v: string): ContactInfo {
    match f
    case Name => c.(name := Some(v))
    case Phone => c.(phone := Some(v))
    case Email => c.(email := Some(v))
    case Organization => c.(organization := Some(v))
  }

  function EventGet(e: EventInfo, f: EventField): Option<string> {
    match f
    case Title => e.title
    case Start => e.start
    case End => e.end
    case Location => e.location
    case Description => e.description
  }

  function EventSet(e: EventInfo, f: EventField, v: string): EventInfo {
    match f
    case Title => e.(title := Some(v))
    case Start => e.(start := Some(v))
    case End => e.(end := Some(v))
    case Location => e.(location := Some(v))
    case Description => e.(description := Some(v))
  }

  /** Spreading `undefined` gives a record with no fields. */
  const NoWifi: WifiInfo := WifiInfo(None, None, None)
  const NoContact: ContactInfo := ContactInfo(None, None, None, None)
  const NoEvent: EventInfo := EventInfo(None, None, None, None, None)

  /** A sub-record is determined by its fields. */
  lemma WifiFieldsDetermine(a: WifiInfo, b: WifiInfo)
    ensures a == b <==> forall f: WifiField :: WifiGet(a, f) == WifiGet(b, f)
  {
    if forall f: WifiField :: WifiGet(a, f) == WifiGet(b, f) {
      assert WifiGet(a, Ssid) == WifiGet(b, Ssid);
      assert WifiGet(a, Password) == WifiGet(b, Password);
      assert WifiGet(a, Security) == WifiGet(b, Security);
    }
  }

  lemma ContactFieldsDetermine(a: ContactInfo, b: ContactInfo)
    ensures a == b <==> forall f: ContactField :: ContactGet(a, f) == ContactGet(b, f)
  {
    if forall f: ContactField :: ContactGet(a, f) == ContactGet(b, f) {
      assert ContactGet(a, Name) == ContactGet(b, Name);
      assert ContactGet(a, Phone) == ContactGet(b, Phone);
      assert ContactGet(a, Email) == ContactGet(b, Email);
      assert ContactGet(a, Organization) == ContactGet(b, Organization);
    }
  }

  lemma EventFieldsDetermine(a: EventInfo, b: EventInfo)
    ensures a == b <==> forall f: EventField :: EventGet(a, f) == EventGet(b, f)
  {
    if forall f: EventField :: EventGet(a, f) == EventGet(b, f) {
      assert EventGet(a, Title) == EventGet(b, Title);
      assert EventGet(a, Start) == EventGet(b, Start);
      assert EventGet(a, End) == EventGet(b, End);
      assert EventGet(a, Location) == EventGet(b, Location);
      assert EventGet(a, Description) == EventGet(b, Description);
    }
  }

  // ---------------------------------------------------------------------------
  // The update helpers
  // ---------------------------------------------------------------------------

  /** `updateContent(content)`: `{ ...qrData, content }`. */
  function UpdateContent(d: QRData, v: string): QRData {
    d.(content := v)
  }

  /** `updateWifi(field, value)`: `{ ...qrData, wifi: { ...qrData.wifi, [field]: value } }`. */
  function UpdateWifi(d: QRData, f: WifiField, v: string): QRData {
    d.(wifi := Some(WifiSet(d.wifi.GetOr(NoWifi), f, v)))
  }

  /** `updateContact(field, value)`. */
  function UpdateContact(d: QRData, f: ContactField, v: string): QRData {
    d.(contact := Some(ContactSet(d.contact.GetOr(NoContact), f, v)))
  }

  /** `updateEvent(field, value)`. */
  function UpdateEvent(d: QRData, f: EventField, v: string): QRData {
    d.(event := Some(EventSet(d.event.GetOr(NoEvent), f, v)))
  }

  /** Editing the content sets it and leaves the type and every sub-record as they were. */
  lemma UpdateContentOnly(d: QRData, v: string)
    ensures var n := UpdateContent(d, v);
      n.content == v && n.kind == d.kind && n.wifi == d.wifi && n.contact == d.contact && n.event == d.event
    ensures UpdateContent(UpdateContent(d, v), d.content) == d
  {
  }

  /**
   * Editing a WiFi field sets that field and only it: the other fields keep their
   * values (none, when there was no WiFi record) and the rest of the form is unchanged.
   */
  lemma UpdateWifiOnly(d: QRData, f: WifiField, v: string)
    ensures var n := UpdateWifi(d, f, v);
      n.kind == d.kind && n.content == d.content && n.contact == d.contact && n.event == d.event &&
      n.wifi.Some? && WifiGet(n.wifi.value, f) == Some(v) &&
      forall g: WifiField | g != f ::
        WifiGet(n.wifi.value, g) == (if d.wifi.Some? then WifiGet(d.wifi.value, g) else None)
  {
  }

  lemma UpdateContactOnly(d: QRData, f: ContactField, v: string)
    ensures var n := UpdateContact(d, f, v);
      n.kind == d.kind && n.content == d.content && n.wifi == d.wifi && n.event == d.event &&
      n.contact.Some? && ContactGet(n.contact.value, f) == Some(v) &&
      forall g: ContactField | g != f ::
        ContactGet(n.contact.value, g) == (if d.contact.Some? then ContactGet(d.contact.value, g) else None)
  {
  }

  lemma UpdateEventOnly(d: QRData, f: EventField, v: string)
    ensures var n := UpdateEvent(d, f, v);
      n.kind == d.kind && n.content == d.content && n.wifi == d.wifi && n.contact == d.contact &&
      n.event.Some? && EventGet(n.event.value, f) == Some(v) &&
      forall g: EventField | g != f ::
        EventGet(n.event.value, g) == (if d.event.Some? then EventGet(d.event.value, g) else None)
  {
  }

  /** Writing the same field twice keeps only the second value. */
  lemma UpdateLastWins(d: QRData, v1: string, v2: string, wf: WifiField, cf: ContactField, ef: EventField)
    ensures UpdateWifi(UpdateWifi(d, wf, v1), wf, v2) == UpdateWifi(d, wf, v2)
    ensures UpdateContact(UpdateContact(d, cf, v1), cf, v2) == UpdateContact(d, cf, v2)
    ensures UpdateEvent(UpdateEvent(d, ef, v1), ef, v2) == UpdateEvent(d, ef, v2)
  {
    var w1 := UpdateWifi(UpdateWifi(d, wf, v1), wf, v2).wifi.value;
    var w2 := UpdateWifi(d, wf, v2).wifi.value;
    forall g: WifiField ensures WifiGet(w1, g) == WifiGet(w2, g) {
      UpdateWifiOnly(d, wf, v1);
    }
    WifiFieldsDetermine(w1, w2);
    var c1 := UpdateContact(UpdateContact(d, cf, v1), cf, v2).contact.value;
    var c2 := UpdateContact(d, cf, v2).contact.value;
    forall g: ContactField ensures ContactGet(c1, g) == ContactGet(c2, g) {
      UpdateContactOnly(d, cf, v1);
    }
    ContactFieldsDetermine(c1, c2);
    var e1 := UpdateEvent(UpdateEvent(d, ef, v1), ef, v2).event.value;
    var e2 := UpdateEvent(d, ef, v2).event.value;
    forall g: EventField ensures EventGet(e1, g) == EventGet(e2, g) {
      UpdateEventOnly(d, ef, v1);
    }
    EventFieldsDetermine(e1, e2);
  }

  // ---------------------------------------------------------------------------
  // What the inputs display (`qrData.wifi?.ssid || ""`, the security select's `|| "WPA"`)
  // ---------------------------------------------------------------------------

  function OptField<T>(r: Option<T>, get: T -> Option<string>): Option<string> {
    if r.Some? then get(r.value) else None
  }

  function WifiShown(d: QRData, f: WifiField): string {
    OptOrElse(OptField(d.wifi, w => WifiGet(w, f)), if f == Security then "WPA" else "")
  }

  function ContactShown(d: QRData, f: ContactField): string {
    OptOrElse(OptField(d.contact, c => ContactGet(c, f)), "")
  }

  function EventShown(d: QRData, f: EventField): string {
    OptOrElse(OptField(d.event, e => EventGet(e, f)), "")
  }

  /**
   * An input shows what was just typed into it; the security select shows the chosen
   * value, and `WPA` for an empty one.
   */
  lemma InputsEcho(d: QRData, v: string, wf: WifiField, cf: ContactField, ef: EventField)
    ensures WifiShown(UpdateWifi(d, wf, v), wf) == (if wf == Security && v == "" then "WPA" else v)
    ensures ContactShown(UpdateContact(d, cf, v), cf) == v
    ensures EventShown(UpdateEvent(d, ef, v), ef) == v
  {
    UpdateWifiOnly(d, wf, v);
    UpdateContactOnly(d, cf, v);
    UpdateEventOnly(d, ef, v);
  }

  /**
   * The security select shows the value the formatter writes after `T:`: `WPA` while
   * none is chosen.
   */
  lemma SecurityShownIsFormatted(d: QRData)
    requires d.kind == "wifi" && d.wifi.Some? && Truthy(d.wifi.value.ssid)
    ensures Preview.GenerateQRContent(d) ==
      "WIFI:T:" + WifiShown(d, Security) + ";S:" + WifiShown(d, Ssid) + ";P:" + WifiShown(d, Password) + ";;"
  {
    Preview.WifiPayload(d);
    OptOrElseTruthy(d.wifi.value.security, "WPA");
    OptOrElseTruthy(d.wifi.value.password, "");
  }

  /**
   * A contact whose name was typed in formats to a vCard whose FN, TEL, EMAIL and ORG
   * lines show what the inputs display.
   */
  lemma ContactInputsFormatted(d: QRData, name: string)
    requires d.kind == "contact" && name != ""
    requires '\n' !in name
    requires forall f: ContactField :: '\n' !in ContactShown(d, f)
    ensures var n := UpdateContact(d, Name, name);
      Split(Preview.GenerateQRContent(n), '\n') ==
        ["BEGIN:VCARD", "VERSION:3.0", "FN:" + name, "TEL:" + ContactShown(n, Phone),
         "EMAIL:" + ContactShown(n, Email), "ORG:" + ContactShown(n, Organization), "END:VCARD"]
  {
    var n := UpdateContact(d, Name, name);
    UpdateContactOnly(d, Name, name);
    assert ContactShown(n, Phone) == ContactShown(d, Phone);
    assert ContactShown(n, Email) == ContactShown(d, Email);
    assert ContactShown(n, Organization) == ContactShown(d, Organization);
    Preview.VCardPayload(n);
  }
}
