/**
 * The preview panel (src/components/QRCodePreview.tsx): the payload formatter
 * `generateQRContent`, which turns the form record into the text the QR encoder is
 * given, the download file name, and the panel's state (the rendered data URL and
 * the downloads it triggers).
 */
module QRCodePreview {
  import opened Wrappers
  import opened JsStrings
  import opened QRTypes

  const DefaultUrl := "https://example.com"
  const DefaultText := "Sample text"
  const SampleWifi := "WIFI:T:WPA;S:SampleNetwork;P:password123;;"
  const SampleVCard := "BEGIN:VCARD\nVERSION:3.0\nFN:Sample Contact\nEND:VCARD"
  const DefaultEmail := "example@example.com"
  const DefaultPhone := "+1234567890"
  const DefaultCoords := "40.7128,-74.0060"
  const GeoScheme := "geo:"
  const GeoQuery := "geo:0,0?q="
  const SampleEvent := "BEGIN:VEVENT\nSUMMARY:Sample Event\nEND:VEVENT"

  /**
   * A `DTSTART`/`DTEND` value: `value?.replace(/[-:]/g, "").replace("T", "") || ""`,
   * that is every `-` and `:` removed, then the first `T`; empty when undefined.
   */
  function CompactDateTime(o: Option<string>): string {
    OptOrElse(match o
              case None => None
              case Some(s) => Some(RemoveFirst(RemoveAll(s, {'-', ':'}), 'T')), "")
  }

  /** `CompactDateTime`, with the optional chaining written as a test. */
  lemma DateTimeAgrees(o: Option<string>)
    ensures CompactDateTime(o) ==
      OptOrElse(if o.Some? then Some(RemoveFirst(RemoveAll(o.value, {'-', ':'}), 'T')) else None, "")
  {
  }

  /** The `switch (data.type)` cases; every id outside the eight falls to `Other`. */
  datatype QrKind = Url | Text | Wifi | Contact | Email | Phone | Location | Event | Other

  /** The case of the formatter's `switch` a type id selects. */
  function KindOf(kind: string): QrKind {
    if kind == "url" then Url
    else if kind == "text" then Text
    else if kind == "wifi" then Wifi
    else if kind == "contact" then Contact
    else if kind == "email" then Email
    else if kind == "phone" then Phone
    else if kind == "location" then Location
    else if kind == "event" then Event
    else Other
  }

  /** The WiFi case: the sample network unless an SSID is set. */
  function WifiContent(w: Option<WifiInfo>): (r: string)
    ensures |r| > 0
  {
    if !(w.Some? && Truthy(w.value.ssid)) then SampleWifi
    else
      "WIFI:T:" + OptOrElse(w.value.security, "WPA") + ";S:" + w.value.ssid.value +
      ";P:" + OptOrElse(w.value.password, "") + ";;"
  }

  /** The contact case: the sample card unless a name is set; the template's lines, one per field. */
  function VCardContent(c: Option<ContactInfo>): (r: string)
    ensures |r| > 0
  {
    if !(c.Some? && Truthy(c.value.name)) then SampleVCard
    else
      "BEGIN:VCARD" + "\n" + "VERSION:3.0" + "\n" + ("FN:" + c.value.name.value) +
      "\n" + ("TEL:" + OptOrElse(c.value.phone, "")) +
      "\n" + ("EMAIL:" + OptOrElse(c.value.email, "")) +
      "\n" + ("ORG:" + OptOrElse(c.value.organization, "")) + "\n" + "END:VCARD"
  }

  /** The location case, on the content or the sample coordinates. */
  function LocationContent(coords: string): (r: string)
    ensures |r| > 0
  {
    if Includes(coords, ",") && !Includes(coords, " ") then GeoScheme + coords
    else GeoQuery + PercentEncode(coords)
  }

  /** The event case: the sample event unless a title is set; the template's lines, one per field. */
  function EventContent(e: Option<EventInfo>): (r: string)
    ensures |r| > 0
  {
    if !(e.Some? && Truthy(e.value.title)) then SampleEvent
    else
      "BEGIN:VEVENT" + "\n" + ("SUMMARY:" + e.value.title.value) +
      "\n" + ("DTSTART:" + CompactDateTime(e.value.start)) +
      "\n" + ("DTEND:" + CompactDateTime(e.value.end)) +
      "\n" + ("LOCATION:" + OptOrElse(e.value.location, "")) +
      "\n" + ("DESCRIPTION:" + OptOrElse(e.value.description, "")) + "\n" + "END:VEVENT"
  }

  /** `generateQRContent`: total, and never empty. */
  function GenerateQRContent(d: QRData): (r: string)
    ensures |r| > 0
  {
    match KindOf(d.kind)
    case Url => OrElse(d.content, DefaultUrl)
    case Text => OrElse(d.content, DefaultText)
    case Wifi => WifiContent(d.wifi)
    case Contact => VCardContent(d.contact)
    case Email => "mailto:" + OrElse(d.content, DefaultEmail)
    case Phone => "tel:" + OrElse(d.content, DefaultPhone)
    case Location => LocationContent(OrElse(d.content, DefaultCoords))
    case Event => EventContent(d.event)
    case Other => OrElse(d.content, DefaultUrl)
  }

  /** The eight type ids select the eight named cases, in order; every other id selects none. */
  lemma KindOfIds(kind: string)
    ensures KindOf("url") == Url && KindOf("text") == Text && KindOf("wifi") == Wifi
    ensures KindOf("contact") == Contact && KindOf("email") == Email && KindOf("phone") == Phone
    ensures KindOf("location") == Location && KindOf("event") == Event
    ensures KindOf(kind) == Other <==> kind !in QrTypeIds
  {
  }

  // ---------------------------------------------------------------------------
  // Per-type properties of the formatter
  // ---------------------------------------------------------------------------

  /** URL, text and unknown types pass non-empty content through and fall back to a sample. */
  lemma PlainContent(d: QRData)
    ensures d.kind == "text" ==> GenerateQRContent(d) == (if d.content != "" then d.content else "Sample text")
    ensures d.kind == "url" || d.kind !in QrTypeIds ==>
      GenerateQRContent(d) == (if d.content != "" then d.content else "https://example.com")
  {
    KindOfIds(d.kind);
  }

  /** An unknown type is formatted exactly as a URL would be. */
  lemma UnknownTypeIsUrl(d: QRData)
    requires d.kind !in QrTypeIds
    ensures GenerateQRContent(d) == GenerateQRContent(d.(kind := "url"))
  {
    KindOfIds(d.kind);
  }

  /** WiFi: the sample network without an SSID, otherwise the three fields in `WIFI:` form, unescaped. */
  lemma WifiPayload(d: QRData)
    requires d.kind == "wifi"
    ensures d.wifi.None? || !Truthy(d.wifi.value.ssid) ==>
      GenerateQRContent(d) == "WIFI:T:WPA;S:SampleNetwork;P:password123;;"
    ensures d.wifi.Some? && Truthy(d.wifi.value.ssid) ==>
      var w := d.wifi.value;
      var security := if Truthy(w.security) then w.security.value else "WPA";
      var password := if Truthy(w.password) then w.password.value else "";
      GenerateQRContent(d) == "WIFI:T:" + security + ";S:" + w.ssid.value + ";P:" + password + ";;"
  {
    assert KindOf(d.kind) == Wifi;
  }

  /**
   * Reading a WiFi payload back: when no field holds a `;`, splitting on `;` yields the
   * security, SSID and password fields, then the two empty pieces of the closing `;;`.
   */
  lemma WifiFieldsReadBack(d: QRData)
    requires d.kind == "wifi" && d.wifi.Some? && Truthy(d.wifi.value.ssid)
    requires var w := d.wifi.value;
      ';' !in OptOrElse(w.security, "WPA") && ';' !in w.ssid.value && ';' !in OptOrElse(w.password, "")
    ensures var w := d.wifi.value;
      Split(GenerateQRContent(d), ';') ==
        ["WIFI:T:" + OptOrElse(w.security, "WPA"), "S:" + w.ssid.value, "P:" + OptOrElse(w.password, ""), "", ""]
  {
    assert KindOf(d.kind) == Wifi;
    var w := d.wifi.value;
    var parts := ["WIFI:T:" + OptOrElse(w.security, "WPA"), "S:" + w.ssid.value, "P:" + OptOrElse(w.password, ""), "", ""];
    NotInConcat("WIFI:T:", OptOrElse(w.security, "WPA"), ';');
    NotInConcat("S:", w.ssid.value, ';');
    NotInConcat("P:", OptOrElse(w.password, ""), ';');
    assert forall p | p in parts :: ';' !in p;
    WifiJoin(OptOrElse(w.security, "WPA"), w.ssid.value, OptOrElse(w.password, ""));
    SplitJoin(parts, ';');
  }

  /** The WiFi template is the join on `;` of its three fields and two empty pieces. */
  lemma WifiJoin(security: string, ssid: string, password: string)
    ensures Join(["WIFI:T:" + security, "S:" + ssid, "P:" + password, "", ""], ';') ==
      "WIFI:T:" + security + ";S:" + ssid + ";P:" + password + ";;"
  {
    var a, b, c := "WIFI:T:" + security, "S:" + ssid, "P:" + password;
    JoinFive(a, b, c, "", "", ';');
    assert a + [';'] + b == "WIFI:T:" + security + ";S:" + ssid;
    assert a + [';'] + b + [';'] + c == "WIFI:T:" + security + ";S:" + ssid + ";P:" + password;
  }

  /** The seven lines of a filled-in vCard. */
  function VCardLines(c: ContactInfo): seq<string>
    requires Truthy(c.name)
  {
    ["BEGIN:VCARD", "VERSION:3.0", "FN:" + c.name.value, "TEL:" + OptOrElse(c.phone, ""),
     "EMAIL:" + OptOrElse(c.email, ""), "ORG:" + OptOrElse(c.organization, ""), "END:VCARD"]
  }

  /** A filled-in vCard is its seven lines joined by line feeds. */
  lemma VCardJoin(c: ContactInfo)
    requires Truthy(c.name)
    ensures Join(VCardLines(c), '\n') == VCardContent(Some(c))
  {
    var l := VCardLines(c);
    JoinSeven(l[0], l[1], l[2], l[3], l[4], l[5], l[6], '\n');
    assert l == [l[0], l[1], l[2], l[3], l[4], l[5], l[6]];
  }

  /**
   * Contact: without a name, the sample card; with one, a vCard 3.0 whose lines, split
   * on line feeds, are BEGIN, VERSION, FN, TEL, EMAIL, ORG and END, with absent fields
   * left empty (provided no field itself holds a line feed).
   */
  lemma VCardPayload(d: QRData)
    requires d.kind == "contact"
    ensures d.contact.None? || !Truthy(d.contact.value.name) ==> GenerateQRContent(d) == SampleVCard
    ensures d.contact.Some? && Truthy(d.contact.value.name) ==>
      var c := d.contact.value;
      ('\n' !in c.name.value && '\n' !in OptOrElse(c.phone, "") && '\n' !in OptOrElse(c.email, "") &&
       '\n' !in OptOrElse(c.organization, "")) ==>
      Split(GenerateQRContent(d), '\n') == VCardLines(c)
  {
    assert KindOf(d.kind) == Contact;
    assert GenerateQRContent(d) == VCardContent(d.contact);
    if d.contact.Some? && Truthy(d.contact.value.name) {
      var c := d.contact.value;
      if '\n' !in c.name.value && '\n' !in OptOrElse(c.phone, "") && '\n' !in OptOrElse(c.email, "") &&
         '\n' !in OptOrElse(c.organization, "") {
        VCardSplit(c);
      }
    }
  }

  /** A filled-in vCard whose fields hold no line feed splits back into its seven lines. */
  lemma VCardSplit(c: ContactInfo)
    requires Truthy(c.name)
    requires '\n' !in c.name.value && '\n' !in OptOrElse(c.phone, "") && '\n' !in OptOrElse(c.email, "") &&
             '\n' !in OptOrElse(c.organization, "")
    ensures Split(VCardContent(Some(c)), '\n') == VCardLines(c)
  {
    NotInConcat("FN:", c.name.value, '\n');
    NotInConcat("TEL:", OptOrElse(c.phone, ""), '\n');
    NotInConcat("EMAIL:", OptOrElse(c.email, ""), '\n');
    NotInConcat("ORG:", OptOrElse(c.organization, ""), '\n');
    SplitSeven("BEGIN:VCARD", "VERSION:3.0", "FN:" + c.name.value, "TEL:" + OptOrElse(c.phone, ""),
               "EMAIL:" + OptOrElse(c.email, ""), "ORG:" + OptOrElse(c.organization, ""), "END:VCARD", '\n');
    VCardJoin(c);
  }

  /** E-mail and phone: the scheme followed by the content, or by a sample address or number. */
  lemma SchemePayloads(d: QRData)
    ensures d.kind == "email" ==>
      GenerateQRContent(d) == "mailto:" + (if d.content != "" then d.content else "example@example.com")
    ensures d.kind == "phone" ==>
      GenerateQRContent(d) == "tel:" + (if d.content != "" then d.content else "+1234567890")
  {
    KindOfIds(d.kind);
  }

  /** The location test, with `includes` read as character membership. */
  lemma LocationCases(coords: string)
    ensures LocationContent(coords) ==
      if ',' in coords && ' ' !in coords then GeoScheme + coords else GeoQuery + PercentEncode(coords)
  {
    IncludesChar(coords, ',');
    IncludesChar(coords, ' ');
  }

  /**
   * Location: a value holding a comma and no space becomes a `geo:` URI as it is; any
   * other value becomes the percent-encoded query of `geo:0,0?q=`.
   */
  lemma LocationPayload(d: QRData)
    requires d.kind == "location"
    ensures var coords := if d.content != "" then d.content else DefaultCoords;
      GenerateQRContent(d) ==
        if ',' in coords && ' ' !in coords then "geo:" + coords else "geo:0,0?q=" + PercentEncode(coords)
  {
    var coords := OrElse(d.content, DefaultCoords);
    assert KindOf(d.kind) == Location;
    assert GenerateQRContent(d) == LocationContent(coords);
    LocationCases(coords);
  }

  /**
   * A location payload never contains a space, and the place text is recoverable from
   * it: the `geo:` form carries it verbatim, and the query form percent-decodes back to it.
   */
  lemma LocationRecoverable(coords: string)
    ensures var r := LocationContent(coords);
      ' ' !in r &&
      (r == GeoScheme + coords ||
       (r == GeoQuery + PercentEncode(coords) && PercentDecode(PercentEncode(coords)) == Some(coords)))
  {
    LocationCases(coords);
    var r := LocationContent(coords);
    if !(',' in coords && ' ' !in coords) {
      var e := PercentEncode(coords);
      PercentEncodeNoSpace(coords);
      PercentRoundTrip(coords);
      assert r == GeoQuery + e;
      assert forall k | 0 <= k < |r| :: r[k] != ' ' by {
        forall k | 0 <= k < |r| ensures r[k] != ' ' {
          if k >= |GeoQuery| { assert r[k] == e[k - |GeoQuery|]; }
        }
      }
    } else {
      assert r == GeoScheme + coords;
      assert forall k | 0 <= k < |r| :: r[k] != ' ' by {
        forall k | 0 <= k < |r| ensures r[k] != ' ' {
          if k >= |GeoScheme| { assert r[k] == coords[k - |GeoScheme|]; }
        }
      }
    }
  }

  /** The sample coordinates hold a comma and no space. */
  lemma DefaultCoordsShape()
    ensures ',' in DefaultCoords && ' ' !in DefaultCoords
  {
    assert DefaultCoords[7] == ',';
  }

  /** An address of two plain words separated by a space: the space is escaped, the words kept. */
  lemma TwoWordAddress(a: string, b: string)
    requires forall i | 0 <= i < |a| :: IsUnreserved(a[i])
    requires forall i | 0 <= i < |b| :: IsUnreserved(b[i])
    ensures LocationContent(a + " " + b) == GeoQuery + a + "%20" + b
  {
    var s := a + " " + b;
    assert s[|a|] == ' ';
    SpacedLocation(s);
    assert PercentEncode(s) == a + "%20" + b by {
      EncodeAroundSpace(a, b);
      PercentEncodeUnreservedIdentity(a);
      PercentEncodeUnreservedIdentity(b);
    }
  }

  /**
   * An address of three plain words, such as `123 Main St`: both spaces are escaped and
   * the words kept, giving `geo:0,0?q=123%20Main%20St`.
   */
  lemma ThreeWordAddress(a: string, b: string, c: string)
    requires forall i | 0 <= i < |a| :: IsUnreserved(a[i])
    requires forall i | 0 <= i < |b| :: IsUnreserved(b[i])
    requires forall i | 0 <= i < |c| :: IsUnreserved(c[i])
    ensures LocationContent(a + " " + b + " " + c) == GeoQuery + a + "%20" + b + "%20" + c
  {
    var bc := b + " " + c;
    var s := a + " " + bc;
    assert a + " " + b + " " + c == s;
    assert s[|a|] == ' ';
    SpacedLocation(s);
    EncodeAroundSpace(a, bc);
    EncodeAroundSpace(b, c);
    PercentEncodeUnreservedIdentity(a);
    PercentEncodeUnreservedIdentity(b);
    PercentEncodeUnreservedIdentity(c);
    assert PercentEncode(s) == a + "%20" + (b + "%20" + c);
    RegroupThree(GeoQuery, a, "%20", b, c);
  }

  /** Regrouping the concatenation `p a x b x c`. */
  lemma RegroupThree(p: string, a: string, x: string, b: string, c: string)
    ensures p + (a + x + (b + x + c)) == p + a + x + b + x + c
  {
  }

  /** A place text holding a space always takes the query form. */
  lemma SpacedLocation(s: string)
    requires ' ' in s
    ensures LocationContent(s) == GeoQuery + PercentEncode(s)
  {
    IncludesChar(s, ' ');
  }

  /** Encoding `a b` escapes the space between the encodings of the two words. */
  lemma EncodeAroundSpace(a: string, b: string)
    ensures PercentEncode(a + " " + b) == PercentEncode(a) + "%20" + PercentEncode(b)
  {
    var sp := " ";
    assert PercentEncode(sp) == "%20" by {
      SpaceEncoding();
      assert sp[1..] == [];
    }
    assert a + sp + b == a + (sp + b);
    PercentEncodeAppend(a, sp + b);
    PercentEncodeAppend(sp, b);
  }

  /** The sample coordinates are used verbatim. */
  lemma DefaultLocation()
    ensures LocationContent(DefaultCoords) == GeoScheme + DefaultCoords
  {
    DefaultCoordsShape();
    LocationCases(DefaultCoords);
  }

  /** A compacted date-time holds no `-` or `:`; absent, it is empty. */
  lemma CompactDateTimeClean(o: Option<string>)
    ensures '-' !in CompactDateTime(o) && ':' !in CompactDateTime(o)
    ensures o.None? ==> CompactDateTime(o) == ""
    ensures o.Some? ==> CompactDateTime(o) == RemoveFirst(RemoveAll(o.value, {'-', ':'}), 'T')
  {
    if o.Some? {
      var s := RemoveAll(o.value, {'-', ':'});
      RemoveAllMembers(o.value, {'-', ':'});
      RemoveFirstMembers(s, 'T');
    }
  }

  /**
   * The date-time input's `<date>T<time>` form: the `T` between date and time goes, and
   * date and time each lose their `-` and `:` separators.
   */
  lemma CompactDateTimeOfInput(date: string, time: string)
    requires 'T' !in date
    ensures CompactDateTime(Some(date + "T" + time)) ==
      RemoveAll(date, {'-', ':'}) + RemoveAll(time, {'-', ':'})
  {
    var drop := {'-', ':'};
    RemoveAllAppend(date, "T", drop);
    RemoveAllAppend(date + "T", time, drop);
    assert RemoveAll("T", drop) == "T";
    RemoveAllMembers(date, drop);
    RemoveFirstAfter(RemoveAll(date, drop), RemoveAll(time, drop), 'T');
  }

  /** The seven lines of a filled-in calendar event. */
  function EventLines(e: EventInfo): seq<string>
    requires Truthy(e.title)
  {
    ["BEGIN:VEVENT", "SUMMARY:" + e.title.value, "DTSTART:" + CompactDateTime(e.start),
     "DTEND:" + CompactDateTime(e.end), "LOCATION:" + OptOrElse(e.location, ""),
     "DESCRIPTION:" + OptOrElse(e.description, ""), "END:VEVENT"]
  }

  /** A filled-in event is its seven lines joined by line feeds. */
  lemma EventJoin(e: EventInfo)
    requires Truthy(e.title)
    ensures Join(EventLines(e), '\n') == EventContent(Some(e))
  {
    var l := EventLines(e);
    JoinSeven(l[0], l[1], l[2], l[3], l[4], l[5], l[6], '\n');
    assert l == [l[0], l[1], l[2], l[3], l[4], l[5], l[6]];
  }

  /**
   * Event: without a title, the sample event; with one, a VEVENT whose lines are BEGIN,
   * SUMMARY, DTSTART, DTEND, LOCATION, DESCRIPTION and END (provided no field holds a
   * line feed).
   */
  lemma EventPayload(d: QRData)
    requires d.kind == "event"
    ensures d.event.None? || !Truthy(d.event.value.title) ==> GenerateQRContent(d) == SampleEvent
    ensures d.event.Some? && Truthy(d.event.value.title) ==>
      var e := d.event.value;
      ('\n' !in e.title.value && '\n' !in CompactDateTime(e.start) && '\n' !in CompactDateTime(e.end) &&
       '\n' !in OptOrElse(e.location, "") && '\n' !in OptOrElse(e.description, "")) ==>
      Split(GenerateQRContent(d), '\n') == EventLines(e)
  {
    assert KindOf(d.kind) == Event;
    assert GenerateQRContent(d) == EventContent(d.event);
    if d.event.Some? && Truthy(d.event.value.title) {
      var e := d.event.value;
      if '\n' !in e.title.value && '\n' !in CompactDateTime(e.start) && '\n' !in CompactDateTime(e.end) &&
         '\n' !in OptOrElse(e.location, "") && '\n' !in OptOrElse(e.description, "") {
        EventSplit(e);
      }
    }
  }

  /** A filled-in event whose fields hold no line feed splits back into its seven lines. */
  lemma EventSplit(e: EventInfo)
    requires Truthy(e.title)
    requires '\n' !in e.title.value && '\n' !in CompactDateTime(e.start) && '\n' !in CompactDateTime(e.end) &&
             '\n' !in OptOrElse(e.location, "") && '\n' !in OptOrElse(e.description, "")
    ensures Split(EventContent(Some(e)), '\n') == EventLines(e)
  {
    var start := CompactDateTime(e.start);
    var end := CompactDateTime(e.end);
    var location := OptOrElse(e.location, "");
    var description := OptOrElse(e.description, "");
    NotInConcat("SUMMARY:", e.title.value, '\n');
    NotInConcat("DTSTART:", start, '\n');
    NotInConcat("DTEND:", end, '\n');
    NotInConcat("LOCATION:", location, '\n');
    NotInConcat("DESCRIPTION:", description, '\n');
    SplitSeven("BEGIN:VEVENT", "SUMMARY:" + e.title.value, "DTSTART:" + start, "DTEND:" + end,
               "LOCATION:" + location, "DESCRIPTION:" + description, "END:VEVENT", '\n');
    EventJoin(e);
  }

  /** Every type with every field empty or absent formats to its documented sample. */
  lemma EmptyFormSamples(d: QRData)
    requires d.content == "" && d.wifi.None? && d.contact.None? && d.event.None?
    ensures KindOf(d.kind) == Url ==> GenerateQRContent(d) == "https://example.com"
    ensures KindOf(d.kind) == Text ==> GenerateQRContent(d) == "Sample text"
    ensures KindOf(d.kind) == Wifi ==> GenerateQRContent(d) == SampleWifi
    ensures KindOf(d.kind) == Contact ==> GenerateQRContent(d) == SampleVCard
    ensures KindOf(d.kind) == Email ==> GenerateQRContent(d) == "mailto:" + "example@example.com"
    ensures KindOf(d.kind) == Phone ==> GenerateQRContent(d) == "tel:" + "+1234567890"
    ensures KindOf(d.kind) == Location ==> GenerateQRContent(d) == GeoScheme + DefaultCoords
    ensures KindOf(d.kind) == Event ==> GenerateQRContent(d) == SampleEvent
    ensures KindOf(d.kind) == Other ==> GenerateQRContent(d) == "https://example.com"
  {
    match KindOf(d.kind)
    case Location => {
      assert OrElse(d.content, DefaultCoords) == DefaultCoords;
      assert GenerateQRContent(d) == LocationContent(DefaultCoords);
      DefaultLocation();
    }
    case Wifi => {
      assert GenerateQRContent(d) == WifiContent(None);
    }
    case Contact => {
      assert GenerateQRContent(d) == VCardContent(None);
    }
    case Event => {
      assert GenerateQRContent(d) == EventContent(None);
    }
    case Email => {
      assert GenerateQRContent(d) == "mailto:" + DefaultEmail;
    }
    case Phone => {
      assert GenerateQRContent(d) == "tel:" + DefaultPhone;
    }
    case _ => {
    }
  }

  /** The page's initial form formats to the sample URL. */
  lemma InitialDataFormats()
    ensures GenerateQRContent(InitialData) == "https://example.com"
  {
    KindOfIds("url");
  }

  // ---------------------------------------------------------------------------
  // Download name and panel state
  // ---------------------------------------------------------------------------

  /** `qr-code-${type}-${Date.now()}.png`, with the clock reading as a parameter. */
  function DownloadFileName(kind: string, timestamp: nat): string {
    "qr-code-" + kind + "-" + NatToString(timestamp) + ".png"
  }

  /** Two downloads of the same type at different instants get different names. */
  lemma DownloadFileNameInjective(kind: string, t1: nat, t2: nat)
    ensures DownloadFileName(kind, t1) == DownloadFileName(kind, t2) ==> t1 == t2
  {
    var n1 := DownloadFileName(kind, t1);
    var n2 := DownloadFileName(kind, t2);
    if n1 == n2 {
      var p := |"qr-code-" + kind + "-"|;
      assert n1[p..|n1| - 4] == NatToString(t1);
      assert n2[p..|n2| - 4] == NatToString(t2);
      NatToStringInjective(t1, t2);
    }
  }

  /** The toast `downloadQR` raises after clicking the link. */
  const DownloadedToast: Toast := Toast("QR Code Downloaded", "Your QR code has been saved to your device.", false)

  /**
   * The panel: `dataUrl` is the last PNG rendering of the preview canvas (empty until
   * one succeeds); `downloads` lists the (file name, href) pairs of the links clicked,
   * `toasts` the notifications raised.
   */
  class Preview {
    var dataUrl: string
    var downloads: seq<(string, string)>
    var toasts: seq<Toast>

    constructor ()
      ensures dataUrl == "" && downloads == [] && toasts == []
    {
      dataUrl := "";
      downloads := [];
      toasts := [];
    }

    /**
     * The render effect: format the form, render it with the user's options and keep the
     * PNG data URL. `render` is the external encoder; `None` is an encoder error, which
     * is only logged and leaves the panel as it was.
     */
    method Render(d: QRData, o: QROptions, render: (string, EncoderOptions) -> Option<string>)
      modifies this
      ensures downloads == old(downloads) && toasts == old(toasts)
      ensures var image := render(GenerateQRContent(d), EncoderOptionsOf(o));
        dataUrl == if image.Some? then image.value else old(dataUrl)
    {
      var content := GenerateQRContent(d);
      var image := render(content, EncoderOptionsOf(o));
      if image.Some? {
        dataUrl := image.value;
      }
    }

    /**
     * `downloadQR`: does nothing before a rendering exists, otherwise clicks one link to
     * the rendering and raises the downloaded toast.
     */
    method DownloadQR(d: QRData, timestamp: nat)
      modifies this
      ensures dataUrl == old(dataUrl)
      ensures dataUrl == "" ==> downloads == old(downloads) && toasts == old(toasts)
      ensures dataUrl != "" ==>
        downloads == old(downloads) + [(DownloadFileName(d.kind, timestamp), dataUrl)] &&
        toasts == old(toasts) + [DownloadedToast]
    {
      if dataUrl == "" {
        return;
      }
      downloads := downloads + [(DownloadFileName(d.kind, timestamp), dataUrl)];
      toasts := toasts + [DownloadedToast];
    }
  }
}
