# Modern QR code generator — a Dafny model of its logic

The application is a single-page React tool that builds QR codes. The user picks one of
eight payload types (URL, text, WiFi, contact, e-mail, phone, location, calendar event)
and fills in a form. A formatter turns the form record into the text handed to an
external QR encoder, and the rendering can be restyled module by module, overlaid with
a logo, exported as PNG, SVG or PDF, or produced in bulk from a CSV file. A dashboard
lists saved codes behind a case-insensitive search.

This project models the part of the program that is its own logic rather than a
library's:

- **The payload formatter `generateQRContent`.** It is modelled in `QRCodePreview`,
  together with the download name and the preview panel's state. The export panel and
  the live canvas each hold a textually identical copy of it. Each copy is written out in
  full in its own module, its WiFi, vCard and event templates and samples included. Each
  copy is proved equal to the preview's formatter for every record, case by case.
- **The JavaScript string built-ins the code relies on (`JsStrings`).** These are `||`
  on strings, `includes`, `trim`, `split`/`join`, `replace`, `toLowerCase`/`toUpperCase`,
  number-to-string and `encodeURIComponent`. Each comes with the lemmas that give it
  meaning: percent-decoding is proved to invert percent-encoding, splitting to invert
  joining, parsing to invert numerals.
- **The export panel (`AdvancedExport`).** It covers file names, the encoder options
  per format, the PDF page, and `handleExport` with its busy flag and toasts.
- **The live canvas (`QRCodeCanvas`).** It covers when the pattern pass runs, the
  logo's geometry over the reals, and the render effect as a sequence of canvas
  commands.
- **The pattern pass `applyPatternStyles` (`QRPatternUtils`).** It is imperative
  Dafny: nested loops over an `array<int>` RGBA buffer paint a fresh `array2<string>`
  canvas. They are proved to produce, pixel for pixel, a specification function, and to
  visit exactly the cells at multiples of the cell size, in row-major order.
- **The batch generator (`BatchGenerator`).** The `for` loop of `processCSV` is the
  method `EncodeBatch`, which grows the archive entry by entry. It is proved to produce
  `ArchiveOf`, a specification function that walks the file's non-blank lines from the
  first on, and the properties of the archive are proved about that function.
- **The form state, its updates and the dashboard.** This covers the type selection, the
  field-update helpers (`QRTypes`, `QRCodeGenerator`) and the dashboard filter and badge
  colours (`Dashboard`).

External services are parameters of the model. These are the QR encoder (`toCanvas`,
`toDataURL`, `toString`), the canvas snapshot, `Date.now()` and the file picker. Each is
a function or value argument, and `None` stands for a thrown error.

Where a simpler reading was possible, the model follows the code:

- `encodeURIComponent` percent-encodes the full UTF-8 form of every character outside
  its unreserved set, not just ASCII.
- `trim` removes exactly ECMAScript's white-space and line-terminator characters.

## Model

| member | source | states |
|---|---|---|
| QRTypes.EncoderOptionsOf | src/components/QRCodePreview.tsx:55-63 | the encoder gets the user's width, margin, colours and error-correction level unchanged |
| QRTypes.QrTypeIdsDistinct | src/pages/Index.tsx:56-65 | there are eight type ids and they are pairwise distinct |
| QRTypes.SelectTypeEffect | src/pages/Index.tsx:93 | selecting a type sets the type, clears the content and keeps the wifi, contact and event records |
| QRTypes.SelectTypeIdempotent | src/pages/Index.tsx:93 | selecting twice is selecting once; reselecting the current type with empty content changes nothing |
| JsStrings.OptOrElseTruthy | src/components/QRCodePreview.tsx:26 | the or-fallback on an optional field is the value when it is set and non-empty, else the fallback |
| JsStrings.IncludesAtSuffix | src/components/QRCodePreview.tsx:36 | `includes` holds exactly when the needle starts some suffix |
| JsStrings.IncludesChar | src/components/QRCodePreview.tsx:36 | a one-character `includes` is membership |
| JsStrings.TrimStartShape | src/components/BatchGenerator.tsx:35 | the leading cut is exactly the leading white space |
| JsStrings.TrimEndShape | src/components/BatchGenerator.tsx:35 | the trailing cut is exactly the trailing white space |
| JsStrings.TrimShape | src/components/BatchGenerator.tsx:35 | `trim` yields the infix left after dropping white space at both ends, with no white space at its edges |
| JsStrings.TrimNoEdges | src/components/BatchGenerator.tsx:39 | a string with no white space at its edges is its own trim |
| JsStrings.TrimIdempotent | src/components/BatchGenerator.tsx:39 | trimming twice is trimming once |
| JsStrings.TrimEmptyIffBlank | src/components/BatchGenerator.tsx:35 | the trim is empty exactly when every character is white space |
| JsStrings.Split | src/components/BatchGenerator.tsx:35 | `split` never returns an empty array |
| JsStrings.JoinSplit | src/components/BatchGenerator.tsx:35 | joining the pieces restores the string, and no piece holds the separator |
| JsStrings.SplitJoin | src/components/BatchGenerator.tsx:35 | splitting a join of separator-free pieces gives the pieces back |
| JsStrings.SplitSeven | src/components/QRCodePreview.tsx:29-42 | seven separator-free pieces split back out of their join |
| JsStrings.SplitPrefix | src/components/BatchGenerator.tsx:35 | a separator-free prefix glues onto the first piece |
| JsStrings.JoinSeven | src/components/QRCodePreview.tsx:29 | the join of seven pieces, written out |
| JsStrings.RemoveAllMembers | src/components/QRCodePreview.tsx:42 | `replace(/[-:]/g, "")` keeps exactly the other characters, in order |
| JsStrings.RemoveAllAppend | src/components/QRCodePreview.tsx:42 | the global removal distributes over concatenation |
| JsStrings.RemoveAllKeeps | src/components/QRCodePreview.tsx:42 | a string without the removed characters is unchanged |
| JsStrings.IndexOf | src/components/QRCodePreview.tsx:42 | the first index of a character, or the length when absent |
| JsStrings.RemoveFirstCuts | src/components/QRCodePreview.tsx:42 | `replace("T", "")` removes the first `T` and only it |
| JsStrings.RemoveFirstAfter | src/components/QRCodePreview.tsx:42 | the removed `T` is the first one |
| JsStrings.LowerOfUpper | src/pages/Dashboard.tsx:75-76 | lower-casing forgets a prior upper-casing |
| JsStrings.UpperCharIffLetter | src/components/AdvancedExport.tsx:106 | `toUpperCase` changes exactly the lower-case letters, each to its capital |
| JsStrings.NatToString | src/components/QRCodePreview.tsx:80 | a numeral is never empty |
| JsStrings.ParseNatToString | src/components/QRCodePreview.tsx:80 | parsing a numeral gives back the number |
| JsStrings.NatToStringInjective | src/components/QRCodePreview.tsx:80 | different numbers have different numerals |
| JsStrings.Utf8 | src/components/QRCodePreview.tsx:39 | one to four bytes per character, each below 256 |
| JsStrings.EscapeBytes | src/components/QRCodePreview.tsx:39 | three characters `%XX` per byte |
| JsStrings.PercentEncodeAppend | src/components/QRCodePreview.tsx:39 | `encodeURIComponent` distributes over concatenation |
| JsStrings.PercentEncodeUnreservedIdentity | src/components/QRCodePreview.tsx:39 | unreserved text is left as it is |
| JsStrings.SpaceEncoding | src/components/QRCodePreview.tsx:39 | a space is encoded as `%20` |
| JsStrings.EscapeBytesAlphabet | src/components/QRCodePreview.tsx:39 | escapes use only `%` and upper-case hex digits |
| JsStrings.HexDigitAlphabet | src/components/QRCodePreview.tsx:39 | a hexadecimal digit of an escape is `0`-`9` or `A`-`F` |
| JsStrings.PercentEncodeAlphabet | src/components/QRCodePreview.tsx:39 | the encoding holds only unreserved characters, `%` and hex digits |
| JsStrings.PercentEncodeNoSpace | src/components/QRCodePreview.tsx:39 | the encoding holds no space |
| JsStrings.DecodeEscape | src/components/QRCodePreview.tsx:39 | decoding one escaped character consumes at least three characters and no more than there are |
| JsStrings.DecodeEncodeChar | src/components/QRCodePreview.tsx:39 | decoding an encoded character gives it back and stops after its escapes |
| JsStrings.PercentRoundTrip | src/components/QRCodePreview.tsx:39 | percent-decoding inverts `encodeURIComponent` for every string |
| JsStrings.PercentEncodeInjective | src/components/QRCodePreview.tsx:39 | different strings encode differently |
| QRCodePreview.WifiContent | src/components/QRCodePreview.tsx:24-26 | the WiFi case is never empty |
| QRCodePreview.VCardContent | src/components/QRCodePreview.tsx:27-29 | the contact case is never empty |
| QRCodePreview.LocationContent | src/components/QRCodePreview.tsx:34-39 | the location case is never empty |
| QRCodePreview.EventContent | src/components/QRCodePreview.tsx:40-42 | the event case is never empty |
| QRCodePreview.GenerateQRContent | src/components/QRCodePreview.tsx:18-46 | the formatter is total and never returns an empty string |
| QRCodePreview.KindOfIds | src/components/QRCodePreview.tsx:19-44 | each of the eight ids selects its own case; every other id falls to the default |
| QRCodePreview.PlainContent | src/components/QRCodePreview.tsx:20-23 | url, text and unknown types pass non-empty content through, else the sample URL or text |
| QRCodePreview.UnknownTypeIsUrl | src/components/QRCodePreview.tsx:43-44 | an unknown type formats exactly as a URL |
| QRCodePreview.WifiPayload | src/components/QRCodePreview.tsx:24-26 | the sample network without an SSID; otherwise `WIFI:T:<security or WPA>;S:<ssid>;P:<password or empty>;;`, unescaped |
| QRCodePreview.WifiFieldsReadBack | src/components/QRCodePreview.tsx:26 | with no `;` in the fields, splitting on `;` gives back security, SSID and password |
| QRCodePreview.VCardJoin | src/components/QRCodePreview.tsx:29 | a filled-in vCard is its seven lines joined by line feeds |
| QRCodePreview.VCardSplit | src/components/QRCodePreview.tsx:29 | a filled-in vCard without line feeds in its fields splits back into its seven lines |
| QRCodePreview.VCardPayload | src/components/QRCodePreview.tsx:27-29 | the sample card without a name; otherwise BEGIN, VERSION, FN, TEL, EMAIL, ORG, END lines, absent fields empty |
| QRCodePreview.SchemePayloads | src/components/QRCodePreview.tsx:30-33 | `mailto:`/`tel:` then the content, or the sample address or number |
| QRCodePreview.LocationCases | src/components/QRCodePreview.tsx:36-39 | a comma and no space gives `geo:` plus the value, anything else the percent-encoded query |
| QRCodePreview.LocationPayload | src/components/QRCodePreview.tsx:34-39 | the location case on the content or the sample coordinates |
| QRCodePreview.LocationRecoverable | src/components/QRCodePreview.tsx:36-39 | a location payload holds no space and the place is recoverable from it, decoding the query form |
| QRCodePreview.DefaultCoordsShape | src/components/QRCodePreview.tsx:35 | the sample coordinates hold a comma and no space |
| QRCodePreview.TwoWordAddress | src/components/QRCodePreview.tsx:39 | a two-word address keeps its words and escapes the space as `%20` |
| QRCodePreview.ThreeWordAddress | src/components/QRCodePreview.tsx:36-39 | a three-word address such as `123 Main St` keeps its words and escapes both spaces: `geo:0,0?q=123%20Main%20St` |
| QRCodePreview.DefaultLocation | src/components/QRCodePreview.tsx:35-37 | the sample coordinates give `geo:40.7128,-74.0060` |
| QRCodePreview.CompactDateTimeClean | src/components/QRCodePreview.tsx:42 | DTSTART/DTEND values hold no `-` or `:`, lose the first `T`, and are empty when absent |
| QRCodePreview.CompactDateTimeOfInput | src/components/QRCodePreview.tsx:42 | a `<date>T<time>` input becomes the date and time without separators, run together |
| QRCodePreview.EventJoin | src/components/QRCodePreview.tsx:42 | a filled-in event is its seven lines joined by line feeds |
| QRCodePreview.EventSplit | src/components/QRCodePreview.tsx:42 | a filled-in event without line feeds in its fields splits back into its seven lines |
| QRCodePreview.EventPayload | src/components/QRCodePreview.tsx:40-42 | the sample event without a title; otherwise BEGIN, SUMMARY, DTSTART, DTEND, LOCATION, DESCRIPTION, END lines |
| QRCodePreview.EmptyFormSamples | src/components/QRCodePreview.tsx:18-46 | every type with an empty form formats to its sample |
| QRCodePreview.InitialDataFormats | src/pages/Index.tsx:43-46 | the initial form formats to `https://example.com` |
| QRCodePreview.DownloadFileNameInjective | src/components/QRCodePreview.tsx:80 | downloads at different instants get different names |
| QRCodePreview.Preview.constructor | src/components/QRCodePreview.tsx:16 | the panel starts without a rendering, downloads or toasts |
| QRCodePreview.Preview.Render | src/components/QRCodePreview.tsx:48-74 | the formatted payload is rendered with the user's options; an encoder error keeps the previous data URL |
| QRCodePreview.Preview.DownloadQR | src/components/QRCodePreview.tsx:76-90 | nothing before a rendering exists, otherwise one link named `qr-code-<type>-<time>.png` and the downloaded toast |
| AdvancedExport.FormatterAgrees | src/components/AdvancedExport.tsx:22-50 | the panel's copy of the formatter equals the preview's for every record |
| AdvancedExport.WifiAgrees | src/components/AdvancedExport.tsx:28-30 | the panel's WiFi template and sample equal the preview's |
| AdvancedExport.ContactAgrees | src/components/AdvancedExport.tsx:31-33 | the panel's vCard template and sample equal the preview's |
| AdvancedExport.EventAgrees | src/components/AdvancedExport.tsx:44-46 | the panel's event template, date-time compaction and sample equal the preview's |
| AdvancedExport.ExportFileNameFormat | src/components/AdvancedExport.tsx:65-108 | the extension names the format, formats never share a name, and PNG matches the preview's name |
| AdvancedExport.PngExportName | src/components/AdvancedExport.tsx:65 | the PNG export's name is the preview's download name |
| AdvancedExport.ExportFileNameInjective | src/components/AdvancedExport.tsx:65-108 | exports at different instants get different names |
| AdvancedExport.RenderOptions | src/components/AdvancedExport.tsx:54-102 | margin, colours and level pass through; width is the user's, but 400 for PDF |
| AdvancedExport.RenderOptionsAgree | src/components/AdvancedExport.tsx:94-102 | PNG and SVG render as the preview does; PDF renders at width 400 whatever width the user chose |
| AdvancedExport.PdfCaptionShape | src/components/AdvancedExport.tsx:106 | the caption is `QR Code - ` then the type upper-cased, letter for letter |
| AdvancedExport.ExportResultShape | src/components/AdvancedExport.tsx:52-109 | an export gives a file of the chosen format under its name, failing exactly when the encoder does; the PDF is captioned at 16 pt |
| AdvancedExport.Exporter.constructor | src/components/AdvancedExport.tsx:19-20 | PNG selected, not exporting |
| AdvancedExport.Exporter.SetExportFormat | src/components/AdvancedExport.tsx:19 | the selector changes only the format |
| AdvancedExport.Exporter.ExportPng | src/components/AdvancedExport.tsx:52-68 | a PNG of the payload at the user's options, or nothing when the encoder fails |
| AdvancedExport.Exporter.ExportSvg | src/components/AdvancedExport.tsx:70-90 | an SVG of the payload at the user's options, or nothing when the encoder fails |
| AdvancedExport.Exporter.ExportPdf | src/components/AdvancedExport.tsx:92-109 | a PDF page with the 400-pixel image, or nothing when the encoder fails |
| AdvancedExport.Exporter.HandleExport | src/components/AdvancedExport.tsx:111-139 | exactly the selected exporter runs, then the success or failure toast; the busy flag is down on both paths |
| QRCodeCanvas.FormatterAgrees | src/components/QRCodeCanvas.tsx:17-45 | the canvas's copy of the formatter equals the preview's for every record |
| QRCodeCanvas.WifiAgrees | src/components/QRCodeCanvas.tsx:23-25 | the canvas's WiFi template and sample equal the preview's |
| QRCodeCanvas.ContactAgrees | src/components/QRCodeCanvas.tsx:26-28 | the canvas's vCard template and sample equal the preview's |
| QRCodeCanvas.EventAgrees | src/components/QRCodeCanvas.tsx:39-41 | the canvas's event template, date-time compaction and sample equal the preview's |
| QRCodeCanvas.ShouldApplyPatternsStyle | src/components/QRCodeCanvas.tsx:69-71 | the pass runs exactly for a set style other than `classic`, and is skipped only where it would draw classic modules |
| QRCodeCanvas.LogoCentred | src/components/QRCodeCanvas.tsx:77-79 | the logo is a square of side `width/5` with equal gaps, `x + size + x = width` on both axes |
| QRCodeCanvas.BackingMargins | src/components/QRCodeCanvas.tsx:82-83 | the white backing reaches 5 px past the logo on every side and stays inside a canvas of 25 px or more |
| QRCodeCanvas.CanvasOpsShape | src/components/QRCodeCanvas.tsx:55-86 | the drawing starts with the preview's payload, has the pattern pass exactly when the guard holds, and the logo last, on its backing |
| QRCodeCanvas.CanvasView.constructor | src/components/QRCodeCanvas.tsx:15 | an empty canvas, nothing emitted |
| QRCodeCanvas.CanvasView.Generate | src/components/QRCodeCanvas.tsx:47-104 | the effect's drawing on each path; the snapshot goes to `onQRGenerated` after the pattern step, or after the logo once it loads |
| QRPatternUtils.StyleOfDefault | src/utils/qrPatternUtils.ts:7 | a missing or empty style id means classic |
| QRPatternUtils.ShapeStyleIds | src/utils/qrPatternUtils.ts:38-93 | each style id selects its own shape |
| QRPatternUtils.ModuleSizeRange | src/utils/qrPatternUtils.ts:22 | the cell side is positive exactly for widths of 25 or more; 5..20 over the slider's 128..512 |
| QRPatternUtils.SampleInBounds | src/utils/qrPatternUtils.ts:27-29 | the clamped sample pixel of a cell inside the canvas lies inside the buffer, all four channels |
| QRPatternUtils.SampleIsRed | src/utils/qrPatternUtils.ts:29 | the sample offset is the red byte of a pixel |
| QRPatternUtils.RedChannelOnly | src/utils/qrPatternUtils.ts:32 | buffers that agree on red bytes restyle identically; green, blue and alpha are ignored |
| QRPatternUtils.PatternPixelColours | src/utils/qrPatternUtils.ts:17-35 | every pixel is foreground or background; light cells stay background |
| QRPatternUtils.ClassicFillsCell | src/utils/qrPatternUtils.ts:91-93 | a dark classic cell paints all of `[x, x+m) x [y, y+m)` inside the canvas |
| QRPatternUtils.AllDarkClassic | src/utils/qrPatternUtils.ts:32-93 | an all-dark image restyled classically is all foreground |
| QRPatternUtils.RowCellsCount | src/utils/qrPatternUtils.ts:25 | a row holds `ceil((width - x)/m)` cells |
| QRPatternUtils.RowCellsMembers | src/utils/qrPatternUtils.ts:25 | a row's cells are the multiples of `m` below the width |
| QRPatternUtils.CellsCount | src/utils/qrPatternUtils.ts:24-25 | the rows from `y` hold that many rows of cells |
| QRPatternUtils.CellsMembers | src/utils/qrPatternUtils.ts:24-25 | the cells from row `y` on are the grid points in the canvas |
| QRPatternUtils.CellOriginsShape | src/utils/qrPatternUtils.ts:24-25 | `ceil(w/m)*ceil(h/m)` cells, exactly the multiples of `m` inside the canvas |
| QRPatternUtils.PaintCell | src/utils/qrPatternUtils.ts:34-93 | a dark cell paints the pixels its shape covers, clipped to the canvas, and nothing else |
| QRPatternUtils.ApplyPatternStyles | src/utils/qrPatternUtils.ts:4-102 | the new canvas is the pixel-wise specification; cells are visited in row-major order; the buffer is only read |
| QRPatternUtils.VisitRow | src/utils/qrPatternUtils.ts:25-96 | one row of cells is painted to specification and nothing else changes |
| QRPatternUtils.VisitCell | src/utils/qrPatternUtils.ts:26-95 | one cell is painted to specification inside its square and every other pixel keeps its colour |
| QRPatternUtils.CellStep | src/utils/qrPatternUtils.ts:32-35 | the specification of a pixel of a dark or light cell |
| BatchGenerator.TrimAll | src/components/BatchGenerator.tsx:39 | one trimmed line per line |
| BatchGenerator.NonBlankMembers | src/components/BatchGenerator.tsx:35 | a line is kept exactly when its trim is non-empty |
| BatchGenerator.NonBlankAppend | src/components/BatchGenerator.tsx:35 | the filter preserves order: it distributes over concatenation |
| BatchGenerator.NonBlankKeepsAll | src/components/BatchGenerator.tsx:35 | lines that are all non-blank pass unchanged |
| BatchGenerator.PayloadsClean | src/components/BatchGenerator.tsx:35-40 | each payload is a kept line trimmed, non-empty, without edge white space, so `if (line)` always holds |
| BatchGenerator.PayloadsRoundTrip | src/components/BatchGenerator.tsx:35-39 | trimmed, non-empty, one-line payloads written one per line are read back exactly |
| BatchGenerator.EntryNameInjective | src/components/BatchGenerator.tsx:51 | entries for different lines get different names |
| BatchGenerator.EmptyFileNoPayloads | src/components/BatchGenerator.tsx:35 | an empty file yields no payload |
| BatchGenerator.ArchiveFromFails | src/components/BatchGenerator.tsx:38-69 | from any line on, a later non-blank line the encoder rejects makes the rest of the loop fail |
| BatchGenerator.ArchiveFailureSticks | src/components/BatchGenerator.tsx:38-69 | one failed encoding abandons the batch |
| BatchGenerator.ArchiveFromShape | src/components/BatchGenerator.tsx:38-53 | from line `i` on, over non-blank lines: the loop finishes exactly when every remaining line encodes, keeps the entries so far and appends one per remaining line, in order |
| BatchGenerator.ArchiveShape | src/components/BatchGenerator.tsx:38-53 | success exactly when every line encodes; then entry i is named `qr-code-<i+1>.png` and holds the image of line i |
| BatchGenerator.ArchiveNamesDistinct | src/components/BatchGenerator.tsx:51 | archive entry names are pairwise distinct |
| BatchGenerator.BatchMatchesPayloads | src/components/BatchGenerator.tsx:35-67 | the archive holds one entry per payload in order, as many as the toast reports, all at the fixed options |
| BatchGenerator.SampleBatch | src/components/BatchGenerator.tsx:82 | the sample file gives its five lines as payloads, named `qr-code-1.png` to `qr-code-5.png` |
| BatchGenerator.SampleNames | src/components/BatchGenerator.tsx:51 | the first five entry names |
| BatchGenerator.SampleCsvJoin | src/components/BatchGenerator.tsx:82 | the sample file is its five lines joined by line feeds |
| BatchGenerator.SampleLinesClean | src/components/BatchGenerator.tsx:82 | the sample lines are trimmed, non-empty and single-line |
| BatchGenerator.EncodeBatch | src/components/BatchGenerator.tsx:38-53 | the loop returns exactly the specified archive, or failure at the first line the encoder rejects |
| BatchGenerator.Batch.constructor | src/components/BatchGenerator.tsx:12-13 | no file, not processing |
| BatchGenerator.Batch.HandleFileChange | src/components/BatchGenerator.tsx:16-27 | a CSV file is kept; no file or another type raises the invalid-type toast |
| BatchGenerator.Batch.ProcessCSV | src/components/BatchGenerator.tsx:29-79 | nothing without a file; else the archive downloads with the count toast, or the error toast; busy flag down on both paths |
| BatchGenerator.Batch.DownloadSampleCSV | src/components/BatchGenerator.tsx:81-92 | one link to `sample-qr-data.csv` holding the sample text |
| QRCodeGenerator.WifiFieldsDetermine | src/pages/Index.tsx:14-18 | a WiFi record is determined by its fields |
| QRCodeGenerator.ContactFieldsDetermine | src/pages/Index.tsx:19-24 | a contact record is determined by its fields |
| QRCodeGenerator.EventFieldsDetermine | src/pages/Index.tsx:25-31 | an event record is determined by its fields |
| QRCodeGenerator.UpdateContentOnly | src/components/QRCodeGenerator.tsx:13-15 | `updateContent` sets the content, changes nothing else, and is undone by writing the old content |
| QRCodeGenerator.UpdateWifiOnly | src/components/QRCodeGenerator.tsx:17-22 | only the named WiFi field changes; an absent record is created holding only that field |
| QRCodeGenerator.UpdateContactOnly | src/components/QRCodeGenerator.tsx:24-29 | only the named contact field changes; an absent record is created holding only that field |
| QRCodeGenerator.UpdateEventOnly | src/components/QRCodeGenerator.tsx:31-36 | only the named event field changes; an absent record is created holding only that field |
| QRCodeGenerator.UpdateLastWins | src/components/QRCodeGenerator.tsx:17-36 | writing a field twice keeps only the second value |
| QRCodeGenerator.InputsEcho | src/components/QRCodeGenerator.tsx:78-253 | each input shows what was typed into it; the security select shows `WPA` when empty |
| QRCodeGenerator.SecurityShownIsFormatted | src/components/QRCodeGenerator.tsx:96 | the security select shows what the formatter writes after `T:` |
| QRCodeGenerator.ContactInputsFormatted | src/components/QRCodeGenerator.tsx:118-151 | a contact with a typed name formats to a vCard whose lines show the inputs' values |
| Dashboard.FilterIsSubsequence | src/pages/Dashboard.tsx:74-77 | the filtered list is an order-preserving subsequence of the saved list |
| Dashboard.FilterMembers | src/pages/Dashboard.tsx:74-77 | a code is listed exactly when its lower-cased title or content contains the lower-cased query |
| Dashboard.FilterAppend | src/pages/Dashboard.tsx:74-77 | the filter works item by item |
| Dashboard.FilterKeepsAll | src/pages/Dashboard.tsx:74-77 | when every code matches the list is kept whole |
| Dashboard.EmptyQueryKeepsAll | src/pages/Dashboard.tsx:74-77 | an empty query keeps every code |
| Dashboard.SameLowerSameResult | src/pages/Dashboard.tsx:75-76 | queries that lower-case alike select the same codes |
| Dashboard.FilterIgnoresCase | src/pages/Dashboard.tsx:75-76 | a query, its upper-cased and its lower-cased form give the same list |
| Dashboard.EmptyStateIffNoMatch | src/pages/Dashboard.tsx:221 | "No QR codes found" shows exactly when no code matches |
| Dashboard.TypeColorClasses | src/pages/Dashboard.tsx:79-86 | URL, VCARD and WIFI get three distinct badges; every other type the gray one |

## Left out

- QR symbol encoding and image rendering are external library calls. `toCanvas`, `toDataURL` and `toString` are function parameters returning `None` on a thrown error, and the canvas snapshot is a function of the commands drawn.
- jsPDF and JSZip internals are left out. The PDF page is a record of its caption and image box, and the archive is a list of (name, base64 data) pairs.
- Downloads are left out. Anchor clicks are recorded as appended list entries, and `URL.createObjectURL`, blobs and base64 decoding are not modelled.
- Copy to clipboard and the share action of the preview panel use browser APIs and are not modelled.
- `async`/`await` ordering, React state batching and effect re-runs are not modelled: each handler runs to completion as one method. The logo's `onload` callback is the `logoLoads` parameter of `QRCodeCanvas.CanvasView.Generate`.
- `Date.now()` is a `timestamp` parameter of natural numbers.
- Reading the CSV file's text is taken to succeed. The file's MIME type is a value the caller supplies.
- `BatchGenerator.Base64Part`: a data URL without a comma gives `""`, where the source passes `undefined` to JSZip. The encoder's PNG data URLs always contain a comma.
- `JsStrings.LowerChar`, `JsStrings.UpperChar`: case mapping covers ASCII letters only. Full Unicode case mapping is not modelled.
- `QRPatternUtils.PaintCell`: the curved and fractional shapes (arcs, ellipses, rounded rectangles, the 0.3/0.4/0.8 sizes, the sine wave) are floating-point canvas geometry. They are abstracted as a `covers` predicate, and only the pixels inside the cell that it selects are painted. The fluid style's wave offset of up to 2 pixels can paint just outside its cell in the source; the model does not capture that bleed.
- `QRPatternUtils.ApplyPatternStyles` requires `width >= 25`. With a smaller width the cell side is 0 and the source's loops never advance. The size slider's minimum of 128 satisfies the requirement.
- Canvas anti-aliasing and the `clearRect`/`drawImage` copy-back are not modelled: the method's result is the new image.
- The literal examples are proved in general form to keep the proofs small. "123 Main St" is covered by `QRCodePreview.ThreeWordAddress`, and "2024-06-01T10:30" by `QRCodePreview.CompactDateTimeOfInput`.
- `QRCodeGenerator.UpdateWifi`, `UpdateContact` and `UpdateEvent` take the field as an enumeration. The source accepts any string key, but every caller passes one of the record's own field names.
- The dashboard's mock data, its statistics, the type selector and the random placeholder grid are static markup and are not modelled.
- Presentation-only components are not part of this model. These are the header, footer, hero, plans, FAQ, templates, customisation and pattern pickers, the logo upload and the dark-mode toggle.
