/**
 * The batch panel (src/components/BatchGenerator.tsx): a CSV file holds one payload per
 * line; `processCSV` keeps the lines that are not blank, renders each with fixed encoder
 * options and collects the images in a ZIP archive named `qr-code-{i+1}.png` entry by
 * entry, then offers the archive for download and reports the count in a toast.
 */
module BatchGenerator {
  import opened Wrappers
  import opened JsStrings
  import opened QRTypes

  // ---------------------------------------------------------------------------
  // The lines of the file
  // ---------------------------------------------------------------------------

  /** `lines.filter(line => line.trim())`: the lines whose trim is not empty. */
  function NonBlank(lines: seq<string>): seq<string>
    decreases |lines|
  {
    if lines == [] then []
    else (if Trim(lines[0]) != "" then [lines[0]] else []) + NonBlank(lines[1..])
  }

  /** `text.split('\n').filter(line => line.trim())`. */
  function Lines(text: string): seq<string> {
    NonBlank(Split(text, '\n'))
  }

  /** Each line trimmed, in order: the payloads the loop encodes. */
  function TrimAll(lines: seq<string>): (r: seq<string>)
    ensures |r| == |lines|
  {
    seq(|lines|, i requires 0 <= i < |lines| => Trim(lines[i]))
  }

  function Payloads(text: string): seq<string> {
    TrimAll(Lines(text))
  }

  /** A line is kept exactly when it is a line of the input whose trim is not empty. */
  lemma {:induction false} NonBlankMembers(lines: seq<string>, x: string)
    ensures x in NonBlank(lines) <==> x in lines && Trim(x) != ""
    decreases |lines|
  {
    if lines != [] {
      NonBlankMembers(lines[1..], x);
      assert lines == [lines[0]] + lines[1..];
    }
  }

  /** The filter keeps the order of the lines: it distributes over concatenation. */
  lemma {:induction false} NonBlankAppend(a: seq<string>, b: seq<string>)
    ensures NonBlank(a + b) == NonBlank(a) + NonBlank(b)
    decreases |a|
  {
    if a == [] {
      assert a + b == b;
    } else {
      var head: seq<string> := if Trim(a[0]) != "" then [a[0]] else [];
      NonBlankAppend(a[1..], b);
      assert (a + b)[1..] == a[1..] + b;
      calc {
        NonBlank(a + b);
        head + NonBlank(a[1..] + b);
        head + (NonBlank(a[1..]) + NonBlank(b));
        (head + NonBlank(a[1..])) + NonBlank(b);
      }
    }
  }

  /** A list without blank lines passes the filter unchanged. */
  lemma {:induction false} NonBlankKeepsAll(lines: seq<string>)
    requires forall i | 0 <= i < |lines| :: Trim(lines[i]) != ""
    ensures NonBlank(lines) == lines
    decreases |lines|
  {
    if lines != [] {
      NonBlankKeepsAll(lines[1..]);
      assert lines == [lines[0]] + lines[1..];
    }
  }

  /**
   * Every payload is the trim of the line at the same position, is not empty and has
   * no white space at either end; trimming it again changes nothing, so the loop's
   * `if (line)` test never fails.
   */
  lemma PayloadsClean(text: string)
    ensures var lines := Lines(text); var ps := Payloads(text);
      |ps| == |lines| &&
      forall i | 0 <= i < |ps| ::
        ps[i] == Trim(lines[i]) && lines[i] in Split(text, '\n') &&
        ps[i] != "" && Trim(ps[i]) == ps[i] &&
        !IsJsWhiteSpace(ps[i][0]) && !IsJsWhiteSpace(ps[i][|ps[i]| - 1])
  {
    var lines := Lines(text);
    forall i | 0 <= i < |lines|
      ensures lines[i] in Split(text, '\n') && Trim(lines[i]) != ""
      ensures !IsJsWhiteSpace(Trim(lines[i])[0]) && !IsJsWhiteSpace(Trim(lines[i])[|Trim(lines[i])| - 1])
      ensures Trim(Trim(lines[i])) == Trim(lines[i])
    {
      NonBlankMembers(Split(text, '\n'), lines[i]);
      TrimmedLineClean(lines[i]);
    }
  }

  /** The trim of a line that is not blank has no white space at either end. */
  lemma TrimmedLineClean(line: string)
    requires Trim(line) != ""
    ensures var t := Trim(line);
      !IsJsWhiteSpace(t[0]) && !IsJsWhiteSpace(t[|t| - 1]) && Trim(t) == t
  {
    TrimShape(line);
    TrimIdempotent(line);
  }

  /**
   * Writing trimmed, non-empty payloads without line feeds one per line gives a file
   * whose payloads are exactly those, in order.
   */
  lemma PayloadsRoundTrip(ps: seq<string>)
    requires forall i | 0 <= i < |ps| :: ps[i] != "" && Trim(ps[i]) == ps[i] && '\n' !in ps[i]
    ensures Payloads(Join(ps, '\n')) == ps
  {
    if ps == [] {
      assert Join(ps, '\n') == "";
      EmptyFileNoPayloads();
    } else {
      SplitJoin(ps, '\n');
      NonBlankKeepsAll(ps);
      TrimAllKeeps(ps);
    }
  }

  /** An empty file holds no payload. */
  lemma EmptyFileNoPayloads()
    ensures Payloads("") == []
  {
    assert Split("", '\n') == [""];
    assert Trim("") == "";
    assert NonBlank([""]) == [];
  }

  /** Lines that are already trimmed are their own payloads. */
  lemma TrimAllKeeps(lines: seq<string>)
    requires forall i | 0 <= i < |lines| :: Trim(lines[i]) == lines[i]
    ensures TrimAll(lines) == lines
  {
  }

  // ---------------------------------------------------------------------------
  // The archive
  // ---------------------------------------------------------------------------

  /** The name of the entry written for the line at 0-based position `i`. */
  function EntryName(i: nat): string {
    "qr-code-" + NatToString(i + 1) + ".png"
  }

  /** Entries for different lines get different names. */
  lemma EntryNameInjective(i: nat, j: nat)
    ensures EntryName(i) == EntryName(j) <==> i == j
  {
    if EntryName(i) == EntryName(j) {
      var a := NatToString(i + 1);
      var b := NatToString(j + 1);
      assert |a| == |b|;
      assert a == EntryName(i)[8..8 + |a|];
      assert b == EntryName(j)[8..8 + |b|];
      NatToStringInjective(i + 1, j + 1);
    }
  }

  /** The options of every batch image: 512 pixels, margin 2, black on white. */
  const BatchOptions: EncoderOptions := EncoderOptions(512, 2, "#000000", "#FFFFFF", None)

  /** `qrDataURL.split(',')[1]`: the base64 data after the comma (`""` stands for `undefined`). */
  function Base64Part(url: string): string {
    var parts := Split(url, ',');
    if |parts| >= 2 then parts[1] else ""
  }

  /**
   * The `for` loop from line `i` on, with `entries` already in the archive: a blank line
   * is skipped, an encoded line adds its entry, and `None` once one call throws, which
   * abandons the whole batch.
   */
  function ArchiveFrom(lines: seq<string>, i: nat, entries: seq<(string, string)>,
                       enc: (string, EncoderOptions) -> Option<string>): Option<seq<(string, string)>>
    decreases |lines| - i
  {
    if i >= |lines| then Some(entries)
    else
      var line := Trim(lines[i]);
      if line == "" then ArchiveFrom(lines, i + 1, entries, enc)
      else
        match enc(line, BatchOptions)
        case None => None
        case Some(url) => ArchiveFrom(lines, i + 1, entries + [(EntryName(i), Base64Part(url))], enc)
  }

  /** The archive of the whole batch: the loop from the first line with an empty archive. */
  function ArchiveOf(lines: seq<string>, enc: (string, EncoderOptions) -> Option<string>): Option<seq<(string, string)>> {
    ArchiveFrom(lines, 0, [], enc)
  }

  /** One line that the encoder rejects abandons the batch, whatever the other lines hold. */
  lemma {:induction false} ArchiveFromFails(lines: seq<string>, i: nat, j: nat, entries: seq<(string, string)>,
                                            enc: (string, EncoderOptions) -> Option<string>)
    requires i <= j < |lines| && Trim(lines[j]) != "" && enc(Trim(lines[j]), BatchOptions).None?
    ensures ArchiveFrom(lines, i, entries, enc).None?
    decreases j - i
  {
    if i < j {
      var line := Trim(lines[i]);
      if line == "" {
        ArchiveFromFails(lines, i + 1, j, entries, enc);
      } else if enc(line, BatchOptions).Some? {
        ArchiveFromFails(lines, i + 1, j, entries + [(EntryName(i), Base64Part(enc(line, BatchOptions).value))], enc);
      }
    }
  }

  /** A failed encoding fails the whole batch. */
  lemma ArchiveFailureSticks(lines: seq<string>, j: nat, enc: (string, EncoderOptions) -> Option<string>)
    requires j < |lines| && Trim(lines[j]) != "" && enc(Trim(lines[j]), BatchOptions).None?
    ensures ArchiveOf(lines, enc).None?
  {
    ArchiveFromFails(lines, 0, j, [], enc);
  }

  /**
   * From line `i` on, over lines that are not blank: the loop finishes exactly when
   * every remaining line encodes, and then appends one entry per remaining line, in order.
   */
  lemma {:induction false} ArchiveFromShape(lines: seq<string>, i: nat, entries: seq<(string, string)>,
                                            enc: (string, EncoderOptions) -> Option<string>)
    requires i <= |lines|
    requires forall k | 0 <= k < |lines| :: Trim(lines[k]) != ""
    ensures ArchiveFrom(lines, i, entries, enc).Some? <==>
      forall k | i <= k < |lines| :: enc(Trim(lines[k]), BatchOptions).Some?
    ensures ArchiveFrom(lines, i, entries, enc).Some? ==>
      var es := ArchiveFrom(lines, i, entries, enc).value;
      |es| == |entries| + (|lines| - i) && es[..|entries|] == entries &&
      forall k | i <= k < |lines| ::
        es[|entries| + (k - i)] == (EntryName(k), Base64Part(enc(Trim(lines[k]), BatchOptions).value))
    decreases |lines| - i
  {
    if i < |lines| {
      var line := Trim(lines[i]);
      if enc(line, BatchOptions).None? {
        assert ArchiveFrom(lines, i, entries, enc).None?;
      } else {
        var e2 := entries + [(EntryName(i), Base64Part(enc(line, BatchOptions).value))];
        ArchiveFromShape(lines, i + 1, e2, enc);
        assert ArchiveFrom(lines, i, entries, enc) == ArchiveFrom(lines, i + 1, e2, enc);
        if ArchiveFrom(lines, i + 1, e2, enc).Some? {
          var es := ArchiveFrom(lines, i + 1, e2, enc).value;
          assert es[..|e2|] == e2;
          assert es[..|entries|] == es[..|e2|][..|entries|];
          assert es[|entries|] == es[..|e2|][|entries|];
          forall k | i < k < |lines|
            ensures es[|entries| + (k - i)] == (EntryName(k), Base64Part(enc(Trim(lines[k]), BatchOptions).value))
          {
            assert |entries| + (k - i) == |e2| + (k - (i + 1));
          }
        }
      }
    }
  }

  /**
   * Over lines that are not blank, the batch succeeds exactly when the encoder accepts
   * every trimmed line; then it holds one entry per line, in order, the i-th named
   * `qr-code-{i+1}.png` and holding the image of the i-th line.
   */
  lemma ArchiveShape(lines: seq<string>, enc: (string, EncoderOptions) -> Option<string>)
    requires forall i | 0 <= i < |lines| :: Trim(lines[i]) != ""
    ensures ArchiveOf(lines, enc).Some? <==>
      forall i | 0 <= i < |lines| :: enc(Trim(lines[i]), BatchOptions).Some?
    ensures ArchiveOf(lines, enc).Some? ==>
      var es := ArchiveOf(lines, enc).value;
      |es| == |lines| &&
      forall i | 0 <= i < |lines| ::
        es[i] == (EntryName(i), Base64Part(enc(Trim(lines[i]), BatchOptions).value))
  {
    var none: seq<(string, string)> := [];
    ArchiveFromShape(lines, 0, none, enc);
    var r := ArchiveFrom(lines, 0, none, enc);
    assert ArchiveOf(lines, enc) == r;
    if r.Some? {
      forall i | 0 <= i < |lines|
        ensures r.value[i] == (EntryName(i), Base64Part(enc(Trim(lines[i]), BatchOptions).value))
      {
        assert |none| + (i - 0) == i;
      }
    }
  }

  /** Names in a finished archive are pairwise distinct. */
  lemma ArchiveNamesDistinct(lines: seq<string>, enc: (string, EncoderOptions) -> Option<string>)
    requires forall i | 0 <= i < |lines| :: Trim(lines[i]) != ""
    requires ArchiveOf(lines, enc).Some?
    ensures var es := ArchiveOf(lines, enc).value;
      forall i, j | 0 <= i < j < |es| :: es[i].0 != es[j].0
  {
    ArchiveShape(lines, enc);
    var es := ArchiveOf(lines, enc).value;
    forall i, j | 0 <= i < j < |es|
      ensures es[i].0 != es[j].0
    {
      EntryNameInjective(i, j);
    }
  }

  // ---------------------------------------------------------------------------
  // The sample file
  // ---------------------------------------------------------------------------

  /** The payloads of `downloadSampleCSV`'s file, in file order. */
  const SampleLines: seq<string> := ["https://example.com", "https://google.com", "https://github.com", "Hello World", "+1234567890"]

  /** The sample file's text. */
  const SampleCsv: string :=
    "https://example.com" + "\n" + "https://google.com" + "\n" + "https://github.com" + "\n" +
    "Hello World" + "\n" + "+1234567890"

  /** The sample file yields five payloads, its lines in order, named `qr-code-1.png` to `qr-code-5.png`. */
  lemma SampleBatch()
    ensures Payloads(SampleCsv) == SampleLines
    ensures [EntryName(0), EntryName(1), EntryName(2), EntryName(3), EntryName(4)] ==
      ["qr-code-1.png", "qr-code-2.png", "qr-code-3.png", "qr-code-4.png", "qr-code-5.png"]
  {
    SampleNames();
    SampleCsvJoin();
    SampleLinesClean();
    PayloadsRoundTrip(SampleLines);
  }

  /** The first five entry names. */
  lemma SampleNames()
    ensures EntryName(0) == "qr-code-1.png" && EntryName(1) == "qr-code-2.png" &&
            EntryName(2) == "qr-code-3.png" && EntryName(3) == "qr-code-4.png" && EntryName(4) == "qr-code-5.png"
  {
    assert NatToString(1) == "1" && NatToString(2) == "2" && NatToString(3) == "3";
    assert NatToString(4) == "4" && NatToString(5) == "5";
  }

  /** The sample file is its lines joined by line feeds. */
  lemma SampleCsvJoin()
    ensures SampleCsv == Join(SampleLines, '\n')
  {
    JoinFive(SampleLines[0], SampleLines[1], SampleLines[2], SampleLines[3], SampleLines[4], '\n');
  }

  /** The sample lines are trimmed, not empty and without line feeds. */
  lemma SampleLinesClean()
    ensures forall i | 0 <= i < |SampleLines| ::
      SampleLines[i] != "" && Trim(SampleLines[i]) == SampleLines[i] && '\n' !in SampleLines[i]
  {
    forall i | 0 <= i < |SampleLines|
      ensures SampleLines[i] != "" && Trim(SampleLines[i]) == SampleLines[i] && '\n' !in SampleLines[i]
    {
      TrimNoEdges(SampleLines[i]);
    }
  }

  // ---------------------------------------------------------------------------
  // The panel
  // ---------------------------------------------------------------------------

  /** A link the panel clicked: the ZIP archive, or the sample CSV file. */
  datatype Download =
    | ZipDownload(name: string, entries: seq<(string, string)>)
    | TextDownload(name: string, text: string)

  const ZipName: string := "qr-codes-batch.zip"
  const SampleName: string := "sample-qr-data.csv"

  const InvalidFileToast: Toast := Toast("Invalid file type", "Please upload a CSV file.", true)
  const ErrorToast: Toast := Toast("Error processing CSV", "Please check your CSV format and try again.", true)

  function SuccessToast(count: nat): Toast {
    Toast("Batch generated successfully", "Generated " + NatToString(count) + " QR codes.", false)
  }

  /**
   * The `for` loop of `processCSV`: each non-blank line is trimmed and encoded and its
   * image added to the archive under `qr-code-{i+1}.png`; the first line the encoder
   * rejects abandons the loop. The outcome is the archive `ArchiveOf` describes.
   */
  method EncodeBatch(lines: seq<string>, enc: (string, EncoderOptions) -> Option<string>)
    returns (r: Option<seq<(string, string)>>)
    ensures r == ArchiveOf(lines, enc)
  {
    var zip: seq<(string, string)> := [];
    var i := 0;
    while i < |lines|
      invariant 0 <= i <= |lines|
      invariant ArchiveFrom(lines, i, zip, enc) == ArchiveOf(lines, enc)
    {
      var line := Trim(lines[i]);
      if line != "" {
        var url := enc(line, BatchOptions);
        if url.None? {
          return None;
        }
        zip := zip + [(EntryName(i), Base64Part(url.value))];
      }
      i := i + 1;
    }
    return Some(zip);
  }

  /**
   * The panel's state: `csvFile` is the text of the chosen file, `downloads` the links
   * clicked, `toasts` the notifications raised.
   */
  class Batch {
    var csvFile: Option<string>
    var isProcessing: bool
    var downloads: seq<Download>
    var toasts: seq<Toast>

    constructor ()
      ensures csvFile == None && !isProcessing && downloads == [] && toasts == []
    {
      csvFile := None;
      isProcessing := false;
      downloads := [];
      toasts := [];
    }

    /**
     * `handleFileChange`: `file` is the first selected file as its MIME type and text,
     * if any. A CSV file is kept; anything else raises the invalid-type toast.
     */
    method HandleFileChange(file: Option<(string, string)>)
      modifies this
      ensures isProcessing == old(isProcessing) && downloads == old(downloads)
      ensures file.Some? && file.value.0 == "text/csv" ==>
        csvFile == Some(file.value.1) && toasts == old(toasts)
      ensures !(file.Some? && file.value.0 == "text/csv") ==>
        csvFile == old(csvFile) && toasts == old(toasts) + [InvalidFileToast]
    {
      if file.Some? && file.value.0 == "text/csv" {
        csvFile := Some(file.value.1);
      } else {
        toasts := toasts + [InvalidFileToast];
      }
    }

    /**
     * `processCSV`. `enc` is the encoder's `toDataURL`; `None` is a thrown error, which
     * abandons the batch and raises the error toast. Without a file nothing happens;
     * otherwise the busy flag is cleared on both paths.
     */
    method ProcessCSV(enc: (string, EncoderOptions) -> Option<string>)
      modifies this
      ensures csvFile == old(csvFile)
      ensures isProcessing == (old(isProcessing) && old(csvFile).None?)
      ensures old(csvFile).None? ==> downloads == old(downloads) && toasts == old(toasts)
      ensures old(csvFile).Some? ==>
        var lines := Lines(old(csvFile).value);
        var r := ArchiveOf(lines, enc);
        downloads == old(downloads) + (if r.Some? then [ZipDownload(ZipName, r.value)] else []) &&
        toasts == old(toasts) + [if r.Some? then SuccessToast(|lines|) else ErrorToast]
    {
      if csvFile.None? {
        return;
      }
      isProcessing := true;
      var lines := Lines(csvFile.value);
      var zip := EncodeBatch(lines, enc);
      if zip.None? {
        toasts := toasts + [ErrorToast];
      } else {
        downloads := downloads + [ZipDownload(ZipName, zip.value)];
        toasts := toasts + [SuccessToast(|lines|)];
      }
      isProcessing := false;
    }

    /** `downloadSampleCSV`: clicks one link to the sample file. */
    method DownloadSampleCSV()
      modifies this
      ensures csvFile == old(csvFile) && isProcessing == old(isProcessing) && toasts == old(toasts)
      ensures downloads == old(downloads) + [TextDownload(SampleName, SampleCsv)]
    {
      downloads := downloads + [TextDownload(SampleName, SampleCsv)];
    }
  }

  /**
   * A finished batch holds one entry per payload of the file, in order and with
   * distinct names, and the success toast reports that number.
   */
  lemma BatchMatchesPayloads(text: string, enc: (string, EncoderOptions) -> Option<string>)
    ensures var r := ArchiveOf(Lines(text), enc); var ps := Payloads(text);
      (r.Some? <==> forall i | 0 <= i < |ps| :: enc(ps[i], BatchOptions).Some?) &&
      (r.Some? ==>
        |r.value| == |ps| == |Lines(text)| &&
        forall i | 0 <= i < |ps| :: r.value[i] == (EntryName(i), Base64Part(enc(ps[i], BatchOptions).value)))
  {
    PayloadsClean(text);
    ArchiveShape(Lines(text), enc);
  }
}
