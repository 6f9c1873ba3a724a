/**
 * The command-line entry point: an invoice image read from a local path
 * is sent to the model and the reply is parsed as JSON.
 */
module Local {
  import opened Wrappers
  import opened JsonValue
  import opened PyStr
  import opened PyExc
  import opened PathLib
  import opened Gemini
  import opened Reply

  /**
   * The filesystem as the program sees it: the set of existing paths, in
   * their `str(Path(...))` form, and what reading the bytes of one gives
   * (reading a directory or an unreadable file fails with a message).
   */
  datatype FileSystem = FileSystem(existing: set<string>, readBytes: string -> Result<seq<byte>, string>)

  /** The external calls: the model, which answers an image part with text, and `json.loads`. */
  datatype Services = Services(generate: ImagePart -> Result<string, string>, loads: string -> Result<Json, string>)

  /** The three lines typed at the prompts: the image path, the save answer and the file name. */
  datatype Console = Console(pathLine: string, saveAnswer: string, fileNameLine: string)

  /** What `process_invoice` prints and what it returns or raises. */
  datatype InvoiceRun = InvoiceRun(printed: seq<string>, result: Result<Json, Exc>)

  /** What `main` prints, the output file it settles on, and the outcome of `process_invoice` if it ran. */
  datatype MainRun = MainRun(printed: seq<string>, outputFile: Option<string>, result: Option<Result<Json, Exc>>)

  const DefaultMime: string := "image/jpeg"
  const MimeTable: map<string, string> :=
    map[".jpg" := "image/jpeg", ".jpeg" := "image/jpeg", ".png" := "image/png", ".webp" := "image/webp"]
  const ErrorPrefix: string := "Error processing image: "
  const DefaultOutputFile: string := "invoice_data.txt"

  /** `Path(path).exists()`: the check is made on the normalised path. */
  predicate Exists(fs: FileSystem, path: string) {
    PathStr(path) in fs.existing
  }

  /** The extension table: an extension outside it falls back to "image/jpeg". */
  function MimeForExtension(ext: string): (r: string)
    ensures r in {"image/jpeg", "image/png", "image/webp"}
    ensures r == "image/png" <==> ext == ".png"
    ensures r == "image/webp" <==> ext == ".webp"
    ensures r == "image/jpeg" <==> ext != ".png" && ext != ".webp"
  {
    if ext in MimeTable then MimeTable[ext] else DefaultMime
  }

  /** The MIME type of an image path: the table entry of its lower-cased suffix. */
  function MimeFor(path: string): (r: string)
    ensures r in {"image/jpeg", "image/png", "image/webp"}
  {
    MimeForExtension(Lower(Suffix(path)))
  }

  /** The lookup ignores case: an upper-case ".PNG" is a PNG image. */
  lemma MimeForUpperCase(path: string, stem: string)
    requires Name(path) == stem + ".PNG" && stem != ""
    ensures MimeFor(path) == "image/png"
  {
    assert Suffix(path) == ".PNG" by {
      assert "." + "PNG" == ".PNG";
      ConcatAssoc(stem, ".", "PNG");
      SuffixOfName(path, stem, "PNG");
    }
    LowerPng();
  }

  lemma LowerPng()
    ensures Lower(".PNG") == ".png"
  {
    var l := Lower(".PNG");
    assert l[0] == '.' && l[1] == 'p' && l[2] == 'n' && l[3] == 'g';
  }

  /** ".jpg" and ".jpeg", in any case, are JPEG images. */
  lemma MimeForJpeg(path: string, stem: string, ext: string)
    requires Name(path) == stem + "." + ext && stem != ""
    requires Lower(ext) == "jpg" || Lower(ext) == "jpeg"
    ensures MimeFor(path) == "image/jpeg"
  {
    assert '.' !in ext by {
      forall k | 0 <= k < |ext|
        ensures ext[k] != '.'
      {
        assert Lower(ext)[k] == LowerChar(ext[k]) != '.';
      }
    }
    assert Suffix(path) == "." + ext by {
      SuffixOfName(path, stem, ext);
    }
    assert LowerChar(ext[0]) == Lower(ext)[0] == 'j';
    JSuffix(Suffix(path), ext);
  }

  /** A suffix whose first letter lowers to 'j' is looked up as a JPEG image. */
  lemma JSuffix(suffix: string, ext: string)
    requires suffix == "." + ext && ext != [] && LowerChar(ext[0]) == 'j'
    ensures MimeForExtension(Lower(suffix)) == "image/jpeg"
  {
    var lowered := Lower(suffix);
    assert lowered[1] == LowerChar(suffix[1]) == LowerChar(ext[0]);
    JExtension(lowered);
  }

  /** No extension of the table other than the JPEG ones has a 'j' after its dot. */
  lemma JExtension(e: string)
    requires |e| >= 2 && e[1] == 'j'
    ensures MimeForExtension(e) == "image/jpeg"
  {
    assert e != ".png" && e != ".webp";
  }

  /** A hidden file named ".png" has no suffix, so it is taken for a JPEG image. */
  lemma MimeForHiddenFile(path: string)
    requires Name(path) == ".png"
    ensures MimeFor(path) == "image/jpeg"
  {
    assert ".png" == "." + "png";
    HiddenNameHasNoSuffix(path, "png");
  }

  /** A file "<stem>.PNG" typed with a trailing slash is still found and still a PNG image. */
  lemma MimeForTrailingSlash(stem: string)
    requires stem != "" && Sep !in stem
    ensures MimeFor(stem + ".PNG/") == "image/png"
    ensures PathStr(stem + ".PNG/") == stem + ".PNG"
  {
    var p := stem + ".PNG";
    assert Sep !in p by {
      assert forall k :: |stem| <= k < |p| ==> p[k] == ".PNG"[k - |stem|];
    }
    assert p + [Sep] == stem + ".PNG/";
    TrailingSepIgnored(p);
    PlainName(p);
    MimeForUpperCase(p + [Sep], stem);
  }

  /** `image_format`: the existence check comes first, then the bytes are read. */
  function ImageFormat(path: string, fs: FileSystem): (r: Result<ImagePart, Exc>)
    ensures (r.Failure? && r.error.cls == FileNotFoundError) <==> !Exists(fs, path)
    ensures !Exists(fs, path) ==> r.error.msg == "Could not find image: " + PathStr(path)
    ensures r.Failure? ==> IsSubclass(r.error.cls, OSError)
    ensures r.Success? <==> Exists(fs, path) && fs.readBytes(PathStr(path)).Success?
    ensures r.Success? ==> r.value.mimeType == JString(MimeFor(path))
    ensures r.Success? ==> fs.readBytes(PathStr(path)) == Success(r.value.data)
  {
    var img := PathStr(path);
    if img !in fs.existing then
      Failure(Exc(FileNotFoundError, "Could not find image: " + img))
    else
      match fs.readBytes(img)
      case Failure(m) => Failure(Exc(OSError, m))
      case Success(data) => Success(ImagePart(JString(MimeFor(path)), data))
  }

  /** A missing file is reported without its bytes being read: the read function is never consulted. */
  lemma ImageFormatMissingReadsNothing(path: string, existing: set<string>,
                                       read1: string -> Result<seq<byte>, string>,
                                       read2: string -> Result<seq<byte>, string>)
    requires PathStr(path) !in existing
    ensures ImageFormat(path, FileSystem(existing, read1)) == ImageFormat(path, FileSystem(existing, read2))
    ensures ImageFormat(path, FileSystem(existing, read1)).Failure?
  {
  }

  /** `gemini_output`: never raises; every failure becomes a text starting "Error processing image: ". */
  function GeminiOutput(path: string, fs: FileSystem, generate: ImagePart -> Result<string, string>): (r: string)
    ensures !Exists(fs, path) ==> r == ErrorPrefix + "Could not find image: " + PathStr(path)
    ensures ImageFormat(path, fs).Success? && generate(ImageFormat(path, fs).value).Success? ==>
              r == generate(ImageFormat(path, fs).value).value
    ensures ImageFormat(path, fs).Failure? || generate(ImageFormat(path, fs).value).Failure? ==>
              StartsWith(r, ErrorPrefix)
  {
    match ImageFormat(path, fs)
    case Failure(e) => ErrorPrefix + e.msg
    case Success(part) =>
      match generate(part)
      case Failure(m) => ErrorPrefix + m
      case Success(text) => text
  }

  /**
   * `process_invoice`: the reply (or the error text standing in for it)
   * is cleaned and parsed; the only exception that escapes is the
   * `ValueError` of a failed parse. The output file is accepted and unused.
   */
  function ProcessInvoice(path: string, outputFile: Option<string>, fs: FileSystem, svc: Services): (run: InvoiceRun)
    ensures |run.printed| == 3 && run.printed[0] == "Processing invoice: " + path
    ensures run.printed[2] == GeminiOutput(path, fs, svc.generate)
    ensures run.result.Failure? ==> run.result.error.cls == ValueError
    ensures run.result.Failure? <==> svc.loads(CleanReply(GeminiOutput(path, fs, svc.generate))).Failure?
    ensures run.result.Success? ==> run.result.value == svc.loads(CleanReply(GeminiOutput(path, fs, svc.generate))).value
    ensures run.result.Failure? ==>
              EndsWith(run.result.error.msg, "\nResponse:\n" + CleanReply(GeminiOutput(path, fs, svc.generate)))
  {
    var output := GeminiOutput(path, fs, svc.generate);
    InvoiceRun(["Processing invoice: " + path, "Raw Gemini response:", output], ParseReply(output, svc.loads))
  }

  /** The output file name never influences what `process_invoice` does. */
  lemma ProcessInvoiceIgnoresOutputFile(path: string, f1: Option<string>, f2: Option<string>, fs: FileSystem, svc: Services)
    ensures ProcessInvoice(path, f1, fs, svc) == ProcessInvoice(path, f2, fs, svc)
  {
  }

  /**
   * A missing file reaches the parser as the error text; when that text
   * does not parse, the `ValueError` shows it, stripped.
   */
  lemma ProcessInvoiceMissingFile(path: string, fs: FileSystem, svc: Services)
    requires !Exists(fs, path)
    requires svc.loads(Strip(ErrorPrefix + "Could not find image: " + PathStr(path))).Failure?
    ensures ProcessInvoice(path, None, fs, svc).result.Failure?
    ensures EndsWith(ProcessInvoice(path, None, fs, svc).result.error.msg,
                     "\nResponse:\n" + Strip(ErrorPrefix + "Could not find image: " + PathStr(path)))
  {
    var out := ErrorPrefix + "Could not find image: " + PathStr(path);
    assert GeminiOutput(path, fs, svc.generate) == out;
    assert out[0] == 'E';
    CleanReplyPlainStart(out);
  }

  /** The answer to the save prompt and the typed name decide the output file. */
  function OutputFileChoice(saveAnswer: string, fileNameLine: string): (r: Option<string>)
    ensures r.Some? <==> Strip(saveAnswer) == "y" || Strip(saveAnswer) == "Y"
    ensures r.Some? ==> r.value != ""
    ensures r.Some? && Strip(fileNameLine) == "" ==> r.value == DefaultOutputFile
    ensures r.Some? && Strip(fileNameLine) != "" ==> r.value == Strip(fileNameLine)
  {
    var answer := Lower(Strip(saveAnswer));
    assert answer == "y" <==> Strip(saveAnswer) == "y" || Strip(saveAnswer) == "Y" by {
      var t := Strip(saveAnswer);
      if answer == "y" {
        assert LowerChar(t[0]) == 'y';
        assert t == [t[0]];
      }
      if t == "Y" || t == "y" {
        assert answer[0] == 'y';
      }
    }
    if answer == "y" then
      var name := Strip(fileNameLine);
      Some(if name == "" then DefaultOutputFile else name)
    else
      None
  }

  /** What `main` prints after `process_invoice` returns or raises. */
  function ReportLines(result: Result<Json, Exc>): seq<string> {
    match result
    case Failure(e) => ["Error processing invoice: " + e.msg]
    case Success(_) => []
  }

  /** `main` after the model listing: path check, save prompt, then `process_invoice`. */
  function Main(console: Console, fs: FileSystem, svc: Services): (run: MainRun)
    ensures !Exists(fs, Strip(console.pathLine)) ==>
              run == MainRun(["Error: Image file not found at " + Strip(console.pathLine)], None, None)
    ensures Exists(fs, Strip(console.pathLine)) ==>
              && run.outputFile == OutputFileChoice(console.saveAnswer, console.fileNameLine)
              && run.result == Some(ProcessInvoice(Strip(console.pathLine), run.outputFile, fs, svc).result)
    ensures Exists(fs, Strip(console.pathLine)) ==>
              |run.printed| >= 3 && run.printed[..3] == ProcessInvoice(Strip(console.pathLine), run.outputFile, fs, svc).printed
    ensures run.result.Some? && run.result.value.Success? ==> |run.printed| == 3
  {
    var imagePath := Strip(console.pathLine);
    if !Exists(fs, imagePath) then
      MainRun(["Error: Image file not found at " + imagePath], None, None)
    else
      var outputFile := OutputFileChoice(console.saveAnswer, console.fileNameLine);
      var inv := ProcessInvoice(imagePath, outputFile, fs, svc);
      MainRun(inv.printed + ReportLines(inv.result), outputFile, Some(inv.result))
  }

  /** A raised exception is reported on the last line `main` prints, after the three lines of `process_invoice`. */
  lemma MainReportsFailure(console: Console, fs: FileSystem, svc: Services)
    requires Main(console, fs, svc).result.Some? && Main(console, fs, svc).result.value.Failure?
    ensures |Main(console, fs, svc).printed| == 4
    ensures Main(console, fs, svc).printed[..3] ==
              ProcessInvoice(Strip(console.pathLine), Main(console, fs, svc).outputFile, fs, svc).printed
    ensures Main(console, fs, svc).printed[3] == "Error processing invoice: " + Main(console, fs, svc).result.value.error.msg
  {
    var path := Strip(console.pathLine);
    var inv := ProcessInvoice(path, OutputFileChoice(console.saveAnswer, console.fileNameLine), fs, svc);
    assert Exists(fs, path);
    assert Main(console, fs, svc) == MainRun(inv.printed + ReportLines(inv.result), Main(console, fs, svc).outputFile, Some(inv.result));
  }

  /** A path that does not exist ends `main` before the model or the parser is involved. */
  lemma MainMissingPathCallsNothing(console: Console, fs: FileSystem, svc1: Services, svc2: Services)
    requires !Exists(fs, Strip(console.pathLine))
    ensures Main(console, fs, svc1) == Main(console, fs, svc2)
    ensures Main(console, fs, svc1).result.None?
  {
  }
}
