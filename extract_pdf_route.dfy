/** The `/api/extract-pdf` route: checks the `%PDF` signature of an uploaded
    file, runs the PDF parser on it and classifies the result. The parser
    is a parameter. */
module ExtractPdfRoute {

  import opened Outcomes
  import opened FormData

  /** What `pdf-parse` does with a buffer: text (possibly absent), or an
      exception with an optional `Error` message. */
  datatype ParserOutcome = ParserText(text: Option<string>) | ParserThrew(message: Option<string>)

  /** The JSON body and status the route answers with. */
  datatype ExtractResponse =
    | Extracted(extractedText: string, length: nat, warning: Option<string>)
    | Failed(status: nat, error: string, details: Option<string>)

  const NoFileError: string := "No PDF file provided"
  const NotPdfError: string := "File does not appear to be a valid PDF"
  const ParseError: string := "Failed to parse PDF content"
  const ShortTextWarning: string := "Extracted text is suspiciously short, might be invalid"
  const ServerError: string := "Server error during PDF extraction"

  /** Text shorter than this gets a warning. */
  const ShortTextLength: nat := 50

  /** The bytes of "%PDF". */
  const PdfSignature: seq<byte> := [0x25, 0x50, 0x44, 0x46]

  /** `length > 4` and the first four bytes decode to "%PDF". Four ASCII
      characters can only come from these four bytes. */
  predicate IsPdf(buffer: seq<byte>)
  {
    |buffer| > 4 && buffer[..4] == PdfSignature
  }

  /** The `POST` handler. */
  function ExtractPdf(pdfFile: Option<UploadedFile>, parse: seq<byte> -> ParserOutcome): (r: ExtractResponse)
    ensures pdfFile.None? ==> r == Failed(400, NoFileError, None)
    ensures pdfFile.Some? && !IsPdf(pdfFile.value.bytes) ==> r == Failed(400, NotPdfError, None)
    ensures r.Extracted? <==> pdfFile.Some? && IsPdf(pdfFile.value.bytes) && parse(pdfFile.value.bytes).ParserText?
    ensures r.Extracted? ==> r.length == |r.extractedText|
    ensures r.Extracted? ==> (r.warning.Some? <==> |r.extractedText| < ShortTextLength)
    ensures r.Extracted? && parse(pdfFile.value.bytes).text.Some? ==> r.extractedText == parse(pdfFile.value.bytes).text.value
    ensures r.Extracted? && parse(pdfFile.value.bytes).text.None? ==> r == Extracted("", 0, Some(ShortTextWarning))
    ensures r.Failed? ==> r.status in {400, 500}
    ensures pdfFile.Some? && IsPdf(pdfFile.value.bytes) && parse(pdfFile.value.bytes).ParserThrew? ==>
            r.Failed? && r.status == 500 && r.error == ParseError && r.details.Some?
    ensures pdfFile.Some? && r.Failed? && r.status == 500 && parse(pdfFile.value.bytes).message.Some? ==>
            r.details == parse(pdfFile.value.bytes).message
  {
    if pdfFile.None? then Failed(400, NoFileError, None)
    else if !IsPdf(pdfFile.value.bytes) then Failed(400, NotPdfError, None)
    else match parse(pdfFile.value.bytes)
      case ParserThrew(message) =>
        Failed(500, ParseError, Some(ErrorMessage(message)))
      case ParserText(text) =>
        var extractedText := if text.Some? then text.value else "";
        if |extractedText| < ShortTextLength then
          Extracted(extractedText, |extractedText|, Some(ShortTextWarning))
        else
          Extracted(extractedText, |extractedText|, None)
  }

  /** The whole handler: a body that is not a form is answered by the outer
      `catch`; a form goes on to `ExtractPdf` with its "pdfFile" field. */
  function PostExtractPdf(form: FormRead<Option<UploadedFile>>, parse: seq<byte> -> ParserOutcome): (r: ExtractResponse)
    ensures form.Unreadable? ==> r == Failed(500, ServerError, Some(ErrorMessage(form.message)))
    ensures form.Read? ==> r == ExtractPdf(form.fields, parse)
    ensures r.Failed? && r.status == 500 ==> r.details.Some?
  {
    match form
    case Unreadable(message) => Failed(500, ServerError, Some(ErrorMessage(message)))
    case Read(pdfFile) => ExtractPdf(pdfFile, parse)
  }

  /** A file holding nothing but the four signature bytes is refused. */
  lemma BareSignatureRejected(mimeType: string, text: string, parse: seq<byte> -> ParserOutcome)
    ensures ExtractPdf(Some(UploadedFile(mimeType, PdfSignature, text)), parse) == Failed(400, NotPdfError, None)
  {
  }

  /** The parser is consulted only for a file that passes the signature test. */
  lemma ParserOnlyForPdf(pdfFile: Option<UploadedFile>, parse1: seq<byte> -> ParserOutcome,
                         parse2: seq<byte> -> ParserOutcome)
    requires pdfFile.None? || !IsPdf(pdfFile.value.bytes)
    ensures ExtractPdf(pdfFile, parse1) == ExtractPdf(pdfFile, parse2)
  {
  }
}
