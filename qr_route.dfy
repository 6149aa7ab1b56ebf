/**
 * The `POST /generate` handler (apps/server/src/routes/qr.ts): validate,
 * normalize, render, and map each outcome to a fixed response.
 *
 * `Handle` takes the image generator as a parameter, so that what the
 * handler passes to it, and whether the response depends on it at all, can
 * be stated; `PostGenerate` plugs in `GenerateQrCodeImage` behind the schema.
 */
module QrRoute {
  import opened Wrappers
  import opened Strings
  import opened QrGenerator
  import opened Schemas

  datatype QrData = QrData(qrCode: string, content: string, contentType: ContentType, size: int, format: Format)
  datatype Body = Success(data: QrData) | Failure(error: string)
  datatype Response = Response(status: int, body: Body)

  const StatusOk := 200
  const StatusBadRequest := 400
  const StatusServerError := 500
  const GenerateFailureMessage := "Failed to generate QR code"

  function InvalidFormatMessage(t: ContentType): (msg: string)
    ensures StartsWith(msg, "Invalid ")
  {
    "Invalid " + TypeName(t) + " format"
  }

  /** Distinct content types get distinct validation messages, so the message names its type unambiguously. */
  lemma InvalidFormatMessageInjective(s: ContentType, t: ContentType)
    requires InvalidFormatMessage(s) == InvalidFormatMessage(t)
    ensures s == t
  {
    var m := InvalidFormatMessage(s);
    assert TypeName(s) == m[8..|m| - 7];
    assert TypeName(t) == m[8..|m| - 7];
    TypeNameInjective(s, t);
  }

  /** The options the handler hands to the generator: normalized content plus the request's own settings. */
  function RenderOptions(rec: Recognisers, input: QrRequest): (options: GenerateOptions)
    ensures options.content == NormalizeQrContent(rec, input.content, input.contentType)
    ensures options.size == Some(input.size)
    ensures options.format == Some(input.format)
    ensures options.backgroundColor == Some(input.backgroundColor)
    ensures options.foregroundColor == Some(input.foregroundColor)
    ensures options.errorCorrectionLevel == Some(input.errorCorrectionLevel)
  {
    GenerateOptions(
      NormalizeQrContent(rec, input.content, input.contentType),
      Some(input.size), Some(input.format),
      Some(input.backgroundColor), Some(input.foregroundColor),
      Some(input.errorCorrectionLevel))
  }

  /**
   * The handler body. Content that fails validation answers 400 naming its
   * type; otherwise the generator's image is echoed with the request's
   * type, size and format (200) or its failure answers a fixed 500.
   */
  function Handle(rec: Recognisers, generate: GenerateOptions -> ImageResult, input: QrRequest): (r: Response)
    ensures !ValidateQrContent(rec, input.content, input.contentType) ==>
      r == Response(StatusBadRequest, Failure(InvalidFormatMessage(input.contentType)))
    ensures ValidateQrContent(rec, input.content, input.contentType) &&
            generate(RenderOptions(rec, input)).Image? ==>
      r == Response(StatusOk, Success(QrData(
             generate(RenderOptions(rec, input)).dataUri,
             NormalizeQrContent(rec, input.content, input.contentType),
             input.contentType, input.size, input.format)))
    ensures ValidateQrContent(rec, input.content, input.contentType) &&
            generate(RenderOptions(rec, input)).RenderError? ==>
      r == Response(StatusServerError, Failure(GenerateFailureMessage))
  {
    if !ValidateQrContent(rec, input.content, input.contentType) then
      Response(StatusBadRequest, Failure(InvalidFormatMessage(input.contentType)))
    else
      var normalizedContent := NormalizeQrContent(rec, input.content, input.contentType);
      match generate(RenderOptions(rec, input))
      case Image(qrDataUrl) =>
        Response(StatusOk, Success(QrData(qrDataUrl, normalizedContent, input.contentType, input.size, input.format)))
      case RenderError(_) =>
        Response(StatusServerError, Failure(GenerateFailureMessage))
  }

  /** The generator is never reached on invalid content: the response is the same whatever it does. */
  lemma InvalidContentNeverRenders(rec: Recognisers, g1: GenerateOptions -> ImageResult,
                                   g2: GenerateOptions -> ImageResult, input: QrRequest)
    requires !ValidateQrContent(rec, input.content, input.contentType)
    ensures Handle(rec, g1, input) == Handle(rec, g2, input)
  {
  }

  /** On valid content, the response depends on the generator only through its answer to `RenderOptions`. */
  lemma GeneratorSeesOnlyRenderOptions(rec: Recognisers, g1: GenerateOptions -> ImageResult,
                                       g2: GenerateOptions -> ImageResult, input: QrRequest)
    requires g1(RenderOptions(rec, input)) == g2(RenderOptions(rec, input))
    ensures Handle(rec, g1, input) == Handle(rec, g2, input)
  {
  }

  /** A failing generator's own message never reaches the caller: every failure answers alike. */
  lemma GeneratorFailureIsOpaque(rec: Recognisers, g1: GenerateOptions -> ImageResult,
                                 g2: GenerateOptions -> ImageResult, input: QrRequest)
    requires ValidateQrContent(rec, input.content, input.contentType)
    requires g1(RenderOptions(rec, input)).RenderError? && g2(RenderOptions(rec, input)).RenderError?
    ensures Handle(rec, g1, input) == Handle(rec, g2, input) == Response(StatusServerError, Failure(GenerateFailureMessage))
  {
  }

  /** Validation failures and rendering failures are told apart by status and by message. */
  lemma ErrorKindsDistinct(t: ContentType)
    ensures StatusBadRequest != StatusServerError
    ensures InvalidFormatMessage(t) != GenerateFailureMessage
  {
    assert InvalidFormatMessage(t)[0] == 'I';
  }

  /** What the service does with a JSON body: the schema first, then the handler with the real generator. */
  datatype RouteOutcome = SchemaRejected | Handled(response: Response)

  function PostGenerate(rec: Recognisers, colorOk: string -> bool, lib: QrLibrary, raw: RawRequest): (r: RouteOutcome)
    ensures r.SchemaRejected? <==> !WellFormed(colorOk, raw)
    ensures r.Handled? ==> r.response == Handle(rec, options => GenerateQrCodeImage(lib, options), ParseRequest(colorOk, raw).value)
  {
    match ParseRequest(colorOk, raw)
    case None => SchemaRejected
    case Some(input) => Handled(Handle(rec, options => GenerateQrCodeImage(lib, options), input))
  }

  /**
   * A successful response for URL content carries a string that parses as a
   * URL, and the image in it is what the encoder made of exactly that string
   * with the request's own size, colours and level.
   */
  lemma SuccessfulUrlResponseParses(rec: Recognisers, colorOk: string -> bool, lib: QrLibrary, raw: RawRequest)
    requires PostGenerate(rec, colorOk, lib, raw).Handled?
    requires PostGenerate(rec, colorOk, lib, raw).response.status == StatusOk
    ensures var input := ParseRequest(colorOk, raw).value;
            var data := PostGenerate(rec, colorOk, lib, raw).response.body.data;
      && data.content == NormalizeQrContent(rec, input.content, input.contentType)
      && (data.contentType == Url ==> rec.parsesAsUrl(data.content))
      && lib.encode(data.content, EncoderOptions(
           if input.format == Svg then SvgMarkup else RasterDataUrl,
           input.size, QuietZone, input.foregroundColor, input.backgroundColor,
           input.errorCorrectionLevel)).Encoded?
  {
    var input := ParseRequest(colorOk, raw).value;
    NormalizedUrlParsesIffValid(rec, input.content);
  }
}
