/**
 * The server's content pipeline: per-type validation, normalization and
 * image generation (apps/server/src/lib/qr-generator.ts).
 *
 * The pieces the module calls but does not own are parameters:
 * WHATWG URL parsing and the EMAIL/PHONE patterns are bundled in
 * `Recognisers`, the `qrcode` library and base64 encoding in `QrLibrary`.
 */
module QrGenerator {
  import opened Wrappers
  import opened Strings

  datatype ContentType = Url | Text | Email | Phone | Sms | Wifi | Vcard
  datatype Format = Png | Svg | Jpeg
  datatype ErrorCorrectionLevel = L | M | Q | H

  /** The tag of a content type as it travels in JSON and in messages. */
  function TypeName(t: ContentType): (name: string)
    ensures |name| > 0
  {
    match t
    case Url => "url"
    case Text => "text"
    case Email => "email"
    case Phone => "phone"
    case Sms => "sms"
    case Wifi => "wifi"
    case Vcard => "vcard"
  }

  lemma TypeNameInjective(s: ContentType, t: ContentType)
    requires TypeName(s) == TypeName(t)
    ensures s == t
  {
  }

  function FormatName(f: Format): string
  {
    match f
    case Png => "png"
    case Svg => "svg"
    case Jpeg => "jpeg"
  }

  function LevelName(l: ErrorCorrectionLevel): string
  {
    match l
    case L => "L"
    case M => "M"
    case Q => "Q"
    case H => "H"
  }

  /** Whether a string parses as a URL, matches the email pattern, matches the phone pattern. */
  datatype Recognisers = Recognisers(
    parsesAsUrl: string -> bool,
    matchesEmail: string -> bool,
    matchesPhone: string -> bool)

  const HttpsPrefix := "https://"

  /**
   * `validateQrContent`: URL content is accepted when it parses as it is or
   * once `https://` is put in front; email and phone content must match
   * their patterns; every other type is accepted as an opaque payload.
   */
  function ValidateQrContent(rec: Recognisers, content: string, t: ContentType): (valid: bool)
    ensures t == Url ==> (valid <==> rec.parsesAsUrl(content) || rec.parsesAsUrl(HttpsPrefix + content))
    ensures t == Email ==> (valid <==> rec.matchesEmail(content))
    ensures t == Phone ==> (valid <==> rec.matchesPhone(content))
    ensures t in {Text, Sms, Wifi, Vcard} ==> valid
  {
    match t
    case Url => rec.parsesAsUrl(content) || rec.parsesAsUrl(HttpsPrefix + content)
    case Email => rec.matchesEmail(content)
    case Phone => rec.matchesPhone(content)
    case _ => true
  }

  /**
   * `normalizeQrContent`: URL content that does not parse gets the
   * `https://` prefix; everything else is returned unchanged.
   */
  function NormalizeQrContent(rec: Recognisers, content: string, t: ContentType): (normalized: string)
    ensures t != Url ==> normalized == content
    ensures t == Url && rec.parsesAsUrl(content) ==> normalized == content
    ensures t == Url && !rec.parsesAsUrl(content) ==> normalized == HttpsPrefix + content
  {
    if t == Url then
      if rec.parsesAsUrl(content) then content else HttpsPrefix + content
    else
      content
  }

  /**
   * The normalizer mirrors the validator's two tries: URL content is valid
   * exactly when its normalized form parses as a URL.
   */
  lemma NormalizedUrlParsesIffValid(rec: Recognisers, content: string)
    ensures rec.parsesAsUrl(NormalizeQrContent(rec, content, Url)) <==> ValidateQrContent(rec, content, Url)
  {
  }

  /** On content that validated, normalizing a second time changes nothing. */
  lemma NormalizeIdempotentOnValid(rec: Recognisers, content: string, t: ContentType)
    requires ValidateQrContent(rec, content, t)
    ensures NormalizeQrContent(rec, NormalizeQrContent(rec, content, t), t) == NormalizeQrContent(rec, content, t)
  {
  }

  /** The normalized form of valid content is itself valid for the same type. */
  lemma NormalizePreservesValidity(rec: Recognisers, content: string, t: ContentType)
    requires ValidateQrContent(rec, content, t)
    ensures ValidateQrContent(rec, NormalizeQrContent(rec, content, t), t)
  {
  }

  /** The options of `generateQrCodeImage`; absent fields are `None`. */
  datatype GenerateOptions = GenerateOptions(
    content: string,
    size: Option<int>,
    format: Option<Format>,
    backgroundColor: Option<string>,
    foregroundColor: Option<string>,
    errorCorrectionLevel: Option<ErrorCorrectionLevel>)

  const DefaultSize := 300
  const DefaultFormat := Png
  const DefaultBackground := "#ffffff"
  const DefaultForeground := "#000000"
  const DefaultLevel := M
  const QuietZone := 1

  /** Which `qrcode` entry point is called: the SVG markup one or the raster data URI one. */
  datatype EncoderTarget = SvgMarkup | RasterDataUrl

  /** The options object handed to the `qrcode` library. */
  datatype EncoderOptions = EncoderOptions(
    target: EncoderTarget,
    width: int,
    margin: int,
    dark: string,
    light: string,
    errorCorrectionLevel: ErrorCorrectionLevel)

  /** What a `qrcode` call does: resolve with text, or reject. */
  datatype Encoded = Encoded(text: string) | EncodeFailed(reason: string)

  datatype QrLibrary = QrLibrary(
    encode: (string, EncoderOptions) -> Encoded,
    base64: string -> string)

  /** The promise `generateQrCodeImage` returns: resolved with a data URI, or rejected. */
  datatype ImageResult = Image(dataUri: string) | RenderError(message: string)

  const SvgDataUriPrefix := "data:image/svg+xml;base64,"
  const RenderErrorMessage := "Failed to generate QR code image"

  /**
   * The encoder options both branches of `generateQrCodeImage` build:
   * defaults fill the absent fields, the width is the size, the quiet zone
   * is one module, the foreground is the dark colour and the background the
   * light one; only svg selects the SVG entry point.
   */
  function EncoderOptionsFor(options: GenerateOptions): (r: EncoderOptions)
    ensures r.width == options.size.GetOr(DefaultSize)
    ensures r.margin == QuietZone
    ensures r.dark == options.foregroundColor.GetOr(DefaultForeground)
    ensures r.light == options.backgroundColor.GetOr(DefaultBackground)
    ensures r.errorCorrectionLevel == options.errorCorrectionLevel.GetOr(DefaultLevel)
    ensures r.target == SvgMarkup <==> options.format == Some(Svg)
  {
    var format := options.format.GetOr(DefaultFormat);
    EncoderOptions(
      if format == Svg then SvgMarkup else RasterDataUrl,
      options.size.GetOr(DefaultSize),
      QuietZone,
      options.foregroundColor.GetOr(DefaultForeground),
      options.backgroundColor.GetOr(DefaultBackground),
      options.errorCorrectionLevel.GetOr(DefaultLevel))
  }

  /**
   * `generateQrCodeImage`: svg markup is wrapped in a base64 data URI, the
   * raster entry point's data URI is returned as it is, and any failure of
   * the encoder becomes one fixed error that does not carry its reason.
   */
  function GenerateQrCodeImage(lib: QrLibrary, options: GenerateOptions): (r: ImageResult)
    ensures lib.encode(options.content, EncoderOptionsFor(options)).EncodeFailed? <==> r.RenderError?
    ensures r.RenderError? ==> r.message == RenderErrorMessage
    ensures r.Image? && options.format == Some(Svg) ==>
      StartsWith(r.dataUri, SvgDataUriPrefix) &&
      r.dataUri == SvgDataUriPrefix + lib.base64(lib.encode(options.content, EncoderOptionsFor(options)).text)
    ensures r.Image? && options.format != Some(Svg) ==>
      r.dataUri == lib.encode(options.content, EncoderOptionsFor(options)).text
  {
    var encoderOptions := EncoderOptionsFor(options);
    match lib.encode(options.content, encoderOptions)
    case EncodeFailed(_) => RenderError(RenderErrorMessage)
    case Encoded(text) =>
      if encoderOptions.target == SvgMarkup then
        assert (SvgDataUriPrefix + lib.base64(text))[..|SvgDataUriPrefix|] == SvgDataUriPrefix;
        Image(SvgDataUriPrefix + lib.base64(text))
      else
        Image(text)
  }

  /** With every option absent the raster entry point is called at 300 px, black on white, level M. */
  lemma DefaultEncoderOptions(content: string)
    ensures EncoderOptionsFor(GenerateOptions(content, None, None, None, None, None))
         == EncoderOptions(RasterDataUrl, 300, 1, "#000000", "#ffffff", M)
  {
  }

  /** The svg and raster branches pass the same width, margin, colours and level. */
  lemma BranchesShareEncoderOptions(options: GenerateOptions)
    ensures EncoderOptionsFor(options.(format := Some(Svg)))
         == EncoderOptionsFor(options.(format := Some(Png))).(target := SvgMarkup)
  {
  }

  /**
   * A jpeg request makes exactly the call a png request makes: the raster
   * options carry no image type, so the format is not forwarded.
   */
  lemma JpegRendersLikePng(lib: QrLibrary, options: GenerateOptions)
    ensures GenerateQrCodeImage(lib, options.(format := Some(Jpeg)))
         == GenerateQrCodeImage(lib, options.(format := Some(Png)))
  {
  }

  /** The rendering error does not depend on why the encoder failed. */
  lemma RenderErrorIsOpaque(lib1: QrLibrary, lib2: QrLibrary, options: GenerateOptions)
    requires lib1.encode(options.content, EncoderOptionsFor(options)).EncodeFailed?
    requires lib2.encode(options.content, EncoderOptionsFor(options)).EncodeFailed?
    ensures GenerateQrCodeImage(lib1, options) == GenerateQrCodeImage(lib2, options)
  {
  }
}
