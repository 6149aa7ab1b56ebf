/**
 * The request schema of `POST /generate` (apps/server/src/lib/schemas.ts),
 * as a well-formedness predicate on the raw JSON fields and a parser that
 * fills in the defaults.
 */
module Schemas {
  import opened Wrappers
  import opened QrGenerator

  const MinContentLength := 1
  const MaxContentLength := 2000
  const MinSize := 100
  const MaxSize := 2000
  const MaxTitleLength := 200
  const MaxDescriptionLength := 500

  /** The tags each enumeration of the schema admits, in the schema's order. */
  const ContentTypeTags: seq<string> := ["url", "text", "email", "phone", "sms", "wifi", "vcard"]
  const FormatTags: seq<string> := ["png", "svg", "jpeg"]
  const LevelTags: seq<string> := ["L", "M", "Q", "H"]

  /** The JSON body as received; an absent field is `None`. */
  datatype RawRequest = RawRequest(
    content: Option<string>,
    contentType: Option<string>,
    size: Option<int>,
    format: Option<string>,
    backgroundColor: Option<string>,
    foregroundColor: Option<string>,
    errorCorrectionLevel: Option<string>,
    title: Option<string>,
    description: Option<string>)

  /** The body after the schema: every defaulted field is present. */
  datatype QrRequest = QrRequest(
    content: string,
    contentType: ContentType,
    size: int,
    format: Format,
    backgroundColor: string,
    foregroundColor: string,
    errorCorrectionLevel: ErrorCorrectionLevel,
    title: Option<string>,
    description: Option<string>)

  function ParseContentType(tag: string): (r: Option<ContentType>)
    ensures r.Some? ==> TypeName(r.value) == tag
    ensures r.None? ==> forall t :: TypeName(t) != tag
  {
    if tag == "url" then Some(Url)
    else if tag == "text" then Some(Text)
    else if tag == "email" then Some(Email)
    else if tag == "phone" then Some(Phone)
    else if tag == "sms" then Some(Sms)
    else if tag == "wifi" then Some(Wifi)
    else if tag == "vcard" then Some(Vcard)
    else None
  }

  function ParseFormat(tag: string): (r: Option<Format>)
    ensures r.Some? ==> FormatName(r.value) == tag
    ensures r.None? ==> forall f :: FormatName(f) != tag
  {
    if tag == "png" then Some(Png)
    else if tag == "svg" then Some(Svg)
    else if tag == "jpeg" then Some(Jpeg)
    else None
  }

  function ParseLevel(tag: string): (r: Option<ErrorCorrectionLevel>)
    ensures r.Some? ==> LevelName(r.value) == tag
    ensures r.None? ==> forall l :: LevelName(l) != tag
  {
    if tag == "L" then Some(L)
    else if tag == "M" then Some(M)
    else if tag == "Q" then Some(Q)
    else if tag == "H" then Some(H)
    else None
  }

  /** The schema's enumerations and the generator's types name the same values. */
  lemma TagsMatchTypes()
    ensures forall tag :: tag in ContentTypeTags <==> ParseContentType(tag).Some?
    ensures forall tag :: tag in FormatTags <==> ParseFormat(tag).Some?
    ensures forall tag :: tag in LevelTags <==> ParseLevel(tag).Some?
    ensures forall t :: ParseContentType(TypeName(t)) == Some(t)
    ensures forall f :: ParseFormat(FormatName(f)) == Some(f)
    ensures forall l :: ParseLevel(LevelName(l)) == Some(l)
  {
  }

  /** What `generateQrCodeSchema` demands of a body, field by field. */
  predicate WellFormed(colorOk: string -> bool, raw: RawRequest)
  {
    && raw.content.Some?
    && MinContentLength <= |raw.content.value| <= MaxContentLength
    && (raw.contentType.Some? ==> raw.contentType.value in ContentTypeTags)
    && (raw.size.Some? ==> MinSize <= raw.size.value <= MaxSize)
    && (raw.format.Some? ==> raw.format.value in FormatTags)
    && (raw.backgroundColor.Some? ==> colorOk(raw.backgroundColor.value))
    && (raw.foregroundColor.Some? ==> colorOk(raw.foregroundColor.value))
    && (raw.errorCorrectionLevel.Some? ==> raw.errorCorrectionLevel.value in LevelTags)
    && (raw.title.Some? ==> |raw.title.value| <= MaxTitleLength)
    && (raw.description.Some? ==> |raw.description.value| <= MaxDescriptionLength)
  }

  /** An enumerated field with a default: absent gives `d`, present must parse. */
  function Defaulted<T>(field: Option<string>, parse: string -> Option<T>, default: T): (r: Option<T>)
    ensures field.None? ==> r == Some(default)
    ensures field.Some? ==> r == parse(field.value)
  {
    match field
    case None => Some(default)
    case Some(s) => parse(s)
  }

  /** An optional text field of at most `max` characters. */
  function OptionalBounded(field: Option<string>, max: int): (r: Option<Option<string>>)
    ensures r.Some? <==> (field.Some? ==> |field.value| <= max)
    ensures r.Some? ==> r.value == field
  {
    match field
    case None => Some(None)
    case Some(s) => if |s| <= max then Some(Some(s)) else None
  }

  /** The required content: 1 to 2000 characters. */
  function ParseContent(field: Option<string>): (r: Option<string>)
    ensures r.Some? <==> field.Some? && MinContentLength <= |field.value| <= MaxContentLength
    ensures r.Some? ==> r == field
  {
    match field
    case None => None
    case Some(s) => if MinContentLength <= |s| <= MaxContentLength then Some(s) else None
  }

  /** The size: between 100 and 2000 when sent, 300 when absent. */
  function ParseSize(field: Option<int>): (r: Option<int>)
    ensures r.Some? <==> (field.Some? ==> MinSize <= field.value <= MaxSize)
    ensures r.Some? ==> r.value == field.GetOr(DefaultSize)
  {
    match field
    case None => Some(DefaultSize)
    case Some(n) => if MinSize <= n <= MaxSize then Some(n) else None
  }

  /** A colour matching the colour pattern, with `.default(d)`. */
  function ParseColor(colorOk: string -> bool, field: Option<string>, default: string): (r: Option<string>)
    ensures r.Some? <==> (field.Some? ==> colorOk(field.value))
    ensures r.Some? ==> r.value == field.GetOr(default)
  {
    match field
    case None => Some(default)
    case Some(s) => if colorOk(s) then Some(s) else None
  }

  /**
   * The request schema applied to a body: a body is accepted exactly when it is
   * well formed, and then every field holds what was sent or its default.
   */
  function ParseRequest(colorOk: string -> bool, raw: RawRequest): (r: Option<QrRequest>)
    ensures r.Some? <==> WellFormed(colorOk, raw)
    ensures r.Some? ==>
      && Some(r.value.content) == raw.content
      && TypeName(r.value.contentType) == raw.contentType.GetOr("url")
      && r.value.size == raw.size.GetOr(300)
      && FormatName(r.value.format) == raw.format.GetOr("png")
      && r.value.backgroundColor == raw.backgroundColor.GetOr("#ffffff")
      && r.value.foregroundColor == raw.foregroundColor.GetOr("#000000")
      && LevelName(r.value.errorCorrectionLevel) == raw.errorCorrectionLevel.GetOr("M")
      && r.value.title == raw.title
      && r.value.description == raw.description
  {
    TagsMatchTypes();
    var content := ParseContent(raw.content);
    var contentType := Defaulted(raw.contentType, ParseContentType, Url);
    var size := ParseSize(raw.size);
    var format := Defaulted(raw.format, ParseFormat, Png);
    var background := ParseColor(colorOk, raw.backgroundColor, DefaultBackground);
    var foreground := ParseColor(colorOk, raw.foregroundColor, DefaultForeground);
    var level := Defaulted(raw.errorCorrectionLevel, ParseLevel, M);
    var title := OptionalBounded(raw.title, MaxTitleLength);
    var description := OptionalBounded(raw.description, MaxDescriptionLength);
    if && content.Some? && contentType.Some? && size.Some? && format.Some?
       && background.Some? && foreground.Some? && level.Some?
       && title.Some? && description.Some?
    then
      Some(QrRequest(content.value, contentType.value, size.value, format.value,
                     background.value, foreground.value, level.value,
                     title.value, description.value))
    else
      None
  }

  /** What the route may rely on after the schema: content and size lie within their bounds. */
  lemma ParsedRequestInBounds(colorOk: string -> bool, raw: RawRequest)
    requires ParseRequest(colorOk, raw).Some?
    ensures var q := ParseRequest(colorOk, raw).value;
      && MinContentLength <= |q.content| <= MaxContentLength
      && MinSize <= q.size <= MaxSize
      && (q.title.Some? ==> |q.title.value| <= MaxTitleLength)
      && (q.description.Some? ==> |q.description.value| <= MaxDescriptionLength)
  {
  }
}
