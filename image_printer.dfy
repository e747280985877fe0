/**
 * `renderImageToBuffer`: the image payload as bytes. A Buffer passes through; a string is base64
 * text, optionally behind a `data:` URI header that is cut off at the first comma.
 */
module ImagePrinter {
  import opened Wrappers
  import opened JsValues
  import Base64

  /** The image argument: a falsy non-string value, a Buffer, or a string. */
  datatype ImageInput = NoImage | BufferInput(bytes: seq<Byte>) | StringInput(s: string)

  const NO_IMAGE := "No image provided"
  /** `Buffer.from(undefined, 'base64')` throws this TypeError. */
  const UNDEFINED_SOURCE := "The first argument must be of type string or an instance of Buffer, ArrayBuffer, or Array or an Array-like Object. Received undefined"
  /** Stands for Node's lenient decoding of text that is not canonical base64, which this model does not follow. */
  const NOT_CANONICAL := "base64 text outside the canonical alphabet and padding"

  /** `s.split(',')[1]`: the text between the first and the second comma, undefined without a comma. */
  function DataUriPayload(s: string): (r: Option<string>)
    ensures r.None? <==> ',' !in s
  {
    var parts := Split(s, ',');
    SplitCount(s);
    if |parts| >= 2 then Some(parts[1]) else None
  }

  lemma {:induction false} SplitCount(s: string)
    ensures |Split(s, ',')| >= 2 <==> ',' in s
    decreases |s|
  {
    if s != [] {
      SplitCount(s[1..]);
      assert ',' in s <==> s[0] == ',' || ',' in s[1..];
    }
  }

  /** The string handed to the base64 decoder, or None when it would be undefined. */
  function Source(s: string): Option<string> {
    if StartsWith(s, "data:") then DataUriPayload(s) else Some(s)
  }

  /**
   * `renderImageToBuffer(imageInput, width)`. A falsy input fails with NO_IMAGE; a Buffer comes
   * back unchanged; a string succeeds exactly when its source is canonical base64, and then the
   * bytes are those whose encoding is the source. `width` plays no part.
   */
  function RenderImageToBuffer(input: ImageInput, width: Value): (r: Result<seq<Byte>, string>)
    ensures input == NoImage || input == StringInput("") ==> r == Failure(NO_IMAGE)
    ensures input.BufferInput? ==> r == Success(input.bytes)
    ensures input.StringInput? && input.s != "" && Source(input.s).None? ==> r == Failure(UNDEFINED_SOURCE)
    ensures input.StringInput? && input.s != "" && Source(input.s).Some? ==>
      (r.Success? <==> Base64.Decode(Source(input.s).value).Some?) &&
      (r.Success? ==> Base64.Encode(r.value) == Source(input.s).value)
  {
    match input
    case NoImage => Failure(NO_IMAGE)
    case BufferInput(bytes) => Success(bytes)
    case StringInput(s) =>
      if s == "" then Failure(NO_IMAGE)
      else match Source(s)
        case None => Failure(UNDEFINED_SOURCE)
        case Some(text) =>
          match Base64.Decode(text)
          case None => Failure(NOT_CANONICAL)
          case Some(bytes) =>
            Base64.EncodeDecode(text);
            Success(bytes)
  }

  lemma NoColonInEncoding(bs: seq<Byte>)
    ensures ':' !in Base64.Encode(bs) && ',' !in Base64.Encode(bs)
    decreases |bs|
  {
    if |bs| >= 3 {
      NoColonInEncoding(bs[3..]);
    }
  }

  /** Plain base64 text of any byte string renders to those bytes. */
  lemma PlainBase64Renders(bs: seq<Byte>, width: Value)
    requires bs != []
    ensures RenderImageToBuffer(StringInput(Base64.Encode(bs)), width) == Success(bs)
  {
    var text := Base64.Encode(bs);
    NoColonInEncoding(bs);
    DataPrefixHasColon(text);
    assert Source(text) == Some(text);
    Base64.DecodeEncode(bs);
  }

  lemma DataPrefixHasColon(s: string)
    ensures StartsWith(s, "data:") ==> ':' in s
  {
    if StartsWith(s, "data:") {
      assert s[4] == "data:"[4];
    }
  }

  /** A data URI renders to the bytes encoded after its header's comma, the header itself ignored. */
  lemma DataUriRenders(header: string, bs: seq<Byte>, width: Value)
    requires ',' !in header
    ensures RenderImageToBuffer(StringInput("data:" + header + "," + Base64.Encode(bs)), width) == Success(bs)
  {
    var text := Base64.Encode(bs);
    NoColonInEncoding(bs);
    var s := "data:" + header + "," + text;
    assert s == ("data:" + header) + "," + text;
    assert s[..5] == "data:";
    assert s == ("data:" + header) + [','] + text;
    SplitWithoutSeparator(text, ',');
    SplitAtSeparator("data:" + header, ',', text);
    Base64.DecodeEncode(bs);
  }

  /** A `data:` string without a comma has an undefined source, which the decoder refuses. */
  lemma DataUriWithoutComma(s: string, width: Value)
    requires StartsWith(s, "data:") && ',' !in s
    ensures RenderImageToBuffer(StringInput(s), width) == Failure(UNDEFINED_SOURCE)
  {
  }

  /** The requested width never changes the result. */
  lemma WidthIgnored(input: ImageInput, w1: Value, w2: Value)
    ensures RenderImageToBuffer(input, w1) == RenderImageToBuffer(input, w2)
  {
  }
}
