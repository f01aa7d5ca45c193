/** lib/decode.js: decode a jpg or webp buffer to an RGBA bitmap, choosing
    the decoder by the format file-type sniffs from the content. */
module Decode {
  import opened Base
  import opened Collaborators

  const UnsupportedMessage := "image content should be encoded as jpg or webp"

  /** The engine's message for reading `.ext` of the null file-type returns
      for content it does not recognise (the wording of Node.js 8 to 15). */
  const NullExtMessage := "Cannot read property 'ext' of null"

  datatype Decoder = JpegDecoder | WebpDecoder

  predicate Supported(tag: Option<string>) {
    tag == Some("jpg") || tag == Some("webp")
  }

  /** The synchronous part of decode: the switch on `fileType(input).ext`,
      which throws before any decoder promise exists. */
  function Dispatch(tag: Option<string>): (r: Result<Decoder>)
    ensures r.Success? <==> Supported(tag)
    ensures r == Success(JpegDecoder) <==> tag == Some("jpg")
    ensures r.Failure? ==> r.error.name == TypeError
    ensures r.Failure? ==> (r.error.message == UnsupportedMessage <==> tag.Some?)
  {
    match tag
    case None => Failure(Exception(TypeError, NullExtMessage))
    case Some(ext) =>
      if ext == "jpg" then Success(JpegDecoder)
      else if ext == "webp" then Success(WebpDecoder)
      else Failure(Exception(TypeError, UnsupportedMessage))
  }

  /** decodeJpeg / decodeWebp: the decoder runs inside a promise executor,
      so whatever it throws becomes a rejection; the record it resolves with
      always reports 4 channels. */
  function RunDecoder(env: Env, d: Decoder, input: Bytes): (r: Result<Bitmap>)
    ensures r.Success? ==> r.value.channels == 4
    ensures r.Success? ==> FromRaw(d, env, input, r.value)
    ensures r.Failure? ==> Raw(d, env, input).Failure? && r.error == Raw(d, env, input).error
  {
    match d
    case JpegDecoder => ToBitmap(env.decodeJpeg(input))
    case WebpDecoder => ToBitmap(env.decodeWebp(input))
  }

  /** The foreign decoder `d` stands for. */
  function Raw(d: Decoder, env: Env, input: Bytes): Result<RawImage> {
    match d
    case JpegDecoder => env.decodeJpeg(input)
    case WebpDecoder => env.decodeWebp(input)
  }

  /** `b` carries exactly the samples and the dimensions the foreign decoder produced. */
  predicate FromRaw(d: Decoder, env: Env, input: Bytes, b: Bitmap) {
    Raw(d, env, input) == Success(RawImage(b.data, b.width, b.height))
  }

  function ToBitmap(raw: Result<RawImage>): Result<Bitmap> {
    match raw
    case Failure(e) => Failure(e)
    case Success(img) => Success(Bitmap(img.data, img.width, img.height, 4))
  }

  /** decode(input) as a whole: the dispatch, then the chosen decoder. */
  function DecodeImage(env: Env, input: Bytes): (r: Result<Bitmap>)
    ensures r.Success? ==> Supported(env.fileType(input)) && r.value.channels == 4
    ensures env.fileType(input) == Some("jpg") ==>
      (r.Success? <==> env.decodeJpeg(input).Success?) &&
      (r.Success? ==> FromRaw(JpegDecoder, env, input, r.value))
    ensures env.fileType(input) == Some("webp") ==>
      (r.Success? <==> env.decodeWebp(input).Success?) &&
      (r.Success? ==> FromRaw(WebpDecoder, env, input, r.value))
  {
    var d :- Dispatch(env.fileType(input));
    RunDecoder(env, d, input)
  }

  /** An unrecognised buffer and a recognised but unsupported format both fail
      with a TypeError, but only the second carries the decoder's own message. */
  lemma UnknownDiffersFromUnsupported(env: Env, unknown: Bytes, other: Bytes)
    requires env.fileType(unknown) == None
    requires env.fileType(other).Some? && !Supported(env.fileType(other))
    ensures DecodeImage(env, unknown).Failure? && DecodeImage(env, other).Failure?
    ensures DecodeImage(env, unknown).error.name == DecodeImage(env, other).error.name == TypeError
    ensures DecodeImage(env, other).error.message == UnsupportedMessage
    ensures DecodeImage(env, unknown).error.message != UnsupportedMessage
  {
  }
}
