/** The libraries the core calls but does not define. Each is a total function
    of its inputs; a promise it rejects or an exception it throws is a Failure. */
module Collaborators {
  import opened Base

  type Path = string

  /** What jpeg-js and libwebp hand back: RGBA samples and the dimensions. */
  datatype RawImage = RawImage(data: Bytes, width: nat, height: nat)

  /** The bitmap record given to the SSIM comparator. */
  datatype Bitmap = Bitmap(data: Bytes, width: nat, height: nat, channels: nat)

  /** An imagemin plugin: a buffer in, a promise of a buffer out. */
  type Plugin = Bytes -> Result<Bytes>

  datatype Env = Env(
    /** fs.readFile */
    readFile: Path -> Result<Bytes>,
    /** make-dir (recursive mkdir) */
    makeDir: Path -> Result<()>,
    /** fs.writeFile */
    writeFile: (Path, Bytes) -> Result<()>,
    /** globby with onlyFiles: the matched file paths in discovery order */
    glob: seq<string> -> Result<seq<Path>>,
    /** file-type: the `ext` of the sniffed format, or None where it returns null */
    fileType: Bytes -> Option<string>,
    /** jpeg-js decode(input, true) */
    decodeJpeg: Bytes -> Result<RawImage>,
    /** libwebp WebPDecodeRGBA with its width/height out-objects */
    decodeWebp: Bytes -> Result<RawImage>,
    /** image-ssim compare(...).ssim */
    ssim: (Bitmap, Bitmap) -> Result<real>
  )
}
