/** lib/analyze.js: compare an original buffer with its optimised version. */
module Analysis {
  import opened Base
  import opened Collaborators
  import opened Decode

  /** AnalyzeData: byte sizes, what was saved, and the SSIM score. */
  datatype AnalyzeData = AnalyzeData(originalSize: nat, optimizedSize: nat, saved: int, percent: real, ssim: real)

  /** The share of `whole` that `part` is, in percent; 0 when `whole` is not
      positive. Used for a file's percent and for a batch's average. */
  function Percent(part: int, whole: int): (p: real)
    ensures whole <= 0 ==> p == 0.0
    ensures whole > 0 ==> p * whole as real == part as real * 100.0
  {
    if whole > 0 then (part as real / whole as real) * 100.0 else 0.0
  }

  lemma {:induction false} PercentBounds(part: int, whole: int)
    requires 0 <= part <= whole
    ensures 0.0 <= Percent(part, whole) <= 100.0
  {
    if whole > 0 {
      var q := part as real / whole as real;
      assert q * whole as real == part as real;
      assert 0.0 <= q <= 1.0;
    }
  }

  /** analyze(original, optimized). Both buffers are decoded in one
      `Promise.all([decode(original), decode(optimized)])`: an unsupported
      format makes `decode` throw synchronously while the array is built, so
      the original's dispatch error comes first, then the optimised one's,
      and only then a decoder rejection (the original's first). */
  function Analyze(env: Env, original: Bytes, optimized: Bytes): (r: Result<AnalyzeData>)
    ensures r.Success? <==>
      DecodeImage(env, original).Success? && DecodeImage(env, optimized).Success? &&
      env.ssim(DecodeImage(env, original).value, DecodeImage(env, optimized).value).Success?
    ensures r.Success? ==>
      r.value.originalSize == |original| && r.value.optimizedSize == |optimized| &&
      r.value.saved == |original| - |optimized| &&
      r.value.percent == Percent(r.value.saved, r.value.originalSize) &&
      r.value.ssim == env.ssim(DecodeImage(env, original).value, DecodeImage(env, optimized).value).value
    ensures Dispatch(env.fileType(original)).Failure? ==>
      r == Failure(Dispatch(env.fileType(original)).error)
    ensures Dispatch(env.fileType(original)).Success? && Dispatch(env.fileType(optimized)).Failure? ==>
      r == Failure(Dispatch(env.fileType(optimized)).error)
    ensures (Dispatch(env.fileType(original)).Success? && Dispatch(env.fileType(optimized)).Success? &&
             RunDecoder(env, Dispatch(env.fileType(original)).value, original).Failure?) ==>
      r == Failure(RunDecoder(env, Dispatch(env.fileType(original)).value, original).error)
    ensures (Dispatch(env.fileType(original)).Success? && Dispatch(env.fileType(optimized)).Success? &&
             RunDecoder(env, Dispatch(env.fileType(original)).value, original).Success? &&
             RunDecoder(env, Dispatch(env.fileType(optimized)).value, optimized).Failure?) ==>
      r == Failure(RunDecoder(env, Dispatch(env.fileType(optimized)).value, optimized).error)
  {
    var first :- Dispatch(env.fileType(original));
    var second :- Dispatch(env.fileType(optimized));
    var a :- RunDecoder(env, first, original);
    var b :- RunDecoder(env, second, optimized);
    var quality :- env.ssim(a, b);
    var saved := |original| - |optimized|;
    Success(AnalyzeData(|original|, |optimized|, saved, Percent(saved, |original|), quality))
  }

  /** What the size guard of handleFile guarantees about the data analyze produces. */
  predicate Guarded(d: AnalyzeData) {
    d.optimizedSize <= d.originalSize &&
    d.saved == d.originalSize - d.optimizedSize &&
    0.0 <= d.percent <= 100.0
  }

  /** Fed a buffer no longer than the original, analyze reports a saving of
      at least 0 bytes and a percentage between 0 and 100. */
  lemma AnalyzeGuarded(env: Env, original: Bytes, optimized: Bytes)
    requires |optimized| <= |original|
    requires Analyze(env, original, optimized).Success?
    ensures Guarded(Analyze(env, original, optimized).value)
    ensures Analyze(env, original, optimized).value.saved >= 0
  {
    PercentBounds(|original| - |optimized|, |original|);
  }

  /** A buffer compared with itself saves nothing; the score is whatever the
      comparator gives for two equal bitmaps. */
  lemma AnalyzeSelf(env: Env, content: Bytes)
    requires Analyze(env, content, content).Success?
    ensures Analyze(env, content, content).value.saved == 0
    ensures Analyze(env, content, content).value.percent == 0.0
    ensures var b := DecodeImage(env, content).value;
      Analyze(env, content, content).value.ssim == env.ssim(b, b).value
  {
  }
}
