/** index.js: run the jpeg and the webp strategy over the same sources,
    total each batch and decide which strategy wins on size and on quality. */
module Index {
  import opened Base
  import opened Collaborators
  import opened Analysis
  import opened Minifier

  /** What getTotalStats returns (the display string avgPercentRound aside). */
  datatype TotalStats = TotalStats(originalSize: int, optimizedSize: int, saved: int, avgPercent: real, avgSsim: real)

  function SumOriginal(items: seq<FileResult>): int {
    if items == [] then 0 else SumOriginal(items[..|items| - 1]) + items[|items| - 1].analysis.originalSize
  }

  function SumOptimized(items: seq<FileResult>): int {
    if items == [] then 0 else SumOptimized(items[..|items| - 1]) + items[|items| - 1].analysis.optimizedSize
  }

  function SumSaved(items: seq<FileResult>): int {
    if items == [] then 0 else SumSaved(items[..|items| - 1]) + items[|items| - 1].analysis.saved
  }

  function SumSsim(items: seq<FileResult>): real {
    if items == [] then 0.0 else SumSsim(items[..|items| - 1]) + items[|items| - 1].analysis.ssim
  }

  /** The totals of a non-empty batch: sums of the per-file sizes, the saving
      as a share of the original total, and the mean SSIM. */
  function Totals(items: seq<FileResult>): TotalStats
    requires |items| > 0
  {
    TotalStats(SumOriginal(items), SumOptimized(items), SumSaved(items),
               Percent(SumSaved(items), SumOriginal(items)), SumSsim(items) / |items| as real)
  }

  /** getTotalStats(images): undefined for a missing or empty list, otherwise
      the totals accumulated over the list in one pass. */
  method GetTotalStats(images: Option<seq<FileResult>>) returns (r: Option<TotalStats>)
    ensures r.None? <==> images.None? || |images.value| == 0
    ensures r.Some? ==> r.value == Totals(images.value)
  {
    if images.None? || |images.value| == 0 {
      return None;
    }
    var items := images.value;
    var totalOriginal, totalOptimized, totalSaved := 0, 0, 0;
    var totalSsim := 0.0;
    for i := 0 to |items|
      invariant totalOriginal == SumOriginal(items[..i])
      invariant totalOptimized == SumOptimized(items[..i])
      invariant totalSaved == SumSaved(items[..i])
      invariant totalSsim == SumSsim(items[..i])
    {
      assert items[..i + 1][..i] == items[..i];
      totalOriginal := totalOriginal + items[i].analysis.originalSize;
      totalOptimized := totalOptimized + items[i].analysis.optimizedSize;
      totalSaved := totalSaved + items[i].analysis.saved;
      totalSsim := totalSsim + items[i].analysis.ssim;
    }
    assert items[..|items|] == items;
    var avgPercent := if totalOriginal > 0 then (totalSaved as real / totalOriginal as real) * 100.0 else 0.0;
    var avgSsim := totalSsim / |items| as real;
    r := Some(TotalStats(totalOriginal, totalOptimized, totalSaved, avgPercent, avgSsim));
  }

  /** Bounds every score in a batch keeps bound its SSIM sum scaled by the batch size. */
  lemma {:induction false} SsimSumBounds(items: seq<FileResult>, lo: real, hi: real)
    requires forall i :: 0 <= i < |items| ==> lo <= items[i].analysis.ssim <= hi
    ensures |items| as real * lo <= SumSsim(items) <= |items| as real * hi
  {
    if items != [] {
      var init := items[..|items| - 1];
      assert forall i :: 0 <= i < |init| ==> init[i] == items[i];
      SsimSumBounds(init, lo, hi);
    }
  }

  /** The mean SSIM lies between any lower and upper bound of the item scores,
      so between the smallest and the largest of them. */
  lemma AverageSsimBetween(items: seq<FileResult>, lo: real, hi: real)
    requires |items| > 0
    requires forall i :: 0 <= i < |items| ==> lo <= items[i].analysis.ssim <= hi
    ensures lo <= Totals(items).avgSsim <= hi
  {
    SsimSumBounds(items, lo, hi);
    var n := |items| as real;
    var avg := SumSsim(items) / n;
    assert avg * n == SumSsim(items);
    assert lo <= avg <= hi;
  }

  /** Over per-file results the size guard let through, the totals are
      consistent: the saving is the difference of the sizes, at least 0, and
      the average percentage lies between 0 and 100. */
  lemma {:induction false} TotalsGuarded(items: seq<FileResult>)
    requires forall i :: 0 <= i < |items| ==> Guarded(items[i].analysis)
    ensures SumSaved(items) == SumOriginal(items) - SumOptimized(items)
    ensures 0 <= SumSaved(items) <= SumOriginal(items)
    ensures 0.0 <= Percent(SumSaved(items), SumOriginal(items)) <= 100.0
  {
    if items != [] {
      var init := items[..|items| - 1];
      assert forall i :: 0 <= i < |init| ==> init[i] == items[i];
      TotalsGuarded(init);
      assert Guarded(items[|items| - 1].analysis);
    }
    PercentBounds(SumSaved(items), SumOriginal(items));
  }

  /** Three files of 1000, 2000 and 3000 bytes optimised to 800, 2000 (a tie,
      so the original is kept) and 2500 bytes save 700 of 6000 bytes. */
  lemma ThreeFileTotals(d: Path, w: Bytes, s1: real, s2: real, s3: real)
    ensures var items := [FileResult(AnalyzeData(1000, 800, 200, 20.0, s1), d, w),
                          FileResult(AnalyzeData(2000, 2000, 0, 0.0, s2), d, w),
                          FileResult(AnalyzeData(3000, 2500, 500, 50.0 / 3.0, s3), d, w)];
      && Totals(items).originalSize == 6000 && Totals(items).optimizedSize == 5300
      && Totals(items).saved == 700 && Totals(items).avgPercent == 35.0 / 3.0
      && Totals(items).avgSsim == (s1 + s2 + s3) / 3.0
  {
    var items := [FileResult(AnalyzeData(1000, 800, 200, 20.0, s1), d, w),
                  FileResult(AnalyzeData(2000, 2000, 0, 0.0, s2), d, w),
                  FileResult(AnalyzeData(3000, 2500, 500, 50.0 / 3.0, s3), d, w)];
    assert items[..2][..1] == items[..1] && items[..1][..0] == [];
    assert SumOriginal(items[..1]) == 1000 && SumOptimized(items[..1]) == 800;
    assert SumSaved(items[..1]) == 200 && SumSsim(items[..1]) == s1;
    assert SumOriginal(items[..2]) == 3000 && SumOptimized(items[..2]) == 2800;
    assert SumSaved(items[..2]) == 200 && SumSsim(items[..2]) == s1 + s2;
    assert items[..3] == items;
  }

  /** Two batches whose files have the same original sizes, pairwise, have the same original total. */
  lemma {:induction false} SumOriginalPointwise(a: seq<FileResult>, b: seq<FileResult>)
    requires |a| == |b|
    requires forall i :: 0 <= i < |a| ==> a[i].analysis.originalSize == b[i].analysis.originalSize
    ensures SumOriginal(a) == SumOriginal(b)
  {
    if a != [] {
      var a', b' := a[..|a| - 1], b[..|b| - 1];
      assert forall i :: 0 <= i < |a'| ==> a'[i] == a[i] && b'[i] == b[i];
      SumOriginalPointwise(a', b');
    }
  }

  /** Every file of a batch minify resolves with passed the size guard. */
  lemma BatchGuarded(env: Env, input: InputOption, output: Path, plugins: PluginsOption)
    requires Minify(env, input, output, plugins).Success?
    ensures var items := Minify(env, input, output, plugins).value;
      forall i :: 0 <= i < |items| ==> Guarded(items[i].analysis)
  {
    var items := Minify(env, input, output, plugins).value;
    var paths := env.glob(input.patterns).value;
    forall i | 0 <= i < |items| ensures Guarded(items[i].analysis) {
      FileOutcomeSuccess(env, paths[i], output, plugins);
    }
  }

  /** Two strategies run by minify over the same globs read the same files,
      so their batches have the same original total. */
  lemma SameSources(env: Env, input: InputOption, output: Path, p: PluginsOption, q: PluginsOption)
    requires Minify(env, input, output, p).Success? && Minify(env, input, output, q).Success?
    ensures |Minify(env, input, output, p).value| == |Minify(env, input, output, q).value|
    ensures SumOriginal(Minify(env, input, output, p).value) == SumOriginal(Minify(env, input, output, q).value)
  {
    var a := Minify(env, input, output, p).value;
    var b := Minify(env, input, output, q).value;
    var paths := env.glob(input.patterns).value;
    forall i | 0 <= i < |a| ensures a[i].analysis.originalSize == b[i].analysis.originalSize {
      FileOutcomeSuccess(env, paths[i], output, p);
      FileOutcomeSuccess(env, paths[i], output, q);
    }
    SumOriginalPointwise(a, b);
  }

  /** The two strategies index.js compares, keyed 'jpeg' and 'webp'. */
  datatype Strategy = Jpeg | Webp

  function Other(s: Strategy): Strategy {
    if s == Jpeg then Webp else Jpeg
  }

  /** stats[name] */
  function StatsOf(s: Strategy, jpeg: TotalStats, webp: TotalStats): TotalStats {
    if s == Jpeg then jpeg else webp
  }

  /** The size and quality verdicts of index.js. */
  datatype Verdict = Verdict(bestSize: Strategy, worstSize: Strategy, diffSize: int,
                             bestQuality: Strategy, worstQuality: Strategy, diffQuality: real)

  /** The totals of a batch agree with each other: saving is original minus optimised. */
  predicate Consistent(t: TotalStats) {
    t.saved == t.originalSize - t.optimizedSize
  }

  function Abs(x: real): real {
    if x < 0.0 then -x else x
  }

  /** Best and worst by size (larger saving wins, jpeg on a tie) and by
      quality (larger average SSIM wins, jpeg on a tie), with the differences. */
  function Compare(jpeg: TotalStats, webp: TotalStats): (v: Verdict)
    ensures v.bestSize == Jpeg <==> jpeg.saved >= webp.saved
    ensures v.worstSize == Other(v.bestSize)
    ensures StatsOf(v.bestSize, jpeg, webp).saved >= StatsOf(v.worstSize, jpeg, webp).saved
    ensures jpeg.originalSize == webp.originalSize && Consistent(jpeg) && Consistent(webp) ==>
      v.diffSize >= 0 && v.diffSize as real == Abs((jpeg.optimizedSize - webp.optimizedSize) as real)
    ensures v.bestQuality == Jpeg <==> jpeg.avgSsim >= webp.avgSsim
    ensures v.worstQuality == Other(v.bestQuality)
    ensures v.diffQuality >= 0.0 && v.diffQuality == Abs(jpeg.avgSsim - webp.avgSsim)
  {
    var bestSize := if jpeg.saved >= webp.saved then Jpeg else Webp;
    var worstSize := if jpeg.saved < webp.saved then Jpeg else Webp;
    var diffSize := StatsOf(worstSize, jpeg, webp).optimizedSize - StatsOf(bestSize, jpeg, webp).optimizedSize;
    var bestQuality := if jpeg.avgSsim >= webp.avgSsim then Jpeg else Webp;
    var worstQuality := if jpeg.avgSsim < webp.avgSsim then Jpeg else Webp;
    var diffQuality := StatsOf(bestQuality, jpeg, webp).avgSsim - StatsOf(worstQuality, jpeg, webp).avgSsim;
    Verdict(bestSize, worstSize, diffSize, bestQuality, worstQuality, diffQuality)
  }

  /** Swapping the two totals swaps the winners unless they tie, a tie
      staying with jpeg, and leaves the quality advantage unchanged. */
  lemma CompareSwapped(a: TotalStats, b: TotalStats)
    ensures Compare(b, a).diffQuality == Compare(a, b).diffQuality
    ensures a.saved != b.saved ==> Compare(b, a).bestSize == Other(Compare(a, b).bestSize)
    ensures a.saved == b.saved ==> Compare(b, a).bestSize == Compare(a, b).bestSize == Jpeg
    ensures a.avgSsim != b.avgSsim ==> Compare(b, a).bestQuality == Other(Compare(a, b).bestQuality)
    ensures a.avgSsim == b.avgSsim ==> Compare(b, a).bestQuality == Compare(a, b).bestQuality == Jpeg
  {
  }

  /** Over the same sources, swapping the two totals leaves the size
      advantage unchanged. */
  lemma CompareSwappedSize(a: TotalStats, b: TotalStats)
    requires a.originalSize == b.originalSize && Consistent(a) && Consistent(b)
    ensures Compare(b, a).diffSize == Compare(a, b).diffSize
  {
  }

  const SrcDir := "./src"
  const DestDir := "./dest"

  /** The engine's message for reading a field of the undefined totals of an empty batch. */
  const UndefinedTotalsMessage := "Cannot read property 'optimizedSize' of undefined"

  /** What the run computes once both batches are done. */
  datatype Summary = Summary(jpeg: TotalStats, webp: TotalStats, verdict: Verdict)

  /** The report index.js saves before printing: both batches' totals
      (undefined for an empty batch) and their per-file results. */
  datatype Report = Report(jpeg: Option<TotalStats>, webp: Option<TotalStats>,
                           jpegImages: seq<FileResult>, webpImages: seq<FileResult>)

  /** Where the report is saved: the destination directory and "/result.json", concatenated. */
  const ReportPath := DestDir + "/result.json"

  /** getTotalStats of a list that is present, as a value. */
  function TotalStatsOf(images: seq<FileResult>): Option<TotalStats> {
    if |images| == 0 then None else Some(Totals(images))
  }

  function Sources(): InputOption {
    Globs([SrcDir + "/*.jpg"])
  }

  /** The main flow of index.js: minify every source jpg once per strategy,
      total both batches, save the report with `stringify` standing for
      JSON.stringify, and compare the totals. */
  method Benchmark(env: Env, jpegPlugins: seq<Plugin>, webpPlugins: seq<Plugin>, stringify: Report -> Bytes)
    returns (r: Result<Summary>)
    ensures var jr := Minify(env, Sources(), DestDir, Plugins(jpegPlugins));
      var wr := Minify(env, Sources(), DestDir, Plugins(webpPlugins));
      && (jr.Failure? ==> r == Failure(jr.error))
      && (jr.Success? && wr.Failure? ==> r == Failure(wr.error))
      && (jr.Success? && wr.Success? ==>
            var saved := env.writeFile(ReportPath,
              stringify(Report(TotalStatsOf(jr.value), TotalStatsOf(wr.value), jr.value, wr.value)));
            && (r.Success? <==> saved.Success? && |jr.value| > 0 && |wr.value| > 0)
            && (saved.Failure? ==> r == Failure(saved.error))
            && (saved.Success? && (|jr.value| == 0 || |wr.value| == 0) ==>
                  r == Failure(Exception(TypeError, UndefinedTotalsMessage)))
            && (r.Success? ==> r.value.jpeg == Totals(jr.value) && r.value.webp == Totals(wr.value)))
    ensures r.Success? ==> r.value.verdict == Compare(r.value.jpeg, r.value.webp)
    ensures r.Success? ==> r.value.jpeg.originalSize == r.value.webp.originalSize
    ensures r.Success? ==> r.value.verdict.diffSize >= 0 && r.value.verdict.diffQuality >= 0.0
    ensures r.Success? ==> 0 <= r.value.jpeg.saved && 0.0 <= r.value.jpeg.avgPercent <= 100.0
    ensures r.Success? ==> 0 <= r.value.webp.saved && 0.0 <= r.value.webp.avgPercent <= 100.0
  {
    var resultJpeg := Minify(env, Sources(), DestDir, Plugins(jpegPlugins));
    var resultWebp := Minify(env, Sources(), DestDir, Plugins(webpPlugins));
    if resultJpeg.Failure? {
      return Failure(resultJpeg.error);
    }
    if resultWebp.Failure? {
      return Failure(resultWebp.error);
    }
    var jpeg := GetTotalStats(Some(resultJpeg.value));
    var webp := GetTotalStats(Some(resultWebp.value));
    assert jpeg == TotalStatsOf(resultJpeg.value) && webp == TotalStatsOf(resultWebp.value);
    var saved := env.writeFile(ReportPath, stringify(Report(jpeg, webp, resultJpeg.value, resultWebp.value)));
    if saved.Failure? {
      return Failure(saved.error);
    }
    if jpeg.None? || webp.None? {
      return Failure(Exception(TypeError, UndefinedTotalsMessage));
    }
    BatchGuarded(env, Sources(), DestDir, Plugins(jpegPlugins));
    BatchGuarded(env, Sources(), DestDir, Plugins(webpPlugins));
    TotalsGuarded(resultJpeg.value);
    TotalsGuarded(resultWebp.value);
    SameSources(env, Sources(), DestDir, Plugins(jpegPlugins), Plugins(webpPlugins));
    r := Success(Summary(jpeg.value, webp.value, Compare(jpeg.value, webp.value)));
  }
}
