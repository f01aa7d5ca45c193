# webp-jpeg-comparison, modelled in Dafny

The repository benchmarks two image-compression strategies against each
other. It takes every `./src/*.jpg`, optimises it once with mozjpeg and once
with the WebP encoder (both imagemin plugins), and keeps an optimised file
only if it is strictly smaller than the source. It decodes the source and the
kept file, scores them with SSIM and writes the kept bytes to `./dest`,
renamed to `.webp` when they are WebP. Then it totals each batch and says
which strategy saves more bytes and which keeps more quality.

The model covers these files:

- `lib/minify.js` (module `Minifier`): the plugins check, the left-to-right
  plugin pipe, the size guard, the destination path, the path-prefixed error
  and the all-or-nothing batch. `handleFile` is the specification function
  `FileOutcome` plus the imperative method `HandleFile`, which keeps the
  intermediate contents in local variables as the promise chain keeps them
  in its `data` object.
- `lib/analyze.js` (module `Analysis`): sizes, saving, percentage and the
  comparator's score.
- `lib/decode.js` (module `Decode`): the switch on the sniffed format, and
  the 4-channel bitmap record.
- `index.js` (module `Index`): `getTotalStats` as a method with a loop over
  running totals, the best/worst verdicts, and the main flow as `Benchmark`.

Everything the core calls but does not define is a field of the `Env`
datatype (module `Collaborators`). These fields are total functions, and a
rejected promise or a thrown exception is a `Failure`. They are: `fs.readFile`,
`make-dir`, `fs.writeFile`, `globby`, `file-type`, the jpeg-js and libwebp
decoders, and `image-ssim`. An imagemin plugin is a function from bytes to
a result. Module `Paths` gives the POSIX rules of `path.basename`,
`path.dirname`, `path.extname` and `path.join`, and the rule of
`replace-ext` (its 1.x form: join the dirname with the new name). They hold
for paths without trailing slashes whose only `.` segments lead the
directory given to `path.join`: `join` drops those, so `./dest` and `a.jpg`
join to `dest/a.jpg`.

`Basename`, `Dirname`, `Stem`, `Join`, `ReplaceExt`, `Destination` and
`Process` are plain definitions without contracts of their own, so that
the path facts stay out of the proofs about handleFile that do not need
them. What they promise is stated by the lemmas named in their rows:
`BasenameIsLastComponent`, `DirnameSplits`, `StemAndExtname`, `JoinShape`,
`ReplaceExtEndsWith`, `DestinationPlacement` and `ProcessStages`.

Behaviour of the code that the model keeps, where a reader might expect
otherwise:

- The plugins option is checked after the file is read, for each file. It
  is not checked once before any I/O. A read failure therefore wins over a
  bad plugins option, and the TypeError is prefixed with the file path like
  any other error.
- Only a truthy non-array value gets "The plugins option should be an
  `Array`". `undefined` and `null` pass the check and then fail when
  `.length` is read. `false`, `0`, `NaN` and `""` pass the check and work
  as an empty plugin list.
- `decode` throws synchronously while `analyze` builds its
  `Promise.all` array, so the error reported is fixed in this order: a
  dispatch error of the original, then a dispatch error of the optimised
  buffer, then a decoder rejection of the original, then one of the
  optimised buffer.
- A buffer that `file-type` does not recognise fails with a TypeError from
  reading `.ext` of null. It does not get decode's own message. The model
  uses the wording of Node.js 8 to 15 for such messages.
- `index.js` saves `./dest/result.json` before it prints the totals
  (index.js:41-43), so a failed write of that report is the run's error.
- An empty batch makes `getTotalStats` return undefined. When the report
  was saved, `index.js` then fails with a TypeError as it prints the totals
  (`Benchmark`).

## Model

| member | source | states |
|---|---|---|
| Minifier.Pipe | lib/minify.js:39 | an empty plugin list is the identity |
| Minifier.PipeAppend | lib/minify.js:39 | piping through `p + q` is piping through `p`, then through `q` on its output, and a failure in `p` stops the pipe |
| Minifier.PipeSnoc | lib/minify.js:39 | the last plugin consumes the previous stages' output, and the pipe fails if they did |
| Minifier.PipeFailsAtStage | lib/minify.js:39 | a stage that fails on its predecessors' output makes the whole pipe fail with that stage's error |
| Minifier.PipeFailureHasStage | lib/minify.js:39 | a pipe that fails has a failing stage whose error is the pipe's error |
| Minifier.PipeFailsIff | lib/minify.js:39 | the pipe fails if and only if one of its stages fails |
| Minifier.PipeStage | lib/minify.js:35-39 | a truthy non-array fails with the named TypeError; undefined/null fail with a different TypeError; other falsy values are the identity; an array pipes through its plugins, and an empty one is the identity |
| Minifier.Guard | lib/minify.js:47 | the kept buffer is the original or the candidate, its length is the smaller length of the two, and a tie keeps the original |
| Minifier.GuardIdempotent | lib/minify.js:47 | guarding a guarded buffer again changes nothing |
| Minifier.DestinationPlacement | lib/minify.js:55-56 | without WebP content the destination is `join(output, basename(input))`; its basename is the input's, or the input's stem plus `.webp` exactly when the kept bytes sniff as webp, and then its extension is `.webp`; for an output directory that is not empty, not `.` and does not end with a slash, the file lies directly in that directory without its leading `./` |
| Minifier.DestinationRenamesToWebp | lib/minify.js:55-56 | with the program's own paths, `./src/a.jpg` goes to `dest/a.webp` when the kept bytes sniff as webp and to `dest/a.jpg` otherwise |
| Minifier.Annotate | lib/minify.js:64-66 | the error keeps its constructor, and its message is "Error in file: " + path + a blank line, followed by the old message |
| Minifier.FileOutcome | lib/minify.js:28-67 | every failure is prefixed with the file path; a read failure is reported ahead of any plugins problem; a failure of the plugins check or of the pipe fails the file with that error |
| Minifier.ProcessStages | lib/minify.js:32-63 | a promise chain that resolves passed the read, the plugins, the analysis, make-dir of the destination's directory and the write, and resolves to the analysis, the destination and the kept bytes |
| Minifier.FileOutcomeSuccess | lib/minify.js:32-62 | a file that succeeds was read and piped, the bytes written are the guarded bytes and are no larger than the input, make-dir of the destination's directory and the write at the destination succeeded, the kept bytes are jpg or webp, and the analysis is `Analyze` of the input and the written bytes, so it carries the comparator's score, with a saving of at least 0 and a percentage in [0, 100] |
| Minifier.FileOutcomeIdentity | lib/minify.js:39-47 | with no plugins, the original bytes are written back and nothing is saved |
| Minifier.FileOutcomeKeepsName | lib/minify.js:47-56 | if the guard reverts to an original jpg, the file keeps its name |
| Minifier.FileOutcomeAnalyzeFailure | lib/minify.js:50-67 | after a successful read and pipe, a failing analysis of the original and the guarded bytes fails the file with the analysis error, prefixed with the file path |
| Minifier.FileOutcomeMakeDirFailure | lib/minify.js:60-67 | after a successful analysis, a failing make-dir of the destination's directory fails the file with make-dir's error, prefixed |
| Minifier.FileOutcomeWriteFailure | lib/minify.js:61-67 | after a successful make-dir, a failing write of the kept bytes at the destination fails the file with the write error, prefixed |
| Minifier.HandleFile | lib/minify.js:28-68 | the step-by-step handleFile, with its local contents, resolves exactly as `FileOutcome` |
| Minifier.HandleAll | lib/minify.js:84-85 | all files succeed if and only if the batch does; it gives one result per path, in path order; a failed batch carries the error of one of its failed files |
| Minifier.Minify | lib/minify.js:77-87 | a non-array input is rejected with its TypeError before globbing; a glob failure is passed on; otherwise the batch behaves as `HandleAll` over the matched paths |
| Minifier.MinifyFailureNamesFile | lib/minify.js:64-66 | a failed batch's message starts with the prefix of one of its matched files |
| Analysis.Percent | lib/analyze.js:28 | with a positive whole, the percentage times the whole is the part times 100; otherwise it is 0 |
| Analysis.PercentBounds | lib/analyze.js:28 | a part between 0 and the whole is between 0 and 100 percent |
| Analysis.Analyze | lib/analyze.js:21-37 | analyze succeeds if and only if both buffers decode and the comparator succeeds; the sizes are the buffer lengths, the saving is their difference, the percentage follows `Percent`, and the score is the comparator's on the two bitmaps; dispatch errors come first, the original's before the optimised buffer's, then a decoder rejection of the original before one of the optimised buffer |
| Analysis.AnalyzeGuarded | lib/analyze.js:25-28 | fed a buffer no longer than the original, the saving is at least 0 and the percentage lies in [0, 100] |
| Analysis.AnalyzeSelf | lib/analyze.js:24-28 | a buffer compared with itself saves 0 bytes and 0 percent, and the score is the comparator's on two equal bitmaps |
| Decode.Dispatch | lib/decode.js:53-61 | dispatch succeeds exactly for `jpg` and `webp`, `jpg` picks the JPEG decoder, every failure is a TypeError, and decode's own message appears exactly when file-type recognised the buffer |
| Decode.RunDecoder | lib/decode.js:10-45 | the bitmap reports 4 channels and carries the foreign decoder's data, width and height; a decoder failure is passed on unchanged |
| Decode.DecodeImage | lib/decode.js:52-63 | a decoded bitmap has 4 channels and comes from a jpg or webp buffer; for a jpg (webp) buffer decoding succeeds exactly when the JPEG (WebP) decoder does, and it passes its output through |
| Decode.UnknownDiffersFromUnsupported | lib/decode.js:53-61 | an unrecognised buffer and a recognised unsupported format both fail with a TypeError, and only the second has the message "image content should be encoded as jpg or webp" |
| Index.GetTotalStats | index.js:60-87 | no totals for a missing or empty list; otherwise the size and saving totals are the sums of the per-file fields, `avgPercent` is `Percent` of the saving total over the original total, and `avgSsim` is the mean score |
| Index.SsimSumBounds | index.js:73 | bounds on every score bound the score sum, scaled by the number of files |
| Index.AverageSsimBetween | index.js:77 | the mean SSIM lies between any lower and upper bound of the per-file scores |
| Index.TotalsGuarded | index.js:65-75 | over guarded per-file results, the total saving is the original total minus the optimised total, it is at least 0, and the average percentage lies in [0, 100] |
| Index.ThreeFileTotals | index.js:65-82 | files of 1000/2000/3000 bytes optimised to 800/2000/2500 bytes save 700 of 6000 bytes, which is 35/3 percent |
| Index.SumOriginalPointwise | index.js:70 | batches with equal original sizes file by file have equal original totals |
| Index.BatchGuarded | lib/minify.js:47 | every result of a successful batch passed the size guard |
| Index.SameSources | index.js:15-22 | two strategies run over the same globs give batches of the same length with the same original total |
| Index.Compare | index.js:45-54 | jpeg is best by size exactly when its saving is at least webp's; the worst is always the other strategy; with the same sources the size difference is the absolute difference of the optimised totals; jpeg is best by quality exactly when its mean SSIM is at least webp's; the quality difference is the absolute difference of the mean scores |
| Index.CompareSwapped | index.js:45-54 | for any two totals, swapping them swaps the size winner and the quality winner unless they tie, a tie in either staying with jpeg, and keeps the quality difference |
| Index.CompareSwappedSize | index.js:45-47 | over the same sources, swapping the two totals keeps the size difference |
| Index.Benchmark | index.js:15-57 | the run succeeds exactly when both batches succeed, the report `./dest/result.json` holding both totals and both batches is saved, and both batches are non-empty; a failed batch's error is passed on, then a failed save's, and an empty batch fails with a TypeError; the totals are those of the two batches; both batches have the same original total; both differences are at least 0; each strategy saves at least 0 bytes and between 0 and 100 percent |
| Paths.LastIndex | lib/minify.js:55 | the index is that of the last occurrence of the character, or -1 when there is none |
| Paths.BasenameIsLastComponent | lib/minify.js:55 | `path.basename` is the longest slash-free suffix: it has no slash, ends the path, and a slash precedes it unless it is the whole path |
| Paths.DirnameSplits | lib/minify.js:60 | `path.dirname` of a slash-free path is `.`; otherwise the dirname, a slash and the basename make up the path, the dirname `/` of a root entry being that slash |
| Paths.Extname | lib/minify.js:56 | the extension is empty or a suffix of the name that starts with a dot |
| Paths.StemAndExtname | lib/minify.js:56 | the name without its extension, followed by the extension, is the name |
| Paths.JoinShape | lib/minify.js:55 | `path.join` ends with the name; with an empty or `.` directory it is the name; otherwise it is the directory without its leading `./` segments, a slash only when that directory lacks a trailing one, and the name |
| Paths.BasenameOfJoin | lib/minify.js:55 | the basename of a slash-free name joined to any directory is that name |
| Paths.DirnameOfJoin | lib/minify.js:55-60 | a slash-free name joined to a directory (not empty, not `.`, no trailing slash) has that directory, without its leading `./`, as its dirname |
| Paths.ReplaceExtEndsWith | lib/minify.js:56 | replace-ext leaves an empty path as it is and otherwise gives a path ending with the new extension |
| Paths.BasenameOfReplaceExt | lib/minify.js:56 | after replace-ext the basename is the old stem followed by the new extension |
| Paths.DirnameOfReplaceExt | lib/minify.js:56-60 | replace-ext keeps a joined path in the directory it was joined to |
| Paths.ExtnameAfterReplace | lib/minify.js:56 | a non-empty stem given the extension `.webp` has the extension `.webp` |

## Left out

- File-system I/O, `globby`, `file-type`, the codecs, the decoders and
  `image-ssim` are functions of `Env` and are not modelled further. So the
  model does not show that a file written in one step is read back by a
  later one, or that SSIM is at its maximum for identical bitmaps.
- The `width`/`height` out-objects that libwebp fills in are folded into
  the WebP decoder's result.
- Concurrency: `Promise.all` over files and over the two strategies is a
  sequential map that keeps the order. When several files fail, the model
  reports the first in path order. The real code reports the first to fail
  in time. So the contracts promise only that the error belongs to one of
  the failing files.
- Benchmark: when both batches fail, it reports the jpeg batch's error.
  The real code reports whichever rejects first.
- Benchmark: the saved report's content is `stringify` of a `Report`
  value; JSON serialisation itself and the `avgPercentRound` field it would
  hold are not modelled. Whether `./dest` exists when the report is written
  (for an empty batch make-dir never ran) is up to `env.writeFile`, so the
  empty-batch TypeError is promised only after the save succeeded.
- Benchmark: both strategies write to the same `dest` directory at the
  same time. A webp output that the guard reverts to the original jpg is
  written to the same `dest/a.jpg` as the jpeg strategy's output. The pure
  `Env` cannot show which write lands last.
- Every `console.log` line, `prettyBytes`, the rounded `avgPercentRound`
  string, and the two percentage differences of index.js:48 and index.js:55
  are left out. They are console output only, and their divisors can be 0.
- Errors: every rejection of a collaborator is taken to be an Error object
  with a message. For a rejection with a string, a number, `undefined` or
  `null`, the assignment at lib/minify.js:65 throws its own TypeError under
  strict mode, and that error carries no file prefix. Constructors other
  than TypeError, such as RangeError or custom Error classes, count as
  Error.
- IEEE floating point: percentages, averages and differences are exact
  `real` numbers.
- Paths: `path.join`'s normalisation of `.` segments other than leading
  ones of the directory, of `..` segments and of repeated slashes, and
  `path.basename`'s stripping of trailing slashes, are not modelled.
  `replace-ext` is modelled with the same `Join`.
- A plugins array whose elements are not functions cannot be written: a
  plugin is typed as a function.
- Engine error messages for reading a property of null or undefined are
  given in one fixed wording. Newer Node.js versions phrase them
  differently.
