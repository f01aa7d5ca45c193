/** lib/minify.js: optimise one file through a list of imagemin plugins,
    keep the result only if it is smaller, analyse it and write it out;
    and do so for every file a list of globs matches. */
module Minifier {
  import opened Base
  import opened Collaborators
  import opened Paths
  import opened Decode
  import opened Analysis

  const PluginsTypeMessage := "The plugins option should be an `Array`"

  /** The engine's message for reading `.length` of undefined or null. */
  function LengthMessage(of: string): string {
    "Cannot read property 'length' of " + of
  }

  /** The `plugins` argument as handleFile sees it: undefined, null, another
      falsy value (false, 0, NaN, ""), a truthy non-array, or an array. */
  datatype PluginsOption = Undefined | Null | Falsy | NotAnArray | Plugins(list: seq<Plugin>)

  /** The `input` argument of minify: an array of globs, or a value of another
      type, named by what `typeof` says of it. */
  datatype InputOption = Globs(patterns: seq<string>) | NotAnArrayInput(typeOf: string)

  /** What handleFile resolves with: the AnalyzeData it was given, the `dest`
      it adds, and the bytes it wrote there. */
  datatype FileResult = FileResult(analysis: AnalyzeData, dest: Path, written: Bytes)

  /** p-pipe: the plugins applied left to right, each to the previous one's
      output; the first rejection rejects the whole pipe. */
  function Pipe(plugins: seq<Plugin>, content: Bytes): (r: Result<Bytes>)
    ensures plugins == [] ==> r == Success(content)
    decreases |plugins|
  {
    if plugins == [] then Success(content)
    else
      var next :- plugins[0](content);
      Pipe(plugins[1..], next)
  }

  /** Piping through `p + q` is piping through `p`, then through `q`. */
  lemma {:induction false} PipeAppend(p: seq<Plugin>, q: seq<Plugin>, content: Bytes)
    ensures Pipe(p + q, content) ==
      match Pipe(p, content)
      case Failure(e) => Failure(e)
      case Success(x) => Pipe(q, x)
    decreases |p|
  {
    if p == [] {
      assert p + q == q;
    } else {
      assert (p + q)[0] == p[0];
      assert (p + q)[1..] == p[1..] + q;
      match p[0](content)
      case Failure(e) =>
      case Success(next) => PipeAppend(p[1..], q, next);
    }
  }

  /** The last plugin consumes what the pipe before it produced. */
  lemma PipeSnoc(p: seq<Plugin>, last: Plugin, content: Bytes)
    ensures Pipe(p + [last], content) ==
      match Pipe(p, content)
      case Failure(e) => Failure(e)
      case Success(x) => last(x)
  {
    PipeAppend(p, [last], content);
    match Pipe(p, content)
    case Failure(e) =>
    case Success(x) => assert [last][1..] == [];
  }

  /** Stage `k` fails on the output of the stages before it. */
  predicate FailsAt(plugins: seq<Plugin>, content: Bytes, k: int) {
    0 <= k < |plugins| && Pipe(plugins[..k], content).Success? &&
    plugins[k](Pipe(plugins[..k], content).value).Failure?
  }

  /** A stage that fails makes the whole pipe fail with that stage's error. */
  lemma PipeFailsAtStage(plugins: seq<Plugin>, content: Bytes, k: int)
    requires FailsAt(plugins, content, k)
    ensures Pipe(plugins, content) == Failure(plugins[k](Pipe(plugins[..k], content).value).error)
  {
    assert plugins == plugins[..k] + plugins[k..];
    PipeAppend(plugins[..k], plugins[k..], content);
    assert plugins[k..][0] == plugins[k];
  }

  /** A pipe that fails has a stage that failed and produced the pipe's error. */
  lemma {:induction false} PipeFailureHasStage(plugins: seq<Plugin>, content: Bytes)
    requires Pipe(plugins, content).Failure?
    ensures exists k :: (FailsAt(plugins, content, k) &&
      Pipe(plugins, content).error == plugins[k](Pipe(plugins[..k], content).value).error)
    decreases |plugins|
  {
    assert plugins[..0] == [];
    match plugins[0](content)
    case Failure(e) =>
      assert FailsAt(plugins, content, 0);
    case Success(next) =>
      var rest := plugins[1..];
      PipeFailureHasStage(rest, next);
      var j :| FailsAt(rest, next, j) && Pipe(rest, next).error == rest[j](Pipe(rest[..j], next).value).error;
      assert plugins[..j + 1][0] == plugins[0];
      assert plugins[..j + 1][1..] == rest[..j];
      assert Pipe(plugins[..j + 1], content) == Pipe(rest[..j], next);
      assert FailsAt(plugins, content, j + 1);
  }

  /** The pipe fails exactly when one of its stages does. */
  lemma PipeFailsIff(plugins: seq<Plugin>, content: Bytes)
    ensures Pipe(plugins, content).Failure? <==> exists k :: FailsAt(plugins, content, k)
  {
    if Pipe(plugins, content).Failure? {
      PipeFailureHasStage(plugins, content);
    }
    if k :| FailsAt(plugins, content, k) {
      PipeFailsAtStage(plugins, content, k);
    }
  }

  /** Lines 32-39 of handleFile: check the plugins option, then pipe. Only a
      truthy non-array gets the named TypeError; undefined and null pass the
      check and fail on `.length`; other falsy values end as the identity. */
  function PipeStage(plugins: PluginsOption, content: Bytes): (r: Result<Bytes>)
    ensures plugins.NotAnArray? ==> r == Failure(Exception(TypeError, PluginsTypeMessage))
    ensures plugins.Falsy? ==> r == Success(content)
    ensures plugins.Plugins? ==> r == Pipe(plugins.list, content)
    ensures (plugins.Undefined? || plugins.Null?) ==>
      r.Failure? && r.error.name == TypeError && r.error.message != PluginsTypeMessage
  {
    match plugins
    case Undefined => Failure(Exception(TypeError, LengthMessage("undefined")))
    case Null => Failure(Exception(TypeError, LengthMessage("null")))
    case Falsy => Success(content)
    case NotAnArray => Failure(Exception(TypeError, PluginsTypeMessage))
    case Plugins(list) => if |list| > 0 then Pipe(list, content) else Success(content)
  }

  /** The size guard: the candidate is kept only if strictly shorter. */
  function Guard(original: Bytes, candidate: Bytes): (kept: Bytes)
    ensures kept == original || kept == candidate
    ensures |kept| <= |original| && |kept| <= |candidate|
    ensures |candidate| == |original| ==> kept == original
  {
    if |candidate| < |original| then candidate else original
  }

  /** Guarding an already guarded buffer again changes nothing. */
  lemma GuardIdempotent(original: Bytes, candidate: Bytes)
    ensures Guard(original, Guard(original, candidate)) == Guard(original, candidate)
  {
  }

  /** The destination: the input's basename under `output`, with the
      extension rewritten to .webp when the kept bytes sniff as webp. */
  function Destination(env: Env, input: Path, output: Path, kept: Bytes): Path {
    var dest := Join(output, Basename(input));
    if env.fileType(kept) == Some("webp") then ReplaceExt(dest, ".webp") else dest
  }

  /** Where a kept file goes: under its own name in the output directory, or
      renamed to the input's stem plus .webp exactly when the kept bytes
      sniff as webp, and then with the extension .webp. */
  lemma DestinationPlacement(env: Env, input: Path, output: Path, kept: Bytes)
    ensures var dest := Destination(env, input, output, kept);
      && (env.fileType(kept) != Some("webp") ==> dest == Join(output, Basename(input)))
      && (Basename(input) != "" ==>
            Basename(dest) == if env.fileType(kept) == Some("webp") then Stem(Basename(input)) + ".webp" else Basename(input))
      && (Stem(Basename(input)) != "" && env.fileType(kept) == Some("webp") ==> Extname(Basename(dest)) == ".webp")
      && (var d := StripCurrentDir(output);
          d != "" && d != "." && d[|d| - 1] != '/' ==> Dirname(dest) == d)
  {
    DestinationNames(input, output);
    DestinationExtension(input, output);
    DestinationDirectory(input, output);
  }

  lemma WebpExtension()
    ensures NoSlash(".webp")
    ensures |".webp"| >= 2 && forall i :: 0 <= i < |".webp"| ==> (i == 0 <==> ".webp"[i] == '.')
  {
  }

  /** The basename of both candidate destinations. */
  lemma DestinationNames(input: Path, output: Path)
    ensures var dest := Join(output, Basename(input));
      && (Basename(input) != "" ==> Basename(dest) == Basename(input))
      && (Basename(input) != "" ==> Basename(ReplaceExt(dest, ".webp")) == Stem(Basename(input)) + ".webp")
  {
    var base := Basename(input);
    var dest := Join(output, base);
    if base != "" {
      WebpExtension();
      JoinNonEmpty(output, base);
      BasenameHasNoSlash(input);
      BasenameOfJoin(output, base);
      BasenameOfReplaceExt(dest, ".webp");
    }
  }

  /** The renamed destination has the extension .webp when the stem is not empty. */
  lemma DestinationExtension(input: Path, output: Path)
    ensures var dest := Join(output, Basename(input));
      Stem(Basename(input)) != "" ==> Extname(Basename(ReplaceExt(dest, ".webp"))) == ".webp"
  {
    var base := Basename(input);
    var dest := Join(output, base);
    var stem := Stem(base);
    if stem != "" {
      WebpExtension();
      JoinNonEmpty(output, base);
      BasenameHasNoSlash(input);
      BasenameOfJoin(output, base);
      BasenameOfReplaceExt(dest, ".webp");
      ExtnameAfterReplace(stem, ".webp");
    }
  }

  /** Both candidate destinations lie directly in the normalised output directory. */
  lemma DestinationDirectory(input: Path, output: Path)
    ensures var dest := Join(output, Basename(input));
      var d := StripCurrentDir(output);
      d != "" && d != "." && d[|d| - 1] != '/' ==> Dirname(dest) == d
    ensures var dest := Join(output, Basename(input));
      var d := StripCurrentDir(output);
      d != "" && d != "." && d[|d| - 1] != '/' ==> Dirname(ReplaceExt(dest, ".webp")) == d
  {
    var base := Basename(input);
    var d := StripCurrentDir(output);
    if d != "" && d != "." && d[|d| - 1] != '/' {
      WebpExtension();
      BasenameHasNoSlash(input);
      DirnameOfJoin(output, base);
      DirnameOfReplaceExt(output, base, ".webp");
    }
  }

  /** The program's own paths: the source ./src/a.jpg written to ./dest is
      dest/a.webp when its kept bytes sniff as webp, and dest/a.jpg otherwise. */
  lemma DestinationRenamesToWebp(env: Env, kept: Bytes)
    ensures env.fileType(kept) == Some("webp") ==> Destination(env, "./src/a.jpg", "./dest", kept) == "dest/a.webp"
    ensures env.fileType(kept) != Some("webp") ==> Destination(env, "./src/a.jpg", "./dest", kept) == "dest/a.jpg"
  {
    RenameScenario();
  }

  /** The `.catch` of handleFile: the message gets the file path in front. */
  function Annotate(input: Path, e: Exception): (a: Exception)
    ensures a.name == e.name
    ensures |a.message| == |FilePrefix(input)| + |e.message|
    ensures IsPrefix(FilePrefix(input), a.message) && a.message[|FilePrefix(input)|..] == e.message
  {
    Exception(e.name, FilePrefix(input) + e.message)
  }

  function FilePrefix(input: Path): string {
    "Error in file: " + input + "\n\n"
  }

  /** The promise chain of handleFile before its `.catch`. */
  function Process(env: Env, input: Path, output: Path, plugins: PluginsOption): Result<FileResult> {
    var original :- env.readFile(input);
    var piped :- PipeStage(plugins, original);
    var kept := Guard(original, piped);
    var analysis :- Analyze(env, original, kept);
    var dest := Destination(env, input, output, kept);
    var made :- env.makeDir(Dirname(dest));
    var wrote :- env.writeFile(dest, kept);
    Success(FileResult(analysis, dest, kept))
  }

  /** handleFile(input, output, plugins) as a value. */
  function FileOutcome(env: Env, input: Path, output: Path, plugins: PluginsOption): (r: Result<FileResult>)
    ensures r.Failure? ==> IsPrefix(FilePrefix(input), r.error.message)
    ensures env.readFile(input).Failure? ==> r == Failure(Annotate(input, env.readFile(input).error))
    ensures env.readFile(input).Success? && PipeStage(plugins, env.readFile(input).value).Failure? ==>
      r == Failure(Annotate(input, PipeStage(plugins, env.readFile(input).value).error))
  {
    match Process(env, input, output, plugins)
    case Success(v) => Success(v)
    case Failure(e) => Failure(Annotate(input, e))
  }

  /** What a file that got through handleFile tells about what was written. */
  lemma FileOutcomeSuccess(env: Env, input: Path, output: Path, plugins: PluginsOption)
    requires FileOutcome(env, input, output, plugins).Success?
    ensures env.readFile(input).Success?
    ensures var original := env.readFile(input).value;
      var res := FileOutcome(env, input, output, plugins).value;
      && PipeStage(plugins, original).Success?
      && res.written == Guard(original, PipeStage(plugins, original).value)
      && |res.written| <= |original|
      && env.writeFile(res.dest, res.written).Success?
      && Supported(env.fileType(res.written))
      && Guarded(res.analysis)
      && res.analysis.originalSize == |original|
      && res.analysis.optimizedSize == |res.written|
      && res.dest == Destination(env, input, output, res.written)
      && Analyze(env, original, res.written) == Success(res.analysis)
      && env.makeDir(Dirname(res.dest)).Success?
  {
    ProcessStages(env, input, output, plugins);
    var original := env.readFile(input).value;
    AnalyzeGuarded(env, original, Guard(original, PipeStage(plugins, original).value));
  }

  /** A successful Process passed every stage, and its result is made of the
      stages' values. */
  lemma ProcessStages(env: Env, input: Path, output: Path, plugins: PluginsOption)
    requires Process(env, input, output, plugins).Success?
    ensures env.readFile(input).Success?
    ensures var original := env.readFile(input).value;
      && PipeStage(plugins, original).Success?
      && var kept := Guard(original, PipeStage(plugins, original).value);
      && Analyze(env, original, kept).Success?
      && var dest := Destination(env, input, output, kept);
      && env.makeDir(Dirname(dest)).Success?
      && env.writeFile(dest, kept).Success?
      && Process(env, input, output, plugins) == Success(FileResult(Analyze(env, original, kept).value, dest, kept))
  {
  }

  /** With no plugins to run, the original bytes are written back unchanged
      and nothing is reported as saved. */
  lemma FileOutcomeIdentity(env: Env, input: Path, output: Path, plugins: PluginsOption)
    requires plugins.Falsy? || plugins == Plugins([])
    requires FileOutcome(env, input, output, plugins).Success?
    ensures FileOutcome(env, input, output, plugins).value.written == env.readFile(input).value
    ensures FileOutcome(env, input, output, plugins).value.analysis.saved == 0
    ensures FileOutcome(env, input, output, plugins).value.analysis.percent == 0.0
  {
    FileOutcomeSuccess(env, input, output, plugins);
    var original := env.readFile(input).value;
    var res := FileOutcome(env, input, output, plugins).value;
    assert PipeStage(plugins, original) == Success(original);
    assert res.written == original;
    AnalyzeSelf(env, original);
  }

  /** If the guard falls back to an original jpg, the file keeps its name. */
  lemma FileOutcomeKeepsName(env: Env, input: Path, output: Path, plugins: PluginsOption)
    requires FileOutcome(env, input, output, plugins).Success?
    requires env.fileType(env.readFile(input).value) == Some("jpg")
    requires FileOutcome(env, input, output, plugins).value.written == env.readFile(input).value
    ensures FileOutcome(env, input, output, plugins).value.dest == Join(output, Basename(input))
  {
    FileOutcomeSuccess(env, input, output, plugins);
  }

  /** An analysis that fails, after the read and the pipe succeeded, fails
      the file with the analysis error, prefixed by the file path. */
  lemma FileOutcomeAnalyzeFailure(env: Env, input: Path, output: Path, plugins: PluginsOption)
    requires env.readFile(input).Success?
    requires PipeStage(plugins, env.readFile(input).value).Success?
    requires var original := env.readFile(input).value;
      Analyze(env, original, Guard(original, PipeStage(plugins, original).value)).Failure?
    ensures var original := env.readFile(input).value;
      FileOutcome(env, input, output, plugins) ==
        Failure(Annotate(input, Analyze(env, original, Guard(original, PipeStage(plugins, original).value)).error))
  {
  }

  /** A make-dir of the destination's directory that fails, after the
      analysis succeeded, fails the file with make-dir's error, prefixed. */
  lemma FileOutcomeMakeDirFailure(env: Env, input: Path, output: Path, plugins: PluginsOption)
    requires env.readFile(input).Success?
    requires PipeStage(plugins, env.readFile(input).value).Success?
    requires var original := env.readFile(input).value;
      Analyze(env, original, Guard(original, PipeStage(plugins, original).value)).Success?
    requires var original := env.readFile(input).value;
      var kept := Guard(original, PipeStage(plugins, original).value);
      env.makeDir(Dirname(Destination(env, input, output, kept))).Failure?
    ensures var original := env.readFile(input).value;
      var kept := Guard(original, PipeStage(plugins, original).value);
      FileOutcome(env, input, output, plugins) ==
        Failure(Annotate(input, env.makeDir(Dirname(Destination(env, input, output, kept))).error))
  {
  }

  /** A write of the kept bytes that fails, after make-dir succeeded, fails
      the file with the write error, prefixed. */
  lemma FileOutcomeWriteFailure(env: Env, input: Path, output: Path, plugins: PluginsOption)
    requires env.readFile(input).Success?
    requires PipeStage(plugins, env.readFile(input).value).Success?
    requires var original := env.readFile(input).value;
      Analyze(env, original, Guard(original, PipeStage(plugins, original).value)).Success?
    requires var original := env.readFile(input).value;
      var kept := Guard(original, PipeStage(plugins, original).value);
      env.makeDir(Dirname(Destination(env, input, output, kept))).Success?
    requires var original := env.readFile(input).value;
      var kept := Guard(original, PipeStage(plugins, original).value);
      env.writeFile(Destination(env, input, output, kept), kept).Failure?
    ensures var original := env.readFile(input).value;
      var kept := Guard(original, PipeStage(plugins, original).value);
      FileOutcome(env, input, output, plugins) ==
        Failure(Annotate(input, env.writeFile(Destination(env, input, output, kept), kept).error))
  {
  }

  /** handleFile with the intermediate contents kept in local variables, as
      the promise chain keeps them in its `data` object. */
  method HandleFile(env: Env, input: Path, output: Path, plugins: PluginsOption) returns (r: Result<FileResult>)
    ensures r == FileOutcome(env, input, output, plugins)
  {
    var read := env.readFile(input);
    if read.Failure? {
      return Failure(Annotate(input, read.error));
    }
    var originalContent := read.value;
    var pipe := PipeStage(plugins, originalContent);
    if pipe.Failure? {
      return Failure(Annotate(input, pipe.error));
    }
    var optimizedContent := pipe.value;
    // an optimised buffer that is not smaller is replaced by the original
    optimizedContent := if |optimizedContent| < |originalContent| then optimizedContent else originalContent;
    var analyzed := Analyze(env, originalContent, optimizedContent);
    if analyzed.Failure? {
      return Failure(Annotate(input, analyzed.error));
    }
    var dest := Join(output, Basename(input));
    if env.fileType(optimizedContent) == Some("webp") {
      dest := ReplaceExt(dest, ".webp");
    }
    assert optimizedContent == Guard(originalContent, pipe.value);
    assert dest == Destination(env, input, output, optimizedContent);
    var made := env.makeDir(Dirname(dest));
    if made.Failure? {
      return Failure(Annotate(input, made.error));
    }
    var wrote := env.writeFile(dest, optimizedContent);
    if wrote.Failure? {
      return Failure(Annotate(input, wrote.error));
    }
    r := Success(FileResult(analyzed.value, dest, optimizedContent));
  }

  /** Promise.all over handleFile of every path: all results in path order,
      or the failure of a file that failed. */
  function HandleAll(env: Env, paths: seq<Path>, output: Path, plugins: PluginsOption): (r: Result<seq<FileResult>>)
    ensures r.Success? <==> forall i :: 0 <= i < |paths| ==> FileOutcome(env, paths[i], output, plugins).Success?
    ensures r.Success? ==> (|r.value| == |paths| &&
      forall i :: 0 <= i < |paths| ==> FileOutcome(env, paths[i], output, plugins) == Success(r.value[i]))
    ensures r.Failure? ==> exists i :: 0 <= i < |paths| && FileOutcome(env, paths[i], output, plugins) == Failure(r.error)
    decreases |paths|
  {
    if paths == [] then Success([])
    else
      var first :- FileOutcome(env, paths[0], output, plugins);
      var rest :- HandleAll(env, paths[1..], output, plugins);
      Success([first] + rest)
  }

  function InputTypeMessage(typeOf: string): string {
    "Expected an `Array`, got `" + typeOf + "`"
  }

  /** minify(input, output, plugins): reject a non-array input before any
      globbing, otherwise one result per matched path, in path order. */
  function Minify(env: Env, input: InputOption, output: Path, plugins: PluginsOption): (r: Result<seq<FileResult>>)
    ensures input.NotAnArrayInput? ==> r == Failure(Exception(TypeError, InputTypeMessage(input.typeOf)))
    ensures input.Globs? && env.glob(input.patterns).Failure? ==> r == Failure(env.glob(input.patterns).error)
    ensures input.Globs? && env.glob(input.patterns).Success? ==>
      var paths := env.glob(input.patterns).value;
      && (r.Success? <==> forall i :: 0 <= i < |paths| ==> FileOutcome(env, paths[i], output, plugins).Success?)
      && (r.Success? ==> (|r.value| == |paths| &&
           forall i :: 0 <= i < |paths| ==> FileOutcome(env, paths[i], output, plugins) == Success(r.value[i])))
      && (r.Failure? ==> exists i :: 0 <= i < |paths| && FileOutcome(env, paths[i], output, plugins) == Failure(r.error))
  {
    match input
    case NotAnArrayInput(t) => Failure(Exception(TypeError, InputTypeMessage(t)))
    case Globs(patterns) =>
      var paths :- env.glob(patterns);
      HandleAll(env, paths, output, plugins)
  }

  /** A batch that fails reports an error that names one of its files. */
  lemma MinifyFailureNamesFile(env: Env, patterns: seq<string>, output: Path, plugins: PluginsOption)
    requires env.glob(patterns).Success?
    requires Minify(env, Globs(patterns), output, plugins).Failure?
    ensures exists i :: (0 <= i < |env.glob(patterns).value| &&
      IsPrefix(FilePrefix(env.glob(patterns).value[i]), Minify(env, Globs(patterns), output, plugins).error.message))
  {
    var paths := env.glob(patterns).value;
    var i :| 0 <= i < |paths| && FileOutcome(env, paths[i], output, plugins) == Failure(Minify(env, Globs(patterns), output, plugins).error);
  }
}
