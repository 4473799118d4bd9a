/** The conversion entry points: `convert_usd_like_to_gltf` (validate, classify
    the input, run the host step, clean up) and the dispatch in `main`.
    Everything outside the script enters through an `Env` of oracles, and
    every effect the script has on the world is recorded, in order, as a
    `Step` of the returned trace. */
module Converter {
  import opened Text
  import opened Outcomes
  import opened StageLocator
  import opened OutputFormat
  import opened BlenderCommand

  datatype ProcessResult = ProcessResult(returnCode: int, stdout: string)

  /** What the conversion learns from outside the script. */
  datatype Env = Env(
    abspath: string -> string,           // os.path.abspath
    pathExists: string -> bool,          // os.path.exists
    isDir: string -> bool,               // os.path.isdir
    glob: Glob,                          // glob.glob, over the filesystem after any extraction
    tempDir: string,                     // the directory tempfile.mkdtemp(prefix="usdz_") creates
    unzipOk: (string, string) -> bool,   // whether opening and extracting the archive into the directory does not raise
    inBlender: bool,                     // _is_running_in_blender()
    blenderPathVar: Option<string>,      // the BLENDER_PATH environment variable
    scriptPath: string,                  // os.path.abspath(__file__)
    importOk: string -> bool,            // whether the host's USD import operator runs on the stage without raising
    exportOk: (string, string) -> bool,  // whether the host's glTF export operator (path, format) runs without raising
    run: seq<string> -> ProcessResult    // subprocess.run of a command line, output merged; the executable always starts
  )

  /** The script's effects on the world. */
  datatype Step =
    | MakeTemp(dir: string)
    | Extract(archive: string, dir: string)
    | FactoryReset
    | ImportUsd(stage: string)
    | ExportGltf(output: string, exportFormat: string)
    | Spawn(argv: seq<string>)
    | RemoveTemp(dir: string)

  /** The temporary directories created and whose removal has not yet been
      attempted after a trace (the removal ignores its own errors). */
  function LiveTemps(trace: seq<Step>): set<string> {
    if trace == [] then {}
    else
      var live := LiveTemps(trace[..|trace| - 1]);
      match trace[|trace| - 1]
      case MakeTemp(d) => live + {d}
      case RemoveTemp(d) => live - {d}
      case _ => live
  }

  predicate TouchesTemp(s: Step) {
    s.MakeTemp? || s.RemoveTemp?
  }

  predicate IsHostStep(s: Step) {
    s.FactoryReset? || s.ImportUsd? || s.ExportGltf? || s.Spawn?
  }

  /** Steps that neither create nor remove a temporary directory leave the live set alone. */
  lemma {:induction false} LiveTempsAppend(a: seq<Step>, b: seq<Step>)
    requires forall i :: 0 <= i < |b| ==> !TouchesTemp(b[i])
    ensures LiveTemps(a + b) == LiveTemps(a)
    decreases |b|
  {
    if b != [] {
      assert (a + b)[..|a + b| - 1] == a + b[..|b| - 1];
      LiveTempsAppend(a, b[..|b| - 1]);
    } else {
      assert a + b == a;
    }
  }

  /** A trace made of an optional extraction prologue, host steps and the
      matching removal has the extraction directory created exactly when the
      prologue is there, and leaves nothing live. */
  lemma AssembledTraceIsClean(tmp: string, src: string, usdz: bool, host: seq<Step>)
    requires forall i :: 0 <= i < |host| ==> IsHostStep(host[i])
    ensures var trace := (if usdz then [MakeTemp(tmp), Extract(src, tmp)] else []) + host
                         + (if usdz then [RemoveTemp(tmp)] else []);
      && (MakeTemp(tmp) in trace <==> usdz)
      && (usdz ==> |trace| >= 3 && trace[0] == MakeTemp(tmp) && trace[1] == Extract(src, tmp)
                   && trace[|trace| - 1] == RemoveTemp(tmp))
      && (forall s :: s in host ==> s in trace)
      && (host == [] ==> forall i :: 0 <= i < |trace| ==> !IsHostStep(trace[i]))
      && LiveTemps(trace) == {}
  {
    var pre := if usdz then [MakeTemp(tmp), Extract(src, tmp)] else [];
    var post := if usdz then [RemoveTemp(tmp)] else [];
    var trace := pre + host + post;
    assert LiveTemps(pre) == if usdz then {tmp} else {} by {
      if usdz {
        var made := [MakeTemp(tmp)];
        assert made[..0] == [];
        assert LiveTemps(made) == {tmp};
        assert pre[..1] == made;
      }
    }
    LiveTempsAppend(pre, host);
    if usdz {
      assert trace[..|trace| - 1] == pre + host;
    } else {
      assert trace == [] + host + [];
      assert pre + host == pre + host + post;
    }
  }

  // ---------------------------------------------------------------------------
  // The pieces of a conversion

  /** `_find_stage_in_usdz`: extract the archive, then select a stage in the extraction directory. */
  method FindStageInUsdz(env: Env, usdzPath: string, extractDir: string) returns (r: Result<string>, trace: seq<Step>)
    ensures trace == [Extract(usdzPath, extractDir)]
    ensures !env.unzipOk(usdzPath, extractDir) ==> r == Failure(ArchiveUnreadable(usdzPath))
    ensures env.unzipOk(usdzPath, extractDir) ==> r == SelectStage(ScanCandidates(extractDir, env.glob))
  {
    trace := [Extract(usdzPath, extractDir)];
    if !env.unzipOk(usdzPath, extractDir) {
      return Failure(ArchiveUnreadable(usdzPath)), trace;
    }
    r := FindStageInDir(extractDir, env.glob);
  }

  /** `_run_under_blender`: reset the scene, import the stage, export it in the mapped format. */
  method RunUnderBlender(env: Env, inputPath: string, outputPath: string, fmt: string) returns (r: Outcome, trace: seq<Step>)
    ensures !env.importOk(inputPath) ==>
      r == Fail(ImportFailed(inputPath)) && trace == [FactoryReset, ImportUsd(inputPath)]
    ensures env.importOk(inputPath) ==>
      trace == [FactoryReset, ImportUsd(inputPath), ExportGltf(outputPath, ExportFormat(fmt))]
      && r == if env.exportOk(outputPath, ExportFormat(fmt)) then Pass else Fail(ExportFailed(outputPath))
  {
    trace := [FactoryReset, ImportUsd(inputPath)];
    if !env.importOk(inputPath) {
      return Fail(ImportFailed(inputPath)), trace;
    }
    var exportFmt := ExportFormat(fmt);
    trace := trace + [ExportGltf(outputPath, exportFmt)];
    r := if env.exportOk(outputPath, exportFmt) then Pass else Fail(ExportFailed(outputPath));
  }

  /** The command line `_spawn_blender_this_script` runs for a conversion. */
  function SpawnCommand(env: Env, inputPath: string, outputPath: string, fmt: string): seq<string> {
    SpawnArgv(BlenderExec(env.blenderPathVar), env.scriptPath, inputPath, outputPath, fmt)
  }

  /** `_spawn_blender_this_script`: run the host on this script; a non-zero exit code is an error carrying the output. */
  method SpawnBlender(env: Env, inputPath: string, outputPath: string, fmt: string) returns (r: Outcome, trace: seq<Step>)
    ensures trace == [Spawn(SpawnCommand(env, inputPath, outputPath, fmt))]
    ensures r.Pass? <==> env.run(SpawnCommand(env, inputPath, outputPath, fmt)).returnCode == 0
    ensures r.Fail? ==> r.error == BlenderFailed(env.run(SpawnCommand(env, inputPath, outputPath, fmt)).returnCode,
                                                 env.run(SpawnCommand(env, inputPath, outputPath, fmt)).stdout)
  {
    var blender := BlenderExec(env.blenderPathVar);
    var cmd := SpawnArgv(blender, env.scriptPath, inputPath, outputPath, fmt);
    var proc := env.run(cmd);
    trace := [Spawn(cmd)];
    r := if proc.returnCode != 0 then Fail(BlenderFailed(proc.returnCode, proc.stdout)) else Pass;
  }

  // ---------------------------------------------------------------------------
  // convert_usd_like_to_gltf

  /** The checks that precede any effect: a supported format and an existing input. */
  predicate Accepted(env: Env, inputPath: string, fmt: string) {
    IsSupportedFormat(fmt) && env.pathExists(env.abspath(inputPath))
  }

  predicate IsUsdzPath(path: string) {
    EndsWith(Lower(path), ".usdz")
  }

  /** The stage a conversion hands to the host: selected in a directory, selected
      in the extracted archive for a .usdz path in any case, else the input itself. */
  function ResolveStage(env: Env, src: string): Result<string> {
    if env.isDir(src) then SelectStage(ScanCandidates(src, env.glob))
    else if IsUsdzPath(src) then
      if env.unzipOk(src, env.tempDir) then SelectStage(ScanCandidates(env.tempDir, env.glob))
      else Failure(ArchiveUnreadable(src))
    else Success(src)
  }

  /** Whether the host step succeeds on this stage, in-process or in the spawned host. */
  predicate HostSucceeds(env: Env, stage: string, out: string, fmt: string) {
    if env.inBlender then env.importOk(stage) && env.exportOk(out, ExportFormat(fmt))
    else env.run(SpawnCommand(env, stage, out, fmt)).returnCode == 0
  }

  /** The error a failed host step raises: the import or export operator that
      failed in-process, or the spawned host's exit code and merged output. */
  function HostError(env: Env, stage: string, out: string, fmt: string): Error {
    if env.inBlender then
      if !env.importOk(stage) then ImportFailed(stage) else ExportFailed(out)
    else
      var proc := env.run(SpawnCommand(env, stage, out, fmt));
      BlenderFailed(proc.returnCode, proc.stdout)
  }

  /** The steps of the host step: in-process, reset the scene and import the
      stage, then export to `out` in the mapped format once the import
      succeeded; otherwise spawn exactly one host process on them. */
  function HostTrace(env: Env, stage: string, out: string, fmt: string): seq<Step> {
    if env.inBlender then
      [FactoryReset, ImportUsd(stage)] + (if env.importOk(stage) then [ExportGltf(out, ExportFormat(fmt))] else [])
    else [Spawn(SpawnCommand(env, stage, out, fmt))]
  }

  /** The host step hands the stage over and consists of host steps only.
      In-process, the stage is imported and, once imported, exported to `out`
      in the mapped format, and nothing is spawned; outside Blender the host is
      spawned exactly once on them and nothing is imported in this process. */
  lemma HostTraceHandsOver(env: Env, stage: string, out: string, fmt: string)
    ensures env.inBlender ==> ImportUsd(stage) in HostTrace(env, stage, out, fmt)
    ensures env.inBlender && env.importOk(stage) ==> ExportGltf(out, ExportFormat(fmt)) in HostTrace(env, stage, out, fmt)
    ensures !env.inBlender ==> Spawn(SpawnCommand(env, stage, out, fmt)) in HostTrace(env, stage, out, fmt)
    ensures forall i :: 0 <= i < |HostTrace(env, stage, out, fmt)| ==> IsHostStep(HostTrace(env, stage, out, fmt)[i])
    ensures env.inBlender ==> forall i :: 0 <= i < |HostTrace(env, stage, out, fmt)| ==> !HostTrace(env, stage, out, fmt)[i].Spawn?
    ensures !env.inBlender ==> |HostTrace(env, stage, out, fmt)| == 1 && HostTrace(env, stage, out, fmt)[0].Spawn?
  {
    var t := HostTrace(env, stage, out, fmt);
    if env.inBlender {
      assert t[1] == ImportUsd(stage);
      if env.importOk(stage) {
        assert t[2] == ExportGltf(out, ExportFormat(fmt));
      }
    }
  }

  /** The classification in the `try` block: a directory is scanned, a .usdz
      path (any case) is extracted into a fresh temporary directory and scanned
      there, anything else is the stage itself. */
  method LocateStage(env: Env, src: string) returns (stage: Result<string>, tmpDir: Option<string>, trace: seq<Step>)
    ensures stage == ResolveStage(env, src)
    ensures tmpDir == if !env.isDir(src) && IsUsdzPath(src) then Some(env.tempDir) else None
    ensures tmpDir.None? ==> trace == []
    ensures tmpDir.Some? ==> trace == [MakeTemp(env.tempDir), Extract(src, env.tempDir)]
  {
    trace := [];
    tmpDir := None;
    stage := Success(src);
    if env.isDir(src) {
      stage := FindStageInDir(src, env.glob);
    } else if EndsWith(Lower(src), ".usdz") {
      tmpDir := Some(env.tempDir);
      trace := [MakeTemp(env.tempDir)];
      var steps;
      stage, steps := FindStageInUsdz(env, src, env.tempDir);
      trace := trace + steps;
    }
  }

  /** The host step: in-process when running inside the host, else by spawning it. */
  method RunHost(env: Env, stage: string, out: string, fmt: string) returns (r: Outcome, trace: seq<Step>)
    ensures r.Pass? <==> HostSucceeds(env, stage, out, fmt)
    ensures r.Fail? ==> r.error == HostError(env, stage, out, fmt)
    ensures trace == HostTrace(env, stage, out, fmt)
  {
    if env.inBlender {
      r, trace := RunUnderBlender(env, stage, out, fmt);
    } else {
      r, trace := SpawnBlender(env, stage, out, fmt);
    }
  }

  /** What a call of `convert_usd_like_to_gltf` promises, given its result and trace:
      an unsupported format, then a missing input, are rejected before any
      effect; an accepted input hands the resolved stage to the host, or fails
      with the resolution error and no host step; a failed host step raises its
      own error; success returns the normalised output path; the temporary
      extraction directory exists only for a .usdz input, is created first and
      its removal is attempted last, whatever happened in between. */
  predicate ConvertPost(env: Env, inputPath: string, outputPath: string, fmt: string,
                        r: Result<string>, trace: seq<Step>)
  {
    var src := env.abspath(inputPath);
    var out := NormalizeOutputPath(env.abspath(outputPath), Upper(fmt));
    && (!IsSupportedFormat(fmt) ==> r == Failure(InvalidFormat) && trace == [])
    && (IsSupportedFormat(fmt) && !env.pathExists(src) ==> r == Failure(InputNotFound(src)) && trace == [])
    && (Accepted(env, inputPath, fmt) ==>
          var stage := ResolveStage(env, src);
          var usdz := !env.isDir(src) && IsUsdzPath(src);
          && trace == (if usdz then [MakeTemp(env.tempDir), Extract(src, env.tempDir)] else [])
                      + (if stage.Success? then HostTrace(env, stage.value, out, Upper(fmt)) else [])
                      + (if usdz then [RemoveTemp(env.tempDir)] else [])
          && (stage.Failure? ==> r == Failure(stage.error))
          && (stage.Success? ==> (r.Success? <==> HostSucceeds(env, stage.value, out, Upper(fmt)))
                                 && (r.Failure? ==> r.error == HostError(env, stage.value, out, Upper(fmt)))))
    && (r.Success? ==> r.value == out)
    && (MakeTemp(env.tempDir) in trace <==> Accepted(env, inputPath, fmt) && !env.isDir(src) && IsUsdzPath(src))
    && (MakeTemp(env.tempDir) in trace ==>
          |trace| >= 3 && trace[0] == MakeTemp(env.tempDir) && trace[1] == Extract(src, env.tempDir)
          && trace[|trace| - 1] == RemoveTemp(env.tempDir))
    && LiveTemps(trace) == {}
  }

  /** Converts a stage file, a directory or a .usdz archive, returning the
      normalised output path; a temporary extraction directory never survives the call. */
  method ConvertUsdLikeToGltf(env: Env, inputPath: string, outputPath: string, fmt: string)
    returns (r: Result<string>, trace: seq<Step>)
    ensures ConvertPost(env, inputPath, outputPath, fmt, r, trace)
  {
    var f := Upper(fmt);
    UpperIdempotent(fmt);
    if !IsSupportedFormat(f) {
      return Failure(InvalidFormat), [];
    }
    var src := env.abspath(inputPath);
    if !env.pathExists(src) {
      return Failure(InputNotFound(src)), [];
    }
    var out := NormalizeOutputPath(env.abspath(outputPath), f);

    // try
    var stage, tmpDir, pre := LocateStage(env, src);
    var outcome: Outcome := if stage.Failure? then Fail(stage.error) else Pass;
    var host: seq<Step> := [];
    if stage.Success? {
      outcome, host := RunHost(env, stage.value, out, f);
      HostTraceHandsOver(env, stage.value, out, f);
    }
    // finally
    var post := if tmpDir.Some? then [RemoveTemp(tmpDir.value)] else [];
    trace := pre + host + post;
    AssembledTraceIsClean(env.tempDir, src, tmpDir.Some?, host);
    r := if outcome.Pass? then Success(out) else Failure(outcome.error);
    var usdz := !env.isDir(src) && IsUsdzPath(src);
    assert pre == if usdz then [MakeTemp(env.tempDir), Extract(src, env.tempDir)] else [];
    assert post == if usdz then [RemoveTemp(env.tempDir)] else [];
    assert host == if stage.Success? then HostTrace(env, stage.value, out, f) else [];
  }

  // ---------------------------------------------------------------------------
  // main

  /** The options `main` uses, as the option parser returns them. */
  datatype CliArgs = CliArgs(input: string, output: string, format: string, blenderMode: string)

  /** `main` after option parsing: outside the host and not marked as the inner
      run, spawn the host on this script with absolute paths; otherwise run the
      conversion, which itself imports in-process inside the host and spawns the
      host outside it. Either way a success yields the normalised output path. */
  method RunCli(env: Env, args: CliArgs) returns (r: Result<string>, trace: seq<Step>)
    ensures !env.inBlender && args.blenderMode != "1" ==>
      var out := NormalizeOutputPath(env.abspath(args.output), args.format);
      var cmd := SpawnCommand(env, env.abspath(args.input), out, args.format);
      && trace == [Spawn(cmd)]
      && r == if env.run(cmd).returnCode == 0 then Success(out)
              else Failure(BlenderFailed(env.run(cmd).returnCode, env.run(cmd).stdout))
    ensures env.inBlender || args.blenderMode == "1" ==>
      ConvertPost(env, args.input, args.output, args.format, r, trace)
    ensures r.Success? ==> r.value == NormalizeOutputPath(env.abspath(args.output), args.format)
    ensures LiveTemps(trace) == {}
  {
    if !env.inBlender && args.blenderMode != "1" {
      var out := NormalizeOutputPath(env.abspath(args.output), args.format);
      var outcome;
      outcome, trace := SpawnBlender(env, env.abspath(args.input), out, args.format);
      r := if outcome.Pass? then Success(out) else Failure(outcome.error);
      assert trace[..0] == [];
      return;
    }
    r, trace := ConvertUsdLikeToGltf(env, args.input, args.output, args.format);
    NormalizeIgnoresFormatCase(env.abspath(args.output), args.format);
  }
}
