# usd_to_gltf — a Dafny model of the USD → glTF conversion script

`usd_to_gltf.py` converts a USD stage to GLB or embedded glTF. The stage may
be a `.usd`, `.usda`, `.usdc` or `.usdb` file, a directory holding such
files, or a zipped `.usdz` archive. The conversion itself is done by Blender,
run headless. The script's own logic is small, and this project models it:

* **Stage selection** (`_find_stage_in_dir`). The script scans the root of a
  directory for `*.usda`, `*.usd`, `*.usdc` and `*.usdb`, in that order. Only
  when nothing matches does it scan recursively. It then sorts the candidates
  stably by the key (extension rank, path depth) and takes the first one.
  The extension is what `os.path.splitext` reports, lower-cased. `.usda`
  ranks 0, `.usd` 1, `.usdc` and `.usdb` 2, and anything else 3. The depth
  is the number of `/` in the path.
* **Output path normalisation** (`_normalize_output_path`). The script
  appends `.glb` or `.gltf` unless the path already ends with that suffix,
  compared without regard to case. It also maps the requested format to the
  exporter's format (`_run_under_blender`).
* **The host command line** (`_spawn_blender_this_script`,
  `_blender_exec_path`) and the `--` slicing of `sys.argv` in `main`.
* **The conversion** (`convert_usd_like_to_gltf`, `_find_stage_in_usdz`,
  `main`). Validation comes first: the format, then whether the input exists.
  The input is then classified as a directory, a `.usdz` archive (suffix in
  any case), or a stage file. Next comes the host step, in-process or by
  spawning Blender. A `finally` block attempts to remove the temporary
  extraction directory, ignoring errors.

Everything the script learns from outside becomes a field of
`Converter.Env`, a datatype of oracles. That covers `os.path.abspath`,
`exists`, `isdir`, `glob.glob`, `tempfile.mkdtemp`, zip extraction, the
Blender operators, `subprocess.run`, the `BLENDER_PATH` variable and the
"running inside Blender" probe. Every effect the script has is returned as a
`Step` in an ordered trace. The steps are: create the temporary directory or
attempt its removal, extract the archive, reset the scene, import, export, and spawn
a process.

Modules: `Outcomes` (result and error types: the errors the script raises itself and those it lets propagate from the archive reader and the host),
`Text` (ASCII case mapping, `endswith`, `rfind`, `count`), `StageLocator`,
`OutputFormat`, `BlenderCommand` and `Converter`.

Two details of the script are worth stating:
* The script accepts GLB, GLTF_EMBEDDED and GLTF, compared after
  upper-casing. GLTF is exported as GLTF_EMBEDDED.
* Depth counts separators in the whole path. `StageLocator.JoinedDepth`
  shows that this orders paths under one directory the same way as their
  depth below it.

## Model

| member | source | states |
|---|---|---|
| `StageLocator.FindStageInDir` | usd_to_gltf.py:35-53 | The two loops collect the root-level glob results in pattern order. When those are empty, they collect the recursive results instead. The result is exactly the stage selection over that candidate list. |
| `StageLocator.SelectStageIsEarliestBest` | usd_to_gltf.py:43-53 | Selection fails with NoStageFound exactly when there are no candidates. Otherwise it returns a candidate that no candidate scores strictly better than, and every candidate scanned before it scores strictly worse, so ties go to scan order. |
| `StageLocator.StageFoundUnlessBothScansEmpty` | usd_to_gltf.py:37-44 | Stage selection in a directory fails exactly when both the root-level scan and the recursive scan find nothing. |
| `StageLocator.RootMatchesShadowRecursiveScan` | usd_to_gltf.py:38-42 | When any root-level pattern matches, selection succeeds and returns one of the root-level matches. |
| `StageLocator.UsdcBeatsUsdbAtEqualDepth` | usd_to_gltf.py:38-53 | A root-level `.usdb` file is never chosen over a `.usdc` file at the same depth. The `.usdc` pattern is scanned first and the sort is stable. |
| `StageLocator.UsdcBeatsUsdbInRecursiveScan` | usd_to_gltf.py:40-53 | When the root level has no match, a `.usdb` file found by the recursive scan is never chosen over a `.usdc` file at the same depth, for the same reason. |
| `StageLocator.ScanOrderBreaksTies` | usd_to_gltf.py:52-53 | Of two equally scored candidates, the one gathered earlier is preferred: the later one is never selected. |
| `StageLocator.SelectStage` | usd_to_gltf.py:43-53 | Fails with NoStageFound exactly when there is no candidate. Otherwise it returns one of the candidates. `SelectStageIsEarliestBest` proves which one. |
| `StageLocator.ScanCandidates` | usd_to_gltf.py:37-42 | The candidate list: the root-level matches, or the recursive matches when there are none. `StageFoundUnlessBothScansEmpty` and `RootMatchesShadowRecursiveScan` state how the two scans combine. |
| `StageLocator.Gathered` | usd_to_gltf.py:38-42 | The glob results of the patterns concatenated in pattern order. `RootScanOrder` and `DeepScanOrder` spell out the four root-level and the four recursive patterns in that order. |
| `StageLocator.ScoreOf` | usd_to_gltf.py:46-50 | The sort key (extension rank, depth). `ExtRankOfNamedFile` gives the rank of every stage file name, and `JoinedDepth` relates depths. |
| `StageLocator.ExtRank` | usd_to_gltf.py:47-48 | The extension rank of a path: the `splitext` extension, lower-cased, looked up in the rank table. `ExtRankOfNamedFile` states its value for every file name `stem.e`, and `UsdcBeatsUsdbAtEqualDepth` relies on `.usdc` and `.usdb` ranking the same. |
| `StageLocator.Better` | usd_to_gltf.py:50-52 | The strict lexicographic order on the `(ext_rank, depth)` key that `list.sort` uses: a lower rank wins, and at equal rank a lower depth wins. `NotBetterTransitive` shows that its negation is transitive, which `InsertKeepsSorted` and `SortBy` rely on; `FirstMinIndex` and `SortHeadIsFirstMinimum` use it to define the first minimum. |
| `StageLocator.RankOf` | usd_to_gltf.py:48 | The rank table for a lower-cased extension. `ExtRankOfNamedFile` states all four of its cases for a file name. |
| `StageLocator.Depth` | usd_to_gltf.py:49 | The number of separators in the path. `Text.Count` bounds it and makes it zero exactly when there is no separator, and `JoinedDepth` relates depths under one directory. |
| `StageLocator.Join` | usd_to_gltf.py:39 | POSIX `os.path.join` of two components: an absolute second component replaces the first; otherwise they are joined with `/`, unless the first is empty or already ends with one. `JoinedDepth` states how depths add up under it. |
| `StageLocator.SortBy` | usd_to_gltf.py:52 | `list.sort(key=...)` returns a permutation of its input, ordered so that no element has a strictly better key than an earlier one. |
| `StageLocator.InsertKeepsSorted` | usd_to_gltf.py:52 | One step of the sort: inserting an element into a sorted list keeps it sorted, and the new head is either that element or the old head. |
| `StageLocator.FirstMinIndex` | usd_to_gltf.py:52-53 | Returns the index of the first element with a minimal key: nothing beats it, and every earlier element is strictly worse. |
| `StageLocator.SortHeadIsFirstMinimum` | usd_to_gltf.py:52-53 | The first element after the stable sort is the first element of the original list that has a minimal key. |
| `StageLocator.Ext` | usd_to_gltf.py:47 | The `splitext` extension is empty or a suffix of the path. It starts with `.` and contains no `/` and no further `.`. |
| `StageLocator.ExtOfNamedFile` | usd_to_gltf.py:47 | The extension of `stem.e` is `.e` when the last component of `stem` has a non-dot character and `e` has no dot or separator. |
| `StageLocator.ExtRankOfNamedFile` | usd_to_gltf.py:47-48 | For a file `stem.e`, the rank is computed from `e` lower-cased: `usda` ranks 0, `usd` 1, `usdc` and `usdb` 2, and any other extension 3. |
| `StageLocator.JoinedDepth` | usd_to_gltf.py:49 | For two relative names joined onto the same directory, the difference in depth equals the difference in depth of the names alone. |
| `Text.Lower` | usd_to_gltf.py:47 | `str.lower`: same length, each character mapped by `LowerChar`. `LowerAppend` shows it distributes over concatenation, which the extension lemmas and `NormalizeOutputPath` use. |
| `Text.Upper` | usd_to_gltf.py:63 | `str.upper`: same length, each character mapped by `UpperChar`. `UpperIdempotent` shows that upper-casing twice changes nothing, which `NormalizeIgnoresFormatCase` and the format check in `ConvertUsdLikeToGltf` use. |
| `Text.EndsWith` | usd_to_gltf.py:64-66 | `str.endswith`: the suffix is no longer than the string and equals its tail. `EndsWithAppended` shows that appending a suffix makes the string end with it, which `NormalizeOutputPath`'s contract uses. |
| `Text.Count` | usd_to_gltf.py:49 | The separator count is at most the path length. It is zero exactly when the path has no separator. |
| `Text.LastIndexOf` | usd_to_gltf.py:47 | `rfind` returns -1 or the position of the searched character, and no later position holds it. |
| `OutputFormat.IsSupportedFormat` | usd_to_gltf.py:120-122 | The accepted formats: GLB, GLTF_EMBEDDED and GLTF, compared after upper-casing. `ConvertUsdLikeToGltf` rejects every other format with InvalidFormat before any effect. |
| `OutputFormat.NormalizeOutputPath` | usd_to_gltf.py:62-68 | The input is a prefix of the output. For GLB in any case, the output ends with `.glb` ignoring case: the path is unchanged if it already ended so, and `.glb` is appended otherwise. GLTF and GLTF_EMBEDDED behave the same way with `.gltf`. Any other format leaves the path unchanged. |
| `OutputFormat.NormalizeIsIdempotent` | usd_to_gltf.py:62-68 | Normalising twice gives the same path as normalising once. |
| `OutputFormat.NormalizeIgnoresFormatCase` | usd_to_gltf.py:63 | Normalising with the upper-cased format gives the same path as normalising with the format as given. |
| `OutputFormat.ExportFormat` | usd_to_gltf.py:81 | The exporter gets either "GLB" or "GLTF_EMBEDDED". It gets "GLB" exactly when the upper-cased format is GLB. |
| `OutputFormat.ExportFormatMatchesExtension` | usd_to_gltf.py:62-81 | For every accepted format, the normalised output file ends with `.glb` when the exporter writes GLB, and with `.gltf` when it writes embedded glTF. |
| `BlenderCommand.BlenderExec` | usd_to_gltf.py:71-72 | The executable is never empty. It is `BLENDER_PATH` when that is set and non-empty, and `blender` when it is unset or empty. |
| `BlenderCommand.SpawnArgv` | usd_to_gltf.py:95-109 | The thirteen-element host command line. `SpawnedArgsRoundTrip` proves the inner run reads back exactly the forwarded options. |
| `BlenderCommand.IndexOf` | usd_to_gltf.py:166 | `list.index` returns the position of the first occurrence. |
| `BlenderCommand.ScriptArgs` | usd_to_gltf.py:166 | The parsed arguments are a suffix of `argv`. With `--` present, they start right after its first occurrence. Without it, they are everything after the program name. |
| `BlenderCommand.SpawnedArgsRoundTrip` | usd_to_gltf.py:95-109 | Slicing the spawned command line at `--` gives back exactly `--input`, `--output`, `--format` and `--blender-mode 1` with the values passed in, whatever the input and output paths are (even `--`), provided the executable and the script path are not `--`. |
| `Converter.FindStageInUsdz` | usd_to_gltf.py:56-59 | Records one extraction step. When extraction fails, the result is ArchiveUnreadable. Otherwise it is stage selection inside the extraction directory. |
| `Converter.RunUnderBlender` | usd_to_gltf.py:75-90 | The steps are: reset the scene, import the stage, export to the output path in the mapped format. A failed import stops before the export. Success means both operators succeeded. |
| `Converter.SpawnBlender` | usd_to_gltf.py:93-112 | Spawns exactly the host command line. The step succeeds exactly when the exit code is 0. Otherwise the error carries the exit code and the captured output. |
| `Converter.LocateStage` | usd_to_gltf.py:130-137 | A directory is scanned in place. A `.usdz` path in any case gets a temporary directory, which is extracted into and then scanned. Any other path is the stage itself. No effect occurs except on the `.usdz` branch. |
| `Converter.RunHost` | usd_to_gltf.py:139-142 | Hands the stage to Blender, in-process or by spawning it. In-process, it imports the stage and, once the import succeeds, exports to the output path in the mapped format. Its steps are exactly `HostTrace`. Succeeds exactly when that host step succeeds, and fails with the host step's own error. |
| `Converter.HostTrace` | usd_to_gltf.py:75-112 | The steps of the host step. In-process: reset, import, then the export to the output path in the mapped format only if the import did not raise. Outside Blender: exactly one spawn of the host command line. `HostTraceHandsOver` states what that guarantees. |
| `Converter.HostTraceHandsOver` | usd_to_gltf.py:139-142 | The host steps hand the stage over: in-process the stage is imported and, once imported, exported to the output path in the mapped format; otherwise the host command line is spawned. They are all host steps. An in-process conversion spawns nothing, and outside Blender exactly one process is spawned. |
| `Converter.HostError` | usd_to_gltf.py:75-112 | The error a failed host step ends with: the import or export operator's failure in-process, or the spawned host's exit code and merged output. |
| `Converter.Accepted` | usd_to_gltf.py:120-126 | An input passes validation exactly when the upper-cased format is supported and the absolute input path exists. `ConvertPost` states that any other input ends with InvalidFormat or InputNotFound and no effect. |
| `Converter.IsUsdzPath` | usd_to_gltf.py:135 | A path is treated as an archive when, lower-cased, it ends with `.usdz`. `LocateStage` and `ConvertPost` state that only such a non-directory path gets a temporary directory. |
| `Converter.SpawnCommand` | usd_to_gltf.py:94-109 | The host command line for a stage: `SpawnArgv` with the executable from `BLENDER_PATH` or `blender` and this script's absolute path. `SpawnBlender` spawns exactly it, and `SpawnedArgsRoundTrip` proves the inner run reads back the forwarded options. |
| `Converter.HostSucceeds` | usd_to_gltf.py:139-142 | In-process, the import and then the export must both not raise; outside Blender, the spawned host must exit with code 0. `RunHost` and `ConvertPost` state that a conversion of an accepted input succeeds exactly when this holds. |
| `Converter.ResolveStage` | usd_to_gltf.py:133-137 | The stage handed to the host: selected in a directory, selected in the extracted archive for a `.usdz` path in any case (ArchiveUnreadable when extraction fails), otherwise the input itself. `LocateStage` is proved to compute it. |
| `Converter.ConvertPost` | usd_to_gltf.py:115-146 | Everything a conversion promises about its result and its trace, as listed for `ConvertUsdLikeToGltf`. |
| `Converter.AssembledTraceIsClean` | usd_to_gltf.py:144-146 | An extraction prologue, host steps and the `finally` removal leave no temporary directory whose removal was not attempted. The directory is created exactly when the prologue is present. |
| `Converter.ConvertUsdLikeToGltf` | usd_to_gltf.py:115-146 | An unsupported format is rejected with InvalidFormat before anything else happens. A missing input gets InputNotFound, still with no effect. For an accepted input the whole trace is fixed: the `.usdz` prologue (create the temporary directory, extract), then the host steps of `HostTrace` when the stage resolves and none otherwise, then the removal of the temporary directory. A resolution failure ends with the resolution error. Success means the host step succeeded and returns the normalised output path. A failed host step ends with that step's own error: ImportFailed, ExportFailed, or BlenderFailed with the exit code and output. In-process, the export goes to the returned path. The temporary directory is created only for `.usdz` input, and its removal is always attempted, last. |
| `Converter.RunCli` | usd_to_gltf.py:165-174 | Outside Blender and without `--blender-mode 1`, `main` spawns the host once, with absolute paths and the normalised output. Otherwise it runs the conversion, which imports in-process inside Blender and spawns Blender outside it, and every promise of `ConvertUsdLikeToGltf` holds of the result and trace. Any success yields the output path normalised for the requested format, and the removal of every temporary directory created is attempted. |

## Left out

- `Text.Lower`, `Text.Upper`: Python's `str.lower` and `str.upper` are modelled for ASCII letters only. Every other character maps to itself.
- `StageLocator.SortBy`: its contract states that the result is a permutation and that it is sorted; that its head is the first minimal element of the input is stated separately, by `SortHeadIsFirstMinimum`. Stability of the whole list is not stated, because only the head is used.
- `list.sort` runs in place. Here it is a function returning the sorted sequence, since the list is local and only its first element is read.
- `glob.glob` is an oracle (`Env.glob`). Its matching rules are not modelled: hidden files, case sensitivity, directories that match a pattern, and the order of results within one pattern.
- `os.path.abspath`, `os.path.exists` and `os.path.isdir` are oracles. Path normalisation is not modelled.
- `Join` models `os.path.join` on POSIX only, with `/` as the separator and no alternative separator.
- `tempfile.mkdtemp`: the directory name is an input (`Env.tempDir`). Its creation cannot fail here.
- `zipfile` extraction is a success oracle. What the archive holds is seen only through `glob` on the extraction directory.
- `shutil.rmtree`: removal is a trace step. The `os.path.isdir` re-check before it is taken as true, because `mkdtemp` has just created the directory and nothing in the script removes it. `rmtree` runs with `ignore_errors=True`, so a failed removal is silent; `RemoveTemp` records the call, and `LiveTemps(trace) == {}` means that every directory created had its removal attempted, not that it is gone.
- The Blender operators (`read_factory_settings`, `usd_import`, `export_scene.gltf`) are success oracles. The fixed export options (Y-up, apply modifiers, no cameras, no lights, no selection filter) are not modelled. The factory reset is taken to succeed.
- `subprocess.run` is an oracle from command line to exit code and merged output. `subprocess.run` failing to start the executable is not modelled: `run` always yields an exit code and output, so the FileNotFoundError or PermissionError for a missing or non-executable Blender is outside the model. So is the UnicodeDecodeError that decoding the captured output with `text=True` can raise, even on exit code 0.
- A Blender operator that returns without raising counts as success, even when it reports a cancellation. Only raising is modelled, because that is all the script reacts to.
- `_is_running_in_blender` is the `Env.inBlender` input. `_blender_exec_path` reads `BLENDER_PATH` from `Env.blenderPathVar`.
- `_parse_args` (argparse) is not modelled. `RunCli` starts from the parsed options: argparse's `choices` check, its default of GLB and its usage errors are outside the model. `ScriptArgs` models only the slicing of `sys.argv` that feeds it.
- `SpawnedArgsRoundTrip` assumes Blender gives the script its whole command line as `sys.argv`.
- `convert_usd_like_to_gltf`'s default format of GLB is not modelled: `ConvertUsdLikeToGltf` always takes the format explicitly, as `main` always passes one.
- Printing the output path in `main` is I/O. The printed value is `RunCli`'s success value.
- Exception messages are carried only as the data they interpolate.
- vite.config.js and src/main.ts hold build configuration and UI bootstrap, with no conversion logic.
