/** The command line of the host-application subprocess
    (`_spawn_blender_this_script`, `_blender_exec_path`) and the argument
    slicing in `main` that reads it back on the other side. */
module BlenderCommand {
  import opened Outcomes

  /** The executable: BLENDER_PATH when it is set and non-empty, else "blender". */
  function BlenderExec(blenderPathVar: Option<string>): (r: string)
    ensures r != []
    ensures blenderPathVar.Some? && blenderPathVar.value != [] ==> r == blenderPathVar.value
    ensures blenderPathVar.None? || blenderPathVar.value == [] ==> r == "blender"
  {
    if blenderPathVar.Some? && blenderPathVar.value != [] then blenderPathVar.value else "blender"
  }

  /** Background mode, run this script, then the script's own options after "--". */
  function SpawnArgv(blender: string, script: string, input: string, output: string, fmt: string): seq<string> {
    [blender, "-b", "-P", script, "--"] + ForwardedArgs(input, output, fmt)
  }

  /** The options the inner script parses from the spawned command. */
  function ForwardedArgs(input: string, output: string, fmt: string): seq<string> {
    ["--input", input, "--output", output, "--format", fmt, "--blender-mode", "1"]
  }

  /** The index of the first occurrence of `x` in `s` (Python's list.index). */
  function IndexOf(s: seq<string>, x: string): (k: nat)
    requires x in s
    ensures k < |s| && s[k] == x
    ensures forall j :: 0 <= j < k ==> s[j] != x
  {
    if s[0] == x then 0 else 1 + IndexOf(s[1..], x)
  }

  /** The arguments `main` hands to the option parser: everything after the
      first "--" if there is one, else everything after the program name. */
  function ScriptArgs(argv: seq<string>): (r: seq<string>)
    ensures |r| <= |argv|
    ensures r == argv[|argv| - |r|..]
    ensures "--" in argv ==> |r| < |argv| && argv[|argv| - |r| - 1] == "--" && "--" !in argv[..|argv| - |r| - 1]
    ensures "--" !in argv ==> r == if argv == [] then [] else argv[1..]
  {
    if "--" in argv then argv[IndexOf(argv, "--") + 1..]
    else if argv == [] then []
    else argv[1..]
  }

  /** The spawned host application exposes its whole command line as sys.argv,
      so the inner script parses exactly the options the outer one forwarded,
      whatever the input and output paths are (even "--"). */
  lemma {:induction false} SpawnedArgsRoundTrip(blender: string, script: string, input: string, output: string, fmt: string)
    requires blender != "--" && script != "--"
    ensures ScriptArgs(SpawnArgv(blender, script, input, output, fmt)) == ForwardedArgs(input, output, fmt)
  {
    var argv := SpawnArgv(blender, script, input, output, fmt);
    assert argv[4] == "--";
    assert IndexOf(argv, "--") == 4;
  }
}
