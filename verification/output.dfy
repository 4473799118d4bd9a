/** The output side of a conversion: the file-name suffix the requested format
    calls for (`_normalize_output_path`) and the exporter format handed to the
    host application (`_run_under_blender`). */
module OutputFormat {
  import opened Text

  /** The formats a conversion accepts, compared after upper-casing. */
  predicate IsSupportedFormat(fmt: string) {
    Upper(fmt) in {"GLB", "GLTF_EMBEDDED", "GLTF"}
  }

  /** The formats written as a .gltf text file. */
  predicate IsTextFormat(fmt: string) {
    Upper(fmt) == "GLTF_EMBEDDED" || Upper(fmt) == "GLTF"
  }

  /** Appends ".glb" for GLB and ".gltf" for GLTF/GLTF_EMBEDDED unless the path
      already ends with that suffix in any case; any other format leaves the path alone. */
  function NormalizeOutputPath(outPath: string, fmt: string): (r: string)
    ensures outPath <= r
    ensures Upper(fmt) == "GLB" ==> EndsWith(Lower(r), ".glb") && |r| <= |outPath| + 4
    ensures IsTextFormat(fmt) ==> EndsWith(Lower(r), ".gltf") && |r| <= |outPath| + 5
    ensures Upper(fmt) == "GLB" ==> r == if EndsWith(Lower(outPath), ".glb") then outPath else outPath + ".glb"
    ensures IsTextFormat(fmt) ==> r == if EndsWith(Lower(outPath), ".gltf") then outPath else outPath + ".gltf"
    ensures !IsSupportedFormat(fmt) ==> r == outPath
  {
    var f := Upper(fmt);
    var p := if f == "GLB" && !EndsWith(Lower(outPath), ".glb") then
      SuffixAppended(outPath, ".glb"); outPath + ".glb"
    else outPath;
    if IsTextFormat(fmt) && !EndsWith(Lower(p), ".gltf") then
      SuffixAppended(p, ".gltf"); p + ".gltf"
    else p
  }

  /** After appending a lower-case suffix, the lower-cased path ends with it. */
  lemma SuffixAppended(p: string, suffix: string)
    requires Lower(suffix) == suffix
    ensures EndsWith(Lower(p + suffix), suffix)
  {
    LowerAppend(p, suffix);
    EndsWithAppended(Lower(p), suffix);
  }

  /** Normalising an already normalised path changes nothing. */
  lemma NormalizeIsIdempotent(outPath: string, fmt: string)
    ensures NormalizeOutputPath(NormalizeOutputPath(outPath, fmt), fmt) == NormalizeOutputPath(outPath, fmt)
  {
  }

  /** The format's case does not matter. */
  lemma {:induction false} NormalizeIgnoresFormatCase(outPath: string, fmt: string)
    ensures NormalizeOutputPath(outPath, Upper(fmt)) == NormalizeOutputPath(outPath, fmt)
  {
    UpperIdempotent(fmt);
  }

  /** The format the glTF exporter is asked for: GLB for GLB in any case,
      GLTF_EMBEDDED for everything else. */
  function ExportFormat(fmt: string): (r: string)
    ensures r == "GLB" || r == "GLTF_EMBEDDED"
    ensures r == "GLB" <==> Upper(fmt) == "GLB"
  {
    if Upper(fmt) == "GLB" then "GLB" else "GLTF_EMBEDDED"
  }

  /** For every accepted format, the normalised output file carries the
      extension of the format the exporter writes: .glb for a binary GLB,
      .gltf for embedded glTF. */
  lemma ExportFormatMatchesExtension(outPath: string, fmt: string)
    requires IsSupportedFormat(fmt)
    ensures ExportFormat(fmt) == "GLB" ==> EndsWith(Lower(NormalizeOutputPath(outPath, fmt)), ".glb")
    ensures ExportFormat(fmt) == "GLTF_EMBEDDED" ==> EndsWith(Lower(NormalizeOutputPath(outPath, fmt)), ".gltf")
  {
  }
}
