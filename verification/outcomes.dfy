/** Result and error types shared by the converter's modules. */
module Outcomes {

  datatype Option<+T> = None | Some(value: T)

  /** A computation that either yields a value or raises one of the converter's errors. */
  datatype Result<+R> = Success(value: R) | Failure(error: Error)

  /** A step that either completes or raises one of the converter's errors. */
  datatype Outcome = Pass | Fail(error: Error)

  /** The exceptions modelled: the four the script raises itself (InvalidFormat,
      InputNotFound, NoStageFound, BlenderFailed) and the three it lets
      propagate from the archive reader and the host's operators. */
  datatype Error =
    | InvalidFormat                           // ValueError: format must be GLB or GLTF_EMBEDDED
    | InputNotFound(path: string)             // FileNotFoundError: Input not found: <path>
    | NoStageFound                            // RuntimeError: No USD stage ... found in directory
    | ArchiveUnreadable(archive: string)      // zipfile could not open or extract the archive
    | ImportFailed(stage: string)             // the host's USD import operator raised
    | ExportFailed(output: string)            // the host's glTF export operator raised
    | BlenderFailed(code: int, output: string) // RuntimeError: Blender failed (code <code>): <output>
}
