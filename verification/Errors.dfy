/** Failures of a workspace operation. The text of an I/O error is not kept. */
module Errors {
  datatype WorkspaceError =
    | PathEscape
    | BadPath
    | OverCap(adding: nat, wouldUse: nat, cap: nat)
    | ReadTooLarge(len: nat, max: nat)
    | NotAFile
    | NotADirectory
    | DeleteRoot
    | NotFound
    | Io
}
