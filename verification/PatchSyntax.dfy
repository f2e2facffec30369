/** The parsed form of a patch. */
module PatchSyntax {
  import opened Basics

  datatype UpdateFileChunk = UpdateFileChunk(
    changeContext: Option<string>,
    oldLines: seq<string>,
    newLines: seq<string>,
    isEndOfFile: bool)

  datatype Hunk =
    | AddFile(path: string, contents: string)
    | DeleteFile(path: string)
    | UpdateFile(path: string, movePath: Option<string>, chunks: seq<UpdateFileChunk>)
}
