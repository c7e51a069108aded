/** The project model shared by the generator and the views (types.ts). */
module Types {

  /** Kind of an entry; generation only ever produces `File`. */
  datatype FileKind = File | Folder

  /**
   * One generated file. The optional `language` of the TypeScript type is
   * always filled in by the generator, so it is a plain string here.
   */
  datatype ProjectFile = ProjectFile(path: string, content: string, kind: FileKind, language: string)

  /** A generated project: display name, description and its files in display order. */
  datatype ProjectStructure = ProjectStructure(name: string, description: string, files: seq<ProjectFile>)
}
