/** The option records shared by the export endpoint and the client hook. */
module ImportExportTypes {

  /** `format_options` of an export. */
  datatype FormatOptions = FormatOptions(prettyPrint: bool, includeClickStats: bool, includeUserInfo: bool)

  /** The options handed to an exporter. */
  datatype ExportOptions = ExportOptions(includeTags: bool, includeMetadata: bool, formatOptions: FormatOptions)

  /** The options of an import run. */
  datatype ImportOptions = ImportOptions(
    skipDuplicates: bool,
    createMissingTags: bool,
    preserveTimestamps: bool,
    batchSize: nat,
    maxConcurrent: nat,
    defaultTagColor: string,
    folderAsTag: bool)
}
