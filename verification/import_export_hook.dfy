/** The pure helpers of the client hook (tmarks/src/hooks/useImportExport.ts):
    the per-format default options, the file-extension check, and the query
    string `exportData` sends, which the export endpoint decodes. */
module ImportExportHook {
  import opened Wrappers
  import opened Text
  import opened ImportExportTypes
  import Export

  // ---------------------------------------------------------------------------
  // Default options

  /** `getDefaultExportOptions`: everything on except click statistics and
      user info; html also drops metadata and pretty printing. */
  function DefaultExportOptions(format: string): (o: ExportOptions)
    ensures o.includeTags
    ensures !o.formatOptions.includeClickStats && !o.formatOptions.includeUserInfo
    ensures o.includeMetadata <==> format != "html"
    ensures o.formatOptions.prettyPrint <==> format != "html"
  {
    var base := ExportOptions(true, true, FormatOptions(true, false, false));
    match format
    case "json" => base.(formatOptions := base.formatOptions.(prettyPrint := true, includeClickStats := false))
    case "html" => base.(includeMetadata := false, formatOptions := FormatOptions(false, false, false))
    case _ => base
  }

  /** `getDefaultImportOptions`: duplicates skipped, missing tags created,
      timestamps kept, five requests at a time and a blue default colour for
      every format; html uses batches of 100, json and tmarks do not turn
      folders into tags. */
  function DefaultImportOptions(format: string): (o: ImportOptions)
    ensures o.skipDuplicates && o.createMissingTags && o.preserveTimestamps
    ensures o.maxConcurrent == 5 && o.defaultTagColor == "#3b82f6"
    ensures o.batchSize == (if format == "html" then 100 else 50)
    ensures !o.folderAsTag <==> format == "json" || format == "tmarks"
  {
    var base := ImportOptions(true, true, true, 50, 5, "#3b82f6", true);
    match format
    case "html" => base.(folderAsTag := true, batchSize := 100)
    case "json" => base.(folderAsTag := false, preserveTimestamps := true)
    case "tmarks" => base.(folderAsTag := false, preserveTimestamps := true)
    case _ => base
  }

  // ---------------------------------------------------------------------------
  // File type

  /** `ext` is the extension of `name`: the text after its last '.', or the
      whole name when it has no '.'. */
  ghost predicate IsExtension(name: string, ext: string) {
    '.' !in ext && (ext == name || exists stem :: name == stem + "." + ext)
  }

  /** The part of `name` the check compares: after the last '.', lower-cased,
      with a '.' in front. */
  function DottedExtension(name: string): (e: string)
    ensures |e| >= 1 && e[0] == '.'
    ensures exists ext :: IsExtension(name, ext) && e == "." + ToLower(ext)
  {
    var pieces := Split(name, '.');
    var ext := pieces[|pieces| - 1];
    LastPiece(name, '.');
    assert IsExtension(name, ext) by {
      if ext != name {
        var stem := name[..|name| - |ext| - 1];
        assert name == stem + "." + ext;
      }
    }
    "." + ToLower(ext)
  }

  /** A name has one extension. */
  lemma ExtensionUnique(name: string, e1: string, e2: string)
    requires IsExtension(name, e1) && IsExtension(name, e2)
    ensures e1 == e2
  {
    if e1 != name {
      var stem1 :| name == stem1 + "." + e1;
      SplitAtLast(stem1, '.', e1);
    } else {
      SplitNoSep(name, '.');
    }
    if e2 != name {
      var stem2 :| name == stem2 + "." + e2;
      SplitAtLast(stem2, '.', e2);
    } else {
      SplitNoSep(name, '.');
    }
  }

  /** `validateFileType`: the name's dotted, lower-cased extension is one of
      the allowed ones. */
  function ValidateFileType(name: string, allowed: seq<string>): (ok: bool)
    ensures ok <==> exists ext :: IsExtension(name, ext) && "." + ToLower(ext) in allowed
  {
    var e := DottedExtension(name);
    assert forall ext :: IsExtension(name, ext) ==> "." + ToLower(ext) == e by {
      var ext0 :| IsExtension(name, ext0) && e == "." + ToLower(ext0);
      forall ext | IsExtension(name, ext) ensures "." + ToLower(ext) == e {
        ExtensionUnique(name, ext, ext0);
      }
    }
    e in allowed
  }

  /** Only the text after the last '.' counts, in any letter case. */
  lemma ValidateByLastExtension(stem: string, ext: string, allowed: seq<string>)
    requires '.' !in ext
    ensures ValidateFileType(stem + "." + ext, allowed) <==> "." + ToLower(ext) in allowed
  {
    var name := stem + "." + ext;
    assert IsExtension(name, ext);
    forall other | IsExtension(name, other) ensures other == ext {
      ExtensionUnique(name, other, ext);
    }
  }

  /** A name without a '.' is its own extension. */
  lemma ValidateWithoutDot(name: string, allowed: seq<string>)
    requires '.' !in name
    ensures ValidateFileType(name, allowed) <==> "." + ToLower(name) in allowed
  {
    assert IsExtension(name, name);
    forall other | IsExtension(name, other) ensures other == name {
      ExtensionUnique(name, other, name);
    }
  }

  /** "backup.JSON" is a json file; "notes.json.txt" is not. */
  lemma FileTypeExamples()
    ensures ValidateFileType("backup" + "." + "JSON", [".json"])
    ensures !ValidateFileType("notes.json" + "." + "txt", [".json"])
  {
    ValidateByLastExtension("backup", "JSON", [".json"]);
    assert ToLower("JSON") == "json";
    assert "." + "json" == ".json";
    ValidateByLastExtension("notes.json", "txt", [".json"]);
    assert ToLower("txt") == "txt";
    assert |"." + "txt"| != |".json"|;
  }

  // ---------------------------------------------------------------------------
  // The export query (`exportData`)

  /** The options object the caller may pass, every member optional. */
  datatype ClientFormatOptions = ClientFormatOptions(
    prettyPrint: Option<bool>, includeClickStats: Option<bool>, includeUserInfo: Option<bool>)

  datatype ClientExportOptions = ClientExportOptions(
    includeMetadata: Option<bool>, includeTags: Option<bool>, formatOptions: Option<ClientFormatOptions>)

  /** `b.toString()`. */
  function BoolText(b: bool): string {
    if b then "true" else "false"
  }

  /** `v?.toString() || fallback`: the text of a present value (never empty),
      the fallback otherwise. */
  function Param(v: Option<bool>, fallback: string): (t: string)
    ensures v.Some? ==> t == BoolText(v.value)
    ensures v.None? ==> t == fallback
  {
    match v
    case Some(b) => BoolText(b)
    case None => fallback
  }

  /** `options?.format_options`, with an absent object read as one whose
      members are all absent. */
  function FormatPart(o: Option<ClientExportOptions>): ClientFormatOptions {
    if o.Some? && o.value.formatOptions.Some? then o.value.formatOptions.value
    else ClientFormatOptions(None, None, None)
  }

  /** The `URLSearchParams` that `exportData` builds, in its member order. */
  function EncodeExportQuery(format: string, o: Option<ClientExportOptions>): (q: Query)
    ensures |q| == 6 && q[0] == ("format", format)
  {
    var metadata := if o.Some? then o.value.includeMetadata else None;
    var tags := if o.Some? then o.value.includeTags else None;
    [ ("format", format),
      ("include_metadata", Param(metadata, "true")),
      ("include_tags", Param(tags, "true")),
      ("pretty_print", Param(FormatPart(o).prettyPrint, "true")),
      ("include_stats", Param(FormatPart(o).includeClickStats, "false")),
      ("include_user", Param(FormatPart(o).includeUserInfo, "false")) ]
  }

  /** The options a caller's partial options stand for: a missing member
      means tags, metadata and pretty printing on, statistics and user off. */
  function Completed(o: Option<ClientExportOptions>): ExportOptions {
    var metadata := if o.Some? then o.value.includeMetadata else None;
    var tags := if o.Some? then o.value.includeTags else None;
    ExportOptions(
      tags.GetOr(true), metadata.GetOr(true),
      FormatOptions(
        FormatPart(o).prettyPrint.GetOr(true),
        FormatPart(o).includeClickStats.GetOr(false),
        FormatPart(o).includeUserInfo.GetOr(false)))
  }

  /** A full options value as the caller would pass it. */
  function Full(o: ExportOptions): ClientExportOptions {
    ClientExportOptions(
      Some(o.includeMetadata), Some(o.includeTags),
      Some(ClientFormatOptions(Some(o.formatOptions.prettyPrint), Some(o.formatOptions.includeClickStats),
                               Some(o.formatOptions.includeUserInfo))))
  }

  /** The endpoint decodes what the hook encodes: the format, and the
      options the caller meant, with its defaults filled in. */
  lemma EncodeParseRoundTrip(format: string, o: Option<ClientExportOptions>)
    requires format != ""
    ensures Export.ParseExportQuery(EncodeExportQuery(format, o)) == Export.ExportRequest(format, Completed(o))
  {
    Export.QueryFields(EncodeExportQuery(format, o));
  }

  /** Complete options survive the trip unchanged. */
  lemma FullOptionsRoundTrip(format: string, o: ExportOptions)
    requires format != ""
    ensures Export.ParseExportQuery(EncodeExportQuery(format, Some(Full(o)))) == Export.ExportRequest(format, o)
  {
    EncodeParseRoundTrip(format, Some(Full(o)));
  }

  /** Without options the endpoint sees the client's json defaults, whatever
      the format; with an empty format it exports json. */
  lemma NoOptionsMeansJsonDefaults(format: string)
    ensures Export.ParseExportQuery(EncodeExportQuery(format, None)).options == DefaultExportOptions("json")
    ensures Export.ParseExportQuery(EncodeExportQuery(format, None)).format == (if format == "" then "json" else format)
  {
    Export.QueryFields(EncodeExportQuery(format, None));
  }

  /** The html defaults travel intact, so the endpoint sees metadata and
      pretty printing off. */
  lemma HtmlDefaultsRoundTrip()
    ensures var r := Export.ParseExportQuery(EncodeExportQuery("html", Some(Full(DefaultExportOptions("html")))));
            r.format == "html" && !r.options.includeMetadata && !r.options.formatOptions.prettyPrint
  {
    FullOptionsRoundTrip("html", DefaultExportOptions("html"));
  }
}
