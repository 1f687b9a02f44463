# tmarks batch operations and export, in Dafny

This project models three parts of tmarks, a bookmark manager:

- **The batch mutation handler** (`PATCH /api/v1/bookmarks/bulk`).
  - It validates a request: an action and 1 to 100 bookmark ids.
  - It dispatches on six actions: `delete`, `pin`, `unpin`, `archive`, `unarchive` and `update_tags`.
  - It runs each action's statements against the bookmark, tag, association and audit tables.
  - It answers with an affected count and the per-pair errors.
  - After any successful action it asks for the owner's public-share cache to be invalidated.
- **The export endpoint** (`GET` and `POST /api/v1/export`).
  - It decodes the export options from the query string.
  - It assembles the export dataset from three query results: the bookmark-to-tag-name map, per-tag `bookmark_count`, totals, and the synthetic default user.
  - It checks the requested format.
  - The preview path reports counts, an estimated size and a dated file name.
- **The client hook's pure helpers.**
  - Per-format default export and import options.
  - The file-extension check.
  - The query string the client sends, which the endpoint decodes back into the same options.

Layout:

- `wrappers.dfy`: `Option` and `Result`.
- `text.dfy`: the JavaScript primitives the code relies on. These are `split` on one character, ASCII `toLowerCase`, and `URLSearchParams.get`.
- `import_export_types.dfy`: the export and import option records the client and the server share.
- `bulk_spec.dfy`: the tables as values, and each SQL statement of the batch handler as a function on them.
  - The lemmas here state what the statements guarantee: ownership filtering, insert-or-ignore, remove-before-add, idempotence and the usage recount.
- `bulk.dfy`: class `Store`, which holds the tables as mutable fields, with one method per action and the dispatching handler.
  - Each method's postcondition ties the new state to the functions in `bulk_spec.dfy`.
  - The two loops of `update_tags` (the nested insert loop and the recount loop) are `while` loops proved against those functions.
- `export.dfy`: the export endpoint.
  - The `forEach` that fills the bookmark-to-tag-name map is a loop method proved against the map it must build.
- `import_export_hook.dfy`: the hook's helpers, and the encode/decode round trip with `export.dfy`.

## Behaviour worth noting

- **Missing action.** A request without an action gets `INVALID_REQUEST`, not `INVALID_ACTION`. The action name is checked last, after the id count (`bulk.ts:37`, `277-284`).
- **Format check order.** An unsupported export format is rejected only after the user's data has been collected (`export.ts:51`, `68-72`). So an unknown user with a bad format gets the collection error, not the 400.
- **Usage recount.**
  - `usage_count` is recounted only for the valid add-tags (`bulk.ts:233-245`). A tag that was only removed keeps its old count.
  - The count covers every association of that tag and owner, including those of soft-deleted bookmarks. The count query does not look at bookmarks.

## Model

| member | source | states |
|---|---|---|
| Bulk.ParseAction | tmarks/functions/api/v1/bookmarks/bulk.ts:62-284 | each of the six labels selects its action, and only that label does; any other text reaches the default branch |
| Bulk.CheckRequest | tmarks/functions/api/v1/bookmarks/bulk.ts:37-55 | fail-fast order: INVALID_REQUEST iff the action is missing/empty or the ids are missing, not an array or empty; TOO_MANY_ITEMS iff well formed with more than 100 ids; INVALID_ACTION iff it got past both and the label is unknown; on success the ids are the request's, 1..100 of them |
| Bulk.SizeBoundary | tmarks/functions/api/v1/bookmarks/bulk.ts:47-55 | exactly 100 ids pass, 101 are TOO_MANY_ITEMS, an empty list is INVALID_REQUEST |
| Bulk.ToggleUpdate | tmarks/functions/api/v1/bookmarks/bulk.ts:90-152 | pin/unpin set `is_pinned` to 1/0, archive/unarchive set `is_archived` to 1/0, each with `updated_at` |
| Bulk.HttpStatus | tmarks/functions/api/v1/bookmarks/bulk.ts:37-301 | 200 iff success; 404 iff NO_VALID_BOOKMARKS; 400 for every other rejection |
| Bulk.ErrorsField | tmarks/functions/api/v1/bookmarks/bulk.ts:287-294 | the response carries `errors` iff the list is non-empty, and then carries it whole |
| Bulk.Store.UpdateActiveRows | tmarks/functions/api/v1/bookmarks/bulk.ts:91-102 | exactly the requested, owned, not-deleted rows get the update; every other row is unchanged; the change count is their number |
| Bulk.Store.DeleteBookmarks | tmarks/functions/api/v1/bookmarks/bulk.ts:63-88 | soft delete of exactly the owned active requested rows; affected count is their number; exactly one audit entry with the requested ids and that count |
| Bulk.Store.RemoveTags | tmarks/functions/api/v1/bookmarks/bulk.ts:178-192 | the association table loses exactly the caller's links in valid bookmarks × remove ids; the uniqueness constraint is kept |
| Bulk.Store.AddTagsTo | tmarks/functions/api/v1/bookmarks/bulk.ts:213-229 | the inner loop for one bookmark continues the insert sequence and the error list by that bookmark's row of pairs |
| Bulk.Store.AddTags | tmarks/functions/api/v1/bookmarks/bulk.ts:210-230 | the nested loop leaves the links of inserting every valid bookmark × valid tag pair in loop order (a failing pair writes nothing and adds one error, and the loop goes on); uniqueness is kept |
| Bulk.Store.RecountUsage | tmarks/functions/api/v1/bookmarks/bulk.ts:232-245 | each valid add-tag owned by the caller holds the live association count; all other tags are unchanged |
| Bulk.Store.ApplyTagPhases | tmarks/functions/api/v1/bookmarks/bulk.ts:178-247 | remove phase, then the insert loop and the recount only when there are valid add-tags; links, tags and errors are those of the specification functions |
| Bulk.Store.UpdateBookmarkTags | tmarks/functions/api/v1/bookmarks/bulk.ts:154-275 | no valid bookmark: NO_VALID_BOOKMARKS and no write at all; otherwise the links after remove-then-add, every valid add-tag's usage count equal to its live count, the valid bookmarks touched, one audit entry with the valid ids, and affected count = number of valid ids |
| Bulk.Store.HandleBulk | tmarks/functions/api/v1/bookmarks/bulk.ts:36-301 | a rejected request changes nothing; per action the new tables and response; the cache is invalidated iff the response is a success |
| Bulk.PinScenario | tmarks/functions/api/v1/bookmarks/bulk.ts:90-104 | pinning one own and one foreign bookmark answers 200 with affected count 1 and no errors |
| BulkSpec.SelectIds | tmarks/functions/api/v1/bookmarks/bulk.ts:156-166 | the `SELECT id ... WHERE id IN (...)` result holds exactly the requested ids that satisfy the filter, each once, never more than were requested |
| BulkSpec.TargetsBound | tmarks/functions/api/v1/bookmarks/bulk.ts:67-76 | the affected count never exceeds the number of requested ids, and is strictly smaller when some id is not an active bookmark of the caller |
| BulkSpec.UpdateRows | tmarks/functions/api/v1/bookmarks/bulk.ts:65-74 | an UPDATE keeps the set of ids, applies its SET clause to the matched rows and leaves every other row as it was |
| BulkSpec.SoftDeleteClears | tmarks/functions/api/v1/bookmarks/bulk.ts:65-76 | each deleted row has `deleted_at` set, `click_count` 0 and no `last_clicked_at`, with owner, flags and `updated_at` kept |
| BulkSpec.DeleteAgainMatchesNothing | tmarks/functions/api/v1/bookmarks/bulk.ts:67-71 | repeating a delete matches no row |
| BulkSpec.ToggleKeepsTargets | tmarks/functions/api/v1/bookmarks/bulk.ts:90-152 | a toggle changes only its flag (and `updated_at`) on the matched rows, and never which bookmarks are active and owned, so a repeat matches the same rows |
| BulkSpec.Targets | tmarks/functions/api/v1/bookmarks/bulk.ts:69-71 | an UPDATE's WHERE clause matches exactly the requested ids that are active bookmarks of the caller |
| BulkSpec.InsertOrIgnore | tmarks/functions/api/v1/bookmarks/bulk.ts:215-222 | afterwards the pair is present; at most the caller's new link is added, and nothing when the pair already existed; the uniqueness constraint is kept |
| BulkSpec.RemovePairs | tmarks/functions/api/v1/bookmarks/bulk.ts:183-191 | the DELETE only removes links, and keeps uniqueness |
| BulkSpec.CrossPairs | tmarks/functions/api/v1/bookmarks/bulk.ts:212-213 | the nested loop visits |bookmarks|·|tags| pairs |
| BulkSpec.Row | tmarks/functions/api/v1/bookmarks/bulk.ts:213 | the inner loop visits (b, t) for each valid tag t, in order |
| BulkSpec.CrossPairsMembers | tmarks/functions/api/v1/bookmarks/bulk.ts:212-213 | a pair is visited iff its bookmark is valid and its tag is valid |
| BulkSpec.PairErrors | tmarks/functions/api/v1/bookmarks/bulk.ts:223-228 | at most one error per visited pair |
| BulkSpec.AddPairsStep | tmarks/functions/api/v1/bookmarks/bulk.ts:214-228 | one more pair: one more insert-or-ignore, or (if it fails) one more "Failed to add tag" error and no write |
| BulkSpec.InnerStep | tmarks/functions/api/v1/bookmarks/bulk.ts:213-229 | one more inner iteration inserts (b, t), or adds its error when the insert fails |
| BulkSpec.CrossPairsStep | tmarks/functions/api/v1/bookmarks/bulk.ts:212-213 | one more outer iteration visits that bookmark's whole row |
| BulkSpec.AddPairsMembers | tmarks/functions/api/v1/bookmarks/bulk.ts:212-230 | after the loop a link is present iff it was there, or it is the caller's link for a visited, non-failing pair that had no link |
| BulkSpec.AddPairsAttaches | tmarks/functions/api/v1/bookmarks/bulk.ts:212-230 | every visited pair whose insert did not fail is attached afterwards |
| BulkSpec.AddPairs | tmarks/functions/api/v1/bookmarks/bulk.ts:212-230 | the insert loop only adds links; each new link is the caller's, for a visited pair whose insert did not fail; uniqueness is kept |
| BulkSpec.PairErrorsMembers | tmarks/functions/api/v1/bookmarks/bulk.ts:223-228 | an error is in the list iff it is "Failed to add tag t" for bookmark b, where (b, t) is a visited failing pair |
| BulkSpec.CrossPairsDistinct | tmarks/functions/api/v1/bookmarks/bulk.ts:212-213 | distinct bookmark ids and distinct tag ids give a loop that visits no pair twice |
| BulkSpec.PairErrorsCount | tmarks/functions/api/v1/bookmarks/bulk.ts:223-228 | over pairs without repetitions, the error list has exactly one entry per failing pair |
| BulkSpec.ErrorsPerFailingPair | tmarks/functions/api/v1/bookmarks/bulk.ts:212-228 | the loop over distinct valid bookmarks and tags reports each failing valid pair exactly once |
| BulkSpec.NoRemoveIdsNoChange | tmarks/functions/api/v1/bookmarks/bulk.ts:179 | without remove ids no link is deleted |
| BulkSpec.NoAddTagsNoChange | tmarks/functions/api/v1/bookmarks/bulk.ts:195-210 | without valid add-tags there are no inserts, no errors and no recount |
| BulkSpec.UpdatedLinks | tmarks/functions/api/v1/bookmarks/bulk.ts:178-230 | remove-then-add keeps uniqueness, and every link it adds is the caller's, joining a valid bookmark and a valid add-tag |
| BulkSpec.RemoveBeforeAdd | tmarks/functions/api/v1/bookmarks/bulk.ts:178-230 | a tag in both lists stays attached; a tag only in the remove list is detached; links outside valid × remove survive |
| BulkSpec.AttachedExactlyOnce | tmarks/functions/api/v1/bookmarks/bulk.ts:194-230 | every valid bookmark × valid tag pair that did not fail is present exactly once |
| BulkSpec.UpdatedLinksIdempotent | tmarks/functions/api/v1/bookmarks/bulk.ts:178-230 | applying remove-then-add again with the same resolved lists leaves the associations as the first run did |
| BulkSpec.TouchKeepsValidBookmarks | tmarks/functions/api/v1/bookmarks/bulk.ts:250-258 | touching `updated_at` does not change which requested bookmarks the SELECT returns |
| BulkSpec.RecountKeepsValidTags | tmarks/functions/api/v1/bookmarks/bulk.ts:233-245 | the recount does not change which requested add-tags the SELECT returns |
| BulkSpec.CountLinks | tmarks/functions/api/v1/bookmarks/bulk.ts:237-240 | the count is 0 iff the caller has no association with that tag |
| BulkSpec.Recounted | tmarks/functions/api/v1/bookmarks/bulk.ts:233-245 | the recounted tags are the caller's valid add-tags with their live association count; every other tag row is unchanged |
| BulkSpec.RecountIdempotent | tmarks/functions/api/v1/bookmarks/bulk.ts:236-241 | recounting twice equals recounting once |
| BulkSpec.UpdateTagsIdempotent | tmarks/functions/api/v1/bookmarks/bulk.ts:156-258 | the same request (bookmark ids, add ids, remove ids) sent again resolves the same valid bookmarks and add-tags from the tables the first run left, and ends with the same links and the same usage counts |
| Export.ParseExportQuery | tmarks/functions/api/v1/export.ts:33-48 | the decoded format is never empty, and is "json" when absent |
| Export.GetDistinct | tmarks/functions/api/v1/export.ts:34-46 | in a query whose names are all distinct, each lookup returns its own position's value |
| Export.QueryFields | tmarks/functions/api/v1/export.ts:34-46 | in a query with the six parameters in the client's order, each lookup finds its own parameter's value |
| Export.ParseIsLenient | tmarks/functions/api/v1/export.ts:34-47 | any value other than "true"/"false" leaves tags, metadata and pretty printing on and statistics and user info off |
| Export.ResolveUser | tmarks/functions/api/v1/export.ts:112-130 | "default-user" always resolves to itself; any other id fails iff there is no user row, with "User not found" |
| Export.DefaultUserNeedsNoLookup | tmarks/functions/api/v1/export.ts:113-119 | the default user's record does not depend on the lookup |
| Export.ExportUserOf | tmarks/functions/api/v1/export.ts:193-198 | id, email and created date are the row's; `name` is always absent |
| Export.NamesForMembers | tmarks/functions/api/v1/export.ts:158-165 | a bookmark's name list holds exactly the names of its association rows, and is empty iff it has none |
| Export.TagMapStep | tmarks/functions/api/v1/export.ts:160-165 | one more association row appends its tag name to its bookmark's list, created empty when missing |
| Export.NamesFor | tmarks/functions/api/v1/export.ts:158-165 | a bookmark's name list is never longer than the association rows |
| Export.TagMapOf | tmarks/functions/api/v1/export.ts:158-165 | the map's keys are exactly the associated bookmark ids, and no list is empty |
| Export.BuildTagMap | tmarks/functions/api/v1/export.ts:158-165 | the loop builds the map from every associated bookmark id to its tag names in row order, each list non-empty |
| Export.CountListsWith | tmarks/functions/api/v1/export.ts:188-190 | the count never exceeds the number of bookmarks in the map |
| Export.ProjectBookmark | tmarks/functions/api/v1/export.ts:168-180 | the row's fields are kept; tags are `[]` without a map entry; `is_pinned` is `is_pinned != 0`; a null click count is 0 |
| Export.ProjectTag | tmarks/functions/api/v1/export.ts:182-191 | the row's fields are kept; `bookmark_count` is at most the number of bookmarks in the map |
| Export.CollectedData | tmarks/functions/api/v1/export.ts:102-219 | collection fails iff the user cannot be resolved; otherwise the dataset carries the version and time given, one entry per bookmark row and per tag row, and totals equal to those counts with format "json" |
| Export.CollectUserData | tmarks/functions/api/v1/export.ts:102-219 | the loop-built dataset equals the specification of the whole collection |
| Export.CollectFailsOnlyForUnknownUser | tmarks/functions/api/v1/export.ts:113-218 | collection fails iff the id is not the default user and there is no row, with "Failed to collect user data: User not found"; the default user is the synthetic one |
| Export.ExportedBookmarks | tmarks/functions/api/v1/export.ts:168-212 | bookmarks and tags keep length and order; totals equal those lengths and `export_format` is "json"; a bookmark's tags are its association names ([] if none), `is_pinned` is `is_pinned != 0`, a null click count is 0 |
| Export.BookmarkCountMeaning | tmarks/functions/api/v1/export.ts:188-190 | `bookmark_count` is the number of distinct bookmarks with an association row carrying the tag's name, hence at most the number of associated bookmarks |
| Export.ExportedTagCounts | tmarks/functions/api/v1/export.ts:182-191 | every exported tag keeps id and name and carries that count |
| Export.ExportOutcome | tmarks/functions/api/v1/export.ts:29-95 | a 500 iff collection fails; an export has a supported format, the decoded format and options and the collected data; a 400 names the unsupported format |
| Export.HandleExport | tmarks/functions/api/v1/export.ts:29-95 | the handler's outcome: collection error as a 500, then the format check, then the exporter's input |
| Export.FormatCheckedAfterCollection | tmarks/functions/api/v1/export.ts:51-72 | an unknown user gets a 500 whatever the format; a 400 happens iff the format is unsupported and collection succeeded; an export passes the decoded options and a supported format |
| Export.StatsOf | tmarks/functions/api/v1/export.ts:274-278 | each missing count is 0, each present count is kept |
| Export.EstimateExportSize | tmarks/functions/api/v1/export.ts:281-286 | json: 200 per bookmark + 50 per tag; any other format: 150 + 30 |
| Export.EstimateMonotone | tmarks/functions/api/v1/export.ts:281-286 | the estimate grows with both counts, and json is never estimated smaller than another format |
| Export.GenerateFilename | tmarks/functions/api/v1/export.ts:288-291 | the name is "tmarks-export-", a 'T'-free date part, ".", the format |
| Export.FilenameCarriesDate | tmarks/functions/api/v1/export.ts:289-290 | for a timestamp date + "T" + time the name carries exactly that date |
| Export.PreviewOf | tmarks/functions/api/v1/export.ts:229-243 | format defaults to "json"; stats, estimate and file name are those of that format |
| Export.PreviewScenario | tmarks/functions/api/v1/export.ts:229-243 | 10 bookmarks and 4 tags in json: an estimate of 2200 bytes and "tmarks-export-2026-10-11.json" |
| ImportExportHook.DefaultExportOptions | tmarks/src/hooks/useImportExport.ts:287-324 | tags always on, statistics and user info always off; metadata and pretty printing off exactly for html |
| ImportExportHook.DefaultImportOptions | tmarks/src/hooks/useImportExport.ts:251-282 | every format skips duplicates, creates missing tags, keeps timestamps, 5 concurrent, colour #3b82f6; batch 100 exactly for html, else 50; folders are not tags exactly for json and tmarks |
| ImportExportHook.DottedExtension | tmarks/src/hooks/useImportExport.ts:233 | the compared text is "." + the lower-cased extension of the name |
| ImportExportHook.ExtensionUnique | tmarks/src/hooks/useImportExport.ts:233 | a name has exactly one extension (text after the last '.', or the whole name) |
| ImportExportHook.ValidateFileType | tmarks/src/hooks/useImportExport.ts:232-235 | true iff "." + the lower-cased extension is among the allowed types |
| ImportExportHook.ValidateByLastExtension | tmarks/src/hooks/useImportExport.ts:232-235 | for stem + "." + ext only ext counts, whatever the stem holds |
| ImportExportHook.ValidateWithoutDot | tmarks/src/hooks/useImportExport.ts:233 | a name without a dot is compared as "." + the whole lower-cased name |
| ImportExportHook.FileTypeExamples | tmarks/src/hooks/useImportExport.ts:232-235 | "backup.JSON" passes for ".json"; "notes.json.txt" does not |
| ImportExportHook.Param | tmarks/src/hooks/useImportExport.ts:50-54 | a present boolean is written as "true"/"false" (so false is kept), a missing one as the default |
| ImportExportHook.EncodeExportQuery | tmarks/src/hooks/useImportExport.ts:48-55 | six parameters, the format first |
| ImportExportHook.EncodeParseRoundTrip | tmarks/src/hooks/useImportExport.ts:48-55 | decoding the encoded query gives back the format and the caller's options with the defaults filled in |
| ImportExportHook.FullOptionsRoundTrip | tmarks/src/hooks/useImportExport.ts:48-55 | complete options come back unchanged |
| ImportExportHook.NoOptionsMeansJsonDefaults | tmarks/src/hooks/useImportExport.ts:48-55 | without options the server sees the json defaults; an empty format becomes json |
| ImportExportHook.HtmlDefaultsRoundTrip | tmarks/src/hooks/useImportExport.ts:310-319 | the html defaults reach the server with metadata and pretty printing off |
| Text.Split | tmarks/src/hooks/useImportExport.ts:233 | at least one piece, none containing the separator |
| Text.JoinSplit | tmarks/src/hooks/useImportExport.ts:233 | joining the pieces gives back the text |
| Text.SplitAtFirst | tmarks/functions/api/v1/export.ts:289 | the first piece is the text before the first separator |
| Text.LastPiece | tmarks/src/hooks/useImportExport.ts:233 | the last piece is the suffix after the last separator, and the whole text iff there is one piece |
| Text.SplitNoSep | tmarks/src/hooks/useImportExport.ts:233 | a text without the separator is one piece |
| Text.SplitAtLast | tmarks/src/hooks/useImportExport.ts:233 | the last piece of pre + sep + post (post without sep) is post |
| Text.ToLower | tmarks/src/hooks/useImportExport.ts:233 | same length, each character lower-cased, no upper-case letter left |
| Text.ToLowerIdempotent | tmarks/src/hooks/useImportExport.ts:233 | lower-casing twice is lower-casing once |
| Text.Get | tmarks/functions/api/v1/export.ts:34-46 | a value iff the name occurs, and then the value of its first occurrence |
| Text.GetAt | tmarks/functions/api/v1/export.ts:34-46 | the value at the first position carrying the name is the one returned |

## Left out

- Authentication (`requireAuth`) is outside this model. The caller's user id is a parameter.
- `invalidatePublicShareCache` is recorded as an entry in `Store.invalidations`. Its effect on the cache is not modelled.
- SQL text, D1 I/O and the clocks (`datetime('now')`, `new Date()`) are not modelled as such. Query results and the current time are parameters. A statement's effect is a function on the tables.
- SQL leaves the row order of `SELECT id ... WHERE id IN (...)` open. The model fixes it to the order of first request, without duplicates. This order only shows in the order of the error list and of the audit entry's id list.
- The table schema is not part of this model. Associations are taken to be unique on (bookmark_id, tag_id), whatever their owner, so an insert-or-ignore of a pair that another owner already holds is ignored.
- An insert that throws inside the nested loop is represented by a set `failing` of pairs. Each such pair adds its error and writes nothing.
- A storage failure outside that `try` is not modelled, and neither is a request body that is not valid JSON (`bulk.ts:33`). In the source the same `catch` turns both into INTERNAL_ERROR with status 500 (`bulk.ts:302-311`); a storage failure leaves earlier statements committed. The same goes for the 500 of the preview path. Statements are modelled as one sequential series, with no interleaving.
- The non-string `action` values and non-string ids a JSON body could carry are not modelled: ids and the action are strings.
- The JSON and HTML exporters (`createJsonExporter`, `createHtmlExporter`) are not part of this model. A successful export returns the dataset and options they would receive, not the file, MIME type or headers. `EXPORT_VERSION` is a parameter.
- Export.CollectedData: the source reads the clock twice, once for the default user's `created_at` and once for `exported_at`. The model uses one `now` for both.
- `Promise.all` in `getExportStats` is not modelled. The three counts are parameters, each possibly missing.
- The three export reads are separate snapshots in the source. The model takes three given row lists, so it does not capture a dangling association.
- `formatFileSize` and `estimateImportTime` are not modelled. They use floating-point `log`, `pow` and `toFixed`.
- The hook's stateful and browser parts are not modelled: `useState`, `fetch`, the error handling of `exportData` and `importData`, the `Content-Disposition` file-name parsing and its `Date.now()` fallback, `downloadBlob`, `readFileAsText`, and the two preview calls.
- Text.ToLower: lower-cases ASCII letters only. JavaScript's `toLowerCase` also maps other Unicode letters.
- URL percent-encoding is not modelled. The query is the list of decoded name/value pairs, so a format containing `&` or `=` is outside the model.
- ImportExportHook.EncodeParseRoundTrip: holds only for a non-empty format. An empty format comes back as "json", which NoOptionsMeansJsonDefaults states.
