/** The export endpoint (tmarks/functions/api/v1/export.ts): query decoding,
    assembly of the export dataset from the three query results, the format
    dispatch, and the preview path (counts, size estimate, file name). The
    JSON and HTML exporters themselves are not part of this model; a
    successful export records the dataset and options handed to them. */
module Export {
  import opened Wrappers
  import opened Text
  import opened ImportExportTypes

  // ---------------------------------------------------------------------------
  // Query decoding (onRequestGet)

  datatype ExportRequest = ExportRequest(format: string, options: ExportOptions)

  /** A toggle that defaults to on: only the exact text "false" turns it off. */
  predicate OnUnlessFalse(q: Query, name: string) {
    Get(q, name) != Some("false")
  }

  /** A toggle that defaults to off: only the exact text "true" turns it on. */
  predicate OffUnlessTrue(q: Query, name: string) {
    Get(q, name) == Some("true")
  }

  /** The query as the GET handler reads it; `format` falls back to "json"
      when absent or empty. */
  function ParseExportQuery(q: Query): (r: ExportRequest)
    ensures r.format != ""
    ensures Get(q, "format").None? ==> r.format == "json"
  {
    var format := match Get(q, "format")
      case Some(f) => if f != "" then f else "json"
      case None => "json";
    ExportRequest(format, ExportOptions(
      OnUnlessFalse(q, "include_tags"),
      OnUnlessFalse(q, "include_metadata"),
      FormatOptions(
        OnUnlessFalse(q, "pretty_print"),
        OffUnlessTrue(q, "include_stats"),
        OffUnlessTrue(q, "include_user"))))
  }

  /** The six parameter names, in the order the client writes them. */
  const ParamNames: seq<string> :=
    ["format", "include_metadata", "include_tags", "pretty_print", "include_stats", "include_user"]

  /** The six parameter names are distinct. */
  lemma ParamNamesDistinct()
    ensures forall i, j :: 0 <= i < j < |ParamNames| ==> ParamNames[i] != ParamNames[j]
  {
    assert ParamNames[2][8] != ParamNames[5][8];
    assert ParamNames[2][0] != ParamNames[3][0];
    assert ParamNames[3][0] != ParamNames[5][0];
  }

  /** When every name occurs once, each `get` finds its own position. */
  lemma GetDistinct(q: Query, names: seq<string>)
    requires |q| == |names|
    requires forall i :: 0 <= i < |q| ==> q[i].0 == names[i]
    requires forall i, j :: 0 <= i < j < |names| ==> names[i] != names[j]
    ensures forall k :: 0 <= k < |q| ==> Get(q, names[k]) == Some(q[k].1)
  {
    forall k | 0 <= k < |q| ensures Get(q, names[k]) == Some(q[k].1) {
      GetAt(q, names[k], k);
    }
  }

  /** In a query holding the six parameters in the client's order, each
      `get` finds its own position. */
  lemma QueryFields(q: Query)
    requires |q| == 6 && q[0].0 == "format" && q[1].0 == "include_metadata" && q[2].0 == "include_tags"
    requires q[3].0 == "pretty_print" && q[4].0 == "include_stats" && q[5].0 == "include_user"
    ensures Get(q, "format") == Some(q[0].1)
    ensures Get(q, "include_metadata") == Some(q[1].1)
    ensures Get(q, "include_tags") == Some(q[2].1)
    ensures Get(q, "pretty_print") == Some(q[3].1)
    ensures Get(q, "include_stats") == Some(q[4].1)
    ensures Get(q, "include_user") == Some(q[5].1)
  {
    ParamNamesDistinct();
    GetDistinct(q, ParamNames);
    assert Get(q, ParamNames[0]) == Some(q[0].1) && Get(q, ParamNames[1]) == Some(q[1].1);
    assert Get(q, ParamNames[2]) == Some(q[2].1) && Get(q, ParamNames[3]) == Some(q[3].1);
    assert Get(q, ParamNames[4]) == Some(q[4].1) && Get(q, ParamNames[5]) == Some(q[5].1);
  }

  /** The two kinds of toggle disagree on anything but the exact texts: an
      unrecognised value such as "0", "no" or "TRUE" leaves tags, metadata
      and pretty printing on, and click statistics and user info off. */
  lemma ParseIsLenient(format: string, v: string)
    requires format != "" && v != "false" && v != "true"
    ensures var r := ParseExportQuery([("format", format), ("include_metadata", v), ("include_tags", v),
                                       ("pretty_print", v), ("include_stats", v), ("include_user", v)]);
            r == ExportRequest(format, ExportOptions(true, true, FormatOptions(true, false, false)))
  {
    QueryFields([("format", format), ("include_metadata", v), ("include_tags", v),
                 ("pretty_print", v), ("include_stats", v), ("include_user", v)]);
  }

  // ---------------------------------------------------------------------------
  // Query results and the export dataset (collectUserData)

  /** A row of `SELECT id, email, username, created_at FROM users`. */
  datatype UserRow = UserRow(id: string, email: Option<string>, username: string, createdAt: string)

  /** A row of the bookmark query (active bookmarks, newest first). */
  datatype BookmarkRow = BookmarkRow(
    id: string, title: string, url: string, description: Option<string>, coverImage: Option<string>,
    isPinned: int, createdAt: string, updatedAt: string, clickCount: Option<int>, lastClickedAt: Option<string>)

  /** A row of the tag query (active tags, by name). */
  datatype TagRow = TagRow(id: string, name: string, color: Option<string>, createdAt: string, updatedAt: string)

  /** A row of the association query joined with the tag's name. */
  datatype AssocRow = AssocRow(bookmarkId: string, tagId: string, tagName: string)

  datatype ExportUser = ExportUser(id: string, email: Option<string>, name: Option<string>, createdAt: string)

  datatype ExportBookmark = ExportBookmark(
    id: string, title: string, url: string, description: Option<string>, coverImage: Option<string>,
    tags: seq<string>, isPinned: bool, createdAt: string, updatedAt: string, clickCount: int,
    lastClickedAt: Option<string>)

  datatype ExportTag = ExportTag(
    id: string, name: string, color: Option<string>, createdAt: string, updatedAt: string, bookmarkCount: nat)

  datatype Metadata = Metadata(totalBookmarks: nat, totalTags: nat, exportFormat: string)

  datatype ExportData = ExportData(
    version: string, exportedAt: string, user: ExportUser,
    bookmarks: seq<ExportBookmark>, tags: seq<ExportTag>, metadata: Metadata)

  const DefaultUserId := "default-user"

  /** The user record: a synthetic one for the placeholder id, otherwise the
      first row of the lookup (`userRows`), or "User not found". */
  function ResolveUser(userId: string, userRows: seq<UserRow>, now: string): (r: Result<UserRow, string>)
    ensures userId == DefaultUserId ==> r.Success? && r.value.id == DefaultUserId
    ensures userId != DefaultUserId ==> (r.Failure? <==> userRows == [])
    ensures r.Failure? ==> r.error == "User not found"
  {
    if userId == DefaultUserId then
      Success(UserRow(DefaultUserId, Some("default@tmarks.local"), "Default User", now))
    else if userRows == [] then Failure("User not found")
    else Success(userRows[0])
  }

  /** The placeholder user needs no lookup: the rows are never consulted. */
  lemma DefaultUserNeedsNoLookup(rows1: seq<UserRow>, rows2: seq<UserRow>, now: string)
    ensures ResolveUser(DefaultUserId, rows1, now) == ResolveUser(DefaultUserId, rows2, now)
  {
  }

  /** The exported user. The row has a `username` but the source reads a
      `name` member it does not have, so `name` is always absent. */
  function ExportUserOf(u: UserRow): (e: ExportUser)
    ensures e.id == u.id && e.email == u.email && e.createdAt == u.createdAt
    ensures e.name.None?
  {
    ExportUser(u.id, u.email, None, u.createdAt)
  }

  /** The tag names of bookmark `b`'s associations, in association-row order. */
  function NamesFor(assocs: seq<AssocRow>, b: string): (names: seq<string>)
    ensures |names| <= |assocs|
  {
    if assocs == [] then []
    else
      var a := assocs[|assocs| - 1];
      NamesFor(assocs[..|assocs| - 1], b) + (if a.bookmarkId == b then [a.tagName] else [])
  }

  /** The bookmark ids that occur in the associations. */
  function LinkedBookmarks(assocs: seq<AssocRow>): set<string> {
    set a | a in assocs :: a.bookmarkId
  }

  /** `bookmarkTagMap` as a value: every bookmark id that occurs in the
      associations, mapped to its tag names; no list is empty. */
  function TagMapOf(assocs: seq<AssocRow>): (m: map<string, seq<string>>)
    ensures m.Keys == LinkedBookmarks(assocs)
    ensures forall b :: b in m ==> |m[b]| > 0
  {
    assert forall b :: b in LinkedBookmarks(assocs) ==> |NamesFor(assocs, b)| > 0 by {
      forall b | b in LinkedBookmarks(assocs) ensures |NamesFor(assocs, b)| > 0 {
        NamesForMembers(assocs, b);
      }
    }
    map b | b in LinkedBookmarks(assocs) :: NamesFor(assocs, b)
  }

  lemma {:induction false} NamesForMembers(assocs: seq<AssocRow>, b: string)
    ensures forall name :: name in NamesFor(assocs, b) <==>
      exists a :: a in assocs && a.bookmarkId == b && a.tagName == name
    ensures NamesFor(assocs, b) == [] <==> b !in LinkedBookmarks(assocs)
  {
    if assocs != [] {
      var init := assocs[..|assocs| - 1];
      NamesForMembers(init, b);
      assert forall a :: a in assocs <==> a in init || a == assocs[|assocs| - 1];
      assert LinkedBookmarks(assocs) == LinkedBookmarks(init) + {assocs[|assocs| - 1].bookmarkId};
    }
  }

  /** One more association row: its name is pushed onto its bookmark's list,
      which is created empty first when missing. */
  lemma TagMapStep(assocs: seq<AssocRow>, i: nat)
    requires i < |assocs|
    ensures var m := TagMapOf(assocs[..i]);
            var a := assocs[i];
            var list := if a.bookmarkId in m then m[a.bookmarkId] else [];
            TagMapOf(assocs[..i + 1]) == m[a.bookmarkId := list + [a.tagName]]
  {
    var a := assocs[i];
    var prefix := assocs[..i];
    var s := assocs[..i + 1];
    assert s == prefix + [a];
    assert s[..i] == prefix;
    var m := TagMapOf(prefix);
    var list := if a.bookmarkId in m then m[a.bookmarkId] else [];
    var after := m[a.bookmarkId := list + [a.tagName]];
    assert forall x :: x in s <==> x in prefix || x == a;
    assert LinkedBookmarks(s) == LinkedBookmarks(prefix) + {a.bookmarkId};
    NamesForMembers(prefix, a.bookmarkId);
    assert NamesFor(s, a.bookmarkId) == list + [a.tagName];
    forall b | b in LinkedBookmarks(s) && b != a.bookmarkId
      ensures NamesFor(s, b) == after[b]
    {
      assert NamesFor(s, b) == NamesFor(prefix, b);
    }
  }

  /** The `forEach` over the association rows that fills `bookmarkTagMap`. */
  method BuildTagMap(assocs: seq<AssocRow>) returns (m: map<string, seq<string>>)
    ensures m == TagMapOf(assocs)
    ensures m.Keys == LinkedBookmarks(assocs)
    ensures forall b :: b in m ==> m[b] == NamesFor(assocs, b) && |m[b]| > 0
  {
    m := map[];
    var i := 0;
    while i < |assocs|
      invariant 0 <= i <= |assocs|
      invariant m == TagMapOf(assocs[..i])
    {
      var a := assocs[i];
      TagMapStep(assocs, i);
      if a.bookmarkId !in m {
        m := m[a.bookmarkId := []];
      }
      m := m[a.bookmarkId := m[a.bookmarkId] + [a.tagName]];
      i := i + 1;
    }
    assert assocs[..|assocs|] == assocs;
  }

  /** `Array.from(bookmarkTagMap.values()).filter(l => l.includes(name)).length`. */
  function CountListsWith(m: map<string, seq<string>>, name: string): (c: nat)
    ensures c <= |m|
  {
    var holding := set b | b in m && name in m[b];
    SubsetCard(holding, m.Keys);
    |holding|
  }

  /** One exported bookmark: the row's fields, its tag list from the map
      (empty when it has none), `is_pinned` as a boolean and a null click
      count as 0. */
  function ProjectBookmark(row: BookmarkRow, m: map<string, seq<string>>): (e: ExportBookmark)
    ensures e.id == row.id && e.title == row.title && e.url == row.url
    ensures e.description == row.description && e.coverImage == row.coverImage
    ensures e.createdAt == row.createdAt && e.updatedAt == row.updatedAt && e.lastClickedAt == row.lastClickedAt
    ensures row.id !in m ==> e.tags == []
    ensures e.isPinned <==> row.isPinned != 0
    ensures e.clickCount == (if row.clickCount.Some? then row.clickCount.value else 0)
  {
    ExportBookmark(row.id, row.title, row.url, row.description, row.coverImage,
                   if row.id in m then m[row.id] else [],
                   row.isPinned != 0, row.createdAt, row.updatedAt,
                   row.clickCount.GetOr(0), row.lastClickedAt)
  }

  /** One exported tag: the row's fields and the number of bookmarks whose
      tag list holds its name, which never exceeds the number of lists. */
  function ProjectTag(row: TagRow, m: map<string, seq<string>>): (e: ExportTag)
    ensures e.id == row.id && e.name == row.name && e.color == row.color
    ensures e.createdAt == row.createdAt && e.updatedAt == row.updatedAt
    ensures e.bookmarkCount <= |m|
  {
    ExportTag(row.id, row.name, row.color, row.createdAt, row.updatedAt, CountListsWith(m, row.name))
  }

  /** The dataset `collectUserData` returns, or the message it throws. */
  function CollectedData(userId: string, userRows: seq<UserRow>, bookmarks: seq<BookmarkRow>,
                         tags: seq<TagRow>, assocs: seq<AssocRow>, now: string, version: string)
    : (r: Result<ExportData, string>)
    ensures r.Failure? <==> ResolveUser(userId, userRows, now).Failure?
    ensures r.Success? ==>
      && r.value.version == version && r.value.exportedAt == now
      && |r.value.bookmarks| == |bookmarks| && |r.value.tags| == |tags|
      && r.value.metadata == Metadata(|bookmarks|, |tags|, "json")
  {
    match ResolveUser(userId, userRows, now)
    case Failure(msg) => Failure("Failed to collect user data: " + msg)
    case Success(user) =>
      var m := TagMapOf(assocs);
      Success(ExportData(
        version, now, ExportUserOf(user),
        seq(|bookmarks|, i requires 0 <= i < |bookmarks| => ProjectBookmark(bookmarks[i], m)),
        seq(|tags|, i requires 0 <= i < |tags| => ProjectTag(tags[i], m)),
        Metadata(|bookmarks|, |tags|, "json")))
  }

  /** `collectUserData`: resolve the user, fill the tag map, project rows. */
  method CollectUserData(userId: string, userRows: seq<UserRow>, bookmarks: seq<BookmarkRow>,
                         tags: seq<TagRow>, assocs: seq<AssocRow>, now: string, version: string)
    returns (r: Result<ExportData, string>)
    ensures r == CollectedData(userId, userRows, bookmarks, tags, assocs, now, version)
  {
    var user := ResolveUser(userId, userRows, now);
    if user.Failure? {
      return Failure("Failed to collect user data: " + user.error);
    }
    var m := BuildTagMap(assocs);
    var exportBookmarks := seq(|bookmarks|, i requires 0 <= i < |bookmarks| => ProjectBookmark(bookmarks[i], m));
    var exportTags := seq(|tags|, i requires 0 <= i < |tags| => ProjectTag(tags[i], m));
    r := Success(ExportData(version, now, ExportUserOf(user.value), exportBookmarks, exportTags,
                            Metadata(|exportBookmarks|, |exportTags|, "json")));
  }

  /** Only a non-placeholder id without a user row makes collection fail. */
  lemma CollectFailsOnlyForUnknownUser(userId: string, userRows: seq<UserRow>, bookmarks: seq<BookmarkRow>,
                                       tags: seq<TagRow>, assocs: seq<AssocRow>, now: string, version: string)
    ensures var r := CollectedData(userId, userRows, bookmarks, tags, assocs, now, version);
            && (r.Failure? <==> userId != DefaultUserId && userRows == [])
            && (r.Failure? ==> r.error == "Failed to collect user data: User not found")
            && (userId == DefaultUserId ==>
                  r.Success? && r.value.user == ExportUser(DefaultUserId, Some("default@tmarks.local"), None, now))
  {
  }

  /** Each exported bookmark keeps its row's position, id and fields; its tags
      are its association names in row order (`[]` without associations),
      `is_pinned` is a boolean and a null click count becomes 0. The totals
      are the row counts and the format label is always "json". */
  lemma ExportedBookmarks(userId: string, userRows: seq<UserRow>, bookmarks: seq<BookmarkRow>,
                          tags: seq<TagRow>, assocs: seq<AssocRow>, now: string, version: string)
    requires CollectedData(userId, userRows, bookmarks, tags, assocs, now, version).Success?
    ensures var d := CollectedData(userId, userRows, bookmarks, tags, assocs, now, version).value;
      && |d.bookmarks| == |bookmarks| && |d.tags| == |tags|
      && d.metadata == Metadata(|bookmarks|, |tags|, "json")
      && (forall i :: 0 <= i < |bookmarks| ==>
           && d.bookmarks[i].id == bookmarks[i].id
           && d.bookmarks[i].tags == NamesFor(assocs, bookmarks[i].id)
           && (d.bookmarks[i].isPinned <==> bookmarks[i].isPinned != 0)
           && d.bookmarks[i].clickCount == (if bookmarks[i].clickCount.Some? then bookmarks[i].clickCount.value else 0))
  {
    forall i | 0 <= i < |bookmarks| {
      NamesForMembers(assocs, bookmarks[i].id);
    }
  }

  /** The bookmarks that have at least one association row carrying `name`. */
  function BookmarksNamed(assocs: seq<AssocRow>, name: string): set<string> {
    set a | a in assocs && a.tagName == name :: a.bookmarkId
  }

  /** A tag's `bookmark_count` is the number of distinct bookmark ids with an
      association row carrying the tag's name (deleted bookmarks included, as
      the association query does not filter them), so it never exceeds the
      number of distinct bookmark ids in the associations. */
  lemma BookmarkCountMeaning(assocs: seq<AssocRow>, row: TagRow)
    ensures var c := ProjectTag(row, TagMapOf(assocs)).bookmarkCount;
            c == |BookmarksNamed(assocs, row.name)| && c <= |LinkedBookmarks(assocs)|
  {
    var m := TagMapOf(assocs);
    var named := BookmarksNamed(assocs, row.name);
    forall b | b in named ensures b in m && row.name in m[b] {
      NamesForMembers(assocs, b);
    }
    forall b | b in m && row.name in m[b] ensures b in named {
      NamesForMembers(assocs, b);
    }
    assert (set b | b in m && row.name in m[b]) == named;
    SubsetCard(named, LinkedBookmarks(assocs));
  }

  lemma {:induction false} SubsetCard<T>(a: set<T>, b: set<T>)
    requires a <= b
    ensures |a| <= |b|
  {
    if a != {} {
      var x :| x in a;
      SubsetCard(a - {x}, b - {x});
    }
  }

  /** Every tag in the dataset carries that count. */
  lemma ExportedTagCounts(userId: string, userRows: seq<UserRow>, bookmarks: seq<BookmarkRow>,
                          tags: seq<TagRow>, assocs: seq<AssocRow>, now: string, version: string)
    requires CollectedData(userId, userRows, bookmarks, tags, assocs, now, version).Success?
    ensures var d := CollectedData(userId, userRows, bookmarks, tags, assocs, now, version).value;
      forall k :: 0 <= k < |tags| ==>
        && d.tags[k].id == tags[k].id && d.tags[k].name == tags[k].name
        && d.tags[k].bookmarkCount == |BookmarksNamed(assocs, tags[k].name)|
        && d.tags[k].bookmarkCount <= |LinkedBookmarks(assocs)|
  {
    forall k | 0 <= k < |tags| {
      BookmarkCountMeaning(assocs, tags[k]);
    }
  }

  // ---------------------------------------------------------------------------
  // The GET handler

  /** A file response (the exporter's input is recorded), a 400 for an
      unsupported format, or a 500 with the collection error. */
  datatype ExportResponse =
    | Exported(format: string, data: ExportData, options: ExportOptions)
    | BadRequest(error: string)
    | ServerError(message: string)

  predicate SupportedFormat(format: string) {
    format == "json" || format == "html"
  }

  /** The outcome of a GET: decode, collect, and only then check the format. */
  function ExportOutcome(q: Query, userId: string, userRows: seq<UserRow>, bookmarks: seq<BookmarkRow>,
                         tags: seq<TagRow>, assocs: seq<AssocRow>, now: string, version: string): (r: ExportResponse)
    ensures r.ServerError? <==> CollectedData(userId, userRows, bookmarks, tags, assocs, now, version).Failure?
    ensures r.Exported? ==>
      && SupportedFormat(r.format)
      && r.format == ParseExportQuery(q).format && r.options == ParseExportQuery(q).options
      && r.data == CollectedData(userId, userRows, bookmarks, tags, assocs, now, version).value
    ensures r.BadRequest? ==> r.error == "Unsupported export format: " + ParseExportQuery(q).format
  {
    var req := ParseExportQuery(q);
    match CollectedData(userId, userRows, bookmarks, tags, assocs, now, version)
    case Failure(msg) => ServerError(msg)
    case Success(data) =>
      if SupportedFormat(req.format) then Exported(req.format, data, req.options)
      else BadRequest("Unsupported export format: " + req.format)
  }

  method HandleExport(q: Query, userId: string, userRows: seq<UserRow>, bookmarks: seq<BookmarkRow>,
                      tags: seq<TagRow>, assocs: seq<AssocRow>, now: string, version: string)
    returns (resp: ExportResponse)
    ensures resp == ExportOutcome(q, userId, userRows, bookmarks, tags, assocs, now, version)
  {
    var req := ParseExportQuery(q);
    var data := CollectUserData(userId, userRows, bookmarks, tags, assocs, now, version);
    if data.Failure? {
      return ServerError(data.error);
    }
    if req.format == "json" || req.format == "html" {
      resp := Exported(req.format, data.value, req.options);
    } else {
      resp := BadRequest("Unsupported export format: " + req.format);
    }
  }

  /** The format is checked only after collection: an unknown user gets the
      collection error even with an unsupported format, and a 400 for the
      format is returned only when collection succeeded. */
  lemma FormatCheckedAfterCollection(q: Query, userId: string, userRows: seq<UserRow>, bookmarks: seq<BookmarkRow>,
                                     tags: seq<TagRow>, assocs: seq<AssocRow>, now: string, version: string)
    ensures var resp := ExportOutcome(q, userId, userRows, bookmarks, tags, assocs, now, version);
      && (userId != DefaultUserId && userRows == [] ==> resp.ServerError?)
      && (resp.BadRequest? <==> !SupportedFormat(ParseExportQuery(q).format) &&
                                CollectedData(userId, userRows, bookmarks, tags, assocs, now, version).Success?)
      && (resp.Exported? ==> resp.options == ParseExportQuery(q).options && SupportedFormat(resp.format))
  {
  }

  // ---------------------------------------------------------------------------
  // The preview (onRequestPost)

  datatype ExportStats = ExportStats(totalBookmarks: int, totalTags: int, pinnedBookmarks: int)

  /** `getExportStats`: each `COUNT(*)` result, or 0 when the row is missing. */
  function StatsOf(bookmarkCount: Option<int>, tagCount: Option<int>, pinnedCount: Option<int>): (s: ExportStats)
    ensures bookmarkCount.None? ==> s.totalBookmarks == 0
    ensures tagCount.None? ==> s.totalTags == 0
    ensures pinnedCount.None? ==> s.pinnedBookmarks == 0
    ensures bookmarkCount.Some? ==> s.totalBookmarks == bookmarkCount.value
    ensures tagCount.Some? ==> s.totalTags == tagCount.value
    ensures pinnedCount.Some? ==> s.pinnedBookmarks == pinnedCount.value
  {
    ExportStats(bookmarkCount.GetOr(0), tagCount.GetOr(0), pinnedCount.GetOr(0))
  }

  /** `estimateExportSize`: 200 and 50 bytes per bookmark and tag for json,
      150 and 30 for anything else. */
  function EstimateExportSize(stats: ExportStats, format: string): (size: int)
    ensures format == "json" ==> size == stats.totalBookmarks * 200 + stats.totalTags * 50
    ensures format != "json" ==> size == stats.totalBookmarks * 150 + stats.totalTags * 30
  {
    var avgBookmarkSize := if format == "json" then 200 else 150;
    var avgTagSize := if format == "json" then 50 else 30;
    stats.totalBookmarks * avgBookmarkSize + stats.totalTags * avgTagSize
  }

  /** More bookmarks or more tags never shrink the estimate, and json is
      never estimated smaller than another format. */
  lemma EstimateMonotone(s1: ExportStats, s2: ExportStats, format: string)
    requires s1.totalBookmarks <= s2.totalBookmarks && s1.totalTags <= s2.totalTags
    requires 0 <= s1.totalBookmarks && 0 <= s1.totalTags
    ensures EstimateExportSize(s1, format) <= EstimateExportSize(s2, format)
    ensures EstimateExportSize(s1, format) <= EstimateExportSize(s1, "json")
  {
  }

  /** `generateFilename`: the date part of an ISO timestamp (everything
      before the first 'T') between a fixed prefix and the format. */
  function GenerateFilename(format: string, isoNow: string): (name: string)
    ensures var date := Split(isoNow, 'T')[0];
            name == "tmarks-export-" + date + "." + format && 'T' !in date
  {
    "tmarks-export-" + Split(isoNow, 'T')[0] + "." + format
  }

  /** For a timestamp `date + "T" + time`, the file name carries exactly `date`. */
  lemma FilenameCarriesDate(format: string, date: string, time: string)
    requires 'T' !in date
    ensures GenerateFilename(format, date + "T" + time) == "tmarks-export-" + date + "." + format
  {
    SplitAtFirst(date, 'T', time);
  }

  datatype Preview = Preview(stats: ExportStats, estimatedSize: int, format: string, estimatedFilename: string)

  /** The preview response; a body without `format` means "json". */
  function PreviewOf(format: Option<string>, bookmarkCount: Option<int>, tagCount: Option<int>,
                     pinnedCount: Option<int>, isoNow: string): (p: Preview)
    ensures p.format == format.GetOr("json")
    ensures p.stats == StatsOf(bookmarkCount, tagCount, pinnedCount)
    ensures p.estimatedSize == EstimateExportSize(p.stats, p.format)
    ensures p.estimatedFilename == GenerateFilename(p.format, isoNow)
  {
    var f := format.GetOr("json");
    var stats := StatsOf(bookmarkCount, tagCount, pinnedCount);
    Preview(stats, EstimateExportSize(stats, f), f, GenerateFilename(f, isoNow))
  }

  /** Ten bookmarks (three pinned) and four tags, json: 10·200 + 4·50 bytes. */
  lemma PreviewScenario()
    ensures var p := PreviewOf(None, Some(10), Some(4), Some(3), "2026-10-11" + "T" + "08:00:00.000Z");
            && p.stats == ExportStats(10, 4, 3)
            && p.estimatedSize == 2200
            && p.estimatedFilename == "tmarks-export-" + "2026-10-11" + ".json"
  {
    FilenameCarriesDate("json", "2026-10-11", "08:00:00.000Z");
  }
}
