/** The PATCH /api/v1/bookmarks/bulk handler
    (tmarks/functions/api/v1/bookmarks/bulk.ts): request validation, the
    dispatch on the six action kinds, and the statement sequence each action
    runs against the store. */
module Bulk {
  import opened Wrappers
  import opened BulkSpec

  datatype Action = Delete | UpdateTags | Pin | Unpin | Archive | Unarchive

  /** The `switch (action)` labels; anything else reaches the `default` branch. */
  function ParseAction(s: string): (r: Option<Action>)
    ensures r == Some(Delete) <==> s == "delete"
    ensures r == Some(UpdateTags) <==> s == "update_tags"
    ensures r == Some(Pin) <==> s == "pin"
    ensures r == Some(Unpin) <==> s == "unpin"
    ensures r == Some(Archive) <==> s == "archive"
    ensures r == Some(Unarchive) <==> s == "unarchive"
  {
    if s == "delete" then Some(Delete)
    else if s == "update_tags" then Some(UpdateTags)
    else if s == "pin" then Some(Pin)
    else if s == "unpin" then Some(Unpin)
    else if s == "archive" then Some(Archive)
    else if s == "unarchive" then Some(Unarchive)
    else None
  }

  /** The `bookmark_ids` member of the JSON body: absent, present but not an
      array, or an array of ids. */
  datatype IdsField = Missing | NotArray | Ids(ids: seq<string>)

  /** The JSON body of a batch request; a missing `action` is `None`. */
  datatype BulkRequest = BulkRequest(
    action: Option<string>,
    bookmarkIds: IdsField,
    addTagIds: Option<seq<string>>,
    removeTagIds: Option<seq<string>>)

  datatype ErrorCode = InvalidRequest | TooManyItems | InvalidAction | NoValidBookmarks

  /** A 200 response (`errors` only when non-empty) or a `{code, message}` error. */
  datatype BulkResponse = Ok(affectedCount: nat, errors: Option<seq<ItemError>>) | Rejected(code: ErrorCode)

  /** The HTTP status of a response: 200 on success, 404 when no requested
      bookmark is valid, 400 for every other rejection. */
  function HttpStatus(resp: BulkResponse): (status: nat)
    ensures status == 200 <==> resp.Ok?
    ensures status == 404 <==> resp == Rejected(NoValidBookmarks)
    ensures status == 400 <==> resp.Rejected? && resp.code != NoValidBookmarks
  {
    match resp
    case Ok(_, _) => 200
    case Rejected(NoValidBookmarks) => 404
    case Rejected(_) => 400
  }

  datatype AuditEvent =
    | BatchDeleteBookmarks(bookmarkIds: seq<string>, count: nat)
    | BatchUpdateTags(bookmarkIds: seq<string>, addTagIds: Option<seq<string>>, removeTagIds: Option<seq<string>>)

  /** A row of `audit_logs`. */
  datatype AuditEntry = AuditEntry(user: string, event: AuditEvent, createdAt: Timestamp)

  /** The first validation test: `action` is a non-empty string and
      `bookmark_ids` a non-empty array. */
  predicate WellFormed(req: BulkRequest) {
    && req.action.Some? && req.action.value != ""
    && req.bookmarkIds.Ids? && |req.bookmarkIds.ids| > 0
  }

  /** The checks that run before any statement, in the source's order:
      shape, then size, then the action name. */
  function CheckRequest(req: BulkRequest): (r: Result<(Action, seq<string>), ErrorCode>)
    ensures r == Failure(InvalidRequest) <==> !WellFormed(req)
    ensures r == Failure(TooManyItems) <==> WellFormed(req) && |req.bookmarkIds.ids| > MaxBatchSize
    ensures r == Failure(InvalidAction) <==>
      WellFormed(req) && |req.bookmarkIds.ids| <= MaxBatchSize && ParseAction(req.action.value).None?
    ensures r.Success? ==>
      && 1 <= |r.value.1| <= MaxBatchSize
      && r.value.1 == req.bookmarkIds.ids
      && Some(r.value.0) == ParseAction(req.action.value)
    ensures r.Failure? ==> r.error != NoValidBookmarks
  {
    if !WellFormed(req) then Failure(InvalidRequest)
    else if |req.bookmarkIds.ids| > MaxBatchSize then Failure(TooManyItems)
    else match ParseAction(req.action.value)
      case None => Failure(InvalidAction)
      case Some(a) => Success((a, req.bookmarkIds.ids))
  }

  /** Exactly 100 ids pass the size check and 101 do not. */
  lemma SizeBoundary(a: string, ids: seq<string>)
    requires ParseAction(a).Some?
    ensures |ids| == 100 ==> CheckRequest(BulkRequest(Some(a), Ids(ids), None, None)).Success?
    ensures |ids| == 101 ==> CheckRequest(BulkRequest(Some(a), Ids(ids), None, None)) == Failure(TooManyItems)
    ensures CheckRequest(BulkRequest(Some(a), Ids([]), None, None)) == Failure(InvalidRequest)
  {
  }

  predicate IsToggle(a: Action) {
    a == Pin || a == Unpin || a == Archive || a == Unarchive
  }

  /** The SET clause of the pin, unpin, archive and unarchive statements. */
  function ToggleUpdate(a: Action, now: Timestamp): (u: RowUpdate)
    requires IsToggle(a)
    ensures a == Pin || a == Unpin ==> u == SetPinned(a == Pin, now)
    ensures a == Archive || a == Unarchive ==> u == SetArchived(a == Archive, now)
  {
    match a
    case Pin => SetPinned(true, now)
    case Unpin => SetPinned(false, now)
    case Archive => SetArchived(true, now)
    case Unarchive => SetArchived(false, now)
  }

  /** An optional id list as the statements see it: absent is empty. */
  function OrEmpty(ids: Option<seq<string>>): seq<string> {
    ids.GetOr([])
  }

  /** The `errors` member of a 200 response: present only when non-empty. */
  function ErrorsField(errors: seq<ItemError>): (r: Option<seq<ItemError>>)
    ensures r.Some? <==> |errors| > 0
    ensures r.Some? ==> r.value == errors
  {
    if |errors| > 0 then Some(errors) else None
  }

  /** The bookmark, tag, association and audit tables, plus a record of the
      public-share cache invalidations the handler requests. */
  class Store {
    var bookmarks: map<string, Bookmark>
    var tags: map<string, Tag>
    var links: set<Link>
    var auditLog: seq<AuditEntry>
    /** The owner ids passed to `invalidatePublicShareCache`, in call order. */
    var invalidations: seq<string>

    ghost predicate Valid()
      reads this
    {
      UniquePairs(links)
    }

    constructor (bookmarks0: map<string, Bookmark>, tags0: map<string, Tag>, links0: set<Link>)
      requires UniquePairs(links0)
      ensures Valid()
      ensures bookmarks == bookmarks0 && tags == tags0 && links == links0
      ensures auditLog == [] && invalidations == []
    {
      bookmarks, tags, links := bookmarks0, tags0, links0;
      auditLog, invalidations := [], [];
    }

    /** `UPDATE bookmarks SET <u> WHERE id IN (ids) AND user_id = ? AND
        deleted_at IS NULL`, returning `meta.changes`. */
    method UpdateActiveRows(user: string, ids: seq<string>, u: RowUpdate) returns (changes: nat)
      modifies this`bookmarks
      ensures bookmarks == UpdateRows(old(bookmarks), Targets(old(bookmarks), user, ids), u)
      ensures changes == |Targets(old(bookmarks), user, ids)|
    {
      var rows := Targets(bookmarks, user, ids);
      bookmarks := UpdateRows(bookmarks, rows, u);
      changes := |rows|;
    }

    /** The `delete` action: soft delete with click-statistics reset, then one
        audit entry with the requested ids and the number of changed rows. */
    method DeleteBookmarks(user: string, ids: seq<string>, now: Timestamp) returns (affected: nat)
      modifies this`bookmarks, this`auditLog
      ensures bookmarks == UpdateRows(old(bookmarks), Targets(old(bookmarks), user, ids), SoftDelete(now))
      ensures affected == |Targets(old(bookmarks), user, ids)|
      ensures auditLog == old(auditLog) + [AuditEntry(user, BatchDeleteBookmarks(ids, affected), now)]
    {
      affected := UpdateActiveRows(user, ids, SoftDelete(now));
      auditLog := auditLog + [AuditEntry(user, BatchDeleteBookmarks(ids, affected), now)];
    }

    /** The remove phase: one bulk DELETE over valid bookmarks × remove ids. */
    method RemoveTags(user: string, validBookmarks: seq<string>, removeTagIds: seq<string>)
      requires Valid()
      modifies this`links
      ensures Valid()
      ensures links == RemovePairs(old(links), validBookmarks, removeTagIds, user)
    {
      links := RemovePairs(links, validBookmarks, removeTagIds, user);
    }

    /** The inner loop of the add phase: one bookmark against every valid tag.
        `base` and `done` name the links before the add phase and the pairs
        already handled, so the loop continues `AddPairs` where it stands. */
    method AddTagsTo(user: string, b: string, validTags: seq<string>, failing: set<(string, string)>,
                     ghost base: set<Link>, ghost done: seq<(string, string)>, errors0: seq<ItemError>)
      returns (errors: seq<ItemError>)
      requires UniquePairs(links)
      requires links == AddPairs(base, done, user, failing)
      requires errors0 == PairErrors(done, failing)
      modifies this`links
      ensures UniquePairs(links)
      ensures links == AddPairs(base, done + Row(b, validTags), user, failing)
      ensures errors == PairErrors(done + Row(b, validTags), failing)
    {
      errors := errors0;
      assert done + Row(b, validTags[..0]) == done;
      var j := 0;
      while j < |validTags|
        invariant 0 <= j <= |validTags|
        invariant UniquePairs(links)
        invariant links == AddPairs(base, done + Row(b, validTags[..j]), user, failing)
        invariant errors == PairErrors(done + Row(b, validTags[..j]), failing)
      {
        var t := validTags[j];
        InnerStep(base, done, b, validTags, j, user, failing);
        if (b, t) in failing {
          errors := errors + [ItemError(b, "Failed to add tag " + t)];
        } else {
          links := InsertOrIgnore(links, b, t, user);
        }
        j := j + 1;
      }
      assert validTags[..|validTags|] == validTags;
    }

    /** The add phase: `INSERT OR IGNORE` for every valid bookmark × valid tag
        pair, in nested-loop order. A pair in `failing` stands for an insert
        that throws; it is reported in `errors` and the loop goes on. */
    method AddTags(user: string, validBookmarks: seq<string>, validTags: seq<string>,
                   failing: set<(string, string)>) returns (errors: seq<ItemError>)
      requires Valid()
      modifies this`links
      ensures Valid()
      ensures links == AddPairs(old(links), CrossPairs(validBookmarks, validTags), user, failing)
      ensures errors == PairErrors(CrossPairs(validBookmarks, validTags), failing)
    {
      errors := [];
      var i := 0;
      while i < |validBookmarks|
        invariant 0 <= i <= |validBookmarks|
        invariant UniquePairs(links)
        invariant links == AddPairs(old(links), CrossPairs(validBookmarks[..i], validTags), user, failing)
        invariant errors == PairErrors(CrossPairs(validBookmarks[..i], validTags), failing)
      {
        errors := AddTagsTo(user, validBookmarks[i], validTags, failing, old(links),
                            CrossPairs(validBookmarks[..i], validTags), errors);
        CrossPairsStep(validBookmarks, validTags, i);
        i := i + 1;
      }
      assert validBookmarks[..|validBookmarks|] == validBookmarks;
    }

    /** The `usage_count` loop: each valid add-tag gets the live count of its
        associations for this owner. */
    method RecountUsage(user: string, validTags: seq<string>)
      modifies this`tags
      ensures tags == Recounted(old(tags), links, validTags, user)
    {
      var k := 0;
      while k < |validTags|
        invariant 0 <= k <= |validTags|
        invariant tags == Recounted(old(tags), links, validTags[..k], user)
      {
        var id := validTags[k];
        assert forall x :: x in validTags[..k + 1] <==> x in validTags[..k] || x == id;
        if id in tags && tags[id].owner == user {
          tags := tags[id := tags[id].(usageCount := CountLinks(links, id, user))];
        }
        k := k + 1;
      }
      assert validTags[..|validTags|] == validTags;
    }

    /** The remove phase, then (when valid add-tags exist) the insert loop and
        the usage recount; returns the per-pair errors. */
    method ApplyTagPhases(user: string, valid: seq<string>, addTagIds: Option<seq<string>>,
                          removeTagIds: Option<seq<string>>, failing: set<(string, string)>)
      returns (errors: seq<ItemError>)
      requires Valid()
      modifies this`tags, this`links
      ensures Valid()
      ensures var validTags := ValidTagIds(old(tags), user, OrEmpty(addTagIds));
        && links == UpdatedLinks(old(links), valid, OrEmpty(removeTagIds), validTags, user, failing)
        && tags == Recounted(old(tags), links, validTags, user)
        && errors == PairErrors(CrossPairs(valid, validTags), failing)
    {
      ghost var validTags := ValidTagIds(tags, user, OrEmpty(addTagIds));
      if removeTagIds.Some? && |removeTagIds.value| > 0 {
        RemoveTags(user, valid, removeTagIds.value);
      } else {
        NoRemoveIdsNoChange(links, valid, user);
      }
      errors := [];
      if addTagIds.Some? && |addTagIds.value| > 0 && |ValidTagIds(tags, user, addTagIds.value)| > 0 {
        var tagIds := ValidTagIds(tags, user, addTagIds.value);
        errors := AddTags(user, valid, tagIds, failing);
        RecountUsage(user, tagIds);
      } else {
        assert validTags == [];
        NoAddTagsNoChange(links, tags, valid, user, failing);
      }
    }

    /** The `update_tags` action. It resolves the caller's active bookmarks
        (NO_VALID_BOOKMARKS when none, with nothing written), removes, adds,
        recounts the added tags, touches the bookmarks and writes one audit
        entry. The result is the affected count and the per-pair errors. */
    method UpdateBookmarkTags(user: string, ids: seq<string>, addTagIds: Option<seq<string>>,
                              removeTagIds: Option<seq<string>>, failing: set<(string, string)>, now: Timestamp)
      returns (r: Result<(nat, seq<ItemError>), ErrorCode>)
      requires Valid()
      modifies this`bookmarks, this`tags, this`links, this`auditLog
      ensures Valid()
      ensures var valid := ValidBookmarkIds(old(bookmarks), user, ids);
              var validTags := ValidTagIds(old(tags), user, OrEmpty(addTagIds));
        if |valid| == 0 then
          && r == Failure(NoValidBookmarks)
          && bookmarks == old(bookmarks) && tags == old(tags) && links == old(links) && auditLog == old(auditLog)
        else
          && links == UpdatedLinks(old(links), valid, OrEmpty(removeTagIds), validTags, user, failing)
          && tags == Recounted(old(tags), links, validTags, user)
          && (forall t :: t in validTags ==> t in tags && tags[t].usageCount == CountLinks(links, t, user))
          && bookmarks == UpdateRows(old(bookmarks), (set id | id in valid), Touch(now))
          && auditLog == old(auditLog) + [AuditEntry(user, BatchUpdateTags(valid, addTagIds, removeTagIds), now)]
          && r == Success((|valid|, PairErrors(CrossPairs(valid, validTags), failing)))
    {
      var valid := ValidBookmarkIds(bookmarks, user, ids);
      if |valid| == 0 {
        return Failure(NoValidBookmarks);
      }
      var errors := ApplyTagPhases(user, valid, addTagIds, removeTagIds, failing);
      var touched := set id | id in valid && id in bookmarks && bookmarks[id].owner == user;
      assert touched == set id | id in valid;
      bookmarks := UpdateRows(bookmarks, touched, Touch(now));
      auditLog := auditLog + [AuditEntry(user, BatchUpdateTags(valid, addTagIds, removeTagIds), now)];
      r := Success((|valid|, errors));
    }

    /** The handler body: validate, dispatch, build the response and, after a
        successful action of any kind, invalidate the caller's share cache. */
    method HandleBulk(user: string, req: BulkRequest, failing: set<(string, string)>, now: Timestamp)
      returns (resp: BulkResponse)
      requires Valid()
      modifies this
      ensures Valid()
      ensures CheckRequest(req).Failure? ==> resp == Rejected(CheckRequest(req).error) && unchanged(this)
      ensures resp.Ok? <==> invalidations == old(invalidations) + [user]
      ensures resp.Rejected? ==> unchanged(this)
      ensures CheckRequest(req).Success? && CheckRequest(req).value.0 == Delete ==>
        var ids := CheckRequest(req).value.1;
        var t := Targets(old(bookmarks), user, ids);
        && resp == Ok(|t|, None)
        && bookmarks == UpdateRows(old(bookmarks), t, SoftDelete(now))
        && tags == old(tags) && links == old(links)
        && auditLog == old(auditLog) + [AuditEntry(user, BatchDeleteBookmarks(ids, |t|), now)]
      ensures CheckRequest(req).Success? && IsToggle(CheckRequest(req).value.0) ==>
        var t := Targets(old(bookmarks), user, CheckRequest(req).value.1);
        && resp == Ok(|t|, None)
        && bookmarks == UpdateRows(old(bookmarks), t, ToggleUpdate(CheckRequest(req).value.0, now))
        && tags == old(tags) && links == old(links) && auditLog == old(auditLog)
      ensures CheckRequest(req).Success? && CheckRequest(req).value.0 == UpdateTags ==>
        var valid := ValidBookmarkIds(old(bookmarks), user, CheckRequest(req).value.1);
        var validTags := ValidTagIds(old(tags), user, OrEmpty(req.addTagIds));
        if |valid| == 0 then resp == Rejected(NoValidBookmarks)
        else
          && links == UpdatedLinks(old(links), valid, OrEmpty(req.removeTagIds), validTags, user, failing)
          && tags == Recounted(old(tags), links, validTags, user)
          && bookmarks == UpdateRows(old(bookmarks), (set id | id in valid), Touch(now))
          && auditLog == old(auditLog) + [AuditEntry(user, BatchUpdateTags(valid, req.addTagIds, req.removeTagIds), now)]
          && resp == Ok(|valid|, ErrorsField(PairErrors(CrossPairs(valid, validTags), failing)))
    {
      var check := CheckRequest(req);
      if check.Failure? {
        return Rejected(check.error);
      }
      var (action, ids) := check.value;
      var affected: nat := 0;
      var errors: seq<ItemError> := [];
      match action {
        case Delete =>
          affected := DeleteBookmarks(user, ids, now);
        case Pin =>
          affected := UpdateActiveRows(user, ids, SetPinned(true, now));
        case Unpin =>
          affected := UpdateActiveRows(user, ids, SetPinned(false, now));
        case Archive =>
          affected := UpdateActiveRows(user, ids, SetArchived(true, now));
        case Unarchive =>
          affected := UpdateActiveRows(user, ids, SetArchived(false, now));
        case UpdateTags =>
          var r := UpdateBookmarkTags(user, ids, req.addTagIds, req.removeTagIds, failing, now);
          if r.Failure? {
            return Rejected(r.error);
          }
          affected, errors := r.value.0, r.value.1;
      }
      resp := Ok(affected, ErrorsField(errors));
      invalidations := invalidations + [user];
    }
  }

  /** The pin scenario: of two requested ids only the first is an active
      bookmark of the caller, so one row changes and the response says 1. */
  method PinScenario(now: Timestamp) returns (resp: BulkResponse)
    ensures resp == Ok(1, None) && HttpStatus(resp) == 200
  {
    var mine := Bookmark("u1", None, false, false, 3, None, "t0");
    var theirs := Bookmark("u2", None, false, false, 0, None, "t0");
    var store := new Store(map["b1" := mine, "b2" := theirs], map[], {});
    assert Targets(store.bookmarks, "u1", ["b1", "b2"]) == {"b1"};
    resp := store.HandleBulk("u1", BulkRequest(Some("pin"), Ids(["b1", "b2"]), None, None), {}, now);
    assert store.bookmarks["b1"].pinned && !store.bookmarks["b2"].pinned;
  }
}
