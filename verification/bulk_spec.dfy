/** The tables the batch endpoint (tmarks/functions/api/v1/bookmarks/bulk.ts)
    reads and writes, and the effect of each of its SQL statements as a pure
    function on them. The class in module Bulk executes these statements; the
    lemmas here state what the statements guarantee. */
module BulkSpec {
  import opened Wrappers

  /** A `datetime('now')` value; the clock is a parameter of every operation. */
  type Timestamp = string

  /** The most bookmark ids one request may carry. */
  const MaxBatchSize: nat := 100

  /** A row of `bookmarks`, restricted to the columns the batch endpoint uses. */
  datatype Bookmark = Bookmark(
    owner: string,
    deletedAt: Option<Timestamp>,
    pinned: bool,
    archived: bool,
    clickCount: int,
    lastClickedAt: Option<Timestamp>,
    updatedAt: Timestamp)

  /** A row of `tags`, restricted to the columns the batch endpoint uses. */
  datatype Tag = Tag(owner: string, deletedAt: Option<Timestamp>, usageCount: int)

  /** A row of `bookmark_tags`. */
  datatype Link = Link(bookmarkId: string, tagId: string, owner: string)

  /** One element of the response's `errors` list. */
  datatype ItemError = ItemError(bookmarkId: string, message: string)

  // ---------------------------------------------------------------------------
  // Ownership filter: `WHERE id IN (...) AND user_id = ? AND deleted_at IS NULL`

  predicate ActiveBookmark(b: Bookmark, user: string) {
    b.owner == user && b.deletedAt.None?
  }

  predicate ActiveTag(t: Tag, user: string) {
    t.owner == user && t.deletedAt.None?
  }

  /** The rows an `UPDATE bookmarks ... WHERE id IN (ids) AND user_id = ?
      AND deleted_at IS NULL` matches. */
  function Targets(bookmarks: map<string, Bookmark>, user: string, ids: seq<string>): (t: set<string>)
    ensures t <= bookmarks.Keys
    ensures forall id :: id in t <==> id in ids && id in ActiveBookmarkIds(bookmarks, user)
  {
    set id | id in ids && id in bookmarks && ActiveBookmark(bookmarks[id], user)
  }

  /** The ids of the caller's active bookmarks. */
  function ActiveBookmarkIds(bookmarks: map<string, Bookmark>, user: string): set<string> {
    set id | id in bookmarks && ActiveBookmark(bookmarks[id], user)
  }

  /** The ids of the caller's active tags. */
  function ActiveTagIds(tags: map<string, Tag>, user: string): set<string> {
    set id | id in tags && ActiveTag(tags[id], user)
  }

  /** The id column of a `SELECT id ... WHERE id IN (ids) AND <cond>`: every
      requested id that satisfies the condition (`keep`), once each. SQL leaves
      the row order open; the model fixes it to first-request order. */
  function SelectIds(ids: seq<string>, keep: set<string>): (r: seq<string>)
    ensures forall id :: id in r <==> id in ids && id in keep
    ensures forall i, j :: 0 <= i < j < |r| ==> r[i] != r[j]
    ensures |r| <= |ids|
  {
    if ids == [] then []
    else
      var prev := SelectIds(ids[..|ids| - 1], keep);
      var id := ids[|ids| - 1];
      assert forall x :: x in ids <==> x in ids[..|ids| - 1] || x == id;
      if id in keep && id !in prev then prev + [id] else prev
  }

  /** The valid bookmark ids of an `update_tags` request. */
  function ValidBookmarkIds(bookmarks: map<string, Bookmark>, user: string, ids: seq<string>): seq<string> {
    SelectIds(ids, ActiveBookmarkIds(bookmarks, user))
  }

  /** The valid add-tag ids of an `update_tags` request. */
  function ValidTagIds(tags: map<string, Tag>, user: string, ids: seq<string>): seq<string> {
    SelectIds(ids, ActiveTagIds(tags, user))
  }

  /** No more bookmarks are matched than ids were sent, and strictly fewer
      when some requested id is not an active bookmark of the caller. */
  lemma {:induction false} TargetsBound(bookmarks: map<string, Bookmark>, user: string, ids: seq<string>)
    ensures |Targets(bookmarks, user, ids)| <= |ids|
    ensures (exists id :: id in ids && id !in Targets(bookmarks, user, ids)) ==>
              |Targets(bookmarks, user, ids)| < |ids|
  {
    var t := Targets(bookmarks, user, ids);
    var sel := SelectIds(ids, t);
    SetOfDistinct(sel);
    assert forall x :: x in sel <==> x in t;
    assert (set x | x in sel) == t;
    if exists id :: id in ids && id !in t {
      var id :| id in ids && id !in t;
      var withMissing := SelectIds(ids, t + {id});
      SetOfDistinct(withMissing);
      assert (set x | x in withMissing) == t + {id};
    }
  }

  /** A sequence without repetitions has as many distinct elements as entries. */
  lemma {:induction false} SetOfDistinct(s: seq<string>)
    requires forall i, j :: 0 <= i < j < |s| ==> s[i] != s[j]
    ensures |set x | x in s| == |s|
  {
    if s != [] {
      var init := s[..|s| - 1];
      SetOfDistinct(init);
      assert (set x | x in s) == (set x | x in init) + {s[|s| - 1]};
      assert s[|s| - 1] !in init;
    }
  }

  // ---------------------------------------------------------------------------
  // Row updates of the `bookmarks` table

  /** The SET clause of one bookmark UPDATE statement. */
  datatype RowUpdate =
    | SoftDelete(at: Timestamp)             // deleted_at = now, click_count = 0, last_clicked_at = NULL
    | SetPinned(pinned: bool, at: Timestamp)     // is_pinned = ?, updated_at = now
    | SetArchived(archived: bool, at: Timestamp) // is_archived = ?, updated_at = now
    | Touch(at: Timestamp)                  // updated_at = now

  function Apply(u: RowUpdate, b: Bookmark): Bookmark {
    match u
    case SoftDelete(now) => b.(deletedAt := Some(now), clickCount := 0, lastClickedAt := None)
    case SetPinned(v, now) => b.(pinned := v, updatedAt := now)
    case SetArchived(v, now) => b.(archived := v, updatedAt := now)
    case Touch(now) => b.(updatedAt := now)
  }

  /** The table after applying `u` to the rows in `rows`; every other row and
      the set of ids stay as they were. */
  function UpdateRows(bookmarks: map<string, Bookmark>, rows: set<string>, u: RowUpdate): (r: map<string, Bookmark>)
    ensures r.Keys == bookmarks.Keys
    ensures forall id :: id in r && id !in rows ==> r[id] == bookmarks[id]
    ensures forall id :: id in r && id in rows ==> r[id] == Apply(u, bookmarks[id])
  {
    map id | id in bookmarks :: if id in rows then Apply(u, bookmarks[id]) else bookmarks[id]
  }

  /** Soft delete leaves each matched row inactive with its click statistics
      cleared, and keeps its owner and flags. */
  lemma SoftDeleteClears(bookmarks: map<string, Bookmark>, user: string, ids: seq<string>, now: Timestamp)
    ensures var t := Targets(bookmarks, user, ids);
            var r := UpdateRows(bookmarks, t, SoftDelete(now));
            forall id :: id in t ==>
              && r[id].deletedAt == Some(now) && r[id].clickCount == 0 && r[id].lastClickedAt.None?
              && r[id].owner == bookmarks[id].owner && r[id].pinned == bookmarks[id].pinned
              && r[id].archived == bookmarks[id].archived && r[id].updatedAt == bookmarks[id].updatedAt
  {
  }

  /** A second identical `delete` matches no row: the first left them all deleted. */
  lemma DeleteAgainMatchesNothing(bookmarks: map<string, Bookmark>, user: string, ids: seq<string>, now: Timestamp)
    ensures var r := UpdateRows(bookmarks, Targets(bookmarks, user, ids), SoftDelete(now));
            Targets(r, user, ids) == {}
  {
  }

  /** A flag toggle changes only that flag and `updated_at`, and never the
      set of active owned bookmarks, so a second identical toggle matches the
      same rows and ends in the same flags. */
  lemma {:induction false} ToggleKeepsTargets(bookmarks: map<string, Bookmark>, user: string, ids: seq<string>, u: RowUpdate)
    requires u.SetPinned? || u.SetArchived?
    ensures var t := Targets(bookmarks, user, ids);
            var r := UpdateRows(bookmarks, t, u);
            && Targets(r, user, ids) == t
            && ActiveBookmarkIds(r, user) == ActiveBookmarkIds(bookmarks, user)
            && forall id :: id in t ==>
                 && r[id].owner == bookmarks[id].owner && r[id].deletedAt == bookmarks[id].deletedAt
                 && r[id].clickCount == bookmarks[id].clickCount
                 && r[id].lastClickedAt == bookmarks[id].lastClickedAt
                 && (u.SetPinned? ==> r[id].pinned == u.pinned && r[id].archived == bookmarks[id].archived)
                 && (u.SetArchived? ==> r[id].archived == u.archived && r[id].pinned == bookmarks[id].pinned)
  {
    var t := Targets(bookmarks, user, ids);
    var r := UpdateRows(bookmarks, t, u);
    forall id | id in r
      ensures ActiveBookmark(r[id], user) <==> ActiveBookmark(bookmarks[id], user)
    {
    }
  }

  // ---------------------------------------------------------------------------
  // The `bookmark_tags` table

  /** Some association joins bookmark `b` and tag `t` (any owner). */
  predicate HasPair(links: set<Link>, b: string, t: string) {
    exists l :: l in links && l.bookmarkId == b && l.tagId == t
  }

  /** The table's uniqueness constraint on (bookmark_id, tag_id). */
  ghost predicate UniquePairs(links: set<Link>) {
    forall l1, l2 :: l1 in links && l2 in links && l1.bookmarkId == l2.bookmarkId && l1.tagId == l2.tagId ==> l1 == l2
  }

  /** `INSERT OR IGNORE INTO bookmark_tags (bookmark_id, tag_id, user_id, ...)`. */
  function InsertOrIgnore(links: set<Link>, b: string, t: string, owner: string): (r: set<Link>)
    ensures HasPair(r, b, t)
    ensures links <= r <= links + {Link(b, t, owner)}
    ensures HasPair(links, b, t) ==> r == links
    ensures UniquePairs(links) ==> UniquePairs(r)
  {
    if HasPair(links, b, t) then links else links + {Link(b, t, owner)}
  }

  /** `DELETE FROM bookmark_tags WHERE bookmark_id IN (bs) AND tag_id IN (ts) AND user_id = ?`. */
  function RemovePairs(links: set<Link>, bs: seq<string>, ts: seq<string>, owner: string): (r: set<Link>)
    ensures r <= links
    ensures UniquePairs(links) ==> UniquePairs(r)
  {
    set l | l in links && !(l.bookmarkId in bs && l.tagId in ts && l.owner == owner)
  }

  /** The (bookmark, tag) pairs of the nested insert loop, in loop order:
      every tag for the first bookmark, then every tag for the second, ... */
  function CrossPairs(bs: seq<string>, ts: seq<string>): (ps: seq<(string, string)>)
    ensures |ps| == |bs| * |ts|
  {
    if bs == [] then []
    else CrossPairs(bs[..|bs| - 1], ts) + Row(bs[|bs| - 1], ts)
  }

  /** The pairs of the inner loop for one bookmark. */
  function Row(b: string, ts: seq<string>): (ps: seq<(string, string)>)
    ensures |ps| == |ts|
    ensures forall k :: 0 <= k < |ts| ==> ps[k] == (b, ts[k])
  {
    seq(|ts|, k requires 0 <= k < |ts| => (b, ts[k]))
  }

  lemma {:induction false} CrossPairsMembers(bs: seq<string>, ts: seq<string>)
    ensures forall b, t :: (b, t) in CrossPairs(bs, ts) <==> b in bs && t in ts
  {
    if bs != [] {
      var init := bs[..|bs| - 1];
      CrossPairsMembers(init, ts);
      assert forall x :: x in bs <==> x in init || x == bs[|bs| - 1];
    }
  }

  /** The links after inserting each pair of `ps` in order, where the insert
      statement of a pair in `failing` throws and writes nothing. */
  function AddPairs(links: set<Link>, ps: seq<(string, string)>, owner: string, failing: set<(string, string)>): (r: set<Link>)
    ensures links <= r
    ensures forall l :: l in r && l !in links ==>
              l.owner == owner && (l.bookmarkId, l.tagId) in ps && (l.bookmarkId, l.tagId) !in failing
    ensures UniquePairs(links) ==> UniquePairs(r)
  {
    if ps == [] then links
    else
      var prev := AddPairs(links, ps[..|ps| - 1], owner, failing);
      var p := ps[|ps| - 1];
      if p in failing then prev else InsertOrIgnore(prev, p.0, p.1, owner)
  }

  /** The `errors` entries of the nested loop: one per failing pair, in order. */
  function PairErrors(ps: seq<(string, string)>, failing: set<(string, string)>): (es: seq<ItemError>)
    ensures |es| <= |ps|
  {
    if ps == [] then []
    else
      var prev := PairErrors(ps[..|ps| - 1], failing);
      var p := ps[|ps| - 1];
      if p in failing then prev + [ItemError(p.0, "Failed to add tag " + p.1)] else prev
  }

  /** One more pair in the loop: one more insert, or one more error. */
  lemma AddPairsStep(links: set<Link>, ps: seq<(string, string)>, p: (string, string), owner: string,
                     failing: set<(string, string)>)
    ensures AddPairs(links, ps + [p], owner, failing) ==
      if p in failing then AddPairs(links, ps, owner, failing)
      else InsertOrIgnore(AddPairs(links, ps, owner, failing), p.0, p.1, owner)
    ensures PairErrors(ps + [p], failing) ==
      if p in failing then PairErrors(ps, failing) + [ItemError(p.0, "Failed to add tag " + p.1)]
      else PairErrors(ps, failing)
  {
    assert (ps + [p])[..|ps|] == ps;
  }

  /** One more iteration of the inner loop for bookmark `b`: the pair
      (b, ts[j]) is inserted, or reported if it fails. */
  lemma InnerStep(links: set<Link>, done: seq<(string, string)>, b: string, ts: seq<string>, j: nat,
                  owner: string, failing: set<(string, string)>)
    requires j < |ts|
    ensures var before := done + Row(b, ts[..j]);
      var prev := AddPairs(links, before, owner, failing);
      && AddPairs(links, done + Row(b, ts[..j + 1]), owner, failing) ==
           (if (b, ts[j]) in failing then prev else InsertOrIgnore(prev, b, ts[j], owner))
      && PairErrors(done + Row(b, ts[..j + 1]), failing) ==
           (if (b, ts[j]) in failing then PairErrors(before, failing) + [ItemError(b, "Failed to add tag " + ts[j])]
            else PairErrors(before, failing))
  {
    var before := done + Row(b, ts[..j]);
    assert done + Row(b, ts[..j + 1]) == before + [(b, ts[j])];
    AddPairsStep(links, before, (b, ts[j]), owner, failing);
  }

  /** One more bookmark in the outer loop: its whole row of pairs. */
  lemma CrossPairsStep(bs: seq<string>, ts: seq<string>, i: nat)
    requires i < |bs|
    ensures CrossPairs(bs[..i + 1], ts) == CrossPairs(bs[..i], ts) + Row(bs[i], ts)
  {
    assert bs[..i + 1][..i] == bs[..i];
  }

  /** Exactly what the insert loop leaves behind: the old links, plus one link
      owned by the caller for every non-failing pair that had no link yet. */
  lemma {:induction false} AddPairsMembers(links: set<Link>, ps: seq<(string, string)>, owner: string, failing: set<(string, string)>)
    ensures forall x :: x in AddPairs(links, ps, owner, failing) <==>
      x in links ||
      (x.owner == owner && (x.bookmarkId, x.tagId) in ps && (x.bookmarkId, x.tagId) !in failing &&
       !HasPair(links, x.bookmarkId, x.tagId))
  {
    if ps != [] {
      var init := ps[..|ps| - 1];
      var p := ps[|ps| - 1];
      AddPairsMembers(links, init, owner, failing);
      assert forall q :: q in ps <==> q in init || q == p;
      var prev := AddPairs(links, init, owner, failing);
      if p !in failing && HasPair(prev, p.0, p.1) {
        var l :| l in prev && l.bookmarkId == p.0 && l.tagId == p.1;
        assert HasPair(links, p.0, p.1) || p in init;
      }
    }
  }

  /** Every non-failing pair ends up attached, whatever was there before. */
  lemma AddPairsAttaches(links: set<Link>, ps: seq<(string, string)>, owner: string, failing: set<(string, string)>)
    ensures forall p :: p in ps && p !in failing ==> HasPair(AddPairs(links, ps, owner, failing), p.0, p.1)
  {
    AddPairsMembers(links, ps, owner, failing);
    forall p | p in ps && p !in failing
      ensures HasPair(AddPairs(links, ps, owner, failing), p.0, p.1)
    {
      if !HasPair(links, p.0, p.1) {
        assert Link(p.0, p.1, owner) in AddPairs(links, ps, owner, failing);
      } else {
        var l :| l in links && l.bookmarkId == p.0 && l.tagId == p.1;
        assert l in AddPairs(links, ps, owner, failing);
      }
    }
  }

  /** An error is in the list exactly when it names a failing pair of the loop. */
  lemma {:induction false} PairErrorsMembers(ps: seq<(string, string)>, failing: set<(string, string)>)
    ensures forall e :: e in PairErrors(ps, failing) <==>
      exists p :: p in ps && p in failing && e == ItemError(p.0, "Failed to add tag " + p.1)
  {
    if ps != [] {
      var init := ps[..|ps| - 1];
      PairErrorsMembers(init, failing);
      assert forall q :: q in ps <==> q in init || q == ps[|ps| - 1];
    }
  }

  /** No entry occurs twice. */
  predicate Distinct<T(==)>(s: seq<T>) {
    forall i, j :: 0 <= i < j < |s| ==> s[i] != s[j]
  }

  /** Distinct bookmarks and distinct tags give distinct loop pairs. */
  lemma {:induction false} CrossPairsDistinct(bs: seq<string>, ts: seq<string>)
    requires Distinct(bs) && Distinct(ts)
    ensures Distinct(CrossPairs(bs, ts))
  {
    if bs != [] {
      var init := bs[..|bs| - 1];
      var b := bs[|bs| - 1];
      CrossPairsDistinct(init, ts);
      CrossPairsMembers(init, ts);
      var front := CrossPairs(init, ts);
      var row := Row(b, ts);
      assert b !in init;
      forall i, j | 0 <= i < j < |front + row| ensures (front + row)[i] != (front + row)[j] {
        if j < |front| {
        } else if i < |front| {
          assert front[i] in front;
          assert (front + row)[j].0 == b;
        } else {
          assert (front + row)[i] == row[i - |front|];
        }
      }
    }
  }

  /** With distinct pairs the error list has one entry per failing pair. */
  lemma {:induction false} PairErrorsCount(ps: seq<(string, string)>, failing: set<(string, string)>)
    requires Distinct(ps)
    ensures |PairErrors(ps, failing)| == |set p | p in ps && p in failing|
  {
    if ps != [] {
      var init := ps[..|ps| - 1];
      var p := ps[|ps| - 1];
      PairErrorsCount(init, failing);
      assert p !in init;
      var before := set q | q in init && q in failing;
      var after := set q | q in ps && q in failing;
      assert forall q :: q in ps <==> q in init || q == p;
      if p in failing {
        assert after == before + {p};
      } else {
        assert after == before;
      }
    }
  }

  /** The insert loop over the valid bookmarks and tags, which the SELECTs
      return without repetitions, reports each failing valid pair once. */
  lemma ErrorsPerFailingPair(bs: seq<string>, ts: seq<string>, failing: set<(string, string)>)
    requires Distinct(bs) && Distinct(ts)
    ensures |PairErrors(CrossPairs(bs, ts), failing)| == |set p | p in failing && p.0 in bs && p.1 in ts|
  {
    CrossPairsDistinct(bs, ts);
    PairErrorsCount(CrossPairs(bs, ts), failing);
    CrossPairsMembers(bs, ts);
    assert (set p | p in CrossPairs(bs, ts) && p in failing) == (set p | p in failing && p.0 in bs && p.1 in ts);
  }

  // ---------------------------------------------------------------------------
  // The two-phase `update_tags` effect on associations

  /** The links after `update_tags`: the remove phase on the valid bookmarks
      and the raw remove-tag ids, then the insert loop over the valid
      bookmarks and the valid add-tags. */
  function UpdatedLinks(links: set<Link>, validBookmarks: seq<string>, removeTagIds: seq<string>,
                        validTags: seq<string>, owner: string, failing: set<(string, string)>): (r: set<Link>)
    ensures UniquePairs(links) ==> UniquePairs(r)
    ensures forall l :: l in r && l !in links ==>
              l.owner == owner && l.bookmarkId in validBookmarks && l.tagId in validTags
  {
    CrossPairsMembers(validBookmarks, validTags);
    AddPairs(RemovePairs(links, validBookmarks, removeTagIds, owner), CrossPairs(validBookmarks, validTags), owner, failing)
  }

  /** Without remove ids the remove phase deletes nothing. */
  lemma NoRemoveIdsNoChange(links: set<Link>, bs: seq<string>, owner: string)
    ensures RemovePairs(links, bs, [], owner) == links
  {
  }

  /** Without valid add-tags the insert loop and the recount do nothing. */
  lemma NoAddTagsNoChange(links: set<Link>, tags: map<string, Tag>, bs: seq<string>, owner: string,
                          failing: set<(string, string)>)
    ensures CrossPairs(bs, []) == []
    ensures AddPairs(links, CrossPairs(bs, []), owner, failing) == links
    ensures PairErrors(CrossPairs(bs, []), failing) == []
    ensures Recounted(tags, links, [], owner) == tags
  {
  }

  /** Remove runs before add: a tag in both lists stays attached, a tag only in
      the remove list is detached, and links outside valid × remove that
      existed before survive. */
  lemma RemoveBeforeAdd(links: set<Link>, bs: seq<string>, rs: seq<string>, ts: seq<string>,
                        owner: string, failing: set<(string, string)>)
    ensures var r := UpdatedLinks(links, bs, rs, ts, owner, failing);
      && (forall b, t :: b in bs && t in ts && (b, t) !in failing ==> HasPair(r, b, t))
      && (forall b, t :: b in bs && t in rs && t !in ts ==> Link(b, t, owner) !in r)
      && (forall l :: l in links && !(l.bookmarkId in bs && l.tagId in rs && l.owner == owner) ==> l in r)
  {
    var removed := RemovePairs(links, bs, rs, owner);
    var ps := CrossPairs(bs, ts);
    CrossPairsMembers(bs, ts);
    AddPairsAttaches(removed, ps, owner, failing);
    AddPairsMembers(removed, ps, owner, failing);
  }

  /** After `update_tags` every valid bookmark × valid tag pair whose insert did
      not fail is present exactly once. */
  lemma AttachedExactlyOnce(links: set<Link>, bs: seq<string>, rs: seq<string>, ts: seq<string>,
                            owner: string, failing: set<(string, string)>, b: string, t: string)
    requires UniquePairs(links)
    requires b in bs && t in ts && (b, t) !in failing
    ensures var r := UpdatedLinks(links, bs, rs, ts, owner, failing);
            |set l | l in r && l.bookmarkId == b && l.tagId == t| == 1
  {
    var r := UpdatedLinks(links, bs, rs, ts, owner, failing);
    RemoveBeforeAdd(links, bs, rs, ts, owner, failing);
    var l :| l in r && l.bookmarkId == b && l.tagId == t;
    assert (set x | x in r && x.bookmarkId == b && x.tagId == t) == {l};
  }

  /** Repeating the same `update_tags` request changes no association. */
  lemma UpdatedLinksIdempotent(links: set<Link>, bs: seq<string>, rs: seq<string>, ts: seq<string>,
                               owner: string, failing: set<(string, string)>)
    ensures var once := UpdatedLinks(links, bs, rs, ts, owner, failing);
            UpdatedLinks(once, bs, rs, ts, owner, failing) == once
  {
    var ps := CrossPairs(bs, ts);
    var r0 := RemovePairs(links, bs, rs, owner);
    var once := AddPairs(r0, ps, owner, failing);
    var r1 := RemovePairs(once, bs, rs, owner);
    var twice := AddPairs(r1, ps, owner, failing);
    AddPairsMembers(r0, ps, owner, failing);
    AddPairsMembers(r1, ps, owner, failing);
    assert r0 <= r1;
    forall x | x in once && x !in r1 ensures x in twice {
      assert x !in r0 && !HasPair(r0, x.bookmarkId, x.tagId);
      assert r1 <= once;
    }
  }

  // ---------------------------------------------------------------------------
  // usage_count recount

  /** `SELECT COUNT(*) FROM bookmark_tags WHERE tag_id = ? AND user_id = ?`. */
  function CountLinks(links: set<Link>, tagId: string, owner: string): (c: nat)
    ensures c == 0 <==> forall l :: l in links && l.tagId == tagId ==> l.owner != owner
  {
    var counted := set l | l in links && l.tagId == tagId && l.owner == owner;
    assert forall l :: l in links && l.tagId == tagId && l.owner == owner ==> l in counted;
    assert counted != {} ==> |counted| != 0;
    |counted|
  }

  /** The tags after `UPDATE tags SET usage_count = (count) WHERE id = ? AND
      user_id = ?` for each id of `ts`: those rows hold the live count, every
      other row (in particular a tag that was only removed) is unchanged. */
  function Recounted(tags: map<string, Tag>, links: set<Link>, ts: seq<string>, owner: string): (r: map<string, Tag>)
    ensures r.Keys == tags.Keys
    ensures forall id :: id in r && id in ts && tags[id].owner == owner ==>
              r[id] == tags[id].(usageCount := CountLinks(links, id, owner))
    ensures forall id :: id in r && !(id in ts && tags[id].owner == owner) ==> r[id] == tags[id]
  {
    map id | id in tags :: if id in ts && tags[id].owner == owner
                           then tags[id].(usageCount := CountLinks(links, id, owner))
                           else tags[id]
  }

  /** Recounting is a full recompute: doing it again changes nothing. */
  lemma RecountIdempotent(tags: map<string, Tag>, links: set<Link>, ts: seq<string>, owner: string)
    ensures Recounted(Recounted(tags, links, ts, owner), links, ts, owner) == Recounted(tags, links, ts, owner)
  {
  }

  /** Touching `updated_at` leaves every bookmark active or inactive as it
      was, so a second request resolves the same valid bookmarks. */
  lemma TouchKeepsValidBookmarks(bookmarks: map<string, Bookmark>, rows: set<string>, now: Timestamp,
                                 user: string, ids: seq<string>)
    ensures ValidBookmarkIds(UpdateRows(bookmarks, rows, Touch(now)), user, ids) == ValidBookmarkIds(bookmarks, user, ids)
  {
    assert ActiveBookmarkIds(UpdateRows(bookmarks, rows, Touch(now)), user) == ActiveBookmarkIds(bookmarks, user);
  }

  /** A recount changes usage counts only, so a second request resolves the
      same valid add-tags. */
  lemma RecountKeepsValidTags(tags: map<string, Tag>, links: set<Link>, ts: seq<string>, owner: string,
                              user: string, ids: seq<string>)
    ensures ValidTagIds(Recounted(tags, links, ts, owner), user, ids) == ValidTagIds(tags, user, ids)
  {
    assert ActiveTagIds(Recounted(tags, links, ts, owner), user) == ActiveTagIds(tags, user);
  }

  /** Sending the same `update_tags` request twice: the second run resolves the
      same valid bookmarks and add-tags from the tables the first run left,
      and ends with the same links and the same usage counts. */
  lemma UpdateTagsIdempotent(bookmarks: map<string, Bookmark>, tags: map<string, Tag>, links: set<Link>,
                             user: string, ids: seq<string>, addIds: seq<string>, removeIds: seq<string>,
                             failing: set<(string, string)>, now: Timestamp)
    ensures var valid := ValidBookmarkIds(bookmarks, user, ids);
            var validTags := ValidTagIds(tags, user, addIds);
            var links1 := UpdatedLinks(links, valid, removeIds, validTags, user, failing);
            var tags1 := Recounted(tags, links1, validTags, user);
            var bookmarks1 := UpdateRows(bookmarks, (set id | id in valid), Touch(now));
            && ValidBookmarkIds(bookmarks1, user, ids) == valid
            && ValidTagIds(tags1, user, addIds) == validTags
            && UpdatedLinks(links1, valid, removeIds, validTags, user, failing) == links1
            && Recounted(tags1, links1, validTags, user) == tags1
  {
    var valid := ValidBookmarkIds(bookmarks, user, ids);
    var validTags := ValidTagIds(tags, user, addIds);
    var links1 := UpdatedLinks(links, valid, removeIds, validTags, user, failing);
    TouchKeepsValidBookmarks(bookmarks, (set id | id in valid), now, user, ids);
    RecountKeepsValidTags(tags, links1, validTags, user, user, addIds);
    UpdatedLinksIdempotent(links, valid, removeIds, validTags, user, failing);
    RecountIdempotent(tags, links1, validTags, user);
  }
}
