/** PodcastDao: writes and queries on the `podcasts` table, including the upsert
    that protects the user-owned `subscribed` flag. */
module PodcastDao {
  import opened Common
  import opened Entities
  import opened Database
  import Tables

  /** Some stored podcast has this collection id. */
  predicate HoldsCollectionId(rows: map<Long, PodcastEntity>, collectionId: Long) {
    exists id :: id in rows && rows[id].collectionId == collectionId
  }

  /** Some stored podcast other than `id` has this collection id. */
  predicate OtherHoldsCollectionId(rows: map<Long, PodcastEntity>, collectionId: Long, id: Long) {
    exists other :: other in rows && other != id && rows[other].collectionId == collectionId
  }

  /** The database after an insert, and the rowid the insert reported. */
  datatype Inserted = Inserted(db: Db, rowId: int)

  const UNIQUE_COLLECTION_ID: string := "UNIQUE constraint failed: podcasts.collection_id"

  // ---------------------------------------------------------------------------
  // Writes
  // ---------------------------------------------------------------------------

  /** insertPodcast, @Insert(onConflict = IGNORE): a candidate that clashes with a
      stored row on the primary key or on collection_id is dropped and -1 reported;
      otherwise it is stored and its rowid, which is its id, reported. */
  function InsertPodcast(db: Db, e: PodcastEntity): (r: Inserted)
    ensures r.db.episodes == db.episodes && r.db.searchResults == db.searchResults
    ensures e.id in db.podcasts.rows || HoldsCollectionId(db.podcasts.rows, e.collectionId)
            ==> r == Inserted(db, -1)
    ensures !(e.id in db.podcasts.rows || HoldsCollectionId(db.podcasts.rows, e.collectionId))
            ==> r.rowId == e.id && r.db.podcasts.rows == db.podcasts.rows[e.id := e]
  {
    if e.id in db.podcasts.rows || HoldsCollectionId(db.podcasts.rows, e.collectionId) then Inserted(db, -1)
    else Inserted(db.(podcasts := Tables.Put(db.podcasts, e.id, e)), e.id)
  }

  /** updatePodcast, @Update: overwrites the row whose id is `e.id`, if any; the
      unique index on collection_id aborts the statement when another row already
      has `e.collectionId`. */
  function UpdatePodcast(db: Db, e: PodcastEntity): (r: Result<Db>)
    ensures r.Err? <==> e.id in db.podcasts.rows && OtherHoldsCollectionId(db.podcasts.rows, e.collectionId, e.id)
    ensures r.Ok? ==> r.value.episodes == db.episodes && r.value.searchResults == db.searchResults
    ensures r.Ok? ==> r.value.podcasts.rows ==
                      if e.id in db.podcasts.rows then db.podcasts.rows[e.id := e] else db.podcasts.rows
  {
    if e.id !in db.podcasts.rows then Ok(db)
    else if OtherHoldsCollectionId(db.podcasts.rows, e.collectionId, e.id) then Err(SQLiteConstraint(UNIQUE_COLLECTION_ID))
    else Ok(db.(podcasts := Tables.Put(db.podcasts, e.id, e)))
  }

  /** getPodcastSubscription: the stored flag of podcast `id`, null when absent. */
  function GetPodcastSubscription(db: Db, id: Long): (r: Option<bool>)
    ensures r.Some? <==> id in db.podcasts.rows
    ensures r.Some? ==> r.value == db.podcasts.rows[id].subscribed
  {
    match Tables.Get(db.podcasts, id)
    case None => None
    case Some(row) => Some(row.subscribed)
  }

  /** upsertPodcast (@Transaction): insert-or-ignore; when ignored, read the stored
      flag and give up if there is no row with the candidate's id, otherwise update
      the row with the candidate's fields and the stored flag. An exception rolls
      the transaction back, so Err means nothing was written. */
  function UpsertPodcast(db: Db, e: PodcastEntity): Result<Db> {
    var inserted := InsertPodcast(db, e);
    if inserted.rowId == -1 then
      match GetPodcastSubscription(inserted.db, e.id)
      case None => Ok(inserted.db)
      case Some(subscribed) => UpdatePodcast(inserted.db, e.(subscribed := subscribed))
    else Ok(inserted.db)
  }

  /** toggleSubscription: UPDATE podcasts SET subscribed = NOT subscribed WHERE id = :id. */
  function ToggleSubscription(db: Db, id: Long): (r: Db)
    ensures r.podcasts.rows.Keys == db.podcasts.rows.Keys
    ensures r.episodes == db.episodes && r.searchResults == db.searchResults
  {
    if id in db.podcasts.rows then
      var row := db.podcasts.rows[id];
      db.(podcasts := Tables.Put(db.podcasts, id, row.(subscribed := !row.subscribed)))
    else db
  }

  /** The database after a delete, and the number of rows the statement deleted. */
  datatype Deleted = Deleted(db: Db, count: int)

  /** The episodes whose podcast_id references podcast `id`. */
  function EpisodesOf(db: Db, id: Long): set<string> {
    set g | g in db.episodes.rows && db.episodes.rows[g].podcastId == Some(id)
  }

  /** deletePodcast: DELETE FROM podcasts WHERE id = :id; ON DELETE CASCADE removes
      the episodes that reference it. */
  function DeletePodcast(db: Db, id: Long): (r: Deleted)
    ensures r.count == if id in db.podcasts.rows then 1 else 0
  {
    Deleted(
      db.(podcasts := Tables.DeleteKeys(db.podcasts, {id}),
          episodes := Tables.DeleteKeys(db.episodes, EpisodesOf(db, id))),
      if id in db.podcasts.rows then 1 else 0)
  }

  // ---------------------------------------------------------------------------
  // Queries
  // ---------------------------------------------------------------------------

  /** The podcast rows satisfying `p`, in scan order. */
  function Select(db: Db, p: PodcastEntity -> bool): seq<PodcastEntity>
    requires Valid(db)
  {
    Filter(Tables.Scan(db.podcasts), p)
  }

  /** A selection returns each row that satisfies the condition, once, and nothing else. */
  lemma SelectExactly(db: Db, p: PodcastEntity -> bool)
    requires Valid(db)
    ensures forall x :: x in Select(db, p) <==> x in db.podcasts.rows.Values && p(x)
    ensures Distinct(Select(db, p))
  {
    var scan := Tables.Scan(db.podcasts);
    forall x ensures x in Select(db, p) <==> x in db.podcasts.rows.Values && p(x) {
      FilterMembership(scan, p, x);
      Tables.ScanMembership(db.podcasts, x);
    }
    Tables.ScanDistinct(db.podcasts);
    FilterDistinct(scan, p);
  }

  /** getPodcast(feedUrl).first(): the first row in scan order with that feed URL,
      or null. */
  function GetPodcastByFeedUrl(db: Db, feedUrl: string): (r: Option<PodcastEntity>)
    requires Valid(db)
    ensures r.Some? ==> r.value in db.podcasts.rows.Values && r.value.feedUrl == feedUrl
    ensures r.None? ==> forall id :: id in db.podcasts.rows ==> db.podcasts.rows[id].feedUrl != feedUrl
  {
    SelectExactly(db, (p: PodcastEntity) => p.feedUrl == feedUrl);
    var matching := Select(db, (p: PodcastEntity) => p.feedUrl == feedUrl);
    assert forall id :: id in db.podcasts.rows ==> db.podcasts.rows[id] in db.podcasts.rows.Values;
    if matching == [] then None else Some(matching[0])
  }

  /** getPodcasts(subscribed): SELECT * FROM podcasts WHERE subscribed = :subscribed. */
  function GetPodcastsBySubscription(db: Db, subscribed: bool): (r: seq<PodcastEntity>)
    requires Valid(db)
    ensures forall x :: x in r <==> x in db.podcasts.rows.Values && x.subscribed == subscribed
    ensures Distinct(r)
  {
    SelectExactly(db, (p: PodcastEntity) => p.subscribed == subscribed);
    Select(db, (p: PodcastEntity) => p.subscribed == subscribed)
  }

  /** getPodcasts(collectionIds): SELECT * FROM podcasts WHERE collection_id IN (:collectionIds). */
  function GetPodcastsByCollectionIds(db: Db, collectionIds: seq<Long>): (r: seq<PodcastEntity>)
    requires Valid(db)
    ensures forall x :: x in r <==> x in db.podcasts.rows.Values && x.collectionId in collectionIds
    ensures Distinct(r)
  {
    SelectExactly(db, (p: PodcastEntity) => p.collectionId in collectionIds);
    Select(db, (p: PodcastEntity) => p.collectionId in collectionIds)
  }

  // ---------------------------------------------------------------------------
  // getOrderedPodcasts
  // ---------------------------------------------------------------------------

  /** `p` is the last position in `ids` whose truncated id is `k`. */
  ghost predicate LastPosition(ids: seq<Long>, k: Int32, p: int) {
    && 0 <= p < |ids|
    && LongToInt(ids[p]) == k
    && forall j :: p < j < |ids| ==> LongToInt(ids[j]) != k
  }

  /** The SparseLongArray after `forEach { order.put(value.toInt(), index) }` over
      `ids`: each put overwrites the index stored under the same truncated id. */
  function RankTable(ids: seq<Long>): map<Int32, int> {
    if ids == [] then map[]
    else RankTable(ids[..|ids| - 1])[LongToInt(ids[|ids| - 1]) := |ids| - 1]
  }

  /** Every truncated id of `ids` is in the table, mapped to the last index where it
      occurs. */
  lemma {:induction false} RankTableLastPositions(ids: seq<Long>)
    ensures forall i :: 0 <= i < |ids| ==> LongToInt(ids[i]) in RankTable(ids)
    ensures forall k :: k in RankTable(ids) ==> LastPosition(ids, k, RankTable(ids)[k])
  {
    if ids != [] {
      var n := |ids| - 1;
      var init := ids[..n];
      RankTableLastPositions(init);
      var prev := RankTable(init);
      var key := LongToInt(ids[n]);
      assert RankTable(ids) == prev[key := n];
      forall i | 0 <= i < |ids| ensures LongToInt(ids[i]) in RankTable(ids) {
        if i < n {
          assert ids[i] == init[i];
        }
      }
      forall k | k in RankTable(ids) ensures LastPosition(ids, k, RankTable(ids)[k]) {
        if k != key {
          assert LastPosition(init, k, prev[k]);
          forall j | prev[k] < j < |ids| ensures LongToInt(ids[j]) != k {
            if j < n {
              assert ids[j] == init[j];
            }
          }
        }
      }
    }
  }

  /** order.get(collectionId.toInt()), which is 0 for a key never put. */
  function Rank(order: map<Int32, int>, p: PodcastEntity): int {
    var key := LongToInt(p.collectionId);
    if key in order then order[key] else 0
  }

  /** The comparison key of compareBy { order.get(it.collectionId.toInt()) }. */
  function RankKey(order: map<Int32, int>): PodcastEntity -> int {
    p => Rank(order, p)
  }

  /** getOrderedPodcasts: fill the rank table in one pass over the ids, then sort
      the rows getPodcasts(collectionIds) returns by rank. */
  method GetOrderedPodcasts(db: Db, collectionIds: seq<Long>) returns (r: seq<PodcastEntity>)
    requires Valid(db)
    ensures r == SortBy(GetPodcastsByCollectionIds(db, collectionIds), RankKey(RankTable(collectionIds)))
  {
    var order: map<Int32, int> := map[];
    for i := 0 to |collectionIds|
      invariant order == RankTable(collectionIds[..i])
    {
      assert collectionIds[..i + 1][..i] == collectionIds[..i];
      order := order[LongToInt(collectionIds[i]) := i];
    }
    assert collectionIds[..|collectionIds|] == collectionIds;
    r := SortBy(GetPodcastsByCollectionIds(db, collectionIds), RankKey(order));
  }

  // ---------------------------------------------------------------------------
  // Properties of getOrderedPodcasts
  // ---------------------------------------------------------------------------

  /** getOrderedPodcasts returns each matching row once, ordered by the last
      position at which the row's truncated collection id occurs in `collectionIds`,
      rows of equal rank in scan order. */
  lemma OrderedPodcastsSpec(db: Db, collectionIds: seq<Long>)
    requires Valid(db)
    ensures var order := RankTable(collectionIds);
      var selected := GetPodcastsByCollectionIds(db, collectionIds);
      var r := SortBy(selected, RankKey(order));
      && (forall x :: x in r <==> x in db.podcasts.rows.Values && x.collectionId in collectionIds)
      && (forall x :: x in r ==> multiset(r)[x] == 1)
      && SortedBy(r, RankKey(order))
      && (forall k :: WithKey(r, RankKey(order), k) == WithKey(selected, RankKey(order), k))
      && (forall x :: x in r ==> LastPosition(collectionIds, LongToInt(x.collectionId), Rank(order, x)))
  {
    var order := RankTable(collectionIds);
    var selected := GetPodcastsByCollectionIds(db, collectionIds);
    var r := SortBy(selected, RankKey(order));
    SortByFacts(selected, RankKey(order));
    RankTableLastPositions(collectionIds);
    forall x ensures x in r <==> x in selected {
      assert x in r <==> x in multiset(r);
    }
    forall x | x in r ensures multiset(r)[x] == 1 {
      DistinctCountsOnce(selected, x);
    }
    forall x | x in r ensures LastPosition(collectionIds, LongToInt(x.collectionId), Rank(order, x)) {
      var i :| 0 <= i < |collectionIds| && collectionIds[i] == x.collectionId;
      assert LongToInt(x.collectionId) in order;
    }
  }

  /** A distinct sequence holds each of its elements once. */
  lemma {:induction false} DistinctCountsOnce(s: seq<PodcastEntity>, x: PodcastEntity)
    requires Distinct(s) && x in s
    ensures multiset(s)[x] == 1
  {
    assert s == [s[0]] + s[1..];
    if s[0] == x {
      assert x !in s[1..];
    } else {
      DistinctCountsOnce(s[1..], x);
    }
  }

  /** No two positions of `ids` hold ids with the same low 32 bits. */
  ghost predicate TruncationInjective(ids: seq<Long>) {
    forall i, j :: 0 <= i < j < |ids| ==> LongToInt(ids[i]) != LongToInt(ids[j])
  }

  /** Without truncation collisions, the rank of an id is its own position. */
  lemma OwnPosition(ids: seq<Long>, c: Long)
    requires TruncationInjective(ids) && c in ids
    ensures LongToInt(c) in RankTable(ids)
    ensures 0 <= RankTable(ids)[LongToInt(c)] < |ids| && ids[RankTable(ids)[LongToInt(c)]] == c
  {
    RankTableLastPositions(ids);
    var i :| 0 <= i < |ids| && ids[i] == c;
    var p := RankTable(ids)[LongToInt(c)];
    assert LastPosition(ids, LongToInt(c), p);
    assert !(p < i) && !(i < p);
  }

  /** When no two ids truncate to the same Int, each row's rank is the position of
      its own collection id, so the rows come back in the order of `collectionIds`. */
  lemma OrderedPodcastsFollowIds(db: Db, collectionIds: seq<Long>)
    requires Valid(db)
    requires TruncationInjective(collectionIds)
    ensures var order := RankTable(collectionIds);
      var r := SortBy(GetPodcastsByCollectionIds(db, collectionIds), RankKey(order));
      && |r| == |GetPodcastsByCollectionIds(db, collectionIds)|
      && (forall x :: x in r ==> 0 <= Rank(order, x) < |collectionIds| && collectionIds[Rank(order, x)] == x.collectionId)
      && (forall i, j :: 0 <= i < j < |r| ==> Rank(order, r[i]) < Rank(order, r[j]))
  {
    var order := RankTable(collectionIds);
    var selected := GetPodcastsByCollectionIds(db, collectionIds);
    var r := SortBy(selected, RankKey(order));
    SortByFacts(selected, RankKey(order));
    assert |r| == |selected| by {
      assert |multiset(r)| == |multiset(selected)|;
    }
    forall x | x in r ensures 0 <= Rank(order, x) < |collectionIds| && collectionIds[Rank(order, x)] == x.collectionId {
      assert x in multiset(r);
      OwnPosition(collectionIds, x.collectionId);
    }
    forall i, j | 0 <= i < j < |r| ensures Rank(order, r[i]) < Rank(order, r[j]) {
      var a, b := r[i], r[j];
      assert RankKey(order)(a) <= RankKey(order)(b);
      if Rank(order, a) == Rank(order, b) {
        assert a in multiset(r) && b in multiset(r);
        OwnPosition(collectionIds, a.collectionId);
        OwnPosition(collectionIds, b.collectionId);
        UniqueRow(db, a, b);
        DistinctCountsOnce(selected, a);
        MultisetHoldsTwice(r, i, j);
        assert false;
      }
    }
  }

  lemma UniqueRow(db: Db, a: PodcastEntity, b: PodcastEntity)
    requires Valid(db)
    requires a in db.podcasts.rows.Values && b in db.podcasts.rows.Values && a.collectionId == b.collectionId
    ensures a == b
  {
    var ka :| ka in db.podcasts.rows && db.podcasts.rows[ka] == a;
    var kb :| kb in db.podcasts.rows && db.podcasts.rows[kb] == b;
  }

  lemma {:induction false} MultisetHoldsTwice(s: seq<PodcastEntity>, i: int, j: int)
    requires 0 <= i < j < |s| && s[i] == s[j]
    ensures multiset(s)[s[i]] >= 2
  {
    assert s == s[..j] + [s[j]] + s[j + 1..];
    assert s[i] in s[..j];
  }

  // ---------------------------------------------------------------------------
  // Properties of the writes
  // ---------------------------------------------------------------------------

  lemma InsertPodcastValid(db: Db, e: PodcastEntity)
    requires Valid(db)
    ensures Valid(InsertPodcast(db, e).db)
  {
    Tables.PutWellFormed(db.podcasts, e.id, e);
  }

  lemma UpdatePodcastValid(db: Db, e: PodcastEntity)
    requires Valid(db)
    ensures UpdatePodcast(db, e).Ok? ==> Valid(UpdatePodcast(db, e).value)
  {
    Tables.PutWellFormed(db.podcasts, e.id, e);
  }

  /** Every successful upsert keeps the schema's constraints: one row per
      collection_id, keys matching ids, episodes still referencing stored podcasts. */
  lemma UpsertPodcastValid(db: Db, e: PodcastEntity)
    requires Valid(db)
    ensures UpsertPodcast(db, e).Ok? ==> Valid(UpsertPodcast(db, e).value)
  {
    InsertPodcastValid(db, e);
    var inserted := InsertPodcast(db, e);
    if inserted.rowId == -1 && e.id in inserted.db.podcasts.rows {
      UpdatePodcastValid(inserted.db, e.(subscribed := inserted.db.podcasts.rows[e.id].subscribed));
    }
  }

  /** A candidate whose id and collection id are both new is stored verbatim,
      `subscribed` included, and becomes the last row of the scan. */
  lemma UpsertPodcastInsertsNew(db: Db, e: PodcastEntity)
    requires e.id !in db.podcasts.rows && !HoldsCollectionId(db.podcasts.rows, e.collectionId)
    ensures UpsertPodcast(db, e) == Ok(db.(podcasts := Tables.Table(db.podcasts.rows[e.id := e], db.podcasts.order + [e.id])))
  {
    var inserted := InsertPodcast(db, e);
    var rows := db.podcasts.rows[e.id := e];
    assert e.(subscribed := e.subscribed) == e;
    assert rows[e.id := e] == rows;
    assert !OtherHoldsCollectionId(rows, e.collectionId, e.id);
  }

  /** A candidate whose id is stored takes over that row with every field except
      `subscribed`, which keeps its stored value; the scan order is unchanged. */
  lemma UpsertPodcastMergesExisting(db: Db, e: PodcastEntity)
    requires e.id in db.podcasts.rows && !OtherHoldsCollectionId(db.podcasts.rows, e.collectionId, e.id)
    ensures var stored := db.podcasts.rows[e.id];
      UpsertPodcast(db, e) ==
      Ok(db.(podcasts := Tables.Table(db.podcasts.rows[e.id := e.(subscribed := stored.subscribed)], db.podcasts.order)))
  {
  }

  /** A candidate that clashes only on collection_id (its id is not stored) writes
      nothing: the insert is ignored and the read of its flag finds no row. */
  lemma UpsertPodcastIgnoresForeignCollectionId(db: Db, e: PodcastEntity)
    requires e.id !in db.podcasts.rows && HoldsCollectionId(db.podcasts.rows, e.collectionId)
    ensures UpsertPodcast(db, e) == Ok(db)
  {
  }

  /** A candidate whose id is stored but whose collection id belongs to another row
      makes the update violate the unique index: the upsert throws and its
      transaction writes nothing. */
  lemma UpsertPodcastRejectsStolenCollectionId(db: Db, e: PodcastEntity)
    requires e.id in db.podcasts.rows && OtherHoldsCollectionId(db.podcasts.rows, e.collectionId, e.id)
    ensures UpsertPodcast(db, e) == Err(SQLiteConstraint(UNIQUE_COLLECTION_ID))
  {
  }

  /** The upsert never changes the `subscribed` flag of a stored row, leaves every
      row with another id as it was, and adds at most the candidate's row. */
  lemma UpsertPodcastPreservesOthers(db: Db, e: PodcastEntity)
    requires UpsertPodcast(db, e).Ok?
    ensures var after := UpsertPodcast(db, e).value.podcasts.rows;
      && after.Keys <= db.podcasts.rows.Keys + {e.id}
      && (forall id :: id in db.podcasts.rows ==> id in after && after[id].subscribed == db.podcasts.rows[id].subscribed)
      && (forall id :: id in db.podcasts.rows && id != e.id ==> after[id] == db.podcasts.rows[id])
  {
    if e.id in db.podcasts.rows {
      if OtherHoldsCollectionId(db.podcasts.rows, e.collectionId, e.id) {
        UpsertPodcastRejectsStolenCollectionId(db, e);
      } else {
        UpsertPodcastMergesExisting(db, e);
      }
    } else if HoldsCollectionId(db.podcasts.rows, e.collectionId) {
      UpsertPodcastIgnoresForeignCollectionId(db, e);
    } else {
      UpsertPodcastInsertsNew(db, e);
    }
  }

  /** Applying the same candidate twice leaves the database as applying it once. */
  lemma UpsertPodcastIdempotent(db: Db, e: PodcastEntity)
    requires UpsertPodcast(db, e).Ok?
    ensures UpsertPodcast(UpsertPodcast(db, e).value, e) == UpsertPodcast(db, e)
  {
    var once := UpsertPodcast(db, e).value;
    if e.id in db.podcasts.rows {
      if OtherHoldsCollectionId(db.podcasts.rows, e.collectionId, e.id) {
        UpsertPodcastRejectsStolenCollectionId(db, e);
      } else {
        UpsertPodcastMergesExisting(db, e);
        var merged := e.(subscribed := db.podcasts.rows[e.id].subscribed);
        assert once.podcasts.rows[e.id] == merged;
        assert !OtherHoldsCollectionId(once.podcasts.rows, e.collectionId, e.id);
        UpsertPodcastMergesExisting(once, e);
        assert once.podcasts.rows[e.id := merged] == once.podcasts.rows;
      }
    } else if HoldsCollectionId(db.podcasts.rows, e.collectionId) {
      UpsertPodcastIgnoresForeignCollectionId(db, e);
    } else {
      UpsertPodcastInsertsNew(db, e);
      assert !OtherHoldsCollectionId(once.podcasts.rows, e.collectionId, e.id);
      UpsertPodcastMergesExisting(once, e);
      assert once.podcasts.rows[e.id := e] == once.podcasts.rows;
    }
  }

  /** toggleSubscription negates the flag of row `id` and changes nothing else; an
      absent id changes nothing at all. */
  lemma ToggleSubscriptionEffect(db: Db, id: Long)
    ensures var after := ToggleSubscription(db, id).podcasts.rows;
      && (id in db.podcasts.rows ==> after[id] == db.podcasts.rows[id].(subscribed := !db.podcasts.rows[id].subscribed))
      && (forall other :: other in db.podcasts.rows && other != id ==> after[other] == db.podcasts.rows[other])
      && (id !in db.podcasts.rows ==> ToggleSubscription(db, id) == db)
  {
  }

  /** Toggling twice restores the database. */
  lemma ToggleSubscriptionTwice(db: Db, id: Long)
    ensures ToggleSubscription(ToggleSubscription(db, id), id) == db
  {
    if id in db.podcasts.rows {
      var rows := db.podcasts.rows;
      var once := ToggleSubscription(db, id).podcasts.rows;
      assert once[id := rows[id]] == rows;
    }
  }

  lemma ToggleSubscriptionValid(db: Db, id: Long)
    requires Valid(db)
    ensures Valid(ToggleSubscription(db, id))
  {
    if id in db.podcasts.rows {
      var row := db.podcasts.rows[id];
      Tables.PutWellFormed(db.podcasts, id, row.(subscribed := !row.subscribed));
    }
  }

  /** Deleting a podcast removes its row and, by cascade, exactly the episodes that
      reference it; the constraints still hold afterwards. */
  lemma DeletePodcastCascades(db: Db, id: Long)
    requires Valid(db)
    ensures var after := DeletePodcast(db, id).db;
      && Valid(after)
      && after.podcasts.rows.Keys == db.podcasts.rows.Keys - {id}
      && (forall g :: g in after.episodes.rows <==> g in db.episodes.rows && db.episodes.rows[g].podcastId != Some(id))
      && (forall g :: g in after.episodes.rows ==> after.episodes.rows[g] == db.episodes.rows[g])
      && after.searchResults == db.searchResults
  {
    Tables.DeleteKeysWellFormed(db.podcasts, {id});
    Tables.DeleteKeysWellFormed(db.episodes, EpisodesOf(db, id));
  }
}
