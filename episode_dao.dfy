/** EpisodeDao: writes and queries on the `episodes` table. Every write is checked
    against the foreign key to `podcasts`. */
module EpisodeDao {
  import opened Common
  import opened Entities
  import opened Database
  import Tables

  const FOREIGN_KEY_FAILED: string := "FOREIGN KEY constraint failed"

  /** The episode's podcast_id is null or names a stored podcast. */
  predicate References(db: Db, e: EpisodeEntity) {
    e.podcastId.None? || e.podcastId.value in db.podcasts.rows
  }

  /** The last element of `es` with guid `guid`, if any. */
  function LastWithGuid(es: seq<EpisodeEntity>, guid: string): (r: Option<EpisodeEntity>)
    ensures r.Some? ==> r.value in es && r.value.guid == guid
    ensures r.None? <==> forall i :: 0 <= i < |es| ==> es[i].guid != guid
  {
    if es == [] then None
    else if es[|es| - 1].guid == guid then Some(es[|es| - 1])
    else LastWithGuid(es[..|es| - 1], guid)
  }

  /** INSERT OR REPLACE of each element in turn. */
  function ReplaceAll(t: Tables.Table<string, EpisodeEntity>, es: seq<EpisodeEntity>): Tables.Table<string, EpisodeEntity> {
    if es == [] then t
    else Tables.Replace(ReplaceAll(t, es[..|es| - 1]), es[|es| - 1].guid, es[|es| - 1])
  }

  /** insertEpisodes, @Insert(onConflict = REPLACE) on a list: Room runs the inserts
      in one transaction, so an episode whose podcast_id names no stored podcast
      fails the whole batch and nothing is written. */
  function InsertEpisodes(db: Db, es: seq<EpisodeEntity>): (r: Result<Db>)
    ensures r.Err? <==> exists i :: 0 <= i < |es| && !References(db, es[i])
    ensures r.Ok? ==> r.value.podcasts == db.podcasts && r.value.searchResults == db.searchResults
  {
    if forall e | e in es :: References(db, e) then Ok(db.(episodes := ReplaceAll(db.episodes, es)))
    else Err(SQLiteConstraint(FOREIGN_KEY_FAILED))
  }

  /** upsertEpisode, @Upsert: insert, or update the row with the same guid in place;
      a dangling podcast_id fails either way. */
  function UpsertEpisode(db: Db, e: EpisodeEntity): (r: Result<Db>)
    ensures r.Err? <==> !References(db, e)
    ensures r.Ok? ==> r.value.podcasts == db.podcasts && r.value.searchResults == db.searchResults
  {
    if References(db, e) then Ok(db.(episodes := Tables.Put(db.episodes, e.guid, e)))
    else Err(SQLiteConstraint(FOREIGN_KEY_FAILED))
  }

  /** getEpisodes / getEpisodesPaged: SELECT * FROM episodes WHERE podcast_id = :podcastId,
      in scan order. The paged variant hands the same rows to the pager. */
  function GetEpisodes(db: Db, podcastId: Long): (r: seq<EpisodeEntity>)
    requires Valid(db)
    ensures forall x :: x in r <==> x in db.episodes.rows.Values && x.podcastId == Some(podcastId)
    ensures Distinct(r)
  {
    var scan := Tables.Scan(db.episodes);
    var p := (x: EpisodeEntity) => x.podcastId == Some(podcastId);
    assert forall x :: x in Filter(scan, p) <==> x in db.episodes.rows.Values && p(x) by {
      forall x ensures x in Filter(scan, p) <==> x in db.episodes.rows.Values && p(x) {
        FilterMembership(scan, p, x);
        Tables.ScanMembership(db.episodes, x);
      }
    }
    Tables.ScanDistinct(db.episodes);
    FilterDistinct(scan, p);
    Filter(scan, p)
  }

  // ---------------------------------------------------------------------------
  // Properties
  // ---------------------------------------------------------------------------

  /** After the batch, a guid of the batch holds the last episode of the batch with
      that guid; every other guid keeps its row, and no row is added for it. */
  lemma {:induction false} ReplaceAllRows(t: Tables.Table<string, EpisodeEntity>, es: seq<EpisodeEntity>, guid: string)
    ensures guid in ReplaceAll(t, es).rows <==> guid in t.rows || LastWithGuid(es, guid).Some?
    ensures LastWithGuid(es, guid).Some? ==> ReplaceAll(t, es).rows[guid] == LastWithGuid(es, guid).value
    ensures LastWithGuid(es, guid).None? && guid in t.rows ==> ReplaceAll(t, es).rows[guid] == t.rows[guid]
  {
    if es != [] {
      ReplaceAllRows(t, es[..|es| - 1], guid);
    }
  }

  lemma {:induction false} ReplaceAllWellFormed(t: Tables.Table<string, EpisodeEntity>, es: seq<EpisodeEntity>)
    requires Tables.WellFormed(t)
    ensures Tables.WellFormed(ReplaceAll(t, es))
  {
    if es != [] {
      ReplaceAllWellFormed(t, es[..|es| - 1]);
      Tables.ReplaceWellFormed(ReplaceAll(t, es[..|es| - 1]), es[|es| - 1].guid, es[|es| - 1]);
    }
  }

  /** insertEpisodes replaces by guid: each guid of the batch maps to the batch's
      last episode with that guid, every other row is unchanged, and no other guid
      gains a row. */
  lemma InsertEpisodesReplacesByGuid(db: Db, es: seq<EpisodeEntity>)
    requires InsertEpisodes(db, es).Ok?
    ensures var after := InsertEpisodes(db, es).value.episodes.rows;
      && (forall e :: e in es ==> e.guid in after && after[e.guid] == LastWithGuid(es, e.guid).value)
      && (forall g :: g in after <==> g in db.episodes.rows || LastWithGuid(es, g).Some?)
      && (forall g :: g in db.episodes.rows && LastWithGuid(es, g).None? ==> after[g] == db.episodes.rows[g])
  {
    forall g ensures
      && (g in ReplaceAll(db.episodes, es).rows <==> g in db.episodes.rows || LastWithGuid(es, g).Some?)
      && (LastWithGuid(es, g).Some? ==> ReplaceAll(db.episodes, es).rows[g] == LastWithGuid(es, g).value)
      && (LastWithGuid(es, g).None? && g in db.episodes.rows ==> ReplaceAll(db.episodes, es).rows[g] == db.episodes.rows[g])
    {
      ReplaceAllRows(db.episodes, es, g);
    }
    forall e | e in es ensures LastWithGuid(es, e.guid).Some? {
      var i :| 0 <= i < |es| && es[i] == e;
    }
  }

  /** Inserting a batch whose guids are all stored already adds no row. */
  lemma InsertEpisodesKeepsCount(db: Db, es: seq<EpisodeEntity>)
    requires InsertEpisodes(db, es).Ok?
    requires forall e :: e in es ==> e.guid in db.episodes.rows
    ensures InsertEpisodes(db, es).value.episodes.rows.Keys == db.episodes.rows.Keys
  {
    InsertEpisodesReplacesByGuid(db, es);
    var after := InsertEpisodes(db, es).value.episodes.rows;
    forall g | g in after ensures g in db.episodes.rows {
      if LastWithGuid(es, g).Some? {
        assert LastWithGuid(es, g).value in es;
      }
    }
  }

  /** A successful batch keeps the schema's constraints. */
  lemma InsertEpisodesValid(db: Db, es: seq<EpisodeEntity>)
    requires Valid(db) && InsertEpisodes(db, es).Ok?
    ensures Valid(InsertEpisodes(db, es).value)
  {
    ReplaceAllWellFormed(db.episodes, es);
    InsertEpisodesReplacesByGuid(db, es);
    var after := InsertEpisodes(db, es).value.episodes.rows;
    forall g | g in after ensures after[g].guid == g && References(db, after[g]) {
      if LastWithGuid(es, g).Some? {
        assert LastWithGuid(es, g).value in es;
      }
    }
  }

  /** The scenario of inserting guids "g1" and "g2" and then the same guids with new
      titles: two rows, holding the new titles. */
  lemma InsertEpisodesTwiceScenario(db: Db, a1: EpisodeEntity, a2: EpisodeEntity, b1: EpisodeEntity, b2: EpisodeEntity)
    requires db.episodes.rows == map[] && a1.podcastId.None? && a2.podcastId.None? && b1.podcastId.None? && b2.podcastId.None?
    requires a1.guid == b1.guid == "g1" && a2.guid == b2.guid == "g2"
    ensures InsertEpisodes(db, [a1, a2]).Ok?
    ensures var once := InsertEpisodes(db, [a1, a2]).value;
      InsertEpisodes(once, [b1, b2]).Ok? &&
      InsertEpisodes(once, [b1, b2]).value.episodes.rows == map["g1" := b1, "g2" := b2]
  {
    assert [a1, a2][..1] == [a1] && [a1][..0] == [];
    assert [b1, b2][..1] == [b1] && [b1][..0] == [];
    assert ReplaceAll(db.episodes, []) == db.episodes;
    var t1 := ReplaceAll(db.episodes, [a1]);
    assert t1 == Tables.Replace(db.episodes, "g1", a1);
    assert ReplaceAll(db.episodes, [a1, a2]) == Tables.Replace(t1, "g2", a2);
    var once := InsertEpisodes(db, [a1, a2]).value;
    assert once.episodes.rows == map["g1" := a1, "g2" := a2];
    assert ReplaceAll(once.episodes, []) == once.episodes;
    var t2 := ReplaceAll(once.episodes, [b1]);
    assert t2 == Tables.Replace(once.episodes, "g1", b1);
    assert ReplaceAll(once.episodes, [b1, b2]) == Tables.Replace(t2, "g2", b2);
  }

  /** After upsertEpisode the row for the guid is the episode and every other row is
      as it was; the constraints still hold. */
  lemma UpsertEpisodeEffect(db: Db, e: EpisodeEntity)
    requires Valid(db) && UpsertEpisode(db, e).Ok?
    ensures var after := UpsertEpisode(db, e).value;
      && Valid(after)
      && after.episodes.rows == db.episodes.rows[e.guid := e]
  {
    Tables.PutWellFormed(db.episodes, e.guid, e);
  }
}
