/** The database handle through which the repository and the feed mediator write:
    the DAO methods Room generates, each changing the tables in place as the
    corresponding function of PodcastDao, EpisodeDao or SearchResultDao describes,
    and each keeping the schema's constraints. A statement that throws leaves the
    tables as they were. */
module Daos {
  import opened Common
  import opened Entities
  import Database
  import PodcastDao
  import EpisodeDao
  import SearchResultDao
  import Tables

  /** The tables after a write: its result when it succeeded, the tables before it
      when it threw. */
  function Outcome(before: Database.Db, r: Result<Database.Db>): Database.Db {
    if r.Ok? then r.value else before
  }

  /** The exception a write threw, if any. */
  function Thrown(r: Result<Database.Db>): Option<Throwable> {
    if r.Ok? then None else Some(r.error)
  }

  class GoDatabase {
    var tables: Database.Db

    /** The schema's constraints hold. */
    ghost predicate Valid()
      reads this
    {
      Database.Valid(tables)
    }

    constructor ()
      ensures Valid() && tables == Database.EmptyDb()
    {
      tables := Database.EmptyDb();
    }

    /** PodcastDao.insertPodcast. */
    method InsertPodcast(e: PodcastEntity) returns (rowId: int)
      requires Valid()
      modifies this
      ensures Valid()
      ensures rowId == PodcastDao.InsertPodcast(old(tables), e).rowId
      ensures tables == PodcastDao.InsertPodcast(old(tables), e).db
    {
      PodcastDao.InsertPodcastValid(tables, e);
      var inserted := PodcastDao.InsertPodcast(tables, e);
      tables, rowId := inserted.db, inserted.rowId;
    }

    /** PodcastDao.updatePodcast. */
    method UpdatePodcast(e: PodcastEntity) returns (thrown: Option<Throwable>)
      requires Valid()
      modifies this
      ensures Valid()
      ensures tables == Outcome(old(tables), PodcastDao.UpdatePodcast(old(tables), e))
      ensures thrown == Thrown(PodcastDao.UpdatePodcast(old(tables), e))
    {
      PodcastDao.UpdatePodcastValid(tables, e);
      var r := PodcastDao.UpdatePodcast(tables, e);
      if r.Ok? {
        tables, thrown := r.value, None;
      } else {
        thrown := Some(r.error);
      }
    }

    /** PodcastDao.getPodcastSubscription. */
    method GetPodcastSubscription(id: Long) returns (subscribed: Option<bool>)
      ensures subscribed.Some? <==> id in tables.podcasts.rows
      ensures subscribed.Some? ==> subscribed.value == tables.podcasts.rows[id].subscribed
    {
      subscribed := PodcastDao.GetPodcastSubscription(tables, id);
    }

    /** PodcastDao.upsertPodcast, step by step inside its transaction: insert or
        ignore; on -1 read the stored flag, return when there is none, otherwise
        update with the stored flag; an exception rolls the transaction back. */
    method UpsertPodcast(e: PodcastEntity) returns (thrown: Option<Throwable>)
      requires Valid()
      modifies this
      ensures Valid()
      ensures tables == Outcome(old(tables), PodcastDao.UpsertPodcast(old(tables), e))
      ensures thrown == Thrown(PodcastDao.UpsertPodcast(old(tables), e))
    {
      var snapshot := tables;
      thrown := None;
      var rowId := InsertPodcast(e);
      if rowId == -1 {
        var subscribed := GetPodcastSubscription(e.id);
        if subscribed.None? {
          return;
        }
        thrown := UpdatePodcast(e.(subscribed := subscribed.value));
        if thrown.Some? {
          tables := snapshot;
        }
      }
    }

    /** PodcastDao.toggleSubscription. */
    method ToggleSubscription(id: Long)
      requires Valid()
      modifies this
      ensures Valid()
      ensures tables == PodcastDao.ToggleSubscription(old(tables), id)
    {
      PodcastDao.ToggleSubscriptionValid(tables, id);
      tables := PodcastDao.ToggleSubscription(tables, id);
    }

    /** PodcastDao.deletePodcast, cascading to the podcast's episodes. */
    method DeletePodcast(id: Long) returns (count: int)
      requires Valid()
      modifies this
      ensures Valid()
      ensures count == PodcastDao.DeletePodcast(old(tables), id).count
      ensures tables == PodcastDao.DeletePodcast(old(tables), id).db
    {
      PodcastDao.DeletePodcastCascades(tables, id);
      var deleted := PodcastDao.DeletePodcast(tables, id);
      tables, count := deleted.db, deleted.count;
    }

    /** EpisodeDao.insertEpisodes: one INSERT OR REPLACE per episode inside a
        transaction; the first episode whose podcast_id names no stored podcast
        aborts and rolls back the batch. */
    method InsertEpisodes(es: seq<EpisodeEntity>) returns (thrown: Option<Throwable>)
      requires Valid()
      modifies this
      ensures Valid()
      ensures tables == Outcome(old(tables), EpisodeDao.InsertEpisodes(old(tables), es))
      ensures thrown == Thrown(EpisodeDao.InsertEpisodes(old(tables), es))
    {
      var snapshot := tables;
      for i := 0 to |es|
        invariant tables == snapshot.(episodes := EpisodeDao.ReplaceAll(snapshot.episodes, es[..i]))
        invariant forall j :: 0 <= j < i ==> EpisodeDao.References(snapshot, es[j])
      {
        if !EpisodeDao.References(tables, es[i]) {
          tables := snapshot;
          thrown := Some(SQLiteConstraint(EpisodeDao.FOREIGN_KEY_FAILED));
          return;
        }
        assert es[..i + 1][..i] == es[..i];
        tables := tables.(episodes := Tables.Replace(tables.episodes, es[i].guid, es[i]));
      }
      assert es[..|es|] == es;
      EpisodeDao.InsertEpisodesValid(snapshot, es);
      thrown := None;
    }

    /** EpisodeDao.upsertEpisode. */
    method UpsertEpisode(e: EpisodeEntity) returns (thrown: Option<Throwable>)
      requires Valid()
      modifies this
      ensures Valid()
      ensures tables == Outcome(old(tables), EpisodeDao.UpsertEpisode(old(tables), e))
      ensures thrown == Thrown(EpisodeDao.UpsertEpisode(old(tables), e))
    {
      var r := EpisodeDao.UpsertEpisode(tables, e);
      if r.Ok? {
        EpisodeDao.UpsertEpisodeEffect(tables, e);
        tables, thrown := r.value, None;
      } else {
        thrown := Some(r.error);
      }
    }

    /** PodcastSearchResultDao.insertSearchResult. */
    method InsertSearchResult(e: PodcastSearchResultEntity)
      requires Valid()
      modifies this
      ensures Valid()
      ensures tables == SearchResultDao.InsertSearchResult(old(tables), e)
    {
      SearchResultDao.InsertSearchResultValid(tables, e);
      tables := SearchResultDao.InsertSearchResult(tables, e);
    }
  }
}
