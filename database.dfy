/** The Room database: three tables and the integrity constraints SQLite enforces
    on them (primary keys, the unique collection_id index, and the foreign key from
    episodes to podcasts). */
module Database {
  import opened Common
  import opened Entities
  import Tables

  /** A stored search result: the id-list column holds the text listToCsv produced. */
  datatype SearchResultRow = SearchResultRow(term: string, collectionIds: string, count: Int32)

  datatype Db = Db(
    podcasts: Tables.Table<Long, PodcastEntity>,
    episodes: Tables.Table<string, EpisodeEntity>,
    searchResults: Tables.Table<string, SearchResultRow>)

  /** At most one podcast row per collection_id. */
  ghost predicate UniqueCollectionIds(rows: map<Long, PodcastEntity>) {
    forall a, b :: a in rows && b in rows && rows[a].collectionId == rows[b].collectionId ==> a == b
  }

  ghost predicate PodcastTableValid(t: Tables.Table<Long, PodcastEntity>) {
    && Tables.WellFormed(t)
    && (forall id :: id in t.rows ==> t.rows[id].id == id)
    && UniqueCollectionIds(t.rows)
  }

  /** Every episode's podcast_id is null or the id of a stored podcast. */
  ghost predicate ForeignKeysHold(episodes: map<string, EpisodeEntity>, podcasts: map<Long, PodcastEntity>) {
    forall g :: g in episodes && episodes[g].podcastId.Some? ==> episodes[g].podcastId.value in podcasts
  }

  ghost predicate EpisodeTableValid(t: Tables.Table<string, EpisodeEntity>, podcasts: map<Long, PodcastEntity>) {
    && Tables.WellFormed(t)
    && (forall g :: g in t.rows ==> t.rows[g].guid == g)
    && ForeignKeysHold(t.rows, podcasts)
  }

  ghost predicate SearchTableValid(t: Tables.Table<string, SearchResultRow>) {
    && Tables.WellFormed(t)
    && (forall term :: term in t.rows ==> t.rows[term].term == term)
  }

  /** The integrity constraints of the schema. */
  ghost predicate Valid(db: Db) {
    && PodcastTableValid(db.podcasts)
    && EpisodeTableValid(db.episodes, db.podcasts.rows)
    && SearchTableValid(db.searchResults)
  }

  function EmptyDb(): (db: Db)
    ensures Valid(db)
    ensures db.podcasts.rows == map[] && db.episodes.rows == map[] && db.searchResults.rows == map[]
  {
    Db(Tables.Empty(), Tables.Empty(), Tables.Empty())
  }

  /** A database state the schema admits. */
  type ValidDb = db: Db | Valid(db) witness EmptyDb()
}
