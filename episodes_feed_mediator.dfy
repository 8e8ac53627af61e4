/** EpisodesFeedMediator: the paging RemoteMediator that refreshes one podcast's
    feed. A load either answers at once that paging has ended, or fetches the RSS
    feed, stores the feed's description on the podcast's row and writes the feed's
    episodes, both inside one transaction.

    The fetch result is an input; so is the conversion of a feed into episode rows
    (asEpisodeEntities), whose definition is not part of this model. */
module EpisodesFeedMediator {
  import opened Common
  import opened Entities
  import opened Database
  import PodcastDao
  import EpisodeDao
  import Daos
  import Tables

  /** One episode item of an RSS feed; every field may be absent. */
  datatype RssFeedEpisode = RssFeedEpisode(
    author: Option<string>,
    title: Option<string>,
    content: Option<string>,
    audio: Option<string>,
    description: Option<string>,
    guid: Option<string>,
    pubDate: Option<string>,
    image: Option<string>,
    video: Option<string>,
    link: Option<string>)

  datatype RssPodcastResponse = RssPodcastResponse(
    url: string,
    title: string,
    description: string,
    lastBuildDate: string,
    episodes: seq<RssFeedEpisode>)

  datatype LoadType = Refresh | Prepend | Append

  datatype MediatorResult = Success(endOfPaginationReached: bool) | Error(cause: Throwable)

  /** What one load did: its result, the tables it left, and whether it fetched. */
  datatype Loaded = Loaded(result: MediatorResult, tables: Db, fetched: bool)

  /** The refresh path once the feed has been fetched (or failed to be): read the
      row for the feed URL, then in one transaction upsert that row with the feed's
      description and insert the feed's episodes under the row's id. Any exception
      is reported as Error and leaves the tables as they were. */
  function RefreshFeed(
    db: Db,
    feedUrl: string,
    feed: Result<RssPodcastResponse>,
    asEpisodeEntities: (RssPodcastResponse, Long) -> seq<EpisodeEntity>): (r: (MediatorResult, Db))
    requires Valid(db)
    ensures r.0.Error? ==> r.1 == db
    ensures r.0.Success? ==> r.0.endOfPaginationReached
  {
    match feed
    case Err(cause) => (Error(cause), db)
    case Ok(response) =>
      match PodcastDao.GetPodcastByFeedUrl(db, feedUrl)
      case None => (Error(NullPointer), db)
      case Some(stored) =>
        match PodcastDao.UpsertPodcast(db, stored.(feedDescription := response.description))
        case Err(cause) => (Error(cause), db)
        case Ok(afterUpsert) =>
          match EpisodeDao.InsertEpisodes(afterUpsert, asEpisodeEntities(response, stored.id))
          case Err(cause) => (Error(cause), db)
          case Ok(afterInsert) => (Success(true), afterInsert)
  }

  /** load: a PREPEND or APPEND with a last item ends paging at once; every other
      load refreshes the feed. */
  function LoadResult(
    db: Db,
    feedUrl: string,
    loadType: LoadType,
    lastItem: Option<EpisodeEntity>,
    feed: Result<RssPodcastResponse>,
    asEpisodeEntities: (RssPodcastResponse, Long) -> seq<EpisodeEntity>): (r: Loaded)
    requires Valid(db)
    ensures r.fetched <==> loadType == Refresh || lastItem.None?
    ensures r.result.Error? ==> r.tables == db
  {
    if loadType != Refresh && lastItem.Some? then Loaded(Success(true), db, false)
    else
      var refreshed := RefreshFeed(db, feedUrl, feed, asEpisodeEntities);
      Loaded(refreshed.0, refreshed.1, true)
  }

  class FeedMediator {
    const db: Daos.GoDatabase
    const feedUrl: string

    constructor (db: Daos.GoDatabase, feedUrl: string)
      ensures this.db == db && this.feedUrl == feedUrl
    {
      this.db := db;
      this.feedUrl := feedUrl;
    }

    /** load, statement by statement: the early return on the load type, the fetch,
        the read of the stored row, and the transaction, rolled back when either of
        its writes throws. `fetched` reports whether the feed was requested. */
    method Load(
      loadType: LoadType,
      lastItem: Option<EpisodeEntity>,
      feed: Result<RssPodcastResponse>,
      asEpisodeEntities: (RssPodcastResponse, Long) -> seq<EpisodeEntity>)
      returns (result: MediatorResult, fetched: bool)
      requires db.Valid()
      modifies db
      ensures db.Valid()
      ensures Loaded(result, db.tables, fetched) ==
              LoadResult(old(db.tables), feedUrl, loadType, lastItem, feed, asEpisodeEntities)
    {
      fetched := false;
      if loadType != Refresh && lastItem.Some? {
        return Success(true), fetched;
      }
      fetched := true;
      if feed.Err? {
        return Error(feed.error), fetched;
      }
      var dbPodcast := PodcastDao.GetPodcastByFeedUrl(db.tables, feedUrl);
      if dbPodcast.None? {
        return Error(NullPointer), fetched;
      }
      var stored := dbPodcast.value;
      var snapshot := db.tables;
      var thrown := db.UpsertPodcast(stored.(feedDescription := feed.value.description));
      if thrown.Some? {
        db.tables := snapshot;
        return Error(thrown.value), fetched;
      }
      thrown := db.InsertEpisodes(asEpisodeEntities(feed.value, stored.id));
      if thrown.Some? {
        db.tables := snapshot;
        return Error(thrown.value), fetched;
      }
      result := Success(true);
    }
  }

  // ---------------------------------------------------------------------------
  // Properties
  // ---------------------------------------------------------------------------

  /** Every load that succeeds reports that paging has ended. */
  lemma EverySuccessEndsPagination(db: Db, feedUrl: string, loadType: LoadType, lastItem: Option<EpisodeEntity>,
                                   feed: Result<RssPodcastResponse>, asEpisodeEntities: (RssPodcastResponse, Long) -> seq<EpisodeEntity>)
    requires Valid(db)
    ensures var r := LoadResult(db, feedUrl, loadType, lastItem, feed, asEpisodeEntities);
      r.result.Success? ==> r.result.endOfPaginationReached
  {
  }

  /** A PREPEND or APPEND with a last item answers Success(true) without fetching or
      writing anything. */
  lemma PagingWithLastItemDoesNothing(db: Db, feedUrl: string, loadType: LoadType, lastItem: EpisodeEntity,
                                      feed: Result<RssPodcastResponse>, asEpisodeEntities: (RssPodcastResponse, Long) -> seq<EpisodeEntity>)
    requires Valid(db) && loadType != Refresh
    ensures LoadResult(db, feedUrl, loadType, Some(lastItem), feed, asEpisodeEntities) == Loaded(Success(true), db, false)
  {
  }

  /** A PREPEND or APPEND without a last item behaves exactly like a REFRESH. */
  lemma PagingWithoutLastItemRefreshes(db: Db, feedUrl: string, loadType: LoadType,
                                       feed: Result<RssPodcastResponse>, asEpisodeEntities: (RssPodcastResponse, Long) -> seq<EpisodeEntity>)
    requires Valid(db)
    ensures LoadResult(db, feedUrl, loadType, None, feed, asEpisodeEntities) ==
            LoadResult(db, feedUrl, Refresh, None, feed, asEpisodeEntities)
  {
  }

  /** A failed fetch is reported with its cause and writes nothing. */
  lemma FetchFailureIsReported(db: Db, feedUrl: string, lastItem: Option<EpisodeEntity>, cause: Throwable,
                               asEpisodeEntities: (RssPodcastResponse, Long) -> seq<EpisodeEntity>)
    requires Valid(db)
    ensures LoadResult(db, feedUrl, Refresh, lastItem, Err(cause), asEpisodeEntities) == Loaded(Error(cause), db, true)
  {
  }

  /** Refreshing a feed URL that no stored podcast has fails on the missing row and
      writes nothing. */
  lemma MissingPodcastIsError(db: Db, feedUrl: string, response: RssPodcastResponse,
                              asEpisodeEntities: (RssPodcastResponse, Long) -> seq<EpisodeEntity>)
    requires Valid(db)
    requires forall id :: id in db.podcasts.rows ==> db.podcasts.rows[id].feedUrl != feedUrl
    ensures LoadResult(db, feedUrl, Refresh, None, Ok(response), asEpisodeEntities) == Loaded(Error(NullPointer), db, true)
  {
  }

  /** A refresh of a stored podcast: the upsert cannot fail (the row keeps its own
      collection id); the load fails exactly when some episode names a podcast that
      is not stored, and then writes nothing. When it succeeds, that row's description
      is the feed's, every other column (the subscription flag included) and every
      other podcast row is as before, and the episodes are written by guid, last one
      winning. */
  lemma RefreshStoresDescriptionAndEpisodes(db: Db, feedUrl: string, response: RssPodcastResponse,
                                            asEpisodeEntities: (RssPodcastResponse, Long) -> seq<EpisodeEntity>)
    requires Valid(db)
    requires PodcastDao.GetPodcastByFeedUrl(db, feedUrl).Some?
    ensures var stored := PodcastDao.GetPodcastByFeedUrl(db, feedUrl).value;
      var es := asEpisodeEntities(response, stored.id);
      var r := LoadResult(db, feedUrl, Refresh, None, Ok(response), asEpisodeEntities);
      && stored.feedUrl == feedUrl && stored.id in db.podcasts.rows
      && (r.result.Error? <==> exists i :: 0 <= i < |es| && !EpisodeDao.References(db, es[i]))
      && (r.result.Error? ==> r.tables == db)
      && (r.result.Success? ==>
            && r.tables.podcasts.rows == db.podcasts.rows[stored.id := stored.(feedDescription := response.description)]
            && r.tables.podcasts.order == db.podcasts.order
            && r.tables.episodes == EpisodeDao.ReplaceAll(db.episodes, es)
            && r.tables.searchResults == db.searchResults)
  {
    var stored := PodcastDao.GetPodcastByFeedUrl(db, feedUrl).value;
    var rows := db.podcasts.rows;
    var id :| id in rows && rows[id] == stored;
    assert stored.id == id;
    var e := stored.(feedDescription := response.description);
    assert !PodcastDao.OtherHoldsCollectionId(rows, e.collectionId, e.id);
    PodcastDao.UpsertPodcastMergesExisting(db, e);
    assert e.(subscribed := rows[e.id].subscribed) == e;
  }

  /** Episodes that name the refreshed podcast (or no podcast) are always accepted:
      the refresh then succeeds and attaches them to the stored row. */
  lemma RefreshAttachesEpisodes(db: Db, feedUrl: string, response: RssPodcastResponse,
                                asEpisodeEntities: (RssPodcastResponse, Long) -> seq<EpisodeEntity>)
    requires Valid(db)
    requires PodcastDao.GetPodcastByFeedUrl(db, feedUrl).Some?
    requires var stored := PodcastDao.GetPodcastByFeedUrl(db, feedUrl).value;
      forall e | e in asEpisodeEntities(response, stored.id) :: e.podcastId == Some(stored.id)
    ensures var stored := PodcastDao.GetPodcastByFeedUrl(db, feedUrl).value;
      var r := LoadResult(db, feedUrl, Refresh, None, Ok(response), asEpisodeEntities);
      && r == Loaded(Success(true), r.tables, true)
      && Valid(r.tables)
      && forall e | e in asEpisodeEntities(response, stored.id) ::
           e.guid in r.tables.episodes.rows && r.tables.episodes.rows[e.guid].podcastId == Some(stored.id)
  {
    var stored := PodcastDao.GetPodcastByFeedUrl(db, feedUrl).value;
    var es := asEpisodeEntities(response, stored.id);
    RefreshStoresDescriptionAndEpisodes(db, feedUrl, response, asEpisodeEntities);
    var afterUpsert := PodcastDao.UpsertPodcast(db, stored.(feedDescription := response.description)).value;
    PodcastDao.UpsertPodcastValid(db, stored.(feedDescription := response.description));
    EpisodeDao.InsertEpisodesValid(afterUpsert, es);
    EpisodeDao.InsertEpisodesReplacesByGuid(afterUpsert, es);
    forall e | e in es
      ensures EpisodeDao.LastWithGuid(es, e.guid).value.podcastId == Some(stored.id)
    {
      assert EpisodeDao.LastWithGuid(es, e.guid).value in es;
    }
  }
}
