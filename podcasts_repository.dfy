/** PodcastsRepoImpl: the search flow (local read, iTunes fetch, transactional
    save), the subscribed-podcasts read and the subscription toggle. */
module PodcastsRepository {
  import opened Common
  import opened Entities
  import opened Database
  import opened ItunesModels
  import opened NetworkBoundResource
  import PodcastDao
  import SearchResultDao
  import Daos
  import Tables

  // ---------------------------------------------------------------------------
  // saveFetchResult
  // ---------------------------------------------------------------------------

  /** `podcasts.forEach { upsertPodcast(it) }`: the upserts in order, stopping at
      the first that throws. */
  function UpsertAll(db: Db, es: seq<PodcastEntity>): Result<Db> {
    if es == [] then Ok(db)
    else
      match UpsertAll(db, es[..|es| - 1])
      case Err(cause) => Err(cause)
      case Ok(d) => PodcastDao.UpsertPodcast(d, es[|es| - 1])
  }

  /** The cached search: the collection ids of every hit, in response order, and
      the count the directory reported. */
  function SearchEntity(term: string, response: ItunesPodcastSearchResponse): (e: PodcastSearchResultEntity)
    ensures e.term == term && e.count == response.resultCount
    ensures |e.collectionIds| == |response.results|
    ensures forall i :: 0 <= i < |response.results| ==> e.collectionIds[i] == response.results[i].collectionId
  {
    PodcastSearchResultEntity(term, Map(response.results, (x: NetworkItunesPodcast) => x.collectionId), response.resultCount)
  }

  /** saveFetchResult as one transaction: every feed-bearing hit upserted, then the
      search row written; a throw anywhere means nothing was written. */
  function SaveSearch(db: Db, term: string, response: ItunesPodcastSearchResponse, assignId: NetworkItunesPodcast -> Long): Result<Db> {
    match UpsertAll(db, AsPodcastEntities(response, assignId))
    case Err(cause) => Err(cause)
    case Ok(d) => Ok(SearchResultDao.InsertSearchResult(d, SearchEntity(term, response)))
  }

  // ---------------------------------------------------------------------------
  // searchPodcasts
  // ---------------------------------------------------------------------------

  /** The collection ids cached for the term, or none when it was never searched. */
  function CachedIds(db: Db, term: string): seq<Long> {
    match SearchResultDao.GetSearchResult(db, term)
    case None => []
    case Some(search) => search.collectionIds
  }

  /** The `db` lambda of searchPodcasts: the stored podcasts whose collection id the
      cached search lists, in table order, as domain podcasts. */
  function SearchRead(db: ValidDb, term: string, m: DomainMapping): seq<Podcast> {
    PodcastsToDomain(PodcastDao.GetPodcastsByCollectionIds(db, CachedIds(db, term)), m)
  }

  /** One collection of the `db` lambda: a single read. */
  function SearchStream(term: string, m: DomainMapping): ValidDb -> LocalStream<seq<Podcast>> {
    (db: ValidDb) => LocalStream(SearchRead(db, term, m), [])
  }

  /** The save step as seen by networkBoundResource: the store the transaction
      leaves and what it threw. */
  function SaveEffectOf(db: ValidDb, term: string, response: ItunesPodcastSearchResponse, assignId: NetworkItunesPodcast -> Long): SaveEffect<ValidDb> {
    var r := SaveSearch(db, term, response, assignId);
    SaveSearchValid(db, term, response, assignId);
    if r.Err? then SaveEffect(db, Some(r.error))
    else
      var after: ValidDb := r.value;
      SaveEffect(after, None)
  }

  function SearchSave(term: string, assignId: NetworkItunesPodcast -> Long): (ValidDb, ItunesPodcastSearchResponse) -> SaveEffect<ValidDb> {
    (db: ValidDb, response: ItunesPodcastSearchResponse) => SaveEffectOf(db, term, response, assignId)
  }

  /** searchPodcasts(term): networkBoundResource with the lambdas above and
      shouldFetch = { true }. The iTunes response (or failure) is an input. */
  function SearchPodcasts(
    db: ValidDb,
    term: string,
    fetch: Result<ItunesPodcastSearchResponse>,
    m: DomainMapping,
    assignId: NetworkItunesPodcast -> Long): Run<ValidDb, seq<Podcast>, ItunesPodcastSearchResponse>
  {
    Synchronise(db, SearchStream(term, m), fetch, SearchSave(term, assignId), AlwaysFetch)
  }

  // ---------------------------------------------------------------------------
  // getPodcasts
  // ---------------------------------------------------------------------------

  /** getPodcasts(subscribed) as written: the DAO is always asked for subscribed
      podcasts, whatever the argument. */
  function GetPodcasts(db: ValidDb, subscribed: bool, m: DomainMapping): seq<Podcast> {
    PodcastsToDomain(PodcastDao.GetPodcastsBySubscription(db, true), m)
  }

  /** getPodcasts(subscribed) passing its argument on, as its signature promises. */
  function GetPodcastsBySubscription(db: ValidDb, subscribed: bool, m: DomainMapping): (r: seq<Podcast>)
    ensures forall i :: 0 <= i < |r| ==> r[i].subscribed == subscribed
    ensures forall id :: id in db.podcasts.rows && db.podcasts.rows[id].subscribed == subscribed ==>
      exists i :: 0 <= i < |r| && r[i].id == id
  {
    var rows := PodcastDao.GetPodcastsBySubscription(db, subscribed);
    var r := PodcastsToDomain(rows, m);
    assert forall i :: 0 <= i < |r| ==> rows[i] in rows;
    forall id | id in db.podcasts.rows && db.podcasts.rows[id].subscribed == subscribed
      ensures exists i :: 0 <= i < |r| && r[i].id == id
    {
      var row := db.podcasts.rows[id];
      assert row in db.podcasts.rows.Values;
      var i :| 0 <= i < |rows| && rows[i] == row;
      assert r[i].id == id;
    }
    r
  }

  // ---------------------------------------------------------------------------
  // The repository object
  // ---------------------------------------------------------------------------

  class PodcastsRepo {
    const db: Daos.GoDatabase

    constructor (db: Daos.GoDatabase)
      ensures this.db == db
    {
      this.db := db;
    }

    /** saveFetchResult: collect the ids, build the rows, then inside
        runInTransaction upsert each row and write the search row; a throw rolls
        the transaction back. */
    method SaveFetchResult(term: string, response: ItunesPodcastSearchResponse, assignId: NetworkItunesPodcast -> Long)
      returns (thrown: Option<Throwable>)
      requires db.Valid()
      modifies db
      ensures db.Valid()
      ensures db.tables == Daos.Outcome(old(db.tables), SaveSearch(old(db.tables), term, response, assignId))
      ensures thrown == Daos.Thrown(SaveSearch(old(db.tables), term, response, assignId))
    {
      var searchResultEntity := SearchEntity(term, response);
      var podcasts := AsPodcastEntities(response, assignId);
      var snapshot := db.tables;
      for i := 0 to |podcasts|
        invariant db.Valid()
        invariant UpsertAll(snapshot, podcasts[..i]) == Ok(db.tables)
      {
        assert podcasts[..i + 1][..i] == podcasts[..i];
        thrown := db.UpsertPodcast(podcasts[i]);
        if thrown.Some? {
          UpsertAllStopsAtThrow(snapshot, podcasts[..i + 1], podcasts[i + 1..]);
          assert podcasts[..i + 1] + podcasts[i + 1..] == podcasts;
          db.tables := snapshot;
          return;
        }
      }
      assert podcasts[..|podcasts|] == podcasts;
      db.InsertSearchResult(searchResultEntity);
      thrown := None;
    }

    /** toggleSubscription: exactly the DAO's toggle. */
    method ToggleSubscription(podcastId: Long)
      requires db.Valid()
      modifies db
      ensures db.Valid()
      ensures db.tables == PodcastDao.ToggleSubscription(old(db.tables), podcastId)
    {
      db.ToggleSubscription(podcastId);
    }
  }

  // ---------------------------------------------------------------------------
  // Properties
  // ---------------------------------------------------------------------------

  /** Once an upsert throws, the later ones do not run. */
  lemma {:induction false} UpsertAllStopsAtThrow(db: Db, a: seq<PodcastEntity>, b: seq<PodcastEntity>)
    requires UpsertAll(db, a).Err?
    ensures UpsertAll(db, a + b) == UpsertAll(db, a)
  {
    if b != [] {
      var init := b[..|b| - 1];
      UpsertAllStopsAtThrow(db, a, init);
      assert (a + b)[..|a + b| - 1] == a + init;
    } else {
      assert a + b == a;
    }
  }

  lemma {:induction false} UpsertAllValid(db: Db, es: seq<PodcastEntity>)
    requires Valid(db) && UpsertAll(db, es).Ok?
    ensures Valid(UpsertAll(db, es).value)
  {
    if es != [] {
      UpsertAllValid(db, es[..|es| - 1]);
      PodcastDao.UpsertPodcastValid(UpsertAll(db, es[..|es| - 1]).value, es[|es| - 1]);
    }
  }

  /** A run of upserts keeps every stored row, with its `subscribed` flag. */
  lemma {:induction false} UpsertAllKeepsSubscriptions(db: Db, es: seq<PodcastEntity>)
    requires UpsertAll(db, es).Ok?
    ensures var after := UpsertAll(db, es).value.podcasts.rows;
      forall id :: id in db.podcasts.rows ==> id in after && after[id].subscribed == db.podcasts.rows[id].subscribed
  {
    if es != [] {
      UpsertAllKeepsSubscriptions(db, es[..|es| - 1]);
      PodcastDao.UpsertPodcastPreservesOthers(UpsertAll(db, es[..|es| - 1]).value, es[|es| - 1]);
    }
  }

  lemma SaveSearchValid(db: Db, term: string, response: ItunesPodcastSearchResponse, assignId: NetworkItunesPodcast -> Long)
    requires Valid(db)
    ensures SaveSearch(db, term, response, assignId).Ok? ==> Valid(SaveSearch(db, term, response, assignId).value)
  {
    var es := AsPodcastEntities(response, assignId);
    if UpsertAll(db, es).Ok? {
      UpsertAllValid(db, es);
      SearchResultDao.InsertSearchResultValid(UpsertAll(db, es).value, SearchEntity(term, response));
    }
  }

  /** Search always fetches: the first emission is Loading of the local read. */
  lemma SearchAlwaysLoadsFirst(db: ValidDb, term: string, fetch: Result<ItunesPodcastSearchResponse>, m: DomainMapping, assignId: NetworkItunesPodcast -> Long)
    ensures var run := SearchPodcasts(db, term, fetch, m, assignId);
      run.fetchCalled && run.emitted[0] == Loading(SearchRead(db, term, m))
  {
    DefaultAlwaysFetches(db, SearchStream(term, m), fetch, SearchSave(term, assignId));
  }

  /** After a successful save the term's row lists the collection id of every hit,
      feed URL or not, in response order, with the reported count; and every podcast
      stored before keeps its row and its `subscribed` flag. */
  lemma SaveSearchWritesRow(db: Db, term: string, response: ItunesPodcastSearchResponse, assignId: NetworkItunesPodcast -> Long)
    requires SaveSearch(db, term, response, assignId).Ok?
    ensures var after := SaveSearch(db, term, response, assignId).value;
      && SearchResultDao.GetSearchResult(after, term) == Some(SearchEntity(term, response))
      && forall id :: id in db.podcasts.rows ==>
           id in after.podcasts.rows && after.podcasts.rows[id].subscribed == db.podcasts.rows[id].subscribed
  {
    var es := AsPodcastEntities(response, assignId);
    SearchResultDao.GetAfterInsert(UpsertAll(db, es).value, SearchEntity(term, response));
    UpsertAllKeepsSubscriptions(db, es);
  }

  /** The transaction is all or nothing: if the save throws, the search ends with
      the store as it was and every emission after Loading an Error with that cause;
      if not, the store holds both the upserts and the search row. */
  lemma SearchSaveAllOrNothing(db: ValidDb, term: string, response: ItunesPodcastSearchResponse, m: DomainMapping, assignId: NetworkItunesPodcast -> Long)
    ensures var run := SearchPodcasts(db, term, Ok(response), m, assignId);
      var saved := SaveSearch(db, term, response, assignId);
      && (saved.Err? ==> run.store == db && forall i :: 1 <= i < |run.emitted| ==> run.emitted[i] == Error(saved.error, SearchRead(db, term, m)))
      && (saved.Ok? ==> run.store == saved.value && run.emitted[1..] == [Success(SearchRead(saved.value, term, m))])
  {
    var saved := SaveSearch(db, term, response, assignId);
    SaveSearchValid(db, term, response, assignId);
    if saved.Err? {
      FailureIsTerminal(db, SearchStream(term, m), Ok(response), SearchSave(term, assignId), AlwaysFetch, saved.error);
    } else {
      SuccessAfterSave(db, SearchStream(term, m), response, SearchSave(term, assignId), AlwaysFetch);
    }
  }

  /** The local read: nothing for a term never cached; otherwise one podcast per
      stored row whose collection id the cached search lists, carrying that row's
      id, collection id and flag. */
  lemma SearchReadSpec(db: ValidDb, term: string, m: DomainMapping)
    ensures SearchResultDao.GetSearchResult(db, term).None? ==> SearchRead(db, term, m) == []
    ensures var r := SearchRead(db, term, m);
      && (forall i :: 0 <= i < |r| ==>
            r[i].collectionId in CachedIds(db, term) && r[i].id in db.podcasts.rows
            && db.podcasts.rows[r[i].id].collectionId == r[i].collectionId
            && db.podcasts.rows[r[i].id].subscribed == r[i].subscribed)
      && (forall id :: id in db.podcasts.rows && db.podcasts.rows[id].collectionId in CachedIds(db, term) ==>
            exists i :: 0 <= i < |r| && r[i].id == id)
  {
    var ids := CachedIds(db, term);
    var rows := PodcastDao.GetPodcastsByCollectionIds(db, ids);
    var r := SearchRead(db, term, m);
    forall i | 0 <= i < |r|
      ensures r[i].collectionId in ids && r[i].id in db.podcasts.rows
      ensures db.podcasts.rows[r[i].id].collectionId == r[i].collectionId
      ensures db.podcasts.rows[r[i].id].subscribed == r[i].subscribed
    {
      assert rows[i] in rows;
      var k :| k in db.podcasts.rows && db.podcasts.rows[k] == rows[i];
    }
    forall id | id in db.podcasts.rows && db.podcasts.rows[id].collectionId in ids
      ensures exists i :: 0 <= i < |r| && r[i].id == id
    {
      var row := db.podcasts.rows[id];
      assert row in db.podcasts.rows.Values;
      var i :| 0 <= i < |rows| && rows[i] == row;
      assert r[i].id == id;
    }
  }

  /** A search answered with three hits, the second without a feed URL, on a
      database holding no podcasts: the two feed-bearing hits are stored, and the
      search row keeps all three collection ids with the reported count 3. */
  lemma ThreeHitsOneWithoutFeed(db: Db, x1: NetworkItunesPodcast, x2: NetworkItunesPodcast, x3: NetworkItunesPodcast, assignId: NetworkItunesPodcast -> Long)
    requires db.podcasts.rows == map[]
    requires x1.feedUrl.Some? && x2.feedUrl.None? && x3.feedUrl.Some?
    requires x1.collectionId != x3.collectionId && assignId(x1) != assignId(x3)
    ensures var response := ItunesPodcastSearchResponse(3, [x1, x2, x3]);
      var saved := SaveSearch(db, "radiolab", response, assignId);
      && saved.Ok?
      && saved.value.podcasts.rows.Keys == {assignId(x1), assignId(x3)}
      && SearchResultDao.GetSearchResult(saved.value, "radiolab") ==
         Some(PodcastSearchResultEntity("radiolab", [x1.collectionId, x2.collectionId, x3.collectionId], 3))
  {
    var response := ItunesPodcastSearchResponse(3, [x1, x2, x3]);
    var e1 := ToPodcastEntity(x1, x1.feedUrl.value, assignId(x1));
    var e3 := ToPodcastEntity(x3, x3.feedUrl.value, assignId(x3));
    assert [x1, x2, x3][1..] == [x2, x3] && [x2, x3][1..] == [x3] && [x3][1..] == [];
    assert FeedEntities([x3], assignId) == [e3];
    assert FeedEntities([x2, x3], assignId) == [e3];
    assert AsPodcastEntities(response, assignId) == [e1, e3];
    assert [e1, e3][..1] == [e1] && [e1][..0] == [];
    PodcastDao.UpsertPodcastInsertsNew(db, e1);
    var d1 := PodcastDao.UpsertPodcast(db, e1).value;
    assert UpsertAll(db, [e1]) == Ok(d1);
    assert !PodcastDao.HoldsCollectionId(d1.podcasts.rows, e3.collectionId);
    PodcastDao.UpsertPodcastInsertsNew(d1, e3);
    var d2 := PodcastDao.UpsertPodcast(d1, e3).value;
    assert UpsertAll(db, [e1, e3]) == Ok(d2);
    var entity := SearchEntity("radiolab", response);
    assert entity == PodcastSearchResultEntity("radiolab", [x1.collectionId, x2.collectionId, x3.collectionId], 3);
    SearchResultDao.GetAfterInsert(d2, entity);
  }

  /** The repository's toggle negates exactly one flag, and twice restores it. */
  lemma RepoToggleTwice(db: Db, id: Long)
    ensures PodcastDao.ToggleSubscription(PodcastDao.ToggleSubscription(db, id), id) == db
  {
    PodcastDao.ToggleSubscriptionTwice(db, id);
  }

  /** getPodcasts as written returns the same list for both arguments. */
  lemma GetPodcastsIgnoresArgument(db: ValidDb, m: DomainMapping)
    ensures GetPodcasts(db, false, m) == GetPodcasts(db, true, m)
  {
  }

  /** A database holding one unsubscribed podcast: asking for unsubscribed podcasts
      as written returns nothing, while the corrected read returns that podcast. */
  lemma GetPodcastsUnsubscribedCounterexample(m: DomainMapping)
    ensures var e := NewPodcastEntity(1);
      var db := Db(Tables.Table(map[1 := e], [1]), Tables.Empty(), Tables.Empty());
      && Valid(db)
      && GetPodcasts(db, false, m) == []
      && |GetPodcastsBySubscription(db, false, m)| == 1
  {
    var e := NewPodcastEntity(1);
    var db := Db(Tables.Table(map[1 := e], [1]), Tables.Empty(), Tables.Empty());
    assert Tables.Scan(db.podcasts) == [e];
    assert PodcastDao.GetPodcastsBySubscription(db, true) == Filter([e], (p: PodcastEntity) => p.subscribed == true);
    assert PodcastDao.GetPodcastsBySubscription(db, false) == Filter([e], (p: PodcastEntity) => p.subscribed == false);
    assert Filter([e], (p: PodcastEntity) => p.subscribed == true) == [];
    assert Filter([e], (p: PodcastEntity) => p.subscribed == false) == [e];
  }
}
