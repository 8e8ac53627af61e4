# Podcast cache synchronisation, modelled in Dafny

This project models the offline-first core of an Android podcast client. The
client keeps a local Room/SQLite cache of podcasts, episodes and past iTunes
searches. Three flows keep that cache up to date:

- **search:** `networkBoundResource` first emits what is cached. It then fetches from
  iTunes, saves the answer in one transaction and emits the cache again.
- **feed refresh:** a paging `RemoteMediator` refreshes one podcast's RSS feed.
- **search screen:** a view model folds the emitted resources into the screen state.

The database is a value `Database.Db` with three keyed tables. Each table holds its
rows by primary key plus the order in which a full scan visits them. `Database.Valid`
states the schema's constraints:

- primary keys;
- the unique `collection_id` index;
- the foreign key from `episodes.podcast_id` to `podcasts.id`, with cascading delete.

Each DAO statement is a pure function on a `Db`. A statement that violates a
constraint returns `Err`, and Room's transaction rolls back. The code that writes
step by step is modelled as classes with methods. Each method is proved equal to the
function that specifies it:

- the database handle (`Daos.GoDatabase`, with the transactional `upsertPodcast` and
  `insertEpisodes`);
- the repository's save loop;
- the feed mediator;
- the view model.

Kotlin's `Long`, `Int` and `Long.toInt()` truncation are explicit (`Common.Long`,
`Common.Int32`, `Common.LongToInt`).

Where the code and the system's design description differ, the model follows the
code:

- `searchPodcasts` reads the cached search with `getPodcasts(collectionIds)`, in
  table order, and does not use the ordered query.
- `saveFetchResult` stores the collection id of *every* hit in the search row, hits
  without a feed URL included. Only the rows it upserts are restricted to hits with a
  feed URL.

## Model

| member | source | states |
|---|---|---|
| Common.LongToInt | app/src/main/kotlin/com/colisa/podplay/core/database/daos/PodcastDao.kt:74-76 | `Long.toInt()` keeps the value modulo 2^32 and is the identity on values that fit in an Int |
| Common.SortByFacts | app/src/main/kotlin/com/colisa/podplay/core/database/daos/PodcastDao.kt:76 | `sortedWith(compareBy(key))` returns a permutation of its input, sorted by key, that keeps the input order of equal keys (stable) |
| Converters.ParseLongToString | app/src/main/kotlin/com/colisa/podplay/core/database/utils/Converters.kt:36 | `toLong()` parses the decimal text of every Long back to that Long |
| Converters.ParseLong | app/src/main/kotlin/com/colisa/podplay/core/database/utils/Converters.kt:34-42 | `toLong()` succeeds only on non-empty, comma-free text; a field whose `toLong()` throws NumberFormatException becomes a null that `filterNotNull` drops |
| Converters.SplitJoin | app/src/main/kotlin/com/colisa/podplay/core/database/utils/Converters.kt:34-47 | `split(",")` undoes `joinToString(",")` on comma-free fields |
| Converters.CsvToList | app/src/main/kotlin/com/colisa/podplay/core/database/utils/Converters.kt:32-43 | null in gives null out; otherwise there are at most as many ids as comma-separated fields |
| Converters.ParsedFieldsAppend | app/src/main/kotlin/com/colisa/podplay/core/database/utils/Converters.kt:34-42 | a field that fails to parse is dropped on its own, without disturbing the others or their order |
| Converters.ParsedFieldsCount | app/src/main/kotlin/com/colisa/podplay/core/database/utils/Converters.kt:34-42 | the output has exactly one id per field that parses |
| Converters.ListToCsv | app/src/main/kotlin/com/colisa/podplay/core/database/utils/Converters.kt:46-48 | null in gives null out |
| Converters.CsvRoundTrip | app/src/main/kotlin/com/colisa/podplay/core/database/utils/Converters.kt:32-48 | a stored id list reads back unchanged, the empty list included |
| Converters.ListToCsvCommas | app/src/main/kotlin/com/colisa/podplay/core/database/utils/Converters.kt:46-48 | n >= 1 ids are written with exactly n - 1 commas |
| Converters.LongToInstant | app/src/main/kotlin/com/colisa/podplay/core/database/utils/Converters.kt:24 | null in gives null out |
| Converters.InstantToLong | app/src/main/kotlin/com/colisa/podplay/core/database/utils/Converters.kt:27 | null in gives null out |
| Converters.MillisRoundTrip | app/src/main/kotlin/com/colisa/podplay/core/database/utils/Converters.kt:24-27 | epoch milliseconds survive a trip through Instant |
| Converters.InstantRoundTrip | app/src/main/kotlin/com/colisa/podplay/core/database/utils/Converters.kt:24-27 | a stored Instant reads back with its sub-millisecond part dropped, and nothing else changed |
| Entities.NewPodcastEntity | app/src/main/kotlin/com/colisa/podplay/core/database/entities/PodcastEntity.kt:30-40 | every column except the id takes its declared default; a new row is not subscribed |
| Entities.PodcastsToDomain | app/src/main/kotlin/com/colisa/podplay/core/database/entities/PodcastEntity.kt:42-55 | one domain podcast per row, in order, with id, collection id, feed URL, title, images and `subscribed` copied |
| Entities.EpisodeToDomainForgetsOwner | app/src/main/kotlin/com/colisa/podplay/core/database/entities/EpisodeEntity.kt:48-56 | two episode rows map to the same domain episode exactly when they differ at most in `podcastId` |
| Database.EmptyDb | app/src/main/kotlin/com/colisa/podplay/core/database/entities/EpisodeEntity.kt:26-37 | the empty database meets every constraint, the foreign key included |
| Daos.GoDatabase.constructor | app/src/main/kotlin/com/colisa/podplay/core/database/entities/EpisodeEntity.kt:26-37 | a new database is empty and meets every constraint |
| PodcastDao.InsertPodcast | app/src/main/kotlin/com/colisa/podplay/core/database/daos/PodcastDao.kt:33-34 | INSERT OR IGNORE: a clash on the id or on collection_id writes nothing and reports -1; otherwise the row is stored and its id reported |
| PodcastDao.UpdatePodcast | app/src/main/kotlin/com/colisa/podplay/core/database/daos/PodcastDao.kt:36-37 | fails with a UNIQUE error exactly when the row exists and another row holds its collection id; otherwise it overwrites the row with that id, if any |
| PodcastDao.GetPodcastSubscription | app/src/main/kotlin/com/colisa/podplay/core/database/daos/PodcastDao.kt:39-40 | the stored flag of the row, or null exactly when there is no such row |
| Daos.GoDatabase.GetPodcastSubscription | app/src/main/kotlin/com/colisa/podplay/core/database/daos/PodcastDao.kt:39-40 | the stored flag of the row, or null exactly when the handle has no row with that id |
| PodcastDao.UpsertPodcastInsertsNew | app/src/main/kotlin/com/colisa/podplay/core/database/daos/PodcastDao.kt:45-52 | a candidate with a new id and a new collection id is inserted at the end of the scan |
| PodcastDao.UpsertPodcastMergesExisting | app/src/main/kotlin/com/colisa/podplay/core/database/daos/PodcastDao.kt:45-52 | a candidate whose id is stored overwrites every column except `subscribed`, which keeps its stored value |
| PodcastDao.UpsertPodcastIgnoresForeignCollectionId | app/src/main/kotlin/com/colisa/podplay/core/database/daos/PodcastDao.kt:47-49 | a candidate with a new id whose collection id another row holds writes nothing |
| PodcastDao.UpsertPodcastRejectsStolenCollectionId | app/src/main/kotlin/com/colisa/podplay/core/database/daos/PodcastDao.kt:45-52 | a stored id that takes another row's collection id throws the UNIQUE error, and the transaction rolls back |
| PodcastDao.UpsertPodcastPreservesOthers | app/src/main/kotlin/com/colisa/podplay/core/database/daos/PodcastDao.kt:45-52 | a successful upsert leaves every other row unchanged and keeps every stored `subscribed` flag |
| PodcastDao.UpsertPodcastIdempotent | app/src/main/kotlin/com/colisa/podplay/core/database/daos/PodcastDao.kt:45-52 | upserting the same candidate twice has the effect of upserting it once |
| PodcastDao.UpsertPodcastValid | app/src/main/kotlin/com/colisa/podplay/core/database/daos/PodcastDao.kt:45-52 | a successful upsert keeps the schema's constraints |
| PodcastDao.InsertPodcastValid | app/src/main/kotlin/com/colisa/podplay/core/database/daos/PodcastDao.kt:33-34 | the insert keeps the schema's constraints |
| Daos.GoDatabase.InsertPodcast | app/src/main/kotlin/com/colisa/podplay/core/database/daos/PodcastDao.kt:33-34 | the statement on the database handle returns the row id (or -1) of `PodcastDao.InsertPodcast`, leaves its tables, and keeps the constraints |
| PodcastDao.UpdatePodcastValid | app/src/main/kotlin/com/colisa/podplay/core/database/daos/PodcastDao.kt:36-37 | a successful update keeps the schema's constraints |
| Daos.GoDatabase.UpdatePodcast | app/src/main/kotlin/com/colisa/podplay/core/database/daos/PodcastDao.kt:36-37 | the statement on the handle throws exactly the UNIQUE error of `PodcastDao.UpdatePodcast`, writes nothing when it throws, and keeps the constraints |
| PodcastDao.DeletePodcast | app/src/main/kotlin/com/colisa/podplay/core/database/daos/PodcastDao.kt:54-55 | reports 1 when the id was stored and 0 otherwise |
| PodcastDao.DeletePodcastCascades | app/src/main/kotlin/com/colisa/podplay/core/database/entities/EpisodeEntity.kt:26-37 | deleting a podcast removes it and exactly its episodes (ON DELETE CASCADE), leaves everything else, and keeps the constraints |
| Daos.GoDatabase.DeletePodcast | app/src/main/kotlin/com/colisa/podplay/core/database/daos/PodcastDao.kt:54-55 | the statement on the handle has the count and the cascading effect of `PodcastDao.DeletePodcast`, and keeps the constraints |
| PodcastDao.GetPodcastByFeedUrl | app/src/main/kotlin/com/colisa/podplay/core/database/daos/PodcastDao.kt:57-58 | a stored row with that feed URL, or null exactly when no row has it |
| PodcastDao.GetPodcastsBySubscription | app/src/main/kotlin/com/colisa/podplay/core/database/daos/PodcastDao.kt:66-67 | exactly the stored rows with that flag, each once |
| PodcastDao.GetPodcastsByCollectionIds | app/src/main/kotlin/com/colisa/podplay/core/database/daos/PodcastDao.kt:69-70 | exactly the stored rows whose collection id is in the list, each once |
| PodcastDao.RankTableLastPositions | app/src/main/kotlin/com/colisa/podplay/core/database/daos/PodcastDao.kt:73-74 | the SparseLongArray maps every truncated id to the last index at which it occurs |
| PodcastDao.GetOrderedPodcasts | app/src/main/kotlin/com/colisa/podplay/core/database/daos/PodcastDao.kt:72-78 | the loop that fills the order table and the sort give the stable sort of the matching rows by rank |
| PodcastDao.OrderedPodcastsSpec | app/src/main/kotlin/com/colisa/podplay/core/database/daos/PodcastDao.kt:72-78 | the ordered result holds exactly the matching rows, each once. It is sorted by rank, stable among equal ranks, and a row's rank is the last index of its truncated collection id |
| PodcastDao.OrderedPodcastsFollowIds | app/src/main/kotlin/com/colisa/podplay/core/database/daos/PodcastDao.kt:72-78 | when truncation to Int is injective on the ids, every row's rank is the index of its own collection id and ranks strictly increase |
| PodcastDao.ToggleSubscription | app/src/main/kotlin/com/colisa/podplay/core/database/daos/PodcastDao.kt:80-81 | the set of stored ids and the other tables are unchanged |
| PodcastDao.ToggleSubscriptionEffect | app/src/main/kotlin/com/colisa/podplay/core/database/daos/PodcastDao.kt:80-81 | the one row's flag is negated and every other row is unchanged |
| PodcastDao.ToggleSubscriptionTwice | app/src/main/kotlin/com/colisa/podplay/core/database/daos/PodcastDao.kt:80-81 | toggling twice restores the database |
| PodcastDao.ToggleSubscriptionValid | app/src/main/kotlin/com/colisa/podplay/core/database/daos/PodcastDao.kt:80-81 | the toggle keeps the constraints |
| Daos.GoDatabase.ToggleSubscription | app/src/main/kotlin/com/colisa/podplay/core/database/daos/PodcastDao.kt:80-81 | the statement on the handle has the effect of `PodcastDao.ToggleSubscription` and keeps the constraints |
| EpisodeDao.InsertEpisodes | app/src/main/kotlin/com/colisa/podplay/core/database/daos/EpisodeDao.kt:33-34 | the batch fails exactly when some episode names a podcast that is not stored, and otherwise touches only the episode table |
| EpisodeDao.InsertEpisodesReplacesByGuid | app/src/main/kotlin/com/colisa/podplay/core/database/daos/EpisodeDao.kt:33-34 | REPLACE by guid: each guid holds the last episode of the batch with it, other rows are unchanged, and no other guid gains a row |
| EpisodeDao.ReplaceAllRows | app/src/main/kotlin/com/colisa/podplay/core/database/daos/EpisodeDao.kt:33-34 | a guid is stored after the batch exactly when it was stored or the batch has it; the batch's last episode with that guid wins, and untouched guids keep their rows |
| EpisodeDao.InsertEpisodesKeepsCount | app/src/main/kotlin/com/colisa/podplay/core/database/daos/EpisodeDao.kt:33-34 | re-inserting stored guids adds no row |
| EpisodeDao.InsertEpisodesValid | app/src/main/kotlin/com/colisa/podplay/core/database/daos/EpisodeDao.kt:33-34 | a successful batch keeps the constraints |
| EpisodeDao.InsertEpisodesTwiceScenario | app/src/main/kotlin/com/colisa/podplay/core/database/daos/EpisodeDao.kt:33-34 | inserting g1, g2 and then new versions of g1, g2 leaves two rows holding the new versions |
| EpisodeDao.UpsertEpisode | app/src/main/kotlin/com/colisa/podplay/core/database/daos/EpisodeDao.kt:30-31 | fails exactly when the episode names a podcast that is not stored |
| EpisodeDao.UpsertEpisodeEffect | app/src/main/kotlin/com/colisa/podplay/core/database/daos/EpisodeDao.kt:30-31 | the guid's row becomes the episode, every other row is unchanged, and the constraints hold |
| Daos.GoDatabase.UpsertEpisode | app/src/main/kotlin/com/colisa/podplay/core/database/daos/EpisodeDao.kt:30-31 | the statement on the handle throws exactly the foreign-key error of `EpisodeDao.UpsertEpisode`, writes nothing when it throws, and keeps the constraints |
| EpisodeDao.GetEpisodes | app/src/main/kotlin/com/colisa/podplay/core/database/daos/EpisodeDao.kt:36-40 | exactly the stored episodes of that podcast, each once |
| SearchResultDao.InsertSearchResult | app/src/main/kotlin/com/colisa/podplay/core/database/daos/PodcastSearchResultDao.kt:27-28 | @Upsert keyed by term: only the search table changes, and only at that term |
| SearchResultDao.GetSearchResult | app/src/main/kotlin/com/colisa/podplay/core/database/daos/PodcastSearchResultDao.kt:30-31 | the entity read from the term's row, or null exactly when the term was never stored |
| SearchResultDao.GetAfterInsert | app/src/main/kotlin/com/colisa/podplay/core/database/daos/PodcastSearchResultDao.kt:27-31 | reading a term just written gives back the entity written, id list included |
| SearchResultDao.InsertLeavesOtherTerms | app/src/main/kotlin/com/colisa/podplay/core/database/daos/PodcastSearchResultDao.kt:27-31 | writing one term leaves every other term's cached result as it was |
| SearchResultDao.SecondInsertReplaces | app/src/main/kotlin/com/colisa/podplay/core/database/daos/PodcastSearchResultDao.kt:27-28 | a second write for a term replaces the first |
| SearchResultDao.InsertSearchResultValid | app/src/main/kotlin/com/colisa/podplay/core/database/daos/PodcastSearchResultDao.kt:27-28 | the table stays keyed by term |
| SearchResultDao.FromRowToRow | app/src/main/kotlin/com/colisa/podplay/core/database/utils/Converters.kt:32-48 | an entity written to its row reads back unchanged through the CSV column |
| SearchResultDao.InsertIdempotent | app/src/main/kotlin/com/colisa/podplay/core/database/daos/PodcastSearchResultDao.kt:27-28 | writing the same search twice has the effect of writing it once |
| SearchResultDao.NothingCachedInitially | app/src/main/kotlin/com/colisa/podplay/core/database/daos/PodcastSearchResultDao.kt:30-31 | a new database has no cached search for any term |
| Daos.GoDatabase.InsertSearchResult | app/src/main/kotlin/com/colisa/podplay/core/database/daos/PodcastSearchResultDao.kt:27-28 | the statement on the handle has the effect of `SearchResultDao.InsertSearchResult` and keeps the constraints |
| Daos.GoDatabase.UpsertPodcast | app/src/main/kotlin/com/colisa/podplay/core/database/daos/PodcastDao.kt:45-52 | the transaction runs statement by statement, with rollback on a throw, and has exactly the effect and the exception of `PodcastDao.UpsertPodcast` |
| Daos.GoDatabase.InsertEpisodes | app/src/main/kotlin/com/colisa/podplay/core/database/daos/EpisodeDao.kt:33-34 | the per-episode REPLACE loop, rolled back at the first dangling episode, has exactly the effect of `EpisodeDao.InsertEpisodes` and keeps the constraints |
| ItunesModels.AsPodcastEntities | app/src/main/kotlin/com/colisa/podplay/core/network/models/ItunesPodcastSearchResponse.kt:37-39 | an empty response gives no rows |
| ItunesModels.AsPodcastEntitiesMatchesHits | app/src/main/kotlin/com/colisa/podplay/core/network/models/ItunesPodcastSearchResponse.kt:37-55 | one row per hit with a feed URL, in order, carrying that hit's collection id, URL, name, artwork and date, with an empty description, not subscribed |
| ItunesModels.FeedEntitiesMatchHits | app/src/main/kotlin/com/colisa/podplay/core/network/models/ItunesPodcastSearchResponse.kt:42-54 | filter-then-map in one pass: the k-th row is built from the k-th hit with a feed URL |
| ItunesModels.FeedEntitiesAppend | app/src/main/kotlin/com/colisa/podplay/core/network/models/ItunesPodcastSearchResponse.kt:41-54 | each hit's row depends on that hit alone |
| NetworkBoundResource.Collect | app/src/main/kotlin/com/colisa/podplay/core/network/utils/NetworkBoundResource.kt:29-49 | the flow body with its `emitAll` loop emits, calls and leaves exactly what `Synchronise` describes |
| NetworkBoundResource.NoFetchWhenFresh | app/src/main/kotlin/com/colisa/podplay/core/network/utils/NetworkBoundResource.kt:44-45 | when shouldFetch says no: no Loading, no fetch, no save, and only Success emissions of the local data |
| NetworkBoundResource.LoadingCarriesFirstRead | app/src/main/kotlin/com/colisa/podplay/core/network/utils/NetworkBoundResource.kt:30-36 | when shouldFetch says yes, the first emission is Loading of the first local read, and fetch runs |
| NetworkBoundResource.LoadingOnlyFirst | app/src/main/kotlin/com/colisa/podplay/core/network/utils/NetworkBoundResource.kt:32-48 | Loading is emitted at most once, and only first |
| NetworkBoundResource.SavesOnlyFetchedValue | app/src/main/kotlin/com/colisa/podplay/core/network/utils/NetworkBoundResource.kt:35-42 | the save receives exactly what fetch returned, is skipped when fetch throws, and is the only way the store changes |
| NetworkBoundResource.FailureIsTerminal | app/src/main/kotlin/com/colisa/podplay/core/network/utils/NetworkBoundResource.kt:41-42 | after a throwing fetch or save, every later emission is an Error with that cause, carrying reads of the store as the failed fetch (unchanged) or the failed save left it |
| NetworkBoundResource.SuccessAfterSave | app/src/main/kotlin/com/colisa/podplay/core/network/utils/NetworkBoundResource.kt:36-40 | after a successful fetch and save, the later emissions are Success of reads of the saved store |
| NetworkBoundResource.DefaultAlwaysFetches | app/src/main/kotlin/com/colisa/podplay/core/network/utils/NetworkBoundResource.kt:28 | with the default shouldFetch, every collection starts with Loading and fetches |
| PodcastsRepository.SearchEntity | app/src/main/kotlin/com/colisa/podplay/core/data/repositories/impl/PodcastsRepoImpl.kt:70-71 | the search row holds the term, the collection id of every hit in response order, and the reported count |
| PodcastsRepository.PodcastsRepo.constructor | app/src/main/kotlin/com/colisa/podplay/core/data/repositories/impl/PodcastsRepoImpl.kt:50-58 | the repository works on the database handle it is given |
| PodcastsRepository.PodcastsRepo.SaveFetchResult | app/src/main/kotlin/com/colisa/podplay/core/data/repositories/impl/PodcastsRepoImpl.kt:69-77 | the upsert loop plus the search-row write, rolled back on the first throw, has exactly the effect and the exception of the transaction `SaveSearch` |
| PodcastsRepository.UpsertAllStopsAtThrow | app/src/main/kotlin/com/colisa/podplay/core/data/repositories/impl/PodcastsRepoImpl.kt:74 | once an upsert throws, no later upsert runs |
| PodcastsRepository.UpsertAllKeepsSubscriptions | app/src/main/kotlin/com/colisa/podplay/core/data/repositories/impl/PodcastsRepoImpl.kt:74 | saving search hits never drops a stored podcast or changes its `subscribed` flag |
| PodcastsRepository.UpsertAllValid | app/src/main/kotlin/com/colisa/podplay/core/data/repositories/impl/PodcastsRepoImpl.kt:74 | a run of upserts that all succeed keeps the constraints |
| PodcastsRepository.SaveSearchValid | app/src/main/kotlin/com/colisa/podplay/core/data/repositories/impl/PodcastsRepoImpl.kt:69-77 | a successful save keeps the constraints |
| PodcastsRepository.SaveSearchWritesRow | app/src/main/kotlin/com/colisa/podplay/core/data/repositories/impl/PodcastsRepoImpl.kt:69-77 | after a save the term reads back as every hit's id with the count, and every stored podcast keeps its flag |
| PodcastsRepository.SearchAlwaysLoadsFirst | app/src/main/kotlin/com/colisa/podplay/core/data/repositories/impl/PodcastsRepoImpl.kt:62-78 | a search always fetches, and first emits Loading of the cached read |
| PodcastsRepository.SearchSaveAllOrNothing | app/src/main/kotlin/com/colisa/podplay/core/data/repositories/impl/PodcastsRepoImpl.kt:60-79 | a throwing save leaves the store as it was, and every later emission is an Error with that cause. A successful save ends with one Success of the re-read store |
| PodcastsRepository.SearchReadSpec | app/src/main/kotlin/com/colisa/podplay/core/data/repositories/impl/PodcastsRepoImpl.kt:62-65 | the cached read is empty for an unknown term, and otherwise is exactly the stored podcasts whose collection id the search row lists |
| PodcastsRepository.ThreeHitsOneWithoutFeed | app/src/main/kotlin/com/colisa/podplay/core/data/repositories/impl/PodcastsRepoImpl.kt:69-77 | three hits with one lacking a feed URL store two podcasts and a search row with all three ids and count 3 |
| PodcastsRepository.GetPodcastsIgnoresArgument | app/src/main/kotlin/com/colisa/podplay/core/data/repositories/impl/PodcastsRepoImpl.kt:81-83 | as written, `getPodcasts(false)` equals `getPodcasts(true)` |
| PodcastsRepository.GetPodcastsUnsubscribedCounterexample | app/src/main/kotlin/com/colisa/podplay/core/data/repositories/impl/PodcastsRepoImpl.kt:81-83 | with one unsubscribed podcast stored, `getPodcasts(false)` as written returns nothing, and the corrected read returns it |
| PodcastsRepository.GetPodcastsBySubscription | app/src/main/kotlin/com/colisa/podplay/core/data/repositories/impl/PodcastsRepoImpl.kt:81-83 | the corrected read returns only podcasts with the requested flag, and every stored podcast with it |
| PodcastsRepository.PodcastsRepo.ToggleSubscription | app/src/main/kotlin/com/colisa/podplay/core/data/repositories/impl/PodcastsRepoImpl.kt:99-101 | delegates to the DAO toggle, keeping the constraints |
| PodcastsRepository.RepoToggleTwice | app/src/main/kotlin/com/colisa/podplay/core/data/repositories/impl/PodcastsRepoImpl.kt:99-101 | toggling twice restores the database |
| EpisodesFeedMediator.RefreshFeed | app/src/main/kotlin/com/colisa/podplay/core/data/mediators/EpisodesFeedMediator.kt:55-65 | an Error leaves the tables as they were; a Success ends pagination |
| EpisodesFeedMediator.LoadResult | app/src/main/kotlin/com/colisa/podplay/core/data/mediators/EpisodesFeedMediator.kt:39-66 | the feed is fetched exactly for REFRESH, or when no item has been loaded; an Error writes nothing |
| EpisodesFeedMediator.FeedMediator.constructor | app/src/main/kotlin/com/colisa/podplay/core/data/mediators/EpisodesFeedMediator.kt:30-36 | the mediator is bound to one database handle and one feed URL |
| EpisodesFeedMediator.FeedMediator.Load | app/src/main/kotlin/com/colisa/podplay/core/data/mediators/EpisodesFeedMediator.kt:39-66 | the method, statement by statement with rollback, has exactly the result, tables and fetch of `LoadResult`, and keeps the constraints |
| EpisodesFeedMediator.EverySuccessEndsPagination | app/src/main/kotlin/com/colisa/podplay/core/data/mediators/EpisodesFeedMediator.kt:50-62 | every Success has `endOfPaginationReached = true` |
| EpisodesFeedMediator.PagingWithLastItemDoesNothing | app/src/main/kotlin/com/colisa/podplay/core/data/mediators/EpisodesFeedMediator.kt:43-51 | PREPEND or APPEND with a last item returns Success(true) without fetching or writing |
| EpisodesFeedMediator.PagingWithoutLastItemRefreshes | app/src/main/kotlin/com/colisa/podplay/core/data/mediators/EpisodesFeedMediator.kt:42-48 | PREPEND or APPEND with no last item behaves exactly like REFRESH |
| EpisodesFeedMediator.FetchFailureIsReported | app/src/main/kotlin/com/colisa/podplay/core/data/mediators/EpisodesFeedMediator.kt:55-65 | a failed fetch is returned as Error with its cause, and nothing is written |
| EpisodesFeedMediator.MissingPodcastIsError | app/src/main/kotlin/com/colisa/podplay/core/data/mediators/EpisodesFeedMediator.kt:57-65 | when no stored podcast has the feed URL, the load returns Error and writes nothing |
| EpisodesFeedMediator.RefreshStoresDescriptionAndEpisodes | app/src/main/kotlin/com/colisa/podplay/core/data/mediators/EpisodesFeedMediator.kt:57-61 | the refresh fails exactly when an episode names a podcast that is not stored, and then writes nothing. On success the row's description becomes the feed's; every other column (`subscribed` included) and every other row stay as they were; episodes are replaced by guid |
| EpisodesFeedMediator.RefreshAttachesEpisodes | app/src/main/kotlin/com/colisa/podplay/core/data/mediators/EpisodesFeedMediator.kt:60 | episodes built for the stored row's id are always accepted and stored under that id, and the constraints hold |
| PodcastsViewModel.TrimFacts | app/src/main/kotlin/com/colisa/podplay/feaure/podcasts/PodcastsViewModel.kt:79-87 | `trim()` cuts exactly the leading and trailing whitespace; the result is empty exactly for blank text, and trimming again changes nothing |
| PodcastsViewModel.SearchQueryBlank | app/src/main/kotlin/com/colisa/podplay/feaure/podcasts/PodcastsViewModel.kt:87-88 | the trimmed, lowercased query is blank exactly when the typed text is |
| PodcastsViewModel.Lowercase | app/src/main/kotlin/com/colisa/podplay/feaure/podcasts/PodcastsViewModel.kt:87 | same length; no ASCII upper-case letter is left; every other character is kept |
| PodcastsViewModel.SearchTerm | app/src/main/kotlin/com/colisa/podplay/feaure/podcasts/PodcastsViewModel.kt:87-88 | no search for blank text; otherwise the term is the non-empty trimmed, lowercased query |
| PodcastsViewModel.ViewModel.constructor | app/src/main/kotlin/com/colisa/podplay/feaure/podcasts/PodcastsViewModel.kt:39-49 | initial state: empty query, no results, not loading, SUBSCRIBED mode, no search job |
| PodcastsViewModel.ViewModel.UiState | app/src/main/kotlin/com/colisa/podplay/feaure/podcasts/PodcastsViewModel.kt:52-66 | the screen shows the search results in SEARCH mode and the subscribed list in SUBSCRIBED mode, with the current flags |
| PodcastsViewModel.ViewModel.OnSearchQueryChange | app/src/main/kotlin/com/colisa/podplay/feaure/podcasts/PodcastsViewModel.kt:78-84 | always stores the text; cancels the search and clears the results exactly when the text is blank and a search is running |
| PodcastsViewModel.ViewModel.OnSearch | app/src/main/kotlin/com/colisa/podplay/feaure/podcasts/PodcastsViewModel.kt:86-120 | blank text changes nothing. Otherwise it searches for the trimmed, lowercased query and leaves the state that collecting the emitted resources in order produces |
| PodcastsViewModel.ViewModel.HandleResponse | app/src/main/kotlin/com/colisa/podplay/feaure/podcasts/PodcastsViewModel.kt:92-117 | the collector's reaction to one resource, field by field |
| PodcastsViewModel.ViewModel.OnSearchActivated | app/src/main/kotlin/com/colisa/podplay/feaure/podcasts/PodcastsViewModel.kt:122-124 | SEARCH mode exactly when activated; nothing else changes |
| PodcastsViewModel.LoadingResponse | app/src/main/kotlin/com/colisa/podplay/feaure/podcasts/PodcastsViewModel.kt:95-101 | Loading with podcasts shows them and stops loading; Loading with none starts loading and keeps the results |
| PodcastsViewModel.ErrorResponse | app/src/main/kotlin/com/colisa/podplay/feaure/podcasts/PodcastsViewModel.kt:104-107 | Error stops loading, raises SERVICE_ERROR and keeps the results |
| PodcastsViewModel.SuccessResponse | app/src/main/kotlin/com/colisa/podplay/feaure/podcasts/PodcastsViewModel.kt:109-116 | Success stops loading; with podcasts it shows them, and with none it raises EMPTY_RESPONSE and keeps the results |
| PodcastsViewModel.LoadingFollowsLastResponse | app/src/main/kotlin/com/colisa/podplay/feaure/podcasts/PodcastsViewModel.kt:92-117 | after a search, the screen is loading exactly when the last resource was a Loading without podcasts |
| PodcastsViewModel.ResultsOfLatestShowingResponse | app/src/main/kotlin/com/colisa/podplay/feaure/podcasts/PodcastsViewModel.kt:92-117 | the results shown are those of the last non-Error resource that carried podcasts, or the earlier results if there was none |
| PodcastsViewModel.ToastsOnePerFailure | app/src/main/kotlin/com/colisa/podplay/feaure/podcasts/PodcastsViewModel.kt:104-116 | SERVICE_ERROR for each Error and EMPTY_RESPONSE for each Success without podcasts, in the order of the resources, appended after the toasts already raised |
| PodcastsViewModel.FreshSearchShowsFetchedPodcasts | app/src/main/kotlin/com/colisa/podplay/feaure/podcasts/PodcastsViewModel.kt:95-116 | an empty Loading followed by a Success with podcasts shows them, stops loading and raises no toast |

## Left out

- Concurrency, coroutine dispatchers and live `Flow` updates are not modelled. One collection of a database query is a finite sequence of reads, and `first()` is its first read.
- I/O is not modelled. The iTunes and RSS fetches are inputs (a result or a thrown exception).
- The search flow reads the cache once per collection (`SearchStream`). Re-emissions caused by later writes are not modelled.
- `Resource` data is always present in the repository's flow. The view model accepts absent data, as `isNullOrEmpty` allows.
- Scan order without ORDER BY is unspecified in SQL. The model fixes one order: insertion order, with an UPDATE in place and a REPLACE moving the row to the end.
- `PodcastEntity.toDomain` and `EpisodeEntity.toDomain` take the HTML-to-text and date-parsing conversions as parameters. Those platform functions are not part of this model.
- `asEpisodeEntities` and `newUid` are not part of this model. The mediator takes the feed-to-episodes conversion as a parameter.
- The `id = null` that `asPodcastEntities` passes is replaced by a caller-supplied id for each hit.
- `getPodcastWithEpisodes`, `getPodcast(id)` and `requirePodcast` are not modelled. They are plain reads outside the synchronisation paths.
- Paging of `getEpisodesPaged` is not modelled. It is modelled as the same rows as `getEpisodes`.
- `uiState`'s `.catch` branch, `stateIn` and its initial `Loading` value are not modelled. `UiState` gives the `Success` state the combination produces.
- The toast handler is assumed present. Raised messages are recorded in order.
- PodcastsViewModel.Lowercase: only ASCII letters are lowered. Kotlin's `lowercase()` also maps other Unicode letters.
- Converters.ParseLong: only ASCII digits are accepted. `Long.parseLong` also accepts other Unicode decimal digits.
- Converters.InstantToLong: requires that the instant's epoch milliseconds fit in a Long. Outside that range `toEpochMilli` throws ArithmeticException, and this case is not modelled.

## Findings

| source | as written | input that shows it | evidently intended | confidence | as-written member | corrected member |
|---|---|---|---|---|---|---|
| app/src/main/kotlin/com/colisa/podplay/core/data/repositories/impl/PodcastsRepoImpl.kt:81-83 | `getPodcasts(subscribed)` always asks the DAO for `getPodcasts(true)` and ignores its argument | one stored podcast with `subscribed = false`; `getPodcasts(false)` returns an empty list | pass `subscribed` on to the DAO | not executed | PodcastsRepository.GetPodcastsUnsubscribedCounterexample | PodcastsRepository.GetPodcastsBySubscription |
