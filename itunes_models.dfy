/** The iTunes search response and its conversion into podcast rows. */
module ItunesModels {
  import opened Common
  import opened Entities

  /** One search hit; a hit without a feed URL cannot be subscribed to. */
  datatype NetworkItunesPodcast = NetworkItunesPodcast(
    collectionId: Long,
    collectionName: string,
    feedUrl: Option<string>,
    artworkUrl100: string,
    artworkUrl600: string,
    releaseDate: string)

  datatype ItunesPodcastSearchResponse = ItunesPodcastSearchResponse(resultCount: Int32, results: seq<NetworkItunesPodcast>)

  predicate HasFeedUrl(x: NetworkItunesPodcast) {
    x.feedUrl.Some?
  }

  /** The row built for a hit with feed URL `feedUrl`: description empty, every
      other column not taken from the hit at its default. */
  function ToPodcastEntity(x: NetworkItunesPodcast, feedUrl: string, id: Long): PodcastEntity {
    NewPodcastEntity(id).(
      collectionId := x.collectionId,
      feedUrl := feedUrl,
      feedTitle := x.collectionName,
      feedDescription := "",
      imageUrl := x.artworkUrl100,
      imageUrl600 := x.artworkUrl600,
      releaseDate := x.releaseDate)
  }

  /** `filter { it.feedUrl != null }.map { PodcastEntity(...) }` in one pass. */
  function FeedEntities(results: seq<NetworkItunesPodcast>, assignId: NetworkItunesPodcast -> Long): seq<PodcastEntity> {
    if results == [] then []
    else
      (match results[0].feedUrl
       case None => []
       case Some(url) => [ToPodcastEntity(results[0], url, assignId(results[0]))])
      + FeedEntities(results[1..], assignId)
  }

  /** asPodcastEntities. The source passes id = null for a key the database never
      generates, so the id of each row is whatever `assignId` gives its hit. */
  function AsPodcastEntities(response: ItunesPodcastSearchResponse, assignId: NetworkItunesPodcast -> Long): (r: seq<PodcastEntity>)
    ensures response.results == [] ==> r == []
  {
    if response.results == [] then [] else FeedEntities(response.results, assignId)
  }

  /** `e` is the row for hit `x` with id `id`: the hit's collection id, feed URL,
      name, artwork and release date; an empty description; not subscribed. */
  ghost predicate EntityOfHit(e: PodcastEntity, x: NetworkItunesPodcast, id: Long) {
    && x.feedUrl == Some(e.feedUrl)
    && e.id == id
    && e.collectionId == x.collectionId
    && e.feedTitle == x.collectionName
    && e.feedDescription == ""
    && e.imageUrl == x.artworkUrl100
    && e.imageUrl600 == x.artworkUrl600
    && e.releaseDate == x.releaseDate
    && !e.subscribed
  }

  /** The rows correspond one to one, in order, to the hits that have a feed URL;
      `resultCount` plays no part. */
  lemma {:induction false} AsPodcastEntitiesMatchesHits(response: ItunesPodcastSearchResponse, assignId: NetworkItunesPodcast -> Long)
    ensures var r, hits := AsPodcastEntities(response, assignId), Filter(response.results, HasFeedUrl);
      && |r| == |hits| <= |response.results|
      && forall k :: 0 <= k < |r| ==> EntityOfHit(r[k], hits[k], assignId(hits[k]))
  {
    FeedEntitiesMatchHits(response.results, assignId);
  }

  lemma {:induction false} FeedEntitiesMatchHits(results: seq<NetworkItunesPodcast>, assignId: NetworkItunesPodcast -> Long)
    ensures var r, hits := FeedEntities(results, assignId), Filter(results, HasFeedUrl);
      && |r| == |hits| <= |results|
      && forall k :: 0 <= k < |r| ==> EntityOfHit(r[k], hits[k], assignId(hits[k]))
  {
    if results != [] {
      FeedEntitiesMatchHits(results[1..], assignId);
      var rest, restHits := FeedEntities(results[1..], assignId), Filter(results[1..], HasFeedUrl);
      var x := results[0];
      if x.feedUrl.Some? {
        var r, hits := FeedEntities(results, assignId), Filter(results, HasFeedUrl);
        assert r == [ToPodcastEntity(x, x.feedUrl.value, assignId(x))] + rest;
        assert hits == [x] + restHits;
        forall k | 0 <= k < |r| ensures EntityOfHit(r[k], hits[k], assignId(hits[k])) {
          if k > 0 {
            assert r[k] == rest[k - 1] && hits[k] == restHits[k - 1];
          }
        }
      } else {
        assert FeedEntities(results, assignId) == [] + rest;
        assert Filter(results, HasFeedUrl) == [] + restHits;
      }
    }
  }

  /** Each hit's row depends on that hit alone: converting the hits in two parts
      gives the two parts' rows, in order. */
  lemma {:induction false} FeedEntitiesAppend(a: seq<NetworkItunesPodcast>, b: seq<NetworkItunesPodcast>, assignId: NetworkItunesPodcast -> Long)
    ensures FeedEntities(a + b, assignId) == FeedEntities(a, assignId) + FeedEntities(b, assignId)
  {
    if a == [] {
      assert a + b == b;
    } else {
      assert (a + b)[0] == a[0];
      assert (a + b)[1..] == a[1..] + b;
      FeedEntitiesAppend(a[1..], b, assignId);
    }
  }
}
