/** Rows of the podcasts, episodes and search-results tables, the domain values the
    rest of the app sees, and the conversions between them. */
module Entities {
  import opened Common

  // ---------------------------------------------------------------------------
  // podcasts
  // ---------------------------------------------------------------------------

  /** A row of `podcasts`. `id` is the primary key and is never generated by the
      database; `collection_id` is unique across rows. */
  datatype PodcastEntity = PodcastEntity(
    id: Long,
    collectionId: Long,
    feedUrl: string,
    feedTitle: string,
    feedDescription: string,
    imageUrl: string,
    imageUrl600: string,
    releaseDate: string,
    subscribed: bool)

  /** PodcastEntity(id = id) with every other column at its declared default. */
  function NewPodcastEntity(id: Long): (e: PodcastEntity)
    ensures e.id == id && !e.subscribed && e.collectionId == 0
    ensures e.feedUrl == e.feedTitle == e.feedDescription == e.imageUrl == e.imageUrl600 == e.releaseDate == ""
  {
    PodcastEntity(id, 0, "", "", "", "", "", "", false)
  }

  datatype LocalDateTime = LocalDateTime(year: int, month: int, day: int, hour: int, minute: int, second: int)

  datatype Episode = Episode(
    guid: string,
    title: string,
    description: string,
    mediaUrl: string,
    releaseDate: string,
    duration: string)

  /** The domain podcast. */
  datatype Podcast = Podcast(
    id: Long,
    collectionId: Long,
    feedUrl: string,
    feedTitle: string,
    feedDescription: string,
    imageUrl: string,
    imageUrl600: string,
    releaseDate: LocalDateTime,
    subscribed: bool,
    episodes: seq<Episode>)

  /** The two platform conversions toDomain relies on: HTML to plain text
      (htmlToSpannable(..).toString()) and date parsing (toLocalDateTime). */
  datatype DomainMapping = DomainMapping(htmlToText: string -> string, toLocalDateTime: string -> LocalDateTime)

  /** PodcastEntity.toDomain. */
  function PodcastToDomain(e: PodcastEntity, m: DomainMapping): Podcast {
    Podcast(e.id, e.collectionId, e.feedUrl, e.feedTitle, m.htmlToText(e.feedDescription),
            e.imageUrl, e.imageUrl600, m.toLocalDateTime(e.releaseDate), e.subscribed, [])
  }

  /** List<PodcastEntity>.toDomain: one podcast per row, in row order, with the
      identifying, URL, title and subscription fields copied unchanged. */
  function PodcastsToDomain(es: seq<PodcastEntity>, m: DomainMapping): (r: seq<Podcast>)
    ensures |r| == |es|
    ensures forall i :: 0 <= i < |es| ==>
      && r[i].id == es[i].id
      && r[i].collectionId == es[i].collectionId
      && r[i].feedUrl == es[i].feedUrl
      && r[i].feedTitle == es[i].feedTitle
      && r[i].imageUrl == es[i].imageUrl
      && r[i].imageUrl600 == es[i].imageUrl600
      && r[i].subscribed == es[i].subscribed
      && r[i].episodes == []
  {
    if es == [] then [] else [PodcastToDomain(es[0], m)] + PodcastsToDomain(es[1..], m)
  }

  // ---------------------------------------------------------------------------
  // episodes
  // ---------------------------------------------------------------------------

  /** A row of `episodes`: primary key `guid`; `podcast_id` references
      `podcasts.id` (null allowed) with ON DELETE CASCADE. */
  datatype EpisodeEntity = EpisodeEntity(
    guid: string,
    podcastId: Option<Long>,
    title: string,
    description: string,
    mediaUrl: string,
    releaseDate: string,
    duration: string)

  /** EpisodeEntity.toDomain. */
  function EpisodeToDomain(e: EpisodeEntity): Episode {
    Episode(e.guid, e.title, e.description, e.mediaUrl, e.releaseDate, e.duration)
  }

  /** toDomain forgets the owning podcast and nothing else: two rows give the same
      episode exactly when they differ at most in `podcastId`. */
  lemma EpisodeToDomainForgetsOwner(a: EpisodeEntity, b: EpisodeEntity)
    ensures EpisodeToDomain(a) == EpisodeToDomain(b) <==> a.(podcastId := b.podcastId) == b
  {
  }

  // ---------------------------------------------------------------------------
  // search results
  // ---------------------------------------------------------------------------

  /** A cached search: the term, the collection ids of every result in response
      order, and the result count the directory reported. */
  datatype PodcastSearchResultEntity = PodcastSearchResultEntity(term: string, collectionIds: seq<Long>, count: Int32)
}
