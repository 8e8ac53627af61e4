/** PodcastSearchResultDao: one cached row per search term. The id list is stored as
    the text CsvListConverter produces and read back through it. */
module SearchResultDao {
  import opened Common
  import opened Entities
  import opened Database
  import Converters
  import Tables

  /** The row Room writes for an entity (listToCsv on the id list). */
  function ToRow(e: PodcastSearchResultEntity): SearchResultRow {
    SearchResultRow(e.term, Converters.ListToCsv(Some(e.collectionIds)).value, e.count)
  }

  /** The entity Room reads from a row (csvToList on the id column). */
  function FromRow(row: SearchResultRow): PodcastSearchResultEntity {
    PodcastSearchResultEntity(row.term, Converters.CsvToList(Some(row.collectionIds)).value, row.count)
  }

  /** Reading back a written row gives the entity that was written. */
  lemma FromRowToRow(e: PodcastSearchResultEntity)
    ensures FromRow(ToRow(e)) == e
  {
    Converters.CsvRoundTrip(e.collectionIds);
  }

  /** insertSearchResult, @Upsert keyed by term: inserts the row for a new term and
      overwrites the row of a stored one in place. */
  function InsertSearchResult(db: Db, e: PodcastSearchResultEntity): (r: Db)
    ensures r.podcasts == db.podcasts && r.episodes == db.episodes
    ensures r.searchResults.rows == db.searchResults.rows[e.term := ToRow(e)]
  {
    db.(searchResults := Tables.Put(db.searchResults, e.term, ToRow(e)))
  }

  /** getSearchResult: the row for the term, absent (null) when none was stored. */
  function GetSearchResult(db: Db, term: string): (r: Option<PodcastSearchResultEntity>)
    ensures r.Some? <==> term in db.searchResults.rows
    ensures r.Some? ==> r.value == FromRow(db.searchResults.rows[term])
  {
    match Tables.Get(db.searchResults, term)
    case None => None
    case Some(row) => Some(FromRow(row))
  }

  // ---------------------------------------------------------------------------
  // Properties
  // ---------------------------------------------------------------------------

  /** Reading the term just written gives back the entity, id list included. */
  lemma GetAfterInsert(db: Db, e: PodcastSearchResultEntity)
    ensures GetSearchResult(InsertSearchResult(db, e), e.term) == Some(e)
  {
    FromRowToRow(e);
  }

  /** Writing one term leaves the cached result of every other term as it was. */
  lemma InsertLeavesOtherTerms(db: Db, e: PodcastSearchResultEntity, term: string)
    requires term != e.term
    ensures GetSearchResult(InsertSearchResult(db, e), term) == GetSearchResult(db, term)
  {
  }

  /** A second write for the same term replaces the first: the table is as if only
      the second had been written. */
  lemma SecondInsertReplaces(db: Db, first: PodcastSearchResultEntity, second: PodcastSearchResultEntity)
    requires first.term == second.term
    ensures InsertSearchResult(InsertSearchResult(db, first), second) == InsertSearchResult(db, second)
  {
    var rows := db.searchResults.rows;
    assert rows[first.term := ToRow(first)][second.term := ToRow(second)] == rows[second.term := ToRow(second)];
  }

  /** Writing the same entity twice is the same as writing it once. */
  lemma InsertIdempotent(db: Db, e: PodcastSearchResultEntity)
    ensures InsertSearchResult(InsertSearchResult(db, e), e) == InsertSearchResult(db, e)
  {
    SecondInsertReplaces(db, e, e);
  }

  /** The table stays keyed by term: at most one row per term. */
  lemma InsertSearchResultValid(db: Db, e: PodcastSearchResultEntity)
    requires Valid(db)
    ensures Valid(InsertSearchResult(db, e))
  {
    Tables.PutWellFormed(db.searchResults, e.term, ToRow(e));
  }

  /** On a fresh database no term has a cached result. */
  lemma NothingCachedInitially(term: string)
    ensures GetSearchResult(EmptyDb(), term) == None
  {
  }
}
