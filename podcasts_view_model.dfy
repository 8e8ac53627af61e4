/** PodcastsViewModel: the search screen's state. The query text, the search
    results, the loading flag and the screen mode are fields the handlers update in
    place; a search collects the repository's resources one by one into them.

    The resources a search collects are an input (the emissions of
    searchPodcasts for the query), and so is the subscribed list the screen shows
    in SUBSCRIBED mode. Messages passed to the toast handler are recorded in
    order. */
module PodcastsViewModel {
  import opened Common
  import opened Entities
  import NBR = NetworkBoundResource

  datatype UiMode = Search | Subscribed

  datatype ToastMessage = ServiceError | EmptyResponse

  datatype PodcastsUiState = Loading | Error | Success(isLoading: bool, podcasts: seq<Podcast>, mode: UiMode)

  /** A resource from searchPodcasts; its data may be absent. */
  type Response = NBR.Resource<Option<seq<Podcast>>>

  // ---------------------------------------------------------------------------
  // Text
  // ---------------------------------------------------------------------------

  /** Kotlin's Char.isWhitespace: the Java whitespace characters and the Unicode
      space, line and paragraph separators. */
  predicate IsWhitespace(c: char) {
    || c == ' ' || '\t' <= c <= '\r' || '\U{1C}' <= c <= '\U{1F}'
    || c == '\U{A0}' || c == '\U{1680}' || '\U{2000}' <= c <= '\U{200A}'
    || c == '\U{2028}' || c == '\U{2029}' || c == '\U{202F}' || c == '\U{205F}' || c == '\U{3000}'
  }

  /** isBlank: every character is whitespace. */
  predicate IsBlank(s: string) {
    forall i :: 0 <= i < |s| ==> IsWhitespace(s[i])
  }

  /** The index of the first character at or after `i` that is not whitespace
      (|s| when there is none). */
  function TrimStartIndex(s: string, i: nat): (n: nat)
    requires i <= |s|
    ensures i <= n <= |s|
    ensures forall k :: i <= k < n ==> IsWhitespace(s[k])
    ensures n == |s| || !IsWhitespace(s[n])
    decreases |s| - i
  {
    if i == |s| || !IsWhitespace(s[i]) then i else TrimStartIndex(s, i + 1)
  }

  /** The end of `s[lo..j]` once its trailing whitespace is cut. */
  function TrimEndIndex(s: string, lo: nat, j: nat): (n: nat)
    requires lo <= j <= |s|
    ensures lo <= n <= j
    ensures forall k :: n <= k < j ==> IsWhitespace(s[k])
    ensures n == lo || !IsWhitespace(s[n - 1])
    decreases j - lo
  {
    if j == lo || !IsWhitespace(s[j - 1]) then j else TrimEndIndex(s, lo, j - 1)
  }

  /** String.trim(). */
  function Trim(s: string): string {
    var start := TrimStartIndex(s, 0);
    s[start..TrimEndIndex(s, start, |s|)]
  }

  /** String.lowercase() on ASCII letters; every other character is kept. */
  function Lowercase(s: string): (r: string)
    ensures |r| == |s|
    ensures forall i :: 0 <= i < |s| ==> !('A' <= r[i] <= 'Z')
    ensures forall i :: 0 <= i < |s| ==> ('A' <= s[i] <= 'Z' || r[i] == s[i])
  {
    seq(|s|, i requires 0 <= i < |s| => if 'A' <= s[i] <= 'Z' then (s[i] as int + 32) as char else s[i])
  }

  /** The trimmed text is a slice of the input that neither starts nor ends with
      whitespace, and everything cut off is whitespace; it is empty exactly when the
      input is blank; trimming it again changes nothing. */
  lemma TrimFacts(s: string)
    ensures var r := Trim(s);
      && (exists i, j :: 0 <= i <= j <= |s| && r == s[i..j] && IsBlank(s[..i]) && IsBlank(s[j..]))
      && (r == [] || (!IsWhitespace(r[0]) && !IsWhitespace(r[|r| - 1])))
      && (r == [] <==> IsBlank(s))
      && Trim(r) == r
  {
    var i := TrimStartIndex(s, 0);
    var j := TrimEndIndex(s, i, |s|);
    var r := s[i..j];
    assert IsBlank(s[..i]) && IsBlank(s[j..]);
    if r == [] {
      assert i == |s|;
    } else {
      assert r[0] == s[i] && r[|r| - 1] == s[j - 1];
      assert TrimStartIndex(r, 0) == 0;
      assert TrimEndIndex(r, 0, |r|) == |r|;
      assert r[0..|r|] == r;
    }
  }

  /** The query onSearch uses is blank exactly when the typed text is. */
  lemma SearchQueryBlank(s: string)
    ensures IsBlank(Lowercase(Trim(s))) <==> IsBlank(s)
  {
    TrimFacts(s);
    var r := Trim(s);
    if r != [] {
      LowercaseKeepsNonWhitespace(r[0], Lowercase(r)[0]);
    }
  }

  lemma LowercaseKeepsNonWhitespace(c: char, l: char)
    requires !IsWhitespace(c) && ('A' <= c <= 'Z' || l == c) && !('A' <= l <= 'Z')
    requires 'A' <= c <= 'Z' ==> l as int == c as int + 32
    ensures !IsWhitespace(l)
  {
  }

  /** The term onSearch searches for: the trimmed, lowercased query, or none when
      that is blank. */
  function SearchTerm(query: string): (r: Option<string>)
    ensures r.None? <==> IsBlank(query)
    ensures r.Some? ==> r.value == Lowercase(Trim(query)) && r.value != []
  {
    SearchQueryBlank(query);
    var term := Lowercase(Trim(query));
    if IsBlank(term) then None else Some(term)
  }

  // ---------------------------------------------------------------------------
  // Responses
  // ---------------------------------------------------------------------------

  /** The part of the state a search writes. */
  datatype SearchView = SearchView(results: seq<Podcast>, isLoading: bool, toasts: seq<ToastMessage>)

  /** `!podcasts.isNullOrEmpty()`. */
  predicate HasPodcasts(data: Option<seq<Podcast>>) {
    data.Some? && data.value != []
  }

  /** The collector's reaction to one resource. */
  function OnResponse(v: SearchView, response: Response): SearchView {
    match response
    case Loading(data) =>
      if HasPodcasts(data) then v.(results := data.value, isLoading := false) else v.(isLoading := true)
    case Error(_, _) =>
      v.(isLoading := false, toasts := v.toasts + [ServiceError])
    case Success(data) =>
      if HasPodcasts(data) then v.(results := data.value, isLoading := false)
      else v.(isLoading := false, toasts := v.toasts + [EmptyResponse])
  }

  /** The state after collecting the resources in order. */
  function AfterResponses(v: SearchView, responses: seq<Response>): SearchView {
    if responses == [] then v
    else OnResponse(AfterResponses(v, responses[..|responses| - 1]), responses[|responses| - 1])
  }

  /** A resource that puts its podcasts on screen. */
  predicate Shows(response: Response) {
    !response.Error? && HasPodcasts(response.data)
  }

  /** A resource that raises a toast. */
  predicate Toasts(response: Response) {
    response.Error? || (response.Success? && !HasPodcasts(response.data))
  }

  /** The message a toast-raising resource raises. */
  function ToastOf(response: Response): ToastMessage {
    if response.Error? then ServiceError else EmptyResponse
  }

  class ViewModel {
    var searchQuery: string
    var podcastsSearchResult: seq<Podcast>
    var isLoading: bool
    var mode: UiMode
    /** Whether a search job is active. */
    var searchJobRunning: bool
    /** The term handed to searchPodcasts by the latest search started. */
    var searchedTerm: Option<string>
    var toasts: seq<ToastMessage>

    function View(): SearchView
      reads this
    {
      SearchView(podcastsSearchResult, isLoading, toasts)
    }

    /** The initial state: empty query, no results, not loading, SUBSCRIBED mode. */
    constructor ()
      ensures searchQuery == "" && podcastsSearchResult == [] && !isLoading && mode == Subscribed
      ensures !searchJobRunning && searchedTerm == None && toasts == []
    {
      searchQuery := "";
      podcastsSearchResult := [];
      isLoading := false;
      mode := Subscribed;
      searchJobRunning := false;
      searchedTerm := None;
      toasts := [];
    }

    /** uiState: the flags, and the list the current mode selects. */
    function UiState(subscribedPodcasts: seq<Podcast>): (r: PodcastsUiState)
      reads this
      ensures r.Success? && r.isLoading == isLoading && r.mode == mode
      ensures mode == Search ==> r.podcasts == podcastsSearchResult
      ensures mode == Subscribed ==> r.podcasts == subscribedPodcasts
    {
      Success(isLoading, if mode == Search then podcastsSearchResult else subscribedPodcasts, mode)
    }

    /** onSearchQueryChange: store the text; when it is blank and a search is
        running, cancel the search and clear the results. */
    method OnSearchQueryChange(value: string)
      modifies this
      ensures searchQuery == value
      ensures Trim(value) == [] && old(searchJobRunning) ==> !searchJobRunning && podcastsSearchResult == []
      ensures !(Trim(value) == [] && old(searchJobRunning)) ==>
                searchJobRunning == old(searchJobRunning) && podcastsSearchResult == old(podcastsSearchResult)
      ensures isLoading == old(isLoading) && mode == old(mode) && toasts == old(toasts) && searchedTerm == old(searchedTerm)
    {
      if Trim(value) == "" && searchJobRunning {
        searchJobRunning := false;
        podcastsSearchResult := [];
      }
      searchQuery := value;
    }

    /** onSearch: search for the trimmed, lowercased query unless it is blank,
        replacing any running search, and collect the resources it emits. The job
        stays active afterwards, subscribed to the local read. */
    method OnSearch(responses: seq<Response>)
      modifies this
      ensures SearchTerm(old(searchQuery)).None? ==>
                View() == old(View()) && searchJobRunning == old(searchJobRunning) && searchedTerm == old(searchedTerm)
      ensures SearchTerm(old(searchQuery)).Some? ==>
                searchJobRunning && searchedTerm == SearchTerm(old(searchQuery)) && View() == AfterResponses(old(View()), responses)
      ensures searchQuery == old(searchQuery) && mode == old(mode)
    {
      var query := SearchTerm(searchQuery);
      if query.None? {
        return;
      }
      searchedTerm := query;
      searchJobRunning := true;
      var start := View();
      for i := 0 to |responses|
        invariant View() == AfterResponses(start, responses[..i])
        invariant searchQuery == old(searchQuery) && mode == old(mode)
        invariant searchJobRunning && searchedTerm == query
      {
        assert responses[..i + 1][..i] == responses[..i];
        HandleResponse(responses[i]);
      }
      assert responses[..|responses|] == responses;
    }

    /** The collector lambda: react to one resource. */
    method HandleResponse(response: Response)
      modifies this
      ensures View() == OnResponse(old(View()), response)
      ensures searchQuery == old(searchQuery) && mode == old(mode)
      ensures searchJobRunning == old(searchJobRunning) && searchedTerm == old(searchedTerm)
    {
        var podcasts := response.data;
        match response {
          case Loading(_) =>
            if HasPodcasts(podcasts) {
              podcastsSearchResult := podcasts.value;
              isLoading := false;
            } else {
              isLoading := true;
            }
          case Error(_, _) =>
            isLoading := false;
            toasts := toasts + [ServiceError];
          case Success(_) =>
            if !HasPodcasts(podcasts) {
              toasts := toasts + [EmptyResponse];
            } else {
              podcastsSearchResult := podcasts.value;
            }
            isLoading := false;
        }
    }

    /** onSearchActivated: SEARCH mode exactly when activated. */
    method OnSearchActivated(active: bool)
      modifies this
      ensures mode == Search <==> active
      ensures View() == old(View()) && searchQuery == old(searchQuery)
      ensures searchJobRunning == old(searchJobRunning) && searchedTerm == old(searchedTerm)
    {
      mode := if active then Search else Subscribed;
    }
  }

  // ---------------------------------------------------------------------------
  // Properties
  // ---------------------------------------------------------------------------

  /** A Loading with podcasts shows them and ends loading; without, it starts
      loading and keeps the results. Neither raises a toast. */
  lemma LoadingResponse(v: SearchView, data: Option<seq<Podcast>>)
    ensures var after := OnResponse(v, NBR.Loading(data));
      && after.toasts == v.toasts
      && (HasPodcasts(data) ==> after.results == data.value && !after.isLoading)
      && (!HasPodcasts(data) ==> after.results == v.results && after.isLoading)
  {
  }

  /** An Error ends loading, raises SERVICE_ERROR and keeps the results. */
  lemma ErrorResponse(v: SearchView, cause: Throwable, data: Option<seq<Podcast>>)
    ensures OnResponse(v, NBR.Error(cause, data)) == SearchView(v.results, false, v.toasts + [ServiceError])
  {
  }

  /** A Success ends loading; with podcasts it shows them, without it raises
      EMPTY_RESPONSE and keeps the results. */
  lemma SuccessResponse(v: SearchView, data: Option<seq<Podcast>>)
    ensures var after := OnResponse(v, NBR.Success(data));
      && !after.isLoading
      && (HasPodcasts(data) ==> after.results == data.value && after.toasts == v.toasts)
      && (!HasPodcasts(data) ==> after.results == v.results && after.toasts == v.toasts + [EmptyResponse])
  {
  }

  /** After a search, the screen is loading exactly when the last resource was a
      Loading without podcasts. */
  lemma {:induction false} LoadingFollowsLastResponse(v: SearchView, responses: seq<Response>)
    requires responses != []
    ensures var last := responses[|responses| - 1];
      AfterResponses(v, responses).isLoading <==> last.Loading? && !HasPodcasts(last.data)
  {
  }

  /** The results shown are those of the last resource that carried podcasts (an
      Error's data is never shown), or the earlier results when none did. */
  lemma {:induction false} ResultsOfLatestShowingResponse(v: SearchView, responses: seq<Response>)
    ensures var after := AfterResponses(v, responses);
      || (after.results == v.results && forall i :: 0 <= i < |responses| ==> !Shows(responses[i]))
      || (exists i :: 0 <= i < |responses| && Shows(responses[i]) && after.results == responses[i].data.value
            && forall j :: i < j < |responses| ==> !Shows(responses[j]))
  {
    if responses != [] {
      var n := |responses| - 1;
      var init := responses[..n];
      ResultsOfLatestShowingResponse(v, init);
      var before := AfterResponses(v, init);
      if Shows(responses[n]) {
        assert AfterResponses(v, responses).results == responses[n].data.value;
      } else {
        assert AfterResponses(v, responses).results == before.results;
        if before.results == v.results && forall i :: 0 <= i < |init| ==> !Shows(init[i]) {
          forall i | 0 <= i < |responses| ensures !Shows(responses[i]) {
            if i < n {
              assert responses[i] == init[i];
            }
          }
        } else {
          var i :| 0 <= i < |init| && Shows(init[i]) && before.results == init[i].data.value
                   && forall j :: i < j < |init| ==> !Shows(init[j]);
          assert responses[i] == init[i];
          forall j | i < j < |responses| ensures !Shows(responses[j]) {
            if j < n {
              assert responses[j] == init[j];
            }
          }
        }
      }
    }
  }

  /** One toast per Error (SERVICE_ERROR) and per Success without podcasts
      (EMPTY_RESPONSE), in the order of the resources, appended to those already
      raised. */
  lemma {:induction false} ToastsOnePerFailure(v: SearchView, responses: seq<Response>)
    ensures AfterResponses(v, responses).toasts == v.toasts + Map(Filter(responses, Toasts), ToastOf)
  {
    if responses != [] {
      var n := |responses| - 1;
      var last := responses[n];
      ToastsOnePerFailure(v, responses[..n]);
      assert responses == responses[..n] + [last];
      FilterAppend(responses[..n], [last], Toasts);
      var earlier := Filter(responses[..n], Toasts);
      var before := AfterResponses(v, responses[..n]);
      if Toasts(last) {
        assert Filter([last], Toasts) == [last];
        assert Map(earlier + [last], ToastOf) == Map(earlier, ToastOf) + [ToastOf(last)];
      } else {
        assert Filter([last], Toasts) == [];
        assert earlier + [] == earlier;
      }
    }
  }

  /** A search whose local read was empty and whose fetch then produced podcasts:
      Loading(empty) then Success(podcasts) shows the podcasts, is no longer
      loading, and raises no toast. */
  lemma FreshSearchShowsFetchedPodcasts(v: SearchView, podcasts: seq<Podcast>)
    requires podcasts != []
    ensures AfterResponses(v, [NBR.Loading(Some([])), NBR.Success(Some(podcasts))]) == SearchView(podcasts, false, v.toasts)
  {
    var rs: seq<Response> := [NBR.Loading(Some([])), NBR.Success(Some(podcasts))];
    assert rs[..1] == [rs[0]] && rs[..1][..0] == [];
    assert AfterResponses(v, rs[..1]) == OnResponse(v, rs[0]);
  }
}
