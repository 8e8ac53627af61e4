/** networkBoundResource: read the local store, decide whether to go to the
    network, and if so fetch, save, and re-read; every value the caller sees is
    wrapped in a Resource saying where in that sequence it was produced.

    A live database flow becomes a finite stream: the values one subscription to
    db() delivers on a given store, the first of them being what db().first()
    returns. The network result and the effect of the save are inputs. */
module NetworkBoundResource {
  import opened Common

  /** Resource: a value tagged Loading, Success or Error (with its cause). */
  datatype Resource<T> = Loading(data: T) | Success(data: T) | Error(cause: Throwable, data: T)

  /** The values one collection of db() delivers on a store: the first, then later ones. */
  datatype LocalStream<T> = LocalStream(first: T, later: seq<T>)

  function Values<T>(s: LocalStream<T>): (r: seq<T>)
    ensures |r| >= 1 && r[0] == s.first
  {
    [s.first] + s.later
  }

  /** What saveFetchResult did: the store it left, and what it threw, if anything. */
  datatype SaveEffect<S> = SaveEffect(store: S, thrown: Option<Throwable>)

  /** One collection of the resulting flow: the emissions in order, whether fetch
      ran, the value handed to saveFetchResult if it ran, and the final store. */
  datatype Run<S, T, R> = Run(emitted: seq<Resource<T>>, fetchCalled: bool, saved: Option<R>, store: S)

  function AsSuccess<T>(values: seq<T>): (r: seq<Resource<T>>)
    ensures |r| == |values|
    ensures forall i :: 0 <= i < |values| ==> r[i] == Success(values[i])
  {
    seq(|values|, i requires 0 <= i < |values| => Success(values[i]))
  }

  function AsError<T>(cause: Throwable, values: seq<T>): (r: seq<Resource<T>>)
    ensures |r| == |values|
    ensures forall i :: 0 <= i < |values| ==> r[i] == Error(cause, values[i])
  {
    seq(|values|, i requires 0 <= i < |values| => Error(cause, values[i]))
  }

  /** The default shouldFetch. */
  function AlwaysFetch<T>(data: T): bool {
    true
  }

  /** The emissions and effects of one collection, as a function of the store it
      starts from. */
  function Synchronise<S, T, R>(
    store: S,
    db: S -> LocalStream<T>,
    fetch: Result<R>,
    save: (S, R) -> SaveEffect<S>,
    shouldFetch: T -> bool): Run<S, T, R>
  {
    var data := db(store).first;
    if shouldFetch(data) then
      match fetch
      case Err(cause) => Run([Loading(data)] + AsError(cause, Values(db(store))), true, None, store)
      case Ok(response) =>
        var effect := save(store, response);
        match effect.thrown
        case Some(cause) => Run([Loading(data)] + AsError(cause, Values(db(effect.store))), true, Some(response), effect.store)
        case None => Run([Loading(data)] + AsSuccess(Values(db(effect.store))), true, Some(response), effect.store)
    else Run(AsSuccess(Values(db(store))), false, None, store)
  }

  /** The flow body step by step: read the first local value, emit Loading and go to
      the network when shouldFetch says so, then emit every value of a fresh
      collection of db() as Success, or as Error after a failed fetch or save. */
  method Collect<S, T, R>(
    store: S,
    db: S -> LocalStream<T>,
    fetch: Result<R>,
    save: (S, R) -> SaveEffect<S>,
    shouldFetch: T -> bool) returns (run: Run<S, T, R>)
    ensures run == Synchronise(store, db, fetch, save, shouldFetch)
  {
    var current := store;
    var emitted: seq<Resource<T>> := [];
    var fetchCalled := false;
    var saved: Option<R> := None;
    var failure: Option<Throwable> := None;
    var data := db(current).first;
    if shouldFetch(data) {
      emitted := emitted + [Loading(data)];
      fetchCalled := true;
      match fetch {
        case Err(cause) =>
          failure := Some(cause);
        case Ok(response) =>
          saved := Some(response);
          var effect := save(current, response);
          current := effect.store;
          failure := effect.thrown;
      }
    }
    var resource := Values(db(current));
    var prefix := emitted;
    for i := 0 to |resource|
      invariant |emitted| == |prefix| + i
      invariant emitted[..|prefix|] == prefix
      invariant forall j :: 0 <= j < i ==>
        emitted[|prefix| + j] == if failure.Some? then Error(failure.value, resource[j]) else Success(resource[j])
    {
      emitted := emitted + [if failure.Some? then Error(failure.value, resource[i]) else Success(resource[i])];
    }
    if failure.Some? {
      assert emitted == prefix + AsError(failure.value, resource);
    } else {
      assert emitted == prefix + AsSuccess(resource);
    }
    run := Run(emitted, fetchCalled, saved, current);
  }

  // ---------------------------------------------------------------------------
  // Properties
  // ---------------------------------------------------------------------------

  /** When the first local value needs no refresh: no Loading, no fetch, no save,
      the store untouched, and every emission a Success of a local value. */
  lemma NoFetchWhenFresh<S, T, R>(store: S, db: S -> LocalStream<T>, fetch: Result<R>, save: (S, R) -> SaveEffect<S>, shouldFetch: T -> bool)
    requires !shouldFetch(db(store).first)
    ensures var run := Synchronise(store, db, fetch, save, shouldFetch);
      && !run.fetchCalled && run.saved.None? && run.store == store
      && run.emitted == AsSuccess(Values(db(store)))
      && forall i :: 0 <= i < |run.emitted| ==> run.emitted[i].Success?
  {
  }

  /** When a refresh is needed, the first emission is Loading of exactly the first
      value read, and fetch runs. */
  lemma LoadingCarriesFirstRead<S, T, R>(store: S, db: S -> LocalStream<T>, fetch: Result<R>, save: (S, R) -> SaveEffect<S>, shouldFetch: T -> bool)
    requires shouldFetch(db(store).first)
    ensures var run := Synchronise(store, db, fetch, save, shouldFetch);
      run.fetchCalled && |run.emitted| >= 2 && run.emitted[0] == Loading(db(store).first)
  {
  }

  /** At most one Loading per collection, and only as the first emission. */
  lemma LoadingOnlyFirst<S, T, R>(store: S, db: S -> LocalStream<T>, fetch: Result<R>, save: (S, R) -> SaveEffect<S>, shouldFetch: T -> bool)
    ensures var run := Synchronise(store, db, fetch, save, shouldFetch);
      |run.emitted| >= 1 && forall i :: 0 < i < |run.emitted| ==> !run.emitted[i].Loading?
  {
  }

  /** saveFetchResult receives exactly what fetch returned, and is not called when
      fetch threw; the store changes only through the save. */
  lemma SavesOnlyFetchedValue<S, T, R>(store: S, db: S -> LocalStream<T>, fetch: Result<R>, save: (S, R) -> SaveEffect<S>, shouldFetch: T -> bool)
    ensures var run := Synchronise(store, db, fetch, save, shouldFetch);
      && (run.saved.Some? <==> run.fetchCalled && fetch.Ok?)
      && (run.saved.Some? ==> fetch == Ok(run.saved.value) && run.store == save(store, run.saved.value).store)
      && (run.saved.None? ==> run.store == store)
  {
  }

  /** A throwing fetch or save is final: every later emission is an Error carrying
      that throwable and a value read from the store as the failure left it. Nothing
      here rolls back a throwing save; a throwing fetch leaves the store as it was. */
  lemma FailureIsTerminal<S, T, R>(store: S, db: S -> LocalStream<T>, fetch: Result<R>, save: (S, R) -> SaveEffect<S>, shouldFetch: T -> bool, cause: Throwable)
    requires shouldFetch(db(store).first)
    requires fetch == Err(cause) || (fetch.Ok? && save(store, fetch.value).thrown == Some(cause))
    ensures var run := Synchronise(store, db, fetch, save, shouldFetch);
      && run.emitted[1..] == AsError(cause, Values(db(run.store)))
      && (fetch.Err? ==> run.store == store)
      && (fetch.Ok? ==> run.store == save(store, fetch.value).store)
      && forall i :: 1 <= i < |run.emitted| ==> run.emitted[i].Error? && run.emitted[i].cause == cause
  {
  }

  /** After a fetch and save that both succeed, the emissions after Loading are
      Success of the values read from the saved store. */
  lemma SuccessAfterSave<S, T, R>(store: S, db: S -> LocalStream<T>, response: R, save: (S, R) -> SaveEffect<S>, shouldFetch: T -> bool)
    requires shouldFetch(db(store).first) && save(store, response).thrown.None?
    ensures var run := Synchronise(store, db, Ok(response), save, shouldFetch);
      && run.store == save(store, response).store
      && run.emitted[1..] == AsSuccess(Values(db(save(store, response).store)))
  {
  }

  /** With the default shouldFetch every collection starts with Loading and fetches. */
  lemma DefaultAlwaysFetches<S, T, R>(store: S, db: S -> LocalStream<T>, fetch: Result<R>, save: (S, R) -> SaveEffect<S>)
    ensures var run := Synchronise(store, db, fetch, save, AlwaysFetch);
      run.fetchCalled && run.emitted[0] == Loading(db(store).first)
  {
  }
}
