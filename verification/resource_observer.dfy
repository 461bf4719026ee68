/**
 * `ResourceObserver.onChanged`: which of the four UI callbacks one published resource triggers,
 * and in what order. Logging is not modelled.
 */
module Observer {
  import opened Wrappers
  import opened Resources
  import BoundResource

  /** A call to one of the observer's constructor-supplied actions. */
  datatype Callback<T> = ShowLoading | HideLoading | OnSuccess(data: T) | OnError(message: string)

  /** The callbacks fired, in order, for one value; a null resource fires none. */
  function Dispatch<T>(resource: Option<Resource<T>>): (calls: seq<Callback<T>>)
    ensures resource.None? ==> calls == []
    ensures resource.Some? && resource.value.status == LOADING ==> calls == [ShowLoading]
    ensures resource.Some? && resource.value.status == SUCCESS ==>
      calls == [HideLoading] + (if resource.value.data.Some? then [OnSuccess(resource.value.data.value)] else [])
    ensures resource.Some? && resource.value.status == ERROR ==>
      calls == [HideLoading] + (if resource.value.error.Some? then [OnError(resource.value.error.value.message)] else [])
  {
    match resource
    case None => []
    case Some(r) =>
      match r.status
      case LOADING => [ShowLoading]
      case SUCCESS => [HideLoading] + (match r.data case Some(d) => [OnSuccess(d)] case None => [])
      case ERROR => [HideLoading] + (match r.error case Some(e) => [OnError(e.message)] case None => [])
  }

  function Occurrences<T>(calls: seq<Callback<T>>, p: Callback<T> -> bool): nat
  {
    if |calls| == 0 then 0 else (if p(calls[0]) then 1 else 0) + Occurrences(calls[1..], p)
  }

  predicate IsShow<T>(c: Callback<T>) { c.ShowLoading? }
  predicate IsHide<T>(c: Callback<T>) { c.HideLoading? }
  predicate IsSuccess<T>(c: Callback<T>) { c.OnSuccess? }
  predicate IsError<T>(c: Callback<T>) { c.OnError? }

  /**
   * For any non-null resource exactly one of `showLoading` and `hideLoading` runs, it runs
   * first, and `onSuccess` and `onError` never both run.
   */
  lemma OneLoadingToggle<T>(r: Resource<T>)
    ensures var calls := Dispatch(Some(r));
      && Occurrences(calls, IsShow) + Occurrences(calls, IsHide) == 1
      && (calls[0].ShowLoading? || calls[0].HideLoading?)
      && (Occurrences(calls, IsSuccess) == 0 || Occurrences(calls, IsError) == 0)
  {
    var calls := Dispatch(Some(r));
    if |calls| == 1 {
      OccurrencesOfOne(calls[0], IsShow);
      OccurrencesOfOne(calls[0], IsHide);
      OccurrencesOfOne(calls[0], IsSuccess);
      OccurrencesOfOne(calls[0], IsError);
      assert calls == [calls[0]];
    } else {
      OccurrencesOfTwo(calls[0], calls[1], IsShow);
      OccurrencesOfTwo(calls[0], calls[1], IsHide);
      OccurrencesOfTwo(calls[0], calls[1], IsSuccess);
      OccurrencesOfTwo(calls[0], calls[1], IsError);
      assert calls == [calls[0], calls[1]];
    }
  }

  lemma OccurrencesOfOne<T>(c: Callback<T>, p: Callback<T> -> bool)
    ensures Occurrences([c], p) == if p(c) then 1 else 0
  {
    assert [c][1..] == [];
  }

  lemma OccurrencesOfTwo<T>(c: Callback<T>, d: Callback<T>, p: Callback<T> -> bool)
    ensures Occurrences([c, d], p) == (if p(c) then 1 else 0) + (if p(d) then 1 else 0)
  {
    assert [c, d][1..] == [d];
    OccurrencesOfOne(d, p);
  }

  /** `onSuccess` runs exactly for successes that carry data, and receives that data. */
  lemma SuccessCallbackIff<T>(r: Resource<T>, d: T)
    ensures OnSuccess(d) in Dispatch(Some(r)) <==> r.status == SUCCESS && r.data == Some(d)
  {
  }

  /** `onError` runs exactly for errors that carry an error, and receives its message. */
  lemma ErrorCallbackIff<T>(r: Resource<T>, message: string)
    ensures OnError(message) in Dispatch(Some(r)) <==> r.status == ERROR && r.error.Some? && r.error.value.message == message
  {
  }

  /** The callbacks fired for a stream of values, in order. */
  function DispatchAll<T>(resources: seq<Resource<T>>): seq<Callback<T>>
  {
    if |resources| == 0 then [] else Dispatch(Some(resources[0])) + DispatchAll(resources[1..])
  }

  /** A stream in which no loading state appears never shows the loading indicator. */
  lemma {:induction false} NoShowWithoutLoading<T>(resources: seq<Resource<T>>)
    requires forall i :: 0 <= i < |resources| ==> resources[i].status != LOADING
    ensures ShowLoading !in DispatchAll(resources)
    decreases |resources|
  {
    if |resources| > 0 {
      NoShowWithoutLoading(resources[1..]);
    }
  }

  /** A stream of loading states only ever shows the indicator. */
  lemma {:induction false} OnlyShowWhileLoading<T>(resources: seq<Resource<T>>)
    requires forall i :: 0 <= i < |resources| ==> resources[i].status == LOADING
    ensures forall c :: c in DispatchAll(resources) ==> c == ShowLoading
    decreases |resources|
  {
    if |resources| > 0 {
      OnlyShowWhileLoading(resources[1..]);
    }
  }

  /**
   * Observing a `NetworkBoundResource`: once the call's result has been handled, the loading
   * indicator is never shown again, whatever the sources emit afterwards.
   */
  lemma NoSpinnerAfterResult<R, Q>(shouldFetch: Option<R> -> bool, s: BoundResource.State<R, Q>,
                                   events: seq<BoundResource.Event<R, Q>>)
    requires s.phase.AfterResult()
    ensures ShowLoading !in DispatchAll(BoundResource.RunFrom(shouldFetch, s, events).published)
  {
    BoundResource.NoLoadingAfterResult(shouldFetch, s, events);
    NoShowWithoutLoading(BoundResource.RunFrom(shouldFetch, s, events).published);
  }
}
