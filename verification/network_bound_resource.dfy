/**
 * The orchestrator behind `NetworkBoundResource`: given the mode, the values its LiveData
 * sources emit and the outcome of the remote call, which `Resource` states it publishes and
 * which of its hooks it calls, in what order.
 *
 * The LiveData sources and the thread hops are an explicit, ordered sequence of input events.
 * An event whose source is not attached to the mediator at that moment has no effect. The
 * caller-supplied `shouldFetch` decision is a function parameter.
 */
module BoundResource {
  import opened Wrappers
  import opened Resources
  import Responses

  datatype Mode = WithDatabase | NetworkOnly

  /** What the environment delivers to the mediator, one at a time on the main thread. */
  datatype Event<R, Q> =
      /** The source returned by the first `loadFromDb()` emits. */
    | DbValue(value: Option<R>)
      /** The call stream from `createCall()` delivers its classified result. */
    | ApiResult(response: Responses.ApiResponse<Q>)
      /** The block queued on the io thread runs: it saves the body and posts to the main thread. */
    | SaveDone
      /** The block posted to the main thread runs: it subscribes a fresh `loadFromDb()`. */
    | MainResumed
      /** The fresh source returned by the second `loadFromDb()` emits. */
    | FreshDbValue(value: Option<R>)
      /** The source returned by `mapRequestToResult(body)` emits. */
    | MappedValue(value: Option<R>)

  /** A call to one of the overridable hooks. */
  datatype Hook<R, Q> =
    | ShouldFetchCalled(data: Option<R>)
    | CreateCall
    | LoadFromDb
    | SaveCallResult(item: Q)
    | OnFetchFailed
    | MapRequestToResult(item: Q)

  /** Which sources are attached to the mediator, and with which observer. */
  datatype Phase<R, Q> =
      /** Database mode: the first db source is attached, its first value not yet seen. */
    | AwaitFirstDb
      /** `shouldFetch` said no: the db source is re-attached and republished as success. */
    | ServeCache
      /** The call is in flight: the db source is re-attached and republished as loading. */
    | Fetching(latest: Option<R>)
      /** The call succeeded: the save is queued on the io thread; no source is attached. */
    | Saving(body: Q)
      /** A main-thread block is posted that will subscribe a fresh db load. */
    | AwaitReload
      /** The fresh db load is attached and republished as success. */
    | Reloaded
      /** The call failed: the db source is re-attached and republished as error. */
    | Failed(error: Error)
      /** Network-only mode: the call is in flight. */
    | NetFetching
      /** Network-only mode: the mapped source is attached and republished as success. */
    | Mapping
      /** Network-only mode: the result was empty or an error; no source remains. */
    | Settled
  {
    /** The phases after the call's result has been dispatched. */
    predicate AfterResult()
    {
      Saving? || AwaitReload? || Reloaded? || Failed? || Mapping? || Settled?
    }

    predicate InNetworkMode()
    {
      NetFetching? || Mapping? || Settled?
    }
  }

  /** The mediator: its phase and the value it currently holds. */
  datatype State<R, Q> = State(phase: Phase<R, Q>, current: Resource<R>)

  /** What the held value is known to be in the phases where it is determined. */
  ghost predicate Coherent<R, Q>(s: State<R, Q>)
  {
    && (s.phase.AwaitFirstDb? ==> s.current == Resource.Loading(None))
    && (s.phase.NetFetching? ==> s.current == Resource.Loading(None))
    && (s.phase.Fetching? ==> s.current == Resource.Loading(s.phase.latest))
    && (s.phase.ServeCache? ==> s.current.status == SUCCESS)
    && (s.phase.Failed? ==> s.current.status == ERROR && s.current.error == Some(s.phase.error))
  }

  /** The effect of one event: the next state, the value published if any, the hooks called. */
  datatype Output<R, Q> = Output(state: State<R, Q>, published: Option<Resource<R>>, hooks: seq<Hook<R, Q>>)

  /** `setValue`: publish `value` only when it differs from the value currently held. */
  function SetValue<R(==), Q>(s: State<R, Q>, phase: Phase<R, Q>, value: Resource<R>, hooks: seq<Hook<R, Q>>): (o: Output<R, Q>)
    ensures o.state.phase == phase && o.state.current == value && o.hooks == hooks
    ensures o.published.Some? <==> value != s.current
    ensures o.published.Some? ==> o.published.value == value
  {
    if s.current != value then Output(State(phase, value), Some(value), hooks)
    else Output(State(phase, s.current), None, hooks)
  }

  /** Changes the phase without publishing. */
  function Quiet<R, Q>(s: State<R, Q>, phase: Phase<R, Q>, hooks: seq<Hook<R, Q>>): Output<R, Q>
  {
    Output(State(phase, s.current), None, hooks)
  }

  /**
   * Construction: the held value starts as `loading(null)`. In database mode `loadFromDb()` is
   * called and its source added; otherwise `createCall()` is called and the redundant
   * `setValue(loading(null))` publishes nothing.
   */
  function Init<R, Q>(mode: Mode): (o: Output<R, Q>)
    ensures o.state.current == Resource.Loading(None)
    ensures o.published == Some(Resource.Loading(None))
    ensures Coherent(o.state)
    ensures mode == WithDatabase ==> o.state.phase == AwaitFirstDb && o.hooks == [LoadFromDb]
    ensures mode == NetworkOnly ==> o.state.phase == NetFetching && o.hooks == [CreateCall]
  {
    var initial := Resource.Loading(None);
    match mode
    case WithDatabase => Output(State(AwaitFirstDb, initial), Some(initial), [LoadFromDb])
    case NetworkOnly => Output(State(NetFetching, initial), Some(initial), [CreateCall])
  }

  /** One event dispatched on the main thread. */
  function Step<R(==), Q>(shouldFetch: Option<R> -> bool, s: State<R, Q>, e: Event<R, Q>): (o: Output<R, Q>)
    ensures o.published.Some? ==> o.published.value != s.current && o.state.current == o.published.value
    ensures o.published.None? ==> o.state.current == s.current
    ensures e.DbValue? && s.phase.AwaitFirstDb? ==>
      o.hooks == [ShouldFetchCalled(e.value)] + (if shouldFetch(e.value) then [CreateCall] else [])
    ensures !(e.DbValue? && s.phase.AwaitFirstDb?) ==> CreateCall !in o.hooks
    ensures !(e.DbValue? && s.phase.AwaitFirstDb?) ==> forall h :: h in o.hooks ==> !h.ShouldFetchCalled?
    ensures s.phase.AfterResult() ==> o.state.phase.AfterResult()
    ensures s.phase.AfterResult() && o.published.Some? ==> o.published.value.status != LOADING
    ensures e.ApiResult? && (s.phase.Fetching? || s.phase.NetFetching?) ==> o.state.phase.AfterResult()
    ensures o.state.phase.AwaitFirstDb? ==> s.phase.AwaitFirstDb?
    ensures s.phase.InNetworkMode() <==> o.state.phase.InNetworkMode()
    ensures Coherent(s) ==> Coherent(o.state)
  {
    match (s.phase, e)
    // database mode: the first value decides whether to fetch
    case (AwaitFirstDb, DbValue(v)) =>
      if shouldFetch(v) then SetValue(s, Fetching(v), Resource.Loading(v), [ShouldFetchCalled(v), CreateCall])
      else SetValue(s, ServeCache, Resource.Success(v), [ShouldFetchCalled(v)])
    case (ServeCache, DbValue(v)) => SetValue(s, ServeCache, Resource.Success(v), [])
    case (Fetching(_), DbValue(v)) => SetValue(s, Fetching(v), Resource.Loading(v), [])
    case (Fetching(latest), ApiResult(r)) =>
      (match r
       case Success(body, _) => Quiet(s, Saving(body), [])
       case Empty => Quiet(s, AwaitReload, [])
       case Error(code, message) =>
         SetValue(s, Failed(Error(code, message)), Resource.Failed(latest, Error(code, message)), [OnFetchFailed]))
    case (Saving(body), SaveDone) => Quiet(s, AwaitReload, [SaveCallResult(body)])
    case (AwaitReload, MainResumed) => Quiet(s, Reloaded, [LoadFromDb])
    case (Reloaded, FreshDbValue(v)) => SetValue(s, Reloaded, Resource.Success(v), [])
    case (Failed(err), DbValue(v)) => SetValue(s, Failed(err), Resource.Failed(v, err), [])
    // network-only mode
    case (NetFetching, ApiResult(r)) =>
      (match r
       case Success(body, _) => Quiet(s, Mapping, [MapRequestToResult(body)])
       case Empty => SetValue(s, Settled, Resource.Success(None), [])
       case Error(code, message) =>
         SetValue(s, Settled, Resource.Failed(None, Error(code, message)), [OnFetchFailed]))
    case (Mapping, MappedValue(v)) => SetValue(s, Mapping, Resource.Success(v), [])
    // the event's source is not attached to the mediator
    case _ => Quiet(s, s.phase, [])
  }

  function OptionToSeq<T>(o: Option<T>): seq<T>
  {
    match o
    case None => []
    case Some(v) => [v]
  }

  /** Everything a sequence of events does: the final state, the values published, the hooks called. */
  datatype Trace<R, Q> = Trace(state: State<R, Q>, published: seq<Resource<R>>, hooks: seq<Hook<R, Q>>)

  function RunFrom<R(==), Q>(shouldFetch: Option<R> -> bool, s: State<R, Q>, events: seq<Event<R, Q>>): Trace<R, Q>
    decreases |events|
  {
    if |events| == 0 then Trace(s, [], [])
    else
      var o := Step(shouldFetch, s, events[0]);
      var t := RunFrom(shouldFetch, o.state, events[1..]);
      Trace(t.state, OptionToSeq(o.published) + t.published, o.hooks + t.hooks)
  }

  /** A whole lifetime: construction, then the events in order. */
  function Run<R(==), Q>(shouldFetch: Option<R> -> bool, mode: Mode, events: seq<Event<R, Q>>): Trace<R, Q>
  {
    var i := Init(mode);
    var t := RunFrom(shouldFetch, i.state, events);
    Trace(t.state, OptionToSeq(i.published) + t.published, i.hooks + t.hooks)
  }

  // ---------------------------------------------------------------------------------------------
  // Properties of whole runs
  // ---------------------------------------------------------------------------------------------

  function Count<T>(s: seq<T>, p: T -> bool): nat
  {
    if |s| == 0 then 0 else (if p(s[0]) then 1 else 0) + Count(s[1..], p)
  }

  lemma {:induction false} CountAppend<T>(a: seq<T>, b: seq<T>, p: T -> bool)
    ensures Count(a + b, p) == Count(a, p) + Count(b, p)
    decreases |a|
  {
    if |a| > 0 {
      assert (a + b)[1..] == a[1..] + b;
      CountAppend(a[1..], b, p);
    } else {
      assert a + b == b;
    }
  }

  predicate IsShouldFetch<R, Q>(h: Hook<R, Q>) { h.ShouldFetchCalled? }
  predicate IsCreateCall<R, Q>(h: Hook<R, Q>) { h.CreateCall? }
  predicate IsLoadFromDb<R, Q>(h: Hook<R, Q>) { h.LoadFromDb? }
  predicate IsSave<R, Q>(h: Hook<R, Q>) { h.SaveCallResult? }
  predicate IsFetchFailed<R, Q>(h: Hook<R, Q>) { h.OnFetchFailed? }

  /** The value of the first `DbValue` event, if there is one. */
  function FirstDbValue<R, Q>(events: seq<Event<R, Q>>): Option<Option<R>>
  {
    if |events| == 0 then None
    else if events[0].DbValue? then Some(events[0].value)
    else FirstDbValue(events[1..])
  }

  predicate HasApiResult<R, Q>(events: seq<Event<R, Q>>)
  {
    exists i :: 0 <= i < |events| && events[i].ApiResult?
  }

  lemma NoApiResultInTail<R, Q>(events: seq<Event<R, Q>>)
    requires 0 < |events| && !HasApiResult(events)
    ensures !events[0].ApiResult? && !HasApiResult(events[1..])
  {
    forall i | 0 <= i < |events[1..]|
      ensures !events[1..][i].ApiResult?
    {
      assert events[1..][i] == events[i + 1];
    }
  }

  /**
   * `setValue` never publishes the value already held: in the stream the observers see, no two
   * consecutive values are equal, and the last one is the value held at the end.
   */
  lemma {:induction false} PublishedValuesChange<R, Q>(shouldFetch: Option<R> -> bool, s: State<R, Q>, events: seq<Event<R, Q>>)
    ensures var t := RunFrom(shouldFetch, s, events);
      var seen := [s.current] + t.published;
      NoTwoEqualInARow(seen) && seen[|seen| - 1] == t.state.current
    decreases |events|
  {
    if |events| > 0 {
      var o := Step(shouldFetch, s, events[0]);
      var t := RunFrom(shouldFetch, o.state, events[1..]);
      PublishedValuesChange(shouldFetch, o.state, events[1..]);
      var tailSeen := [o.state.current] + t.published;
      var seen := [s.current] + RunFrom(shouldFetch, s, events).published;
      if o.published.None? {
        assert seen == tailSeen;
      } else {
        assert seen == [s.current] + tailSeen;
        NoTwoEqualInARowCons(s.current, tailSeen);
      }
    }
  }

  /** No value directly follows an equal one. */
  ghost predicate NoTwoEqualInARow<T>(values: seq<T>)
  {
    forall i :: 0 <= i < |values| - 1 ==> values[i] != values[i + 1]
  }

  lemma NoTwoEqualInARowCons<T>(x: T, values: seq<T>)
    requires 0 < |values| && x != values[0] && NoTwoEqualInARow(values)
    ensures NoTwoEqualInARow([x] + values)
  {
    var seen := [x] + values;
    forall i | 0 <= i < |seen| - 1
      ensures seen[i] != seen[i + 1]
    {
      if i > 0 {
        assert seen[i] == values[i - 1] && seen[i + 1] == values[i];
      }
    }
  }

  /** Every run starts by publishing `loading(null)` and never republishes an equal value. */
  lemma RunPublishesChangesOnly<R, Q>(shouldFetch: Option<R> -> bool, mode: Mode, events: seq<Event<R, Q>>)
    ensures var t := Run(shouldFetch, mode, events);
      0 < |t.published| && t.published[0] == Resource.Loading(None)
      && (forall i :: 0 <= i < |t.published| - 1 ==> t.published[i] != t.published[i + 1])
  {
    var i := Init<R, Q>(mode);
    PublishedValuesChange(shouldFetch, i.state, events);
    assert Run(shouldFetch, mode, events).published == [i.state.current] + RunFrom(shouldFetch, i.state, events).published;
  }

  /** Outside the first-value phase nothing ever calls `shouldFetch` or `createCall`. */
  lemma {:induction false} NoDecisionLater<R, Q>(shouldFetch: Option<R> -> bool, s: State<R, Q>, events: seq<Event<R, Q>>)
    requires !s.phase.AwaitFirstDb?
    ensures var h := RunFrom(shouldFetch, s, events).hooks;
      Count(h, IsShouldFetch) == 0 && Count(h, IsCreateCall) == 0
    decreases |events|
  {
    if |events| > 0 {
      var o := Step(shouldFetch, s, events[0]);
      NoDecisionLater(shouldFetch, o.state, events[1..]);
      NoDecisionInStep(o.hooks);
      CountAppend(o.hooks, RunFrom(shouldFetch, o.state, events[1..]).hooks, IsShouldFetch);
      CountAppend(o.hooks, RunFrom(shouldFetch, o.state, events[1..]).hooks, IsCreateCall);
    }
  }

  lemma {:induction false} NoDecisionInStep<R, Q>(hooks: seq<Hook<R, Q>>)
    requires CreateCall !in hooks && forall h :: h in hooks ==> !h.ShouldFetchCalled?
    ensures Count(hooks, IsShouldFetch) == 0 && Count(hooks, IsCreateCall) == 0
    decreases |hooks|
  {
    if |hooks| > 0 {
      assert hooks[0] in hooks;
      NoDecisionInStep(hooks[1..]);
    }
  }

  /**
   * From the first-value phase, `shouldFetch` is called once, with the first db value, if a db
   * value ever arrives, and `createCall` once exactly when that call answered yes.
   */
  lemma {:induction false} DecisionOnFirstValue<R, Q>(shouldFetch: Option<R> -> bool, s: State<R, Q>, events: seq<Event<R, Q>>)
    requires s.phase.AwaitFirstDb?
    ensures var h := RunFrom(shouldFetch, s, events).hooks;
      var first := FirstDbValue(events);
      && Count(h, IsShouldFetch) == (if first.Some? then 1 else 0)
      && Count(h, IsCreateCall) == (if first.Some? && shouldFetch(first.value) then 1 else 0)
      && (first.Some? ==> ShouldFetchCalled(first.value) in h)
    decreases |events|
  {
    if |events| > 0 {
      var o := Step(shouldFetch, s, events[0]);
      var rest := RunFrom(shouldFetch, o.state, events[1..]).hooks;
      CountAppend(o.hooks, rest, IsShouldFetch);
      CountAppend(o.hooks, rest, IsCreateCall);
      assert RunFrom(shouldFetch, s, events).hooks == o.hooks + rest;
      if events[0].DbValue? {
        NoDecisionLater(shouldFetch, o.state, events[1..]);
        assert o.hooks[0] == ShouldFetchCalled(events[0].value);
        assert Count(o.hooks[1..], IsShouldFetch) == 0;
      } else {
        assert o.state == s;
        DecisionOnFirstValue(shouldFetch, s, events[1..]);
      }
    }
  }

  /**
   * Database mode: `loadFromDb` starts the run, `shouldFetch` sees only the first db value, and
   * `createCall` is invoked once if that call answered yes and never otherwise.
   */
  lemma DatabaseModeDecision<R, Q>(shouldFetch: Option<R> -> bool, events: seq<Event<R, Q>>)
    ensures var h := Run(shouldFetch, WithDatabase, events).hooks;
      var first := FirstDbValue(events);
      && h[0] == LoadFromDb
      && Count(h, IsShouldFetch) == (if first.Some? then 1 else 0)
      && (first.Some? ==> ShouldFetchCalled(first.value) in h)
      && Count(h, IsCreateCall) == (if first.Some? && shouldFetch(first.value) then 1 else 0)
  {
    var i := Init<R, Q>(WithDatabase);
    var rest := RunFrom(shouldFetch, i.state, events).hooks;
    DecisionOnFirstValue(shouldFetch, i.state, events);
    CountAppend(i.hooks, rest, IsShouldFetch);
    CountAppend(i.hooks, rest, IsCreateCall);
  }

  /** The three LiveData sources whose emissions the mediator republishes. */
  datatype Source = FirstDb | FreshDb | Mapped

  /** How a phase that keeps a source attached republishes what it emits. */
  datatype Wrapping = AsSuccess | AsLoading | AsError(error: Error)

  function Wrap<R>(how: Wrapping, v: Option<R>): Resource<R>
  {
    match how
    case AsSuccess => Resource.Success(v)
    case AsLoading => Resource.Loading(v)
    case AsError(err) => Resource.Failed(v, err)
  }

  /** The event by which `source` emits `v`. */
  function Emission<R, Q>(source: Source, v: Option<R>): Event<R, Q>
  {
    match source
    case FirstDb => DbValue(v)
    case FreshDb => FreshDbValue(v)
    case Mapped => MappedValue(v)
  }

  predicate EmittedBy<R, Q>(source: Source, e: Event<R, Q>)
  {
    match source
    case FirstDb => e.DbValue?
    case FreshDb => e.FreshDbValue?
    case Mapped => e.MappedValue?
  }

  /**
   * The phases in which `source` is attached to the mediator and each value it emits is set
   * wrapped as `how`: the cache served after a refusal, the call in flight, the error after a
   * failed call, the fresh load after a successful or empty call, and the mapped result in
   * network-only mode.
   */
  predicate Serves<R, Q>(phase: Phase<R, Q>, source: Source, how: Wrapping)
  {
    match phase
    case ServeCache => source == FirstDb && how == AsSuccess
    case Fetching(_) => source == FirstDb && how == AsLoading
    case Failed(err) => source == FirstDb && how == AsError(err)
    case Reloaded => source == FreshDb && how == AsSuccess
    case Mapping => source == Mapped && how == AsSuccess
    case _ => false
  }

  /** The values `source` emits among `events`, in order, each wrapped as `how` says. */
  function Emissions<R, Q>(events: seq<Event<R, Q>>, source: Source, how: Wrapping): seq<Resource<R>>
  {
    if |events| == 0 then []
    else (if EmittedBy(source, events[0]) then [Wrap(how, events[0].value)] else [])
         + Emissions(events[1..], source, how)
  }

  /**
   * The reference for what observers see of a stream of values offered to the mediator, which
   * starts out holding `held`: each value that differs from the one held just before it.
   */
  function Changes<T(==)>(held: T, values: seq<T>): seq<T>
  {
    if |values| == 0 then []
    else if values[0] == held then Changes(held, values[1..])
    else [values[0]] + Changes(values[0], values[1..])
  }

  /** Every value `Changes` lets through is one of the values offered. */
  lemma {:induction false} ChangesDrawnFrom<T>(held: T, values: seq<T>)
    ensures forall x :: x in Changes(held, values) ==> x in values
    decreases |values|
  {
    if |values| > 0 {
      ChangesDrawnFrom(held, values[1..]);
      ChangesDrawnFrom(values[0], values[1..]);
    }
  }

  /** Every emission wraps the value of an event of its source. */
  lemma {:induction false} EmissionsFromEvents<R, Q>(events: seq<Event<R, Q>>, source: Source, how: Wrapping)
    ensures forall x :: x in Emissions(events, source, how) ==>
      x == Wrap(how, x.data) && Emission(source, x.data) in events
    decreases |events|
  {
    if |events| > 0 {
      EmissionsFromEvents(events[1..], source, how);
      assert forall e :: e in events[1..] ==> e in events;
      assert events[0] in events;
      assert EmittedBy(source, events[0]) ==> events[0] == Emission(source, events[0].value);
    }
  }

  /** What observers see of a source's emissions are wrapped values of that source's events. */
  lemma WrappedValues<R, Q>(held: Resource<R>, events: seq<Event<R, Q>>, source: Source, how: Wrapping)
    ensures var seen := Changes(held, Emissions(events, source, how));
      forall i :: 0 <= i < |seen| ==>
        seen[i] == Wrap(how, seen[i].data) && Emission(source, seen[i].data) in events
  {
    var seen := Changes(held, Emissions(events, source, how));
    ChangesDrawnFrom(held, Emissions(events, source, how));
    EmissionsFromEvents(events, source, how);
    forall i | 0 <= i < |seen|
      ensures seen[i] == Wrap(how, seen[i].data) && Emission(source, seen[i].data) in events
    {
      assert seen[i] in seen;
    }
  }

  /**
   * In a phase where `source` is attached, a value v it emits is set as the wrapped v and
   * published exactly when that differs from the value held; any other event that is not the
   * call's result changes nothing. No hook runs and the source stays attached.
   */
  lemma RepublishStep<R, Q>(shouldFetch: Option<R> -> bool, s: State<R, Q>, e: Event<R, Q>, source: Source, how: Wrapping)
    requires Serves(s.phase, source, how)
    requires s.phase.Fetching? ==> !e.ApiResult?
    ensures var o := Step(shouldFetch, s, e);
      && o.hooks == []
      && Serves(o.state.phase, source, how)
      && (EmittedBy(source, e) ==> o.state.current == Wrap(how, e.value))
      && (EmittedBy(source, e) ==> (o.published.Some? <==> Wrap(how, e.value) != s.current))
      && (EmittedBy(source, e) && o.published.Some? ==> o.published.value == Wrap(how, e.value))
      && (!EmittedBy(source, e) ==> o.state == s && o.published.None?)
  {
  }

  /** The run of `RepublishStep`s: what is published is `Changes` of the wrapped emissions. */
  lemma {:induction false} RepublishRun<R, Q>(shouldFetch: Option<R> -> bool, s: State<R, Q>, events: seq<Event<R, Q>>,
                                              source: Source, how: Wrapping)
    requires Serves(s.phase, source, how)
    requires s.phase.Fetching? ==> !HasApiResult(events)
    ensures var t := RunFrom(shouldFetch, s, events);
      && t.hooks == []
      && t.published == Changes(s.current, Emissions(events, source, how))
      && Serves(t.state.phase, source, how)
    decreases |events|
  {
    if |events| > 0 {
      var o := Step(shouldFetch, s, events[0]);
      if s.phase.Fetching? {
        NoApiResultInTail(events);
      }
      RepublishStep(shouldFetch, s, events[0], source, how);
      RepublishRun(shouldFetch, o.state, events[1..], source, how);
      var rest := Emissions(events[1..], source, how);
      if EmittedBy(source, events[0]) {
        var w := Wrap(how, events[0].value);
        assert Emissions(events, source, how) == [w] + rest;
        assert ([w] + rest)[1..] == rest;
      } else {
        assert Emissions(events, source, how) == rest;
      }
    }
  }

  /**
   * Once `shouldFetch` has said no, each db value v is published as `Success(v)` whenever it
   * differs from the value held, nothing else is published, and no hook is called.
   */
  lemma CacheServedAsSuccess<R, Q>(shouldFetch: Option<R> -> bool, s: State<R, Q>, events: seq<Event<R, Q>>)
    requires s.phase.ServeCache?
    ensures var t := RunFrom(shouldFetch, s, events);
      && t.hooks == [] && t.state.phase.ServeCache?
      && t.published == Changes(s.current, Emissions(events, FirstDb, AsSuccess))
      && forall i :: 0 <= i < |t.published| ==>
           t.published[i] == Resource.Success(t.published[i].data) && DbValue(t.published[i].data) in events
  {
    RepublishRun(shouldFetch, s, events, FirstDb, AsSuccess);
    WrappedValues(s.current, events, FirstDb, AsSuccess);
  }

  /**
   * Database mode when `shouldFetch` refuses the first db value: the call is never created, and
   * from that value on each db value v is published as `Success(v)` whenever it differs from
   * the value held; nothing else is published.
   */
  lemma {:induction false} RefusedFetchServesCache<R, Q>(shouldFetch: Option<R> -> bool, s: State<R, Q>, events: seq<Event<R, Q>>)
    requires s.phase.AwaitFirstDb?
    requires FirstDbValue(events).Some? && !shouldFetch(FirstDbValue(events).value)
    ensures var t := RunFrom(shouldFetch, s, events);
      && Count(t.hooks, IsCreateCall) == 0
      && t.published == Changes(s.current, Emissions(events, FirstDb, AsSuccess))
      && forall i :: 0 <= i < |t.published| ==>
           t.published[i] == Resource.Success(t.published[i].data) && DbValue(t.published[i].data) in events
    decreases |events|
  {
    DecisionOnFirstValue(shouldFetch, s, events);
    var o := Step(shouldFetch, s, events[0]);
    var rest := Emissions(events[1..], FirstDb, AsSuccess);
    if events[0].DbValue? {
      CacheServedAsSuccess(shouldFetch, o.state, events[1..]);
      var w := Resource.Success(events[0].value);
      assert Emissions(events, FirstDb, AsSuccess) == [w] + rest;
      assert ([w] + rest)[1..] == rest;
    } else {
      RefusedFetchServesCache(shouldFetch, o.state, events[1..]);
      assert Emissions(events, FirstDb, AsSuccess) == rest;
    }
    WrappedValues(s.current, events, FirstDb, AsSuccess);
  }

  /**
   * While the call is in flight each db value v is published as `Loading(v)` whenever it
   * differs from the value held, nothing else is published, and no hook runs.
   */
  lemma LoadingWhileFetching<R, Q>(shouldFetch: Option<R> -> bool, s: State<R, Q>, events: seq<Event<R, Q>>)
    requires s.phase.Fetching? && !HasApiResult(events)
    ensures var t := RunFrom(shouldFetch, s, events);
      && t.hooks == [] && t.state.phase.Fetching?
      && t.published == Changes(s.current, Emissions(events, FirstDb, AsLoading))
      && forall i :: 0 <= i < |t.published| ==>
           t.published[i] == Resource.Loading(t.published[i].data) && DbValue(t.published[i].data) in events
  {
    RepublishRun(shouldFetch, s, events, FirstDb, AsLoading);
    WrappedValues(s.current, events, FirstDb, AsLoading);
  }

  /**
   * Database mode when `shouldFetch` accepts (or no db value has come yet): until the call's
   * result arrives, each db value v is published as `Loading(v)` whenever it differs from the
   * value held, and nothing else is published.
   */
  lemma {:induction false} LoadingUntilResult<R, Q>(shouldFetch: Option<R> -> bool, s: State<R, Q>, events: seq<Event<R, Q>>)
    requires s.phase.AwaitFirstDb? && !HasApiResult(events)
    requires FirstDbValue(events).None? || shouldFetch(FirstDbValue(events).value)
    ensures var t := RunFrom(shouldFetch, s, events);
      && t.published == Changes(s.current, Emissions(events, FirstDb, AsLoading))
      && forall i :: 0 <= i < |t.published| ==>
           t.published[i] == Resource.Loading(t.published[i].data) && DbValue(t.published[i].data) in events
    decreases |events|
  {
    if |events| > 0 {
      var o := Step(shouldFetch, s, events[0]);
      var rest := Emissions(events[1..], FirstDb, AsLoading);
      NoApiResultInTail(events);
      if events[0].DbValue? {
        assert shouldFetch(events[0].value);
        assert o.state.phase.Fetching?;
        LoadingWhileFetching(shouldFetch, o.state, events[1..]);
        var w := Resource.Loading(events[0].value);
        assert Emissions(events, FirstDb, AsLoading) == [w] + rest;
        assert ([w] + rest)[1..] == rest;
      } else {
        assert o.published.None? && o.state == s;
        assert FirstDbValue(events[1..]) == FirstDbValue(events);
        LoadingUntilResult(shouldFetch, o.state, events[1..]);
        assert Emissions(events, FirstDb, AsLoading) == rest;
      }
    }
    WrappedValues(s.current, events, FirstDb, AsLoading);
  }

  /** Once the call's result has been dispatched, no loading state is ever published again. */
  lemma {:induction false} NoLoadingAfterResult<R, Q>(shouldFetch: Option<R> -> bool, s: State<R, Q>, events: seq<Event<R, Q>>)
    requires s.phase.AfterResult()
    ensures var t := RunFrom(shouldFetch, s, events);
      t.state.phase.AfterResult() && forall i :: 0 <= i < |t.published| ==> t.published[i].status != LOADING
    decreases |events|
  {
    if |events| > 0 {
      NoLoadingAfterResult(shouldFetch, Step(shouldFetch, s, events[0]).state, events[1..]);
    }
  }

  /** The hooks still to come after a successful call, in the order they will run. */
  function Pending<R, Q>(phase: Phase<R, Q>): seq<Hook<R, Q>>
  {
    match phase
    case Saving(body) => [SaveCallResult(body), LoadFromDb]
    case AwaitReload => [LoadFromDb]
    case _ => []
  }

  /**
   * The events the fresh load sees, from `phase` on: those after the queued save has finished
   * (`SaveDone`) and then the posted block has subscribed the fresh load (`MainResumed`).
   */
  function AfterReload<R, Q>(phase: Phase<R, Q>, events: seq<Event<R, Q>>): seq<Event<R, Q>>
    requires phase.Saving? || phase.AwaitReload? || phase.Reloaded?
    decreases |events|
  {
    if phase.Reloaded? then events
    else if |events| == 0 then []
    else if phase.Saving? && events[0].SaveDone? then AfterReload(AwaitReload, events[1..])
    else if phase.AwaitReload? && events[0].MainResumed? then AfterReload(Reloaded, events[1..])
    else AfterReload(phase, events[1..])
  }

  /**
   * After a successful call the hooks run in a fixed order: `saveCallResult(body)` first, then
   * the fresh `loadFromDb()`, and nothing else. What is published is exactly each value v the
   * fresh load emits once subscribed, as `Success(v)`, whenever it differs from the value held.
   */
  lemma SaveBeforeReload<R, Q>(shouldFetch: Option<R> -> bool, s: State<R, Q>, events: seq<Event<R, Q>>)
    requires s.phase.Saving? || s.phase.AwaitReload? || s.phase.Reloaded?
    ensures var t := RunFrom(shouldFetch, s, events);
      var order := if s.phase.Saving? then [SaveCallResult(s.phase.body), LoadFromDb]
                   else if s.phase.AwaitReload? then [LoadFromDb] else [];
      && t.hooks <= order
      && t.published == Changes(s.current, Emissions(AfterReload(s.phase, events), FreshDb, AsSuccess))
      && forall i :: 0 <= i < |t.published| ==>
           t.published[i].status == SUCCESS && FreshDbValue(t.published[i].data) in events
  {
    HooksAfterSuccess(shouldFetch, s, events);
    ReloadedValuesPublished(shouldFetch, s, events);
    ReloadRun(shouldFetch, s, events);
  }

  /** Before the fresh load is subscribed nothing is published; after, `RepublishRun` applies. */
  lemma {:induction false} ReloadRun<R, Q>(shouldFetch: Option<R> -> bool, s: State<R, Q>, events: seq<Event<R, Q>>)
    requires s.phase.Saving? || s.phase.AwaitReload? || s.phase.Reloaded?
    ensures RunFrom(shouldFetch, s, events).published
      == Changes(s.current, Emissions(AfterReload(s.phase, events), FreshDb, AsSuccess))
    decreases |events|
  {
    if s.phase.Reloaded? {
      RepublishRun(shouldFetch, s, events, FreshDb, AsSuccess);
    } else if |events| > 0 {
      var o := Step(shouldFetch, s, events[0]);
      assert o.published.None? && o.state.current == s.current;
      ReloadRun(shouldFetch, o.state, events[1..]);
      assert AfterReload(s.phase, events) == AfterReload(o.state.phase, events[1..]);
    }
  }

  lemma {:induction false} HooksAfterSuccess<R, Q>(shouldFetch: Option<R> -> bool, s: State<R, Q>, events: seq<Event<R, Q>>)
    requires s.phase.Saving? || s.phase.AwaitReload? || s.phase.Reloaded?
    ensures RunFrom(shouldFetch, s, events).hooks <= Pending(s.phase)
    decreases |events|
  {
    if |events| > 0 {
      var o := Step(shouldFetch, s, events[0]);
      var rest := RunFrom(shouldFetch, o.state, events[1..]);
      StepAfterSuccess(shouldFetch, s, events[0]);
      HooksAfterSuccess(shouldFetch, o.state, events[1..]);
      PrefixExtend(o.hooks, rest.hooks, Pending(o.state.phase));
    }
  }

  /** Every value published is a success carrying the data of a fresh-load emission among `events`. */
  ghost predicate FreshSuccesses<R, Q>(published: seq<Resource<R>>, events: seq<Event<R, Q>>)
  {
    forall i :: 0 <= i < |published| ==>
      published[i].status == SUCCESS && FreshDbValue(published[i].data) in events
  }

  lemma {:induction false} ReloadedValuesPublished<R, Q>(shouldFetch: Option<R> -> bool, s: State<R, Q>, events: seq<Event<R, Q>>)
    requires s.phase.Saving? || s.phase.AwaitReload? || s.phase.Reloaded?
    ensures FreshSuccesses(RunFrom(shouldFetch, s, events).published, events)
    decreases |events|
  {
    if |events| > 0 {
      var o := Step(shouldFetch, s, events[0]);
      var rest := RunFrom(shouldFetch, o.state, events[1..]);
      StepAfterSuccess(shouldFetch, s, events[0]);
      ReloadedValuesPublished(shouldFetch, o.state, events[1..]);
      FreshSuccessesCons(o.published, rest.published, events);
    }
  }

  lemma FreshSuccessesCons<R, Q>(head: Option<Resource<R>>, tail: seq<Resource<R>>, events: seq<Event<R, Q>>)
    requires |events| > 0
    requires head.Some? ==> head.value.status == SUCCESS && events[0] == FreshDbValue(head.value.data)
    requires FreshSuccesses(tail, events[1..])
    ensures FreshSuccesses(OptionToSeq(head) + tail, events)
  {
    var p := OptionToSeq(head) + tail;
    forall i | 0 <= i < |p|
      ensures p[i].status == SUCCESS && FreshDbValue(p[i].data) in events
    {
      if head.Some? && i == 0 {
        assert p[i] == head.value;
        assert events[0] in events;
      } else {
        var k := if head.Some? then i - 1 else i;
        assert p[i] == tail[k];
        assert FreshDbValue(tail[k].data) in events[1..];
        assert events == [events[0]] + events[1..];
      }
    }
  }

  lemma PrefixExtend<T>(a: seq<T>, x: seq<T>, b: seq<T>)
    requires x <= b
    ensures a + x <= a + b
  {
    assert a + x == (a + b)[..|a| + |x|];
  }

  /**
   * One step after a successful call: the save runs on `SaveDone`, the fresh load is subscribed
   * on `MainResumed`, and only the fresh load's values are published, as successes.
   */
  lemma StepAfterSuccess<R, Q>(shouldFetch: Option<R> -> bool, s: State<R, Q>, e: Event<R, Q>)
    requires s.phase.Saving? || s.phase.AwaitReload? || s.phase.Reloaded?
    ensures var o := Step(shouldFetch, s, e);
      && (o.state.phase.Saving? || o.state.phase.AwaitReload? || o.state.phase.Reloaded?)
      && o.hooks + Pending(o.state.phase) == Pending(s.phase)
      && (o.published.Some? ==> o.published.value.status == SUCCESS && e == FreshDbValue(o.published.value.data))
  {
  }

  /** A successful call in database mode saves, reloads, and publishes only successes. */
  lemma SuccessSavesThenReloads<R, Q>(shouldFetch: Option<R> -> bool, latest: Option<R>, body: Q,
                                          links: map<string, string>, s: State<R, Q>, events: seq<Event<R, Q>>)
    requires s.phase == Fetching(latest)
    ensures var o := Step(shouldFetch, s, ApiResult(Responses.Success(body, links)));
      var t := RunFrom(shouldFetch, o.state, events);
      o.published.None? && o.hooks == []
      && t.hooks <= [SaveCallResult(body), LoadFromDb]
      && forall i :: 0 <= i < |t.published| ==> t.published[i].status == SUCCESS
  {
    SaveBeforeReload(shouldFetch, Step(shouldFetch, s, ApiResult(Responses.Success(body, links))).state, events);
  }

  /** An empty result skips the save and goes straight to a fresh load. */
  lemma EmptySkipsSave<R, Q>(shouldFetch: Option<R> -> bool, latest: Option<R>, s: State<R, Q>, events: seq<Event<R, Q>>)
    requires s.phase == Fetching(latest)
    ensures var o := Step(shouldFetch, s, ApiResult(Responses.Empty));
      var t := RunFrom(shouldFetch, o.state, events);
      o.published.None? && o.hooks == [] && t.hooks <= [LoadFromDb]
  {
    SaveBeforeReload(shouldFetch, Step(shouldFetch, s, ApiResult(Responses.Empty)).state, events);
  }

  /**
   * After a failed call the db source stays attached: each db value v is published as the error
   * carrying v whenever that differs from the value held, nothing else is published, and no
   * hook runs.
   */
  lemma ErrorServedWithDbValues<R, Q>(shouldFetch: Option<R> -> bool, s: State<R, Q>, events: seq<Event<R, Q>>)
    requires s.phase.Failed?
    ensures var t := RunFrom(shouldFetch, s, events);
      && t.hooks == [] && t.state.phase == s.phase
      && t.published == Changes(s.current, Emissions(events, FirstDb, AsError(s.phase.error)))
      && forall i :: 0 <= i < |t.published| ==>
           t.published[i] == Resource.Failed(t.published[i].data, s.phase.error)
           && DbValue(t.published[i].data) in events
  {
    RepublishRun(shouldFetch, s, events, FirstDb, AsError(s.phase.error));
    WrappedValues(s.current, events, FirstDb, AsError(s.phase.error));
  }

  /**
   * A failed call calls `onFetchFailed` once and publishes the error with the latest db data in
   * database mode, with no data in network-only mode.
   */
  lemma ErrorPublished<R, Q>(shouldFetch: Option<R> -> bool, s: State<R, Q>, code: int, message: string)
    requires Coherent(s) && (s.phase.Fetching? || s.phase.NetFetching?)
    ensures var o := Step(shouldFetch, s, ApiResult(Responses.Error(code, message)));
      var data := if s.phase.Fetching? then s.phase.latest else None;
      o.hooks == [OnFetchFailed]
      && o.published == Some(Resource.Failed(data, Error(code, message)))
  {
  }

  /** After the result, `onFetchFailed` is never called again. */
  lemma {:induction false} NoFailureHookAfterResult<R, Q>(shouldFetch: Option<R> -> bool, s: State<R, Q>, events: seq<Event<R, Q>>)
    requires s.phase.AfterResult()
    ensures Count(RunFrom(shouldFetch, s, events).hooks, IsFetchFailed) == 0
    decreases |events|
  {
    if |events| > 0 {
      var o := Step(shouldFetch, s, events[0]);
      StepAfterResult(shouldFetch, s, events[0]);
      NoFailureHookAfterResult(shouldFetch, o.state, events[1..]);
      CountAppend(o.hooks, RunFrom(shouldFetch, o.state, events[1..]).hooks, IsFetchFailed);
    }
  }

  /** After the result a step calls at most one hook, and never `onFetchFailed`. */
  lemma StepAfterResult<R, Q>(shouldFetch: Option<R> -> bool, s: State<R, Q>, e: Event<R, Q>)
    requires s.phase.AfterResult()
    ensures var o := Step(shouldFetch, s, e);
      o.state.phase.AfterResult() && Count(o.hooks, IsFetchFailed) == 0
  {
    var o := Step(shouldFetch, s, e);
    if |o.hooks| == 1 {
      assert o.hooks[1..] == [];
    }
  }

  /** Network-only mode never consults `shouldFetch`, never loads from or saves to the database. */
  lemma {:induction false} NetworkOnlyHooks<R, Q>(shouldFetch: Option<R> -> bool, s: State<R, Q>, events: seq<Event<R, Q>>)
    requires s.phase.InNetworkMode()
    ensures var h := RunFrom(shouldFetch, s, events).hooks;
      Count(h, IsShouldFetch) == 0 && Count(h, IsLoadFromDb) == 0 && Count(h, IsSave) == 0
      && Count(h, IsCreateCall) == 0
    decreases |events|
  {
    if |events| > 0 {
      var o := Step(shouldFetch, s, events[0]);
      var rest := RunFrom(shouldFetch, o.state, events[1..]).hooks;
      StepInNetworkMode(shouldFetch, s, events[0]);
      NetworkOnlyHooks(shouldFetch, o.state, events[1..]);
      CountAppend(o.hooks, rest, IsShouldFetch);
      CountAppend(o.hooks, rest, IsLoadFromDb);
      CountAppend(o.hooks, rest, IsSave);
      CountAppend(o.hooks, rest, IsCreateCall);
    }
  }

  /** One step in network-only mode stays in that mode and runs none of the database hooks. */
  lemma StepInNetworkMode<R, Q>(shouldFetch: Option<R> -> bool, s: State<R, Q>, e: Event<R, Q>)
    requires s.phase.InNetworkMode()
    ensures var o := Step(shouldFetch, s, e);
      && o.state.phase.InNetworkMode()
      && Count(o.hooks, IsShouldFetch) == 0 && Count(o.hooks, IsLoadFromDb) == 0
      && Count(o.hooks, IsSave) == 0 && Count(o.hooks, IsCreateCall) == 0
  {
    var o := Step(shouldFetch, s, e);
    if |o.hooks| == 1 {
      assert o.hooks[1..] == [];
    }
  }

  /** A whole network-only run: one `createCall`, and none of the database hooks. */
  lemma NetworkOnlyRun<R, Q>(shouldFetch: Option<R> -> bool, events: seq<Event<R, Q>>)
    ensures var h := Run(shouldFetch, NetworkOnly, events).hooks;
      h[0] == CreateCall && Count(h, IsCreateCall) == 1
      && Count(h, IsShouldFetch) == 0 && Count(h, IsLoadFromDb) == 0 && Count(h, IsSave) == 0
  {
    var i := Init<R, Q>(NetworkOnly);
    var rest := RunFrom(shouldFetch, i.state, events).hooks;
    NetworkOnlyHooks(shouldFetch, i.state, events);
    CountAppend(i.hooks, rest, IsShouldFetch);
    CountAppend(i.hooks, rest, IsLoadFromDb);
    CountAppend(i.hooks, rest, IsSave);
    CountAppend(i.hooks, rest, IsCreateCall);
  }

  /**
   * Network-only mode: a successful call hands its body to `mapRequestToResult` without
   * publishing, and from then on each value v the mapped source emits is published as
   * `Success(v)` whenever it differs from the value held, with no further hook.
   */
  lemma NetworkSuccessMaps<R, Q>(shouldFetch: Option<R> -> bool, s: State<R, Q>, body: Q,
                                 links: map<string, string>, events: seq<Event<R, Q>>)
    requires s.phase.NetFetching?
    ensures var o := Step(shouldFetch, s, ApiResult(Responses.Success(body, links)));
      var t := RunFrom(shouldFetch, o.state, events);
      && o.published.None? && o.hooks == [MapRequestToResult(body)]
      && t.hooks == []
      && t.published == Changes(s.current, Emissions(events, Mapped, AsSuccess))
      && forall i :: 0 <= i < |t.published| ==>
           t.published[i] == Resource.Success(t.published[i].data) && MappedValue(t.published[i].data) in events
  {
    MappedServedAsSuccess(shouldFetch, Step(shouldFetch, s, ApiResult(Responses.Success(body, links))).state, events);
  }

  /**
   * While the mapped source is attached, each value v it emits is published as `Success(v)`
   * whenever it differs from the value held, nothing else is published, and no hook runs.
   */
  lemma MappedServedAsSuccess<R, Q>(shouldFetch: Option<R> -> bool, s: State<R, Q>, events: seq<Event<R, Q>>)
    requires s.phase.Mapping?
    ensures var t := RunFrom(shouldFetch, s, events);
      && t.hooks == [] && t.state.phase.Mapping?
      && t.published == Changes(s.current, Emissions(events, Mapped, AsSuccess))
      && forall i :: 0 <= i < |t.published| ==>
           t.published[i] == Resource.Success(t.published[i].data) && MappedValue(t.published[i].data) in events
  {
    RepublishRun(shouldFetch, s, events, Mapped, AsSuccess);
    WrappedValues(s.current, events, Mapped, AsSuccess);
  }

  // ---------------------------------------------------------------------------------------------
  // Whole runs on concrete inputs
  // ---------------------------------------------------------------------------------------------

  /** A cached value that `shouldFetch` accepts is served as a success without any call. */
  lemma CachedScenario()
    ensures var events: seq<Event<int, string>> := [DbValue(Some(7))];
      var t := Run((v: Option<int>) => false, WithDatabase, events);
      t.published == [Resource.Loading(None), Resource.Success(Some(7))]
      && t.hooks == [LoadFromDb, ShouldFetchCalled(Some(7))]
  {
    var e: seq<Event<int, string>> := [DbValue(Some(7))];
    assert e[1..] == [];
  }

  /**
   * From a call in flight, a successful result, the save, the main-thread hop and a fresh value
   * publish exactly one success carrying the fresh value, after saving then reloading.
   */
  lemma SaveReloadSequence<R, Q>(shouldFetch: Option<R> -> bool, latest: Option<R>, body: Q,
                                 links: map<string, string>, v: Option<R>)
    ensures var events := [ApiResult(Responses.Success(body, links)), SaveDone, MainResumed, FreshDbValue(v)];
      var t := RunFrom(shouldFetch, State(Fetching(latest), Resource.Loading(latest)), events);
      t.state == State(Reloaded, Resource.Success(v))
      && t.published == [Resource.Success(v)] && t.hooks == [SaveCallResult(body), LoadFromDb]
  {
    var f := shouldFetch;
    var e2, e3, e4, e5 := ApiResult(Responses.Success(body, links)), SaveDone, MainResumed, FreshDbValue(v);
    var s1 := State(Fetching(latest), Resource.Loading(latest));
    var s2 := State(Saving(body), Resource.Loading(latest));
    var s3 := State(AwaitReload, Resource.Loading(latest));
    ReloadThenValue<R, Q>(f, Resource.Loading(latest), v);
    assert [e4] + [e5] == [e4, e5];
    assert Step(f, s2, e3) == Output(s3, None, [SaveCallResult(body)]);
    RunCons(f, s2, e3, [e4] + [e5]);
    assert Step(f, s1, e2) == Output(s2, None, []);
    RunCons(f, s1, e2, [e3] + ([e4] + [e5]));
    assert [e2] + ([e3] + ([e4] + [e5])) == [e2, e3, e4, e5];
  }

  /** The posted block subscribes the fresh load, whose first value is published as a success. */
  lemma ReloadThenValue<R, Q>(shouldFetch: Option<R> -> bool, current: Resource<R>, v: Option<R>)
    requires current.status == LOADING
    ensures var events: seq<Event<R, Q>> := [MainResumed, FreshDbValue(v)];
      RunFrom(shouldFetch, State(AwaitReload, current), events)
        == Trace(State(Reloaded, Resource.Success(v)), [Resource.Success(v)], [LoadFromDb])
  {
    var f := shouldFetch;
    var e4: Event<R, Q> := MainResumed;
    var e5: Event<R, Q> := FreshDbValue(v);
    var s3 := State(AwaitReload, current);
    var s4 := State(Reloaded, current);
    var s5 := State(Reloaded, Resource.Success(v));
    assert Step(f, s4, e5) == Output(s5, Some(Resource.Success(v)), []);
    RunCons(f, s4, e5, []);
    assert Step(f, s3, e4) == Output(s4, None, [LoadFromDb]);
    RunCons(f, s3, e4, [e5]);
    assert [e4] + [e5] == [e4, e5];
  }

  /** A stale cached value: loading with the cache, save, reload, then success with the fresh data. */
  lemma FetchScenario(body: string, links: map<string, string>)
    ensures var events: seq<Event<int, string>> :=
        [DbValue(Some(1)), ApiResult(Responses.Success(body, links)), SaveDone, MainResumed, FreshDbValue(Some(2))];
      var t := Run((v: Option<int>) => true, WithDatabase, events);
      t.published == [Resource.Loading(None), Resource.Loading(Some(1)), Resource.Success(Some(2))]
      && t.hooks == [LoadFromDb, ShouldFetchCalled(Some(1)), CreateCall, SaveCallResult(body), LoadFromDb]
  {
    var f := (v: Option<int>) => true;
    var e1 := DbValue(Some(1));
    var tail := [ApiResult(Responses.Success(body, links)), SaveDone, MainResumed, FreshDbValue(Some(2))];
    var s0 := Init<int, string>(WithDatabase).state;
    var s1 := State(Fetching(Some(1)), Resource.Loading(Some(1)));
    SaveReloadSequence(f, Some(1), body, links, Some(2));
    assert Step(f, s0, e1) == Output(s1, Some(Resource.Loading(Some(1))), [ShouldFetchCalled(Some(1)), CreateCall]);
    RunCons(f, s0, e1, tail);
    assert [e1] + tail == [e1, tail[0], tail[1], tail[2], tail[3]];
  }

  /** Running a non-empty sequence is one step followed by the run of the rest. */
  lemma RunCons<R, Q>(shouldFetch: Option<R> -> bool, s: State<R, Q>, e: Event<R, Q>, rest: seq<Event<R, Q>>)
    ensures var o := Step(shouldFetch, s, e);
      var t := RunFrom(shouldFetch, o.state, rest);
      RunFrom(shouldFetch, s, [e] + rest) == Trace(t.state, OptionToSeq(o.published) + t.published, o.hooks + t.hooks)
  {
    assert ([e] + rest)[0] == e && ([e] + rest)[1..] == rest;
  }

  /**
   * The error state is not final: while the db source stays attached, each new db value
   * publishes another error carrying that value, so one fetch decision can publish several
   * error states.
   */
  lemma ErrorRepublishedOnDbChange(code: int, message: string)
    ensures var events: seq<Event<int, string>> :=
        [DbValue(Some(1)), ApiResult(Responses.Error(code, message)), DbValue(Some(2))];
      var t := Run((v: Option<int>) => true, WithDatabase, events);
      t.published == [Resource.Loading(None), Resource.Loading(Some(1)),
                      Resource.Failed(Some(1), Error(code, message)), Resource.Failed(Some(2), Error(code, message))]
      && t.hooks == [LoadFromDb, ShouldFetchCalled(Some(1)), CreateCall, OnFetchFailed]
  {
    var f := (v: Option<int>) => true;
    var e1 := DbValue(Some(1));
    var tail := [ApiResult(Responses.Error(code, message)), DbValue(Some(2))];
    var s0 := Init<int, string>(WithDatabase).state;
    var s1 := State(Fetching(Some(1)), Resource.Loading(Some(1)));
    FailureThenDbValue<int, string>(f, Some(1), code, message, Some(2));
    assert Step(f, s0, e1) == Output(s1, Some(Resource.Loading(Some(1))), [ShouldFetchCalled(Some(1)), CreateCall]);
    RunCons(f, s0, e1, tail);
    assert [e1] + tail == [e1, tail[0], tail[1]];
  }

  /**
   * From a call in flight, a failed result publishes the error with the latest db data, and a
   * later db value that differs publishes the error again with that value.
   */
  lemma FailureThenDbValue<R, Q>(shouldFetch: Option<R> -> bool, latest: Option<R>, code: int, message: string, v: Option<R>)
    requires v != latest
    ensures var events: seq<Event<R, Q>> := [ApiResult(Responses.Error(code, message)), DbValue(v)];
      var t := RunFrom(shouldFetch, State(Fetching(latest), Resource.Loading(latest)), events);
      var err := Error(code, message);
      t.published == [Resource.Failed(latest, err), Resource.Failed(v, err)] && t.hooks == [OnFetchFailed]
  {
    var f := shouldFetch;
    var err := Error(code, message);
    var e2: Event<R, Q> := ApiResult(Responses.Error(code, message));
    var e3: Event<R, Q> := DbValue(v);
    var s1 := State(Fetching(latest), Resource.Loading(latest));
    var s2 := State(Failed(err), Resource.Failed(latest, err));
    var s3 := State(Failed(err), Resource.Failed(v, err));
    assert Step(f, s2, e3) == Output(s3, Some(Resource.Failed(v, err)), []);
    RunCons(f, s2, e3, []);
    assert Step(f, s1, e2) == Output(s2, Some(Resource.Failed(latest, err)), [OnFetchFailed]);
    RunCons(f, s1, e2, [e3]);
    assert [e2] + [e3] == [e2, e3];
  }
  /** Network-only: an empty result publishes success with no data. */
  lemma NetworkEmptyScenario()
    ensures var events: seq<Event<int, string>> := [ApiResult(Responses.Empty)];
      var t := Run((v: Option<int>) => true, NetworkOnly, events);
      t.published == [Resource.Loading(None), Resource.Success(None)] && t.hooks == [CreateCall]
  {
    var e: seq<Event<int, string>> := [ApiResult(Responses.Empty)];
    assert e[1..] == [];
  }
}
