/**
 * The Retrofit call-adapter factory that turns a `Call` into a `LiveData<ApiResponse<R>>`:
 * the shape check that `get` performs on the declared return type, and the lazily started,
 * single-shot stream that `adapt` returns.
 *
 * Java reflection types are an abstract descriptor. Retrofit's `getRawType` and
 * `getParameterUpperBound` are modelled after their documented behaviour.
 */
module CallAdapter {
  import opened Wrappers
  import Responses

  const LIVE_DATA: string := "android.arch.lifecycle.LiveData"
  const API_RESPONSE: string := "com.voonapp.boilerplate.data.remote.adapter.ApiResponse"
  const OBJECT: string := "java.lang.Object"
  const NOT_A_RESOURCE: string := "Type must be a resource."
  const NOT_PARAMETERIZED: string := "Resource must be parameterized."

  /** A `java.lang.reflect.Type`. */
  datatype TypeDesc =
    | ClassType(name: string)
    | ParamType(raw: string, args: seq<TypeDesc>)
    | WildcardType(upper: TypeDesc)
    | TypeVar(name: string)
    | ArrayType(component: TypeDesc)

  /** A `Class` object: a named class or an array class. */
  datatype RawClass = Named(name: string) | ArrayClass(component: RawClass)

  /** `getRawType`: the class a type erases to; a type variable erases to `Object`. */
  function RawType(t: TypeDesc): (c: RawClass)
    ensures t.ClassType? ==> c == Named(t.name)
    ensures t.ParamType? ==> c == Named(t.raw)
    ensures t.TypeVar? ==> c == Named(OBJECT)
    ensures c.ArrayClass? <==> t.ArrayType? || (t.WildcardType? && RawType(t.upper).ArrayClass?)
  {
    match t
    case ClassType(n) => Named(n)
    case ParamType(raw, _) => Named(raw)
    case WildcardType(upper) => RawType(upper)
    case TypeVar(_) => Named(OBJECT)
    case ArrayType(component) => ArrayClass(RawType(component))
  }

  /** What reflection and the factory can throw. */
  datatype Exception =
    | IllegalArgument(message: string)
    | ClassCast

  /** The message `getParameterUpperBound(0, …)` gives when there are no type arguments. */
  const NO_ARGUMENT: string := "Index 0 not in range [0,0)"

  /** `getParameterUpperBound(0, t)`: the first type argument, a wildcard replaced by its bound. */
  function FirstUpperBound(t: TypeDesc): (r: Result)
    requires t.ParamType?
    ensures |t.args| == 0 <==> r == Failure(IllegalArgument(NO_ARGUMENT))
    ensures |t.args| > 0 && !t.args[0].WildcardType? ==> r == Found(t.args[0])
    ensures |t.args| > 0 && t.args[0].WildcardType? ==> r == Found(t.args[0].upper)
  {
    if |t.args| == 0 then Failure(IllegalArgument(NO_ARGUMENT))
    else
      match t.args[0]
      case WildcardType(upper) => Found(upper)
      case other => Found(other)
  }

  datatype Result = Found(t: TypeDesc) | Failure(e: Exception)

  /** The outcome of `get`: null, an adapter with its response type, or a thrown exception. */
  datatype Outcome = Declined | Adapter(responseType: TypeDesc) | Thrown(e: Exception)

  /** `get(returnType, …)`. The checks run in the order `get` performs them; the first one that fails decides. */
  function Get(returnType: TypeDesc): (r: Outcome)
    ensures r.Declined? <==> RawType(returnType) != Named(LIVE_DATA)
    ensures r == Thrown(ClassCast) <==> RawType(returnType) == Named(LIVE_DATA) && !returnType.ParamType?
    ensures r == Thrown(IllegalArgument(NOT_A_RESOURCE)) <==>
      && returnType.ParamType? && returnType.raw == LIVE_DATA && |returnType.args| > 0
      && RawType(FirstUpperBound(returnType).t) != Named(API_RESPONSE)
    ensures r == Thrown(IllegalArgument(NOT_PARAMETERIZED)) <==>
      && returnType.ParamType? && returnType.raw == LIVE_DATA && |returnType.args| > 0
      && RawType(FirstUpperBound(returnType).t) == Named(API_RESPONSE)
      && !FirstUpperBound(returnType).t.ParamType?
    ensures r == Thrown(IllegalArgument(NO_ARGUMENT)) <==>
      && returnType.ParamType? && returnType.raw == LIVE_DATA
      && (|returnType.args| == 0
          || var observable := FirstUpperBound(returnType).t;
             observable.ParamType? && observable.raw == API_RESPONSE && |observable.args| == 0)
    ensures r.Adapter? <==>
      && returnType.ParamType? && returnType.raw == LIVE_DATA && |returnType.args| > 0
      && var observable := FirstUpperBound(returnType).t;
         observable.ParamType? && observable.raw == API_RESPONSE && |observable.args| > 0
    ensures r.Adapter? ==>
      && returnType.ParamType? && |returnType.args| > 0
      && var observable := FirstUpperBound(returnType).t;
         observable.ParamType? && |observable.args| > 0
         && r.responseType == FirstUpperBound(observable).t
  {
    if RawType(returnType) != Named(LIVE_DATA) then Declined
    else if !returnType.ParamType? then Thrown(ClassCast)
    else
      match FirstUpperBound(returnType)
      case Failure(e) => Thrown(e)
      case Found(observable) =>
        if RawType(observable) != Named(API_RESPONSE) then Thrown(IllegalArgument(NOT_A_RESOURCE))
        else if !observable.ParamType? then Thrown(IllegalArgument(NOT_PARAMETERIZED))
        else
          match FirstUpperBound(observable)
          case Failure(e) => Thrown(e)
          case Found(body) => Adapter(body)
  }

  /** `LiveData<ApiResponse<B>>` is adapted with response type `B`, for any body type `B`. */
  lemma AdaptsDeclaredBody(body: TypeDesc)
    ensures var t := if body.WildcardType? then body.upper else body;
      Get(ParamType(LIVE_DATA, [ParamType(API_RESPONSE, [body])])) == Adapter(t)
  {
  }

  /** The same holds when either type argument is a `? extends` wildcard. */
  lemma AdaptsWildcards(body: TypeDesc)
    requires !body.WildcardType?
    ensures Get(ParamType(LIVE_DATA, [WildcardType(ParamType(API_RESPONSE, [WildcardType(body)]))])) == Adapter(body)
  {
  }

  /** Any return type whose raw class is not `LiveData` is declined, whatever its arguments. */
  lemma DeclinesOtherContainers(raw: string, args: seq<TypeDesc>)
    requires raw != LIVE_DATA
    ensures Get(ParamType(raw, args)) == Declined && Get(ClassType(raw)) == Declined
  {
  }

  /**
   * The resource check comes first: a raw, non-`ApiResponse` argument such as `LiveData<String>`
   * reports "Type must be a resource.", not the parameterisation error; a raw `ApiResponse`
   * reports the parameterisation error.
   */
  lemma ResourceCheckFirst(name: string)
    requires name != API_RESPONSE
    ensures Get(ParamType(LIVE_DATA, [ClassType(name)])) == Thrown(IllegalArgument(NOT_A_RESOURCE))
    ensures Get(ParamType(LIVE_DATA, [ClassType(API_RESPONSE)])) == Thrown(IllegalArgument(NOT_PARAMETERIZED))
  {
  }

  // ---------------------------------------------------------------------------------------------
  // The stream returned by `adapt`
  // ---------------------------------------------------------------------------------------------

  /** What reaches the stream: an activation, or the enqueued call's single callback. */
  datatype CallEvent<T> =
    | Activate
    | Responded(response: Responses.Response<T>)
    | Failed(error: Responses.Throwable)

  /** What the stream does in reaction. */
  datatype Effect<T> = Enqueue | Post(value: Responses.ApiResponse<T>)

  /**
   * `started` is the stream's flag. `inFlight` records that the call is enqueued and its
   * callback has not run yet: the transport invokes exactly one callback per enqueue, so a
   * callback event with no call in flight is never delivered and has no effect.
   */
  datatype Stream = Stream(started: bool, inFlight: bool)

  const FRESH: Stream := Stream(false, false)

  /** `onActive` and the two callbacks. */
  function React<T>(s: Stream, e: CallEvent<T>): (r: (Stream, seq<Effect<T>>))
    ensures r.0.started == (s.started || e.Activate?)
    ensures (Enqueue in r.1) <==> e.Activate? && !s.started
    ensures e.Activate? && s.started ==> r.1 == []
    ensures e.Responded? && s.inFlight ==> r.1 == [Post(Responses.Create(e.response))]
    ensures e.Failed? && s.inFlight ==> r.1 == [Post(Responses.CreateFromFailure(e.error))]
    ensures !e.Activate? && !s.inFlight ==> r.1 == []
    ensures Consistent(s) ==> Consistent(r.0)
    ensures |r.1| <= 1
  {
    match e
    case Activate =>
      if s.started then (s, []) else (Stream(true, true), [Enqueue])
    case Responded(response) =>
      if s.inFlight then (Stream(s.started, false), [Post(Responses.Create(response))]) else (s, [])
    case Failed(error) =>
      if s.inFlight then (Stream(s.started, false), [Post(Responses.CreateFromFailure(error))]) else (s, [])
  }

  /** The effects of a sequence of events, in order, and the final state. */
  function ReactAll<T>(s: Stream, events: seq<CallEvent<T>>): (Stream, seq<Effect<T>>)
    decreases |events|
  {
    if |events| == 0 then (s, [])
    else
      var r := React(s, events[0]);
      var rest := ReactAll(r.0, events[1..]);
      (rest.0, r.1 + rest.1)
  }

  /** The events the `started` flag and the transport permit: a call is in flight only once started. */
  predicate Consistent(s: Stream)
  {
    s.inFlight ==> s.started
  }

  function EnqueueCount<T>(effects: seq<Effect<T>>): nat
  {
    if |effects| == 0 then 0 else (if effects[0].Enqueue? then 1 else 0) + EnqueueCount(effects[1..])
  }

  function PostCount<T>(effects: seq<Effect<T>>): nat
  {
    if |effects| == 0 then 0 else (if effects[0].Post? then 1 else 0) + PostCount(effects[1..])
  }

  lemma {:induction false} CountsAppend<T>(a: seq<Effect<T>>, b: seq<Effect<T>>)
    ensures EnqueueCount(a + b) == EnqueueCount(a) + EnqueueCount(b)
    ensures PostCount(a + b) == PostCount(a) + PostCount(b)
    decreases |a|
  {
    if |a| == 0 {
      assert a + b == b;
    } else {
      assert (a + b)[1..] == a[1..] + b;
      CountsAppend(a[1..], b);
    }
  }

  lemma CountsOfStep<T>(s: Stream, e: CallEvent<T>)
    ensures var r := React(s, e);
      && EnqueueCount(r.1) == (if e.Activate? && !s.started then 1 else 0)
      && PostCount(r.1) == (if !e.Activate? && s.inFlight then 1 else 0)
  {
    var r := React(s, e);
    if |r.1| == 1 {
      assert r.1[1..] == [];
    }
  }

  /**
   * However often the stream is activated, the call is enqueued once if an activation happens
   * and never otherwise; started streams never enqueue again; and no more values are posted
   * than calls were enqueued.
   */
  lemma {:induction false} EnqueueAtMostOnce<T>(s: Stream, events: seq<CallEvent<T>>)
    requires Consistent(s)
    ensures var r := ReactAll(s, events);
      && EnqueueCount(r.1) == (if !s.started && Activate in events then 1 else 0)
      && r.0.started == (s.started || Activate in events)
      && PostCount(r.1) <= EnqueueCount(r.1) + (if s.inFlight then 1 else 0)
      && Consistent(r.0)
    decreases |events|
  {
    if |events| > 0 {
      var r := React(s, events[0]);
      var rest := ReactAll(r.0, events[1..]);
      EnqueueAtMostOnce(r.0, events[1..]);
      CountsOfStep(s, events[0]);
      CountsAppend(r.1, rest.1);
      assert Activate in events <==> events[0].Activate? || Activate in events[1..] by {
        assert events == [events[0]] + events[1..];
      }
    }
  }

  /** A stream that is created and never activated never touches the call. */
  lemma NeverActivatedNeverEnqueues<T>(events: seq<CallEvent<T>>)
    requires Activate !in events
    ensures ReactAll(FRESH, events).1 == []
  {
    NoEffectsWhileIdle(events);
  }

  lemma {:induction false} NoEffectsWhileIdle<T>(events: seq<CallEvent<T>>)
    requires Activate !in events
    ensures ReactAll(FRESH, events) == (FRESH, [])
    decreases |events|
  {
    if |events| > 0 {
      assert events[0] in events;
      assert forall e :: e in events[1..] ==> e in events;
      assert React(FRESH, events[0]) == (FRESH, []);
      NoEffectsWhileIdle(events[1..]);
      var whole := ReactAll(FRESH, events);
      assert whole.0 == FRESH;
      assert whole.1 == React(FRESH, events[0]).1 + ReactAll(FRESH, events[1..]).1;
      assert whole.1 == [];
    }
  }

  /** Every value posted is the classification of a callback the transport delivered. */
  lemma {:induction false} PostsClassifyCallbacks<T>(s: Stream, events: seq<CallEvent<T>>)
    ensures forall i :: 0 <= i < |ReactAll(s, events).1| && ReactAll(s, events).1[i].Post? ==>
      exists e :: e in events && (
        || (e.Responded? && ReactAll(s, events).1[i].value == Responses.Create(e.response))
        || (e.Failed? && ReactAll(s, events).1[i].value == Responses.CreateFromFailure(e.error)))
    decreases |events|
  {
    if |events| > 0 {
      var r := React(s, events[0]);
      var rest := ReactAll(r.0, events[1..]);
      PostsClassifyCallbacks(r.0, events[1..]);
      var all := ReactAll(s, events).1;
      assert all == r.1 + rest.1;
      forall i | 0 <= i < |all| && all[i].Post?
        ensures exists e :: (e in events && (
          || (e.Responded? && all[i].value == Responses.Create(e.response))
          || (e.Failed? && all[i].value == Responses.CreateFromFailure(e.error))))
      {
        if i < |r.1| {
          assert events[0] in events;
        } else {
          assert all[i] == rest.1[i - |r.1|];
          var e :| e in events[1..] && (
            || (e.Responded? && rest.1[i - |r.1|].value == Responses.Create(e.response))
            || (e.Failed? && rest.1[i - |r.1|].value == Responses.CreateFromFailure(e.error)));
          assert e in events;
        }
      }
    }
  }

  lemma ReactAllCons<T>(s: Stream, e: CallEvent<T>, rest: seq<CallEvent<T>>)
    ensures var r := React(s, e);
      ReactAll(s, [e] + rest) == (ReactAll(r.0, rest).0, r.1 + ReactAll(r.0, rest).1)
  {
    assert ([e] + rest)[1..] == rest;
  }

  /** Activating three times around a response: one enqueue and one posted value. */
  lemma RepeatedActivation(response: Responses.Response<int>)
    ensures var events: seq<CallEvent<int>> := [Activate, Activate, Responded(response), Activate];
      ReactAll(FRESH, events).1 == [Enqueue, Post(Responses.Create(response))]
  {
    var events: seq<CallEvent<int>> := [Activate, Activate, Responded(response), Activate];
    var started := Stream(true, true);
    var done := Stream(true, false);
    ReactAllCons<int>(done, Activate, []);
    ReactAllCons(started, Responded(response), [Activate]);
    ReactAllCons(started, Activate, [Responded(response), Activate]);
    ReactAllCons(FRESH, Activate, [Activate, Responded(response), Activate]);
    assert events == [Activate] + [Activate, Responded(response), Activate];
  }
}
