# Offline-first resource pipeline of the Android boilerplate, in Dafny

This project models the logic core of the Voonder Android boilerplate and proves properties of
the model. It covers the pieces that decide what the app fetches, what it shows and how it
formats its version:

- **Response classification** (`api_response.dfy`, module `Responses`). A completed HTTP
  exchange or a transport failure becomes `Success(body, links)`, `Empty` or
  `Error(code, message)`. The `link` header is scanned for `<URI>; rel="token"` pairs, and
  `nextPage` is read from the `page=<digits>` parameter of the `next` link. Each of the two
  regular expressions is modelled by a hand-written scanner. Each of them matches
  deterministically from a given position, so trying positions left to right finds what
  `Matcher.find` finds.
- **Staleness gate** (`rate_limiter.dfy`, module `RateLimiting`). `RateLimiter` holds a per-key
  map of last-fetch times, with `shouldFetch`, `reset` and the conversion of the timeout to
  milliseconds.
- **Orchestrator** (`network_bound_resource.dfy`, module `BoundResource`). `NetworkBoundResource`
  is modelled as a state machine over an ordered sequence of input events:
  - `DbValue` and `FreshDbValue`: the database sources emit;
  - `ApiResult`: the call stream delivers its result;
  - `SaveDone` and `MainResumed`: the io-thread and main-thread blocks run;
  - `MappedValue`: the mapped source emits.

  Each step yields the next phase, the `Resource` it publishes (if any) and the hooks it calls.
  The minimal `Resource`/`Status`/`Error` types (`resource.dfy`) are reconstructed from how the
  orchestrator and the observer use them.
- **Call adapter** (`call_adapter.dfy`, module `CallAdapter`). The type-shape checks of
  `LiveDataCallAdapterFactory.get` run over an abstract type descriptor. The stream that `adapt`
  returns is a small state machine: its `started` flag, plus whether the enqueued call's callback
  is still pending.
- **Observer** (`resource_observer.dfy`, module `Observer`). This is the list of callbacks that
  `ResourceObserver.onChanged` fires for one resource.
- **Item spacing** (`space_item_decoration.dfy`, module `Spacing`). This covers the integer
  offset arithmetic of `calculateMargin`, in 32-bit Java arithmetic, and the span and
  right-to-left position logic of `getItemOffsets`.
- **Date patterns** (`date_extensions.dfy`, module `DatePatterns`). This covers the named
  patterns and `replaceCharacters`. The helper is modelled as written, with the defect listed
  under Findings, and also in its corrected form. The pattern the overloads hand to the date
  formatter (`CleanPattern`) uses the helper as written; `CleanPatternIntended` shows what the
  corrected helper would hand over instead.
- **Application version** (`app_version.dfy`, module `Versions`). `formatVersion` computes the
  version code, database version, name and snapshot name.

Shared helpers:

- `wrappers.dfy`: `Option`.
- `java_int.dfy`: Java's 32-bit `int` with wrap-around, and `/` and `%` that truncate toward
  zero.
- `decimal.dfy`: decimal spelling and parsing.

Where the documentation and the code disagree, the model follows the code. The orchestrator's
comments suggest that a fetch ends in one terminal state. The code does not guarantee that:
after an error it re-attaches the database source, and every later database value that differs
from the value held is published as another error state carrying that value
(`NetworkBoundResource.kt:105-107`). Likewise, a cache served after `shouldFetch` said no is
republished as a success on every change.
`BoundResource.ErrorRepublishedOnDbChange` shows the repeated error.

Threading is reduced to event order:

- Work posted to the io thread and to the main thread happens when its `SaveDone` or
  `MainResumed` event arrives.
- Re-attaching a LiveData source to the mediator re-dispatches that source's latest value at
  once.
- An event from a source that is not attached at that moment has no effect.

## Model

| member | source | states |
|---|---|---|
| Responses.ErrorMessage | app/src/main/java/com/voonapp/boilerplate/data/remote/adapter/ApiResponse.kt:97-103 | the error message is the error-body text when it is present and non-empty, else the status message, else "unknown error" |
| Responses.Create | app/src/main/java/com/voonapp/boilerplate/data/remote/adapter/ApiResponse.kt:88-105 | Success exactly when the response is successful, has a body and is not a 204, carrying that body and the links of the `link` header; Empty exactly when successful with no body or code 204; Error exactly when unsuccessful, with the response's own code and the chosen message |
| Responses.CreateFromFailure | app/src/main/java/com/voonapp/boilerplate/data/remote/adapter/ApiResponse.kt:107-109 | a thrown failure becomes Error 503 with the throwable's message, or "unknown error" when it has none |
| Responses.MatchLink | app/src/main/java/com/voonapp/boilerplate/data/remote/adapter/ApiResponse.kt:61 | a match of the LINK pattern at a position is well formed (URI without `>`, whitespace-only gaps, non-empty alphanumeric rel) and is a prefix of the text there |
| Responses.MatchTailSound | app/src/main/java/com/voonapp/boilerplate/data/remote/adapter/ApiResponse.kt:61 | what `>[\s]*;[\s]*rel="([a-zA-Z0-9]+)"` accepts is two whitespace runs and a token, laid out at the front of the text in that order |
| Responses.MatchRelComplete | app/src/main/java/com/voonapp/boilerplate/data/remote/adapter/ApiResponse.kt:61 | `[\s]*rel="token"` is matched at the front of any text that starts with it, recovering exactly the whitespace and the token |
| Responses.MatchLinkComplete | app/src/main/java/com/voonapp/boilerplate/data/remote/adapter/ApiResponse.kt:61 | the LINK pattern matches every well-formed `<URI>; rel="token"` text, recovering exactly its URI and rel |
| Responses.ScanLinks | app/src/main/java/com/voonapp/boilerplate/data/remote/adapter/ApiResponse.kt:65-76 | the link scan keeps every earlier binding's key and keeps the map well formed |
| Responses.ExtractLinks | app/src/main/java/com/voonapp/boilerplate/data/remote/adapter/ApiResponse.kt:65-76 | every key of the link map is a non-empty alphanumeric token and every value is free of `>` |
| Responses.LinksOf | app/src/main/java/com/voonapp/boilerplate/data/remote/adapter/ApiResponse.kt:42 | an absent `link` header gives the empty map; any header gives a well-formed map |
| Responses.ScanSkipsFiller | app/src/main/java/com/voonapp/boilerplate/data/remote/adapter/ApiResponse.kt:69-74 | text that cannot start a match contributes nothing to the link map |
| Responses.ScanTakesMatch | app/src/main/java/com/voonapp/boilerplate/data/remote/adapter/ApiResponse.kt:69-74 | a match at the scan position binds rel to URI (overwriting an earlier binding) and the scan resumes after the match |
| Responses.ExtractRenderedHeader | app/src/main/java/com/voonapp/boilerplate/data/remote/adapter/ApiResponse.kt:65-76 | a header of well-formed links separated by filler and followed by a tail, neither holding `<`, yields exactly their bindings in header order, a later duplicate rel winning |
| Responses.DigitRunAt | app/src/main/java/com/voonapp/boilerplate/data/remote/adapter/ApiResponse.kt:62 | the group captured by the PAGE pattern is the non-empty run of digits right after `page=`, ending at the end of the link or at a non-digit |
| Responses.FindPage | app/src/main/java/com/voonapp/boilerplate/data/remote/adapter/ApiResponse.kt:46-47 | the PAGE search returns the first position at which `\bpage=\d` matches, or nothing when no position matches |
| Responses.ParseInt32 | app/src/main/java/com/voonapp/boilerplate/data/remote/adapter/ApiResponse.kt:50-55 | a digit string parses exactly when its value fits a 32-bit int, and then to that value |
| Responses.NextPage | app/src/main/java/com/voonapp/boilerplate/data/remote/adapter/ApiResponse.kt:44-58 | no `next` link or no PAGE match anywhere gives no page; otherwise the digits of the first match give the page when their value fits an int and no page on overflow |
| Responses.NextPageOfLink | app/src/main/java/com/voonapp/boilerplate/data/remote/adapter/ApiResponse.kt:44-58 | a `next` link holding `page=n` at a word boundary, with no earlier match, gives page n when n fits an int and no page otherwise |
| Responses.ExampleHeaderLinks | app/src/main/java/com/voonapp/boilerplate/data/remote/adapter/ApiResponse.kt:65-76 | the header `<http://x/y?page=3>; rel="next"` yields the map next -> `http://x/y?page=3` |
| Responses.ExampleHeaderNextPage | app/src/main/java/com/voonapp/boilerplate/data/remote/adapter/ApiResponse.kt:44-58 | that `next` link has page 3 |
| RateLimiting.ToMillis | app/src/main/java/com/voonapp/boilerplate/domain/interactor/RateLimiter.kt:44 | the unit conversion stays within the `long` range, is the identity for milliseconds and keeps the sign |
| RateLimiting.New | app/src/main/java/com/voonapp/boilerplate/domain/interactor/RateLimiter.kt:41-44 | a new gate has no timestamps and a timeout of the duration in milliseconds, exact for coarse units and truncated for micro- and nanoseconds |
| RateLimiting.IntDurationFitsLong | app/src/main/java/com/voonapp/boilerplate/domain/interactor/RateLimiter.kt:44 | an `Int` duration converts to milliseconds without saturating |
| RateLimiting.ShouldFetch | app/src/main/java/com/voonapp/boilerplate/domain/interactor/RateLimiter.kt:51-65 | an unseen key is granted; a seen key is granted exactly when strictly more than the timeout has elapsed; a grant records now for the key and a refusal changes nothing |
| RateLimiting.Reset | app/src/main/java/com/voonapp/boilerplate/domain/interactor/RateLimiter.kt:72-75 | reset removes exactly the given key and keeps every other entry and the timeout |
| RateLimiting.ShouldFetchIsolated | app/src/main/java/com/voonapp/boilerplate/domain/interactor/RateLimiter.kt:51-65 | asking about one key leaves every other key's entry as it was |
| RateLimiting.SecondCallRefused | app/src/main/java/com/voonapp/boilerplate/domain/interactor/RateLimiter.kt:53-64 | with a non-negative timeout two calls on an unseen key at the same instant are granted, then refused |
| RateLimiting.ResetThenGranted | app/src/main/java/com/voonapp/boilerplate/domain/interactor/RateLimiter.kt:72-75 | after a reset the key is granted as a never-seen key and records now |
| RateLimiting.ReplayIsolated | app/src/main/java/com/voonapp/boilerplate/domain/interactor/RateLimiter.kt:51-75 | any sequence of calls and resets on other keys leaves a key's entry and the timeout untouched |
| RateLimiting.GrantsAreSpaced | app/src/main/java/com/voonapp/boilerplate/domain/interactor/RateLimiter.kt:56-63 | after a grant at t1, whatever happens to other keys, the key is granted again at t2 exactly when t2 - t1 exceeds the timeout |
| BoundResource.SetValue | app/src/main/java/com/voonapp/boilerplate/data/remote/adapter/NetworkBoundResource.kt:60-64 | a value is published exactly when it differs from the value held, and becomes the value held |
| BoundResource.Init | app/src/main/java/com/voonapp/boilerplate/data/remote/adapter/NetworkBoundResource.kt:49-57 | construction publishes loading(null); database mode calls loadFromDb and awaits the first db value, network-only mode calls createCall |
| BoundResource.Step | app/src/main/java/com/voonapp/boilerplate/data/remote/adapter/NetworkBoundResource.kt:66-141 | per event: only the first db value consults shouldFetch and only a yes calls createCall; no value is republished; once the result is handled the phase never returns to loading |
| BoundResource.PublishedValuesChange | app/src/main/java/com/voonapp/boilerplate/data/remote/adapter/NetworkBoundResource.kt:60-64 | in the stream observers see no two consecutive values are equal, and the last one is the value held |
| BoundResource.RunPublishesChangesOnly | app/src/main/java/com/voonapp/boilerplate/data/remote/adapter/NetworkBoundResource.kt:50 | every run starts by publishing loading(null) and never republishes an equal value |
| BoundResource.NoDecisionLater | app/src/main/java/com/voonapp/boilerplate/data/remote/adapter/NetworkBoundResource.kt:68-70 | outside the first-value phase neither shouldFetch nor createCall is ever called |
| BoundResource.DecisionOnFirstValue | app/src/main/java/com/voonapp/boilerplate/data/remote/adapter/NetworkBoundResource.kt:66-71 | shouldFetch is called once, with the first db value, and createCall once exactly when that answer is yes |
| BoundResource.DatabaseModeDecision | app/src/main/java/com/voonapp/boilerplate/data/remote/adapter/NetworkBoundResource.kt:66-71 | a database-mode run starts with loadFromDb, passes only the first db value to shouldFetch and calls createCall once exactly when it answers yes |
| BoundResource.RepublishStep | app/src/main/java/com/voonapp/boilerplate/data/remote/adapter/NetworkBoundResource.kt:60-132 | in a phase with a source attached (the cache, the call in flight, the error, the fresh load, the mapped result), a value v it emits is set as success(v), loading(v) or error(v) and published exactly when that differs from the value held; other events change nothing and no hook runs |
| BoundResource.RepublishRun | app/src/main/java/com/voonapp/boilerplate/data/remote/adapter/NetworkBoundResource.kt:60-132 | over a run in such a phase, what is published is the source's wrapped values with every repeat of the value held left out, and no hook runs |
| BoundResource.WrappedValues | app/src/main/java/com/voonapp/boilerplate/data/remote/adapter/NetworkBoundResource.kt:60-132 | every value observers see in such a phase wraps the payload of an emission of the attached source |
| BoundResource.CacheServedAsSuccess | app/src/main/java/com/voonapp/boilerplate/data/remote/adapter/NetworkBoundResource.kt:111-115 | once shouldFetch has said no, the values published are exactly the db values v wrapped as success(v), each one that differs from the value held; no hook is called |
| BoundResource.RefusedFetchServesCache | app/src/main/java/com/voonapp/boilerplate/data/remote/adapter/NetworkBoundResource.kt:66-115 | when shouldFetch refuses the first db value, createCall is never called and the values published are exactly the db values v as success(v), each one that differs from the value held |
| BoundResource.LoadingWhileFetching | app/src/main/java/com/voonapp/boilerplate/data/remote/adapter/NetworkBoundResource.kt:74-76 | while the call is in flight the values published are exactly the db values v as loading(v), each one that differs from the value held; no hook runs |
| BoundResource.LoadingUntilResult | app/src/main/java/com/voonapp/boilerplate/data/remote/adapter/NetworkBoundResource.kt:66-76 | when shouldFetch accepts, everything published before the call's result is a db value v as loading(v), exactly those that differ from the value held |
| BoundResource.NoLoadingAfterResult | app/src/main/java/com/voonapp/boilerplate/data/remote/adapter/NetworkBoundResource.kt:78-80 | once the result has been handled no loading state is ever published again |
| BoundResource.SaveBeforeReload | app/src/main/java/com/voonapp/boilerplate/data/remote/adapter/NetworkBoundResource.kt:83-101 | after a successful call saveCallResult runs before the fresh loadFromDb and nothing else runs; what is published is exactly each value v the fresh load emits once subscribed, as success(v), whenever it differs from the value held |
| BoundResource.ReloadRun | app/src/main/java/com/voonapp/boilerplate/data/remote/adapter/NetworkBoundResource.kt:83-101 | nothing is published until the fresh load is subscribed after the save and the main-thread hop; from then on its values are published as successes, repeats of the value held left out |
| BoundResource.SaveReloadSequence | app/src/main/java/com/voonapp/boilerplate/data/remote/adapter/NetworkBoundResource.kt:83-94 | from a call in flight, a success, the io-thread save, the main-thread hop and one fresh db value publish exactly success(fresh value), after saveCallResult(body) then loadFromDb, and leave the fresh source attached |
| BoundResource.ReloadThenValue | app/src/main/java/com/voonapp/boilerplate/data/remote/adapter/NetworkBoundResource.kt:86-91 | the main-thread block calls loadFromDb once, publishes nothing itself, and the fresh source's first value is published as a success |
| BoundResource.SuccessSavesThenReloads | app/src/main/java/com/voonapp/boilerplate/data/remote/adapter/NetworkBoundResource.kt:83-94 | a successful call publishes nothing at once and then saves before reloading |
| BoundResource.EmptySkipsSave | app/src/main/java/com/voonapp/boilerplate/data/remote/adapter/NetworkBoundResource.kt:95-102 | an empty result skips the save and goes straight to a fresh load |
| BoundResource.ErrorServedWithDbValues | app/src/main/java/com/voonapp/boilerplate/data/remote/adapter/NetworkBoundResource.kt:103-107 | after a failed call each db value v is published as the error carrying v whenever that differs from the value held, the error itself never changes, and no hook runs |
| BoundResource.ErrorPublished | app/src/main/java/com/voonapp/boilerplate/data/remote/adapter/NetworkBoundResource.kt:103-108 | an error calls onFetchFailed once and publishes error(code, message) with the latest db data in database mode and with no data in network-only mode |
| BoundResource.NoFailureHookAfterResult | app/src/main/java/com/voonapp/boilerplate/data/remote/adapter/NetworkBoundResource.kt:103-108 | onFetchFailed is never called after the result has been handled |
| BoundResource.NetworkOnlyHooks | app/src/main/java/com/voonapp/boilerplate/data/remote/adapter/NetworkBoundResource.kt:119-141 | network-only mode never calls shouldFetch, loadFromDb, saveCallResult or createCall after construction |
| BoundResource.NetworkOnlyRun | app/src/main/java/com/voonapp/boilerplate/data/remote/adapter/NetworkBoundResource.kt:119-141 | a network-only run calls createCall exactly once, first, and none of the database hooks |
| BoundResource.NetworkSuccessMaps | app/src/main/java/com/voonapp/boilerplate/data/remote/adapter/NetworkBoundResource.kt:128-133 | network-only mode: a successful call calls mapRequestToResult(body) without publishing; then exactly each value v the mapped source emits is published as success(v) whenever it differs from the value held, with no further hook |
| BoundResource.MappedServedAsSuccess | app/src/main/java/com/voonapp/boilerplate/data/remote/adapter/NetworkBoundResource.kt:130-132 | while the mapped source is attached, exactly each value v it emits is published as success(v) whenever it differs from the value held, and no hook runs |
| BoundResource.CachedScenario | app/src/main/java/com/voonapp/boilerplate/data/remote/adapter/NetworkBoundResource.kt:66-115 | a fresh cache: loading(null), then success(7), with hooks loadFromDb and shouldFetch(7) only |
| BoundResource.FetchScenario | app/src/main/java/com/voonapp/boilerplate/data/remote/adapter/NetworkBoundResource.kt:66-110 | a stale cache: loading(null), loading(1), success(2), with hooks loadFromDb, shouldFetch, createCall, saveCallResult, loadFromDb |
| BoundResource.ErrorRepublishedOnDbChange | app/src/main/java/com/voonapp/boilerplate/data/remote/adapter/NetworkBoundResource.kt:103-108 | after an error a new db value publishes a second error state carrying it: the error is not a single terminal emission |
| BoundResource.FailureThenDbValue | app/src/main/java/com/voonapp/boilerplate/data/remote/adapter/NetworkBoundResource.kt:103-108 | a failed call calls onFetchFailed once and publishes the error with the latest db data; a later, different db value publishes the error again with that value |
| BoundResource.NetworkEmptyScenario | app/src/main/java/com/voonapp/boilerplate/data/remote/adapter/NetworkBoundResource.kt:134 | a network-only empty result publishes success(null) after loading(null) |
| CallAdapter.RawType | app/src/main/java/com/voonapp/boilerplate/data/remote/adapter/LiveDataCallAdapterFactory.kt:46 | a class or parameterised type erases to its class, a type variable to Object, and only arrays erase to array classes |
| CallAdapter.FirstUpperBound | app/src/main/java/com/voonapp/boilerplate/data/remote/adapter/LiveDataCallAdapterFactory.kt:50 | the first type argument, a `? extends` wildcard replaced by its bound, and an illegal-argument error when there is none |
| CallAdapter.Get | app/src/main/java/com/voonapp/boilerplate/data/remote/adapter/LiveDataCallAdapterFactory.kt:45-62 | declines exactly when the raw type is not LiveData; throws "Type must be a resource." exactly when the argument's raw type is not ApiResponse, "Resource must be parameterized." exactly when it is a raw ApiResponse; a ClassCast exactly for a raw LiveData, and the illegal-argument error exactly when LiveData or a parameterised ApiResponse has no type argument; it adapts exactly in the remaining case, with ApiResponse's first type argument (a wildcard replaced by its bound) as response type |
| CallAdapter.AdaptsDeclaredBody | app/src/main/java/com/voonapp/boilerplate/data/remote/adapter/LiveDataCallAdapterFactory.kt:60-61 | `LiveData<ApiResponse<B>>` is adapted with response type B |
| CallAdapter.AdaptsWildcards | app/src/main/java/com/voonapp/boilerplate/data/remote/adapter/LiveDataCallAdapterFactory.kt:50-61 | wildcard arguments are replaced by their upper bounds before the checks |
| CallAdapter.DeclinesOtherContainers | app/src/main/java/com/voonapp/boilerplate/data/remote/adapter/LiveDataCallAdapterFactory.kt:46-48 | any return type whose raw class is not LiveData is declined |
| CallAdapter.ResourceCheckFirst | app/src/main/java/com/voonapp/boilerplate/data/remote/adapter/LiveDataCallAdapterFactory.kt:53-58 | the resource check precedes the parameterisation check |
| CallAdapter.React | app/src/main/java/com/voonapp/boilerplate/data/remote/adapter/LiveDataCallAdapterFactory.kt:70-84 | activation enqueues exactly when the stream has not started; a callback posts the classification of the response or failure; nothing else has an effect |
| CallAdapter.CountsOfStep | app/src/main/java/com/voonapp/boilerplate/data/remote/adapter/LiveDataCallAdapterFactory.kt:72-84 | one event enqueues at most once (on the first activation) and posts at most once (on a callback) |
| CallAdapter.EnqueueAtMostOnce | app/src/main/java/com/voonapp/boilerplate/data/remote/adapter/LiveDataCallAdapterFactory.kt:70-75 | over any events the call is enqueued once if the stream is ever activated and never otherwise, and no more values are posted than calls enqueued |
| CallAdapter.NeverActivatedNeverEnqueues | app/src/main/java/com/voonapp/boilerplate/data/remote/adapter/LiveDataCallAdapterFactory.kt:72-75 | a stream that is never activated never touches the call |
| CallAdapter.NoEffectsWhileIdle | app/src/main/java/com/voonapp/boilerplate/data/remote/adapter/LiveDataCallAdapterFactory.kt:72-75 | without activation the stream stays fresh and does nothing |
| CallAdapter.PostsClassifyCallbacks | app/src/main/java/com/voonapp/boilerplate/data/remote/adapter/LiveDataCallAdapterFactory.kt:76-82 | every posted value is ApiResponse.create of a delivered response or failure |
| CallAdapter.RepeatedActivation | app/src/main/java/com/voonapp/boilerplate/data/remote/adapter/LiveDataCallAdapterFactory.kt:72-84 | three activations around one response give one enqueue and one posted value |
| Observer.Dispatch | app/src/main/java/com/voonapp/boilerplate/ui/ResourceObserver.kt:53-73 | null fires nothing; LOADING fires showLoading only; SUCCESS fires hideLoading then onSuccess(data) if data is present; ERROR fires hideLoading then onError(message) if an error is present |
| Observer.OneLoadingToggle | app/src/main/java/com/voonapp/boilerplate/ui/ResourceObserver.kt:53-73 | for any resource exactly one of showLoading and hideLoading runs, first, and onSuccess and onError never both run |
| Observer.SuccessCallbackIff | app/src/main/java/com/voonapp/boilerplate/ui/ResourceObserver.kt:59-65 | onSuccess(d) runs exactly for a success carrying d |
| Observer.ErrorCallbackIff | app/src/main/java/com/voonapp/boilerplate/ui/ResourceObserver.kt:66-72 | onError(m) runs exactly for an error state whose error has message m |
| Observer.NoShowWithoutLoading | app/src/main/java/com/voonapp/boilerplate/ui/ResourceObserver.kt:55-58 | a stream with no loading state never shows the loading indicator |
| Observer.OnlyShowWhileLoading | app/src/main/java/com/voonapp/boilerplate/ui/ResourceObserver.kt:55-58 | a stream of loading states fires only showLoading |
| Observer.NoSpinnerAfterResult | app/src/main/java/com/voonapp/boilerplate/ui/ResourceObserver.kt:53-73 | observing the orchestrator, the loading indicator is never shown again once the call's result is handled |
| Spacing.CalculateMargin | app/src/main/java/com/voonapp/boilerplate/ui/view/SpaceItemDecoration.kt:113-140 | the cross-axis sides get spanCurrent*space/spanCount and space-(spanCurrent+1)*space/spanCount; the main-axis side facing the previous line gets space when position >= spanCount; other sides are kept |
| Spacing.Placement | app/src/main/java/com/voonapp/boilerplate/ui/view/SpaceItemDecoration.kt:62-90 | linear managers (grids included) give their orientation and reversal with span 0; staggered grids their span index; anything else vertical, not reversed, span position % spanCount |
| Spacing.GetItemOffsets | app/src/main/java/com/voonapp/boilerplate/ui/view/SpaceItemDecoration.kt:45-103 | a missing view throws in `super`, and only then; a missing parent or state leaves the empty rect; otherwise a zero span count throws, and the offsets are calculateMargin at the mirrored position and the manager's placement |
| Spacing.LeadingExact | app/src/main/java/com/voonapp/boilerplate/ui/view/SpaceItemDecoration.kt:122 | without overflow the leading share of span i is the floor of i*space/spanCount and lies in [0, space] |
| Spacing.TrailingExact | app/src/main/java/com/voonapp/boilerplate/ui/view/SpaceItemDecoration.kt:123 | without overflow the trailing share is what the next span's leading share leaves of space |
| Spacing.CrossAxisBounds | app/src/main/java/com/voonapp/boilerplate/ui/view/SpaceItemDecoration.kt:122-123 | every cross-axis offset lies in [0, space], span 0 has no leading offset and the last span no trailing offset |
| Spacing.AdjacentSpansMeet | app/src/main/java/com/voonapp/boilerplate/ui/view/SpaceItemDecoration.kt:122-123 | the trailing offset of span i plus the leading offset of span i+1 is exactly space |
| Spacing.GuttersAddUp | app/src/main/java/com/voonapp/boilerplate/ui/view/SpaceItemDecoration.kt:131-132 | the cross-axis offsets of spans 0..k add up to k spacings plus the outer edges |
| Spacing.MainAxisSpacing | app/src/main/java/com/voonapp/boilerplate/ui/view/SpaceItemDecoration.kt:124-128 | the main-axis spacing goes on exactly the side facing the previous line, only from the second line on, and the opposite side is untouched |
| Spacing.LinearUsesFirstSpan | app/src/main/java/com/voonapp/boilerplate/ui/view/SpaceItemDecoration.kt:68-73 | linear lists and grids use span 0: no leading cross-axis offset, and none at all with one span |
| Spacing.DefaultSpanIsRemainder | app/src/main/java/com/voonapp/boilerplate/ui/view/SpaceItemDecoration.kt:65 | the default span is position % spanCount, a valid span for a valid position |
| Spacing.MirrorInvolution | app/src/main/java/com/voonapp/boilerplate/ui/view/SpaceItemDecoration.kt:92-94 | right-to-left horizontal positions are mirrored to itemCount - position - 1, stay in range and mirror back |
| Spacing.DetachedIsEmpty | app/src/main/java/com/voonapp/boilerplate/ui/view/SpaceItemDecoration.kt:51-56 | without a parent or state the rect stays empty and nothing throws, even with a zero span count; without a view `super` throws first |
| Spacing.ThreeSpanExample | app/src/main/java/com/voonapp/boilerplate/ui/view/SpaceItemDecoration.kt:122-123 | three spans with 10 px: shares 0|7, 3|4 and 6|0 |
| DatePatterns.Replace | app/src/main/java/com/voonapp/boilerplate/extensions/DateExtensions.kt:191 | `String.replace(old, new)` replaces every occurrence of old and keeps every other character |
| DatePatterns.ReplaceUndone | app/src/main/java/com/voonapp/boilerplate/extensions/DateExtensions.kt:191 | replacing by a character absent from the string can be undone |
| DatePatterns.ReplaceCharactersKeepsLength | app/src/main/java/com/voonapp/boilerplate/extensions/DateExtensions.kt:187-199 | the cleaned pattern is as long as the original |
| DatePatterns.DefaultsKeepPattern | app/src/main/java/com/voonapp/boilerplate/extensions/DateExtensions.kt:187-199 | with both separators at their defaults the pattern is unchanged |
| DatePatterns.OnlyDateSeparator | app/src/main/java/com/voonapp/boilerplate/extensions/DateExtensions.kt:190-192 | with only the date separator changed, every `-` becomes it and nothing else changes |
| DatePatterns.OnlyTimeSeparator | app/src/main/java/com/voonapp/boilerplate/extensions/DateExtensions.kt:194-196 | with only the time separator changed, every `:` becomes it and nothing else changes |
| DatePatterns.BothSeparatorsLoseDate | app/src/main/java/com/voonapp/boilerplate/extensions/DateExtensions.kt:190-196 | with both changed only `:` is replaced and every `-` survives |
| DatePatterns.DateSeparatorLost | app/src/main/java/com/voonapp/boilerplate/extensions/DateExtensions.kt:190-196 | `dd-MM HH:mm` with `/` and `.` comes out as `dd-MM HH.mm`, unlike the corrected helper |
| DatePatterns.ReplaceSeparatorsReplacesBoth | app/src/main/java/com/voonapp/boilerplate/extensions/DateExtensions.kt:187-199 | when the date separator is not `:`, the corrected helper replaces every `-` by the date separator and every `:` by the time separator, nothing else |
| DatePatterns.AgreeOnSingleChange | app/src/main/java/com/voonapp/boilerplate/extensions/DateExtensions.kt:187-199 | the corrected and the as-written helpers agree when at most one separator changes |
| DatePatterns.CleanPattern | app/src/main/java/com/voonapp/boilerplate/extensions/DateExtensions.kt:164-199 | the pattern handed to the date formatter, cleaned by the helper as written, keeps its length; a changed time separator replaces every `:` and leaves every `-` alone, whatever the date separator; otherwise every `-` becomes the date separator |
| DatePatterns.CleanPatternIntended | app/src/main/java/com/voonapp/boilerplate/extensions/DateExtensions.kt:164-199 | with the corrected helper the pattern would have every `-` replaced by the date separator and every `:` by the time separator |
| DatePatterns.CleanPatternLosesDate | app/src/main/java/com/voonapp/boilerplate/extensions/DateExtensions.kt:164-199 | when both separators change, every `-` of a named format stays `-` in the pattern handed over, where the corrected helper puts the date separator |
| DatePatterns.NamedPatternsWithDefaults | app/src/main/java/com/voonapp/boilerplate/extensions/DateExtensions.kt:31-116 | every named format passes through unchanged with the default separators |
| Versions.FormatVersion | buildSrc/src/main/java/com/orange/gradle/AppVersion.java:46-67 | a version array not of length 3 throws the documented message; CODE and DATABASE give the 32-bit code, NAME the dotted name, SNAPSHOT the name plus "-SNAPSHOT" |
| Versions.Join | buildSrc/src/main/java/com/orange/gradle/AppVersion.java:56-58 | joining a single part gives that part |
| Versions.DatabaseIsCode | buildSrc/src/main/java/com/orange/gradle/AppVersion.java:52-54 | the database version always equals the version code |
| Versions.SnapshotExtendsName | buildSrc/src/main/java/com/orange/gradle/AppVersion.java:59-63 | the snapshot name is the version name followed by "-SNAPSHOT" |
| Versions.NameOfThree | buildSrc/src/main/java/com/orange/gradle/AppVersion.java:55-58 | a three-part name is the three decimal spellings separated by dots |
| Versions.CurrentVersion | buildSrc/src/main/java/com/orange/gradle/AppVersion.java:31-36 | for {1, 0, 0}: code and database 1000000, name "1.0.0", snapshot "1.0.0-SNAPSHOT" |
| Versions.CodeDecodes | buildSrc/src/main/java/com/orange/gradle/AppVersion.java:42-43 | for major <= 2146 and minor, patch below 1000 the code is exact and decodes back to the components |
| Versions.CodeOrdersVersions | buildSrc/src/main/java/com/orange/gradle/AppVersion.java:54 | within those bounds codes compare as the versions do, major first |
| Versions.MinorSpillsIntoMajor | buildSrc/src/main/java/com/orange/gradle/AppVersion.java:54 | outside them two versions share a code: 1.1000.0 and 2.0.0 |
| Versions.CodeWrapsAround | buildSrc/src/main/java/com/orange/gradle/AppVersion.java:54 | the code wraps around like a Java int: major 2148 gives a negative code |
| Versions.NameIdentifiesVersion | buildSrc/src/main/java/com/orange/gradle/AppVersion.java:55-58 | equal three-part names come from equal versions |
| JavaInt.Rem | app/src/main/java/com/voonapp/boilerplate/ui/view/SpaceItemDecoration.kt:65 | Java `%`: a = quot*b + r with |r| < |b| and r taking the dividend's sign |
| JavaInt.Quot | app/src/main/java/com/voonapp/boilerplate/ui/view/SpaceItemDecoration.kt:122 | Java `/`: the quotient of the magnitudes rounded toward zero, with the sign of a*b |
| JavaInt.Wrap | buildSrc/src/main/java/com/orange/gradle/AppVersion.java:54 | a 32-bit result equals the exact one when it fits and is congruent to it modulo 2^32 |
| Decimal.ValueOfNatToString | buildSrc/src/main/java/com/orange/gradle/AppVersion.java:57 | `Integer.toString` of a natural reads back as that number |
| Decimal.IntToStringInjective | buildSrc/src/main/java/com/orange/gradle/AppVersion.java:57 | different ints have different decimal spellings |

## Left out

- Thread pools and handler posting (the `ioThread`/`mainThread` executors) are not modelled. They only fix an order of events, and that order is what the event sequence expresses.
- `AtomicBoolean.compareAndSet` and `@Synchronized` are modelled as plain sequential state updates. Concurrent callers are not modelled.
- `SystemClock.uptimeMillis` is replaced by the `now` parameter of `RateLimiting.ShouldFetch`. Clock readings are natural numbers.
- RateLimiting.ShouldFetch: computes `now - last` exactly instead of as a 64-bit `Long` subtraction, which could overflow only for timestamps more than 2^63 ms apart.
- The empty `timestamps.forEach` loop in `shouldFetch` is left out because it changes nothing.
- Logging (`Timber`, `Log.d`) is left out; it has no effect on results.
- The `Resource`, `Status` and `Error` classes are not part of this model's sources. Their shape is taken from how the orchestrator and the observer use them.
- Responses.NextPage: `\b` is modelled with ASCII word characters only. Java also counts non-ASCII letters and digits as word characters.
- Responses.ExtractLinks: `\s` is modelled as Java's six ASCII whitespace characters, which is what Java's default (non-Unicode) mode means.
- Reading the error body (`errorBody()?.string()`) is modelled as an optional string. An I/O exception while reading it is not modelled.
- Hooks are not modelled as throwing. An exception thrown by `createCall`, `saveCallResult` or another hook is out of scope.
- Retrofit's reflection helpers `getRawType` and `getParameterUpperBound` are modelled after their documented behaviour, because their code is not available.
  - A raw `LiveData` return type fails the cast to `ParameterizedType`, which is modelled as a `ClassCast` outcome.
  - A parameterised type with no type arguments is reported as the `IllegalArgumentException` that `getParameterUpperBound` would throw; its message leaves out the trailing name of the type. Java's reflection never produces such a type.
- `RecyclerView.ItemDecoration` is not part of this model's sources. Its four-argument `getItemOffsets`, which `SpaceItemDecoration` calls first, is taken to read the view's layout params and then empty the rect, so only a missing view throws there.
- Spacing.GetItemOffsets: the rect is always present. A null `outRect` would also throw in `super`; that case is not modelled.
- The dp-to-px conversion in `SpaceItemDecoration` is floating point, so the spacing in pixels is an input. `setPadding` on the list is a view side effect and is left out.
- The layout-manager `when` is modelled as an enumeration of manager kinds. `GridLayoutManager` extends `LinearLayoutManager`, so grids take the linear branch and the grid branch is dead code. That branch is not modelled.
- Orientation values other than horizontal (0) and vertical (1) are not modelled. The source restricts the parameter to that range.
- `SimpleDateFormat` parsing and formatting are left out because they depend on the locale, the time zone and library internals. Only the pattern handed to them is modelled.
- The `formatWithPattern`/`parseWithPattern` overloads are modelled only through the pattern they clean (`DatePatterns.CleanPattern`). The overloads that take a named format just pass its pattern on.
- The `default: return null` of `formatVersion` is unreachable, because the enumeration has exactly four values, and is not modelled. The static initialisers' unchecked casts are not modelled either.

## Findings

| source | as written | input that shows it | evidently intended | confidence | as-written member | corrected member |
|---|---|---|---|---|---|---|
| app/src/main/java/com/voonapp/boilerplate/extensions/DateExtensions.kt:190-196 | the time-separator replacement starts again from `pattern`, discarding the date-separator replacement | pattern `dd-MM HH:mm`, date separator `/`, time separator `.` gives `dd-MM HH.mm` | `dd/MM HH.mm`: the second replacement continues from the first | high, not executed | DatePatterns.DateSeparatorLost | DatePatterns.ReplaceSeparatorsReplacesBoth |
