/** The screen's view model: the weather request state machine, the state of
    resolving the device's location to a city, and the city-search wrapper
    around the geocoding repository.

    Every platform answer is an input: the weather service's response or
    exception, whether the GPS and network location providers are on, the
    one-shot location fix and the locality it reverse-geocodes to. A fetch
    is split where the code suspends: `StartFetch` is what `getData` does
    before it launches its coroutine, `CompleteFetch` what the coroutine
    does when the response arrives. */
module WeatherViewModel {
  import opened Optional
  import opened Text
  import opened Api
  import Geocoding

  datatype LocationState = LocationState(
    isLoading: bool,
    cityName: Option<string>,
    error: Option<string>)

  datatype ViewModel<W> = ViewModel(
    weatherResult: NetworkResponse<W>,
    cityResult: Option<string>,
    locationState: LocationState,
    geocoding: Geocoding.Repository)

  /** A new view model: the idle sentinel `Error("")`, no located city, a
      location state that is neither loading nor failed, a fresh repository. */
  function NewViewModel<W>(): (vm: ViewModel<W>)
    ensures vm.weatherResult == Error("") && vm.cityResult == None
    ensures !vm.locationState.isLoading && vm.locationState.cityName == None &&
            vm.locationState.error == None
    ensures vm.geocoding.cache == map[]
  {
    ViewModel(Error(""), None, LocationState(false, None, None), Geocoding.NewRepository())
  }

  // ---------------------------------------------------------------------
  // Fetching the weather

  /** The exception classes the fetch distinguishes. A socket timeout is an
      I/O exception too; the catch clauses are tried in order. */
  datatype ExceptionKind = SocketTimeout | OtherIOException | OtherException(localizedMessage: Option<string>)

  predicate IsIOException(e: ExceptionKind) {
    e.SocketTimeout? || e.OtherIOException?
  }

  /** How the weather call ends: a response (a body when successful, an
      error body otherwise, either possibly null), or an exception. */
  datatype WeatherOutcome<W> =
    | HttpResponse(code: int, body: Option<W>, errorBody: Option<string>)
    | Thrown(exception: ExceptionKind)

  /** Retrofit's `isSuccessful`: a 2xx status. */
  predicate IsSuccessful(code: int) {
    200 <= code <= 299
  }

  const EmptyBodyMessage := "Empty response body"
  const UnknownErrorBody := "Unknown error"
  const TimeoutMessage := "Request timed out. Please check your internet connection."
  const NoInternetMessage := "No internet connection or unstable network."

  function NotFoundMessage(name: string): string {
    "No place found with name \"" + name + "\"."
  }

  function ApiErrorMessage(errorBody: string, code: int): string {
    "API Error: " + errorBody + " (Code: " + IntToString(code) + ")"
  }

  /** `"Network error: ${e.localizedMessage}"`: a null message prints as
      "null". */
  function NetworkErrorMessage(localizedMessage: Option<string>): string {
    "Network error: " + localizedMessage.GetOr("null")
  }

  /** The error body says the place is unknown. */
  predicate MentionsMissingPlace(errorBody: string) {
    || ContainsIgnoreCase(errorBody, "location")
    || ContainsIgnoreCase(errorBody, "not found")
    || ContainsIgnoreCase(errorBody, "invalid")
  }

  /** The state a finished weather request for `name` ends in. It is never
      `Loading`, it is a success exactly when a 2xx response carries a body,
      and no error it produces can be mistaken for the idle sentinel. */
  function Classify<W>(name: string, outcome: WeatherOutcome<W>): (r: NetworkResponse<W>)
    ensures !r.Loading?
    ensures r.Success? <==> outcome.HttpResponse? && IsSuccessful(outcome.code) && outcome.body.Some?
    ensures r.Success? ==> r.data == outcome.body.value
    ensures r.Error? ==> |r.message| > 0
    // a failed response is a missing place or an API error quoting its error body
    ensures outcome.HttpResponse? && !IsSuccessful(outcome.code) ==>
              || r == Error(NotFoundMessage(name))
              || r == Error(ApiErrorMessage(outcome.errorBody.GetOr(UnknownErrorBody), outcome.code))
    ensures outcome.Thrown? && outcome.exception.OtherException? ==>
              r == Error(NetworkErrorMessage(outcome.exception.localizedMessage))
  {
    match outcome
    case HttpResponse(code, body, errorBody) =>
      if IsSuccessful(code) then
        match body
        case Some(data) => Success(data)
        case None => Error(EmptyBodyMessage)
      else
        var text := errorBody.GetOr(UnknownErrorBody);
        if MentionsMissingPlace(text) then Error(NotFoundMessage(name))
        else Error(ApiErrorMessage(text, code))
    case Thrown(e) =>
      match e
      case SocketTimeout => Error(TimeoutMessage)
      case OtherIOException => Error(NoInternetMessage)
      case OtherException(m) => Error(NetworkErrorMessage(m))
  }

  /** What `getData(name)` does before it suspends: the request is shown as
      loading, and nothing else moves. */
  function StartFetch<W>(vm: ViewModel<W>, name: string): (r: ViewModel<W>)
    ensures r.weatherResult.Loading?
    ensures r.cityResult == vm.cityResult && r.locationState == vm.locationState
    ensures r.geocoding == vm.geocoding
  {
    vm.(weatherResult := Loading)
  }

  /** What the fetch coroutine does when the call ends. */
  function CompleteFetch<W>(vm: ViewModel<W>, name: string, outcome: WeatherOutcome<W>): (r: ViewModel<W>)
    ensures !r.weatherResult.Loading?
    ensures r.weatherResult == Classify(name, outcome)
    ensures r.cityResult == vm.cityResult && r.locationState == vm.locationState
    ensures r.geocoding == vm.geocoding
  {
    vm.(weatherResult := Classify(name, outcome))
  }

  /** `getData(name)` run to completion: the states the view model passes
      through. The first is always `Loading`; a search never changes the
      located city. */
  function GetData<W>(vm: ViewModel<W>, name: string, outcome: WeatherOutcome<W>): (trace: seq<ViewModel<W>>)
    ensures |trace| == 2
    ensures trace[0].weatherResult.Loading?
    ensures trace[1].weatherResult == Classify(name, outcome)
    ensures forall k :: 0 <= k < |trace| ==>
              && trace[k].cityResult == vm.cityResult
              && trace[k].locationState == vm.locationState
              && trace[k].geocoding == vm.geocoding
  {
    var started := StartFetch(vm, name);
    [started, CompleteFetch(started, name, outcome)]
  }

  /** A view model after an action, and the name `getData` was called with,
      if it was. */
  datatype Step<W> = Step(vm: ViewModel<W>, fetched: Option<string>)

  /** `refreshWeatherData()`: re-fetches the located city, if there is one. */
  function RefreshWeatherData<W>(vm: ViewModel<W>): (r: Step<W>)
    ensures r.fetched == vm.cityResult
    ensures vm.cityResult.None? ==> r.vm == vm
    ensures vm.cityResult.Some? ==> r.vm == StartFetch(vm, vm.cityResult.value)
  {
    match vm.cityResult
    case Some(city) => Step(StartFetch(vm, city), Some(city))
    case None => Step(vm, None)
  }

  // ---------------------------------------------------------------------
  // Resolving the device location

  /** `clearLocationError()` */
  function ClearLocationError<W>(vm: ViewModel<W>): (r: ViewModel<W>)
    ensures r.locationState.error.None?
    ensures r.locationState.isLoading == vm.locationState.isLoading
    ensures r.locationState.cityName == vm.locationState.cityName
    ensures r.weatherResult == vm.weatherResult && r.cityResult == vm.cityResult
    ensures r.geocoding == vm.geocoding
  {
    vm.(locationState := vm.locationState.(error := None))
  }

  /** Whether the GPS and network providers are on, or the exception asking
      raised. */
  datatype ProviderStatus = Providers(gpsEnabled: bool, networkEnabled: bool) | ProviderQueryFailed(message: Option<string>)

  /** The answer to the one-shot location request: a fix with the locality
      reverse geocoding found for it (null when geocoding failed or found
      none), no fix (the request failed or returned null), or an exception
      from making the request. */
  datatype FixResult = Located(locality: Option<string>) | NoFix | FixRequestFailed(message: Option<string>)

  const LocationOffMessage := "Location is turned off. Please enable GPS or location services."
  const NoFixMessage := "Unable to get your location. Please try again."
  const UnknownLocationError := "Unknown error occurred"

  /** One run of `getCurrentLocation`: the location states it emits, the view
      model it leaves, whether it asked for a fix, and the city it started a
      weather fetch for. */
  datatype LocationRun<W> = LocationRun(
    emitted: seq<LocationState>,
    vm: ViewModel<W>,
    fixRequested: bool,
    fetched: Option<string>)

  predicate ProvidersOn(providers: ProviderStatus) {
    providers.Providers? && (providers.gpsEnabled || providers.networkEnabled)
  }

  function Failure(message: string): LocationState {
    LocationState(false, None, Some(message))
  }

  /** The fix arrived but reverse geocoding found no locality. */
  predicate IsUnnamedFix(providers: ProviderStatus, fix: FixResult) {
    ProvidersOn(providers) && fix == Located(None)
  }

  /** `getCurrentLocation(...)`, as written. The block run on a fix yields
      the value of its last expression, `cityName?.let { getData(it) }`,
      which is null when there is no locality; the elvis fallback meant for
      a missing fix then runs as well and reports the no-fix error. */
  function GetCurrentLocation<W>(vm: ViewModel<W>, providers: ProviderStatus, fix: FixResult): (run: LocationRun<W>)
    ensures |run.emitted| == (if IsUnnamedFix(providers, fix) then 3 else 2)
    ensures run.emitted[0] == LocationState(true, None, None)
    ensures run.vm.locationState == run.emitted[|run.emitted| - 1]
    // every run ends, and no state it emits is both loading and failed
    ensures !run.vm.locationState.isLoading
    ensures forall k :: 0 <= k < |run.emitted| ==>
              !(run.emitted[k].isLoading && run.emitted[k].error.Some?)
    ensures run.fixRequested <==> ProvidersOn(providers)
    ensures run.vm.locationState.error.None? <==>
              ProvidersOn(providers) && fix.Located? && fix.locality.Some?
    ensures IsUnnamedFix(providers, fix) ==>
              run.emitted[1] == LocationState(false, None, None) &&
              run.vm.locationState.error == Some(NoFixMessage)
    // the located city is written only when a fix arrives
    ensures ProvidersOn(providers) && fix.Located? ==>
              run.vm.cityResult == fix.locality && run.vm.locationState.cityName == fix.locality
    ensures !(ProvidersOn(providers) && fix.Located?) ==>
              run.vm.cityResult == vm.cityResult && run.vm.weatherResult == vm.weatherResult
    ensures run.fetched.Some? <==> ProvidersOn(providers) && fix.Located? && fix.locality.Some?
    ensures run.fetched.Some? ==> run.fetched == run.vm.cityResult && run.vm.weatherResult.Loading?
    ensures run.fetched.None? ==> run.vm.weatherResult == vm.weatherResult
    ensures run.vm.geocoding == vm.geocoding
  {
    var loading := LocationState(true, None, None);
    var vm1 := vm.(locationState := loading);
    match providers
    case ProviderQueryFailed(m) =>
      var done := Failure(m.GetOr(UnknownLocationError));
      LocationRun([loading, done], vm1.(locationState := done), false, None)
    case Providers(gps, network) =>
      if !gps && !network then
        var done := Failure(LocationOffMessage);
        LocationRun([loading, done], vm1.(locationState := done), false, None)
      else
        var vm2 := ClearLocationError(vm1);
        match fix
        case Located(locality) =>
          var done := LocationState(false, locality, None);
          var vm3 := vm2.(locationState := done, cityResult := locality);
          (match locality
           case Some(city) => LocationRun([loading, done], StartFetch(vm3, city), true, Some(city))
           case None =>
             var failed := Failure(NoFixMessage);
             LocationRun([loading, done, failed], vm3.(locationState := failed), true, None))
        case NoFix =>
          var done := Failure(NoFixMessage);
          LocationRun([loading, done], vm2.(locationState := done), true, None)
        case FixRequestFailed(m) =>
          var done := Failure(m.GetOr(UnknownLocationError));
          LocationRun([loading, done], vm2.(locationState := done), true, None)
  }

  /** `getCurrentLocation` as its `?: run` fallback is evidently meant: only
      a missing fix reports an error. The block run on a fix has already
      written a success state with no error, so a fix without a locality
      ends there, with no city name. It is the run as written without the
      fallback's extra state. */
  function GetCurrentLocationIntended<W>(vm: ViewModel<W>, providers: ProviderStatus, fix: FixResult): (run: LocationRun<W>)
    ensures |run.emitted| == 2 && run.emitted[0] == LocationState(true, None, None)
    ensures run.vm.locationState == run.emitted[1]
    ensures !run.vm.locationState.isLoading
    ensures run.vm.locationState.error.None? <==> ProvidersOn(providers) && fix.Located?
    ensures ProvidersOn(providers) && fix.Located? ==>
              run.vm.locationState == LocationState(false, fix.locality, None) &&
              run.vm.cityResult == fix.locality
    ensures run.fetched.Some? <==> ProvidersOn(providers) && fix.Located? && fix.locality.Some?
  {
    var run := GetCurrentLocation(vm, providers, fix);
    if IsUnnamedFix(providers, fix) then
      run.(emitted := run.emitted[..2], vm := run.vm.(locationState := run.emitted[1]))
    else
      run
  }

  /** The two runs differ only on a fix without a locality. */
  lemma IntendedDiffersOnlyOnUnnamedFix<W>(vm: ViewModel<W>, providers: ProviderStatus, fix: FixResult)
    ensures GetCurrentLocationIntended(vm, providers, fix) == GetCurrentLocation(vm, providers, fix)
            <==> !IsUnnamedFix(providers, fix)
  {
    if IsUnnamedFix(providers, fix) {
      assert |GetCurrentLocation(vm, providers, fix).emitted| == 3;
    }
  }

  // ---------------------------------------------------------------------
  // City search

  /** The view model after a city search, and the list its callback gets. */
  datatype Suggestions<W> = Suggestions(vm: ViewModel<W>, predictions: seq<Geocoding.CityPrediction>)

  /** `getCityPredictions(query, callback)`: the repository never throws, so
      the wrapper's own fallback to an empty list is never taken and the
      callback gets the repository's answer. */
  function GetCityPredictions<W>(vm: ViewModel<W>, query: string, clock: Geocoding.Clock,
                                 outcome: Geocoding.HttpOutcome): (r: Suggestions<W>)
    ensures var lookup := Geocoding.GetCityPredictions(vm.geocoding, query, clock, outcome);
            r.predictions == lookup.predictions && r.vm.geocoding == lookup.repo
    ensures Geocoding.CacheWellFormed(vm.geocoding) ==>
              Geocoding.CacheWellFormed(r.vm.geocoding) && Geocoding.WellFormed(r.predictions)
    ensures r.vm.weatherResult == vm.weatherResult && r.vm.cityResult == vm.cityResult
    ensures r.vm.locationState == vm.locationState
  {
    var lookup := Geocoding.GetCityPredictions(vm.geocoding, query, clock, outcome);
    Suggestions(vm.(geocoding := lookup.repo), lookup.predictions)
  }

  // ---------------------------------------------------------------------
  // Properties

  /** A timeout is an I/O exception, yet it is reported as a timeout: the
      first matching catch clause wins. */
  lemma TimeoutWinsOverIOException<W>(name: string)
    ensures IsIOException(SocketTimeout)
    ensures Classify<W>(name, Thrown(SocketTimeout)) == Error(TimeoutMessage)
    ensures Classify<W>(name, Thrown(OtherIOException)) == Error(NoInternetMessage)
  {
  }

  /** The characters of "Unknown error" after case folding; `c` is not
      among them. */
  lemma UnknownErrorBodyLacks(c: char)
    requires c !in {'u', 'n', 'k', 'o', 'w', ' ', 'e', 'r'}
    ensures forall i :: 0 <= i < |UnknownErrorBody| ==> FoldChar(UnknownErrorBody[i]) != c
  {
    var s := UnknownErrorBody;
    assert s == ['U', 'n', 'k', 'n', 'o', 'w', 'n', ' ', 'e', 'r', 'r', 'o', 'r'];
    assert FoldChar('U') == 'u' && FoldChar('n') == 'n' && FoldChar('k') == 'k' && FoldChar('o') == 'o';
    assert FoldChar('w') == 'w' && FoldChar(' ') == ' ' && FoldChar('e') == 'e' && FoldChar('r') == 'r';
  }

  /** "Unknown error" has no 'l', so it does not contain "location". */
  lemma UnknownErrorBodyOmitsLocation()
    ensures !ContainsIgnoreCase(UnknownErrorBody, "location")
  {
    UnknownErrorBodyLacks('l');
    assert "location"[0] == 'l' && FoldChar('l') == 'l';
    LacksCharNotContains(UnknownErrorBody, "location", 0);
  }

  /** "Unknown error" has no 'f', so it does not contain "not found". */
  lemma UnknownErrorBodyOmitsNotFound()
    ensures !ContainsIgnoreCase(UnknownErrorBody, "not found")
  {
    UnknownErrorBodyLacks('f');
    assert "not found"[4] == 'f' && FoldChar('f') == 'f';
    LacksCharNotContains(UnknownErrorBody, "not found", 4);
  }

  /** "Unknown error" has no 'v', so it does not contain "invalid". */
  lemma UnknownErrorBodyOmitsInvalid()
    ensures !ContainsIgnoreCase(UnknownErrorBody, "invalid")
  {
    UnknownErrorBodyLacks('v');
    assert "invalid"[2] == 'v' && FoldChar('v') == 'v';
    LacksCharNotContains(UnknownErrorBody, "invalid", 2);
  }

  /** "Unknown error" names none of the not-found words. */
  lemma UnknownErrorBodyNamesNoPlace()
    ensures !MentionsMissingPlace(UnknownErrorBody)
  {
    UnknownErrorBodyOmitsLocation();
    UnknownErrorBodyOmitsNotFound();
    UnknownErrorBodyOmitsInvalid();
  }

  /** A failed response without an error body is reported as an API error
      with the text "Unknown error", never as a place not found. */
  lemma MissingErrorBodyIsApiError<W>(name: string, code: int)
    requires !IsSuccessful(code)
    ensures Classify<W>(name, HttpResponse(code, None, None)) == Error(ApiErrorMessage(UnknownErrorBody, code))
  {
    UnknownErrorBodyNamesNoPlace();
  }

  /** The words whose presence in an error body means the place is unknown. */
  const MissingPlaceKeywords: seq<string> := ["location", "not found", "invalid"]

  /** The keyword test holds exactly when one of the words occurs somewhere
      in the text, ignoring case. */
  lemma MentionsMissingPlaceIffOccurs(text: string)
    ensures MentionsMissingPlace(text) <==>
              exists kw, k :: kw in MissingPlaceKeywords && OccursAt(text, kw, k)
  {
    ContainsIffOccurs(text, "location");
    ContainsIffOccurs(text, "not found");
    ContainsIffOccurs(text, "invalid");
    if MentionsMissingPlace(text) {
      var kw := if ContainsIgnoreCase(text, "location") then "location"
                else if ContainsIgnoreCase(text, "not found") then "not found" else "invalid";
      var k :| OccursAt(text, kw, k);
      assert kw in MissingPlaceKeywords;
    }
  }

  /** A failed response is reported as a missing place exactly when its
      error body, or "Unknown error" without one, contains a not-found
      keyword; otherwise it is an API error quoting that text and the code. */
  lemma FailedResponseReport<W>(name: string, code: int, body: Option<W>, errorBody: Option<string>)
    requires !IsSuccessful(code)
    ensures var text := errorBody.GetOr(UnknownErrorBody);
            var r := Classify(name, HttpResponse(code, body, errorBody));
            && (r == Error(NotFoundMessage(name)) <==>
                  exists kw, k :: kw in MissingPlaceKeywords && OccursAt(text, kw, k))
            && (r != Error(NotFoundMessage(name)) ==> r == Error(ApiErrorMessage(text, code)))
  {
    var text := errorBody.GetOr(UnknownErrorBody);
    MentionsMissingPlaceIffOccurs(text);
    assert ApiErrorMessage(text, code)[0] == 'A' && NotFoundMessage(name)[0] == 'N';
  }

  /** A failed response whose error body mentions the location is reported
      as a place that was not found. */
  lemma NotFoundExample<W>()
    ensures var body := "{\"error\":{\"message\":\"No matching location found.\"}}";
            Classify<W>("Nowhereville", HttpResponse(400, None, Some(body))) ==
              Error("No place found with name \"Nowhereville\".")
  {
    var before := "{\"error\":{\"message\":\"No matching ";
    var after := " found.\"}}";
    assert before + "location" + after == "{\"error\":{\"message\":\"No matching location found.\"}}";
    ContainsInfix(before, "location", after);
  }

  /** A 2xx response without a body is an error, not a success. */
  lemma EmptyBodyIsError<W>(name: string, code: int)
    requires IsSuccessful(code)
    ensures Classify<W>(name, HttpResponse(code, None, None)) == Error(EmptyBodyMessage)
  {
  }

  /** Refreshing fetches the located city, not the last city searched for:
      a search leaves the city a refresh will fetch as it was. */
  lemma RefreshIgnoresSearches<W>(vm: ViewModel<W>, name: string, outcome: WeatherOutcome<W>)
    ensures var searched := GetData(vm, name, outcome)[1];
            RefreshWeatherData(searched).fetched == vm.cityResult
  {
  }

  /** With both providers off, the run reports that location is off, asks
      for no fix, and leaves the located city and the weather alone. */
  lemma LocationOffReported<W>(vm: ViewModel<W>, fix: FixResult)
    ensures var run := GetCurrentLocation(vm, Providers(false, false), fix);
            && run.vm.locationState == LocationState(false, None, Some(LocationOffMessage))
            && !run.fixRequested
            && run.fetched == None
            && run.vm.cityResult == vm.cityResult
            && run.vm.weatherResult == vm.weatherResult
  {
  }

  /** With a provider on and a fix whose locality is known, the city is
      resolved and its weather is fetched. */
  lemma LocatedCityIsFetched<W>(vm: ViewModel<W>, gps: bool, network: bool, city: string)
    requires gps || network
    ensures var run := GetCurrentLocation(vm, Providers(gps, network), Located(Some(city)));
            && run.vm.locationState == LocationState(false, Some(city), None)
            && run.vm.cityResult == Some(city)
            && run.fetched == Some(city)
            && run.vm.weatherResult.Loading?
  {
  }

  /** A fix whose locality cannot be found clears the located city, fetches
      nothing, and, after briefly showing no error, reports that no location
      was found, although a fix arrived. */
  lemma UnnamedFixFetchesNothing<W>(vm: ViewModel<W>, gps: bool, network: bool)
    requires gps || network
    ensures var run := GetCurrentLocation(vm, Providers(gps, network), Located(None));
            && run.emitted == [LocationState(true, None, None), LocationState(false, None, None),
                               LocationState(false, None, Some(NoFixMessage))]
            && run.vm.locationState == LocationState(false, None, Some(NoFixMessage))
            && run.vm.cityResult == None
            && run.fetched == None
  {
  }

  /** Without a fix, the run asks the user to try again; an exception is
      reported by its message, or a generic text when it has none. */
  lemma LocationFailuresReported<W>(vm: ViewModel<W>, gps: bool, network: bool, m: Option<string>, fix: FixResult)
    requires gps || network
    ensures GetCurrentLocation(vm, Providers(gps, network), NoFix).vm.locationState ==
              LocationState(false, None, Some(NoFixMessage))
    ensures GetCurrentLocation(vm, Providers(gps, network), FixRequestFailed(m)).vm.locationState ==
              LocationState(false, None, Some(m.GetOr(UnknownLocationError)))
    ensures GetCurrentLocation(vm, ProviderQueryFailed(m), fix).vm.locationState ==
              LocationState(false, None, Some(m.GetOr(UnknownLocationError)))
  {
  }
}
