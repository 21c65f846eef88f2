# AuraWeather search and weather-state model

A Dafny model of the decision logic of the AuraWeather Android app. It covers
three parts:

- **City search** (`GeocodingRepository`). A query is looked up in a cache by
  its lower-cased, trimmed key. On a miss, the repository waits out the
  one-second gap between requests and asks OpenStreetMap's Nominatim
  service. It turns each result into a `CityPrediction` (or drops it) and
  removes duplicates by a `name, state, country` key. Only a 200 response
  with a non-empty body is cached; every failure becomes an empty list.
- **The view model** (`WeatherViewModel`). `getData` moves the weather
  state to `Loading` and then to `Success` or to an `Error` whose message
  is classified from the response or exception. `refreshWeatherData`
  re-fetches the located city. `getCurrentLocation` turns the platform's
  answers into a `LocationState` and possibly a fetch. `getCityPredictions`
  forwards a query to the repository.
- **The screen's pure rules** (`WeatherPage`). These are the debounce
  effect, the text, submit, location-button and selection handlers, the
  display guards, and the subtitle under each prediction.

Every platform answer is an input to the model: the clock readings, the
HTTP outcome, the weather service's response or exception, provider
status, the location fix and its locality. The weather payload itself is
never inspected, so it is a type parameter `W`. Modules follow the
program: `Optional` (nullable values and elvis chains), `Text` (the Kotlin
string operations the code relies on), `Api` (`NetworkResponseClass`),
`Geocoding`, `WeatherViewModel` and `WeatherPage`.

The model follows the code as written. Two places where the code does
something other than what its screen suggests:

- A refresh re-fetches only `cityResult`, which only location resolution
  writes, so after a typed search the refresh reloads the located city, not
  the place on screen. `WeatherViewModel.RefreshIgnoresSearches` states this.
- When a fix arrives but reverse geocoding finds no locality,
  `getCurrentLocation` first writes a success state with no error, and then
  its `?: run` fallback, which reads as the branch for a missing fix, also
  runs and reports the no-fix error. `WeatherViewModel.GetCurrentLocation`
  does the same (see Findings).

## Model

All source paths are under `app/src/main/java/com/example/weather/`; the
table spells them out in full.

| member | source | states |
|---|---|---|
| Optional.Coalesce | app/src/main/java/com/example/weather/repository/GeoCodingRepository.kt:111-115 | An elvis chain yields the first non-null candidate. The fallback is used exactly when every candidate is null. The result is always the fallback or one of the candidates. |
| Text.TrimStartSpec | app/src/main/java/com/example/weather/repository/GeoCodingRepository.kt:58 | Dropping leading whitespace keeps a suffix of the input. Everything cut is whitespace, and what is left does not start with whitespace. |
| Text.TrimEndSpec | app/src/main/java/com/example/weather/repository/GeoCodingRepository.kt:58 | Dropping trailing whitespace keeps a prefix of the input. Everything cut is whitespace, and what is left does not end with whitespace. |
| Text.Trim | app/src/main/java/com/example/weather/repository/GeoCodingRepository.kt:58 | `String.trim()`: leading whitespace is dropped, then trailing whitespace. The result is never longer than the input; `Text.TrimIsTrimOf` states exactly what it is. |
| Text.TrimIsTrimOf | app/src/main/java/com/example/weather/repository/GeoCodingRepository.kt:58 | The trimmed text is a slice of the input with only whitespace before and after it. It neither starts nor ends with whitespace. |
| Text.TrimIdempotent | app/src/main/java/com/example/weather/repository/GeoCodingRepository.kt:58 | Trimming twice gives the same result as trimming once. |
| Text.TrimIgnoresPadding | app/src/main/java/com/example/weather/repository/GeoCodingRepository.kt:58 | Whitespace added at either end does not change the trimmed result. |
| Text.TrimKeepsOnlyItsInput | app/src/main/java/com/example/weather/repository/GeoCodingRepository.kt:115 | Every character of a trimmed string occurs in the original. |
| Text.Lowercase | app/src/main/java/com/example/weather/repository/GeoCodingRepository.kt:58 | Same length. Each ASCII capital becomes its own lower-case letter, so none remains. Every other character is unchanged, and whitespace stays whitespace. |
| Text.LowercaseIdempotent | app/src/main/java/com/example/weather/repository/GeoCodingRepository.kt:58 | Lower-casing twice gives the same result as lower-casing once. |
| Text.BeforeComma | app/src/main/java/com/example/weather/repository/GeoCodingRepository.kt:115 | The first element of a split on commas is the longest comma-free prefix. The input either ends there or has a comma next. |
| Text.ContainsIffOccurs | app/src/main/java/com/example/weather/ui/theme/WeatherViewModel.kt:152-154 | The case-insensitive scan succeeds exactly when the needle matches, ignoring case, at some offset. |
| Text.ContainsInfix | app/src/main/java/com/example/weather/ui/theme/WeatherViewModel.kt:152-154 | A string with the needle inside it contains the needle. |
| Text.LacksCharNotContains | app/src/main/java/com/example/weather/ui/theme/WeatherViewModel.kt:152-154 | A string lacking one of the needle's letters, even ignoring case, does not contain the needle. |
| Text.Utf16Length | app/src/main/java/com/example/weather/ui/theme/WeatherPage.kt:150 | A string's Kotlin length is at least its character count and at most twice it. It equals the count exactly when every character is in the Basic Multilingual Plane. |
| Text.NatToStringRoundTrip | app/src/main/java/com/example/weather/ui/theme/WeatherViewModel.kt:158 | The decimal text of a status code reads back as that number. |
| Text.IntToStringRoundTrip | app/src/main/java/com/example/weather/ui/theme/WeatherViewModel.kt:158 | The decimal text of any integer reads back as that integer. The text has a leading minus exactly when the integer is negative. |
| Geocoding.NameCandidates | app/src/main/java/com/example/weather/repository/GeoCodingRepository.kt:111-114 | The four address fields tried for the city name. All four are null when there is no address. |
| Geocoding.CityName | app/src/main/java/com/example/weather/repository/GeoCodingRepository.kt:111-115 | The first non-null of city, town, village and municipality, else the trimmed text before the first comma of the display name. `Optional.Coalesce` and `Geocoding.FallbackNameIsFirstSegment` state its two cases. |
| Geocoding.CountryOf | app/src/main/java/com/example/weather/repository/GeoCodingRepository.kt:117 | The address country, or empty when it or the address is null. |
| Geocoding.StateOf | app/src/main/java/com/example/weather/repository/GeoCodingRepository.kt:118 | The address state, else the region, or empty when both or the address are null. |
| Geocoding.Latitude | app/src/main/java/com/example/weather/repository/GeoCodingRepository.kt:119 | The parsed latitude, or zero when it does not parse. |
| Geocoding.Longitude | app/src/main/java/com/example/weather/repository/GeoCodingRepository.kt:120 | The parsed longitude, or zero when it does not parse. |
| Geocoding.IsValidCity | app/src/main/java/com/example/weather/repository/GeoCodingRepository.kt:122-126 | A settlement type, the class "place", or a non-empty name. `Geocoding.ToPrediction` states that it never decides. |
| Geocoding.ToPrediction | app/src/main/java/com/example/weather/repository/GeoCodingRepository.kt:110-136 | A result becomes a prediction exactly when its name is non-empty and neither coordinate is zero; the place-type filter never decides. The prediction carries the result's name, state, country and parsed coordinates. |
| Geocoding.MapNotNull | app/src/main/java/com/example/weather/repository/GeoCodingRepository.kt:110-136 | Every prediction kept by the mapping is valid, and the list is no longer than the service's. |
| Geocoding.MapNotNullKeeps | app/src/main/java/com/example/weather/repository/GeoCodingRepository.kt:110-136 | Every result that converts to a prediction has that prediction in the mapped list. |
| Geocoding.MapNotNullOnlyConverted | app/src/main/java/com/example/weather/repository/GeoCodingRepository.kt:110-136 | Every prediction in the mapped list is the conversion of some result. |
| Geocoding.DedupKey | app/src/main/java/com/example/weather/repository/GeoCodingRepository.kt:137 | The string `distinctBy` compares: name, state and country joined by ", ". `Geocoding.DedupKeyConflatesPlaces` shows two places sharing one. |
| Geocoding.DistinctFromSubsequence | app/src/main/java/com/example/weather/repository/GeoCodingRepository.kt:137 | Skipping already-seen keys keeps a subsequence of the list, in order. |
| Geocoding.DistinctFromKeys | app/src/main/java/com/example/weather/repository/GeoCodingRepository.kt:137 | The kept keys are exactly the list's keys that were not already seen. |
| Geocoding.DistinctFromDistinct | app/src/main/java/com/example/weather/repository/GeoCodingRepository.kt:137 | No two kept entries share a key. |
| Geocoding.DistinctFromFirst | app/src/main/java/com/example/weather/repository/GeoCodingRepository.kt:137 | Every kept entry is the first in the list with its key. |
| Geocoding.FirstIndexOfKey | app/src/main/java/com/example/weather/repository/GeoCodingRepository.kt:137 | The position of the first element with a given key, or the length when there is none; the element there has that key. |
| Geocoding.DistinctFromOrder | app/src/main/java/com/example/weather/repository/GeoCodingRepository.kt:137 | The kept entries come in the order of their keys' first occurrences in the input. |
| Geocoding.DistinctBy | app/src/main/java/com/example/weather/repository/GeoCodingRepository.kt:137 | Duplicate removal keeps the list's order and its set of keys. No two kept entries share a key, each kept entry is the first with its key, and the kept keys appear in the order of their first occurrences. |
| Geocoding.Predictions | app/src/main/java/com/example/weather/repository/GeoCodingRepository.kt:110-137 | Mapping, then de-duplication. `Geocoding.PredictionsProperties` and `Geocoding.CollectPredictions` state what it yields. |
| Geocoding.PredictionsProperties | app/src/main/java/com/example/weather/repository/GeoCodingRepository.kt:110-137 | The predictions for any response are valid, have distinct keys, follow the service's order, keep the first result per key in the order of first occurrence, miss no key, and number at most the results. |
| Geocoding.CollectPredictions | app/src/main/java/com/example/weather/repository/GeoCodingRepository.kt:110-137 | The loop version of mapping then de-duplicating computes exactly the predictions defined above. |
| Geocoding.NewRepository | app/src/main/java/com/example/weather/repository/GeoCodingRepository.kt:50-52 | A new repository has an empty cache and no previous request. |
| Geocoding.RateLimitWait | app/src/main/java/com/example/weather/repository/GeoCodingRepository.kt:63-70 | A wait is taken exactly when less than 1000 ms have passed since the last request. It ends exactly 1000 ms after that request. |
| Geocoding.LookupByKey | app/src/main/java/com/example/weather/repository/GeoCodingRepository.kt:58-165 | For any cache key: a hit answers from the cache and changes nothing. A miss waits as required and stamps the request time. A 200 response with parsed results answers, and caches under the key, the predictions made from those results. Every other outcome answers empty and caches nothing. Existing entries are never changed, and a well-formed cache stays well formed. |
| Geocoding.CacheKey | app/src/main/java/com/example/weather/repository/GeoCodingRepository.kt:58 | The query lower-cased, then trimmed. `Geocoding.CacheKeyIdempotent`, `Geocoding.CacheKeyIgnoresCase` and `Geocoding.CacheKeyIgnoresPadding` state which queries share a key. |
| Geocoding.GetCityPredictions | app/src/main/java/com/example/weather/repository/GeoCodingRepository.kt:54-165 | A cache hit answers from the cache and changes nothing. A miss waits as required and stamps the request time. A 200 response with parsed results answers, and caches under the query's key, the predictions made from those results. Any other outcome answers empty and leaves the cache alone. Old entries are never changed, and a well-formed cache stays well formed. |
| Geocoding.ClearCache | app/src/main/java/com/example/weather/repository/GeoCodingRepository.kt:170-172 | Clearing empties the cache and keeps the request time. |
| Geocoding.CacheKeyIdempotent | app/src/main/java/com/example/weather/repository/GeoCodingRepository.kt:58 | The key of a key is the key itself. |
| Geocoding.CacheKeyIgnoresCase | app/src/main/java/com/example/weather/repository/GeoCodingRepository.kt:58 | Queries differing only in ASCII case share a cache key. |
| Geocoding.CacheKeyIgnoresPadding | app/src/main/java/com/example/weather/repository/GeoCodingRepository.kt:58 | Queries differing only in surrounding whitespace share a cache key. |
| Geocoding.RepeatedQueryIsServedFromCache | app/src/main/java/com/example/weather/repository/GeoCodingRepository.kt:58-61 | After a cached answer, any query with the same key gets the same list with no request and no state change. |
| Geocoding.FailuresAreAbsorbed | app/src/main/java/com/example/weather/repository/GeoCodingRepository.kt:144-164 | A failed, non-200 or bodiless response answers empty and caches nothing. The request is still stamped. |
| Geocoding.EmptyResultsAreCached | app/src/main/java/com/example/weather/repository/GeoCodingRepository.kt:103-143 | A 200 response with no usable results caches the empty list. |
| Geocoding.ClearedCacheMisses | app/src/main/java/com/example/weather/repository/GeoCodingRepository.kt:170-172 | After clearing, every query goes to the network. |
| Geocoding.RequestsAreSpaced | app/src/main/java/com/example/weather/repository/GeoCodingRepository.kt:63-71 | Two consecutive network requests are stamped at least 1000 ms apart. |
| Geocoding.EmptyCityIsNotSkipped | app/src/main/java/com/example/weather/repository/GeoCodingRepository.kt:111-128 | An empty city field is not skipped in favour of the town, so that result is dropped. |
| Geocoding.OneResultPredictions | app/src/main/java/com/example/weather/repository/GeoCodingRepository.kt:110-137 | A response with one result gives that result's prediction if it converts, and nothing otherwise. |
| Geocoding.ParisExample | app/src/main/java/com/example/weather/repository/GeoCodingRepository.kt:110-137 | A city result with a country and no state becomes one prediction with an empty state. |
| Geocoding.ZeroCoordinateIsDropped | app/src/main/java/com/example/weather/repository/GeoCodingRepository.kt:119-128 | A result with a zero or unparsable coordinate never becomes a prediction. |
| Geocoding.FallbackNameIsFirstSegment | app/src/main/java/com/example/weather/repository/GeoCodingRepository.kt:111-115 | Without an address, or with none of its four name fields, the name is the trimmed text before the display name's first comma. |
| Geocoding.DedupKeyConflatesPlaces | app/src/main/java/com/example/weather/repository/GeoCodingRepository.kt:137 | Two different places whose fields contain commas can share a key, and then only the first is kept. |
| WeatherViewModel.NewViewModel | app/src/main/java/com/example/weather/ui/theme/WeatherViewModel.kt:28-46 | The initial state is the `Error("")` sentinel, no located city, an idle location state, and an empty search cache. |
| WeatherViewModel.MentionsMissingPlace | app/src/main/java/com/example/weather/ui/theme/WeatherViewModel.kt:152-154 | The error body contains "location", "not found" or "invalid", ignoring case. `WeatherViewModel.MentionsMissingPlaceIffOccurs` states when. |
| WeatherViewModel.Classify | app/src/main/java/com/example/weather/ui/theme/WeatherViewModel.kt:140-167 | A finished request is never `Loading`. It is a success exactly when a 2xx response has a body, carrying that body. A failed response is either "no place found" under the searched name or an API error quoting the error body, or "Unknown error", and the code. Any other exception reports "Network error: " and its message. Every error has a non-empty message, so none looks like the sentinel. |
| WeatherViewModel.StartFetch | app/src/main/java/com/example/weather/ui/theme/WeatherViewModel.kt:137-138 | Starting a fetch shows `Loading` and changes nothing else. |
| WeatherViewModel.CompleteFetch | app/src/main/java/com/example/weather/ui/theme/WeatherViewModel.kt:139-168 | Completing a fetch sets the weather state to the classification of the outcome, which is never `Loading`, and changes nothing else. |
| WeatherViewModel.GetData | app/src/main/java/com/example/weather/ui/theme/WeatherViewModel.kt:137-169 | A fetch passes through `Loading` to the classified result. The located city, the location state and the search cache never change. |
| WeatherViewModel.RefreshWeatherData | app/src/main/java/com/example/weather/ui/theme/WeatherViewModel.kt:173-178 | A refresh fetches the located city when there is one, and otherwise does nothing. |
| WeatherViewModel.ClearLocationError | app/src/main/java/com/example/weather/ui/theme/WeatherViewModel.kt:60-62 | Only the location error is cleared. |
| WeatherViewModel.GetCurrentLocation | app/src/main/java/com/example/weather/ui/theme/WeatherViewModel.kt:64-121 | A run emits loading and then a final state that is never loading. No emitted state is both loading and failed. A fix is requested exactly when a provider is on. The run ends without an error exactly when a fix with a locality arrives. A fix without one is briefly shown as a success without a city, then as the no-fix error. The located city is written exactly when a fix arrives. A fetch starts exactly for a fix with a locality, and then for that city. |
| WeatherViewModel.GetCurrentLocationIntended | app/src/main/java/com/example/weather/ui/theme/WeatherViewModel.kt:98-113 | The run as its fallback is evidently meant, where only a missing fix reports an error: two states, no error exactly when a fix arrives, and a fix with no locality ends as a success with no city name. |
| WeatherViewModel.IntendedDiffersOnlyOnUnnamedFix | app/src/main/java/com/example/weather/ui/theme/WeatherViewModel.kt:98-113 | The run whose fallback reports only a missing fix and the run as written agree exactly when the outcome is not a fix without a locality. |
| WeatherViewModel.GetCityPredictions | app/src/main/java/com/example/weather/ui/theme/WeatherViewModel.kt:48-57 | The callback gets the repository's answer and the view model keeps the repository's new state. The answer is well formed when the cache is. The weather and location states are untouched. |
| WeatherViewModel.TimeoutWinsOverIOException | app/src/main/java/com/example/weather/ui/theme/WeatherViewModel.kt:161-164 | A timeout is an I/O exception but is reported as a timeout; any other I/O failure is reported as no connection. |
| WeatherViewModel.UnknownErrorBodyNamesNoPlace | app/src/main/java/com/example/weather/ui/theme/WeatherViewModel.kt:149-155 | The stand-in text for a missing error body contains none of the not-found keywords. |
| WeatherViewModel.MentionsMissingPlaceIffOccurs | app/src/main/java/com/example/weather/ui/theme/WeatherViewModel.kt:152-154 | The keyword test holds exactly when "location", "not found" or "invalid" occurs, ignoring case, at some offset of the text. |
| WeatherViewModel.FailedResponseReport | app/src/main/java/com/example/weather/ui/theme/WeatherViewModel.kt:149-158 | For every non-2xx response: it is reported as no place found exactly when a not-found keyword occurs in the error body, or in "Unknown error" when there is none. Otherwise it is the API error quoting that text and the code. |
| WeatherViewModel.MissingErrorBodyIsApiError | app/src/main/java/com/example/weather/ui/theme/WeatherViewModel.kt:149-158 | A failed response without an error body is reported as an API error, never as a missing place. |
| WeatherViewModel.NotFoundExample | app/src/main/java/com/example/weather/ui/theme/WeatherViewModel.kt:152-156 | An error body mentioning the location is reported as no place found under the searched name. |
| WeatherViewModel.EmptyBodyIsError | app/src/main/java/com/example/weather/ui/theme/WeatherViewModel.kt:142-147 | A 2xx response without a body is an error. |
| WeatherViewModel.RefreshIgnoresSearches | app/src/main/java/com/example/weather/ui/theme/WeatherViewModel.kt:173-178 | After any search, a refresh still fetches the located city, not the searched name. |
| WeatherViewModel.LocationOffReported | app/src/main/java/com/example/weather/ui/theme/WeatherViewModel.kt:75-81 | With both providers off, the run reports location off, requests no fix, and touches neither the city nor the weather. |
| WeatherViewModel.LocatedCityIsFetched | app/src/main/java/com/example/weather/ui/theme/WeatherViewModel.kt:98-107 | A fix with a locality resolves the city and starts its fetch. |
| WeatherViewModel.UnnamedFixFetchesNothing | app/src/main/java/com/example/weather/ui/theme/WeatherViewModel.kt:98-113 | A fix without a locality clears the located city and fetches nothing. It emits loading, then a state with no city and no error, then the no-fix error, which it ends with. |
| WeatherViewModel.LocationFailuresReported | app/src/main/java/com/example/weather/ui/theme/WeatherViewModel.kt:108-119 | No fix asks the user to retry. An exception, from the fix request or from the provider query whatever the fix, reports its message, or a generic text when it has none. |
| WeatherPage.InitialSearchBox | app/src/main/java/com/example/weather/ui/theme/WeatherPage.kt:92-104 | The screen starts with an empty query that counts as typed, and no dropdown. |
| WeatherPage.DebounceEffect | app/src/main/java/com/example/weather/ui/theme/WeatherPage.kt:149-163 | A query is looked up exactly when it was typed and is at least two UTF-16 units long, and then the spinner starts. A shorter typed query empties and closes the dropdown. Text the screen set changes nothing. |
| WeatherPage.OnPredictions | app/src/main/java/com/example/weather/ui/theme/WeatherPage.kt:153-157 | The answer becomes the list. The dropdown opens exactly when the list is non-empty, and the spinner stops. |
| WeatherPage.OnValueChange | app/src/main/java/com/example/weather/ui/theme/WeatherPage.kt:229-232 | Editing sets the text and marks it as typed; nothing else changes. |
| WeatherPage.OnSubmit | app/src/main/java/com/example/weather/ui/theme/WeatherPage.kt:240-247 | Submitting fetches exactly when the text is non-empty. It then closes the dropdown and marks the text as not typed. An empty field changes nothing. |
| WeatherPage.EmptySubmitIsIgnored | app/src/main/java/com/example/weather/ui/theme/WeatherPage.kt:281-288 | Clearing the field and pressing search fetches nothing, and no dropdown shows. |
| WeatherPage.OnGpsClick | app/src/main/java/com/example/weather/ui/theme/WeatherPage.kt:259-267 | The location button fetches the located city, if any, and writes it into the field as untyped text. The dropdown always closes. |
| WeatherPage.GpsWithoutCityOnlyCloses | app/src/main/java/com/example/weather/ui/theme/WeatherPage.kt:259-267 | Without a located city, the location button only closes the dropdown. |
| WeatherPage.OnPredictionSelected | app/src/main/java/com/example/weather/ui/theme/WeatherPage.kt:316-322 | Selecting a row puts its name in the field, closes the dropdown, marks the text as untyped and fetches that name. |
| WeatherPage.DropdownShowsIffRows | app/src/main/java/com/example/weather/ui/theme/WeatherPage.kt:301 | After an answer arrives, the dropdown is drawn exactly when the answer has rows. |
| WeatherPage.ShowsPredictionList | app/src/main/java/com/example/weather/ui/theme/WeatherPage.kt:301 | The dropdown is drawn when it is open and has rows. `WeatherPage.DropdownShowsIffRows` ties it to the answer. |
| WeatherPage.LocationErrorCard | app/src/main/java/com/example/weather/ui/theme/WeatherPage.kt:334-348 | The location error card shows exactly when there is an error and no location request runs. It shows that error's text. |
| WeatherPage.ResultPanelFor | app/src/main/java/com/example/weather/ui/theme/WeatherPage.kt:388-426 | An error card shows exactly for an error once a place was searched. A spinner shows exactly while loading after a search or during location resolution. Details show exactly for a success, with its data. |
| WeatherPage.InitialScreenIsQuiet | app/src/main/java/com/example/weather/ui/theme/WeatherPage.kt:389-392 | The first screen shows no result panel, no dropdown and no location card, and looks nothing up. |
| WeatherPage.SentinelOnlyAfterSearch | app/src/main/java/com/example/weather/ui/theme/WeatherPage.kt:391 | The `Error("")` sentinel is drawn exactly when the field or the located city is non-empty. |
| WeatherPage.TypingSearchesIffLongEnough | app/src/main/java/com/example/weather/ui/theme/WeatherPage.kt:149-150 | Typed text is looked up, as typed, exactly when it is at least two UTF-16 units long. |
| WeatherPage.OneAstralCharIsLookedUp | app/src/main/java/com/example/weather/ui/theme/WeatherPage.kt:150 | One character outside the Basic Multilingual Plane is already looked up; one character inside it is not. |
| WeatherPage.HandlersStartNoLookup | app/src/main/java/com/example/weather/ui/theme/WeatherPage.kt:149-163 | After a submit of non-empty text, a selection or the location button with a located city, the debounce effect looks nothing up and changes nothing. |
| WeatherPage.LookupCycle | app/src/main/java/com/example/weather/ui/theme/WeatherPage.kt:149-157 | Typing, the lookup and its callback show exactly the repository's answer. Its rows are valid with distinct keys, and selecting any row fetches a non-empty name. |
| WeatherPage.LocationDetails | app/src/main/java/com/example/weather/ui/theme/WeatherPage.kt:470-478 | The subtitle is `state, country` when both are present, the one present part otherwise, and empty when neither is. |
| WeatherPage.Subtitle | app/src/main/java/com/example/weather/ui/theme/WeatherPage.kt:479-485 | The subtitle row is drawn exactly when the state or the country is non-empty. |
| WeatherPage.SubtitleKeepsBothParts | app/src/main/java/com/example/weather/ui/theme/WeatherPage.kt:470-478 | A present state starts the subtitle and a present country ends it. The separator adds two characters only when both are present. |

## Left out

- Compose layout, theming, icons and the `WeatherIcon` condition-to-drawable table are presentation only. So are `WeatherDetails`, `MainActivity` and the keyboard controller.
- The HTTP client, URL encoding, request headers, JSON parsing and the Retrofit instance are replaced by an outcome datatype. A body Gson cannot parse is the `Malformed` payload. A result with a null `lat` or `lon`, or with a null `display_name` and no address name, makes the mapping fail on that field, and the catch-all then answers empty without caching, as for a `Malformed` body. A null `type`, or a null `display_name` next to an address name, is never read in a way that fails. The model gives such a field a string, which changes nothing: the place-type test never decides, and the display name is read only as the fallback name.
- The weather service's response model is a type parameter: no logic here inspects it.
- `String.toDoubleOrNull` is not modelled. A coordinate is given already parsed as a finite real, NaN, an infinity, or missing.
- Clocks, `delay` and the 500 ms debounce timer are not modelled. Time readings are inputs, and the wait is computed, not performed.
- Coroutine concurrency is not modelled: the non-atomic rate-limit update, and stale debounced lookups that are never cancelled. Each asynchronous completion is a separate transition applied in order.
- Android platform calls are inputs: the location manager, the fused location client, the geocoder and runtime permissions. The `ON_RESUME` retry observer, the permission launcher and the "Enable Location" and "Retry" buttons only call these, so they are left out too.
- The commented-out pull-to-refresh code and the `isRefreshing` flag are left out; the flag is never read.
- 64-bit `Long` milliseconds and 32-bit `Int` status codes are unbounded integers. No realistic clock or status code reaches those bounds.
- Text.Lowercase: lower-cases ASCII capitals only. Kotlin's `lowercase()` applies the locale-independent Unicode lower-case mapping to every letter. The model leaves non-ASCII capitals alone, so the cache key of a query with non-ASCII capitals can differ from the app's.
- Text.FoldChar: case-insensitive comparison is exact only when one side is ASCII. This covers every use here, since every keyword searched for is ASCII.
- Geocoding.IsValidCity: `class_type` is kept as an optional field but never decides anything, because a non-empty name already passes the filter.

## Findings

| source | as written | input that shows it | evidently intended | confidence | as-written member | corrected member |
|---|---|---|---|---|---|---|
| app/src/main/java/com/example/weather/ui/theme/WeatherViewModel.kt:98-113 | The block run on a fix ends with `cityName?.let { getData(it) }`, whose value is null when there is no locality, so the `?: run` fallback for a missing fix runs too and sets "Unable to get your location. Please try again." | A provider on and a fix whose locality is null | A fix without a locality ends as a success with no city name and no error | medium, not executed | WeatherViewModel.UnnamedFixFetchesNothing | WeatherViewModel.GetCurrentLocationIntended |
