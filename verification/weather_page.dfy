/** The weather screen's search box and display rules: the state the screen
    remembers between recompositions, what each handler does to it, what the
    debounce effect asks for, and which panels the screen draws for a given
    state. Layout, theming and the keyboard are not modelled; hiding the
    keyboard has no effect on this state.

    The debounce effect runs whenever `city` or `isUserTyping` changes. It is
    split where it suspends: `DebounceEffect` is what happens before the wait,
    and `OnPredictions` is what the search callback does with its list. */
module WeatherPage {
  import opened Optional
  import opened Text
  import opened Api
  import Geocoding
  import WeatherViewModel

  /** The screen's remembered search state. */
  datatype SearchBox = SearchBox(
    city: string,
    isUserTyping: bool,
    showPredictions: bool,
    cityPredictions: seq<Geocoding.CityPrediction>,
    isLoadingPredictions: bool)

  /** The state on first composition: an empty query that counts as typing,
      and no dropdown. */
  function InitialSearchBox(): (box: SearchBox)
    ensures box.city == [] && box.isUserTyping
    ensures !box.showPredictions && box.cityPredictions == [] && !box.isLoadingPredictions
  {
    SearchBox("", true, false, [], false)
  }

  /** The shortest query that is looked up, in UTF-16 code units. */
  const MinQueryLength := 2

  // ---------------------------------------------------------------------
  // The debounce effect

  /** The search box after the effect's first part, and the query it hands
      to the search, if any. */
  datatype Debounced = Debounced(box: SearchBox, query: Option<string>)

  /** The effect keyed on `city` and `isUserTyping`. While the user types a
      query of at least two code units, the spinner turns on and the query
      is looked up. A shorter query typed by the user closes and empties the
      dropdown. Text the screen set itself is never looked up and leaves
      everything as it is. */
  function DebounceEffect(box: SearchBox): (r: Debounced)
    ensures r.box.city == box.city && r.box.isUserTyping == box.isUserTyping
    ensures r.query.Some? <==> box.isUserTyping && Utf16Length(box.city) >= MinQueryLength
    ensures r.query.Some? ==> r.query.value == box.city
    ensures r.query.Some? ==> r.box == box.(isLoadingPredictions := true)
    ensures box.isUserTyping && r.query.None? ==>
              !r.box.showPredictions && r.box.cityPredictions == [] && !r.box.isLoadingPredictions
    ensures !box.isUserTyping ==> r.box == box
  {
    if box.isUserTyping && Utf16Length(box.city) >= MinQueryLength then
      Debounced(box.(isLoadingPredictions := true), Some(box.city))
    else if box.isUserTyping then
      Debounced(box.(showPredictions := false, cityPredictions := [], isLoadingPredictions := false), None)
    else
      Debounced(box, None)
  }

  /** The search callback: the list is shown when it is not empty, and the
      spinner stops. The query text and the typing flag are left alone. */
  function OnPredictions(box: SearchBox, predictions: seq<Geocoding.CityPrediction>): (r: SearchBox)
    ensures r.cityPredictions == predictions
    ensures r.showPredictions <==> |predictions| > 0
    ensures !r.isLoadingPredictions
    ensures r.city == box.city && r.isUserTyping == box.isUserTyping
  {
    box.(cityPredictions := predictions, showPredictions := |predictions| > 0,
         isLoadingPredictions := false)
  }

  // ---------------------------------------------------------------------
  // Handlers

  /** Editing the text field: the new text is the user's own. */
  function OnValueChange(box: SearchBox, newValue: string): (r: SearchBox)
    ensures r.city == newValue && r.isUserTyping
    ensures r.showPredictions == box.showPredictions && r.cityPredictions == box.cityPredictions
    ensures r.isLoadingPredictions == box.isLoadingPredictions
  {
    box.(city := newValue, isUserTyping := true)
  }

  /** The search box after a handler, and the name it passed to `getData`,
      if it did. */
  datatype Handled = Handled(box: SearchBox, fetch: Option<string>)

  /** The keyboard's search action and the search button, which do the same
      thing: a non-empty query is fetched, the dropdown closes and the text
      stops counting as typed. An empty query is ignored. */
  function OnSubmit(box: SearchBox): (r: Handled)
    ensures r.fetch.Some? <==> |box.city| > 0
    ensures r.fetch.Some? ==> r.fetch.value == box.city
    ensures r.fetch.Some? ==>
              r.box == box.(showPredictions := false, isUserTyping := false)
    ensures r.fetch.None? ==> r.box == box
  {
    if |box.city| > 0 then
      Handled(box.(showPredictions := false, isUserTyping := false), Some(box.city))
    else
      Handled(box, None)
  }

  /** The location button. With a located city, it is fetched and written
      into the field as text the screen set itself. Without one, nothing is
      fetched. Either way the dropdown closes. */
  function OnGpsClick(box: SearchBox, cityResult: Option<string>): (r: Handled)
    ensures r.fetch == cityResult
    ensures !r.box.showPredictions
    ensures cityResult.Some? ==> r.box.city == cityResult.value && !r.box.isUserTyping
    ensures cityResult.None? ==> r.box == box.(showPredictions := false)
    ensures r.box.cityPredictions == box.cityPredictions
    ensures r.box.isLoadingPredictions == box.isLoadingPredictions
  {
    match cityResult
    case Some(located) =>
      Handled(box.(city := located, isUserTyping := false, showPredictions := false), Some(located))
    case None =>
      Handled(box.(showPredictions := false), None)
  }

  /** Tapping a row of the dropdown: its display name becomes the field's
      text, the dropdown closes, and that name is fetched. */
  function OnPredictionSelected(box: SearchBox, prediction: Geocoding.CityPrediction): (r: Handled)
    ensures r.fetch == Some(prediction.displayName)
    ensures r.box.city == prediction.displayName
    ensures !r.box.isUserTyping && !r.box.showPredictions
    ensures r.box.cityPredictions == box.cityPredictions
    ensures r.box.isLoadingPredictions == box.isLoadingPredictions
  {
    Handled(box.(city := prediction.displayName, isUserTyping := false, showPredictions := false),
            Some(prediction.displayName))
  }

  // ---------------------------------------------------------------------
  // Display guards

  /** The dropdown is drawn only when it is open and has rows. */
  predicate ShowsPredictionList(box: SearchBox) {
    box.showPredictions && |box.cityPredictions| > 0
  }

  /** The location error card and its text: shown for an error only while
      no location request is running. */
  function LocationErrorCard(state: WeatherViewModel.LocationState): (r: Option<string>)
    ensures r.Some? <==> state.error.Some? && !state.isLoading
    ensures r.Some? ==> r == state.error
  {
    if state.error.Some? && !state.isLoading then Some(state.error.GetOr("Location error")) else None
  }

  /** What the screen draws below the search box for a weather result. */
  datatype ResultPanel<W> = Nothing | ErrorCard(message: string) | Spinner | Details(data: W)

  /** Whether the user has looked for a place, by typing or by location:
      the field holds text, or a non-empty located city exists. */
  predicate HasSearched(city: string, cityResult: Option<string>) {
    |city| > 0 || (cityResult.Some? && |cityResult.value| > 0)
  }

  /** The result section. Errors and the spinner appear only once a place
      has been looked for (the spinner also while the location is being
      resolved); a success always shows its details. */
  function ResultPanelFor<W>(result: NetworkResponse<W>, city: string, cityResult: Option<string>,
                             locationLoading: bool): (r: ResultPanel<W>)
    ensures r.ErrorCard? <==> result.Error? && HasSearched(city, cityResult)
    ensures r.ErrorCard? ==> r.message == result.message
    ensures r.Spinner? <==> result.Loading? && (HasSearched(city, cityResult) || locationLoading)
    ensures r.Details? <==> result.Success?
    ensures r.Details? ==> r.data == result.data
  {
    match result
    case Error(message) =>
      if |city| > 0 || cityResult.GetOr("") != "" then ErrorCard(message) else Nothing
    case Loading =>
      if |city| > 0 || cityResult.GetOr("") != "" || locationLoading then Spinner else Nothing
    case Success(data) => Details(data)
  }

  /** The subtitle under a prediction's name: the state and the country,
      whichever are non-empty, joined by a comma. */
  function LocationDetails(state: string, country: string): (r: string)
    ensures |state| > 0 && |country| > 0 ==> r == state + ", " + country
    ensures |state| > 0 && |country| == 0 ==> r == state
    ensures |state| == 0 && |country| > 0 ==> r == country
    ensures |state| == 0 && |country| == 0 ==> r == ""
  {
    var built := if |state| > 0 then state else "";
    if |country| > 0 then (if |built| > 0 then built + ", " else built) + country
    else built
  }

  /** The subtitle row is drawn only when it has text. */
  function Subtitle(prediction: Geocoding.CityPrediction): (r: Option<string>)
    ensures r.Some? <==> |prediction.state| > 0 || |prediction.country| > 0
    ensures r.Some? ==> r.value == LocationDetails(prediction.state, prediction.country)
  {
    var details := LocationDetails(prediction.state, prediction.country);
    if |details| > 0 then Some(details) else None
  }

  // ---------------------------------------------------------------------
  // Properties

  /** The first screen draws nothing below the search box: the idle
      `Error("")` is hidden, there is no dropdown and no location card, and
      the empty query is not looked up. */
  lemma InitialScreenIsQuiet<W>()
    ensures ResultPanelFor(WeatherViewModel.NewViewModel<W>().weatherResult, InitialSearchBox().city,
                           WeatherViewModel.NewViewModel<W>().cityResult, false) == Nothing
    ensures !ShowsPredictionList(InitialSearchBox())
    ensures LocationErrorCard(WeatherViewModel.NewViewModel<W>().locationState) == None
    ensures DebounceEffect(InitialSearchBox()) == Debounced(InitialSearchBox(), None)
  {
  }

  /** The idle sentinel is an error with an empty message, so if it is
      shown at all it is shown only after a search. Any error the view
      model produces has a message, so it is never confused with it. */
  lemma SentinelOnlyAfterSearch<W>(city: string, cityResult: Option<string>, locationLoading: bool)
    ensures ResultPanelFor<W>(Error(""), city, cityResult, locationLoading) != Nothing <==>
              HasSearched(city, cityResult)
  {
  }

  /** A typed query is looked up exactly when it has at least two UTF-16
      code units, and then the query is the text itself. */
  lemma TypingSearchesIffLongEnough(box: SearchBox, text: string)
    ensures DebounceEffect(OnValueChange(box, text)).query.Some? <==> Utf16Length(text) >= 2
    ensures DebounceEffect(OnValueChange(box, text)).query.Some? ==>
              DebounceEffect(OnValueChange(box, text)).query == Some(text)
  {
  }

  /** One character outside the Basic Multilingual Plane, an emoji for
      instance, is two code units, so it is already looked up, while one
      letter is not. */
  lemma OneAstralCharIsLookedUp(box: SearchBox, c: char, letter: char)
    requires c as int >= 0x1_0000 && letter as int < 0x1_0000
    ensures DebounceEffect(OnValueChange(box, [c])).query == Some([c])
    ensures DebounceEffect(OnValueChange(box, [letter])).query == None
  {
    assert CodeUnits(c) == 2;
    assert CodeUnits(letter) == 1;
  }

  /** Submitting, selecting a prediction or using the located city writes
      text the screen set itself, so the effect that follows looks nothing
      up and changes nothing. */
  lemma HandlersStartNoLookup(box: SearchBox, prediction: Geocoding.CityPrediction, located: string)
    ensures |box.city| > 0 ==>
              var h := OnSubmit(box); DebounceEffect(h.box) == Debounced(h.box, None)
    ensures var h := OnPredictionSelected(box, prediction); DebounceEffect(h.box) == Debounced(h.box, None)
    ensures var h := OnGpsClick(box, Some(located)); DebounceEffect(h.box) == Debounced(h.box, None)
  {
  }

  /** Submitting an empty field does nothing, and the field can only be
      emptied by typing, which keeps the dropdown closed. */
  lemma EmptySubmitIsIgnored(box: SearchBox)
    ensures OnSubmit(OnValueChange(box, "")) == Handled(OnValueChange(box, ""), None)
    ensures !ShowsPredictionList(DebounceEffect(OnValueChange(box, "")).box)
  {
  }

  /** An empty answer never opens the dropdown; a non-empty one always
      does. */
  lemma DropdownShowsIffRows(box: SearchBox, predictions: seq<Geocoding.CityPrediction>)
    ensures ShowsPredictionList(OnPredictions(box, predictions)) <==> |predictions| > 0
  {
  }

  /** Without a located city the location button only closes the dropdown:
      the text, the typing flag and the weather request are left alone. */
  lemma GpsWithoutCityOnlyCloses(box: SearchBox)
    ensures OnGpsClick(box, None) == Handled(box.(showPredictions := false), None)
    ensures !ShowsPredictionList(OnGpsClick(box, None).box)
  {
  }

  /** One full lookup: the user types a long enough query, the view model
      asks the repository, and the callback fills the dropdown. The rows
      shown are exactly the repository's answer, each has a name and
      non-zero coordinates, no two share a key, and selecting any of them
      fetches a non-empty name, so it is never an ignored empty search. */
  lemma LookupCycle<W>(vm: WeatherViewModel.ViewModel<W>, box: SearchBox, text: string,
                       clock: Geocoding.Clock, outcome: Geocoding.HttpOutcome)
    requires Geocoding.CacheWellFormed(vm.geocoding)
    requires Utf16Length(text) >= 2
    ensures var d := DebounceEffect(OnValueChange(box, text));
            d.query == Some(text) &&
            var s := WeatherViewModel.GetCityPredictions(vm, text, clock, outcome);
            var shown := OnPredictions(d.box, s.predictions);
            && (ShowsPredictionList(shown) <==> |s.predictions| > 0)
            && shown.cityPredictions == s.predictions
            && Geocoding.WellFormed(shown.cityPredictions)
            && Geocoding.CacheWellFormed(s.vm.geocoding)
            && (forall p :: p in shown.cityPredictions ==>
                  |OnPredictionSelected(shown, p).fetch.value| > 0)
  {
    var s := WeatherViewModel.GetCityPredictions(vm, text, clock, outcome);
    assert Geocoding.WellFormed(s.predictions);
    forall p | p in s.predictions
      ensures |OnPredictionSelected(OnPredictions(DebounceEffect(OnValueChange(box, text)).box,
                                                  s.predictions), p).fetch.value| > 0
    {
      assert Geocoding.IsValidPrediction(p);
    }
  }

  /** The subtitle never loses a part: a non-empty state starts it and a
      non-empty country ends it, and the separator appears only between
      two parts. */
  lemma SubtitleKeepsBothParts(state: string, country: string)
    ensures |state| > 0 ==> state <= LocationDetails(state, country)
    ensures |country| > 0 ==>
              var r := LocationDetails(state, country);
              |country| <= |r| && r[|r| - |country|..] == country
    ensures |LocationDetails(state, country)| ==
              |state| + |country| + (if |state| > 0 && |country| > 0 then 2 else 0)
  {
    var r := LocationDetails(state, country);
    if |state| > 0 && |country| > 0 {
      assert r == state + ", " + country;
      assert r[..|state|] == state;
      assert r[|r| - |country|..] == country;
    } else if |country| > 0 {
      assert r[|r| - |country|..] == country;
    }
  }
}
