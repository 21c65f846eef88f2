/** The city-search repository: turns a free-text query into a short list of
    city predictions from a Nominatim-style geocoding service, behind an
    in-memory cache keyed by the normalised query and a one-second gap
    between outbound requests.

    The network is an input: one call of `GetCityPredictions` is handed the
    outcome its single request would have (a status code with a body, or an
    exception) and the two clock readings it takes. */
module Geocoding {
  import opened Optional
  import opened Text

  // ---------------------------------------------------------------------
  // Shapes

  /** A coordinate as `String.toDoubleOrNull()` parses it. Finite doubles
      are exact rationals, so a `real` holds them; -0.0 and +0.0 are the same
      finite zero here, as they are to Kotlin's `==` on primitive doubles. */
  datatype Coord = Finite(value: real) | NotANumber | Infinite(negative: bool) {

    /** `d == 0.0` on a primitive double: false for NaN and the infinities. */
    predicate IsZero() {
      Finite? && value == 0.0
    }
  }

  datatype CityPrediction = CityPrediction(
    displayName: string,
    country: string,
    state: string,
    lat: Coord,
    lon: Coord)

  /** The `address` object of a search result; every part may be null. */
  datatype NominatimAddress = NominatimAddress(
    city: Option<string>,
    town: Option<string>,
    village: Option<string>,
    municipality: Option<string>,
    state: Option<string>,
    region: Option<string>,
    country: Option<string>)

  /** One raw search result (JSON fields `display_name`, `lat`, `lon`,
      `type`, `class_type`, `address`). `lat` and `lon` hold what
      `toDoubleOrNull()` makes of the text fields: None when unparseable. */
  datatype NominatimResponse = NominatimResponse(
    displayName: string,
    lat: Option<Coord>,
    lon: Option<Coord>,
    placeType: string,
    classType: Option<string>,
    address: Option<NominatimAddress>)

  // ---------------------------------------------------------------------
  // From a raw result to a prediction

  /** `address?.city`, `address?.town`, `address?.village`,
      `address?.municipality`, in the order the elvis chain tries them. */
  function NameCandidates(address: Option<NominatimAddress>): (xs: seq<Option<string>>)
    ensures |xs| == 4
    ensures address.None? ==> forall i :: 0 <= i < 4 ==> xs[i].None?
  {
    match address
    case None => [None, None, None, None]
    case Some(a) => [a.city, a.town, a.village, a.municipality]
  }

  /** The name shown for a result: the first non-null of city, town,
      village, municipality, else the first comma-separated part of the
      full display name, trimmed. */
  function CityName(r: NominatimResponse): string {
    Coalesce(NameCandidates(r.address), Trim(BeforeComma(r.displayName)))
  }

  /** `address?.country ?: ""` */
  function CountryOf(r: NominatimResponse): string {
    match r.address
    case None => ""
    case Some(a) => a.country.GetOr("")
  }

  /** `address?.state ?: address?.region ?: ""` */
  function StateOf(r: NominatimResponse): string {
    match r.address
    case None => ""
    case Some(a) => Coalesce([a.state, a.region], "")
  }

  /** `lat.toDoubleOrNull() ?: 0.0` */
  function Latitude(r: NominatimResponse): Coord {
    r.lat.GetOr(Finite(0.0))
  }

  /** `lon.toDoubleOrNull() ?: 0.0` */
  function Longitude(r: NominatimResponse): Coord {
    r.lon.GetOr(Finite(0.0))
  }

  const ValidCityTypes: seq<string> := ["city", "town", "village", "municipality", "administrative"]

  /** The result's type is a settlement type, or its class is "place", or it
      has a name at all. */
  predicate IsValidCity(r: NominatimResponse, cityName: string) {
    r.placeType in ValidCityTypes || r.classType == Some("place") || |cityName| > 0
  }

  /** What every prediction handed to the search box satisfies. */
  predicate IsValidPrediction(p: CityPrediction) {
    |p.displayName| > 0 && !p.lat.IsZero() && !p.lon.IsZero()
  }

  /** The body of the `mapNotNull` lambda: a prediction, or null for a
      result that is dropped. The settlement check never decides anything,
      because a non-empty name already passes it: a result survives exactly
      when it has a name and both coordinates are non-zero (an unparseable
      coordinate counts as zero). */
  function ToPrediction(r: NominatimResponse): (p: Option<CityPrediction>)
    ensures p.Some? <==> |CityName(r)| > 0 && !Latitude(r).IsZero() && !Longitude(r).IsZero()
    ensures p.Some? ==> IsValidPrediction(p.value)
    ensures p.Some? ==> p.value.displayName == CityName(r) && p.value.state == StateOf(r) &&
                        p.value.country == CountryOf(r)
    ensures p.Some? ==> p.value.lat == Latitude(r) && p.value.lon == Longitude(r)
  {
    var name := CityName(r);
    var lat := Latitude(r);
    var lon := Longitude(r);
    if |name| > 0 && !lat.IsZero() && !lon.IsZero() && IsValidCity(r, name) then
      Some(CityPrediction(name, CountryOf(r), StateOf(r), lat, lon))
    else
      None
  }

  /** `results.mapNotNull { ... }` */
  function MapNotNull(raw: seq<NominatimResponse>): (ps: seq<CityPrediction>)
    ensures |ps| <= |raw|
    ensures forall p :: p in ps ==> IsValidPrediction(p)
  {
    if |raw| == 0 then []
    else
      match ToPrediction(raw[0])
      case Some(p) => [p] + MapNotNull(raw[1..])
      case None => MapNotNull(raw[1..])
  }

  /** Mapping keeps every result that converts. */
  lemma {:induction false} MapNotNullKeeps(raw: seq<NominatimResponse>)
    ensures forall i :: 0 <= i < |raw| && ToPrediction(raw[i]).Some? ==>
              ToPrediction(raw[i]).value in MapNotNull(raw)
    decreases |raw|
  {
    if |raw| > 0 {
      MapNotNullKeeps(raw[1..]);
      forall i | 1 <= i < |raw| && ToPrediction(raw[i]).Some?
        ensures ToPrediction(raw[i]).value in MapNotNull(raw)
      {
        assert raw[i] == raw[1..][i - 1];
      }
    }
  }

  /** Mapping keeps nothing but converted results. */
  lemma {:induction false} MapNotNullOnlyConverted(raw: seq<NominatimResponse>)
    ensures forall p :: p in MapNotNull(raw) ==>
              exists i :: 0 <= i < |raw| && ToPrediction(raw[i]) == Some(p)
    decreases |raw|
  {
    if |raw| > 0 {
      MapNotNullOnlyConverted(raw[1..]);
      forall p | p in MapNotNull(raw)
        ensures exists i :: 0 <= i < |raw| && ToPrediction(raw[i]) == Some(p)
      {
        if p in MapNotNull(raw[1..]) {
          var k :| 0 <= k < |raw[1..]| && ToPrediction(raw[1..][k]) == Some(p);
          assert raw[1..][k] == raw[k + 1];
        } else {
          assert ToPrediction(raw[0]) == Some(p);
        }
      }
    }
  }

  /** `mapNotNull` keeps the input order: mapping a concatenation maps each
      part in turn. */
  lemma {:induction false} MapNotNullAppend(a: seq<NominatimResponse>, b: seq<NominatimResponse>)
    ensures MapNotNull(a + b) == MapNotNull(a) + MapNotNull(b)
    decreases |a|
  {
    if |a| == 0 {
      assert a + b == b;
    } else {
      assert (a + b)[0] == a[0];
      assert (a + b)[1..] == a[1..] + b;
      MapNotNullAppend(a[1..], b);
    }
  }

  lemma MapNotNullSingle(r: NominatimResponse)
    ensures MapNotNull([r]) == if ToPrediction(r).Some? then [ToPrediction(r).value] else []
  {
    assert [r][1..] == [];
  }

  lemma MapNotNullStep(raw: seq<NominatimResponse>, i: nat)
    requires i < |raw|
    ensures ToPrediction(raw[i]).Some? ==>
              MapNotNull(raw[..i + 1]) == MapNotNull(raw[..i]) + [ToPrediction(raw[i]).value]
    ensures ToPrediction(raw[i]).None? ==> MapNotNull(raw[..i + 1]) == MapNotNull(raw[..i])
  {
    assert raw[..i + 1] == raw[..i] + [raw[i]];
    MapNotNullAppend(raw[..i], [raw[i]]);
    MapNotNullSingle(raw[i]);
  }

  // ---------------------------------------------------------------------
  // distinctBy

  /** The string `distinctBy` compares: `"$displayName, $state, $country"`. */
  function DedupKey(p: CityPrediction): string {
    p.displayName + ", " + p.state + ", " + p.country
  }

  ghost function KeySet(ps: seq<CityPrediction>): set<string> {
    set p | p in ps :: DedupKey(p)
  }

  /** `a` can be obtained from `b` by deleting elements. */
  ghost predicate IsSubsequence<T>(a: seq<T>, b: seq<T>)
    decreases |b|
  {
    || |a| == 0
    || (&& |b| > 0
        && ((a[0] == b[0] && IsSubsequence(a[1..], b[1..])) || IsSubsequence(a, b[1..])))
  }

  /** The first element of `ps` whose key is `key`. */
  function FirstWithKey(ps: seq<CityPrediction>, key: string): Option<CityPrediction> {
    if |ps| == 0 then None
    else if DedupKey(ps[0]) == key then Some(ps[0])
    else FirstWithKey(ps[1..], key)
  }

  predicate DistinctKeys(ps: seq<CityPrediction>) {
    forall i, j :: 0 <= i < j < |ps| ==> DedupKey(ps[i]) != DedupKey(ps[j])
  }

  /** `distinctBy` that has already met the keys in `seen`. */
  function DistinctFrom(ps: seq<CityPrediction>, seen: set<string>): (r: seq<CityPrediction>)
    ensures |r| <= |ps|
    decreases |ps|
  {
    if |ps| == 0 then []
    else if DedupKey(ps[0]) in seen then DistinctFrom(ps[1..], seen)
    else [ps[0]] + DistinctFrom(ps[1..], seen + {DedupKey(ps[0])})
  }

  /** `DistinctFrom` keeps its input's order. */
  lemma {:induction false} DistinctFromSubsequence(ps: seq<CityPrediction>, seen: set<string>)
    ensures IsSubsequence(DistinctFrom(ps, seen), ps)
    decreases |ps|
  {
    if |ps| > 0 {
      var k := DedupKey(ps[0]);
      if k in seen {
        DistinctFromSubsequence(ps[1..], seen);
      } else {
        DistinctFromSubsequence(ps[1..], seen + {k});
        var r := DistinctFrom(ps, seen);
        assert r[0] == ps[0] && r[1..] == DistinctFrom(ps[1..], seen + {k});
      }
    }
  }

  /** `DistinctFrom` keeps exactly the keys not seen before. */
  lemma {:induction false} DistinctFromKeys(ps: seq<CityPrediction>, seen: set<string>)
    ensures KeySet(DistinctFrom(ps, seen)) == KeySet(ps) - seen
    decreases |ps|
  {
    if |ps| > 0 {
      var k := DedupKey(ps[0]);
      assert KeySet(ps) == {k} + KeySet(ps[1..]) by {
        assert forall p :: p in ps <==> p == ps[0] || p in ps[1..];
      }
      if k in seen {
        DistinctFromKeys(ps[1..], seen);
      } else {
        DistinctFromKeys(ps[1..], seen + {k});
        var rest := DistinctFrom(ps[1..], seen + {k});
        var r := [ps[0]] + rest;
        assert r == DistinctFrom(ps, seen);
        assert KeySet(r) == {k} + KeySet(rest) by {
          assert forall p :: p in r <==> p == ps[0] || p in rest;
        }
      }
    }
  }

  /** `DistinctFrom` keeps one element per key. */
  lemma {:induction false} DistinctFromDistinct(ps: seq<CityPrediction>, seen: set<string>)
    ensures DistinctKeys(DistinctFrom(ps, seen))
    decreases |ps|
  {
    if |ps| > 0 {
      var k := DedupKey(ps[0]);
      if k in seen {
        DistinctFromDistinct(ps[1..], seen);
      } else {
        DistinctFromDistinct(ps[1..], seen + {k});
        DistinctFromKeys(ps[1..], seen + {k});
        var rest := DistinctFrom(ps[1..], seen + {k});
        var r := [ps[0]] + rest;
        assert r == DistinctFrom(ps, seen);
        forall i, j | 0 <= i < j < |r|
          ensures DedupKey(r[i]) != DedupKey(r[j])
        {
          assert r[j] == rest[j - 1] && r[j] in rest;
          assert DedupKey(r[j]) in KeySet(rest);
          if i > 0 {
            assert r[i] == rest[i - 1];
          }
        }
      }
    }
  }

  /** Every element `DistinctFrom` keeps is the first with its key. */
  lemma {:induction false} DistinctFromFirst(ps: seq<CityPrediction>, seen: set<string>)
    ensures forall p :: p in DistinctFrom(ps, seen) ==> FirstWithKey(ps, DedupKey(p)) == Some(p)
    decreases |ps|
  {
    if |ps| > 0 {
      var k := DedupKey(ps[0]);
      var seen' := if k in seen then seen else seen + {k};
      var rest := DistinctFrom(ps[1..], seen');
      DistinctFromFirst(ps[1..], seen');
      DistinctFromKeys(ps[1..], seen');
      forall p | p in DistinctFrom(ps, seen)
        ensures FirstWithKey(ps, DedupKey(p)) == Some(p)
      {
        if p in rest {
          assert DedupKey(p) in KeySet(rest);
        }
      }
    }
  }

  /** The position of the first element with key `k`, or `|ps|` when there
      is none. */
  function FirstIndexOfKey(ps: seq<CityPrediction>, k: string): (i: nat)
    ensures i <= |ps|
    ensures i < |ps| ==> DedupKey(ps[i]) == k
  {
    if |ps| == 0 then 0
    else if DedupKey(ps[0]) == k then 0
    else 1 + FirstIndexOfKey(ps[1..], k)
  }

  /** No key `DistinctFrom` keeps was already seen. */
  lemma DistinctFromAvoidsSeen(ps: seq<CityPrediction>, seen: set<string>)
    ensures forall j :: 0 <= j < |DistinctFrom(ps, seen)| ==> DedupKey(DistinctFrom(ps, seen)[j]) !in seen
  {
    var r := DistinctFrom(ps, seen);
    DistinctFromKeys(ps, seen);
    forall j | 0 <= j < |r|
      ensures DedupKey(r[j]) !in seen
    {
      assert DedupKey(r[j]) in KeySet(r);
    }
  }

  /** `DistinctFrom` keeps the kept keys in the order their first
      occurrences have in the input. */
  lemma {:induction false} DistinctFromOrder(ps: seq<CityPrediction>, seen: set<string>)
    ensures forall i, j :: 0 <= i < j < |DistinctFrom(ps, seen)| ==>
              FirstIndexOfKey(ps, DedupKey(DistinctFrom(ps, seen)[i])) <
              FirstIndexOfKey(ps, DedupKey(DistinctFrom(ps, seen)[j]))
    decreases |ps|
  {
    if |ps| > 0 {
      var k := DedupKey(ps[0]);
      var seen' := if k in seen then seen else seen + {k};
      var rest := DistinctFrom(ps[1..], seen');
      DistinctFromOrder(ps[1..], seen');
      DistinctFromAvoidsSeen(ps[1..], seen');
      // every key kept from the tail differs from the head's, so its first
      // index in `ps` is one past its first index in the tail
      forall j | 0 <= j < |rest|
        ensures FirstIndexOfKey(ps, DedupKey(rest[j])) == 1 + FirstIndexOfKey(ps[1..], DedupKey(rest[j]))
      {
        assert DedupKey(rest[j]) != k;
      }
      if k in seen {
        assert DistinctFrom(ps, seen) == rest;
      } else {
        var r := [ps[0]] + rest;
        assert r == DistinctFrom(ps, seen);
        forall i, j | 0 <= i < j < |r|
          ensures FirstIndexOfKey(ps, DedupKey(r[i])) < FirstIndexOfKey(ps, DedupKey(r[j]))
        {
          assert r[j] == rest[j - 1];
          if i > 0 {
            assert r[i] == rest[i - 1];
          }
        }
      }
    }
  }

  /** `list.distinctBy { DedupKey(it) }`: the first element of every key,
      in their original order. */
  function DistinctBy(ps: seq<CityPrediction>): (r: seq<CityPrediction>)
    ensures |r| <= |ps|
    ensures IsSubsequence(r, ps)
    ensures DistinctKeys(r)
    ensures KeySet(r) == KeySet(ps)
    ensures forall p :: p in r ==> FirstWithKey(ps, DedupKey(p)) == Some(p)
    ensures forall i, j :: 0 <= i < j < |r| ==>
              FirstIndexOfKey(ps, DedupKey(r[i])) < FirstIndexOfKey(ps, DedupKey(r[j]))
  {
    DistinctFromOrder(ps, {});
    DistinctFromSubsequence(ps, {});
    DistinctFromKeys(ps, {});
    DistinctFromDistinct(ps, {});
    DistinctFromFirst(ps, {});
    DistinctFrom(ps, {})
  }

  /** The list a 200 response with parsed results yields. */
  function Predictions(raw: seq<NominatimResponse>): seq<CityPrediction> {
    DistinctBy(MapNotNull(raw))
  }

  predicate WellFormed(ps: seq<CityPrediction>) {
    (forall p :: p in ps ==> IsValidPrediction(p)) && DistinctKeys(ps)
  }

  /** Every prediction list the service turns into is valid, has no repeated
      key, keeps the service's order, picks the first result for each key,
      misses no key, and is no longer than the raw list. */
  lemma PredictionsProperties(raw: seq<NominatimResponse>)
    ensures var ps := Predictions(raw);
            && WellFormed(ps)
            && |ps| <= |raw|
            && IsSubsequence(ps, MapNotNull(raw))
            && KeySet(ps) == KeySet(MapNotNull(raw))
            && (forall p :: p in ps ==> FirstWithKey(MapNotNull(raw), DedupKey(p)) == Some(p))
            && forall i, j :: 0 <= i < j < |ps| ==>
                 FirstIndexOfKey(MapNotNull(raw), DedupKey(ps[i])) < FirstIndexOfKey(MapNotNull(raw), DedupKey(ps[j]))
  {
    var ps := Predictions(raw);
    assert forall p :: p in ps ==> p in MapNotNull(raw) by {
      SubsequenceMembers(ps, MapNotNull(raw));
    }
  }

  lemma {:induction false} SubsequenceMembers<T>(a: seq<T>, b: seq<T>)
    requires IsSubsequence(a, b)
    ensures forall x :: x in a ==> x in b
    decreases |b|
  {
    if |a| > 0 {
      if a[0] == b[0] && IsSubsequence(a[1..], b[1..]) {
        SubsequenceMembers(a[1..], b[1..]);
        assert forall x :: x in a ==> x == a[0] || x in a[1..];
      } else {
        SubsequenceMembers(a, b[1..]);
      }
    }
  }

  /** The `mapNotNull` pass: one loop over the raw results. */
  method MapNotNullLoop(raw: seq<NominatimResponse>) returns (mapped: seq<CityPrediction>)
    ensures mapped == MapNotNull(raw)
  {
    mapped := [];
    var i := 0;
    while i < |raw|
      invariant 0 <= i <= |raw|
      invariant mapped == MapNotNull(raw[..i])
    {
      var p := ToPrediction(raw[i]);
      MapNotNullStep(raw, i);
      if p.Some? {
        mapped := mapped + [p.value];
      }
      i := i + 1;
    }
    assert raw[..i] == raw;
  }

  /** One element of `distinctBy`: the head is kept exactly when its key is
      new, and the scan goes on with the rest. */
  lemma DistinctFromStep(ps: seq<CityPrediction>, j: nat, seen: set<string>, out: seq<CityPrediction>)
    requires j < |ps|
    ensures DedupKey(ps[j]) !in seen ==>
              out + DistinctFrom(ps[j..], seen) ==
              (out + [ps[j]]) + DistinctFrom(ps[j + 1..], seen + {DedupKey(ps[j])})
    ensures DedupKey(ps[j]) in seen ==>
              out + DistinctFrom(ps[j..], seen) == out + DistinctFrom(ps[j + 1..], seen)
  {
    assert ps[j..][0] == ps[j];
    assert ps[j..][1..] == ps[j + 1..];
  }

  /** The `distinctBy` pass: one loop with the set of keys met so far. */
  method DistinctByLoop(mapped: seq<CityPrediction>) returns (out: seq<CityPrediction>)
    ensures out == DistinctBy(mapped)
  {
    var seen: set<string> := {};
    out := [];
    var j := 0;
    while j < |mapped|
      invariant 0 <= j <= |mapped|
      invariant out + DistinctFrom(mapped[j..], seen) == DistinctFrom(mapped, {})
    {
      var key := DedupKey(mapped[j]);
      DistinctFromStep(mapped, j, seen, out);
      if key !in seen {
        seen := seen + {key};
        out := out + [mapped[j]];
      }
      j := j + 1;
    }
    assert DistinctBy(mapped) == DistinctFrom(mapped, {});
  }

  /** The two passes the Kotlin code makes, one after the other. */
  method CollectPredictions(raw: seq<NominatimResponse>) returns (out: seq<CityPrediction>)
    ensures out == Predictions(raw)
  {
    var mapped := MapNotNullLoop(raw);
    out := DistinctByLoop(mapped);
  }

  // ---------------------------------------------------------------------
  // The repository

  /** Least gap, in milliseconds, between two outbound requests. */
  const MinRequestInterval: int := 1000

  datatype Repository = Repository(
    cache: map<string, seq<CityPrediction>>,
    lastRequestTime: int)

  /** A fresh repository: nothing cached, last request at time 0. */
  function NewRepository(): (r: Repository)
    ensures r.cache == map[] && r.lastRequestTime == 0
  {
    Repository(map[], 0)
  }

  /** Every cached list is one the service could have produced. */
  predicate CacheWellFormed(repo: Repository) {
    forall k :: k in repo.cache ==> WellFormed(repo.cache[k])
  }

  /** `query.lowercase().trim()` */
  function CacheKey(query: string): string {
    Trim(Lowercase(query))
  }

  /** How long a request must wait, given the current time and the time of
      the last request: nothing when a full interval has passed, otherwise
      exactly until one interval after the last request. */
  function RateLimitWait(now: int, lastRequestTime: int): (wait: nat)
    ensures wait > 0 <==> now - lastRequestTime < MinRequestInterval
    ensures wait > 0 ==> now + wait == lastRequestTime + MinRequestInterval
    ensures wait < MinRequestInterval <==> now > lastRequestTime
  {
    var elapsed := now - lastRequestTime;
    if elapsed < MinRequestInterval then MinRequestInterval - elapsed else 0
  }

  /** The body of a response as the repository sees it: null or empty,
      parsed into results, or text the JSON parser rejects. */
  datatype Payload = Blank | Records(places: seq<NominatimResponse>) | Malformed

  /** What the single outbound request ends in: a response, or an exception
      before one was read (connection failure, timeout, ...). */
  datatype HttpOutcome = Response(code: int, payload: Payload) | Failed

  /** `System.currentTimeMillis()` before the rate-limit check and again
      after the wait. */
  datatype Clock = Clock(now: int, afterWait: int)

  /** The result of one call: the repository after it, the list handed back,
      and, when a request went out, how long it waited first. */
  datatype Lookup = Lookup(
    repo: Repository,
    predictions: seq<CityPrediction>,
    requestWait: Option<nat>)

  /** Whether a response is one whose results get cached. */
  predicate IsCacheable(outcome: HttpOutcome) {
    outcome.Response? && outcome.code == 200 && outcome.payload.Records?
  }

  /** What `getCityPredictions` does once it has computed the cache key. */
  function LookupByKey(repo: Repository, key: string, clock: Clock, outcome: HttpOutcome): (r: Lookup)
    ensures key in repo.cache ==>
              r.repo == repo && r.predictions == repo.cache[key] && r.requestWait == None
    ensures key !in repo.cache ==>
              && r.requestWait == Some(RateLimitWait(clock.now, repo.lastRequestTime))
              && r.repo.lastRequestTime == clock.afterWait
              && (key in r.repo.cache <==> IsCacheable(outcome))
    ensures key !in repo.cache && IsCacheable(outcome) ==>
              r.predictions == Predictions(outcome.payload.places)
    ensures key !in repo.cache && !IsCacheable(outcome) ==>
              r.predictions == [] && r.repo.cache == repo.cache
    ensures r.repo.cache.Keys == repo.cache.Keys || r.repo.cache.Keys == repo.cache.Keys + {key}
    ensures forall k :: k in repo.cache ==> k in r.repo.cache && r.repo.cache[k] == repo.cache[k]
    ensures key in r.repo.cache ==> r.repo.cache[key] == r.predictions
    ensures CacheWellFormed(repo) ==> CacheWellFormed(r.repo) && WellFormed(r.predictions)
  {
    if key in repo.cache then
      Lookup(repo, repo.cache[key], None)
    else
      var wait := RateLimitWait(clock.now, repo.lastRequestTime);
      var stamped := repo.(lastRequestTime := clock.afterWait);
      if IsCacheable(outcome) then
        var ps := Predictions(outcome.payload.places);
        PredictionsProperties(outcome.payload.places);
        Lookup(stamped.(cache := stamped.cache[key := ps]), ps, Some(wait))
      else
        Lookup(stamped, [], Some(wait))
  }

  /** `getCityPredictions(query)` */
  function GetCityPredictions(repo: Repository, query: string, clock: Clock, outcome: HttpOutcome): (r: Lookup)
    // a cache hit answers from the cache, sends nothing and touches nothing
    ensures CacheKey(query) in repo.cache ==>
              r.repo == repo && r.predictions == repo.cache[CacheKey(query)] && r.requestWait == None
    // a miss waits out the interval, sends one request and stamps its time
    ensures CacheKey(query) !in repo.cache ==>
              && r.requestWait == Some(RateLimitWait(clock.now, repo.lastRequestTime))
              && r.repo.lastRequestTime == clock.afterWait
    // only a 200 with parsed results writes the cache, under the query's key
    ensures CacheKey(query) !in repo.cache ==>
              (CacheKey(query) in r.repo.cache <==> IsCacheable(outcome))
    // a 200 with parsed results answers, and caches, the predictions made from them
    ensures CacheKey(query) !in repo.cache && IsCacheable(outcome) ==>
              r.predictions == Predictions(outcome.payload.places)
    ensures CacheKey(query) !in repo.cache && !IsCacheable(outcome) ==>
              r.predictions == [] && r.repo.cache == repo.cache
    ensures r.repo.cache.Keys == repo.cache.Keys || r.repo.cache.Keys == repo.cache.Keys + {CacheKey(query)}
    ensures forall k :: k in repo.cache ==> k in r.repo.cache && r.repo.cache[k] == repo.cache[k]
    ensures CacheKey(query) in r.repo.cache ==> r.repo.cache[CacheKey(query)] == r.predictions
    ensures CacheWellFormed(repo) ==> CacheWellFormed(r.repo) && WellFormed(r.predictions)
  {
    LookupByKey(repo, CacheKey(query), clock, outcome)
  }

  /** `clearCache()` */
  function ClearCache(repo: Repository): (r: Repository)
    ensures r.cache == map[]
    ensures r.lastRequestTime == repo.lastRequestTime
  {
    repo.(cache := map[])
  }

  // ---------------------------------------------------------------------
  // Properties

  /** The cache key is already normalised. */
  lemma CacheKeyIdempotent(query: string)
    ensures CacheKey(CacheKey(query)) == CacheKey(query)
  {
    var l := Lowercase(query);
    var t := Trim(l);
    TrimHasNoUpper(l);
    assert Lowercase(t) == t;
    TrimIdempotent(l);
  }

  lemma TrimHasNoUpper(s: string)
    requires forall k :: 0 <= k < |s| ==> !IsAsciiUpper(s[k])
    ensures forall k :: 0 <= k < |Trim(s)| ==> !IsAsciiUpper(Trim(s)[k])
  {
    var t := Trim(s);
    TrimKeepsOnlyItsInput(s);
    forall k | 0 <= k < |t|
      ensures !IsAsciiUpper(t[k])
    {
      assert t[k] in s;
    }
  }

  /** Queries that differ in letter case share a cache entry. */
  lemma CacheKeyIgnoresCase(query: string)
    ensures CacheKey(Lowercase(query)) == CacheKey(query)
  {
    LowercaseIdempotent(query);
  }

  /** Queries that differ in surrounding whitespace share a cache entry. */
  lemma CacheKeyIgnoresPadding(pre: string, query: string, post: string)
    requires AllWhitespace(pre) && AllWhitespace(post)
    ensures CacheKey(pre + query + post) == CacheKey(query)
  {
    LowercaseAppend(pre + query, post);
    LowercaseAppend(pre, query);
    TrimIgnoresPadding(Lowercase(pre), Lowercase(query), Lowercase(post));
  }

  /** Once a query's results are cached, any query with the same key is
      answered from the cache: the same list, no request, no new timestamp. */
  lemma RepeatedQueryIsServedFromCache(
    repo: Repository, q1: string, c1: Clock, o1: HttpOutcome,
    q2: string, c2: Clock, o2: HttpOutcome)
    requires IsCacheable(o1)
    requires CacheKey(q2) == CacheKey(q1)
    ensures var first := GetCityPredictions(repo, q1, c1, o1);
            var second := GetCityPredictions(first.repo, q2, c2, o2);
            && second.requestWait == None
            && second.predictions == first.predictions
            && second.repo == first.repo
  {
  }

  /** Every failure (forbidden, rate limited, any other status, an empty
      body, a body that does not parse, an exception) yields an empty list
      and leaves the cache as it was, while still counting as a request. */
  lemma FailuresAreAbsorbed(repo: Repository, query: string, clock: Clock, outcome: HttpOutcome)
    requires CacheKey(query) !in repo.cache
    requires || outcome.Failed?
             || (outcome.Response? && (outcome.code != 200 || !outcome.payload.Records?))
    ensures var r := GetCityPredictions(repo, query, clock, outcome);
            && r.predictions == []
            && r.repo.cache == repo.cache
            && r.repo.lastRequestTime == clock.afterWait
            && r.requestWait.Some?
  {
  }

  /** An empty result list is still a result: it is cached. */
  lemma EmptyResultsAreCached(repo: Repository, query: string, clock: Clock)
    requires CacheKey(query) !in repo.cache
    ensures var r := GetCityPredictions(repo, query, clock, Response(200, Records([])));
            && r.predictions == []
            && CacheKey(query) in r.repo.cache
  {
  }

  /** Clearing the cache makes the next call for every query a miss. */
  lemma ClearedCacheMisses(repo: Repository, query: string, clock: Clock, outcome: HttpOutcome)
    ensures GetCityPredictions(ClearCache(repo), query, clock, outcome).requestWait.Some?
  {
  }

  /** Two consecutive outbound requests are at least one interval apart,
      provided the wait really lasts as long as asked and the clock does
      not run backwards. */
  lemma RequestsAreSpaced(repo: Repository, q1: string, c1: Clock, o1: HttpOutcome,
                          q2: string, c2: Clock, o2: HttpOutcome)
    requires CacheKey(q1) !in repo.cache
    requires var first := GetCityPredictions(repo, q1, c1, o1);
             CacheKey(q2) !in first.repo.cache
    requires c1.afterWait <= c2.now
    requires c2.afterWait >= c2.now + RateLimitWait(c2.now, c1.afterWait)
    ensures var first := GetCityPredictions(repo, q1, c1, o1);
            var second := GetCityPredictions(first.repo, q2, c2, o2);
            second.repo.lastRequestTime - first.repo.lastRequestTime >= MinRequestInterval
  {
  }

  /** The null-only fallback: an empty city does not fall through to the
      town, so the result has no name and is dropped. */
  lemma EmptyCityIsNotSkipped(display: string, lat: real, lon: real, town: string)
    requires lat != 0.0 && lon != 0.0
    ensures var address := NominatimAddress(Some(""), Some(town), None, None, None, None, None);
            var r := NominatimResponse(display, Some(Finite(lat)), Some(Finite(lon)), "city", None, Some(address));
            ToPrediction(r) == None
  {
  }

  /** A response with one result yields that result's prediction, if it
      converts, and nothing otherwise. */
  lemma OneResultPredictions(r: NominatimResponse)
    ensures Predictions([r]) == if ToPrediction(r).Some? then [ToPrediction(r).value] else []
  {
    MapNotNullSingle(r);
    if ToPrediction(r).Some? {
      var p := ToPrediction(r).value;
      assert DistinctBy([p]) == [p] by {
        assert [p][1..] == [];
      }
    }
  }

  /** A result for Paris, France maps to the expected prediction, whatever
      its full display name. */
  lemma ParisExample(display: string, lat: real, lon: real)
    requires lat != 0.0 && lon != 0.0
    ensures var address := NominatimAddress(Some("Paris"), None, None, None, None, None, Some("France"));
            var r := NominatimResponse(display, Some(Finite(lat)), Some(Finite(lon)), "city", None, Some(address));
            Predictions([r]) == [CityPrediction("Paris", "France", "", Finite(lat), Finite(lon))]
  {
    var address := NominatimAddress(Some("Paris"), None, None, None, None, None, Some("France"));
    var r := NominatimResponse(display, Some(Finite(lat)), Some(Finite(lon)), "city", None, Some(address));
    var p := CityPrediction("Paris", "France", "", Finite(lat), Finite(lon));
    assert CityName(r) == "Paris" by {
      assert NameCandidates(r.address)[0] == Some("Paris");
    }
    assert StateOf(r) == "" by {
      assert Coalesce([address.state, address.region], "") == "";
    }
    assert CountryOf(r) == "France" by {
      assert address.country.GetOr("") == "France";
    }
    assert ToPrediction(r) == Some(p);
    OneResultPredictions(r);
  }

  /** A zero or unparseable coordinate drops the result, whatever else it
      carries. */
  lemma ZeroCoordinateIsDropped(r: NominatimResponse)
    requires Latitude(r).IsZero() || Longitude(r).IsZero()
    ensures ToPrediction(r) == None
    ensures Predictions([r]) == []
  {
    assert [r][1..] == [];
  }

  /** Without an address the name is the first part of the display name: it
      has no comma and no surrounding whitespace. */
  lemma FallbackNameIsFirstSegment(r: NominatimResponse)
    requires forall c :: c in NameCandidates(r.address) ==> c.None?
    ensures var name := CityName(r);
            && ',' !in name
            && IsTrimOf(name, BeforeComma(r.displayName))
  {
    var s := BeforeComma(r.displayName);
    var name := Trim(s);
    assert CityName(r) == name by {
      assert forall i :: 0 <= i < 4 ==> NameCandidates(r.address)[i] in NameCandidates(r.address);
    }
    TrimKeepsOnlyItsInput(s);
    TrimIsTrimOf(s);
  }

  /** The dedup key is a joined string, not a triple: two different places
      can share it, and then only the first is kept. */
  lemma DedupKeyConflatesPlaces()
    ensures var a := CityPrediction("A", "D", "B, C", Finite(1.0), Finite(1.0));
            var b := CityPrediction("A, B", "D", "C", Finite(2.0), Finite(2.0));
            && (a.displayName, a.state, a.country) != (b.displayName, b.state, b.country)
            && DedupKey(a) == DedupKey(b)
            && DistinctBy([a, b]) == [a]
  {
    var a := CityPrediction("A", "D", "B, C", Finite(1.0), Finite(1.0));
    var b := CityPrediction("A, B", "D", "C", Finite(2.0), Finite(2.0));
    assert DedupKey(a) == "A, B, C, D" == DedupKey(b);
    assert [a, b][1..] == [b];
    assert [b][1..] == [];
  }
}
