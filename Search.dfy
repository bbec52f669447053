/**
 * The `GET /users` search route of app.py: the filters built from the query
 * parameters, the count before pagination, the page, and the response
 * envelope with each user's location history as features.
 *
 * The database is the sequence of users it would return for an unfiltered
 * query, in that order; a chain of `q.filter(...)` calls is a sequence of
 * `Filter` values, and running it keeps the users every filter admits.
 */
module Search {
  import opened Wrappers
  import opened Models
  import opened Origin

  /** Miles are converted to meters with this factor before the distance filter. */
  const MileToMeter: real := 1609.34
  /** `dist * 1609.34`: a distance in miles as meters. */
  function Meters(miles: int): (m: real)
    ensures miles >= 0 ==> m >= 0.0
  {
    miles as real * MileToMeter
  }

  const DefaultLimit: int := 5
  const DefaultStart: int := 0
  const RoutePath: string := "/users"

  /** `earth_distance(location, ll_to_earth(lat, lng))`: the database's
      distance in meters from a stored point (first two arguments, latitude
      then longitude) to an origin (last two). */
  type EarthDistance = (real, real, real, real) -> real

  /** The query parameters after the framework's conversion: `None` for a
      parameter that is missing or, for the integer ones, not an integer. */
  datatype Params = Params(
    gender: Option<string>,
    minAge: Option<int>,
    maxAge: Option<int>,
    origin: Option<string>,
    dist: Option<int>,
    limit: Option<int>,
    start: Option<int>)

  /** The page size actually used: `limit`, or 5. */
  function Limit(p: Params): int { p.limit.GetOr(DefaultLimit) }

  /** The offset actually used: `start`, or 0. */
  function Start(p: Params): int { p.start.GetOr(DefaultStart) }

  // ---------------------------------------------------------------------
  // Filters and how a chain of them selects users
  // ---------------------------------------------------------------------

  /** One `q.filter(...)` of the route. */
  datatype Filter =
    | GenderIs(gender: string)
    | AgeAtLeast(minAge: int)
    | AgeAtMost(maxAge: int)
    | NearAny(center: LatLng, meters: real)

  /** `User.locations.any(earth_distance(Location.location, pt) < meters)`. */
  predicate HasLocationWithin(u: User, center: LatLng, meters: real, earthDistance: EarthDistance) {
    exists i :: 0 <= i < |u.locations| &&
      earthDistance(u.locations[i].latitude, u.locations[i].longitude, center.lat, center.lng) < meters
  }

  predicate Holds(f: Filter, u: User, earthDistance: EarthDistance) {
    match f
    case GenderIs(g) => u.gender == g
    case AgeAtLeast(m) => u.age >= m
    case AgeAtMost(m) => u.age <= m
    case NearAny(center, meters) => HasLocationWithin(u, center, meters, earthDistance)
  }

  predicate AllHold(q: seq<Filter>, u: User, earthDistance: EarthDistance) {
    forall i :: 0 <= i < |q| ==> Holds(q[i], u, earthDistance)
  }

  /** What a selection asks of each user: one filter, a chain of filters,
      or the search's parameters (see `Admits` below). */
  datatype Criterion = One(filter: Filter) | Chain(filters: seq<Filter>) | ByParams(params: Params)

  predicate Meets(c: Criterion, u: User, earthDistance: EarthDistance) {
    match c
    case One(f) => Holds(f, u, earthDistance)
    case Chain(q) => AllHold(q, u, earthDistance)
    case ByParams(p) => Admits(p, u, earthDistance)
  }

  /** The users of `s` that meet `c`, in their order. */
  function Keep(s: seq<User>, c: Criterion, earthDistance: EarthDistance): (r: seq<User>)
    ensures |r| <= |s|
    ensures forall u :: u in r <==> u in s && Meets(c, u, earthDistance)
  {
    if s == [] then []
    else (if Meets(c, s[0], earthDistance) then [s[0]] else []) + Keep(s[1..], c, earthDistance)
  }

  /** What the database returns for `q`: each filter narrows what the
      filters before it left, so a user is returned exactly when it is in
      the table and passes every filter of the chain. */
  function Run(q: seq<Filter>, table: seq<User>, earthDistance: EarthDistance): (r: seq<User>)
    ensures |r| <= |table|
    ensures forall u :: u in r <==> u in table && AllHold(q, u, earthDistance)
  {
    if q == [] then table
    else
      var front, last := q[..|q| - 1], q[|q| - 1];
      assert q == front + [last];
      AllHoldSnocEvery(front, last, earthDistance);
      Keep(Run(front, table, earthDistance), One(last), earthDistance)
  }

  /** Selections by criteria that agree on every user are the same. */
  lemma {:induction false} KeepCongruent(s: seq<User>, c: Criterion, d: Criterion, earthDistance: EarthDistance)
    requires forall u :: u in s ==> Meets(c, u, earthDistance) == Meets(d, u, earthDistance)
    ensures Keep(s, c, earthDistance) == Keep(s, d, earthDistance)
    decreases |s|
  {
    if s != [] {
      KeepCongruent(s[1..], c, d, earthDistance);
    }
  }

  /** Narrowing a selection is selecting by both criteria at once. */
  lemma {:induction false} KeepKeep(s: seq<User>, c: Criterion, d: Criterion, both: Criterion, earthDistance: EarthDistance)
    requires forall u :: u in s ==> Meets(both, u, earthDistance) == (Meets(c, u, earthDistance) && Meets(d, u, earthDistance))
    ensures Keep(Keep(s, c, earthDistance), d, earthDistance) == Keep(s, both, earthDistance)
    decreases |s|
  {
    if s != [] {
      KeepKeep(s[1..], c, d, both, earthDistance);
      var rest := Keep(s[1..], c, earthDistance);
      if Meets(c, s[0], earthDistance) {
        assert Keep(s, c, earthDistance) == [s[0]] + rest;
        assert ([s[0]] + rest)[1..] == rest;
      } else {
        assert Keep(s, c, earthDistance) == rest;
      }
    }
  }

  lemma {:induction false} KeepNothing(s: seq<User>, earthDistance: EarthDistance)
    ensures Keep(s, Chain([]), earthDistance) == s
    decreases |s|
  {
    if s != [] {
      KeepNothing(s[1..], earthDistance);
    }
  }

  lemma AllHoldSnoc(q: seq<Filter>, f: Filter, u: User, earthDistance: EarthDistance)
    ensures AllHold(q + [f], u, earthDistance) == (AllHold(q, u, earthDistance) && Holds(f, u, earthDistance))
  {
    if AllHold(q, u, earthDistance) && Holds(f, u, earthDistance) {
      forall i | 0 <= i < |q| + 1 ensures Holds((q + [f])[i], u, earthDistance) {
        if i < |q| { assert (q + [f])[i] == q[i]; }
      }
    }
    if AllHold(q + [f], u, earthDistance) {
      forall i | 0 <= i < |q| ensures Holds(q[i], u, earthDistance) {
        assert (q + [f])[i] == q[i];
      }
      assert (q + [f])[|q|] == f;
    }
  }

  lemma AllHoldSnocEvery(q: seq<Filter>, f: Filter, earthDistance: EarthDistance)
    ensures forall u :: AllHold(q + [f], u, earthDistance) == (AllHold(q, u, earthDistance) && Holds(f, u, earthDistance))
  {
    forall u {
      AllHoldSnoc(q, f, u, earthDistance);
    }
  }

  /** Chained filters select exactly the users that satisfy all of them:
      the filters are combined with AND. */
  lemma {:induction false} RunIsConjunction(q: seq<Filter>, table: seq<User>, earthDistance: EarthDistance)
    ensures Run(q, table, earthDistance) == Keep(table, Chain(q), earthDistance)
    decreases |q|
  {
    if q == [] {
      KeepNothing(table, earthDistance);
    } else {
      var front, last := q[..|q| - 1], q[|q| - 1];
      assert q == front + [last];
      RunIsConjunction(front, table, earthDistance);
      forall u | u in table
        ensures Meets(Chain(q), u, earthDistance) == (Meets(Chain(front), u, earthDistance) && Meets(One(last), u, earthDistance))
      {
        AllHoldSnoc(front, last, u, earthDistance);
      }
      KeepKeep(table, Chain(front), One(last), Chain(q), earthDistance);
    }
  }

  /** The order in which filters are applied does not change the result,
      nor does applying one twice. */
  lemma FilterOrderIrrelevant(q1: seq<Filter>, q2: seq<Filter>, table: seq<User>, earthDistance: EarthDistance)
    requires forall f :: f in q1 <==> f in q2
    ensures Run(q1, table, earthDistance) == Run(q2, table, earthDistance)
  {
    RunIsConjunction(q1, table, earthDistance);
    RunIsConjunction(q2, table, earthDistance);
    forall u | u in table
      ensures Meets(Chain(q1), u, earthDistance) == Meets(Chain(q2), u, earthDistance)
    {
      if AllHold(q1, u, earthDistance) {
        forall i | 0 <= i < |q2| ensures Holds(q2[i], u, earthDistance) {
          assert q2[i] in q2;
        }
      }
      if AllHold(q2, u, earthDistance) {
        forall i | 0 <= i < |q1| ensures Holds(q1[i], u, earthDistance) {
          assert q1[i] in q1;
        }
      }
    }
    KeepCongruent(table, Chain(q1), Chain(q2), earthDistance);
  }

  // ---------------------------------------------------------------------
  // Which filters the parameters switch on
  // ---------------------------------------------------------------------

  /** `if gender:` — a present, non-empty gender. */
  predicate GenderApplied(p: Params) {
    p.gender.Some? && p.gender.value != ""
  }

  /** What `parse_lat_lng` makes of the origin, when there is one. */
  function OriginCenter(p: Params): Option<LatLng> {
    if p.origin.Some? then ParseLatLng(p.origin.value) else None
  }

  /** `if origin and dist is not None:` and then `if lat is not None:`, for
      the parsed origin `center`. */
  predicate DistanceOn(p: Params, center: Option<LatLng>) {
    p.origin.Some? && p.origin.value != "" && p.dist.Some? && center.Some?
  }

  /** The distance filter is applied: both parameters are given and the
      origin parses. */
  predicate DistanceApplied(p: Params) {
    DistanceOn(p, OriginCenter(p))
  }

  predicate GenderOk(p: Params, u: User) {
    GenderApplied(p) ==> u.gender == p.gender.value
  }

  predicate AgeOk(p: Params, u: User) {
    && (p.minAge.Some? ==> u.age >= p.minAge.value)
    && (p.maxAge.Some? ==> u.age <= p.maxAge.value)
  }

  predicate DistanceOk(p: Params, u: User, earthDistance: EarthDistance) {
    DistanceApplied(p) ==>
      HasLocationWithin(u, OriginCenter(p).value, Meters(p.dist.value), earthDistance)
  }

  /** What the parameters ask of a user: every applied filter at once. */
  predicate Admits(p: Params, u: User, earthDistance: EarthDistance) {
    GenderOk(p, u) && AgeOk(p, u) && DistanceOk(p, u, earthDistance)
  }

  /** The users the search selects before pagination, in database order. */
  function Matching(p: Params, table: seq<User>, earthDistance: EarthDistance): seq<User>
  {
    Keep(table, ByParams(p), earthDistance)
  }

  /** Without a non-empty origin that parses and a distance, no distance
      filter is applied: the search selects what it would select with
      neither parameter given. */
  lemma NoDistanceFilterWithoutBoth(p: Params, table: seq<User>, earthDistance: EarthDistance)
    requires !DistanceApplied(p)
    ensures Matching(p, table, earthDistance) == Matching(p.(origin := None, dist := None), table, earthDistance)
  {
    var p' := p.(origin := None, dist := None);
    forall u | u in table ensures Admits(p, u, earthDistance) == Admits(p', u, earthDistance) {
      assert !DistanceApplied(p');
    }
    KeepCongruent(table, ByParams(p), ByParams(p'), earthDistance);
  }

  // ---------------------------------------------------------------------
  // Pagination and the response
  // ---------------------------------------------------------------------

  /** `LIMIT limit OFFSET start`: at most `limit` elements, from `start` on. */
  function Page<T>(s: seq<T>, limit: nat, start: nat): (r: seq<T>)
    ensures |r| <= limit && |r| <= |s|
    ensures start <= |s| ==> |r| == if |s| - start < limit then |s| - start else limit
    ensures start >= |s| ==> r == []
    ensures forall i :: 0 <= i < |r| ==> start + i < |s| && r[i] == s[start + i]
  {
    if start >= |s| then []
    else if |s| - start < limit then s[start..]
    else s[start..start + limit]
  }

  /** The users on the requested page of the search. */
  function PageOf(p: Params, table: seq<User>, earthDistance: EarthDistance): seq<User>
    requires Limit(p) >= 0 && Start(p) >= 0
  {
    Page(Matching(p, table, earthDistance), Limit(p), Start(p))
  }

  /** A key of `metadata.query`; `KeyName` gives its spelling in the JSON. */
  datatype QueryKey = GenderKey | MinAgeKey | MaxAgeKey | OriginKey | DistKey | LimitKey | StartKey

  function KeyName(k: QueryKey): string {
    match k
    case GenderKey => "gender"
    case MinAgeKey => "min_age"
    case MaxAgeKey => "max_age"
    case OriginKey => "origin"
    case DistKey => "dist"
    case LimitKey => "limit"
    case StartKey => "start"
  }

  /** A value in `metadata.query`. */
  datatype QueryValue = Text(text: string) | Number(number: int)

  datatype Metadata = Metadata(path: string, query: map<QueryKey, QueryValue>)

  /** One visited place: `properties.city` and `geometry.coordinates`,
      longitude first. */
  datatype Feature = Feature(city: string, coordinates: seq<real>)

  datatype UserProperties = UserProperties(id: int, name: string, age: int, gender: string)

  /** One result: the user's `locationHistory` features and `properties`. */
  datatype UserResult = UserResult(features: seq<Feature>, properties: UserProperties)

  datatype Response = Response(metadata: Metadata, totalResults: int, numResults: int, results: seq<UserResult>)

  /** How a client reads a feature's point back as (latitude, longitude):
      GeoJSON lists the longitude first. */
  function PointOf(f: Feature): Option<(real, real)> {
    if |f.coordinates| == 2 then Some((f.coordinates[1], f.coordinates[0])) else None
  }

  /** The GeoJSON feature of one visited place: the client reads back the
      place's city and its point. */
  function FeatureOf(loc: Location): (f: Feature)
    ensures f.city == loc.name
    ensures PointOf(f) == Some((loc.latitude, loc.longitude))
  {
    Feature(loc.name, [loc.longitude, loc.latitude])
  }

  /** The JSON object the route builds for one user: one feature per visited
      place, in the order of the location history, and the user's columns
      as its properties. */
  function ResultOf(u: User): (r: UserResult)
    ensures |r.features| == |u.locations|
    ensures forall i :: 0 <= i < |u.locations| ==>
      r.features[i].city == u.locations[i].name &&
      PointOf(r.features[i]) == Some((u.locations[i].latitude, u.locations[i].longitude))
    ensures r.properties.id == u.id && r.properties.name == u.name
    ensures r.properties.age == u.age && r.properties.gender == u.gender
  {
    UserResult(
      seq(|u.locations|, i requires 0 <= i < |u.locations| => FeatureOf(u.locations[i])),
      UserProperties(u.id, u.name, u.age, u.gender))
  }

  /** The response as a client sees it honours every applied filter: the
      gender and age in its properties, and, for a distance search, a
      feature whose point is close enough to the origin. */
  predicate ShowsAdmitted(p: Params, r: UserResult, earthDistance: EarthDistance) {
    && (GenderApplied(p) ==> r.properties.gender == p.gender.value)
    && (p.minAge.Some? ==> r.properties.age >= p.minAge.value)
    && (p.maxAge.Some? ==> r.properties.age <= p.maxAge.value)
    && (DistanceApplied(p) ==>
          exists f :: f in r.features && |f.coordinates| == 2 &&
            earthDistance(f.coordinates[1], f.coordinates[0],
                          OriginCenter(p).value.lat, OriginCenter(p).value.lng)
              < Meters(p.dist.value))
  }

  /** A user the search admits is shown as admitted. */
  lemma AdmittedShown(p: Params, u: User, earthDistance: EarthDistance)
    requires Admits(p, u, earthDistance)
    ensures ShowsAdmitted(p, ResultOf(u), earthDistance)
  {
    if DistanceApplied(p) {
      var center := OriginCenter(p).value;
      var i :| 0 <= i < |u.locations| &&
        earthDistance(u.locations[i].latitude, u.locations[i].longitude, center.lat, center.lng)
          < Meters(p.dist.value);
      assert ResultOf(u).features[i] == FeatureOf(u.locations[i]);
    }
  }

  // ---------------------------------------------------------------------
  // What the route builds from its parameters
  // ---------------------------------------------------------------------

  /** The gender and age filters the route applies for `p`, in its order. */
  function AgeCriteria(p: Params): seq<Filter> {
    var none: seq<Filter> := [];
    var byGender := if GenderApplied(p) then none + [GenderIs(p.gender.value)] else none;
    var byMinAge := if p.minAge.Some? then byGender + [AgeAtLeast(p.minAge.value)] else byGender;
    if p.maxAge.Some? then byMinAge + [AgeAtMost(p.maxAge.value)] else byMinAge
  }

  /** All the filters the route applies for `p`: the distance filter last. */
  function Criteria(p: Params, center: Option<LatLng>): seq<Filter> {
    if DistanceOn(p, center)
    then AgeCriteria(p) + [NearAny(center.value, Meters(p.dist.value))]
    else AgeCriteria(p)
  }

  lemma AgeCriteriaAdmit(p: Params, u: User, earthDistance: EarthDistance)
    ensures AllHold(AgeCriteria(p), u, earthDistance) == (GenderOk(p, u) && AgeOk(p, u))
  {
    var none: seq<Filter> := [];
    var byGender := if GenderApplied(p) then none + [GenderIs(p.gender.value)] else none;
    var byMinAge := if p.minAge.Some? then byGender + [AgeAtLeast(p.minAge.value)] else byGender;
    if GenderApplied(p) {
      AllHoldSnoc(none, GenderIs(p.gender.value), u, earthDistance);
    }
    if p.minAge.Some? {
      AllHoldSnoc(byGender, AgeAtLeast(p.minAge.value), u, earthDistance);
    }
    if p.maxAge.Some? {
      AllHoldSnoc(byMinAge, AgeAtMost(p.maxAge.value), u, earthDistance);
    }
  }

  lemma CriteriaAdmitAt(p: Params, center: Option<LatLng>, u: User, earthDistance: EarthDistance)
    ensures AllHold(Criteria(p, center), u, earthDistance) ==
      (GenderOk(p, u) && AgeOk(p, u) &&
       (DistanceOn(p, center) ==> HasLocationWithin(u, center.value, Meters(p.dist.value), earthDistance)))
  {
    AgeCriteriaAdmit(p, u, earthDistance);
    if DistanceOn(p, center) {
      AllHoldSnoc(AgeCriteria(p), NearAny(center.value, Meters(p.dist.value)), u, earthDistance);
    }
  }

  /** The filters the route applies ask of a user exactly what the
      parameters ask. */
  lemma CriteriaAdmit(p: Params, u: User, earthDistance: EarthDistance)
    ensures AllHold(Criteria(p, OriginCenter(p)), u, earthDistance) == Admits(p, u, earthDistance)
  {
    CriteriaAdmitAt(p, OriginCenter(p), u, earthDistance);
  }

  /** Running the route's filters selects the matching users. */
  lemma CriteriaSelectMatching(p: Params, table: seq<User>, earthDistance: EarthDistance)
    ensures Run(Criteria(p, OriginCenter(p)), table, earthDistance) == Matching(p, table, earthDistance)
  {
    RunIsConjunction(Criteria(p, OriginCenter(p)), table, earthDistance);
    forall u | u in table ensures Meets(Chain(Criteria(p, OriginCenter(p))), u, earthDistance) == Meets(ByParams(p), u, earthDistance) {
      CriteriaAdmit(p, u, earthDistance);
    }
    KeepCongruent(table, Chain(Criteria(p, OriginCenter(p))), ByParams(p), earthDistance);
  }

  /** The `metadata.query` entries of the gender and age filters. */
  function AgeRecorded(p: Params): map<QueryKey, QueryValue> {
    var none: map<QueryKey, QueryValue> := map[];
    var withGender := if GenderApplied(p) then none[GenderKey := Text(p.gender.value)] else none;
    var withMinAge := if p.minAge.Some? then withGender[MinAgeKey := Number(p.minAge.value)] else withGender;
    if p.maxAge.Some? then withMinAge[MaxAgeKey := Number(p.maxAge.value)] else withMinAge
  }

  /** The `metadata.query` entries of all the applied filters. */
  function Recorded(p: Params, center: Option<LatLng>): map<QueryKey, QueryValue> {
    if DistanceOn(p, center)
    then AgeRecorded(p)[OriginKey := Text(p.origin.value)][DistKey := Number(p.dist.value)]
    else AgeRecorded(p)
  }

  /** `metadata.query` of the response: the filters' entries, then the
      page size and offset actually used. */
  function EchoedQuery(p: Params): map<QueryKey, QueryValue> {
    Recorded(p, OriginCenter(p))[LimitKey := Number(Limit(p))][StartKey := Number(Start(p))]
  }

  /** The response echoes exactly the parameters that took effect: a filter's
      parameters appear, with their values, precisely when that filter is
      applied, and `limit` and `start` always appear with the values used,
      which default to 5 and 0. */
  lemma EchoedQueryKeys(p: Params)
    ensures var query := EchoedQuery(p);
      && (GenderKey in query <==> GenderApplied(p))
      && (GenderApplied(p) ==> query[GenderKey] == Text(p.gender.value))
      && (MinAgeKey in query <==> p.minAge.Some?)
      && (p.minAge.Some? ==> query[MinAgeKey] == Number(p.minAge.value))
      && (MaxAgeKey in query <==> p.maxAge.Some?)
      && (p.maxAge.Some? ==> query[MaxAgeKey] == Number(p.maxAge.value))
      && (OriginKey in query <==> DistanceApplied(p))
      && (DistKey in query <==> DistanceApplied(p))
      && (DistanceApplied(p) ==> query[OriginKey] == Text(p.origin.value) && query[DistKey] == Number(p.dist.value))
      && LimitKey in query && query[LimitKey] == Number(Limit(p))
      && StartKey in query && query[StartKey] == Number(Start(p))
      && (p.limit.Some? ==> query[LimitKey] == Number(p.limit.value))
      && (p.limit.None? ==> query[LimitKey] == Number(5))
      && (p.start.Some? ==> query[StartKey] == Number(p.start.value))
      && (p.start.None? ==> query[StartKey] == Number(0))
  {
  }

  /** The filter chain and the `metadata.query` entries the route derives
      from its parameters: each parameter that passes its check adds one
      filter and records itself. `center` is what `parse_lat_lng` gave for
      the origin; it is consulted only when `origin` and `dist` are given. */
  method BuildQuery(p: Params, center: Option<LatLng>) returns (q: seq<Filter>, metadataQuery: map<QueryKey, QueryValue>)
    ensures q == Criteria(p, center)
    ensures metadataQuery == Recorded(p, center)
  {
    q := [];
    metadataQuery := map[];

    if p.gender.Some? && p.gender.value != "" {
      q := q + [GenderIs(p.gender.value)];
      metadataQuery := metadataQuery[GenderKey := Text(p.gender.value)];
    }
    if p.minAge.Some? {
      q := q + [AgeAtLeast(p.minAge.value)];
      metadataQuery := metadataQuery[MinAgeKey := Number(p.minAge.value)];
    }
    if p.maxAge.Some? {
      q := q + [AgeAtMost(p.maxAge.value)];
      metadataQuery := metadataQuery[MaxAgeKey := Number(p.maxAge.value)];
    }
    if p.origin.Some? && p.origin.value != "" && p.dist.Some? {
      if center.Some? {
        var meters := Meters(p.dist.value);
        q := q + [NearAny(center.value, meters)];
        metadataQuery := metadataQuery[OriginKey := Text(p.origin.value)];
        metadataQuery := metadataQuery[DistKey := Number(p.dist.value)];
      }
    }
  }

  /** The loop that turns each user of the page into its result object. */
  method BuildResults(page: seq<User>) returns (results: seq<UserResult>)
    ensures |results| == |page|
    ensures forall i :: 0 <= i < |page| ==> results[i] == ResultOf(page[i])
  {
    results := [];
    for i := 0 to |page|
      invariant |results| == i
      invariant forall j :: 0 <= j < i ==> results[j] == ResultOf(page[j])
    {
      results := results + [ResultOf(page[i])];
    }
  }

  /** The `/users` route. */
  method Users(p: Params, table: seq<User>, earthDistance: EarthDistance) returns (response: Response)
    requires Limit(p) >= 0 && Start(p) >= 0
    ensures response.metadata.path == RoutePath
    ensures response.totalResults == |Matching(p, table, earthDistance)|
    ensures response.numResults == |response.results|
    ensures |response.results| == |PageOf(p, table, earthDistance)|
    ensures forall i :: 0 <= i < |response.results| ==> response.results[i] == ResultOf(PageOf(p, table, earthDistance)[i])
    ensures response.numResults <= response.totalResults && response.numResults <= Limit(p)
    ensures forall r :: r in response.results ==> ShowsAdmitted(p, r, earthDistance)
    ensures response.metadata.query == EchoedQuery(p)
  {
    var center := OriginCenter(p);
    var q, metadataQuery := BuildQuery(p, center);
    CriteriaSelectMatching(p, table, earthDistance);
    var selected := Run(q, table, earthDistance);
    var totalResults := |selected|;
    var page := Page(selected, Limit(p), Start(p));

    metadataQuery := metadataQuery[LimitKey := Number(Limit(p))];
    metadataQuery := metadataQuery[StartKey := Number(Start(p))];

    var results := BuildResults(page);
    forall r | r in results ensures ShowsAdmitted(p, r, earthDistance) {
      var j :| 0 <= j < |results| && results[j] == r;
      assert page[j] in selected;
      AdmittedShown(p, page[j], earthDistance);
    }
    response := Response(Metadata(RoutePath, metadataQuery), totalResults, |results|, results);
  }
}
