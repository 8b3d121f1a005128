/** The geocoding service `Geocode` (dist/maps/adjofer/map.js:1491-1579):
    a `value` that is false, null, a result or an error object, and no
    cache at all. */
module Geocode {
  import opened Base
  import Espera

  /** What `query` is given: an address string (forward search) or a
      coordinate (reverse search). */
  datatype Input = Search(text: string) | Reverse(point: Point)

  /** One feature of a geocoding response. */
  datatype Place = Place(address: string, point: Point)

  /** `value`: false (idle), null (in progress, and also "nothing found"),
      the candidate features, an address label, or the error object. */
  datatype Value = Idle | Busy | Candidates(places: seq<Place>) | Label(text: string) | Error(error: ErrorInfo)

  datatype Service = Service(value: Value, country: string)

  /** The two endpoints: `/search` with `text`, `/reverse` with the point,
      both restricted to `boundary.country`. */
  datatype Request = SearchRequest(text: string, country: string) | ReverseRequest(point: Point, country: string)

  /** What the reverse search answers when it finds nothing. */
  const Unknown: string := "Dirección desconocida"

  /** The constructor (dist/maps/adjofer/map.js:1495-1504): searches are
      restricted to Spain. */
  function Init(): Service {
    Service(Idle, "ES")
  }

  /** `setOptions` (dist/maps/adjofer/map.js:1506-1508): a given country
      replaces the current one. */
  function SetOptions(s: Service, country: Option<string>): (r: Service)
    ensures r.value == s.value
    ensures country.None? ==> r == s
    ensures country.Some? ==> r.country == country.value
  {
    match country
    case Some(c) => s.(country := c)
    case None => s
  }

  /** `query(data)` (dist/maps/adjofer/map.js:1518-1543), up to the transport
      call: a duplicate while in progress, otherwise "in progress", the
      "geocode" tag pushed, and the request chosen by the type of `data`. */
  function Query(s: Service, e: seq<string>, q: Input): (r: Step<Service, Request>)
    ensures r.state.country == s.country
    ensures s.value.Busy? <==> r.resolution == Settled(Duplicate)
    ensures s.value.Busy? ==> r.state == s && r.espera == e
    ensures !s.value.Busy? ==>
              r.state.value == Busy && r.espera == e + [Espera.Geocode] &&
              r.resolution.Requested? &&
              (q.Search? <==> r.resolution.request.SearchRequest?) &&
              (q.Search? ==> r.resolution.request == SearchRequest(q.text, s.country)) &&
              (q.Reverse? ==> r.resolution.request == ReverseRequest(q.point, s.country))
  {
    if s.value.Busy? then Step(s, e, Settled(Duplicate))
    else
      var req := match q
        case Search(t) => SearchRequest(t, s.country)
        case Reverse(p) => ReverseRequest(p, s.country);
      Step(s.(value := Busy), Espera.Push(e, Espera.Geocode), Requested(req))
  }

  /** `obtenerCoordenadas` (dist/maps/adjofer/map.js:1568-1575): the
      features, or null when there are none. */
  function ObtenerCoordenadas(places: seq<Place>): (v: Value)
    ensures |places| == 0 <==> v == Busy
    ensures |places| > 0 ==> v == Candidates(places)
  {
    if |places| == 0 then Busy else Candidates(places)
  }

  /** `obtenerDireccion` (dist/maps/adjofer/map.js:1564-1566): the label of
      the first feature, or "Dirección desconocida". */
  function ObtenerDireccion(places: seq<Place>): (v: Value)
    ensures v.Label?
    ensures |places| == 0 ==> v.text == Unknown
    ensures |places| > 0 ==> v.text == places[0].address
  {
    if |places| == 0 then Label(Unknown) else Label(places[0].address)
  }

  /** The parser chosen by the type of the query. */
  function Parse(q: Input, places: seq<Place>): Value {
    match q
    case Search(_) => ObtenerCoordenadas(places)
    case Reverse(_) => ObtenerDireccion(places)
  }

  /** The success callback (dist/maps/adjofer/map.js:1544-1551). An empty
      forward search stores null, which leaves the service looking busy. */
  function Succeed(s: Service, e: seq<string>, q: Input, places: seq<Place>): (r: Step<Service, Request>)
    ensures r.state.country == s.country
    ensures r.resolution == Settled(Computed)
    ensures multiset(r.espera) == multiset(e) - multiset{Espera.Geocode}
    ensures q.Search? && |places| > 0 ==> r.state.value == Candidates(places)
    ensures q.Search? && |places| == 0 ==> r.state.value == Busy
    ensures q.Reverse? ==> r.state.value == ObtenerDireccion(places)
  {
    Step(s.(value := Parse(q, places)), Espera.Remove(e, Espera.Geocode).rest, Settled(Computed))
  }

  /** The success callback with "nothing found" kept apart from "in
      progress": an empty forward search leaves the service idle. */
  function SucceedFixed(s: Service, e: seq<string>, q: Input, places: seq<Place>): (r: Step<Service, Request>)
    ensures r.state.country == s.country && r.resolution == Settled(Computed)
    ensures multiset(r.espera) == multiset(e) - multiset{Espera.Geocode}
    ensures !r.state.value.Busy?
    ensures !(q.Search? && |places| == 0) ==> r == Succeed(s, e, q, places)
  {
    var r := Succeed(s, e, q, places);
    if q.Search? && |places| == 0 then r.(state := s.(value := Idle)) else r
  }

  /** The failure callback (dist/maps/adjofer/map.js:1552-1558). `body` is the
      response's `error` object; without one `failback(xhr)` throws and the
      promise never settles. Otherwise the error object becomes the value,
      the tag is removed and the promise resolves `undefined`. */
  function Fail(s: Service, e: seq<string>, body: Option<ErrorInfo>): (r: Step<Service, Request>)
    ensures body.None? ==> r == Step(s, e, Abandoned)
    ensures body.Some? ==>
              r.state == s.(value := Error(body.value)) && r.resolution == Settled(Failed) &&
              multiset(r.espera) == multiset(e) - multiset{Espera.Geocode}
  {
    match body
    case None => Step(s, e, Abandoned)
    case Some(err) => Step(s.(value := Error(err)), Espera.Remove(e, Espera.Geocode).rest, Settled(Failed))
  }

  // ---------------------------------------------------------------------
  // Properties
  // ---------------------------------------------------------------------

  /** Single flight: while a query is outstanding every further query
      resolves `null` and changes nothing. */
  lemma SingleFlight(s: Service, e: seq<string>, q: Input, e2: seq<string>, q2: Input)
    ensures var s1 := Query(s, e, q).state;
            Query(s1, e2, q2) == Step(s1, e2, Settled(Duplicate))
  {
  }

  /** No cache: whatever the previous result, a settled service queries again. */
  lemma NoCache(s: Service, e: seq<string>, q: Input, places: seq<Place>, e2: seq<string>)
    requires !(q.Search? && |places| == 0)
    ensures var r := Succeed(s, e, q, places);
            Query(r.state, e2, q).resolution.Requested?
  {
  }

  /** An empty forward search resolves as computed, not failed, and leaves
      the value null, so every later query is reported as a duplicate. */
  lemma EmptySearchLocksOut(s: Service, e: seq<string>, text: string, e2: seq<string>, q2: Input)
    ensures var r := Succeed(s, e, Search(text), []);
            r.resolution == Settled(Computed) && r.state.value == Busy &&
            Query(r.state, e2, q2).resolution == Settled(Duplicate)
  {
  }

  /** Both settling paths with an error body clear the tag the query pushed. */
  lemma SettleClearsTag(s: Service, e: seq<string>, q: Input, places: seq<Place>, err: ErrorInfo)
    requires Espera.Geocode !in e && !s.value.Busy?
    ensures var c := Query(s, e, q);
            Succeed(c.state, c.espera, q, places).espera == e &&
            Fail(c.state, c.espera, Some(err)).espera == e
  {
    Espera.PushThenRemove(e, Espera.Geocode);
  }

  /** With "nothing found" kept apart, the query after an empty search goes
      to the network. */
  lemma EmptySearchFixedAllowsRetry(s: Service, e: seq<string>, text: string, e2: seq<string>, q2: Input)
    ensures var r := SucceedFixed(s, e, Search(text), []);
            Query(r.state, e2, q2).resolution.Requested?
  {
  }
}
