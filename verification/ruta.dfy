/** The route service `Ruta` (dist/maps/adjofer/map.js:1580-1719): a
    tri-state `value` (false / null / `{destino, layer}`), a cache keyed by
    origin and destination, and the route profile. */
module Ruta {
  import opened Base
  import opened Points
  import Espera

  /** `value`: false (absent), null (in progress) or the displayed route.
      `L` stands for the Leaflet layer drawn from the response. */
  datatype Value<L> = Absent | Computing | Shown(destino: Point, layer: L)

  /** `calc`: the origin, destination and layer of the last computation. */
  datatype Calc<L> = Calc(origen: Option<Point>, destino: Option<Point>, layer: Option<L>)

  datatype Service<L> = Service(value: Value<L>, cache: Calc<L>, profile: string)

  /** The directions request: `start`, `end` and the profile in the URL. */
  datatype Request = Request(start: Point, end: Point, profile: string)

  /** The constructor (dist/maps/adjofer/map.js:1591-1612) with the default
      profile "driving-car". */
  function Init<L>(): Service<L> {
    Service(Absent, Calc(None, None, None), "driving-car")
  }

  /** `setOptions` (dist/maps/adjofer/map.js:1614-1616): a given profile
      replaces the current one. */
  function SetOptions<L>(s: Service<L>, profile: Option<string>): (r: Service<L>)
    ensures r.value == s.value && r.cache == s.cache
    ensures profile.None? ==> r == s
    ensures profile.Some? ==> r.profile == profile.value
  {
    match profile
    case Some(p) => s.(profile := p)
    case None => s
  }

  /** Whenever the cache has a destination it also has the layer. */
  predicate Valid<L>(s: Service<L>) {
    s.cache.destino.Some? ==> s.cache.layer.Some?
  }

  /** `remove()` (dist/maps/adjofer/map.js:1709-1716): false when no route is
      displayed (also while computing); otherwise the display goes and the
      cache stays. */
  function Remove<L>(s: Service<L>): (r: (bool, Service<L>))
    ensures r.0 <==> s.value.Shown?
    ensures !r.0 ==> r.1 == s
    ensures r.1.cache == s.cache && r.1.profile == s.profile
    ensures !r.1.value.Shown? && (r.1.value.Computing? <==> s.value.Computing?)
  {
    if s.value.Shown? then (true, s.(value := Absent)) else (false, s)
  }

  /** `create(destino)` (dist/maps/adjofer/map.js:1618-1671), up to the
      transport call. A hit needs both the origin and the destination to be
      the cached ones, and pushes nothing. A miss pushes "rutas", not the
      "ruta" the menus look for. With a null origin the miss throws in
      `getLatLng()` after the state was already set to in-progress. */
  function Create<L>(s: Service<L>, e: seq<string>, origen: Option<Point>, destino: Point)
    : (r: Step<Service<L>, Request>)
    ensures r.state.profile == s.profile
    ensures s.value.Computing? <==> r.resolution == Settled(Duplicate)
    ensures s.value.Computing? ==> r.state == s && r.espera == e
    ensures r.resolution == Settled(CacheHit) <==>
              !s.value.Computing? && MismoPunto(origen, s.cache.origen) &&
              MismoPunto(Some(destino), s.cache.destino) && s.cache.layer.Some?
    ensures r.resolution == Settled(CacheHit) ==>
              r.espera == e && r.state == s.(value := Shown(destino, s.cache.layer.value))
    ensures r.resolution.Requested? <==>
              !s.value.Computing? && origen.Some? &&
              !(MismoPunto(origen, s.cache.origen) && MismoPunto(Some(destino), s.cache.destino))
    ensures r.resolution.Requested? ==>
              r.resolution.request == Request(origen.value, destino, s.profile) &&
              r.espera == e + [Espera.Rutas] &&
              r.state == s.(value := Computing, cache := Calc(origen, None, None))
    ensures r.resolution != Settled(Computed) && r.resolution != Settled(Failed) && !r.resolution.Abandoned?
    ensures Valid(s) ==> Valid(r.state)
    ensures Valid(s) && r.resolution.Thrown? ==> origen.None? && r.state.value.Computing?
  {
    var s1 := Remove(s).1;
    if s1.value.Computing? then Step(s1, e, Settled(Duplicate))
    else if MismoPunto(origen, s1.cache.origen) && MismoPunto(Some(destino), s1.cache.destino) then
      match s1.cache.layer
      case Some(layer) => Step(s1.(value := Shown(s1.cache.destino.value, layer)), e, Settled(CacheHit))
      case None => Step(s1, e, Thrown)
    else
      var e1 := Espera.Push(e, Espera.Rutas);
      var s2 := s1.(value := Computing, cache := Calc(origen, None, None));
      match origen
      case Some(p) => Step(s2, e1, Requested(Request(p, destino, s1.profile)))
      case None => Step(s2, e1, Thrown)
  }

  /** The success callback and `crearRuta` (dist/maps/adjofer/map.js:
      1659-1663, 1673-1682): the route for `destino` is cached and shown, the
      tag is removed and the promise resolves true. `origen` is the map's
      origin when the response arrives, which the code records. */
  function Succeed<L>(s: Service<L>, e: seq<string>, origen: Option<Point>, destino: Point, layer: L)
    : (r: Step<Service<L>, Request>)
    ensures r.state.value == Shown(destino, layer)
    ensures r.state.cache == Calc(origen, Some(destino), Some(layer))
    ensures r.state.profile == s.profile
    ensures r.resolution == Settled(Computed)
    ensures multiset(r.espera) == multiset(e) - multiset{Espera.Rutas}
    ensures Valid(r.state)
  {
    Step(Service(Shown(destino, layer), Calc(origen, Some(destino), Some(layer)), s.profile),
         Espera.Remove(e, Espera.Rutas).rest,
         Settled(Computed))
  }

  /** The failure callback (dist/maps/adjofer/map.js:1664-1668). `body` is
      the response's `error` object; without one `failback(xhr)` throws and
      the promise never settles. Otherwise the tag is removed and the promise
      resolves `undefined`, but `value` stays null. */
  function Fail<L>(s: Service<L>, e: seq<string>, body: Option<ErrorInfo>): (r: Step<Service<L>, Request>)
    ensures r.state == s
    ensures body.None? ==> r.espera == e && r.resolution == Abandoned
    ensures body.Some? ==> r.resolution == Settled(Failed) &&
                           multiset(r.espera) == multiset(e) - multiset{Espera.Rutas}
  {
    match body
    case None => Step(s, e, Abandoned)
    case Some(_) => Step(s, Espera.Remove(e, Espera.Rutas).rest, Settled(Failed))
  }

  /** The failure callback returning the service to "absent". */
  function FailFixed<L>(s: Service<L>, e: seq<string>, body: Option<ErrorInfo>): (r: Step<Service<L>, Request>)
    ensures body.Some? ==> r.state.value == Absent && r.state.cache == s.cache
    ensures body.Some? ==> r.resolution == Fail(s, e, body).resolution && r.espera == Fail(s, e, body).espera
    ensures body.None? ==> r == Fail(s, e, body)
  {
    var r := Fail(s, e, body);
    if body.Some? then r.(state := s.(value := Absent)) else r
  }

  /** The success callback keyed by the request: the cache records the
      origin the route was asked from, not the one current on arrival. */
  function SucceedFixed<L>(s: Service<L>, e: seq<string>, req: Request, layer: L)
    : (r: Step<Service<L>, Request>)
    ensures r.state.cache == Calc(Some(req.start), Some(req.end), Some(layer))
    ensures r.state.value == Shown(req.end, layer) && r.resolution == Settled(Computed)
    ensures multiset(r.espera) == multiset(e) - multiset{Espera.Rutas}
  {
    Succeed(s, e, Some(req.start), req.end, layer)
  }

  // ---------------------------------------------------------------------
  // Properties
  // ---------------------------------------------------------------------

  /** Removal when nothing is displayed is a no-op that keeps the cache,
      and removing twice is the same as removing once. */
  lemma RemoveIdempotent<L>(s: Service<L>)
    ensures Remove(Remove(s).1) == (false, Remove(s).1)
    ensures !s.value.Shown? ==> Remove(s) == (false, s)
  {
  }

  /** Single flight: once a create has issued a request, every further
      create resolves `null` and changes nothing. */
  lemma SingleFlight<L>(s: Service<L>, e: seq<string>, origen: Option<Point>, destino: Point,
                        e2: seq<string>, origen2: Option<Point>, destino2: Point)
    requires Create(s, e, origen, destino).resolution.Requested?
    ensures var s1 := Create(s, e, origen, destino).state;
            Create(s1, e2, origen2, destino2) == Step(s1, e2, Settled(Duplicate))
  {
  }

  /** Cache reuse: a route computed from `p` to `d`, removed and requested
      again for the same pair, is a cache hit showing the same layer with the
      tracker untouched. */
  lemma CacheReuse<L>(s: Service<L>, e: seq<string>, p: Point, d: Point, layer: L, e2: seq<string>)
    ensures var c := Succeed(s, e, Some(p), d, layer).state;
            var r := Create(Remove(c).1, e2, Some(p), d);
            Remove(c).0 && r == Step(c, e2, Settled(CacheHit))
  {
  }

  /** Cache reuse needs both points: with the same origin and another
      destination the route is requested again, and so it is with another
      origin and the same destination. */
  lemma CacheNeedsBothPoints<L>(s: Service<L>, e: seq<string>, p: Point, d: Point, q: Point, layer: L)
    requires q != d && q != p
    ensures var c := Remove(Succeed(s, e, Some(p), d, layer).state).1;
            Create(c, e, Some(p), q).resolution == Requested(Request(p, q, s.profile)) &&
            Create(c, e, Some(q), d).resolution == Requested(Request(q, d, s.profile))
  {
  }

  /** A failure with an error body clears the tag its request pushed. */
  lemma FailClearsTag<L>(s: Service<L>, e: seq<string>, origen: Option<Point>, destino: Point, err: ErrorInfo)
    requires Espera.Rutas !in e
    requires Create(s, e, origen, destino).resolution.Requested?
    ensures var c := Create(s, e, origen, destino);
            Fail(c.state, c.espera, Some(err)).espera == e
  {
    Espera.PushThenRemove(e, Espera.Rutas);
  }

  /** Finding: after a failed request `value` stays null, so every later
      create, for any points, is reported as a duplicate. */
  lemma FailLocksOut<L>(s: Service<L>, e: seq<string>, origen: Option<Point>, destino: Point,
                        err: ErrorInfo, e2: seq<string>, origen2: Option<Point>, destino2: Point)
    requires Create(s, e, origen, destino).resolution.Requested?
    ensures var c := Create(s, e, origen, destino);
            var f := Fail(c.state, c.espera, Some(err));
            Create(f.state, e2, origen2, destino2).resolution == Settled(Duplicate)
  {
  }

  /** Returning to "absent" on failure lets the next create go ahead. */
  lemma FailFixedAllowsRetry<L>(s: Service<L>, e: seq<string>, origen: Option<Point>, destino: Point,
                                err: ErrorInfo, e2: seq<string>, p: Point)
    requires Create(s, e, origen, destino).resolution.Requested?
    ensures var c := Create(s, e, origen, destino);
            var f := FailFixed(c.state, c.espera, Some(err));
            Create(f.state, e2, Some(p), destino).resolution == Requested(Request(p, destino, s.profile))
  {
  }

  /** Finding: the cache key is the origin when the response arrives. If the
      origin moves from `p` to `q` while the route from `p` is outstanding,
      a later create from `q` to the same destination is served the route
      from `p`. */
  lemma StaleOriginServed<L>(s: Service<L>, e: seq<string>, p: Point, q: Point, d: Point, layer: L)
    requires !s.value.Computing? && !MismoPunto(Some(p), s.cache.origen) && p != q
    ensures var c := Create(s, e, Some(p), d);
            c.resolution == Requested(Request(p, d, s.profile)) &&
            var done := Succeed(c.state, c.espera, Some(q), d, layer).state;
            var again := Create(Remove(done).1, [], Some(q), d);
            again.resolution == Settled(CacheHit) && again.state.value == Shown(d, layer)
  {
  }

  /** Keyed by the request, a cache hit only ever serves the route that was
      requested for exactly those two points. */
  lemma CacheKeyIsRequest<L>(s: Service<L>, e: seq<string>, req: Request, layer: L,
                             e2: seq<string>, p: Point, d: Point)
    ensures var done := SucceedFixed(s, e, req, layer).state;
            Create(Remove(done).1, e2, Some(p), d).resolution == Settled(CacheHit) <==>
            p == req.start && d == req.end
  {
  }
}
