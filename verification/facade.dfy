/** The map facade that drives the three services: the `isocronas`,
    `direccion` and `ruta` setters with their promise reactions, the
    `contador` they bump, the change events they fire, the origin change
    handlers, and the context-menu entries that read the pending tracker
    (dist/maps/adjofer/map.js:226-259, 346-491, 614-700). */
module Facade {
  import opened Base
  import opened Points
  import Espera
  import Iso = Isocronas
  import R = Ruta
  import Geo = Geocode

  // ---------------------------------------------------------------------
  // Setter reactions
  // ---------------------------------------------------------------------

  /** What a setter's `then` does: bump `contador`, fire the change event. */
  datatype Reaction = Reaction(bump: bool, fire: bool)

  /** The reaction of the `isocronas` and `ruta` setters
      (dist/maps/adjofer/map.js:366-371, 410-415): `contador++` when
      `response || response === undefined`, the event when `response !== null`. */
  function ReactCreate(v: JsValue): (r: Reaction)
    ensures r.bump <==> Decode(v) == Computed || Decode(v) == Failed
    ensures r.fire <==> Decode(v) != Duplicate
  {
    Reaction(Truthy(v) || v == JsUndefined, v != JsNull)
  }

  /** The reaction of the `direccion` setter (dist/maps/adjofer/map.js:
      390-395): both when `response !== null`. */
  function ReactQuery(v: JsValue): (r: Reaction)
    ensures r.bump == r.fire
    ensures r.fire <==> Decode(v) != Duplicate
  {
    Reaction(v != JsNull, v != JsNull)
  }

  /** A cache hit is announced but not counted; a duplicate is silent. */
  lemma ReactionsByOutcome()
    ensures ReactCreate(Encode(CacheHit)) == Reaction(false, true)
    ensures ReactCreate(Encode(Duplicate)) == Reaction(false, false)
    ensures ReactCreate(Encode(Computed)) == Reaction(true, true)
    ensures ReactCreate(Encode(Failed)) == Reaction(true, true)
    ensures ReactQuery(Encode(Duplicate)) == Reaction(false, false)
  {
  }

  // ---------------------------------------------------------------------
  // The composed map
  // ---------------------------------------------------------------------

  /** The change events the setters fire. */
  datatype Notice = IsochroneSet | RouteSet | AddressSet

  /** The transport calls outstanding, with what each callback closes over:
      the isochrone request, the route request, the geocoding input. */
  datatype Inflight = Inflight(iso: Option<Iso.Request>, route: Option<R.Request>, geo: Option<Geo.Input>)

  /** The map as far as the orchestration layer sees it. */
  datatype Map<G, L> = Map(
    origen: Option<Point>,
    espera: seq<string>,
    iso: Iso.Service<G>,
    ruta: R.Service<L>,
    geo: Geo.Service,
    contador: nat,
    notices: seq<Notice>,
    inflight: Inflight)

  /** What can happen to the map: a setter call, an origin change, or a
      transport callback. */
  datatype Event<G, L> =
    | SetIsocronas(on: bool)
    | SetRuta(destino: Option<Point>)
    | SetDireccion(input: Geo.Input)
    | SetOrigen(origen: Option<Point>)
    | IsoLoaded(features: seq<Iso.Feature<G>>)
    | IsoFailed
    | RouteLoaded(layer: L)
    | RouteFailed(body: Option<ErrorInfo>)
    | GeoLoaded(places: seq<Geo.Place>)
    | GeoFailed(body: Option<ErrorInfo>)

  /** Which definitions the services use: the code as written, or the code
      with the defects listed in the README corrected (the cache-hit tag
      released, failures that reset the service and clear their tag, the
      cache keyed by the request, "nothing found" kept apart from "busy"). */
  datatype Variant = AsWritten | Corrected

  /** A fresh map: no origin, nothing pending, `contador` at 0. */
  function Init<G, L>(): Map<G, L> {
    Map(None, [], Iso.Init(Iso.NoPatch), R.Init(), Geo.Init(), 0, [], Inflight(None, None, None))
  }

  /** Apply a setter reaction. */
  function React<G, L>(m: Map<G, L>, r: Reaction, n: Notice): Map<G, L> {
    m.(contador := if r.bump then m.contador + 1 else m.contador,
       notices := if r.fire then m.notices + [n] else m.notices)
  }

  /** The `then` of a create: runs only when the promise settles. */
  function SettleCreate<G, L, Q>(m: Map<G, L>, res: Resolution<Q>, n: Notice): Map<G, L> {
    if res.Settled? then React(m, ReactCreate(Encode(res.outcome)), n) else m
  }

  /** `this.isocronas = value` (dist/maps/adjofer/map.js:359-378). A call
      never bumps `contador`: a create settles at the call only as a
      duplicate or a cache hit. Switching off removes the display and fires
      the event; switching on while a computation is outstanding changes
      nothing; a cache hit shows the cached rings and fires the event. */
  function SetIsocronasStep<G, L>(m: Map<G, L>, on: bool, v: Variant): (r: Map<G, L>)
    ensures r.origen == m.origen && r.ruta == m.ruta && r.geo == m.geo && r.contador == m.contador
    ensures r.inflight.route == m.inflight.route && r.inflight.geo == m.inflight.geo
    ensures !on ==> !r.iso.areas.Shown? && r.iso.cache == m.iso.cache && r.espera == m.espera &&
                    r.notices == m.notices + [IsochroneSet] && r.inflight == m.inflight
    ensures on && m.iso.areas.Computing? ==> r == m
    ensures on ==> r.notices == m.notices ||
                   (r.notices == m.notices + [IsochroneSet] && r.iso.areas.Shown? &&
                    m.iso.cache.areas == Some(r.iso.areas.rings))
    ensures on && !m.iso.areas.Computing? && m.origen.Some? && !MismoPunto(m.origen, m.iso.cache.origen) ==>
              r.iso.areas.Computing? && r.inflight.iso == Some(Iso.Request(m.origen.value, m.iso.options)) &&
              r.espera == m.espera + [Espera.Isocronas] && r.notices == m.notices
  {
    if on then
      var r := if v == AsWritten then Iso.Create(m.iso, m.espera, m.origen)
               else Iso.CreateFixed(m.iso, m.espera, m.origen);
      var m1 := m.(iso := r.state, espera := r.espera);
      if r.resolution.Requested? then m1.(inflight := m1.inflight.(iso := Some(r.resolution.request)))
      else SettleCreate(m1, r.resolution, IsochroneSet)
    else
      m.(iso := Iso.Remove(m.iso).1, notices := m.notices + [IsochroneSet])
  }

  /** `this.ruta = destino` (dist/maps/adjofer/map.js:404-423). As for the
      isochrones, a call never bumps `contador`; `null` removes the route and
      fires the event, a route for the cached origin and destination is
      shown from the cache, and any other destination goes to the network. */
  function SetRutaStep<G, L>(m: Map<G, L>, destino: Option<Point>): (r: Map<G, L>)
    ensures r.origen == m.origen && r.iso == m.iso && r.geo == m.geo && r.contador == m.contador
    ensures r.inflight.iso == m.inflight.iso && r.inflight.geo == m.inflight.geo
    ensures destino.None? ==> !r.ruta.value.Shown? && r.ruta.cache == m.ruta.cache && r.espera == m.espera &&
                              r.notices == m.notices + [RouteSet] && r.inflight == m.inflight
    ensures destino.Some? && m.ruta.value.Computing? ==> r == m
    ensures destino.Some? ==> r.notices == m.notices ||
                              (r.notices == m.notices + [RouteSet] && r.espera == m.espera &&
                               r.ruta.value.Shown? && r.ruta.value.destino == destino.value &&
                               m.ruta.cache.layer == Some(r.ruta.value.layer))
    ensures destino.Some? && !m.ruta.value.Computing? && m.origen.Some? &&
            !(MismoPunto(m.origen, m.ruta.cache.origen) && MismoPunto(destino, m.ruta.cache.destino)) ==>
              r.ruta.value.Computing? && r.espera == m.espera + [Espera.Rutas] && r.notices == m.notices &&
              r.inflight.route == Some(R.Request(m.origen.value, destino.value, m.ruta.profile))
  {
    match destino
    case Some(d) =>
      var r := R.Create(m.ruta, m.espera, m.origen, d);
      var m1 := m.(ruta := r.state, espera := r.espera);
      if r.resolution.Requested? then m1.(inflight := m1.inflight.(route := Some(r.resolution.request)))
      else SettleCreate(m1, r.resolution, RouteSet)
    case None =>
      m.(ruta := R.Remove(m.ruta).1, notices := m.notices + [RouteSet])
  }

  /** `this.direccion = value` (dist/maps/adjofer/map.js:383-398): an empty
      address is refused with a warning; a query is a duplicate or goes to
      the network, so nothing settles at the call and nothing is announced. */
  function SetDireccionStep<G, L>(m: Map<G, L>, q: Geo.Input): (r: Map<G, L>)
    ensures r.origen == m.origen && r.iso == m.iso && r.ruta == m.ruta
    ensures r.contador == m.contador && r.notices == m.notices
    ensures r.inflight.iso == m.inflight.iso && r.inflight.route == m.inflight.route
    ensures q == Geo.Search("") || m.geo.value.Busy? ==> r == m
    ensures q != Geo.Search("") && !m.geo.value.Busy? ==>
              r.geo.value.Busy? && r.geo.country == m.geo.country &&
              r.espera == m.espera + [Espera.Geocode] && r.inflight.geo == Some(q)
  {
    if q == Geo.Search("") then m
    else
      var r := Geo.Query(m.geo, m.espera, q);
      var m1 := m.(geo := r.state, espera := r.espera);
      if r.resolution.Requested? then m1.(inflight := m1.inflight.(geo := Some(q)))
      else m1
  }

  /** `setOrigen` and its "originset" handlers (dist/maps/adjofer/map.js:
      226-236, 455-456, 480-481): the new origin is set, the isochrones are
      removed and, if a route is displayed, the route too, each removal
      firing its event. Caches, tracker, counter and calls in flight stay. */
  function SetOrigenStep<G, L>(m: Map<G, L>, o: Option<Point>, v: Variant): (r: Map<G, L>)
    ensures r.origen == o
    ensures !r.iso.areas.Shown? && r.iso.cache == m.iso.cache && r.iso.options == m.iso.options
    ensures !r.ruta.value.Shown? && r.ruta.cache == m.ruta.cache && r.ruta.profile == m.ruta.profile
    ensures m.ruta.value.Shown? ==> r.notices == m.notices + [IsochroneSet, RouteSet]
    ensures !m.ruta.value.Shown? ==> r.notices == m.notices + [IsochroneSet] && r.ruta == m.ruta
    ensures r.geo == m.geo && r.espera == m.espera && r.contador == m.contador && r.inflight == m.inflight
  {
    var m1 := SetIsocronasStep(m.(origen := o), false, v);
    if m1.ruta.value.Shown? then SetRutaStep(m1, None) else m1
  }

  /** The isochrone response (dist/maps/adjofer/map.js:1344-1349,
      1366-1405): the ring pass, completion and the setter's `then`. The
      rings are shown and cached, one tag is removed, and the setter counts
      and announces. As written the cache key is the origin at completion;
      corrected, it is the point of the request. */
  function IsoLoadedStep<G, L>(m: Map<G, L>, fs: seq<Iso.Feature<G>>, diff: (G, G) -> G, v: Variant): (r: Map<G, L>)
    requires m.inflight.iso.Some?
    ensures r.iso.areas == Iso.Shown(Iso.RingsOf(fs, diff)) && r.iso.cache.areas == Some(Iso.RingsOf(fs, diff))
    ensures v == AsWritten ==> r.iso.cache.origen == m.origen
    ensures v == Corrected ==> r.iso.cache.origen == Some(m.inflight.iso.value.location)
    ensures multiset(r.espera) == multiset(m.espera) - multiset{Espera.Isocronas}
    ensures r.contador == m.contador + 1 && r.notices == m.notices + [IsochroneSet]
    ensures r.inflight == m.inflight.(iso := None)
    ensures r.origen == m.origen && r.ruta == m.ruta && r.geo == m.geo
  {
    var rings := Iso.RingsOf(fs, diff);
    var r := if v == AsWritten then Iso.Complete(m.iso, m.espera, m.origen, rings)
             else Iso.CompleteFixed(m.iso, m.espera, m.inflight.iso.value, rings);
    SettleCreate(m.(iso := r.state, espera := r.espera, inflight := m.inflight.(iso := None)),
                 r.resolution, IsochroneSet)
  }

  /** The isochrone failure (dist/maps/adjofer/map.js:1350-1354). As written
      the callback throws: only the call is gone, the service stays in
      progress and its tag pending. Corrected, the service is reset, the tag
      removed, and the setter counts and announces the `undefined`. */
  function IsoFailedStep<G, L>(m: Map<G, L>, v: Variant): (r: Map<G, L>)
    ensures r.inflight == m.inflight.(iso := None)
    ensures v == AsWritten ==> r == m.(inflight := m.inflight.(iso := None))
    ensures v == Corrected ==>
              r.iso == m.iso.(areas := Iso.Absent) &&
              multiset(r.espera) == multiset(m.espera) - multiset{Espera.Isocronas} &&
              r.contador == m.contador + 1 && r.notices == m.notices + [IsochroneSet]
    ensures r.origen == m.origen && r.ruta == m.ruta && r.geo == m.geo
  {
    var r := if v == AsWritten then Iso.FailAsWritten(m.iso, m.espera) else Iso.Fail(m.iso, m.espera);
    SettleCreate(m.(iso := r.state, espera := r.espera, inflight := m.inflight.(iso := None)),
                 r.resolution, IsochroneSet)
  }

  /** The route response (dist/maps/adjofer/map.js:1659-1663, 1673-1682):
      the route to the requested destination is shown and cached, one tag is
      removed, and the setter counts and announces. As written the cached
      origin is the one at arrival; corrected, the one of the request. */
  function RouteLoadedStep<G, L>(m: Map<G, L>, layer: L, v: Variant): (r: Map<G, L>)
    requires m.inflight.route.Some?
    ensures r.ruta.value == R.Shown(m.inflight.route.value.end, layer)
    ensures r.ruta.cache.destino == Some(m.inflight.route.value.end) && r.ruta.cache.layer == Some(layer)
    ensures v == AsWritten ==> r.ruta.cache.origen == m.origen
    ensures v == Corrected ==> r.ruta.cache.origen == Some(m.inflight.route.value.start)
    ensures multiset(r.espera) == multiset(m.espera) - multiset{Espera.Rutas}
    ensures r.contador == m.contador + 1 && r.notices == m.notices + [RouteSet]
    ensures r.inflight == m.inflight.(route := None)
    ensures r.origen == m.origen && r.iso == m.iso && r.geo == m.geo
  {
    var req := m.inflight.route.value;
    var r := if v == AsWritten then R.Succeed(m.ruta, m.espera, m.origen, req.end, layer)
             else R.SucceedFixed(m.ruta, m.espera, req, layer);
    SettleCreate(m.(ruta := r.state, espera := r.espera, inflight := m.inflight.(route := None)),
                 r.resolution, RouteSet)
  }

  /** The route failure (dist/maps/adjofer/map.js:1664-1668). Without an
      error body the callback throws and only the call is gone. With one,
      the tag is removed and the setter counts and announces; as written
      the service stays in progress, corrected it is reset. */
  function RouteFailedStep<G, L>(m: Map<G, L>, body: Option<ErrorInfo>, v: Variant): (r: Map<G, L>)
    ensures r.inflight == m.inflight.(route := None)
    ensures body.None? ==> r == m.(inflight := m.inflight.(route := None))
    ensures body.Some? ==>
              multiset(r.espera) == multiset(m.espera) - multiset{Espera.Rutas} &&
              r.contador == m.contador + 1 && r.notices == m.notices + [RouteSet] &&
              r.ruta.cache == m.ruta.cache
    ensures body.Some? && v == AsWritten ==> r.ruta == m.ruta
    ensures body.Some? && v == Corrected ==> r.ruta.value == R.Absent
    ensures r.origen == m.origen && r.iso == m.iso && r.geo == m.geo
  {
    var r := if v == AsWritten then R.Fail(m.ruta, m.espera, body) else R.FailFixed(m.ruta, m.espera, body);
    SettleCreate(m.(ruta := r.state, espera := r.espera, inflight := m.inflight.(route := None)),
                 r.resolution, RouteSet)
  }

  /** A geocoding callback and the `direccion` setter's `then`
      (dist/maps/adjofer/map.js:390-395): the service takes the callback's
      state, and a settled answer is counted and announced. */
  function GeoSettle<G, L>(m: Map<G, L>, r0: Step<Geo.Service, Geo.Request>): (r: Map<G, L>)
    ensures r.geo == r0.state && r.espera == r0.espera && r.inflight == m.inflight.(geo := None)
    ensures r0.resolution.Settled? && r0.resolution.outcome != Duplicate ==>
              r.contador == m.contador + 1 && r.notices == m.notices + [AddressSet]
    ensures !(r0.resolution.Settled? && r0.resolution.outcome != Duplicate) ==>
              r.contador == m.contador && r.notices == m.notices
    ensures r.origen == m.origen && r.iso == m.iso && r.ruta == m.ruta
  {
    var m1 := m.(geo := r0.state, espera := r0.espera, inflight := m.inflight.(geo := None));
    if r0.resolution.Settled? then React(m1, ReactQuery(Encode(r0.resolution.outcome)), AddressSet) else m1
  }

  /** One event. A transport callback with no call of its kind outstanding
      is ignored. */
  function Step<G, L>(m: Map<G, L>, ev: Event<G, L>, diff: (G, G) -> G, v: Variant): (r: Map<G, L>)
    ensures (ev.IsoLoaded? || ev.IsoFailed?) && m.inflight.iso.None? ==> r == m
    ensures (ev.RouteLoaded? || ev.RouteFailed?) && m.inflight.route.None? ==> r == m
    ensures (ev.GeoLoaded? || ev.GeoFailed?) && m.inflight.geo.None? ==> r == m
  {
    match ev
    case SetIsocronas(on) => SetIsocronasStep(m, on, v)
    case SetRuta(d) => SetRutaStep(m, d)
    case SetDireccion(q) => SetDireccionStep(m, q)
    case SetOrigen(o) => SetOrigenStep(m, o, v)
    case IsoLoaded(fs) => if m.inflight.iso.None? then m else IsoLoadedStep(m, fs, diff, v)
    case IsoFailed => if m.inflight.iso.None? then m else IsoFailedStep(m, v)
    case RouteLoaded(layer) => if m.inflight.route.None? then m else RouteLoadedStep(m, layer, v)
    case RouteFailed(body) => if m.inflight.route.None? then m else RouteFailedStep(m, body, v)
    case GeoLoaded(places) =>
      if m.inflight.geo.None? then m
      else if v == AsWritten then GeoSettle(m, Geo.Succeed(m.geo, m.espera, m.inflight.geo.value, places))
      else GeoSettle(m, Geo.SucceedFixed(m.geo, m.espera, m.inflight.geo.value, places))
    case GeoFailed(body) =>
      if m.inflight.geo.None? then m else GeoSettle(m, Geo.Fail(m.geo, m.espera, body))
  }

  /** A setter call or an origin change, as opposed to a transport callback. */
  predicate IsCall<G, L>(ev: Event<G, L>) {
    ev.SetIsocronas? || ev.SetRuta? || ev.SetDireccion? || ev.SetOrigen?
  }

  /** From `m` to `r` the events already fired stay fired, at most two more
      are fired, and `contador` is bumped at most once, and only with an
      event. */
  predicate Grows<G, L>(m: Map<G, L>, r: Map<G, L>) {
    && m.notices <= r.notices && |r.notices| <= |m.notices| + 2
    && m.contador <= r.contador <= m.contador + 1
    && (r.contador > m.contador ==> |r.notices| > |m.notices|)
  }

  lemma StepGrows<G, L>(m: Map<G, L>, ev: Event<G, L>, diff: (G, G) -> G, v: Variant)
    ensures Grows(m, Step(m, ev, diff, v))
  {
    if IsCall(ev) { CallGrows(m, ev, diff, v); } else { CallbackGrows(m, ev, diff, v); }
  }

  lemma CallGrows<G, L>(m: Map<G, L>, ev: Event<G, L>, diff: (G, G) -> G, v: Variant)
    requires IsCall(ev)
    ensures Grows(m, Step(m, ev, diff, v))
  {
    match ev
    case SetIsocronas(on) =>
    case SetRuta(d) =>
    case SetDireccion(q) =>
    case SetOrigen(o) =>
  }

  lemma CallbackGrows<G, L>(m: Map<G, L>, ev: Event<G, L>, diff: (G, G) -> G, v: Variant)
    requires !IsCall(ev)
    ensures Grows(m, Step(m, ev, diff, v))
  {
    match ev
    case IsoLoaded(fs) =>
    case IsoFailed =>
    case RouteLoaded(layer) =>
    case RouteFailed(body) =>
    case GeoLoaded(places) =>
    case GeoFailed(body) =>
  }

  /** A run of events from a given map: every event fired stays in the log,
      and `contador` never goes down nor outruns the events. */
  function Run<G, L>(m: Map<G, L>, evs: seq<Event<G, L>>, diff: (G, G) -> G, v: Variant): (r: Map<G, L>)
    ensures m.notices <= r.notices && m.contador <= r.contador
    ensures r.contador - m.contador <= |evs|
    ensures m.contador <= |m.notices| ==> r.contador <= |r.notices|
    decreases |evs|
  {
    if |evs| == 0 then m
    else
      StepGrows(m, evs[0], diff, v);
      Run(Step(m, evs[0], diff, v), evs[1..], diff, v)
  }

  // ---------------------------------------------------------------------
  // Invariants
  // ---------------------------------------------------------------------

  /** What every reachable map satisfies, as written or corrected: while a
      transport call of a kind is outstanding its service shows "in
      progress" and its tag is pending; the caches are well formed; nobody
      pushes "ruta"; every bump of `contador` came with an event. */
  ghost predicate Inv<G, L>(m: Map<G, L>) {
    && Iso.Valid(m.iso) && R.Valid(m.ruta)
    && (m.inflight.iso.Some? ==> m.iso.areas.Computing? && Espera.Isocronas in m.espera)
    && (m.inflight.route.Some? ==> m.ruta.value.Computing? && Espera.Rutas in m.espera)
    && (m.inflight.geo.Some? ==> m.geo.value.Busy? && Espera.Geocode in m.espera)
    && Espera.Ruta !in m.espera
    && m.contador <= |m.notices|
  }

  /** How many of tag `t` are pending. */
  function Pending(e: seq<string>, t: string): nat {
    multiset(e)[t]
  }

  /** The tracker tells the truth: each kind's tag is pending exactly once
      while its service is in progress, and not at all otherwise. */
  ghost predicate Tracked<G, L>(m: Map<G, L>) {
    && Pending(m.espera, Espera.Isocronas) == (if m.iso.areas.Computing? then 1 else 0)
    && Pending(m.espera, Espera.Rutas) == (if m.ruta.value.Computing? then 1 else 0)
    && Pending(m.espera, Espera.Geocode) == (if m.geo.value.Busy? then 1 else 0)
  }

  /** Tags of other kinds survive a removal. */
  lemma OthersSurvive(e: seq<string>, v: string)
    ensures forall w :: w != v ==> (w in Espera.Remove(e, v).rest <==> w in e)
  {
    forall w | w != v
      ensures w in Espera.Remove(e, v).rest <==> w in e
    {
      Espera.RemoveKeepsOthers(e, v, w);
    }
  }

  lemma SetIsocronasPreserves<G, L>(m: Map<G, L>, on: bool, v: Variant)
    requires Inv(m)
    ensures Inv(SetIsocronasStep(m, on, v))
    ensures v == Corrected && Tracked(m) ==> Tracked(SetIsocronasStep(m, on, v))
  {
    if on {
      if v == AsWritten { SetIsocronasOnAsWritten(m); } else { SetIsocronasOnCorrected(m); }
    } else {
      SetIsocronasOff(m, v);
    }
  }

  lemma SetIsocronasOnAsWritten<G, L>(m: Map<G, L>)
    requires Inv(m)
    ensures Inv(SetIsocronasStep(m, true, AsWritten))
  {
  }

  lemma SetIsocronasOnCorrected<G, L>(m: Map<G, L>)
    requires Inv(m)
    ensures Inv(SetIsocronasStep(m, true, Corrected))
    ensures Tracked(m) ==> Tracked(SetIsocronasStep(m, true, Corrected))
  {
  }

  lemma SetIsocronasOff<G, L>(m: Map<G, L>, v: Variant)
    requires Inv(m)
    ensures Inv(SetIsocronasStep(m, false, v))
    ensures Tracked(m) ==> Tracked(SetIsocronasStep(m, false, v))
  {
  }

  lemma SetRutaPreserves<G, L>(m: Map<G, L>, d: Option<Point>)
    requires Inv(m)
    ensures Inv(SetRutaStep(m, d))
    ensures Tracked(m) ==> Tracked(SetRutaStep(m, d))
  {
    if d.Some? { SetRutaSome(m, d.value); } else { SetRutaNone(m); }
  }

  lemma SetRutaSome<G, L>(m: Map<G, L>, d: Point)
    requires Inv(m)
    ensures Inv(SetRutaStep(m, Some(d)))
    ensures Tracked(m) ==> Tracked(SetRutaStep(m, Some(d)))
  {
    var r := R.Create(m.ruta, m.espera, m.origen, d);
    if r.resolution.Requested? {
      SetRutaRequested(m, d);
    } else {
      SetRutaSettled(m, d);
    }
  }

  lemma SetRutaRequested<G, L>(m: Map<G, L>, d: Point)
    requires Inv(m) && R.Create(m.ruta, m.espera, m.origen, d).resolution.Requested?
    ensures Inv(SetRutaStep(m, Some(d)))
    ensures Tracked(m) ==> Tracked(SetRutaStep(m, Some(d)))
  {
  }

  lemma SetRutaSettled<G, L>(m: Map<G, L>, d: Point)
    requires Inv(m) && !R.Create(m.ruta, m.espera, m.origen, d).resolution.Requested?
    ensures Inv(SetRutaStep(m, Some(d)))
    ensures Tracked(m) ==> Tracked(SetRutaStep(m, Some(d)))
  {
  }

  lemma SetRutaNone<G, L>(m: Map<G, L>)
    requires Inv(m)
    ensures Inv(SetRutaStep(m, None))
    ensures Tracked(m) ==> Tracked(SetRutaStep(m, None))
  {
  }

  lemma SetDireccionPreserves<G, L>(m: Map<G, L>, q: Geo.Input)
    requires Inv(m)
    ensures Inv(SetDireccionStep(m, q))
    ensures Tracked(m) ==> Tracked(SetDireccionStep(m, q))
  {
  }

  lemma SetOrigenPreserves<G, L>(m: Map<G, L>, o: Option<Point>, v: Variant)
    requires Inv(m)
    ensures Inv(SetOrigenStep(m, o, v))
    ensures v == Corrected && Tracked(m) ==> Tracked(SetOrigenStep(m, o, v))
  {
    SetIsocronasOff(m.(origen := o), v);
    SetRutaNone(SetIsocronasStep(m.(origen := o), false, v));
  }

  /** Every event keeps the invariant, whichever the variant. */
  lemma StepPreservesInv<G, L>(m: Map<G, L>, ev: Event<G, L>, diff: (G, G) -> G, v: Variant)
    requires Inv(m)
    ensures Inv(Step(m, ev, diff, v))
  {
    if IsCall(ev) { CallPreservesInv(m, ev, diff, v); } else { CallbackPreservesInv(m, ev, diff, v); }
  }

  lemma CallPreservesInv<G, L>(m: Map<G, L>, ev: Event<G, L>, diff: (G, G) -> G, v: Variant)
    requires Inv(m) && IsCall(ev)
    ensures Inv(Step(m, ev, diff, v))
  {
    match ev
    case SetIsocronas(on) => SetIsocronasPreserves(m, on, v);
    case SetRuta(d) => SetRutaPreserves(m, d);
    case SetDireccion(q) => SetDireccionPreserves(m, q);
    case SetOrigen(o) => SetOrigenPreserves(m, o, v);
  }

  lemma CallbackPreservesInv<G, L>(m: Map<G, L>, ev: Event<G, L>, diff: (G, G) -> G, v: Variant)
    requires Inv(m) && !IsCall(ev)
    ensures Inv(Step(m, ev, diff, v))
  {
    match ev
    case IsoLoaded(fs) => if m.inflight.iso.Some? { IsoLoadedInv(m, fs, diff, v); }
    case IsoFailed => if m.inflight.iso.Some? { IsoFailedInv(m, v); }
    case RouteLoaded(layer) => if m.inflight.route.Some? { RouteLoadedInv(m, layer, v); }
    case RouteFailed(body) => if m.inflight.route.Some? { RouteFailedInv(m, body, v); }
    case GeoLoaded(places) => if m.inflight.geo.Some? { GeoLoadedInv(m, places, v); }
    case GeoFailed(body) => if m.inflight.geo.Some? { GeoFailedInv(m, body); }
  }

  lemma IsoLoadedInv<G, L>(m: Map<G, L>, fs: seq<Iso.Feature<G>>, diff: (G, G) -> G, v: Variant)
    requires Inv(m) && m.inflight.iso.Some?
    ensures Inv(IsoLoadedStep(m, fs, diff, v))
  {
    OthersSurvive(m.espera, Espera.Isocronas);
  }

  lemma IsoFailedInv<G, L>(m: Map<G, L>, v: Variant)
    requires Inv(m) && m.inflight.iso.Some?
    ensures Inv(IsoFailedStep(m, v))
  {
    OthersSurvive(m.espera, Espera.Isocronas);
  }

  lemma RouteLoadedInv<G, L>(m: Map<G, L>, layer: L, v: Variant)
    requires Inv(m) && m.inflight.route.Some?
    ensures Inv(RouteLoadedStep(m, layer, v))
  {
    OthersSurvive(m.espera, Espera.Rutas);
  }

  lemma RouteFailedInv<G, L>(m: Map<G, L>, body: Option<ErrorInfo>, v: Variant)
    requires Inv(m) && m.inflight.route.Some?
    ensures Inv(RouteFailedStep(m, body, v))
  {
    OthersSurvive(m.espera, Espera.Rutas);
  }

  lemma GeoLoadedInv<G, L>(m: Map<G, L>, places: seq<Geo.Place>, v: Variant)
    requires Inv(m) && m.inflight.geo.Some?
    ensures Inv(GeoSettle(m, Geo.Succeed(m.geo, m.espera, m.inflight.geo.value, places)))
    ensures Inv(GeoSettle(m, Geo.SucceedFixed(m.geo, m.espera, m.inflight.geo.value, places)))
  {
    OthersSurvive(m.espera, Espera.Geocode);
  }

  lemma GeoFailedInv<G, L>(m: Map<G, L>, body: Option<ErrorInfo>)
    requires Inv(m) && m.inflight.geo.Some?
    ensures Inv(GeoSettle(m, Geo.Fail(m.geo, m.espera, body)))
  {
    OthersSurvive(m.espera, Espera.Geocode);
  }

  /** With the defects corrected, every event keeps the tracker truthful. */
  lemma StepKeepsTracked<G, L>(m: Map<G, L>, ev: Event<G, L>, diff: (G, G) -> G)
    requires Inv(m) && Tracked(m)
    ensures Tracked(Step(m, ev, diff, Corrected))
  {
    if IsCall(ev) { CallKeepsTracked(m, ev, diff); } else { CallbackKeepsTracked(m, ev, diff); }
  }

  lemma CallKeepsTracked<G, L>(m: Map<G, L>, ev: Event<G, L>, diff: (G, G) -> G)
    requires Inv(m) && Tracked(m) && IsCall(ev)
    ensures Tracked(Step(m, ev, diff, Corrected))
  {
    match ev
    case SetIsocronas(on) => SetIsocronasPreserves(m, on, Corrected);
    case SetRuta(d) => SetRutaPreserves(m, d);
    case SetDireccion(q) => SetDireccionPreserves(m, q);
    case SetOrigen(o) => SetOrigenPreserves(m, o, Corrected);
  }

  lemma CallbackKeepsTracked<G, L>(m: Map<G, L>, ev: Event<G, L>, diff: (G, G) -> G)
    requires Inv(m) && Tracked(m) && !IsCall(ev)
    ensures Tracked(Step(m, ev, diff, Corrected))
  {
    match ev
    case IsoLoaded(fs) => IsoLoadedTracked(m, fs, diff);
    case IsoFailed => IsoFailedTracked(m, diff);
    case RouteLoaded(layer) => RouteLoadedTracked(m, layer, diff);
    case RouteFailed(body) => RouteFailedTracked(m, body, diff);
    case GeoLoaded(places) => GeoLoadedTracked(m, places, diff);
    case GeoFailed(body) => GeoFailedTracked(m, body, diff);
  }

  lemma IsoLoadedTracked<G, L>(m: Map<G, L>, fs: seq<Iso.Feature<G>>, diff: (G, G) -> G)
    requires Inv(m) && Tracked(m)
    ensures Tracked(Step(m, IsoLoaded(fs), diff, Corrected))
  {
  }

  lemma IsoFailedTracked<G, L>(m: Map<G, L>, diff: (G, G) -> G)
    requires Inv(m) && Tracked(m)
    ensures Tracked(Step(m, IsoFailed, diff, Corrected))
  {
  }

  lemma RouteLoadedTracked<G, L>(m: Map<G, L>, layer: L, diff: (G, G) -> G)
    requires Inv(m) && Tracked(m)
    ensures Tracked(Step(m, RouteLoaded(layer), diff, Corrected))
  {
  }

  lemma RouteFailedTracked<G, L>(m: Map<G, L>, body: Option<ErrorInfo>, diff: (G, G) -> G)
    requires Inv(m) && Tracked(m)
    ensures Tracked(Step(m, RouteFailed(body), diff, Corrected))
  {
  }

  lemma GeoLoadedTracked<G, L>(m: Map<G, L>, places: seq<Geo.Place>, diff: (G, G) -> G)
    requires Inv(m) && Tracked(m)
    ensures Tracked(Step(m, GeoLoaded(places), diff, Corrected))
  {
  }

  lemma GeoFailedTracked<G, L>(m: Map<G, L>, body: Option<ErrorInfo>, diff: (G, G) -> G)
    requires Inv(m) && Tracked(m)
    ensures Tracked(Step(m, GeoFailed(body), diff, Corrected))
  {
  }

  /** Every map reachable from `m` satisfies the invariant, and, with the
      defects corrected, keeps the tracker truthful. */
  lemma {:induction false} RunPreservesInv<G, L>(m: Map<G, L>, evs: seq<Event<G, L>>, diff: (G, G) -> G, v: Variant)
    requires Inv(m)
    ensures Inv(Run(m, evs, diff, v))
    ensures v == Corrected && Tracked(m) ==> Tracked(Run(m, evs, diff, v))
    decreases |evs|
  {
    if |evs| > 0 {
      StepPreservesInv(m, evs[0], diff, v);
      if v == Corrected && Tracked(m) {
        StepKeepsTracked(m, evs[0], diff);
      }
      RunPreservesInv(Step(m, evs[0], diff, v), evs[1..], diff, v);
    }
  }

  /** From a fresh map every run keeps the invariant; corrected, the
      tracker is truthful all along. */
  lemma Reachable<G, L>(evs: seq<Event<G, L>>, diff: (G, G) -> G, v: Variant)
    ensures Inv(Run(Init<G, L>(), evs, diff, v))
    ensures v == Corrected ==> Tracked(Run(Init<G, L>(), evs, diff, v))
  {
    RunPreservesInv(Init<G, L>(), evs, diff, v);
  }

  // ---------------------------------------------------------------------
  // Properties of the composed map
  // ---------------------------------------------------------------------

  /** Single flight: while a call of a kind is outstanding, asking for that
      kind again changes nothing at all: no request, no bump, no event. */
  lemma SingleFlight<G, L>(m: Map<G, L>, d: Point, q: Geo.Input, diff: (G, G) -> G, v: Variant)
    requires Inv(m)
    ensures m.inflight.iso.Some? ==> Step(m, SetIsocronas(true), diff, v) == m
    ensures m.inflight.route.Some? ==> Step(m, SetRuta(Some(d)), diff, v) == m
    ensures m.inflight.geo.Some? ==> Step(m, SetDireccion(q), diff, v) == m
  {
  }

  /** Cache reuse through the setters: once isochrones for the current origin
      are displayed, switching them off and on again shows the same rings,
      fires two events and leaves `contador` alone. */
  lemma IsochroneCacheReuse<G, L>(m: Map<G, L>, diff: (G, G) -> G, v: Variant)
    requires Inv(m) && m.origen.Some? && m.iso.areas.Shown? && m.iso.cache.origen == m.origen
    ensures var m2 := Run(m, [SetIsocronas(false), SetIsocronas(true)], diff, v);
            m2.iso.areas == Iso.Shown(m.iso.cache.areas.value) && m2.contador == m.contador &&
            m2.notices == m.notices + [IsochroneSet, IsochroneSet] && m2.inflight == m.inflight
  {
    var m1 := Step(m, SetIsocronas(false), diff, v);
    assert Run(m, [SetIsocronas(false), SetIsocronas(true)], diff, v)
        == Run(m1, [SetIsocronas(true)], diff, v);
    assert Run(m1, [SetIsocronas(true)], diff, v) == Step(m1, SetIsocronas(true), diff, v);
  }

  // ---------------------------------------------------------------------
  // Context menus
  // ---------------------------------------------------------------------

  /** "Generar isocronas" is disabled while "isocronas" is pending
      (dist/maps/adjofer/map.js:636-640). */
  predicate GenerarIsocronasDisabled(espera: seq<string>) {
    Espera.Has(espera, Espera.Isocronas)
  }

  /** "Crear ruta desde el origen" is disabled without an origin or while
      "ruta" is pending (dist/maps/adjofer/map.js:690-695). */
  predicate CrearRutaDisabled<G, L>(m: Map<G, L>) {
    m.origen.None? || Espera.Has(m.espera, Espera.Ruta)
  }

  /** The same entry testing the tag the route service actually pushes. */
  predicate CrearRutaDisabledFixed<G, L>(m: Map<G, L>) {
    m.origen.None? || Espera.Has(m.espera, Espera.Rutas)
  }

  /** Finding: the route entry is never disabled by a pending route, because
      the menus test "ruta" and the service pushes "rutas". */
  lemma CrearRutaNeverWaits<G, L>(m: Map<G, L>)
    requires Inv(m) && m.origen.Some? && m.inflight.route.Some?
    ensures !CrearRutaDisabled(m)
    ensures CrearRutaDisabledFixed(m)
  {
    Espera.HasIsMembership(m.espera, Espera.Ruta);
    Espera.HasIsMembership(m.espera, Espera.Rutas);
  }

  /** With a truthful tracker the menus are right: "Generar isocronas" is
      disabled exactly while isochrones are in progress, and, testing
      "rutas", the route entry exactly while there is no origin or a route
      is in progress. */
  lemma MenusTruthful<G, L>(m: Map<G, L>)
    requires Tracked(m)
    ensures GenerarIsocronasDisabled(m.espera) <==> m.iso.areas.Computing?
    ensures CrearRutaDisabledFixed(m) <==> m.origen.None? || m.ruta.value.Computing?
  {
    Espera.HasIsMembership(m.espera, Espera.Isocronas);
    Espera.HasIsMembership(m.espera, Espera.Rutas);
    assert Espera.Isocronas in m.espera <==> Espera.Isocronas in multiset(m.espera);
    assert Espera.Rutas in m.espera <==> Espera.Rutas in multiset(m.espera);
  }

  /** Finding: as written, after a cache hit nothing is in progress, yet
      "Generar isocronas" stays disabled: switching the isochrones off, on
      (a cache hit) and off again leaves the entry greyed out, and the
      tracker no longer tells the truth. */
  lemma CacheHitDisablesMenu<G, L>(m: Map<G, L>, diff: (G, G) -> G)
    requires Inv(m) && m.origen.Some? && m.iso.areas.Shown? && m.iso.cache.origen == m.origen
    ensures var m3 := Run(m, [SetIsocronas(false), SetIsocronas(true), SetIsocronas(false)], diff, AsWritten);
            !m3.iso.areas.Computing? && GenerarIsocronasDisabled(m3.espera) && !Tracked(m3)
  {
    var m1 := Step(m, SetIsocronas(false), diff, AsWritten);
    var m2 := Step(m1, SetIsocronas(true), diff, AsWritten);
    var m3 := Step(m2, SetIsocronas(false), diff, AsWritten);
    var evs: seq<Event<G, L>> := [SetIsocronas(false), SetIsocronas(true), SetIsocronas(false)];
    assert evs[1..][1..] == [SetIsocronas(false)];
    assert Run(m, evs, diff, AsWritten) == m3;
    assert Espera.Isocronas in m3.espera;
    assert Pending(m3.espera, Espera.Isocronas) > 0;
    Espera.HasIsMembership(m3.espera, Espera.Isocronas);
  }
}
