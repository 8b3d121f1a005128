/** The isochrone service `Isocronas` (dist/maps/adjofer/map.js:1244-1494):
    a tri-state `areas` (false / null / ring list), a cache of the last
    computation, the request options, and the chunked pass that turns the
    nested solid polygons of a response into rings. */
module Isocronas {
  import opened Base
  import opened Points
  import Espera

  // ---------------------------------------------------------------------
  // Options
  // ---------------------------------------------------------------------

  /** The `range` option: a single number or an array of seconds. */
  datatype Range = Single(seconds: int) | Many(list: seq<int>)

  /** The request options sent to the isochrone endpoint. */
  datatype Options = Options(
    profile: string,
    rangeType: string,
    interval: int,
    range: Range,
    locationType: string,
    intersections: bool)

  /** The argument of `setOptions`: the members present in `opts`. */
  datatype Patch = Patch(
    profile: Option<string>,
    rangeType: Option<string>,
    interval: Option<int>,
    range: Option<Range>,
    locationType: Option<string>,
    intersections: Option<bool>)

  /** `defaults` (dist/maps/adjofer/map.js:1248-1255). */
  const Defaults: Options := Options("driving-car", "time", 600, Single(3600), "start", false)

  /** `setOptions(undefined)`: nothing to merge. */
  const NoPatch: Patch := Patch(None, None, None, None, None, None)

  /** `Object.assign` for one member. */
  function Pick<T>(given: Option<T>, current: T): T {
    match given
    case Some(v) => v
    case None => current
  }

  /** The seconds a range stands for, as a list. */
  function Seconds(r: Range): seq<int> {
    match r
    case Single(n) => [n]
    case Many(l) => l
  }

  /** `setOptions` (dist/maps/adjofer/map.js:1297-1303): members of the
      patch override, the others stay, and `range` always ends up an array
      holding the seconds it stood for. */
  function SetOptions(o: Options, p: Patch): (r: Options)
    ensures r.range.Many?
    ensures Seconds(r.range) == Seconds(if p.range.Some? then p.range.value else o.range)
    ensures p.profile.None? ==> r.profile == o.profile
    ensures p.interval.None? ==> r.interval == o.interval
    ensures p.profile.Some? ==> r.profile == p.profile.value
    ensures p.interval.Some? ==> r.interval == p.interval.value
  {
    var merged := Options(
      Pick(p.profile, o.profile),
      Pick(p.rangeType, o.rangeType),
      Pick(p.interval, o.interval),
      Pick(p.range, o.range),
      Pick(p.locationType, o.locationType),
      Pick(p.intersections, o.intersections));
    if merged.range.Many? then merged else merged.(range := Many([merged.range.seconds]))
  }

  /** Applying the same options twice changes nothing more, and a result
      of `setOptions` is a fixed point of `setOptions(undefined)`. */
  lemma SetOptionsIdempotent(o: Options, p: Patch)
    ensures SetOptions(SetOptions(o, p), p) == SetOptions(o, p)
    ensures SetOptions(SetOptions(o, p), NoPatch) == SetOptions(o, p)
  {
  }

  // ---------------------------------------------------------------------
  // State
  // ---------------------------------------------------------------------

  /** A feature of the response: one solid (cumulative) travel-time polygon,
      its `value` in seconds, and the `ratio` property once it is stamped. */
  datatype Feature<G> = Feature(geometry: G, value: int, ratio: Option<real>)

  /** A ring added to the layer: its own geometry, the properties copied
      from its feature plus `ratio`, and `area`, the solid feature. */
  datatype Ring<G> = Ring(geometry: G, value: int, ratio: real, area: Feature<G>)

  /** `areas`: false (absent), null (in progress) or the displayed rings. */
  datatype Areas<G> = Absent | Computing | Shown(rings: seq<Ring<G>>)

  /** `calc`: the origin and rings of the last completed computation. */
  datatype Calc<G> = Calc(origen: Option<Point>, areas: Option<seq<Ring<G>>>)

  datatype Service<G> = Service(areas: Areas<G>, cache: Calc<G>, options: Options)

  /** What is sent to the endpoint: `locations: [[lng, lat]]` and the options. */
  datatype Request = Request(location: Point, options: Options)

  /** The constructor (dist/maps/adjofer/map.js:1268-1295). */
  function Init<G>(opts: Patch): Service<G> {
    Service(Absent, Calc(None, None), SetOptions(Defaults, opts))
  }

  /** Whenever the cache has an origin it also has rings. */
  predicate Valid<G>(s: Service<G>) {
    s.cache.origen.Some? ==> s.cache.areas.Some?
  }

  lemma InitValid<G>(opts: Patch)
    ensures Valid(Init<G>(opts))
    ensures Init<G>(opts).options.range == Many(Seconds(SetOptions(Defaults, opts).range))
    ensures Init<G>(NoPatch).options.range == Many([3600])
  {
  }

  // ---------------------------------------------------------------------
  // Operations
  // ---------------------------------------------------------------------

  /** `remove()` (dist/maps/adjofer/map.js:1416-1422): false when nothing is
      displayed (also while computing); otherwise the display goes and the
      cache stays. The first component stands for the returned value. */
  function Remove<G>(s: Service<G>): (r: (bool, Service<G>))
    ensures r.0 <==> s.areas.Shown?
    ensures !r.0 ==> r.1 == s
    ensures r.1.cache == s.cache && r.1.options == s.options
    ensures !r.1.areas.Shown? && (r.1.areas.Computing? <==> s.areas.Computing?)
  {
    if s.areas.Shown? then (true, s.(areas := Absent)) else (false, s)
  }

  /** `create()` (dist/maps/adjofer/map.js:1314-1358), up to the transport
      call. `origen` is the map's origin marker at the time of the call.
      Quirk kept from the code: the cache-hit path pushes "isocronas" and
      never removes it. A null origin on a miss throws in `getLatLng()`
      after the state was already set to in-progress. */
  function Create<G>(s: Service<G>, e: seq<string>, origen: Option<Point>): (r: Step<Service<G>, Request>)
    ensures r.state.options == s.options
    ensures s.areas.Computing? <==> r.resolution == Settled(Duplicate)
    ensures s.areas.Computing? ==> r.state == s && r.espera == e
    ensures !s.areas.Computing? ==> r.espera == e + [Espera.Isocronas]
    ensures r.resolution == Settled(CacheHit) <==>
              !s.areas.Computing? && MismoPunto(origen, s.cache.origen) && s.cache.areas.Some?
    ensures r.resolution == Settled(CacheHit) ==> r.state == s.(areas := Shown(s.cache.areas.value))
    ensures r.resolution.Requested? <==> !s.areas.Computing? && !MismoPunto(origen, s.cache.origen) && origen.Some?
    ensures r.resolution.Requested? ==>
              r.resolution.request == Request(origen.value, s.options) &&
              r.state == s.(areas := Computing, cache := Calc(None, None))
    ensures r.resolution != Settled(Computed) && r.resolution != Settled(Failed) && !r.resolution.Abandoned?
    ensures Valid(s) ==> Valid(r.state)
    ensures Valid(s) && r.resolution.Thrown? ==> origen.None? && r.state.areas.Computing?
  {
    var s1 := Remove(s).1;
    if s1.areas.Computing? then Step(s1, e, Settled(Duplicate))
    else
      var e1 := Espera.Push(e, Espera.Isocronas);
      if MismoPunto(origen, s1.cache.origen) then
        match s1.cache.areas
        case Some(rings) => Step(s1.(areas := Shown(rings)), e1, Settled(CacheHit))
        case None => Step(s1, e1, Thrown)
      else
        var s2 := s1.(areas := Computing, cache := Calc(None, None));
        match origen
        case Some(p) => Step(s2, e1, Requested(Request(p, s1.options)))
        case None => Step(s2, e1, Thrown)
  }

  /** The last batch of `crearIsocronas` and the `then` of the success
      callback (dist/maps/adjofer/map.js:1345-1349, 1401-1405). `origen` is
      the map's origin when the last batch runs, which is what the code
      records as the cache key. */
  function Complete<G>(s: Service<G>, e: seq<string>, origen: Option<Point>, rings: seq<Ring<G>>)
    : (r: Step<Service<G>, Request>)
    ensures r.state.areas == Shown(rings) && r.state.cache == Calc(origen, Some(rings))
    ensures r.state.options == s.options
    ensures r.resolution == Settled(Computed)
    ensures multiset(r.espera) == multiset(e) - multiset{Espera.Isocronas}
    ensures Valid(r.state)
  {
    Step(s.(areas := Shown(rings), cache := Calc(origen, Some(rings))),
         Espera.Remove(e, Espera.Isocronas).rest,
         Settled(Computed))
  }

  /** The transport succeeded with `features`: the ring pass, then completion. */
  function Succeed<G>(s: Service<G>, e: seq<string>, origen: Option<Point>,
                      features: seq<Feature<G>>, diff: (G, G) -> G): Step<Service<G>, Request>
  {
    Complete(s, e, origen, RingsOf(features, diff))
  }

  /** The failure callback as written (dist/maps/adjofer/map.js:1351-1355):
      `failback()` gets no argument and throws on `xhr.responseText`, so
      neither `espera.remove` nor `resolve` runs and nothing changes. */
  function FailAsWritten<G>(s: Service<G>, e: seq<string>): Step<Service<G>, Request> {
    Step(s, e, Abandoned)
  }

  /** The failure callback as evidently intended: `failback(xhr)` reports
      the error, the tag is removed, `areas` goes back to false so that a
      later create may try again, and the promise resolves `undefined`. */
  function Fail<G>(s: Service<G>, e: seq<string>): (r: Step<Service<G>, Request>)
    ensures r.state == s.(areas := Absent) && r.resolution == Settled(Failed)
    ensures multiset(r.espera) == multiset(e) - multiset{Espera.Isocronas}
  {
    Step(s.(areas := Absent), Espera.Remove(e, Espera.Isocronas).rest, Settled(Failed))
  }

  /** `create()` with the pushed tag released on the cache-hit path too. */
  function CreateFixed<G>(s: Service<G>, e: seq<string>, origen: Option<Point>): (r: Step<Service<G>, Request>)
    ensures r.state == Create(s, e, origen).state && r.resolution == Create(s, e, origen).resolution
    ensures r.resolution.Requested? || r.resolution.Thrown? ==> r.espera == e + [Espera.Isocronas]
    ensures r.resolution.Settled? ==> r.espera == e
  {
    var r := Create(s, e, origen);
    if r.resolution == Settled(CacheHit) then r.(espera := e) else r
  }

  /** Completion keyed by the point the request was sent for. */
  function CompleteFixed<G>(s: Service<G>, e: seq<string>, req: Request, rings: seq<Ring<G>>)
    : (r: Step<Service<G>, Request>)
    ensures r.state.cache.origen == Some(req.location) && r.state.cache.areas == Some(rings)
    ensures r.state.areas == Shown(rings) && r.resolution == Settled(Computed)
  {
    Complete(s, e, Some(req.location), rings)
  }

  // ---------------------------------------------------------------------
  // The ring pass
  // ---------------------------------------------------------------------

  /** `1 - i/N`, the ratio of ring and feature `i` out of `N`. */
  function Ratio(i: nat, n: nat): real
    requires i < n
  {
    1.0 - (i as real) / (n as real)
  }

  /** Feature `i` after `data.features[i].properties.ratio = ...`. */
  function Stamp<G>(fs: seq<Feature<G>>, i: nat): Feature<G>
    requires i < |fs|
  {
    fs[i].(ratio := Some(Ratio(i, |fs|)))
  }

  /** Ring `i`: a copy of feature 0, or `difference(f[i], f[i-1])`. */
  function RingAt<G>(fs: seq<Feature<G>>, diff: (G, G) -> G, i: nat): Ring<G>
    requires i < |fs|
  {
    var geometry := if i == 0 then fs[0].geometry else diff(fs[i].geometry, fs[i - 1].geometry);
    Ring(geometry, fs[i].value, Ratio(i, |fs|), Stamp(fs, i))
  }

  /** All rings of a response, the reference the chunked pass is held to. */
  function RingsOf<G>(fs: seq<Feature<G>>, diff: (G, G) -> G): seq<Ring<G>> {
    seq(|fs|, i requires 0 <= i < |fs| => RingAt(fs, diff, i))
  }

  /** Ratios start at 1, stay above 0 and strictly decrease. */
  lemma RatioDecreasing(i: nat, j: nat, n: nat)
    requires i < j < n
    ensures 0.0 < Ratio(j, n) < Ratio(i, n) <= 1.0
  {
    var nr := n as real;
    var a := (i as real) / nr;
    var b := (j as real) / nr;
    assert a * nr == i as real;
    assert b * nr == j as real;
    assert (b - a) * nr == (j - i) as real;
    assert (1.0 - b) * nr == (n - j) as real;
  }

  /** The facts the reference rings carry: ring 0 copies feature 0, ring
      `i` is `difference(f[i], f[i-1])`, ring and feature share a ratio in
      (0, 1] that strictly decreases with `i`. */
  lemma RingsOfShape<G>(fs: seq<Feature<G>>, diff: (G, G) -> G)
    ensures var rs := RingsOf(fs, diff);
            && |rs| == |fs|
            && (|fs| > 0 ==> rs[0].geometry == fs[0].geometry && rs[0].ratio == 1.0)
            && (forall i :: 0 < i < |fs| ==> rs[i].geometry == diff(fs[i].geometry, fs[i - 1].geometry))
            && (forall i :: 0 <= i < |fs| ==>
                  rs[i].area == fs[i].(ratio := Some(rs[i].ratio)) && rs[i].value == fs[i].value)
            && (forall i, j :: 0 <= i < j < |fs| ==> 0.0 < rs[j].ratio < rs[i].ratio <= 1.0)
  {
    var rs := RingsOf(fs, diff);
    forall i, j | 0 <= i < j < |fs|
      ensures 0.0 < rs[j].ratio < rs[i].ratio <= 1.0
    {
      RatioDecreasing(i, j, |fs|);
    }
  }

  /** One progress report: `chunkProgress(i, N, ...)`. */
  datatype Progress = Progress(done: nat, total: nat)

  /** The first `i` rings are the reference rings and exactly the first `i`
      features carry their ratio. */
  ghost predicate Processed<G>(fs: seq<Feature<G>>, diff: (G, G) -> G, i: nat,
                               rings: seq<Ring<G>>, solids: seq<Feature<G>>)
  {
    && i <= |fs| && |rings| == i && |solids| == |fs|
    && (forall k :: 0 <= k < i ==> rings[k] == RingAt(fs, diff, k))
    && (forall k :: 0 <= k < |fs| ==> solids[k] == if k < i then Stamp(fs, k) else fs[k])
  }

  /** Reports so far: all about `n`, strictly increasing, the last one at `i`. */
  ghost predicate Reported(reports: seq<Progress>, n: nat, i: nat) {
    && (|reports| > 0 ==> reports[|reports| - 1].done == i)
    && (forall k :: 0 <= k < |reports| ==> reports[k].total == n && reports[k].done <= i)
    && (forall k :: 0 <= k < |reports| - 1 ==> reports[k].done < reports[k + 1].done)
    && (forall k :: 0 <= k < |reports| - 1 ==> reports[k].done < i)
  }

  /** The `for` loop of one invocation of `process` (dist/maps/adjofer/map.js:
      1375-1396), batch number `batch`, starting at index `start`. The first
      index of a batch is always processed: the lapse measured right after
      the batch starts is zero. */
  method Batch<G>(fs: seq<Feature<G>>, diff: (G, G) -> G, chunked: bool, late: (nat, nat) -> bool,
                  batch: nat, start: nat, rings0: seq<Ring<G>>, solids0: seq<Feature<G>>)
    returns (i: nat, rings: seq<Ring<G>>, solids: seq<Feature<G>>)
    requires Processed(fs, diff, start, rings0, solids0)
    ensures Processed(fs, diff, i, rings, solids)
    ensures start <= i <= |fs|
    ensures start < i || i == |fs|
    ensures !chunked ==> i == |fs|
  {
    var n := |fs|;
    i, rings, solids := start, rings0, solids0;
    var inBatch := 0;
    while i < n
      invariant start <= i <= n
      invariant inBatch == i - start
      invariant Processed(fs, diff, i, rings, solids)
      decreases n - i
    {
      if chunked && inBatch > 0 && late(batch, i) {
        break;
      }
      var anillo := if i > 0 then diff(fs[i].geometry, fs[i - 1].geometry) else fs[0].geometry;
      var ratio := 1.0 - (i as real) / (n as real);
      var solid := fs[i].(ratio := Some(ratio));
      rings := rings + [Ring(anillo, fs[i].value, ratio, solid)];
      solids := solids[i := solid];
      i := i + 1;
      inBatch := inBatch + 1;
    }
  }

  /** `crearIsocronas` (dist/maps/adjofer/map.js:1361-1410). Each outer
      iteration is one invocation of `process`; `late(b, i)` answers whether,
      in batch `b`, the time since the batch started exceeded the interval
      when index `i` came up. `chunked` is `ors.chunkProgress` being set:
      without it the loop never breaks and nothing is reported. Returns the
      rings added to the layer, the stamped features, the progress reports
      and the number of batches. */
  method CrearIsocronas<G>(fs: seq<Feature<G>>, diff: (G, G) -> G, chunked: bool, late: (nat, nat) -> bool)
    returns (rings: seq<Ring<G>>, solids: seq<Feature<G>>, reports: seq<Progress>, batches: nat)
    ensures rings == RingsOf(fs, diff)
    ensures |solids| == |fs|
    ensures forall i :: 0 <= i < |fs| ==> solids[i] == rings[i].area
    ensures batches >= 1
    ensures chunked ==> |reports| == batches && reports[|reports| - 1] == Progress(|fs|, |fs|)
    ensures forall k :: 0 <= k < |reports| ==>
              reports[k].total == |fs| && (reports[k].done == |fs| <==> k == |reports| - 1)
    ensures forall k :: 0 <= k < |reports| - 1 ==> reports[k].done < reports[k + 1].done
    ensures !chunked ==> reports == [] && batches == 1
  {
    var n := |fs|;
    var i := 0;
    rings := [];
    solids := fs;
    reports := [];
    batches := 0;
    var finished := false;
    while !finished
      invariant Processed(fs, diff, i, rings, solids)
      invariant batches == 0 ==> i == 0 && !finished && reports == []
      invariant batches > 0 ==> (finished <==> i == n)
      invariant chunked ==> |reports| == batches
      invariant !chunked ==> reports == [] && (finished <==> batches == 1) && batches <= 1
      invariant Reported(reports, n, i)
      decreases n - i + (if finished then 0 else 1)
    {
      i, rings, solids := Batch(fs, diff, chunked, late, batches, i, rings, solids);
      if chunked {
        reports := reports + [Progress(i, n)];
      }
      batches := batches + 1;
      finished := i == n;
    }
    assert forall k :: 0 <= k < |reports| ==> reports[k].done <= n;
    assert |rings| == |RingsOf(fs, diff)|;
  }

  // ---------------------------------------------------------------------
  // Properties of the service
  // ---------------------------------------------------------------------

  /** Removal when nothing is displayed is a no-op that keeps the cache,
      and removing twice is the same as removing once. */
  lemma RemoveIdempotent<G>(s: Service<G>)
    ensures Remove(Remove(s).1) == (false, Remove(s).1)
    ensures !s.areas.Shown? ==> Remove(s) == (false, s)
  {
  }

  /** Single flight: once a create has issued a request, every further
      create resolves `null` and changes nothing, until the request settles. */
  lemma SingleFlight<G>(s: Service<G>, e: seq<string>, origen: Option<Point>, e2: seq<string>, origen2: Option<Point>)
    requires Create(s, e, origen).resolution.Requested?
    ensures var s1 := Create(s, e, origen).state;
            Create(s1, e2, origen2) == Step(s1, e2, Settled(Duplicate))
  {
  }

  /** Cache reuse: after a computation completes for origin `p`, removing the
      rings and creating again for `p` is a cache hit that shows the very
      same rings, with no request. */
  lemma CacheReuse<G>(s: Service<G>, e: seq<string>, p: Point, rings: seq<Ring<G>>, e2: seq<string>)
    ensures var c := Complete(s, e, Some(p), rings).state;
            var r := Create(Remove(c).1, e2, Some(p));
            Remove(c).0 && r.resolution == Settled(CacheHit) && r.state.areas == Shown(rings) &&
            r.state.cache == c.cache
  {
  }

  /** Cache invalidation: a different origin always goes to the network. */
  lemma CacheInvalidation<G>(s: Service<G>, e: seq<string>, p: Point, q: Point)
    requires !s.areas.Computing? && s.cache.origen == Some(p) && p != q
    ensures Create(s, e, Some(q)).resolution == Requested(Request(q, s.options))
  {
  }

  /** Finding: the failure callback as written leaves the tag behind and the
      service locked: from a fresh service, a failed request leaves
      "isocronas" pending forever and every later create is a duplicate. */
  lemma FailAsWrittenLocksOut<G>(p: Point, q: Point)
    ensures var c := Create(Init<G>(NoPatch), [], Some(p));
            var f := FailAsWritten(c.state, c.espera);
            f.espera == [Espera.Isocronas] && f.resolution == Abandoned &&
            Create(f.state, f.espera, Some(q)).resolution == Settled(Duplicate)
  {
  }

  /** With the corrected failure callback a failed request clears its tag:
      starting from a tracker without "isocronas", it is gone again once the
      failure settles, and the next create goes to the network again. */
  lemma FailClearsTag<G>(s: Service<G>, e: seq<string>, origen: Option<Point>, p: Point)
    requires Espera.Isocronas !in e
    requires Create(s, e, origen).resolution.Requested?
    ensures var c := Create(s, e, origen);
            var f := Fail(c.state, c.espera);
            f.espera == e && f.resolution == Settled(Failed) &&
            Create(f.state, f.espera, Some(p)).resolution == Requested(Request(p, s.options))
  {
    Espera.PushThenRemove(e, Espera.Isocronas);
  }

  /** Finding: each cache hit leaves one more "isocronas" in the tracker
      although no request is outstanding. */
  lemma CacheHitLeaksTag<G>(s: Service<G>, e: seq<string>, p: Point)
    requires Valid(s) && !s.areas.Computing? && s.cache.origen == Some(p)
    ensures var r := Create(s, e, Some(p));
            r.resolution == Settled(CacheHit) &&
            multiset(r.espera)[Espera.Isocronas] == multiset(e)[Espera.Isocronas] + 1
  {
  }

  /** With the tag released, a cache hit leaves the tracker as it was. */
  lemma CacheHitFixedKeepsTracker<G>(s: Service<G>, e: seq<string>, p: Point)
    requires Valid(s) && !s.areas.Computing? && s.cache.origen == Some(p)
    ensures var r := CreateFixed(s, e, Some(p));
            r.resolution == Settled(CacheHit) && r.espera == e
  {
  }

  /** Finding: the cache key is the origin at completion time. If the origin
      moves from `p` to `q` while the request for `p` is outstanding, a
      later create at `q` is served the rings computed for `p`. */
  lemma StaleOriginServed<G>(s: Service<G>, e: seq<string>, p: Point, q: Point, rings: seq<Ring<G>>)
    requires !s.areas.Computing? && !MismoPunto(Some(p), s.cache.origen) && p != q
    ensures var c := Create(s, e, Some(p));
            c.resolution == Requested(Request(p, s.options)) &&
            var done := Complete(c.state, c.espera, Some(q), rings).state;
            var again := Create(Remove(done).1, [], Some(q));
            again.resolution == Settled(CacheHit) && again.state.areas == Shown(rings)
  {
  }

  /** Keyed by the request, a cache hit at `q` only ever serves rings that
      were requested for `q`. */
  lemma CacheKeyIsRequest<G>(s: Service<G>, e: seq<string>, req: Request, rings: seq<Ring<G>>,
                             e2: seq<string>, q: Point)
    ensures var done := CompleteFixed(s, e, req, rings).state;
            Create(Remove(done).1, e2, Some(q)).resolution == Settled(CacheHit) <==> q == req.location
  {
  }
}
