/** Shared vocabulary of the OpenRouteService orchestration layer: optional
    values, map points, the error object the service returns, and the
    four-way outcome every service promise resolves to. */
module Base {

  /** JavaScript `null`-or-value, used wherever the code stores `null`. */
  datatype Option<+T> = None | Some(value: T)

  /** A map position as read through `getLatLng()`. Leaflet refuses NaN
      coordinates, so plain reals capture `===` on both components. */
  datatype Point = Point(lat: real, lng: real)

  /** The `error` member of a failed OpenRouteService response body. */
  datatype ErrorInfo = ErrorInfo(code: int, message: string)

  /** What a service promise resolves to, named after its meaning:
      `null` (another request of that kind is in flight), `false` (served
      from the cache), `true` (freshly computed), `undefined` (failed). */
  datatype Outcome = Duplicate | CacheHit | Computed | Failed

  /** What a step does to the caller's promise.
      - Settled: resolved now with an outcome;
      - Requested: a transport call was issued; the promise settles later;
      - Thrown: the promise executor threw, so the promise is rejected;
      - Abandoned: a transport callback threw before calling `resolve`,
        so the promise never settles. */
  datatype Resolution<+R> = Settled(outcome: Outcome) | Requested(request: R) | Thrown | Abandoned

  /** The result of one step of a service: its new state, the new pending
      tracker, and what happened to the caller's promise. */
  datatype Step<+S, +R> = Step(state: S, espera: seq<string>, resolution: Resolution<R>)

  /** The JavaScript values the promises actually carry. */
  datatype JsValue = JsNull | JsFalse | JsTrue | JsUndefined

  /** JavaScript truthiness of the four values. */
  predicate Truthy(v: JsValue) {
    v == JsTrue
  }

  /** The encoding of outcomes used by `create` and `query`
      (dist/maps/adjofer/map.js:1306-1309). */
  function Encode(o: Outcome): (v: JsValue)
    ensures Truthy(v) <==> o == Computed
    ensures v == JsNull <==> o == Duplicate
    ensures v == JsFalse <==> o == CacheHit
    ensures v == JsUndefined <==> o == Failed
  {
    match o
    case Duplicate => JsNull
    case CacheHit => JsFalse
    case Computed => JsTrue
    case Failed => JsUndefined
  }

  /** Reading a promise value back as an outcome. */
  function Decode(v: JsValue): Outcome {
    match v
    case JsNull => Duplicate
    case JsFalse => CacheHit
    case JsTrue => Computed
    case JsUndefined => Failed
  }

  /** The four JavaScript values tell the four outcomes apart. */
  lemma {:induction false} EncodeDecode(o: Outcome, v: JsValue)
    ensures Decode(Encode(o)) == o
    ensures Encode(Decode(v)) == v
  {
    match o
    case Duplicate =>
    case CacheHit =>
    case Computed =>
    case Failed =>
  }
}
