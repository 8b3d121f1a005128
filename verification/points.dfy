/** Point identity used by every cache check. */
module Points {
  import opened Base

  /** `mismoPunto(x, y)` (dist/maps/adjofer/map.js:1723-1728): false when
      either marker is null, otherwise exact equality of `lat` and `lng`. */
  function MismoPunto(x: Option<Point>, y: Option<Point>): (r: bool)
    ensures x.None? || y.None? ==> !r
    ensures x.Some? && y.Some? ==> (r <==> x.value == y.value)
  {
    match (x, y)
    case (Some(p), Some(q)) => p.lat == q.lat && p.lng == q.lng
    case _ => false
  }

  /** The comparison is symmetric, and reflexive on every present point. */
  lemma MismoPuntoSymmetric(x: Option<Point>, y: Option<Point>)
    ensures MismoPunto(x, y) == MismoPunto(y, x)
    ensures x.Some? ==> MismoPunto(x, x)
  {
  }
}
