/** The pending tracker `espera`: a plain array of kind tags shared by the
    three services and read by the context menus. `push` may add a tag that
    is already there, so the tracker is a sequence (a multiset in effect),
    not a set. */
module Espera {

  /** The tags the services push. */
  const Isocronas: string := "isocronas"
  const Geocode: string := "geocode"
  const Rutas: string := "rutas"
  /** The tag the route menus look for; no service ever pushes it. */
  const Ruta: string := "ruta"

  /** `Array.prototype.indexOf`: the first position of `v`, or -1. */
  function IndexOf<T(==)>(s: seq<T>, v: T): (k: int)
    ensures -1 <= k < |s|
    ensures k == -1 <==> v !in s
    ensures k >= 0 ==> s[k] == v && v !in s[..k]
  {
    if |s| == 0 then -1
    else if s[0] == v then 0
    else
      var k := IndexOf(s[1..], v);
      assert s[1..][..k + 1] == s[1..k + 2] by {
        assert s[1..][..k + 1] == s[1..][0..k + 1];
      }
      if k == -1 then -1 else k + 1
  }

  /** `espera.indexOf(v) !== -1`, the test the menus use. */
  predicate Has(s: seq<string>, v: string) {
    IndexOf(s, v) != -1
  }

  /** What `espera.remove(v)` returns and leaves behind. */
  datatype Removal = Removal(found: bool, rest: seq<string>)

  /** `espera.remove(v)` (dist/maps/adjofer/map.js:1223-1230): splice out
      the first `v` and answer true, or answer false and change nothing. */
  function Remove(s: seq<string>, v: string): (r: Removal)
    ensures r.found <==> v in s
    ensures !r.found ==> r.rest == s
    ensures r.found ==> |r.rest| == |s| - 1
    ensures multiset(r.rest) == multiset(s) - multiset{v}
  {
    var k := IndexOf(s, v);
    if k != -1 then
      assert s == s[..k] + [s[k]] + s[k + 1..];
      assert multiset(s) == multiset(s[..k]) + multiset{v} + multiset(s[k + 1..]);
      Removal(true, s[..k] + s[k + 1..])
    else
      Removal(false, s)
  }

  /** The tracker with `v` pushed at the end (`espera.push(v)`). */
  function Push(s: seq<string>, v: string): seq<string> {
    s + [v]
  }

  /** `remove` deletes exactly the first occurrence: given the position
      `k` of the first `v`, the rest is everything before and after it. */
  lemma RemoveDeletesFirst(s: seq<string>, v: string, k: nat)
    requires k < |s| && s[k] == v && v !in s[..k]
    ensures Remove(s, v) == Removal(true, s[..k] + s[k + 1..])
  {
  }

  /** `Has` is membership. */
  lemma HasIsMembership(s: seq<string>, v: string)
    ensures Has(s, v) <==> v in s
  {
  }

  /** Other tags are untouched by a removal. */
  lemma RemoveKeepsOthers(s: seq<string>, v: string, w: string)
    requires v != w
    ensures w in Remove(s, v).rest <==> w in s
    ensures multiset(Remove(s, v).rest)[w] == multiset(s)[w]
  {
    var r := Remove(s, v).rest;
    assert multiset(r)[w] == multiset(s)[w];
    assert w in r <==> w in multiset(r);
    assert w in s <==> w in multiset(s);
  }

  /** A push followed by a removal of the same tag restores the tracker's
      contents; when the tag was absent before, it restores the tracker
      exactly. */
  lemma {:induction false} PushThenRemove(s: seq<string>, v: string)
    ensures Remove(Push(s, v), v).found
    ensures multiset(Remove(Push(s, v), v).rest) == multiset(s)
    ensures v !in s ==> Remove(Push(s, v), v).rest == s
  {
    var t := Push(s, v);
    assert t[|s|] == v;
    assert multiset(t) == multiset(s) + multiset{v};
    if v !in s {
      assert t[..|s|] == s;
      RemoveDeletesFirst(t, v, |s|);
      assert t[|s| + 1..] == [];
    }
  }

  /** Pushing then removing another tag commutes: the order in which the
      services interleave does not change what the tracker holds. */
  lemma PushRemoveOtherCommute(s: seq<string>, v: string, w: string)
    requires v != w
    ensures multiset(Remove(Push(s, v), w).rest) == multiset(Push(Remove(s, w).rest, v))
  {
  }
}
