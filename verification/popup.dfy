/** The travel time shown in a route's popup (dist/maps/adjofer/map.js:
    1734-1745): seconds become whole minutes, and hours and minutes once
    the minutes exceed 60. */
module Popup {
  import opened Base
  import Espera
  import opened Numerals

  /** The two shapes of the text: "<m>m" and "<h>h <m>m". */
  datatype Duracion = Minutes(m: int) | HoursMinutes(h: int, m: int)

  /** The whole minutes a duration stands for. */
  function Total(d: Duracion): int {
    match d
    case Minutes(m) => m
    case HoursMinutes(h, m) => h * 60 + m
  }

  /** The inner `tiempo` function on a duration of `t` seconds. The minutes
      are `Math.floor(t / 60)`; only above 60 are they split, so exactly one
      hour is still "60m". */
  function Tiempo(t: real): (d: Duracion)
    ensures Total(d) == (t / 60.0).Floor
    ensures d.Minutes? <==> (t / 60.0).Floor <= 60
    ensures d.HoursMinutes? ==> d.h >= 1 && 0 <= d.m < 60
  {
    var m := (t / 60.0).Floor;
    if m > 60 then HoursMinutes(m / 60, m % 60) else Minutes(m)
  }

  /** A whole number in decimal, with a leading "-" when negative and no
      leading zero. */
  function Show(i: int): (s: string)
    ensures i >= 0 ==> AllDigits(s, 10) && 1 <= |s| && FromBase(s, 10) == i
    ensures i < 0 ==> 2 <= |s| && s[0] == '-' && AllDigits(s[1..], 10) && FromBase(s[1..], 10) == -i
    ensures var d := if i < 0 then s[1..] else s; |d| > 1 ==> d[0] != '0'
  {
    if i < 0 then
      var t := ToBase(-i, 10);
      assert ("-" + t)[1..] == t;
      "-" + t
    else ToBase(i, 10)
  }

  /** The text placed in the popup. */
  function Render(d: Duracion): string {
    match d
    case Minutes(m) => Show(m) + "m"
    case HoursMinutes(h, m) => Show(h) + "h " + Show(m) + "m"
  }

  /** Reading the text back. */
  function Parse(s: string): Option<Duracion> {
    if |s| < 2 || s[|s| - 1] != 'm' then None
    else
      var body := s[..|s| - 1];
      var k := Espera.IndexOf(body, 'h');
      if k == -1 then
        if AllDigits(body, 10) then Some(Minutes(FromBase(body, 10))) else None
      else if 0 < k && k + 2 < |body| && body[k + 1] == ' '
              && AllDigits(body[..k], 10) && AllDigits(body[k + 2..], 10) then
        Some(HoursMinutes(FromBase(body[..k], 10), FromBase(body[k + 2..], 10)))
      else None
  }

  /** Decimal digits contain no 'h'. */
  lemma NoHour(s: string)
    requires AllDigits(s, 10)
    ensures 'h' !in s
  {
  }

  /** For any non-negative duration the popup text reads back as the
      minutes, or hours and minutes, it was made from. */
  lemma ParseRender(t: real)
    requires t >= 0.0
    ensures Parse(Render(Tiempo(t))) == Some(Tiempo(t))
  {
    var d := Tiempo(t);
    var s := Render(d);
    var body := s[..|s| - 1];
    match d
    case Minutes(m) =>
      assert body == Show(m);
      NoHour(body);
    case HoursMinutes(h, m) =>
      var sh, sm := Show(h), Show(m);
      assert body == sh + "h " + sm;
      NoHour(sh);
      assert body[|sh|] == 'h' && body[..|sh|] == sh;
      assert body[|sh| + 2..] == sm;
      assert Espera.IndexOf(body, 'h') == |sh|;
  }
}
