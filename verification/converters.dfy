/** Two converters of the centre markers' derived data: `numofer`, the
    amount of teaching offered, and `bil`, the bilingual languages
    (dist/maps/adjofer/map.js:1046-1073). */
module Converters {
  import opened Base
  import Espera

  /** An offered teaching as the converters see it: whether some filter
      hides it, whether it is desirable (`mar`), and its language (`idi`),
      None when null or missing. */
  datatype Ens = Ens(filtered: bool, mar: bool, idi: Option<string>)

  // ---------------------------------------------------------------------
  // numofer
  // ---------------------------------------------------------------------

  /** Number of visible desirable teachings. */
  function Desirable(oferta: seq<Ens>): nat {
    if |oferta| == 0 then 0
    else Desirable(oferta[..|oferta| - 1]) + (var e := oferta[|oferta| - 1]; if !e.filtered && e.mar then 1 else 0)
  }

  /** Number of visible teachings that are not desirable. */
  function Undesirable(oferta: seq<Ens>): nat {
    if |oferta| == 0 then 0
    else Undesirable(oferta[..|oferta| - 1]) + (var e := oferta[|oferta| - 1]; if !e.filtered && !e.mar then 1 else 0)
  }

  /** `Math.round` on a non-negative number: halves go up. */
  function Round(x: real): (n: int)
    requires x >= 0.0
    ensures n >= 0
    ensures n as real - 0.5 <= x < n as real + 0.5
  {
    (x + 0.5).Floor
  }

  /** Rounding a third of a whole number: `Math.round(n / 3)` is `(n + 1) / 3`. */
  lemma RoundThird(n: nat)
    ensures Round(n as real / 3.0) == (n + 1) / 3
  {
    var q := (n + 1) / 3;
    var r := (n + 1) % 3;
    assert n + 1 == 3 * q + r;
    var x := n as real / 3.0;
    assert 3.0 * x == n as real;
    assert q as real - 0.5 <= x < q as real + 0.5 by {
      assert 3.0 * (q as real) - 1.5 <= n as real;
      assert n as real < 3.0 * (q as real) + 1.5;
    }
  }

  /** The `numofer` loop (dist/maps/adjofer/map.js:1046-1055): hidden
      teachings are skipped, a desirable one counts 3 and any other 1, and
      the total over 3 is rounded. The result is the number of desirable
      teachings plus a third of the others, rounded half up. */
  method NumOfer(oferta: seq<Ens>) returns (n: int)
    ensures n == Round(Desirable(oferta) as real + Undesirable(oferta) as real / 3.0)
    ensures n == (3 * Desirable(oferta) + Undesirable(oferta) + 1) / 3
  {
    var res := 0;
    var i := 0;
    while i < |oferta|
      invariant 0 <= i <= |oferta|
      invariant res == 3 * Desirable(oferta[..i]) + Undesirable(oferta[..i])
    {
      assert oferta[..i + 1][..i] == oferta[..i];
      if !oferta[i].filtered {
        res := res + (if oferta[i].mar then 3 else 1);
      }
      i := i + 1;
    }
    assert oferta[..i] == oferta;
    RoundThird(res);
    assert res as real / 3.0 == Desirable(oferta) as real + Undesirable(oferta) as real / 3.0;
    n := Round(res as real / 3.0);
  }

  /** Adding a hidden teaching changes nothing; adding a visible desirable
      one adds exactly one. */
  lemma NumOferSteps(oferta: seq<Ens>, idi: Option<string>, mar: bool)
    ensures var d := oferta + [Ens(true, mar, idi)];
            Desirable(d) == Desirable(oferta) && Undesirable(d) == Undesirable(oferta)
    ensures var d := oferta + [Ens(false, true, idi)];
            (3 * Desirable(d) + Undesirable(d) + 1) / 3 ==
            (3 * Desirable(oferta) + Undesirable(oferta) + 1) / 3 + 1
  {
    assert (oferta + [Ens(true, mar, idi)])[..|oferta|] == oferta;
    assert (oferta + [Ens(false, true, idi)])[..|oferta|] == oferta;
  }

  // ---------------------------------------------------------------------
  // bil
  // ---------------------------------------------------------------------

  /** Whether a language value is truthy: present and not empty. */
  predicate Truthy(idi: Option<string>) {
    idi.Some? && idi.value != ""
  }

  /** `ens.filters.length === 0 && ens.idi`, with every falsy value as None. */
  function Language(e: Ens): (l: Option<string>)
    ensures l.Some? <==> !e.filtered && Truthy(e.idi)
  {
    if !e.filtered && Truthy(e.idi) then e.idi else None
  }

  function Languages(oferta: seq<Ens>): (ls: seq<Option<string>>)
    ensures |ls| == |oferta|
    ensures forall i :: 0 <= i < |oferta| ==> ls[i] == Language(oferta[i])
  {
    seq(|oferta|, i requires 0 <= i < |oferta| => Language(oferta[i]))
  }

  /** The languages of the visible teachings. */
  ghost function LanguageSet(oferta: seq<Ens>): set<string> {
    set i | 0 <= i < |oferta| && Language(oferta[i]).Some? :: Language(oferta[i]).value
  }

  predicate NoDup<T(==)>(s: seq<T>) {
    forall i, j :: 0 <= i < j < |s| ==> s[i] != s[j]
  }

  /** `.filter((idi, i, arr) => idi && arr.indexOf(idi) === i)` from
      position `k` on: the truthy entries that are the first of their value. */
  function FirstsFrom(ls: seq<Option<string>>, k: nat): (r: seq<string>)
    requires k <= |ls|
    ensures forall x :: x in r <==> exists i :: k <= i < |ls| && ls[i] == Some(x) && Some(x) !in ls[..i]
    decreases |ls| - k
  {
    if k == |ls| then []
    else
      var rest := FirstsFrom(ls, k + 1);
      var first := ls[k].Some? && Espera.IndexOf(ls, ls[k]) == k;
      if first then [ls[k].value] + rest else rest
  }

  /** The kept languages have no repeats. */
  lemma {:induction false} FirstsNoDup(ls: seq<Option<string>>, k: nat)
    requires k <= |ls|
    ensures NoDup(FirstsFrom(ls, k))
    decreases |ls| - k
  {
    if k < |ls| {
      FirstsNoDup(ls, k + 1);
      var rest := FirstsFrom(ls, k + 1);
      if ls[k].Some? && Espera.IndexOf(ls, ls[k]) == k {
        var x := ls[k].value;
        assert x !in rest;
        var r := [x] + rest;
        forall a, b | 0 <= a < b < |r| ensures r[a] != r[b] {
          if a == 0 {
            assert r[b] == rest[b - 1];
          } else {
            assert r[a] == rest[a - 1] && r[b] == rest[b - 1];
          }
        }
      }
    }
  }

  /** The distinct languages in order of first appearance. */
  function Idiomas(oferta: seq<Ens>): (r: seq<string>)
    ensures NoDup(r)
    ensures forall x :: x in r <==> x in LanguageSet(oferta)
  {
    FirstsNoDup(Languages(oferta), 0);
    FirstsAreLanguages(oferta);
    FirstsFrom(Languages(oferta), 0)
  }

  /** The first occurrences cover every visible language and nothing else. */
  lemma FirstsAreLanguages(oferta: seq<Ens>)
    ensures forall x :: x in FirstsFrom(Languages(oferta), 0) <==> x in LanguageSet(oferta)
  {
    var ls := Languages(oferta);
    var r := FirstsFrom(ls, 0);
    forall x
      ensures x in r <==> x in LanguageSet(oferta)
    {
      if x in LanguageSet(oferta) {
        var i :| 0 <= i < |oferta| && Language(oferta[i]).Some? && Language(oferta[i]).value == x;
        var j := Espera.IndexOf(ls, Some(x));
        assert ls[i] == Some(x);
        assert 0 <= j && ls[j] == Some(x) && Some(x) !in ls[..j];
      }
      if x in r {
        var i :| 0 <= i < |ls| && ls[i] == Some(x) && Some(x) !in ls[..i];
        assert Language(oferta[i]) == Some(x);
      }
    }
  }

  /** What `bil` answers: null, the one language, or "multi". */
  datatype Bil = NoLanguage | One(idi: string) | Multi

  /** `bil` (dist/maps/adjofer/map.js:1057-1073): no visible language gives
      null, a single distinct one gives that language, and two or more give
      "multi". */
  function Bilingue(oferta: seq<Ens>): (r: Bil)
    ensures r == NoLanguage <==> LanguageSet(oferta) == {}
    ensures r.One? <==> |LanguageSet(oferta)| == 1
    ensures r.One? ==> LanguageSet(oferta) == {r.idi}
    ensures r == Multi <==> |LanguageSet(oferta)| >= 2
  {
    var idiomas := Idiomas(oferta);
    DistinctCard(idiomas);
    assert (set x | x in idiomas) == LanguageSet(oferta);
    if |idiomas| == 0 then NoLanguage
    else if |idiomas| == 1 then
      assert (set x | x in idiomas) == {idiomas[0]};
      One(idiomas[0])
    else Multi
  }

  /** A sequence without repeats has as many elements as its set. */
  lemma {:induction false} DistinctCard<T>(s: seq<T>)
    requires NoDup(s)
    ensures |set x | x in s| == |s|
  {
    if |s| > 0 {
      var t := s[1..];
      assert NoDup(t) by {
        forall i, j | 0 <= i < j < |t| ensures t[i] != t[j] {
          assert t[i] == s[i + 1] && t[j] == s[j + 1];
        }
      }
      DistinctCard(t);
      assert s[0] !in t;
      assert (set x | x in s) == (set x | x in t) + {s[0]} by {
        assert s == [s[0]] + t;
      }
    }
  }

  /** Hidden teachings do not count towards `bil`, and repeating a visible
      language does not make a centre multilingual. */
  lemma BilingueIgnoresRepeats(oferta: seq<Ens>, e: Ens)
    requires e.filtered || (Truthy(e.idi) && e.idi.value in LanguageSet(oferta))
    ensures Bilingue(oferta + [e]) == Bilingue(oferta)
  {
    var d := oferta + [e];
    assert LanguageSet(d) == LanguageSet(oferta) by {
      forall x | x in LanguageSet(d) ensures x in LanguageSet(oferta) {
        var i :| 0 <= i < |d| && Language(d[i]).Some? && Language(d[i]).value == x;
        if i < |oferta| { assert d[i] == oferta[i]; }
      }
      forall x | x in LanguageSet(oferta) ensures x in LanguageSet(d) {
        var i :| 0 <= i < |oferta| && Language(oferta[i]).Some? && Language(oferta[i]).value == x;
        assert d[i] == oferta[i];
      }
    }
  }
}
