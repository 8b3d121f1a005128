/** The correction predicates of the centre markers: given an entry of a
    centre's list (an adjudication or an offered teaching) or the centre
    itself, they answer whether the correction applies to it, and `inv`
    turns the answer round (dist/maps/adjofer/map.js:763-778, 814-826,
    867-883, 980-989). */
module Corrections {
  import Espera

  // ---------------------------------------------------------------------
  // Bitwise and on small codes
  // ---------------------------------------------------------------------

  /** `a & b` on non-negative integers, bit by bit. */
  function BitAnd(a: nat, b: nat): (r: nat)
    ensures r <= a && r <= b
    decreases a
  {
    if a == 0 || b == 0 then 0
    else 2 * BitAnd(a / 2, b / 2) + (if a % 2 == 1 && b % 2 == 1 then 1 else 0)
  }

  /** The two halves of the day a shift code or a difficulty code covers:
      bit 1 and bit 2. */
  datatype Half = First | Second

  /** The halves a code up to 3 has set; codes are 0 (none), 1, 2 and 3. */
  function Halves(code: nat): set<Half> {
    (if code % 2 == 1 then {First} else {}) + (if (code / 2) % 2 == 1 then {Second} else {})
  }

  /** On codes up to 3, `a & b` is non-zero exactly when they share a half. */
  lemma BitAndShares(a: nat, b: nat)
    requires a <= 3 && b <= 3
    ensures BitAnd(a, b) != 0 <==> Halves(a) * Halves(b) != {}
  {
    assert First in Halves(a) <==> a % 2 == 1;
    assert Second in Halves(a) <==> (a / 2) % 2 == 1;
    assert First in Halves(b) <==> b % 2 == 1;
    assert Second in Halves(b) <==> (b / 2) % 2 == 1;
    assert a == 0 || a == 1 || a == 2 || a == 3;
    assert b == 0 || b == 1 || b == 2 || b == 3;
  }

  /** `!!(a & b)`: on codes up to 3, whether they share a half. */
  function Overlaps(a: nat, b: nat): (r: bool)
    ensures a <= 3 && b <= 3 ==> (r <==> Halves(a) * Halves(b) != {})
  {
    if a <= 3 && b <= 3 then BitAndShares(a, b); BitAnd(a, b) != 0
    else BitAnd(a, b) != 0
  }

  // ---------------------------------------------------------------------
  // adjpue / ofens
  // ---------------------------------------------------------------------

  /** An adjudication: the post (`pue`) it fills. */
  datatype Adj = Adj(pue: string)

  /** How the shift of an offered teaching is recorded: null for the
      blended ones, a falsy value (missing or empty) for those without a
      shift, or a name. */
  datatype Tur = Blended | NoShift | Named(name: string)

  /** An offered teaching: its code `ens`, its shift, and whether it is for
      adults (`adu`). */
  datatype Oferta = Oferta(ens: string, tur: Tur, adu: bool)

  /** `!!(inv ^ (list.indexOf(x) !== -1))`. */
  function Listed(x: string, list: seq<string>, inv: bool): (r: bool)
    ensures r <==> (inv != (x in list))
  {
    inv != (Espera.IndexOf(list, x) != -1)
  }

  /** `adjpue` (dist/maps/adjofer/map.js:764-770): the adjudication at `idx`
      is for one of the listed posts, or, inverted, for none of them. */
  function AdjPue(idx: nat, adj: seq<Adj>, puesto: seq<string>, inv: bool): (r: bool)
    requires idx < |adj|
    ensures !inv ==> (r <==> adj[idx].pue in puesto)
    ensures inv ==> (r <==> adj[idx].pue !in puesto)
  {
    Listed(adj[idx].pue, puesto, inv)
  }

  /** `ofens` (dist/maps/adjofer/map.js:773-778): the teaching at `idx` is
      one of the listed ones, or, inverted, none of them. */
  function OfEns(idx: nat, oferta: seq<Oferta>, ens: seq<string>, inv: bool): (r: bool)
    requires idx < |oferta|
    ensures !inv ==> (r <==> oferta[idx].ens in ens)
    ensures inv ==> (r <==> oferta[idx].ens !in ens)
  {
    Listed(oferta[idx].ens, ens, inv)
  }

  /** Inverting a list correction selects exactly the other entries. */
  lemma ListedInverts(idx: nat, adj: seq<Adj>, oferta: seq<Oferta>, list: seq<string>, inv: bool)
    requires idx < |adj| && idx < |oferta|
    ensures AdjPue(idx, adj, list, !inv) == !AdjPue(idx, adj, list, inv)
    ensures OfEns(idx, oferta, list, !inv) == !OfEns(idx, oferta, list, inv)
  {
  }

  // ---------------------------------------------------------------------
  // turno
  // ---------------------------------------------------------------------

  /** The shift code: "matutino" 1, "vespertino" 2, "ambos" 3, and 0 (from
      `undefined & n`) for any other name. */
  function ShiftCode(name: string): (c: nat)
    ensures c <= 3
  {
    if name == "matutino" then 1
    else if name == "vespertino" then 2
    else if name == "ambos" then 3
    else 0
  }

  /** The shift name a teaching is taken to have: its own, or, without one,
      the evening for adult teaching and the morning otherwise. */
  function ShiftName(o: Oferta): string
    requires !o.tur.Blended?
  {
    if o.tur.Named? then o.tur.name else if o.adu then "vespertino" else "matutino"
  }

  /** `turno` (dist/maps/adjofer/map.js:869-882), with the selected shifts
      `sel` (1 morning, 2 evening, 3 both). A blended teaching is never
      selected; otherwise the correction applies when the teaching shares
      no half of the day with the selection, or, inverted, when it does. */
  function Turno(idx: nat, oferta: seq<Oferta>, sel: nat, inv: bool): (r: bool)
    requires idx < |oferta|
    ensures oferta[idx].tur.Blended? ==> !r
    ensures !oferta[idx].tur.Blended? && sel <= 3 ==>
              (r <==> (inv != (Halves(ShiftCode(ShiftName(oferta[idx]))) * Halves(sel) == {})))
  {
    var o := oferta[idx];
    if o.tur.Blended? then false
    else
      inv != !Overlaps(ShiftCode(ShiftName(o)), sel)
  }

  /** What `turno` selects, named: with no inversion a morning selection
      removes the evening teaching, keeps the morning and the all-day
      teaching, and an unknown shift name is always removed. */
  lemma TurnoByShift(name: string, sel: nat)
    requires sel <= 3 && sel != 0
    ensures var o := [Oferta("e", Named(name), false)];
            (name == "ambos" ==> !Turno(0, o, sel, false)) &&
            (ShiftCode(name) == 0 ==> Turno(0, o, sel, false)) &&
            (name == "matutino" ==> (Turno(0, o, sel, false) <==> sel == 2)) &&
            (name == "vespertino" ==> (Turno(0, o, sel, false) <==> sel == 1))
  {
    var o := [Oferta("e", Named(name), false)];
    assert ShiftName(o[0]) == name;
    assert Halves(1) == {First};
    assert Halves(2) == {Second};
    assert Halves(3) == {First, Second};
    assert Halves(0) == {};
  }

  /** A teaching without a shift counts as evening when it is for adults
      and as morning otherwise. */
  lemma TurnoDefaultShift(adu: bool, sel: nat, inv: bool)
    requires sel <= 3
    ensures var o := [Oferta("e", NoShift, adu)];
            Turno(0, o, sel, inv) ==
            Turno(0, [Oferta("e", Named(if adu then "vespertino" else "matutino"), adu)], sel, inv)
  {
  }

  // ---------------------------------------------------------------------
  // tipo
  // ---------------------------------------------------------------------

  /** The difficulty code of a centre: "compensatoria" 1, "dificil" 2, any
      other value (also none) 0. */
  function DifCode(dif: string): (c: nat)
    ensures c <= 2
  {
    if dif == "compensatoria" then 1 else if dif == "dificil" then 2 else 0
  }

  /** `tipo` (dist/maps/adjofer/map.js:980-989) with the selected kinds
      `sel` (1 compensatory, 2 hard to fill, 3 both): the correction applies
      when the centre's kind is among the selected ones, or, inverted, when
      it is not. A centre with no special kind is never among them. */
  function Tipo(dif: string, sel: nat, inv: bool): (r: bool)
    ensures sel <= 3 ==> (r <==> (inv != (Halves(DifCode(dif)) * Halves(sel) != {})))
    ensures DifCode(dif) == 0 ==> r == inv
  {
    inv != Overlaps(DifCode(dif), sel)
  }

  /** Selecting both kinds picks every special centre; inverting picks the
      complementary set. */
  lemma TipoSelectsKinds(dif: string, inv: bool)
    ensures Tipo(dif, 3, false) <==> DifCode(dif) != 0
    ensures Tipo(dif, 1, false) <==> dif == "compensatoria"
    ensures Tipo(dif, 2, false) <==> dif == "dificil"
    ensures Tipo(dif, 3, true) == !Tipo(dif, 3, false)
  {
    assert Halves(1) == {First};
    assert Halves(2) == {Second};
    assert Halves(3) == {First, Second};
    assert Halves(0) == {};
  }

  // ---------------------------------------------------------------------
  // vi
  // ---------------------------------------------------------------------

  /** How many of `adj` are for post `p`. */
  function Count(adj: seq<Adj>, p: string): (n: nat)
    ensures n <= |adj|
  {
    if |adj| == 0 then 0
    else Count(adj[..|adj| - 1], p) + (if adj[|adj| - 1].pue == p then 1 else 0)
  }

  /** The loop of `vi` (dist/maps/adjofer/map.js:820-822), from index `i`
      with count `num`: it runs while `i <= idx`, adding one to `num` for
      each adjudication of post `puesto`, and gives back the final `i` and
      `num`. The index always ends one past `idx`; the count is the number
      of adjudications of the post up to `idx`. */
  function ViLoop(adj: seq<Adj>, puesto: string, idx: nat, i: nat, num: nat): (r: (nat, nat))
    requires i <= idx + 1 <= |adj|
    ensures r.0 == idx + 1
    ensures r.1 == num + Count(adj[..idx + 1], puesto) - Count(adj[..i], puesto)
    decreases idx + 1 - i
  {
    if i > idx then (i, num)
    else
      assert adj[..i + 1][..i] == adj[..i];
      ViLoop(adj, puesto, idx, i + 1, if adj[i].pue == puesto then num + 1 else num)
  }

  /** `vi` as written (dist/maps/adjofer/map.js:814-826) for initial
      vacancies `vi` of the post at `idx`: the loop counts the adjudications
      of that post up to `idx`, but the answer compares the loop index, so
      it is the position of the adjudication in the whole list, and not the
      count, that is compared with the vacancies. */
  function ViAsWritten(idx: nat, adj: seq<Adj>, vi: int): (remove: bool)
    requires idx < |adj|
    ensures remove <==> idx + 1 > vi
  {
    var (i, num) := ViLoop(adj, adj[idx].pue, idx, 0, 0);
    i > vi
  }

  /** `vi` as evidently intended: the adjudication is not for an initial
      vacancy when more adjudications of its post than there were initial
      vacancies come up to and including it. */
  function Vi(idx: nat, adj: seq<Adj>, vi: int): (r: bool)
    requires idx < |adj|
    ensures r <==> |set i | 0 <= i < idx + 1 && adj[i].pue == adj[idx].pue| > vi
  {
    CountPrefixIsSet(adj, adj[idx].pue, idx + 1);
    Count(adj[..idx + 1], adj[idx].pue) > vi
  }

  /** `Count` on a prefix is the number of its positions that hold the post. */
  lemma CountPrefixIsSet(adj: seq<Adj>, p: string, n: nat)
    requires n <= |adj|
    ensures Count(adj[..n], p) == |set i | 0 <= i < n && adj[i].pue == p|
  {
    var t := adj[..n];
    CountIsSet(t, p);
    assert (set i | 0 <= i < |t| && t[i].pue == p) == (set i | 0 <= i < n && adj[i].pue == p);
  }

  /** `Count` is the number of positions that hold the post. */
  lemma {:induction false} CountIsSet(adj: seq<Adj>, p: string)
    ensures Count(adj, p) == |set i | 0 <= i < |adj| && adj[i].pue == p|
  {
    if |adj| > 0 {
      CountIsSet(adj[..|adj| - 1], p);
      PositionsSnoc(adj, p);
    }
  }

  /** The positions holding the post are those of the list without its
      last element, and the last one if it holds the post. */
  lemma PositionsSnoc(adj: seq<Adj>, p: string)
    requires |adj| > 0
    ensures var n := |adj| - 1;
            |set i | 0 <= i < |adj| && adj[i].pue == p|
            == |set i | 0 <= i < n && adj[..n][i].pue == p| + (if adj[n].pue == p then 1 else 0)
  {
    var n := |adj| - 1;
    var s := adj[..n];
    var lo := set i | 0 <= i < n && s[i].pue == p;
    var all := set i | 0 <= i < |adj| && adj[i].pue == p;
    if adj[n].pue == p {
      assert all == lo + {n};
      assert n !in lo;
    } else {
      assert all == lo;
    }
  }

  /** Within one post, once an adjudication is past the initial vacancies,
      so is every later one. */
  lemma ViMonotone(i: nat, j: nat, adj: seq<Adj>, vi: int)
    requires i < j < |adj| && adj[i].pue == adj[j].pue
    ensures Vi(i, adj, vi) ==> Vi(j, adj, vi)
  {
    CountPrefixGrows(adj, adj[i].pue, i + 1, j + 1);
  }

  lemma {:induction false} CountPrefixGrows(adj: seq<Adj>, p: string, a: nat, b: nat)
    requires a <= b <= |adj|
    ensures Count(adj[..a], p) <= Count(adj[..b], p)
    decreases b - a
  {
    if a < b {
      CountPrefixGrows(adj, p, a, b - 1);
      assert adj[..b][..b - 1] == adj[..b - 1];
    }
  }

  /** The discrepancy: the second adjudication of the list is the first of
      its post, and with one initial vacancy it is within the vacancies, yet
      the code as written removes it. */
  lemma ViAsWrittenCountsPositions()
    ensures var adj := [Adj("A"), Adj("B")];
            Count(adj[..2], "B") == 1 && ViAsWritten(1, adj, 1) && !Vi(1, adj, 1)
  {
    var adj := [Adj("A"), Adj("B")];
    assert adj[..2] == adj;
    assert adj[..1] == [Adj("A")];
    assert [Adj("A")][..0] == [];
  }
}
