/** `rgb2hex` (dist/maps/adjofer/map.js:104-107): an RGB triple as the CSS
    colour `#rrggbb`, each component written as
    `("0" + dec.toString(16)).slice(-2)`. */
module Colors {
  import opened Base
  import opened Numerals

  /** One component: the last two characters of "0" followed by its hex
      digits. Those are the two hex digits of the component modulo 256, so
      a component above 255 loses its high digits. */
  function Pad2(n: nat): (s: string)
    ensures s == [DigitChar((n % 256) / 16), DigitChar(n % 16)]
  {
    var t := "0" + ToBase(n, 16);
    Pad2Digits(n);
    t[|t| - 2..]
  }

  /** Division by 16 is determined by quotient and remainder. */
  lemma Div16(n: nat, q: nat, r: nat)
    requires n == 16 * q + r && r < 16
    ensures n / 16 == q && n % 16 == r
  {
  }

  /** The hex digits of `n % 256` are the last two digits of `n`. */
  lemma ByteDigits(n: nat)
    ensures (n % 256) / 16 == (n / 16) % 16
    ensures (n % 256) / 16 * 16 + n % 16 == n % 256
  {
    var q, r := n / 256, n % 256;
    assert n == 256 * q + r && r < 256;
    var a, b := r / 16, r % 16;
    assert r == 16 * a + b && b < 16 && a < 16;
    Div16(n, 16 * q + a, b);
    Div16(16 * q + a, q, a);
  }

  lemma Pad2Digits(n: nat)
    ensures var t := "0" + ToBase(n, 16);
            t[|t| - 2..] == [DigitChar((n % 256) / 16), DigitChar(n % 16)]
  {
    if n < 16 {
      Div16(n, 0, n);
      assert n % 256 == n;
      Pad2Small(n);
    } else {
      ByteDigits(n);
      Pad2Large(n);
    }
  }

  /** A one-digit number is padded with '0'. */
  lemma Pad2Small(n: nat)
    requires n < 16
    ensures var t := "0" + ToBase(n, 16);
            t[|t| - 2..] == [DigitChar(0), DigitChar(n)]
  {
    assert ToBase(n, 16) == [DigitChar(n)];
  }

  /** A longer number keeps its last two digits. */
  lemma Pad2Large(n: nat)
    requires n >= 16
    ensures var t := "0" + ToBase(n, 16);
            t[|t| - 2..] == [DigitChar((n / 16) % 16), DigitChar(n % 16)]
  {
    var p := ToBase(n / 16, 16);
    ToBaseSnocAny(n, 16);
    LastDigit(n / 16);
    var t := "0" + p + [DigitChar(n % 16)];
    assert t[|t| - 2] == p[|p| - 1];
  }

  /** The last hex digit written for `n` is the digit of `n % 16`. */
  lemma LastDigit(n: nat)
    ensures var s := ToBase(n, 16); s[|s| - 1] == DigitChar(n % 16)
  {
    if n >= 16 {
      ToBaseSnocAny(n, 16);
    }
  }

  /** The components joined after "#". */
  function Hex(rgb: seq<nat>): (s: string)
    ensures |s| == 2 * |rgb|
    ensures AllDigits(s, 16)
  {
    if |rgb| == 0 then ""
    else
      var p := Pad2(rgb[0]);
      var rest := Hex(rgb[1..]);
      var s := p + rest;
      assert IsDigit(s[0], 16) && IsDigit(s[1], 16);
      assert forall i :: 2 <= i < |s| ==> s[i] == rest[i - 2];
      s
  }

  /** `rgb2hex`: "#" and two hex digits per component. */
  function Rgb2Hex(rgb: seq<nat>): (s: string)
    ensures |s| == 1 + 2 * |rgb| && s[0] == '#'
    ensures AllDigits(s[1..], 16)
  {
    var s := "#" + Hex(rgb);
    assert s[1..] == Hex(rgb);
    s
  }

  /** Reading a colour back: "#" and then two hex digits per component. */
  function ParseHex(s: string): Option<seq<nat>> {
    if |s| == 0 || s[0] != '#' || |s| % 2 != 1 || !AllDigits(s[1..], 16) then None
    else Some(Pairs(s[1..]))
  }

  /** Two hex digits denote a byte. */
  lemma TwoDigitsByte(s: string)
    requires |s| == 2 && AllDigits(s, 16)
    ensures FromBase(s, 16) < 256
  {
    assert s[..1][..0] == [];
    var d0, d1 := DigitValue(s[0]), DigitValue(s[1]);
    assert FromBase(s[..1], 16) == d0;
    assert FromBase(s, 16) == d0 * 16 + d1;
    assert d0 * 16 <= 240;
  }

  function Pairs(s: string): (r: seq<nat>)
    requires |s| % 2 == 0 && AllDigits(s, 16)
    ensures |r| == |s| / 2
    ensures forall i :: 0 <= i < |r| ==> r[i] < 256
    decreases |s|
  {
    if |s| == 0 then []
    else
      assert AllDigits(s[2..], 16) && AllDigits(s[..2], 16);
      TwoDigitsByte(s[..2]);
      [FromBase(s[..2], 16)] + Pairs(s[2..])
  }

  /** Every component modulo 256. */
  function Bytes(rgb: seq<nat>): (r: seq<nat>)
    ensures |r| == |rgb| && forall i :: 0 <= i < |rgb| ==> r[i] == rgb[i] % 256
  {
    seq(|rgb|, i requires 0 <= i < |rgb| => rgb[i] % 256)
  }

  /** Read back, the colour gives each component modulo 256, so components
      in range come back unchanged. */
  lemma ParseRgb2Hex(rgb: seq<nat>)
    ensures ParseHex(Rgb2Hex(rgb)) == Some(Bytes(rgb))
    ensures (forall i :: 0 <= i < |rgb| ==> rgb[i] < 256) ==> ParseHex(Rgb2Hex(rgb)) == Some(rgb)
  {
    var h := Hex(rgb);
    Rgb2HexShape(rgb);
    ParseHexOf(h);
    PairsHex(rgb);
    if forall i :: 0 <= i < |rgb| ==> rgb[i] < 256 {
      BytesInRange(rgb);
    }
  }

  lemma Rgb2HexShape(rgb: seq<nat>)
    ensures Rgb2Hex(rgb) == "#" + Hex(rgb)
  {
  }

  /** "#" before an even run of hex digits reads back as its pairs. */
  lemma ParseHexOf(h: string)
    requires |h| % 2 == 0 && AllDigits(h, 16)
    ensures ParseHex("#" + h) == Some(Pairs(h))
  {
    var s := "#" + h;
    assert !(|s| == 0 || s[0] != '#' || |s| % 2 != 1 || !AllDigits(s[1..], 16)) by {
      assert s[1..] == h;
    }
    assert ParseHex(s) == Some(Pairs(s[1..]));
    assert s[1..] == h;
  }

  /** Components below 256 are their own bytes. */
  lemma BytesInRange(rgb: seq<nat>)
    requires forall i :: 0 <= i < |rgb| ==> rgb[i] < 256
    ensures Bytes(rgb) == rgb
  {
    assert forall i :: 0 <= i < |rgb| ==> Bytes(rgb)[i] == rgb[i];
  }

  lemma {:induction false} PairsHex(rgb: seq<nat>)
    ensures Pairs(Hex(rgb)) == Bytes(rgb)
    decreases |rgb|
  {
    if |rgb| > 0 {
      HexStep(rgb);
      PairsSplit(Hex(rgb));
      PairsHex(rgb[1..]);
      BytesCons(rgb);
    }
  }

  /** Reading a run of digits reads its first pair and then the rest. */
  lemma PairsSplit(h: string)
    requires |h| >= 2 && |h| % 2 == 0 && AllDigits(h, 16)
    ensures AllDigits(h[..2], 16) && AllDigits(h[2..], 16)
    ensures Pairs(h) == [FromBase(h[..2], 16)] + Pairs(h[2..])
  {
  }

  /** The first two digits of the colour are the first component, modulo
      256, and the rest are the other components. */
  lemma HexStep(rgb: seq<nat>)
    requires |rgb| > 0
    ensures var h := Hex(rgb);
            |h| >= 2 && AllDigits(h[..2], 16) && FromBase(h[..2], 16) == rgb[0] % 256
            && h[2..] == Hex(rgb[1..])
  {
    var h, x := Hex(rgb), Pad2(rgb[0]);
    HexCons(rgb);
    Pad2Value(rgb[0]);
    assert h[..2] == x && h[2..] == Hex(rgb[1..]);
  }

  lemma HexCons(rgb: seq<nat>)
    requires |rgb| > 0
    ensures Hex(rgb) == Pad2(rgb[0]) + Hex(rgb[1..])
  {
  }

  lemma BytesCons(rgb: seq<nat>)
    requires |rgb| > 0
    ensures Bytes(rgb) == [rgb[0] % 256] + Bytes(rgb[1..])
  {
  }

  /** One padded component reads back as the component modulo 256. */
  lemma Pad2Value(n: nat)
    ensures AllDigits(Pad2(n), 16) && FromBase(Pad2(n), 16) == n % 256
  {
    FromTwoDigits((n % 256) / 16, n % 16);
    ByteDigits(n);
  }
}
