/**
 * `hexToRgb` and `rgbToHex`: a colour as "#rrggbb" and as three channels.
 */
module Colors {
  import opened Wrappers

  datatype Rgb = Rgb(r: nat, g: nat, b: nat)

  /** A lower-case hexadecimal digit, as `Number.prototype.toString(16)` writes it. */
  function HexDigit(d: nat): char
    requires d < 16
  {
    if d < 10 then ('0' as int + d) as char else ('a' as int + d - 10) as char
  }

  /** One character of `[a-f\d]` under the case-insensitive flag, with its `parseInt(…, 16)` value. */
  function HexValue(c: char): Option<nat>
  {
    if '0' <= c <= '9' then Some(c as int - '0' as int)
    else if 'a' <= c <= 'f' then Some(c as int - 'a' as int + 10)
    else if 'A' <= c <= 'F' then Some(c as int - 'A' as int + 10)
    else None
  }

  predicate IsHexChar(c: char)
  {
    HexValue(c).Some?
  }

  /** `n.toString(16)`: lower-case digits, most significant first, no leading zeros. */
  function Hex(n: nat): (s: string)
    ensures |s| >= 1
  {
    if n < 16 then [HexDigit(n)] else Hex(n / 16) + [HexDigit(n % 16)]
  }

  /** `rgbToHex`: `(1 << 24) + (r << 16) + (g << 8) + b` in hex, its leading "1" cut off. */
  function RgbToHex(r: int, g: int, b: int): (hex: string)
    requires 0 <= r <= 255 && 0 <= g <= 255 && 0 <= b <= 255
  {
    "#" + Hex(16777216 + r * 65536 + g * 256 + b)[1..]
  }

  /** The six characters after an optional leading `#`. */
  function Digits(hex: string): string
  {
    if |hex| > 0 && hex[0] == '#' then hex[1..] else hex
  }

  /** The channel a pair of hex characters denotes. */
  function PairValue(hi: char, lo: char): Option<nat>
  {
    match (HexValue(hi), HexValue(lo))
    case (Some(h), Some(l)) => Some(16 * h + l)
    case _ => None
  }

  /** `hexToRgb`: `/^#?([a-f\d]{2})([a-f\d]{2})([a-f\d]{2})$/i`, each pair read base 16; `null` otherwise. */
  function HexToRgb(hex: string): (rgb: Option<Rgb>)
    ensures rgb.Some? <==> |Digits(hex)| == 6 && forall i :: 0 <= i < 6 ==> IsHexChar(Digits(hex)[i])
    ensures rgb.Some? ==> rgb.value.r <= 255 && rgb.value.g <= 255 && rgb.value.b <= 255
  {
    var d := Digits(hex);
    if |d| != 6 then None
    else
      match (PairValue(d[0], d[1]), PairValue(d[2], d[3]), PairValue(d[4], d[5]))
      case (Some(r), Some(g), Some(b)) => Some(Rgb(r, g, b))
      case _ => None
  }

  predicate HexDigits(ds: seq<nat>)
  {
    forall i :: 0 <= i < |ds| ==> ds[i] < 16
  }

  /** The number whose base-16 digits are `ds`, most significant first. */
  function ValueOf(ds: seq<nat>): nat
    requires HexDigits(ds)
  {
    if ds == [] then 0 else 16 * ValueOf(ds[..|ds| - 1]) + ds[|ds| - 1]
  }

  lemma ValueOfSnoc(ds: seq<nat>, d: nat)
    requires HexDigits(ds) && d < 16
    ensures HexDigits(ds + [d]) && ValueOf(ds + [d]) == 16 * ValueOf(ds) + d
  {
    assert (ds + [d])[..|ds|] == ds;
  }

  /** Without a leading zero, `toString(16)` writes exactly the digits a number was built from. */
  lemma {:induction false} HexOfValue(ds: seq<nat>)
    requires HexDigits(ds) && |ds| >= 1 && ds[0] != 0
    ensures ValueOf(ds) >= 1
    ensures |Hex(ValueOf(ds))| == |ds|
    ensures forall i :: 0 <= i < |ds| ==> Hex(ValueOf(ds))[i] == HexDigit(ds[i])
  {
    var n := ValueOf(ds);
    if |ds| > 1 {
      var front := ds[..|ds| - 1];
      HexOfValue(front);
      assert n / 16 == ValueOf(front) && n % 16 == ds[|ds| - 1];
    }
  }

  /** `(1 << 24) + (r << 16) + (g << 8) + b` is the number with digits 1, r, g, b in base 16. */
  lemma ColourValue(r: nat, g: nat, b: nat)
    requires r <= 255 && g <= 255 && b <= 255
    ensures var ds := [1, r / 16, r % 16, g / 16, g % 16, b / 16, b % 16];
      HexDigits(ds) && ValueOf(ds) == 16777216 + r * 65536 + g * 256 + b
  {
    var r1, r0, g1, g0, b1, b0 := r / 16, r % 16, g / 16, g % 16, b / 16, b % 16;
    assert r == 16 * r1 + r0 && g == 16 * g1 + g0 && b == 16 * b1 + b0;
    var d1 := [1];
    assert HexDigits(d1) && ValueOf(d1) == 1 by {
      assert d1[..0] == [];
    }
    var d2 := d1 + [r1];
    ValueOfSnoc(d1, r1);
    var d3 := d2 + [r0];
    ValueOfSnoc(d2, r0);
    assert ValueOf(d3) == 256 + r;
    var d4 := d3 + [g1];
    ValueOfSnoc(d3, g1);
    var d5 := d4 + [g0];
    ValueOfSnoc(d4, g0);
    assert ValueOf(d5) == 65536 + 256 * r + g;
    var d6 := d5 + [b1];
    ValueOfSnoc(d5, b1);
    var d7 := d6 + [b0];
    ValueOfSnoc(d6, b0);
    assert ValueOf(d7) == 16777216 + 65536 * r + 256 * g + b;
    assert d7 == [1, r1, r0, g1, g0, b1, b0];
  }

  /** The seven hex digits of `(1 << 24) + (r << 16) + (g << 8) + b`: a "1", then two per channel. */
  lemma HexOfColour(r: nat, g: nat, b: nat)
    requires r <= 255 && g <= 255 && b <= 255
    ensures Hex(16777216 + r * 65536 + g * 256 + b)
      == ['1', HexDigit(r / 16), HexDigit(r % 16), HexDigit(g / 16), HexDigit(g % 16),
          HexDigit(b / 16), HexDigit(b % 16)]
  {
    ColourValue(r, g, b);
    HexOfSevenDigits([1, r / 16, r % 16, g / 16, g % 16, b / 16, b % 16]);
  }

  lemma HexOfSevenDigits(ds: seq<nat>)
    requires HexDigits(ds) && |ds| == 7 && ds[0] == 1
    ensures Hex(ValueOf(ds)) == ['1', HexDigit(ds[1]), HexDigit(ds[2]), HexDigit(ds[3]), HexDigit(ds[4]),
                                 HexDigit(ds[5]), HexDigit(ds[6])]
  {
    HexOfValue(ds);
    var h := Hex(ValueOf(ds));
    assert h[0] == HexDigit(1) == '1';
  }

  /** `rgbToHex` yields "#" and two lower-case hex digits per channel. */
  lemma RgbToHexDigits(r: nat, g: nat, b: nat)
    requires r <= 255 && g <= 255 && b <= 255
    ensures RgbToHex(r, g, b)
      == ['#', HexDigit(r / 16), HexDigit(r % 16), HexDigit(g / 16), HexDigit(g % 16),
          HexDigit(b / 16), HexDigit(b % 16)]
  {
    HexOfColour(r, g, b);
  }

  lemma HexDigitValue(d: nat)
    requires d < 16
    ensures HexValue(HexDigit(d)) == Some(d)
  {
  }

  /** A channel written as two digits reads back as itself. */
  lemma PairOfDigits(v: nat)
    requires v <= 255
    ensures PairValue(HexDigit(v / 16), HexDigit(v % 16)) == Some(v)
  {
    HexDigitValue(v / 16);
    HexDigitValue(v % 16);
  }

  /** Encoding a colour and decoding it again gives the colour back. */
  lemma HexToRgbOfRgbToHex(r: nat, g: nat, b: nat)
    requires r <= 255 && g <= 255 && b <= 255
    ensures HexToRgb(RgbToHex(r, g, b)) == Some(Rgb(r, g, b))
  {
    var hex := RgbToHex(r, g, b);
    RgbToHexDigits(r, g, b);
    var d := Digits(hex);
    assert d == hex[1..];
    assert d == [HexDigit(r / 16), HexDigit(r % 16), HexDigit(g / 16), HexDigit(g % 16),
                 HexDigit(b / 16), HexDigit(b % 16)];
    PairOfDigits(r);
    PairOfDigits(g);
    PairOfDigits(b);
  }

  /** A hex character in the lower-case form `toString(16)` writes. */
  function LowerHexChar(c: char): char
  {
    if 'A' <= c <= 'F' then (c as int + 32) as char else c
  }

  lemma HexDigitOfValue(c: char)
    requires IsHexChar(c)
    ensures HexValue(c).value < 16 && HexDigit(HexValue(c).value) == LowerHexChar(c)
  {
  }

  lemma PairDigits(hi: char, lo: char)
    requires IsHexChar(hi) && IsHexChar(lo)
    ensures PairValue(hi, lo).Some?
    ensures var v := PairValue(hi, lo).value;
      v <= 255 && HexDigit(v / 16) == LowerHexChar(hi) && HexDigit(v % 16) == LowerHexChar(lo)
  {
    HexDigitOfValue(hi);
    HexDigitOfValue(lo);
    var h, l := HexValue(hi).value, HexValue(lo).value;
    assert (16 * h + l) / 16 == h && (16 * h + l) % 16 == l;
  }

  /**
   * Decoding and encoding again gives the input back in canonical form: with
   * the `#`, in lower case.
   */
  lemma RgbToHexOfHexToRgb(hex: string)
    requires HexToRgb(hex).Some?
    ensures var c := HexToRgb(hex).value;
      var d := Digits(hex);
      c.r <= 255 && c.g <= 255 && c.b <= 255
      && RgbToHex(c.r, c.g, c.b) == ['#'] + seq(6, i requires 0 <= i < 6 => LowerHexChar(d[i]))
  {
    var d := Digits(hex);
    assert IsHexChar(d[0]) && IsHexChar(d[1]) && IsHexChar(d[2]);
    assert IsHexChar(d[3]) && IsHexChar(d[4]) && IsHexChar(d[5]);
    PairDigits(d[0], d[1]);
    PairDigits(d[2], d[3]);
    PairDigits(d[4], d[5]);
    var c := HexToRgb(hex).value;
    RgbToHexDigits(c.r, c.g, c.b);
  }
}
