/** Conversion between sRGB channels in [0, 255] and hue, saturation, lightness, over the reals. */
module Color {

  datatype Rgb = Rgb(r: real, g: real, b: real)

  datatype Hsl = Hsl(h: real, s: real, l: real)

  function Max3(x: real, y: real, z: real): (m: real)
    ensures m >= x && m >= y && m >= z && (m == x || m == y || m == z)
  {
    var xy := if x >= y then x else y;
    if xy >= z then xy else z
  }

  function Min3(x: real, y: real, z: real): (m: real)
    ensures m <= x && m <= y && m <= z && (m == x || m == y || m == z)
  {
    var xy := if x <= y then x else y;
    if xy <= z then xy else z
  }

  /** `Math.round`. */
  function Round(x: real): int {
    (x + 0.5).Floor
  }

  /** The remainder of division by 360 with JavaScript's sign: that of the dividend. */
  function Remainder360(x: real): real {
    var quotient := x / 360.0;
    var truncated := if quotient >= 0.0 then quotient.Floor else -((-quotient).Floor);
    x - 360.0 * truncated as real
  }

  // ----- The two conversions -----

  /** `rgbToHsl` on channels already divided by 255. */
  function UnitToHsl(x: real, y: real, z: real): Hsl
    requires 0.0 <= x <= 1.0 && 0.0 <= y <= 1.0 && 0.0 <= z <= 1.0
  {
    var max, min := Max3(x, y, z), Min3(x, y, z);
    var l, d := (max + min) / 2.0, max - min;
    if d == 0.0 then Hsl(0.0, 0.0, l)
    else
      var s := if l > 0.5 then d / (2.0 - max - min) else d / (max + min);
      var h :=
        if max == x then ((y - z) / d + (if y < z then 6.0 else 0.0)) * 60.0
        else if max == y then ((z - x) / d + 2.0) * 60.0
        else ((x - y) / d + 4.0) * 60.0;
      Hsl(h, s, l)
  }

  predicate IsColor(c: Rgb) {
    0.0 <= c.r <= 255.0 && 0.0 <= c.g <= 255.0 && 0.0 <= c.b <= 255.0
  }

  function RgbToHsl(c: Rgb): Hsl
    requires IsColor(c)
  {
    UnitToHsl(c.r / 255.0, c.g / 255.0, c.b / 255.0)
  }

  /** The channel at position `t` of the hue circle, which may be off by one turn. */
  function Channel(p: real, q: real, t: real): real {
    var t := if t < 0.0 then t + 1.0 else t;
    var t := if t > 1.0 then t - 1.0 else t;
    if t < 1.0 / 6.0 then p + (q - p) * 6.0 * t
    else if t < 1.0 / 2.0 then q
    else if t < 2.0 / 3.0 then p + (q - p) * (2.0 / 3.0 - t) * 6.0
    else p
  }

  function Wrap(h: real): real {
    Remainder360(Remainder360(h) + 360.0)
  }

  /** The larger of the two bounds of the channels. */
  function Upper(s: real, l: real): real {
    if l < 0.5 then l * (1.0 + s) else l + s - l * s
  }

  /** The channels of a colour, between 0 and 1. */
  function HslToUnit(c: Hsl): Rgb {
    var hn := Wrap(c.h) / 360.0;
    if c.s == 0.0 then Rgb(c.l, c.l, c.l)
    else
      var q := Upper(c.s, c.l);
      var p := 2.0 * c.l - q;
      Rgb(Channel(p, q, hn + 1.0 / 3.0), Channel(p, q, hn), Channel(p, q, hn - 1.0 / 3.0))
  }

  /** `hslToRgb` before it rounds. */
  function HslToExactRgb(c: Hsl): Rgb {
    var e := HslToUnit(c);
    Rgb(e.r * 255.0, e.g * 255.0, e.b * 255.0)
  }

  function HslToRgb(c: Hsl): (int, int, int) {
    var e := HslToExactRgb(c);
    (Round(e.r), Round(e.g), Round(e.b))
  }

  // ----- The hue circle -----

  /** Within one turn below zero and two above, the remainder takes off a whole turn or nothing. */
  lemma RemainderNear(h: real)
    requires -360.0 < h < 720.0
    ensures Remainder360(h) == if h >= 360.0 then h - 360.0 else h
  {
    var quotient := h / 360.0;
    assert quotient >= 1.0 ==> quotient.Floor == 1;
    assert 0.0 <= quotient < 1.0 ==> quotient.Floor == 0;
    assert quotient < 0.0 ==> (-quotient).Floor == 0;
  }

  lemma RemainderSign(h: real, turns: int)
    requires turns == (h / 360.0).Floor
    ensures h >= 0.0 ==> Remainder360(h) == h - 360.0 * turns as real && 0.0 <= Remainder360(h) < 360.0
    ensures h < 0.0 ==> -360.0 < Remainder360(h) <= 0.0
    ensures h < 0.0 ==>
        Remainder360(h) == h - 360.0 * turns as real - (if h == 360.0 * turns as real then 0.0 else 360.0)
  {
    var quotient := h / 360.0;
    assert turns as real <= quotient < turns as real + 1.0;
    if h < 0.0 {
      var down := (-quotient).Floor;
      assert down as real <= -quotient < down as real + 1.0;
      assert down == -turns || down == -turns - 1;
    }
  }

  /** The wrapped hue is the one angle of [0, 360) a whole number of turns away. */
  lemma WrapMeaning(h: real)
    ensures 0.0 <= Wrap(h) < 360.0
    ensures Wrap(h) == h - 360.0 * (h / 360.0).Floor as real
  {
    RemainderSign(h, (h / 360.0).Floor);
    RemainderNear(Remainder360(h) + 360.0);
  }

  lemma FloorShift(x: real, k: int)
    ensures (x + k as real).Floor == x.Floor + k
  {
  }

  /** `hslToRgb` has period 360 in the hue. */
  lemma HueIsPeriodic(c: Hsl, turns: int)
    ensures HslToExactRgb(c.(h := c.h + 360.0 * turns as real)) == HslToExactRgb(c)
    ensures HslToRgb(c.(h := c.h + 360.0 * turns as real)) == HslToRgb(c)
  {
    var h := c.h + 360.0 * turns as real;
    WrapMeaning(c.h);
    WrapMeaning(h);
    assert h / 360.0 == c.h / 360.0 + turns as real;
    FloorShift(c.h / 360.0, turns);
  }

  lemma Quotient(x: real, d: real)
    requires d > 0.0
    ensures d * (x / d) == x
    ensures 0.0 <= x ==> 0.0 <= x / d
    ensures x <= 0.0 ==> x / d <= 0.0
    ensures x <= d ==> x / d <= 1.0
    ensures -d <= x ==> -1.0 <= x / d
    ensures x < d ==> x / d < 1.0
    ensures x < 0.0 ==> x / d < 0.0
  {
    var w := x / d;
    assert d * w == x;
    Compare(d, w, x, 0.0, 0.0);
    Compare(d, w, x, 1.0, d);
    Compare(d, w, x, -1.0, -d);
  }

  /** Dividing by a positive number keeps the order. */
  lemma Compare(d: real, w: real, x: real, v: real, y: real)
    requires d > 0.0 && d * w == x && d * v == y
    ensures x <= y <==> w <= v
    ensures x < y <==> w < v
  {
    Monotone(d, w, v);
  }

  lemma Monotone(d: real, w: real, v: real)
    requires d > 0.0
    ensures d * w <= d * v <==> w <= v
    ensures d * w < d * v <==> w < v
    ensures d * w == d * v <==> w == v
  {
    if w < v { assert d * (v - w) > 0.0; }
    if v < w { assert d * (w - v) > 0.0; }
  }

  /** The channel in sixths of a turn: a ramp up, a plateau, a ramp down, a floor. */
  lemma ChannelInSixths(p: real, q: real, u: real)
    requires -2.0 <= u < 8.0
    ensures var v := if u < 0.0 then u + 6.0 else if u > 6.0 then u - 6.0 else u;
            Channel(p, q, u / 6.0) ==
            if v < 1.0 then p + (q - p) * v else if v < 3.0 then q else if v < 4.0 then p + (q - p) * (4.0 - v) else p
  {
    var v := if u < 0.0 then u + 6.0 else if u > 6.0 then u - 6.0 else u;
    var t := v / 6.0;
    assert (q - p) * 6.0 * t == (q - p) * v by { Reassociate(q - p, t); }
    assert (q - p) * (2.0 / 3.0 - t) * 6.0 == (q - p) * (4.0 - v) by { Reassociate(q - p, 2.0 / 3.0 - t); }
  }

  lemma Reassociate(d: real, t: real)
    ensures d * 6.0 * t == d * (6.0 * t)
    ensures d * t * 6.0 == d * (6.0 * t)
  {
  }

  /** How far up its ramp the middle channel is, the circle being six ramps up and down in turn. */
  function RampPosition(u: real): real {
    if u < 1.0 then u else if u < 2.0 then 2.0 - u else if u < 3.0 then u - 2.0
    else if u < 4.0 then 4.0 - u else if u < 5.0 then u - 4.0 else 6.0 - u
  }

  /** The channels by sector: one at the top, one at the bottom, and `m` on the ramp between them. */
  function Placed(p: real, q: real, u: real, m: real): Rgb {
    if u < 1.0 then Rgb(q, m, p)
    else if u < 2.0 then Rgb(m, q, p)
    else if u < 3.0 then Rgb(p, q, m)
    else if u < 4.0 then Rgb(p, m, q)
    else if u < 5.0 then Rgb(m, p, q)
    else Rgb(q, p, m)
  }

  function Sectors(p: real, q: real, u: real): Rgb {
    Placed(p, q, u, p + (q - p) * RampPosition(u))
  }

  lemma ChannelsAreSectors(p: real, q: real, u: real)
    requires 0.0 <= u < 6.0
    ensures Sectors(p, q, u) ==
            Rgb(Channel(p, q, u / 6.0 + 1.0 / 3.0), Channel(p, q, u / 6.0), Channel(p, q, u / 6.0 - 1.0 / 3.0))
  {
    assert u / 6.0 + 1.0 / 3.0 == (u + 2.0) / 6.0 && u / 6.0 - 1.0 / 3.0 == (u - 2.0) / 6.0;
    ChannelInSixths(p, q, u + 2.0);
    ChannelInSixths(p, q, u);
    ChannelInSixths(p, q, u - 2.0);
    assert (q - p) * 0.0 == 0.0 && (q - p) * 1.0 == q - p;
  }

  /** A colour with any saturation is a point of the sectors. */
  lemma UnitIsSectors(c: Hsl)
    requires c.s != 0.0
    ensures HslToUnit(c) == Sectors(2.0 * c.l - Upper(c.s, c.l), Upper(c.s, c.l), Wrap(c.h) / 60.0)
  {
    WrapMeaning(c.h);
    var u := Wrap(c.h) / 60.0;
    assert Wrap(c.h) / 360.0 == u / 6.0;
    ChannelsAreSectors(2.0 * c.l - Upper(c.s, c.l), Upper(c.s, c.l), u);
  }

  // ----- From RGB and back -----

  /** Saturation and lightness determine the largest and smallest channel. */
  lemma SaturationFixesBounds(max: real, min: real)
    requires 0.0 <= min < max <= 1.0
    ensures var l := (max + min) / 2.0;
            var s := if l > 0.5 then (max - min) / (2.0 - max - min) else (max - min) / (max + min);
            0.0 < s <= 1.0 && Upper(s, l) == max && 2.0 * l - Upper(s, l) == min
  {
    var l, d := (max + min) / 2.0, max - min;
    var span := if l > 0.5 then 2.0 - max - min else max + min;
    Quotient(d, span);
    var s := d / span;
    assert span * s == d;
    if s <= 0.0 { Monotone(span, s, 0.0); }
    if l > 0.5 {
      assert l + s - l * s == l + (1.0 - l) * s;
      assert (2.0 - max - min) * s == 2.0 * ((1.0 - l) * s);
    } else {
      assert (max + min) * s == 2.0 * (l * s);
      assert l * (1.0 + s) == l + l * s;
    }
  }

  /** The hue puts the three channels back where they were between the bounds: first sector and last. */
  lemma RedIsMax(x: real, y: real, z: real, p: real)
    requires p == Min3(x, y, z) < x == Max3(x, y, z)
    ensures var u := (y - z) / (x - p) + (if y < z then 6.0 else 0.0);
            0.0 <= u < 6.0 && Sectors(p, x, u) == Rgb(x, y, z)
  {
    var d := x - p;
    var w := (y - z) / d;
    Quotient(y - z, d);
    var u := w + (if y < z then 6.0 else 0.0);
    if y < z {
      assert d * (6.0 - u) == d * -w == z - y;
    } else if u == 1.0 {
      assert d * w == d;
    }
  }

  lemma GreenIsMax(x: real, y: real, z: real, p: real)
    requires p == Min3(x, y, z) < y == Max3(x, y, z) && x < y
    ensures var u := (z - x) / (y - p) + 2.0;
            0.0 <= u < 6.0 && Sectors(p, y, u) == Rgb(x, y, z)
  {
    var d := y - p;
    var w := (z - x) / d;
    Quotient(z - x, d);
    var u := w + 2.0;
    if z < x { assert d * (2.0 - u) == d * -w == x - z; }
    if w == -1.0 || w == 1.0 { assert d * w == if w == 1.0 then d else -d; }
  }

  lemma BlueIsMax(x: real, y: real, z: real, p: real)
    requires p == Min3(x, y, z) < z == Max3(x, y, z) && x < z && y < z
    ensures var u := (x - y) / (z - p) + 4.0;
            0.0 <= u < 6.0 && Sectors(p, z, u) == Rgb(x, y, z)
  {
    var d := z - p;
    var w := (x - y) / d;
    Quotient(x - y, d);
    var u := w + 4.0;
    if x < y { assert d * (4.0 - u) == d * -w == y - x; }
  }

  lemma HueFixesChannels(x: real, y: real, z: real)
    requires 0.0 <= x <= 1.0 && 0.0 <= y <= 1.0 && 0.0 <= z <= 1.0
    requires Max3(x, y, z) > Min3(x, y, z)
    ensures var c := UnitToHsl(x, y, z);
            0.0 <= c.h < 360.0 && Sectors(Min3(x, y, z), Max3(x, y, z), c.h / 60.0) == Rgb(x, y, z)
  {
    var max, min := Max3(x, y, z), Min3(x, y, z);
    if max == x { RedIsMax(x, y, z, min); }
    else if max == y { GreenIsMax(x, y, z, min); }
    else { BlueIsMax(x, y, z, min); }
  }

  /**
   * What the three numbers mean: the lightness is midway between the greatest and the least channel, the
   * saturation the share their distance has of the greatest possible at that lightness, and the hue
   * within a sixth of a turn of the greatest channel: red at 0, green at 120, blue at 240.
   */
  lemma UnitMeaning(x: real, y: real, z: real)
    requires 0.0 <= x <= 1.0 && 0.0 <= y <= 1.0 && 0.0 <= z <= 1.0
    ensures var e, max, min := UnitToHsl(x, y, z), Max3(x, y, z), Min3(x, y, z);
            && 2.0 * e.l == max + min
            && (max == min ==> e.h == 0.0 && e.s == 0.0)
            && (max != min ==> e.s * (if max + min > 1.0 then 2.0 - (max + min) else max + min) == max - min)
            && (max != min && x == max ==> 0.0 <= e.h <= 60.0 || 300.0 <= e.h < 360.0)
            && (max != min && y == max ==> 60.0 <= e.h <= 180.0)
            && (max != min && z == max ==> 180.0 <= e.h <= 300.0)
  {
    if Max3(x, y, z) != Min3(x, y, z) {
      SaturationMeaning(x, y, z);
      HueMeaning(x, y, z);
    }
  }

  lemma SaturationMeaning(x: real, y: real, z: real)
    requires 0.0 <= x <= 1.0 && 0.0 <= y <= 1.0 && 0.0 <= z <= 1.0 && Max3(x, y, z) != Min3(x, y, z)
    ensures var e, max, min := UnitToHsl(x, y, z), Max3(x, y, z), Min3(x, y, z);
            e.s * (if max + min > 1.0 then 2.0 - (max + min) else max + min) == max - min
  {
    var max, min := Max3(x, y, z), Min3(x, y, z);
    if max + min > 1.0 {
      ShareOfRoom(max - min, 2.0 - (max + min), 2.0 - max - min);
    } else {
      ShareOfRoom(max - min, max + min, max + min);
    }
  }

  lemma ShareOfRoom(d: real, room: real, same: real)
    requires d > 0.0 && room > 0.0 && same == room
    ensures (d / same) * room == d
  {
    Quotient(d, room);
  }

  lemma HueMeaning(x: real, y: real, z: real)
    requires 0.0 <= x <= 1.0 && 0.0 <= y <= 1.0 && 0.0 <= z <= 1.0 && Max3(x, y, z) != Min3(x, y, z)
    ensures var h, max := UnitToHsl(x, y, z).h, Max3(x, y, z);
            && (x == max ==> 0.0 <= h <= 60.0 || 300.0 <= h < 360.0)
            && (y == max ==> 60.0 <= h <= 180.0)
            && (z == max ==> 180.0 <= h <= 300.0)
  {
    var h, max, d := UnitToHsl(x, y, z).h, Max3(x, y, z), Max3(x, y, z) - Min3(x, y, z);
    if x == max {
      var w := (y - z) / d;
      Quotient(y - z, d);
      assert h == (w + (if y < z then 6.0 else 0.0)) * 60.0;
      assert y == x ==> w == 1.0 by { Ratio(y - z, d); }
      assert z == x ==> w == -1.0 by { Ratio(y - z, d); }
    } else if y == max {
      var w := (z - x) / d;
      Quotient(z - x, d);
      assert h == (w + 2.0) * 60.0;
      assert z == y ==> w == 1.0 by { Ratio(z - x, d); }
    } else {
      var w := (x - y) / d;
      Quotient(x - y, d);
      assert h == (w + 4.0) * 60.0;
    }
  }

  lemma Ratio(x: real, d: real)
    requires d > 0.0
    ensures x == d ==> x / d == 1.0
    ensures x == -d ==> x / d == -1.0
  {
  }

  lemma WrapOfWrapped(h: real)
    requires 0.0 <= h < 360.0
    ensures Wrap(h) == h
  {
    WrapMeaning(h);
    assert (h / 360.0).Floor == 0;
  }

  predicate IsUnit(c: Rgb) {
    0.0 <= c.r <= 1.0 && 0.0 <= c.g <= 1.0 && 0.0 <= c.b <= 1.0
  }

  lemma UnitRoundTrip(c: Rgb)
    requires IsUnit(c)
    ensures var e := UnitToHsl(c.r, c.g, c.b);
            0.0 <= e.h < 360.0 && 0.0 <= e.s <= 1.0 && 0.0 <= e.l <= 1.0 && HslToUnit(e) == c
  {
    var max, min := Max3(c.r, c.g, c.b), Min3(c.r, c.g, c.b);
    if max > min {
      SaturationFixesBounds(max, min);
      HueFixesChannels(c.r, c.g, c.b);
      var e := UnitToHsl(c.r, c.g, c.b);
      WrapOfWrapped(e.h);
      UnitIsSectors(e);
    }
  }

  /** `rgbToHsl` stays in its stated ranges, and `hslToRgb` before rounding undoes it for every colour. */
  lemma RgbRoundTrip(c: Rgb)
    requires IsColor(c)
    ensures var e := RgbToHsl(c); 0.0 <= e.h < 360.0 && 0.0 <= e.s <= 1.0 && 0.0 <= e.l <= 1.0
    ensures HslToExactRgb(RgbToHsl(c)) == c
  {
    UnitRoundTrip(Rgb(c.r / 255.0, c.g / 255.0, c.b / 255.0));
  }

  lemma RoundsToWhole(c: Hsl, r: int, g: int, b: int)
    requires HslToExactRgb(c) == Rgb(r as real, g as real, b as real)
    ensures HslToRgb(c) == (r, g, b)
  {
    var e := HslToExactRgb(c);
    RoundWhole(r);
    RoundWhole(g);
    RoundWhole(b);
  }

  /** `y` is the whole number next to `x`, the greater one if both are as near. */
  predicate IsNearest(x: real, y: int) {
    -0.5 < y as real - x <= 0.5
  }

  /** Rounding takes each channel to the nearest whole number. */
  lemma RoundsToNearest(c: Hsl)
    ensures var e, w := HslToExactRgb(c), HslToRgb(c);
            IsNearest(e.r, w.0) && IsNearest(e.g, w.1) && IsNearest(e.b, w.2)
  {
    var e := HslToExactRgb(c);
    RoundMeaning(e.r);
    RoundMeaning(e.g);
    RoundMeaning(e.b);
  }

  lemma RoundMeaning(x: real)
    ensures IsNearest(x, Round(x))
  {
  }

  lemma RoundWhole(n: int)
    ensures Round(n as real) == n
  {
  }

  /** On whole channels the rounded conversion is exact as well. */
  lemma WholeRgbRoundTrip(r: int, g: int, b: int)
    requires 0 <= r <= 255 && 0 <= g <= 255 && 0 <= b <= 255
    ensures HslToRgb(RgbToHsl(Rgb(r as real, g as real, b as real))) == (r, g, b)
  {
    var c := Rgb(r as real, g as real, b as real);
    RgbRoundTrip(c);
    RoundsToWhole(RgbToHsl(c), r, g, b);
  }

  // ----- From HSL and back -----

  lemma ScaledQuotient(d: real, w: real)
    requires d != 0.0
    ensures (d * w) / d == w
  {
  }

  /** The upper bound lies above the lightness by the saturation's share of the room there is. */
  lemma UpperIsShareOfRoom(s: real, l: real, room: real)
    requires room == if l < 0.5 then l else 1.0 - l
    ensures Upper(s, l) == l + room * s
  {
    if l < 0.5 {
      assert l * (1.0 + s) == l + l * s;
    } else {
      assert (1.0 - l) * s == s - l * s;
    }
  }

  /** The bounds of a saturated colour, from which its saturation and lightness come back. */
  lemma BoundsFixSaturation(s: real, l: real)
    requires 0.0 < s <= 1.0 && 0.0 < l < 1.0
    ensures var q := Upper(s, l);
            var p := 2.0 * l - q;
            0.0 <= p < q <= 1.0 && s == if l > 0.5 then (q - p) / (2.0 - q - p) else (q - p) / (q + p)
  {
    var room := if l < 0.5 then l else 1.0 - l;
    UpperIsShareOfRoom(s, l, room);
    var rise := room * s;
    Rise(room, s, rise);
    Doubled(rise, room);
  }

  lemma Doubled(x: real, d: real)
    requires d > 0.0
    ensures (2.0 * x) / (2.0 * d) == x / d
  {
    assert d * (x / d) == x;
    QuotientIs(2.0 * x, 2.0 * d, x / d);
  }

  lemma QuotientIs(x: real, d: real, w: real)
    requires d != 0.0 && x == d * w
    ensures x / d == w
  {
    ScaledQuotient(d, w);
  }

  /** `m` is the fraction `w` of the way from `p` up to `q`, told by comparisons and quotients alone. */
  ghost predicate IsRampPoint(p: real, q: real, w: real, m: real) {
    && 0.0 <= p <= m <= q <= 1.0 && p < q && 0.0 <= w <= 1.0
    && (m == p <==> w == 0.0) && (m == q <==> w == 1.0)
    && (m - p) / (q - p) == w && (p - m) / (q - p) == -w
    && (q - p) / (q - p) == 1.0
  }

  lemma Rise(d: real, w: real, r: real)
    requires d > 0.0 && 0.0 <= w <= 1.0 && r == d * w
    ensures 0.0 <= r <= d && (r == 0.0 <==> w == 0.0) && (r == d <==> w == 1.0)
    ensures r / d == w && -r / d == -w && d / d == 1.0
  {
    Monotone(d, w, 0.0);
    Monotone(d, w, 1.0);
    assert -r == d * -w;
    QuotientIs(-r, d, -w);
  }

  lemma RampPoint(p: real, q: real, w: real, m: real)
    requires 0.0 <= p < q <= 1.0 && 0.0 <= w <= 1.0 && m == p + (q - p) * w
    ensures IsRampPoint(p, q, w, m)
  {
    Rise(q - p, w, m - p);
    assert p - m == -(m - p);
  }

  /** The colour with these bounds and this hue, in sixths of a turn. */
  function FromBounds(p: real, q: real, u: real): Hsl
    requires 0.0 <= p < q <= 1.0
  {
    Hsl(60.0 * u, if (q + p) / 2.0 > 0.5 then (q - p) / (2.0 - q - p) else (q - p) / (q + p), (q + p) / 2.0)
  }

  /** In every sector the hue comes back from the three channels, and the bounds are the two outer ones. */
  lemma PlacedHue(p: real, q: real, u: real, m: real)
    requires 0.0 <= u < 6.0 && IsRampPoint(p, q, RampPosition(u), m)
    ensures var e := Placed(p, q, u, m); IsUnit(e) && UnitToHsl(e.r, e.g, e.b) == FromBounds(p, q, u)
  {
  }

  lemma SectorsArePlaced(e: Rgb, p: real, q: real, u: real)
    requires e == Sectors(p, q, u) && 0.0 <= u < 6.0 && 0.0 <= p < q <= 1.0
    ensures exists m :: IsRampPoint(p, q, RampPosition(u), m) && e == Placed(p, q, u, m)
  {
    RampPoint(p, q, RampPosition(u), p + (q - p) * RampPosition(u));
  }

  lemma SectorsFixHsl(e: Rgb, p: real, q: real, u: real)
    requires e == Sectors(p, q, u) && 0.0 <= u < 6.0 && 0.0 <= p < q <= 1.0
    ensures IsUnit(e) && UnitToHsl(e.r, e.g, e.b) == FromBounds(p, q, u)
  {
    SectorsArePlaced(e, p, q, u);
    var m :| IsRampPoint(p, q, RampPosition(u), m) && e == Placed(p, q, u, m);
    PlacedHue(p, q, u, m);
  }

  lemma SaturatedRoundTrip(c: Hsl)
    requires 0.0 < c.s <= 1.0 && 0.0 < c.l < 1.0
    ensures var e := HslToUnit(c); IsUnit(e) && UnitToHsl(e.r, e.g, e.b) == Hsl(Wrap(c.h), c.s, c.l)
  {
    WrapMeaning(c.h);
    BoundsFixSaturation(c.s, c.l);
    UnitIsSectors(c);
    SectorsFixHsl(HslToUnit(c), 2.0 * c.l - Upper(c.s, c.l), Upper(c.s, c.l), Wrap(c.h) / 60.0);
  }

  /** Grey, black and white are the same in every hue. */
  lemma FlatRoundTrip(c: Hsl)
    requires 0.0 <= c.s <= 1.0 && 0.0 <= c.l <= 1.0
    requires c.s == 0.0 || c.l == 0.0 || c.l == 1.0
    ensures var e := HslToUnit(c); IsUnit(e) && UnitToHsl(e.r, e.g, e.b) == Hsl(0.0, 0.0, c.l)
  {
    if c.s != 0.0 {
      UnitIsSectors(c);
      assert Upper(c.s, c.l) == c.l;
      assert (c.l - c.l) * 0.0 == 0.0;
      assert Sectors(c.l, c.l, Wrap(c.h) / 60.0) == Rgb(c.l, c.l, c.l);
    }
  }

  /**
   * What survives the way to RGB and back. Grey, black and white lose their hue, black and white
   * their saturation too; every other colour comes back with its hue wrapped.
   */
  lemma HslRoundTrip(c: Hsl)
    requires 0.0 <= c.s <= 1.0 && 0.0 <= c.l <= 1.0
    ensures IsColor(HslToExactRgb(c))
    ensures RgbToHsl(HslToExactRgb(c)) ==
            if c.s == 0.0 || c.l == 0.0 || c.l == 1.0 then Hsl(0.0, 0.0, c.l) else Hsl(Wrap(c.h), c.s, c.l)
  {
    if c.s == 0.0 || c.l == 0.0 || c.l == 1.0 { FlatRoundTrip(c); } else { SaturatedRoundTrip(c); }
    Unscale(HslToUnit(c));
  }

  lemma Unscale(e: Rgb)
    requires IsUnit(e)
    ensures IsColor(Rgb(e.r * 255.0, e.g * 255.0, e.b * 255.0))
    ensures RgbToHsl(Rgb(e.r * 255.0, e.g * 255.0, e.b * 255.0)) == UnitToHsl(e.r, e.g, e.b)
  {
    assert e.r * 255.0 / 255.0 == e.r && e.g * 255.0 / 255.0 == e.g && e.b * 255.0 / 255.0 == e.b;
  }

  /** So the way to RGB and back is the identity exactly on wrapped hues of saturated colours and on hueless greys. */
  lemma HslRoundTripExactly(c: Hsl)
    requires 0.0 <= c.s <= 1.0 && 0.0 <= c.l <= 1.0
    ensures IsColor(HslToExactRgb(c))
    ensures RgbToHsl(HslToExactRgb(c)) == c <==>
            if c.s == 0.0 then c.h == 0.0 else 0.0 < c.l < 1.0 && 0.0 <= c.h < 360.0
  {
    HslRoundTrip(c);
    WrapMeaning(c.h);
    if 0.0 <= c.h < 360.0 { WrapOfWrapped(c.h); }
  }
}
