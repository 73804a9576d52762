/** CSS hex colours: printing channels, and the lenient reading of what may be a hex colour. */
module HexColor {
  import opened Common
  import opened Color

  // ----- Printing -----

  function HexDigit(d: nat): char
    requires d < 16
  {
    ['0', '1', '2', '3', '4', '5', '6', '7', '8', '9', 'a', 'b', 'c', 'd', 'e', 'f'][d]
  }

  /** `toString(16)`. */
  function HexString(n: nat): string {
    if n < 16 then [HexDigit(n)] else HexString(n / 16) + [HexDigit(n % 16)]
  }

  function Clamp(x: real): (v: nat)
    ensures v <= 255
  {
    var r := Round(x);
    if r < 0 then 0 else if r > 255 then 255 else r
  }

  /** `padStart(2, "0")` of what is not empty. */
  function Pad(digits: string): string {
    if |digits| == 1 then "0" + digits else digits
  }

  function ToHex(x: real): string {
    Pad(HexString(Clamp(x)))
  }

  function RgbToHex(c: Rgb): string {
    "#" + ToHex(c.r) + ToHex(c.g) + ToHex(c.b)
  }

  // ----- Reading -----

  function DigitValue(c: char): Option<nat> {
    if '0' <= c <= '9' then Some(c as nat - '0' as nat)
    else if 'a' <= c <= 'f' then Some(c as nat - 'a' as nat + 10)
    else if 'A' <= c <= 'F' then Some(c as nat - 'A' as nat + 10)
    else None
  }

  predicate IsHex(c: char) {
    DigitValue(c).Some?
  }

  /** White space `parseInt` skips; the characters beyond Latin-1 it skips too are not told apart here. */
  predicate IsSpace(c: char) {
    c in " \t\n\r" || c == 11 as char || c == 12 as char || c == 160 as char
  }

  function Signed(sign: char, v: int): int {
    if sign == '-' then -v else v
  }

  /**
   * `parseInt` to base 16 of two characters: it skips a space, takes a sign or a prefix, and stops
   * at the first non-digit.
   */
  function ParsePair(c: char, d: char): Option<int> {
    if IsSpace(c) || c == '+' || c == '-' then
      match DigitValue(d)
      case None => None
      case Some(v) => Some(Signed(c, v))
    else if c == '0' && d in "xX" then None
    else
      match DigitValue(c)
      case None => None
      case Some(u) =>
        match DigitValue(d)
        case None => Some(u)
        case Some(v) => Some(16 * u + v)
  }

  function Triple(r: Option<int>, g: Option<int>, b: Option<int>): Option<(int, int, int)> {
    if r.Some? && g.Some? && b.Some? then Some((r.value, g.value, b.value)) else None
  }

  function Body(input: string): string {
    if |input| > 0 && input[0] == '#' then input[1..] else input
  }

  function ParseHex(input: string): Option<(int, int, int)> {
    var s := Body(input);
    if |s| == 3 || |s| == 4 then
      Triple(ParsePair(s[0], s[0]), ParsePair(s[1], s[1]), ParsePair(s[2], s[2]))
    else if |s| == 6 || |s| == 8 then
      Triple(ParsePair(s[0], s[1]), ParsePair(s[2], s[3]), ParsePair(s[4], s[5]))
    else None
  }

  // ----- What reading does with what printing gives -----

  lemma DigitRoundTrip(d: nat)
    requires d < 16
    ensures DigitValue(HexDigit(d)) == Some(d) && !IsSpace(HexDigit(d)) && HexDigit(d) !in "+-xX"
  {
  }

  lemma TwoDigits(v: nat)
    requires v < 256
    ensures Pad(HexString(v)) == [HexDigit(v / 16), HexDigit(v % 16)]
  {
    if v >= 16 { assert HexString(v / 16) == [HexDigit(v / 16)]; }
  }

  lemma PairRoundTrip(u: nat, v: nat)
    requires u < 16 && v < 16
    ensures ParsePair(HexDigit(u), HexDigit(v)) == Some(16 * u + v)
  {
    DigitRoundTrip(u);
    DigitRoundTrip(v);
  }

  lemma ToHexRoundTrip(x: real)
    ensures |ToHex(x)| == 2 && ParsePair(ToHex(x)[0], ToHex(x)[1]) == Some(Clamp(x))
  {
    var v := Clamp(x);
    TwoDigits(v);
    PairRoundTrip(v / 16, v % 16);
  }

  lemma ParseLong(r: string, g: string, b: string)
    requires |r| == 2 && |g| == 2 && |b| == 2
    ensures ParseHex("#" + r + g + b) ==
            Triple(ParsePair(r[0], r[1]), ParsePair(g[0], g[1]), ParsePair(b[0], b[1]))
  {
    var s := r + g + b;
    assert "#" + r + g + b == "#" + s;
    assert Body("#" + s) == s;
  }

  /** Reading a printed colour gives its channels rounded and clamped. */
  lemma HexRoundTrip(c: Rgb)
    ensures ParseHex(RgbToHex(c)) == Some((Clamp(c.r), Clamp(c.g), Clamp(c.b)))
  {
    ToHexRoundTrip(c.r);
    ToHexRoundTrip(c.g);
    ToHexRoundTrip(c.b);
    ParseLong(ToHex(c.r), ToHex(c.g), ToHex(c.b));
  }

  /** Of a colour, the whole channels nearest to its own. */
  lemma PrintedIsNearest(c: Rgb)
    requires IsColor(c)
    ensures var read := ParseHex(RgbToHex(c));
            && read.Some?
            && IsNearest(c.r, read.value.0) && IsNearest(c.g, read.value.1) && IsNearest(c.b, read.value.2)
  {
    HexRoundTrip(c);
    RoundMeaning(c.r);
    RoundMeaning(c.g);
    RoundMeaning(c.b);
  }

  /** Of whole channels in range, it gives those themselves. */
  lemma WholeHexRoundTrip(r: int, g: int, b: int)
    requires 0 <= r <= 255 && 0 <= g <= 255 && 0 <= b <= 255
    ensures ParseHex(RgbToHex(Rgb(r as real, g as real, b as real))) == Some((r, g, b))
  {
    HexRoundTrip(Rgb(r as real, g as real, b as real));
    RoundWhole(r);
    RoundWhole(g);
    RoundWhole(b);
  }

  // ----- What is read as a colour -----

  /** Two hex digits, or one that `parseInt` can make out. */
  predicate Readable(c: char, d: char) {
    (IsHex(c) && !(c == '0' && d in "xX")) || ((IsSpace(c) || c in "+-") && IsHex(d))
  }

  /**
   * The documentation promises `null` for what is no hex literal. The short forms are read exactly
   * when their three colour digits are hexadecimal; the long forms already when each pair starts
   * with a digit that is not half of `0x`, or holds one after a space or a sign.
   */
  lemma ReadExactly(input: string)
    ensures var s := Body(input);
            ParseHex(input).Some? <==>
            if |s| == 3 || |s| == 4 then IsHex(s[0]) && IsHex(s[1]) && IsHex(s[2])
            else (|s| == 6 || |s| == 8) && Readable(s[0], s[1]) && Readable(s[2], s[3]) && Readable(s[4], s[5])
  {
    forall c: char ensures ParsePair(c, c).Some? <==> IsHex(c) {}
    forall c: char, d: char ensures ParsePair(c, d).Some? <==> Readable(c, d) {}
  }

  /** So some strings that are no hex literals are read as colours. */
  lemma ReadsNonLiterals()
    ensures !IsHex('g') && ParseHex("#1g1g1g") == Some((1, 1, 1))
  {
    assert Body("#1g1g1g") == "1g1g1g";
  }

  /** The short form of a colour stands for the long form with every digit doubled. */
  lemma ShortFormDoublesDigits(r: char, g: char, b: char)
    requires IsHex(r) && IsHex(g) && IsHex(b)
    ensures ParseHex(['#', r, g, b]) == ParseHex(['#', r, r, g, g, b, b])
    ensures ParseHex(['#', r, g, b]) ==
            Some((17 * DigitValue(r).value, 17 * DigitValue(g).value, 17 * DigitValue(b).value))
  {
    assert Body(['#', r, g, b]) == [r, g, b];
    assert Body(['#', r, r, g, g, b, b]) == [r, r, g, g, b, b];
  }
}
