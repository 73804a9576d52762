/** The number theory behind the client's message ids: divisibility, primality, and squares modulo a prime. */
module NumberTheory {

  // ----- Divisibility -----

  function Mul(a: int, b: int): int {
    a * b
  }

  ghost predicate Div(d: int, n: int) {
    exists k {:trigger Mul(d, k)} :: Mul(d, k) == n
  }

  lemma DivBy(d: int, k: int)
    ensures Div(d, d * k)
  {
    assert Mul(d, k) == d * k;
  }

  lemma Quotient(d: int, n: int) returns (k: int)
    requires Div(d, n)
    ensures d * k == n
  {
    k :| Mul(d, k) == n;
  }

  /** A divisor divides every combination of what it divides. */
  lemma DivCombine(d: int, a: int, x: int, b: int, y: int)
    requires Div(d, a) && Div(d, b)
    ensures Div(d, a * x + b * y)
  {
    var j := Quotient(d, a);
    var k := Quotient(d, b);
    assert a * x + b * y == d * (j * x + k * y);
    DivBy(d, j * x + k * y);
  }

  lemma DivTransitive(a: int, b: int, c: int)
    requires Div(a, b) && Div(b, c)
    ensures Div(a, c)
  {
    var j := Quotient(a, b);
    var k := Quotient(b, c);
    assert c == a * (j * k);
    DivBy(a, j * k);
  }

  lemma DivBounds(d: int, n: int)
    requires Div(d, n) && d > 0 && n != 0
    ensures d <= if n > 0 then n else -n
  {
    var k := Quotient(d, n);
    if k > 0 { assert d * k >= d; } else { assert k < 0; assert d * (-k) >= d; }
  }

  lemma DivMod(d: int, n: int)
    requires d > 0
    ensures Div(d, n) <==> n % d == 0
    ensures Div(d, n - n % d)
  {
    DivBy(d, n / d);
    if Div(d, n) {
      var k := Quotient(d, n);
      ModOfMultiple(d, k);
    }
  }

  lemma SmallMultiple(d: int, t: int)
    requires d > 0 && -d < d * t < d
    ensures t == 0
  {
    if t >= 1 { MulAtLeast(d, t); }
    if t <= -1 { MulAtLeast(d, -t); }
  }

  lemma MulAtLeast(d: int, t: int)
    requires d >= 0 && t >= 1
    ensures d * t >= d
  {
    assert d * t == d + d * (t - 1);
  }

  lemma ModOfMultiple(d: int, k: int)
    requires d > 0
    ensures (d * k) % d == 0
  {
    var n := d * k;
    assert d * (k - n / d) == n - d * (n / d) == n % d;
    SmallMultiple(d, k - n / d);
  }

  /** Equal remainders, as divisibility of the difference. */
  lemma SameRemainder(d: int, a: int, b: int)
    requires d > 0
    ensures a % d == b % d <==> Div(d, a - b)
  {
    var p, q := a / d, b / d;
    assert a == d * p + a % d && b == d * q + b % d;
    if a % d == b % d {
      assert a - b == d * (p - q);
      DivBy(d, p - q);
    }
    if Div(d, a - b) {
      var k := Quotient(d, a - b);
      assert d * (k - p + q) == a % d - b % d;
      SmallMultiple(d, k - p + q);
    }
  }

  // ----- Primes -----

  ghost predicate IsPrime(p: int) {
    p > 1 && forall d :: 1 < d < p ==> !Div(d, p)
  }

  lemma {:induction false} Bezout(a: nat, b: nat) returns (u: int, v: int, g: nat)
    ensures g == u * a + v * b && Div(g, a) && Div(g, b)
    ensures a > 0 || b > 0 ==> g > 0
    decreases b
  {
    if b == 0 {
      u, v, g := 1, 0, a;
      DivBy(a, 1);
      DivBy(a, 0);
    } else {
      var s, t;
      s, t, g := Bezout(b, a % b);
      u, v := t, s - t * (a / b);
      assert a == b * (a / b) + a % b;
      assert g == s * b + t * (a - b * (a / b)) == u * a + v * b;
      DivCombine(g, b, a / b, a % b, 1);
    }
  }

  lemma Inverse(p: int, y: int) returns (z: int)
    requires IsPrime(p) && 0 < y < p
    ensures Div(p, y * z - 1)
  {
    var u, v, g := Bezout(y, p);
    DivBounds(g, y);
    assert g == 1;
    z := u;
    assert y * z - 1 == p * (-v);
    DivBy(p, -v);
  }

  lemma Euclid(p: int, a: int, b: int)
    requires IsPrime(p) && Div(p, a * b)
    ensures Div(p, a) || Div(p, b)
  {
    DivMod(p, a);
    if !Div(p, a) {
      var r := a % p;
      var z := Inverse(p, r);
      assert b == (a * b) * z - (a - r) * (b * z) - (r * z - 1) * b;
      DivCombine(p, a * b, z, a - r, -(b * z));
      DivCombine(p, (a * b) * z + (a - r) * -(b * z), 1, r * z - 1, -b);
      assert ((a * b) * z + (a - r) * -(b * z)) * 1 + (r * z - 1) * -b == b;
    }
  }

  // ----- No number that is 3 modulo 4 divides a square plus one -----

  lemma {:induction false} NeverDividesSquarePlusOne(m: int, a: int)
    requires m > 0 && m % 4 == 3
    ensures !Div(m, a * a + 1)
    decreases m
  {
    if Div(m, a * a + 1) {
      var c := SmallRoot(m, a);
      var k := Quotient(m, c * c + 1);
      SmallerCofactor(m, c, k);
      if c % 2 == 0 {
        EvenCase(m, c / 2, k);
        assert c * c + 1 == k * m;
        DivBy(k, m);
        NeverDividesSquarePlusOne(k, c);
      } else {
        var h := OddCase(m, c / 2, k);
        HalfCofactor(m, c, k, h);
        NeverDividesSquarePlusOne(h, c);
      }
    }
  }

  lemma HalfCofactor(m: int, c: int, k: int, h: int)
    requires m * k == c * c + 1 && k == 2 * h
    ensures Div(h, c * c + 1)
  {
    assert c * c + 1 == h * (2 * m);
    DivBy(h, 2 * m);
  }

  lemma SmallRoot(m: int, a: int) returns (c: int)
    requires m > 0 && Div(m, a * a + 1)
    ensures -m <= 2 * c <= m && Div(m, c * c + 1)
  {
    var r := a % m;
    DivMod(m, a);
    c := r;
    if 2 * r > m {
      c := r - m;
      DivBy(m, 1);
      DivCombine(m, a - r, 1, m * 1, 1);
    }
    assert Div(m, a - c);
    SquareOfCongruent(m, a, c);
  }

  lemma SquareOfCongruent(m: int, a: int, c: int)
    requires Div(m, a * a + 1) && Div(m, a - c)
    ensures Div(m, c * c + 1)
  {
    DivCombine(m, a * a + 1, 1, a - c, -(a + c));
    assert (a * a + 1) * 1 + (a - c) * -(a + c) == c * c + 1;
  }

  lemma SmallerCofactor(m: int, c: int, k: int)
    requires m >= 3 && -m <= 2 * c <= m && m * k == c * c + 1
    ensures 0 < k < m
  {
    SquareBound(m, 2 * c);
    assert (2 * c) * (2 * c) == 4 * (c * c);
    assert c * c >= 0;
    assert m * (k - m) == m * k - m * m && (k >= m ==> m * (k - m) >= 0);
    assert m * (1 - k) == m - m * k && (k < 1 ==> m * (1 - k) >= m);
  }

  lemma SquareBound(m: int, x: int)
    requires -m <= x <= m
    ensures x * x <= m * m
  {
    assert m * m - x * x == (m - x) * (m + x);
  }

  lemma EvenCase(m: int, e: int, k: int)
    requires m % 4 == 3 && m * k == (2 * e) * (2 * e) + 1
    ensures k % 4 == 3
  {
    var t := m / 4;
    assert (4 * t + 3) * k == 4 * (t * k) + 3 * k;
    assert (2 * e) * (2 * e) == 4 * (e * e);
    ThreeModFour(t * k, k, 2 * (e * e));
  }

  lemma OddCase(m: int, e: int, k: int) returns (h: int)
    requires m % 4 == 3 && m * k == (2 * e + 1) * (2 * e + 1) + 1
    ensures k == 2 * h && h % 4 == 3
  {
    var t, x := m / 4, e * e + e;
    assert (4 * t + 3) * k == 4 * (t * k) + 3 * k;
    assert (2 * e + 1) * (2 * e + 1) + 1 == 4 * x + 2;
    h := HalfOf(t * k, k, x);
    assert t * k == 2 * (t * h) by { assert t * (2 * h) == 2 * (t * h); }
    ConsecutiveProductEven(e);
    ThreeModFour(t * h, h, x);
  }

  lemma HalfOf(a: int, k: int, x: int) returns (h: int)
    requires 4 * a + 3 * k == 4 * x + 2
    ensures k == 2 * h
  {
    h := 2 * x + 1 - 2 * a - k;
  }

  lemma ThreeModFour(a: int, h: int, x: int)
    requires 4 * a + 3 * h == 2 * x + 1 && x % 2 == 0
    ensures h % 4 == 3
  {
    var y := x / 2;
    assert x == 2 * y;
    assert h == 4 * (h - y + a - 1) + 3;
  }

  lemma ConsecutiveProductEven(e: int)
    ensures (e * e + e) % 2 == 0
  {
    var f := e / 2;
    if e % 2 == 0 {
      assert e * e == (2 * f) * (2 * f) == 2 * (2 * (f * f));
    } else {
      assert e * e == (2 * f + 1) * (2 * f + 1) == 2 * (2 * (f * f) + 2 * f) + 1;
    }
  }

  /** Modulo a prime that is 3 modulo 4, two squares never cancel unless both are zero. */
  lemma SquaresDoNotCancel(p: int, x: int, y: int)
    requires IsPrime(p) && p % 4 == 3 && 0 < y < p
    ensures !Div(p, x * x + y * y)
  {
    if Div(p, x * x + y * y) {
      var z := Inverse(p, y);
      var w := x * z;
      assert w * w + 1 == (x * x + y * y) * (z * z) + (y * z - 1) * -(y * z + 1);
      DivCombine(p, x * x + y * y, z * z, y * z - 1, -(y * z + 1));
      NeverDividesSquarePlusOne(p, w);
    }
  }

  // ----- Powers -----

  function Product(xs: seq<int>): int {
    if xs == [] then 1 else xs[0] * Product(xs[1..])
  }

  /** The product of e copies of b. */
  function Pow(b: int, e: nat): int {
    Product(seq(e, i => b))
  }

  lemma PowStep(b: int, e: nat)
    ensures Pow(b, 0) == 1
    ensures Pow(b, e + 1) == b * Pow(b, e)
  {
    assert seq(e + 1, i => b)[1..] == seq(e, i => b);
  }

  lemma {:induction false} PowAdd(b: int, i: nat, j: nat)
    ensures Pow(b, i + j) == Pow(b, i) * Pow(b, j)
  {
    PowStep(b, j);
    if i > 0 {
      PowStep(b, i - 1);
      PowStep(b, i - 1 + j);
      PowAdd(b, i - 1, j);
      assert b * (Pow(b, i - 1) * Pow(b, j)) == (b * Pow(b, i - 1)) * Pow(b, j);
    }
  }

  lemma {:induction false} PowDifference(d: int, b: int, i: nat, j: nat)
    requires j <= i && Div(d, Pow(b, i) - 1) && Div(d, Pow(b, j) - 1)
    ensures Div(d, Pow(b, i - j) - 1)
  {
    PowAdd(b, i - j, j);
    DivOfFactor(d, Pow(b, i - j), Pow(b, j), Pow(b, i));
  }

  lemma DivOfFactor(d: int, x: int, y: int, z: int)
    requires z == x * y && Div(d, z - 1) && Div(d, y - 1)
    ensures Div(d, x - 1)
  {
    DivCombine(d, z - 1, 1, y - 1, -x);
    assert (y - 1) * -x == x - x * y;
  }

  /** If b^i and b^j are 1 modulo d then so is b^g for a common divisor g of i and j. */
  lemma {:induction false} OrderGcd(d: int, b: int, i: nat, j: nat) returns (g: nat)
    requires 0 < i && 0 < j && Div(d, Pow(b, i) - 1) && Div(d, Pow(b, j) - 1)
    ensures 0 < g <= i && g <= j && Div(g, i) && Div(g, j) && Div(d, Pow(b, g) - 1)
    decreases i + j
  {
    if i == j {
      g := i;
      DivBy(g, 1);
    } else if i > j {
      PowDifference(d, b, i, j);
      g := OrderGcd(d, b, i - j, j);
      DivCombine(g, i - j, 1, j, 1);
    } else {
      PowDifference(d, b, j, i);
      g := OrderGcd(d, b, i, j - i);
      DivCombine(g, j - i, 1, i, 1);
    }
  }

  /** 1 is a power's remainder whenever its exponent is a multiple of one with that remainder. */
  lemma {:induction false} PowOfMultiple(d: int, b: int, g: nat, k: nat)
    requires Div(d, Pow(b, g) - 1)
    ensures Div(d, Pow(b, g * k) - 1)
    decreases k
  {
    if k == 0 {
      assert g * k == 0;
      PowStep(b, 0);
      DivBy(d, 0);
    } else {
      PowOfMultiple(d, b, g, k - 1);
      assert g * k == g + g * (k - 1);
      PowAdd(b, g, g * (k - 1));
      var r := Pow(b, g * (k - 1));
      DivCombine(d, Pow(b, g) - 1, r, r - 1, 1);
      assert (Pow(b, g) - 1) * r + (r - 1) * 1 == Pow(b, g * k) - 1;
    }
  }

  lemma {:induction false} Pigeonhole(s: seq<int>, d: nat)
    requires forall i :: 0 <= i < |s| ==> 0 <= s[i] < d
    requires forall i, j :: 0 <= i < j < |s| ==> s[i] != s[j]
    ensures |s| <= d
    decreases d
  {
    assert |s| > 0 ==> 0 <= s[0] < d;
    if d == 0 {
    } else if i :| 0 <= i < |s| && s[i] == d - 1 {
      Pigeonhole(s[..i] + s[i + 1..], d - 1);
    } else {
      Pigeonhole(s, d - 1);
    }
  }

  /**
   * A certificate on divisors, after Pocklington: b^m is 1 modulo n, b^e - 1 is invertible modulo n,
   * and every proper divisor of m divides e. Then b has order m modulo each divisor d > 1 of n, so
   * the powers of b give d at least m remainders.
   */
  lemma DivisorsAreLarge(n: int, b: int, m: nat, e: nat, w: int, d: int)
    requires m > 0 && Div(n, Pow(b, m) - 1) && Div(n, (Pow(b, e) - 1) * w - 1)
    requires forall g :: 0 < g < m && Div(g, m) ==> Div(g, e)
    requires d > 1 && Div(d, n)
    ensures m <= d
  {
    DivTransitive(d, n, Pow(b, m) - 1);
    forall j | 0 < j < m ensures !Div(d, Pow(b, j) - 1) {
      OrderIsFull(n, b, m, e, w, d, j);
    }
    var powers := seq(m, i requires 0 <= i < m => Pow(b, i) % d);
    forall i, j | 0 <= i < j < m ensures powers[i] != powers[j] {
      if powers[i] == powers[j] { EqualPowers(d, b, m, i, j); }
    }
    Pigeonhole(powers, d);
  }

  lemma OrderIsFull(n: int, b: int, m: nat, e: nat, w: int, d: int, j: nat)
    requires 0 < j < m && Div(d, Pow(b, m) - 1) && Div(n, (Pow(b, e) - 1) * w - 1)
    requires forall g :: 0 < g < m && Div(g, m) ==> Div(g, e)
    requires d > 1 && Div(d, n)
    ensures !Div(d, Pow(b, j) - 1)
  {
    if Div(d, Pow(b, j) - 1) {
      var g := OrderGcd(d, b, m, j);
      var k := NonNegativeQuotient(g, e);
      PowOfMultiple(d, b, g, k);
      DivTransitive(d, n, (Pow(b, e) - 1) * w - 1);
      DivCombine(d, Pow(b, e) - 1, w, (Pow(b, e) - 1) * w - 1, -1);
      assert (Pow(b, e) - 1) * w + ((Pow(b, e) - 1) * w - 1) * -1 == 1;
      DivBounds(d, 1);
    }
  }

  lemma NonNegativeQuotient(g: nat, e: nat) returns (k: nat)
    requires g > 0 && Div(g, e)
    ensures g * k == e
  {
    var q := Quotient(g, e);
    assert q < 0 ==> g * -q >= g by { if q < 0 { MulAtLeast(g, -q); } }
    k := q;
  }

  lemma EqualPowers(d: int, b: int, m: nat, i: nat, j: nat)
    requires d > 0 && i < j < m && Div(d, Pow(b, m) - 1) && Pow(b, i) % d == Pow(b, j) % d
    ensures Div(d, Pow(b, j - i) - 1)
  {
    SameRemainder(d, Pow(b, j), Pow(b, i));
    PowAdd(b, i, j - i);
    PowAdd(b, m - i, i);
    var x, y, z := Pow(b, i), Pow(b, j - i), Pow(b, m - i);
    assert (x * y - x) * z + (z * x - 1) * -(y - 1) == y - 1;
    DivCombine(d, Pow(b, j) - Pow(b, i), z, Pow(b, m) - 1, -(y - 1));
  }

  /** With m above the square root of n, such a certificate proves n prime. */
  lemma CertifiedPrime(n: int, b: int, m: nat, e: nat, w: int)
    requires n > 1 && m * m > n
    requires m > 0 && Div(n, Pow(b, m) - 1) && Div(n, (Pow(b, e) - 1) * w - 1)
    requires forall g :: 0 < g < m && Div(g, m) ==> Div(g, e)
    ensures IsPrime(n)
  {
    forall d | 1 < d < n ensures !Div(d, n) {
      if Div(d, n) {
        var k := Cofactor(n, d);
        DivisorsAreLarge(n, b, m, e, w, d);
        DivisorsAreLarge(n, b, m, e, w, k);
        ProductAtLeast(m, d, k);
      }
    }
  }

  lemma Cofactor(n: int, d: int) returns (k: int)
    requires 1 < d < n && Div(d, n)
    ensures k > 1 && d * k == n && Div(k, n)
  {
    k := Quotient(d, n);
    assert d * (1 - k) == d - n;
    assert k <= 1 ==> d * (1 - k) >= 0;
    assert k * d == n;
    DivBy(k, d);
  }

  lemma ProductAtLeast(m: int, a: int, b: int)
    requires 0 <= m <= a && m <= b
    ensures a * b >= m * m
  {
    assert m * (b - m) >= 0 && (a - m) * b >= 0;
    assert a * b == m * m + m * (b - m) + (a - m) * b;
  }
}
