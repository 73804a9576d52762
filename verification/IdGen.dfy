/** The message id generator: a permutation of the 32-bit integers, so ids are not reused. */
module IdGen {
  import opened Common
  import opened NumberTheory

  const PRIME := 4294967291
  const U32 := 0x1_0000_0000
  const INIT_BASE := 0x682f0161
  const INIT_OFFSET := 0x46790905
  const INTERMEDIATE_XOR := 0x5bf03635

  type u32 = x: int | 0 <= x < 0x1_0000_0000

  // ----- PRIME is prime -----

  /** The large prime factor of PRIME - 1, and the square of the large prime factor of FACTOR - 1. */
  const FACTOR: nat := 22605091
  const FACTOR_BASE := 18389778
  const PRIME_BASE := 1073745729

  /** Squaring a known power modulo n: k is the quotient and r the remainder of h * h. */
  lemma PowDouble(b: int, e: nat, n: int, h: int, k: int, r: int)
    requires 0 <= r < n && Pow(b, e) % n == h && h * h == n * k + r
    ensures Pow(b, 2 * e) % n == r
  {
    PowAdd(b, e, e);
    assert e + e == 2 * e;
    Reduced(n, Pow(b, e), h);
    ProductRemainder(n, Pow(b, e), h, Pow(b, e), h);
    RemainderIs(n, h * h, k, r);
  }

  lemma PowNext(b: int, e: nat, n: int, h: int, k: int, r: int)
    requires 0 <= r < n && Pow(b, e) % n == h && h * b == n * k + r
    ensures Pow(b, e + 1) % n == r
  {
    PowStep(b, e);
    Reduced(n, Pow(b, e), h);
    ProductRemainder(n, Pow(b, e), h, b, b);
    RemainderIs(n, h * b, k, r);
  }

  lemma RemainderIs(n: int, x: int, k: int, r: int)
    requires 0 <= r < n && x == n * k + r
    ensures x % n == r
  {
    DivBy(n, k);
    SameRemainder(n, x, r);
    Reduced(n, r, r);
  }

  lemma Reduced(n: int, x: int, h: int)
    requires n > 0 && x % n == h
    ensures x % n == h % n
  {
  }

  lemma ProductRemainder(n: int, a: int, x: int, b: int, y: int)
    requires n > 0 && a % n == x % n && b % n == y % n
    ensures (a * b) % n == (x * y) % n
  {
    SameRemainder(n, a, x);
    SameRemainder(n, b, y);
    DivCombine(n, a - x, b, b - y, x);
    assert (a - x) * b + (b - y) * x == a * b - x * y;
    SameRemainder(n, a * b, x * y);
  }

  lemma FirstPower(b: int, n: int)
    requires n > 0
    ensures Pow(b, 1) % n == b % n
  {
    PowStep(b, 0);
  }

  lemma RemainderOne(n: int, x: int)
    requires n > 1 && x % n == 1
    ensures Div(n, x - 1)
  {
    SameRemainder(n, x, 1);
  }

  /** 181 is prime: no smaller number up to its square root divides it. */
  lemma SmallPrime()
    ensures IsPrime(181)
  {
    forall d | 1 < d < 181 ensures !Div(d, 181) {
      if Div(d, 181) {
        var k := Cofactor(181, d);
        DivMod(d, 181);
        DivMod(k, 181);
        NoDivisorUpTo13(if d <= 13 then d else k) by {
          if d > 13 && k > 13 { ProductAtLeast(14, d, k); }
        }
      }
    }
  }

  lemma NoDivisorUpTo13(d: int)
    requires 1 < d <= 13
    ensures 181 % d != 0
  {
  }

  lemma DivisorsOfSquare(g: int)
    requires 0 < g < 181 * 181 && Div(g, 181 * 181)
    ensures Div(g, 181)
  {
    var k := Quotient(g, 181 * 181);
    SmallPrime();
    DivBy(181, 181);
    Euclid(181, g, k);
    if Div(181, k) {
      var j := Quotient(181, k);
      assert 181 * (g * j) == 181 * 181;
      DivBy(g, j);
    } else {
      var h := Quotient(181, g);
      assert 181 * (h * k) == 181 * 181;
      DivBy(h, k);
      HalfwayDivisor(h, k);
    }
  }

  /** A divisor of the prime 181 below it is 1. */
  lemma HalfwayDivisor(h: int, k: int)
    requires 0 < h < 181 && h * k == 181
    ensures Div(181 * h, 181)
  {
    SmallPrime();
    DivBy(h, k);
    assert h == 1;
    DivBy(181, 1);
  }

  lemma FactorBaseOrder()
    ensures Pow(FACTOR_BASE, 32761) % FACTOR == 1
  {
    var b := FACTOR_BASE;
    FirstPower(b, FACTOR);
    PowDouble(b, 1, 22605091, 18389778, 14960520, 18881964);
    PowNext(b, 2, 22605091, 18881964, 15360925, 18694817);
    PowDouble(b, 3, 22605091, 18694817, 15460950, 967039);
    PowNext(b, 6, 22605091, 967039, 786709, 3991823);
    PowDouble(b, 7, 22605091, 3991823, 704914, 5746155);
    PowNext(b, 14, 22605091, 5746155, 4674633, 10446987);
    PowDouble(b, 15, 22605091, 10446987, 4828095, 10546524);
    PowNext(b, 30, 22605091, 10546524, 8579847, 12830595);
    PowDouble(b, 31, 22605091, 12830595, 7282614, 15866151);
    PowNext(b, 62, 22605091, 15866151, 12907490, 8572888);
    PowDouble(b, 63, 22605091, 8572888, 3251232, 13438432);
    PowNext(b, 126, 22605091, 13438432, 10932483, 8077143);
    PowDouble(b, 127, 22605091, 8077143, 2886086, 2378623);
    PowNext(b, 254, 22605091, 2378623, 1935066, 5894688);
    PowDouble(b, 255, 22605091, 5894688, 1537146, 21407058);
    PowNext(b, 510, 22605091, 21407058, 17415149, 16329565);
    PowDouble(b, 511, 22605091, 16329565, 11796222, 21323023);
    PowNext(b, 1022, 22605091, 21323023, 17346785, 5776459);
    PowDouble(b, 1023, 22605091, 5776459, 1476104, 13333217);
    PowNext(b, 2046, 22605091, 13333217, 10846888, 10349018);
    PowDouble(b, 2047, 22605091, 10349018, 4737966, 20979418);
    PowNext(b, 4094, 22605091, 20979418, 17067254, 9799090);
    PowDouble(b, 4095, 22605091, 9799090, 4247811, 10622299);
    PowDouble(b, 8190, 22605091, 10622299, 4991496, 14739265);
    PowDouble(b, 16380, 22605091, 14739265, 9610486, 22155999);
    PowNext(b, 32760, 22605091, 22155999, 18024431, 1);
  }

  lemma FactorBaseMiddle()
    ensures Pow(FACTOR_BASE, 181) % FACTOR == 13954217
  {
    var b := FACTOR_BASE;
    FirstPower(b, FACTOR);
    PowDouble(b, 1, 22605091, 18389778, 14960520, 18881964);
    PowDouble(b, 2, 22605091, 18881964, 15772047, 6806019);
    PowNext(b, 4, 22605091, 6806019, 5536857, 22134795);
    PowDouble(b, 5, 22605091, 22134795, 21674283, 10117272);
    PowNext(b, 10, 22605091, 10117272, 8230640, 19857376);
    PowDouble(b, 11, 22605091, 19857376, 17443653, 18167953);
    PowDouble(b, 22, 22605091, 18167953, 14601777, 18363502);
    PowNext(b, 44, 22605091, 18363502, 14939144, 15500452);
    PowDouble(b, 45, 22605091, 15500452, 10628756, 15607508);
    PowDouble(b, 90, 22605091, 15607508, 10776081, 14341693);
    PowNext(b, 180, 22605091, 14341693, 11667307, 13954217);
  }

  lemma FactorIsPrime()
    ensures IsPrime(FACTOR)
  {
    FactorBaseOrder();
    RemainderOne(FACTOR, Pow(FACTOR_BASE, 32761));
    FactorBaseMiddle();
    SameRemainder(FACTOR, Pow(FACTOR_BASE, 181), 13954217);
    var x := Pow(FACTOR_BASE, 181);
    var w := 19569746;
    DivBy(FACTOR, 12080485);
    DivCombine(FACTOR, x - 13954217, w, 13954216 * w - 1, 1);
    assert (x - 13954217) * w + (13954216 * w - 1) * 1 == (x - 1) * w - 1;
    forall g | 0 < g < 32761 && Div(g, 32761) ensures Div(g, 181) { DivisorsOfSquare(g); }
    CertifiedPrime(FACTOR, FACTOR_BASE, 32761, 181, w);
  }

  lemma PrimeBaseOrder()
    ensures Pow(PRIME_BASE, FACTOR) % PRIME == 1
  {
    var b := PRIME_BASE;
    FirstPower(b, PRIME);
    PowDouble(b, 1, 4294967291, 1073745729, 268437408, 3504919713);
    PowDouble(b, 2, 4294967291, 3504919713, 2860199243, 148041656);
    PowNext(b, 4, 4294967291, 148041656, 37010548, 2762101756);
    PowDouble(b, 5, 4294967291, 2762101756, 1776312971, 1474251975);
    PowDouble(b, 10, 4294967291, 1474251975, 506038518, 2995285887);
    PowNext(b, 20, 4294967291, 2995285887, 748824195, 4065820878);
    PowDouble(b, 21, 4294967291, 4065820878, 3848899954, 3219286270);
    PowNext(b, 42, 4294967291, 3219286270, 804824495, 1820247785);
    PowDouble(b, 43, 4294967291, 1820247785, 771438237, 3855700258);
    PowDouble(b, 86, 4294967291, 3855700258, 3461359184, 1858816020);
    PowDouble(b, 172, 4294967291, 1858816020, 804475741, 2210652769);
    PowDouble(b, 344, 4294967291, 2210652769, 1137840019, 1091548832);
    PowNext(b, 688, 4294967291, 1091548832, 272888200, 3255072328);
    PowDouble(b, 689, 4294967291, 3255072328, 2466956123, 3894166791);
    PowNext(b, 1378, 4294967291, 3894166791, 973545239, 2036108090);
    PowDouble(b, 1379, 4294967291, 2036108090, 965254418, 1360206462);
    PowNext(b, 2758, 4294967291, 1360206462, 340052852, 2579436866);
    PowDouble(b, 2759, 4294967291, 2579436866, 1549137419, 1810740027);
    PowDouble(b, 5518, 4294967291, 1810740027, 763400329, 2386321990);
    PowNext(b, 11036, 4294967291, 2386321990, 596582667, 3638735613);
    PowDouble(b, 11037, 4294967291, 3638735613, 3082770127, 177569812);
    PowNext(b, 22074, 4294967291, 177569812, 44392614, 2142344274);
    PowDouble(b, 22075, 4294967291, 2142344274, 1068608601, 164317185);
    PowDouble(b, 44150, 4294967291, 164317185, 6286459, 1505111656);
    PowNext(b, 88300, 4294967291, 1505111656, 376279282, 3827152162);
    PowDouble(b, 88301, 4294967291, 3827152162, 3410292251, 305512203);
    PowDouble(b, 176602, 4294967291, 305512203, 21731878, 999910711);
    PowDouble(b, 353204, 4294967291, 999910711, 232789067, 1505118024);
    PowNext(b, 706408, 4294967291, 1505118024, 376280874, 3852027162);
    PowDouble(b, 706409, 4294967291, 3852027162, 3454767464, 894754220);
    PowDouble(b, 1412818, 4294967291, 894754220, 186400747, 2824842023);
    PowDouble(b, 2825636, 4294967291, 2824842023, 1857926245, 3541280234);
    PowDouble(b, 5651272, 4294967291, 3541280234, 2919851269, 779252477);
    PowNext(b, 11302544, 4294967291, 779252477, 194813827, 4191888076);
    PowDouble(b, 11302545, 4294967291, 4191888076, 4091282762, 688844034);
    PowNext(b, 22605090, 4294967291, 688844034, 172211635, 1);
  }

  lemma PrimeIsPrime()
    ensures IsPrime(PRIME)
  {
    FactorIsPrime();
    PrimeBaseOrder();
    RemainderOne(PRIME, Pow(PRIME_BASE, FACTOR));
    var w := 1771216906;
    PowStep(PRIME_BASE, 0);
    DivBy(PRIME, 442805837);
    forall g | 0 < g < FACTOR && Div(g, FACTOR) ensures Div(g, 1) {
      assert g == 1;
      DivBy(1, 1);
    }
    CertifiedPrime(PRIME, PRIME_BASE, FACTOR, 1, w);
  }

  // ----- The permutation -----

  /** Maps x to plus or minus its square modulo PRIME, by which half of the range x is in. */
  function PermuteQpr(x: u32): u32 {
    if x >= PRIME then x
    else
      var residue := (x * x) % PRIME;
      if x <= PRIME / 2 then residue else PRIME - residue
  }

  /** Two numbers of one half with the same square modulo PRIME are equal. */
  lemma SameSquare(x: int, y: int)
    requires 0 <= y < x < PRIME && (x <= PRIME / 2 || y > PRIME / 2)
    ensures (x * x) % PRIME != (y * y) % PRIME
  {
    if (x * x) % PRIME == (y * y) % PRIME {
      SameRemainder(PRIME, x * x, y * y);
      assert x * x - y * y == (x - y) * (x + y);
      PrimeIsPrime();
      Euclid(PRIME, x - y, x + y);
      if Div(PRIME, x - y) {
        DivBounds(PRIME, x - y);
      } else {
        DivMod(PRIME, x + y);
      }
    }
  }

  /** The halves do not meet: a square is never minus another square, since PRIME is 3 modulo 4. */
  lemma OppositeHalves(x: int, y: int)
    requires 0 <= x <= PRIME / 2 < y < PRIME
    ensures (x * x) % PRIME != PRIME - (y * y) % PRIME
  {
    if (x * x) % PRIME == PRIME - (y * y) % PRIME {
      DivMod(PRIME, x * x);
      DivMod(PRIME, y * y);
      var a, b := x * x, y * y;
      DivCombine(PRIME, a - a % PRIME, 1, b - b % PRIME, 1);
      DivBy(PRIME, 1);
      DivCombine(PRIME, (a - a % PRIME) * 1 + (b - b % PRIME) * 1, 1, PRIME * 1, 1);
      PrimeIsPrime();
      SquaresDoNotCancel(PRIME, x, y);
    }
  }

  /** The map is one-to-one on the 32-bit integers. */
  lemma PermuteInjective(x: u32, y: u32)
    requires PermuteQpr(x) == PermuteQpr(y)
    ensures x == y
  {
    if x < PRIME && y < PRIME && x != y {
      var lo, hi := if x < y then x else y, if x < y then y else x;
      if hi <= PRIME / 2 || lo > PRIME / 2 {
        SameSquare(hi, lo);
      } else {
        OppositeHalves(lo, hi);
      }
    } else if x >= PRIME && y < PRIME {
      PermuteBelowPrime(y);
    } else if y >= PRIME && x < PRIME {
      PermuteBelowPrime(x);
    }
  }

  lemma PermuteBelowPrime(x: u32)
    requires x < PRIME
    ensures PermuteQpr(x) < PRIME
  {
    if x > PRIME / 2 && (x * x) % PRIME == 0 {
      DivMod(PRIME, x * x);
      PrimeIsPrime();
      Euclid(PRIME, x, x);
      DivBounds(PRIME, x);
    }
  }

  // ----- Exclusive or -----

  /** Bitwise exclusive or of the low w bits. */
  function Xor(x: nat, c: nat, w: nat): (r: nat)
    ensures r < Pow2(w)
  {
    if w == 0 then 0 else (if x % 2 == c % 2 then 0 else 1) + 2 * Xor(x / 2, c / 2, w - 1)
  }

  lemma {:induction false} XorLow(x: nat, c: nat, w: nat)
    requires w > 0
    ensures Xor(x, c, w) % 2 == (if x % 2 == c % 2 then 0 else 1) && Xor(x, c, w) / 2 == Xor(x / 2, c / 2, w - 1)
  {
    LowBit(if x % 2 == c % 2 then 0 else 1, Xor(x / 2, c / 2, w - 1));
  }

  lemma LowBit(b: nat, rest: nat)
    requires b < 2
    ensures (b + 2 * rest) % 2 == b && (b + 2 * rest) / 2 == rest
  {
  }

  lemma {:induction false} XorUndoesItself(x: nat, c: nat, w: nat)
    requires x < Pow2(w)
    ensures Xor(Xor(x, c, w), c, w) == x
  {
    if w > 0 {
      XorLow(x, c, w);
      XorLow(Xor(x, c, w), c, w);
      XorUndoesItself(x / 2, c / 2, w - 1);
    }
  }

  lemma Pow2Is32()
    ensures Pow2(32) == U32
  {
    assert Pow2(8) == 256;
    assert Pow2(16) == 65536;
    assert Pow2(24) == 16777216;
  }

  // ----- The sequence -----

  function WrappingAdd(a: u32, b: u32): u32 {
    (a + b) % U32
  }

  function Mixed(x: u32): u32 {
    Pow2Is32();
    Xor(x, INTERMEDIATE_XOR, 32)
  }

  /** The i-th id of the sequence with the given start and offset. */
  function IdAt(start: u32, offset: u32, i: u32): u32 {
    PermuteQpr(Mixed(WrappingAdd(PermuteQpr(WrappingAdd(start, i)), offset)))
  }

  lemma WrappingAddInjective(a: u32, b: u32, c: u32)
    requires WrappingAdd(a, c) == WrappingAdd(b, c)
    ensures a == b
  {
  }

  lemma MixedInjective(a: u32, b: u32)
    requires Mixed(a) == Mixed(b)
    ensures a == b
  {
    Pow2Is32();
    XorUndoesItself(a, INTERMEDIATE_XOR, 32);
    XorUndoesItself(b, INTERMEDIATE_XOR, 32);
  }

  /** The ids of one sequence are all different, over its whole length of 2^32. */
  lemma IdsAreDistinct(start: u32, offset: u32, i: u32, j: u32)
    ensures IdAt(start, offset, i) == IdAt(start, offset, j) ==> i == j
  {
    if IdAt(start, offset, i) != IdAt(start, offset, j) { return; }
    var a, b := WrappingAdd(start, i), WrappingAdd(start, j);
    var p, q := WrappingAdd(PermuteQpr(a), offset), WrappingAdd(PermuteQpr(b), offset);
    PermuteInjective(Mixed(p), Mixed(q));
    MixedInjective(p, q);
    WrappingAddInjective(PermuteQpr(a), PermuteQpr(b), offset);
    PermuteInjective(a, b);
    WrappingAddInjective(i, j, start);
  }

  class RandomSequence {
    const startIndex: u32
    const intermediateOffset: u32
    var currentIndex: u32
    var ended: bool

    ghost predicate Valid()
      reads this
    {
      ended ==> currentIndex == U32 - 1
    }

    /** How many ids have been drawn. */
    function Drawn(): nat
      reads this
    {
      if ended then U32 else currentIndex
    }

    constructor (seedBase: u32, seedOffset: u32)
      ensures Valid() && Drawn() == 0
    {
      startIndex := PermuteQpr(WrappingAdd(PermuteQpr(seedBase), INIT_BASE));
      intermediateOffset := PermuteQpr(WrappingAdd(PermuteQpr(seedOffset), INIT_OFFSET));
      currentIndex, ended := 0, false;
    }

    /** Draws the next id; after 2^32 of them the sequence is over. */
    method Next() returns (id: Option<u32>)
      requires Valid()
      modifies this
      ensures Valid()
      ensures old(Drawn()) < U32 ==>
                id == Some(IdAt(startIndex, intermediateOffset, old(Drawn()))) && Drawn() == old(Drawn()) + 1
      ensures old(Drawn()) == U32 ==> id == None && Drawn() == U32
    {
      var index := WrappingAdd(startIndex, currentIndex);
      var innerResidue := WrappingAdd(PermuteQpr(index), intermediateOffset);
      var next := PermuteQpr(Mixed(innerResidue));
      if currentIndex + 1 < U32 {
        ended := false;
        currentIndex := currentIndex + 1;
      } else if !ended {
        ended := true;
      } else {
        return None;
      }
      return Some(next);
    }
  }

  // ----- The generator -----

  /** The i-th id the client draws: every 2^32 draws a new sequence is started, with seeds of its own. */
  function IdOfDraw(starts: seq<u32>, offsets: seq<u32>, i: nat): u32
    requires |starts| == |offsets| && i < |starts| * U32
  {
    IdAt(starts[i / U32], offsets[i / U32], i % U32)
  }

  function DrawnIds(starts: seq<u32>, offsets: seq<u32>, n: nat): (ids: seq<nat>)
    requires |starts| == |offsets| && n <= |starts| * U32
    ensures |ids| == n && forall i :: 0 <= i < n ==> ids[i] == IdOfDraw(starts, offsets, i)
    ensures forall i :: 0 <= i < n ==> ids[i] < U32
  {
    seq(n, i requires 0 <= i < n => IdOfDraw(starts, offsets, i))
  }

  lemma InFirstSequence(starts: seq<u32>, offsets: seq<u32>, i: nat)
    requires |starts| == |offsets| > 0 && i < U32
    ensures IdOfDraw(starts, offsets, i) == IdAt(starts[0], offsets[0], i)
  {
    DrawIn(0, i);
  }

  lemma DrawIn(m: nat, i: nat)
    requires m * U32 <= i < m * U32 + U32
    ensures i / U32 == m && i % U32 == i - m * U32
  {
  }

  /** Whatever the seeds, the first n ids are all different exactly for n up to 2^32. */
  lemma UniqueExactly(starts: seq<u32>, offsets: seq<u32>, n: nat)
    requires |starts| == |offsets| && n <= |starts| * U32
    ensures Distinct(DrawnIds(starts, offsets, n)) <==> n <= U32
  {
    var ids := DrawnIds(starts, offsets, n);
    if n <= U32 {
      forall i, j | 0 <= i < j < n ensures ids[i] != ids[j] {
        InFirstSequence(starts, offsets, i);
        InFirstSequence(starts, offsets, j);
        IdsAreDistinct(starts[0], offsets[0], i, j);
      }
    } else if Distinct(ids) {
      Pigeonhole(ids, U32);
    }
  }

  /** The client's generator: a sequence that is replaced by a new one when it is over. */
  class Generator {
    var sequence: RandomSequence
    ghost var starts: seq<u32>
    ghost var offsets: seq<u32>
    ghost var drawn: nat

    ghost predicate Valid()
      reads this, sequence
    {
      && sequence.Valid() && |starts| == |offsets| > 0
      && starts[|starts| - 1] == sequence.startIndex && offsets[|offsets| - 1] == sequence.intermediateOffset
      && drawn == (|starts| - 1) * U32 + sequence.Drawn()
    }

    constructor (seedBase: u32, seedOffset: u32)
      ensures Valid() && drawn == 0 && fresh(sequence)
    {
      sequence := new RandomSequence(seedBase, seedOffset);
      new;
      starts, offsets, drawn := [sequence.startIndex], [sequence.intermediateOffset], 0;
    }

    /** Hands out the ids in order, from one sequence after the other. */
    method Next(seedBase: u32, seedOffset: u32) returns (id: u32)
      requires Valid()
      modifies this, sequence
      ensures Valid() && drawn == old(drawn) + 1 <= |starts| * U32
      ensures old(starts) <= starts && old(offsets) <= offsets
      ensures id == IdOfDraw(starts, offsets, old(drawn))
      ensures sequence == old(sequence) || fresh(sequence)
    {
      var next := sequence.Next();
      if next == None {
        sequence := new RandomSequence(seedBase, seedOffset);
        next := sequence.Next();
        starts, offsets := starts + [sequence.startIndex], offsets + [sequence.intermediateOffset];
      }
      drawn := drawn + 1;
      DrawIn(|starts| - 1, drawn - 1);
      id := next.value;
    }
  }
}
