/** The overflow-safe `(a * b) / c` that both slashing paths use: a 256-bit product kept in
    two 128-bit words, divided bit by bit. Words wrap as they do in the release profile. */
module WideArithmetic {
  import opened Types

  function Pow2(n: nat): (r: nat)
    ensures r > 0
  {
    if n == 0 then 1 else 2 * Pow2(n - 1)
  }

  /** Every prefix of the 256-bit dividend leaves a remainder whose doubling keeps its top bit. */
  ghost predicate KeepsTopBit(dividend: nat, divisor: nat)
    requires divisor > 0
  {
    forall k :: 1 <= k <= 128 ==> (dividend / Pow2(k)) % divisor < TWO127
  }

  /** When bit-by-bit division of `hi:lo` gives the saturated quotient. */
  ghost predicate DivisionExact(hi: nat, lo: nat, divisor: nat)
    requires divisor > 0
  {
    hi == 0 || hi >= divisor || KeepsTopBit(hi * TWO128 + lo, divisor)
  }

  ghost function SaturatedQuotient(dividend: nat, divisor: nat): nat
    requires divisor > 0
  {
    Min(dividend / divisor, U128_MAX)
  }

  // ---------------------------------------------------------------- arithmetic steps

  lemma MultipleIsFar(k: int, d: nat)
    ensures k >= 1 ==> k * d >= d
    ensures k <= -1 ==> k * d + d <= 0
  {
  }

  lemma DivUnique(n: nat, d: nat, q: nat, r: nat)
    requires d > 0 && r < d && n == q * d + r
    ensures n / d == q && n % d == r
  {
    MultipleIsFar(n / d - q, d);
    assert (n / d - q) * d == r - n % d;
  }

  /** Appending one bit to the dividend. */
  lemma DivAppendBit(n: nat, bit: nat, d: nat)
    requires d > 0 && bit < 2
    ensures 2 * (n % d) + bit >= d ==>
              (2 * n + bit) / d == 2 * (n / d) + 1 && (2 * n + bit) % d == 2 * (n % d) + bit - d
    ensures 2 * (n % d) + bit < d ==>
              (2 * n + bit) / d == 2 * (n / d) && (2 * n + bit) % d == 2 * (n % d) + bit
  {
    var q, r := n / d, n % d;
    assert n == q * d + r;
    assert 2 * n + bit == (2 * q) * d + (2 * r + bit);
    if 2 * r + bit >= d {
      assert 2 * n + bit == (2 * q + 1) * d + (2 * r + bit - d);
      DivUnique(2 * n + bit, d, 2 * q + 1, 2 * r + bit - d);
    } else {
      DivUnique(2 * n + bit, d, 2 * q, 2 * r + bit);
    }
  }

  /** Dropping one bit fewer appends that bit. */
  lemma ShiftLeftByOne(n: nat, i: nat)
    ensures n / Pow2(i) == 2 * (n / Pow2(i + 1)) + (n / Pow2(i)) % 2
  {
    var p, m := Pow2(i), n / Pow2(i);
    assert n == m * p + n % p;
    assert m == 2 * (m / 2) + m % 2;
    assert n == (m / 2) * (2 * p) + ((m % 2) * p + n % p);
    DivUnique(n, 2 * p, m / 2, (m % 2) * p + n % p);
  }

  lemma Pow2Split(i: nat, n: nat)
    requires i < n
    ensures Pow2(n) == Pow2(n - 1 - i) * 2 * Pow2(i)
  {
    if i < n - 1 {
      Pow2Split(i, n - 1);
    }
  }

  /** Bit `i` of the low word is bit `i` of the whole dividend. */
  lemma LowWordBit(hi: nat, lo: nat, i: nat)
    requires i < 128
    ensures ((hi * TWO128 + lo) / Pow2(i)) % 2 == (lo / Pow2(i)) % 2
  {
    var p, h := Pow2(i), Pow2(127 - i);
    assert TWO128 == h * 2 * p by {
      Pow2Split(i, 128);
      Pow2Word();
    }
    assert hi * TWO128 == (2 * (hi * h)) * p by {
      Regroup(hi, h, p);
    }
    DropLowBits(2 * (hi * h), lo, p, hi * TWO128 + lo);
  }

  lemma Pow2Word()
    ensures Pow2(128) == TWO128
  {
    assert Pow2(32) == 0x1_0000_0000 by {
      assert Pow2(8) == 0x100;
      Pow2Split(7, 16);
      Pow2Split(15, 32);
    }
    assert Pow2(64) == TWO64 by {
      Pow2Split(31, 64);
      assert Pow2(64) == Pow2(32) * 2 * Pow2(31) && Pow2(32) == 2 * Pow2(31);
    }
    Pow2Split(63, 128);
    assert Pow2(128) == Pow2(64) * 2 * Pow2(63) && Pow2(64) == 2 * Pow2(63);
  }

  lemma Regroup(a: nat, h: nat, p: nat)
    ensures a * (h * 2 * p) == (2 * (a * h)) * p
  {
    assert a * (h * 2 * p) == (a * h) * (2 * p) by {
      assert a * (h * (2 * p)) == (a * h) * (2 * p);
    }
  }

  lemma DropLowBits(w: nat, lo: nat, p: nat, n: nat)
    requires p > 0 && n == w * p + lo && w % 2 == 0
    ensures n / p == w + lo / p
    ensures (n / p) % 2 == (lo / p) % 2
  {
    var q, r := lo / p, lo % p;
    assert lo == q * p + r;
    Distribute(w, q, p);
    DivUnique(n, p, w + q, r);
    assert w == 2 * (w / 2);
  }

  lemma Distribute(x: int, y: int, z: int)
    ensures (x + y) * z == x * z + y * z
  {
  }

  // ---------------------------------------------------------------- long division

  /** One round of the loop: the doubled remainder drops its top bit, the divisor is taken out
      at most once. `lost` says that an earlier round dropped a set bit. */
  ghost predicate RoundInvariant(dividend: nat, divisor: nat, i: nat, remainder: nat, quotient: nat, lost: bool)
    requires divisor > 0
  {
    && remainder < divisor
    && quotient <= TWO128 - Pow2(i)
    && (!lost ==> remainder == (dividend / Pow2(i)) % divisor)
    && (!lost ==> quotient == (dividend / Pow2(i)) / divisor * Pow2(i))
    && (lost ==> quotient + Pow2(i) <= (dividend / Pow2(i)) / divisor * Pow2(i))
  }

  /** How one more bit changes the quotient and remainder of the prefix. */
  lemma PrefixStep(dividend: nat, divisor: nat, i: nat)
    requires divisor > 0
    ensures var n, m, bit := dividend / Pow2(i + 1), dividend / Pow2(i), (dividend / Pow2(i)) % 2;
            var r2 := 2 * (n % divisor) + bit;
            if r2 >= divisor
            then m % divisor == r2 - divisor && m / divisor * Pow2(i) == n / divisor * Pow2(i + 1) + Pow2(i)
            else m % divisor == r2 && m / divisor * Pow2(i) == n / divisor * Pow2(i + 1)
  {
    ShiftLeftByOne(dividend, i);
    AppendBitScaled(dividend / Pow2(i + 1), (dividend / Pow2(i)) % 2, divisor, Pow2(i));
  }

  lemma AppendBitScaled(n: nat, bit: nat, d: nat, p: nat)
    requires d > 0 && bit < 2
    ensures var m, r2 := 2 * n + bit, 2 * (n % d) + bit;
            if r2 >= d
            then m % d == r2 - d && m / d * p == n / d * (2 * p) + p
            else m % d == r2 && m / d * p == n / d * (2 * p)
  {
    var q := n / d;
    DivAppendBit(n, bit, d);
    assert q * (2 * p) == (2 * q) * p;
    Distribute(2 * q, 1, p);
  }

  /** What a round leaves, whether or not it drops a set bit. */
  lemma Round(dividend: nat, divisor: u128, i: nat, remainder: nat, quotient: nat, lost: bool, bit: nat)
    requires 0 < divisor && i < 128
    requires RoundInvariant(dividend, divisor, i + 1, remainder, quotient, lost)
    requires bit == (dividend / Pow2(i)) % 2
    ensures var r2 := (remainder * 2) % TWO128 + bit;
            RoundInvariant(dividend, divisor, i, if r2 >= divisor then r2 - divisor else r2,
                           if r2 >= divisor then quotient + Pow2(i) else quotient,
                           lost || remainder >= TWO127)
  {
    PrefixStep(dividend, divisor, i);
    var n, m := dividend / Pow2(i + 1), dividend / Pow2(i);
    RoundOnPrefix(divisor, Pow2(i), n % divisor, n / divisor * Pow2(i + 1), m % divisor, m / divisor * Pow2(i),
                  remainder, quotient, bit, lost);
  }

  /** The linear core of a round: `n` and `m` are the remainder and scaled quotient of the prefix
      before and after the bit, `p` the weight of the bit. */
  lemma RoundOnPrefix(divisor: u128, p: nat, nRem: nat, nQuo: nat, mRem: nat, mQuo: nat,
                      remainder: nat, quotient: nat, bit: nat, lost: bool)
    requires remainder < divisor && bit < 2 && p > 0
    requires quotient + 2 * p <= TWO128
    requires if 2 * nRem + bit >= divisor
             then mRem == 2 * nRem + bit - divisor && mQuo == nQuo + p
             else mRem == 2 * nRem + bit && mQuo == nQuo
    requires if lost then quotient + 2 * p <= nQuo else remainder == nRem && quotient == nQuo
    ensures var r2 := (remainder * 2) % TWO128 + bit;
            var r, q := if r2 >= divisor then r2 - divisor else r2, if r2 >= divisor then quotient + p else quotient;
            && r < divisor
            && q + p <= TWO128
            && if lost || remainder >= TWO127 then q + p <= mQuo else r == mRem && q == mQuo
  {
    if remainder >= TWO127 {
      assert (remainder * 2) % TWO128 == remainder * 2 - TWO128;
    } else {
      assert (remainder * 2) % TWO128 == remainder * 2;
    }
  }

  lemma MulMonotone(x: nat, y: nat, z: nat)
    requires x <= y
    ensures x * z <= y * z
  {
  }

  /** `hi:lo / divisor`, saturated, exactly on the inputs `DivisionExact` admits; too small on the others. */
  method Div256By128(hi: u128, lo: u128, divisor: u128) returns (q: u128)
    requires divisor > 0
    ensures q == SaturatedQuotient(hi * TWO128 + lo, divisor) <==> DivisionExact(hi, lo, divisor)
    ensures hi < divisor ==> q <= (hi * TWO128 + lo) / divisor <= U128_MAX
    ensures hi >= divisor ==> q == U128_MAX
  {
    QuotientRange(hi, lo, divisor);
    if hi == 0 {
      return lo / divisor;
    }
    if hi >= divisor {
      return U128_MAX;
    }
    q := DivideBits(hi, lo, divisor);
  }

  /** The loop over the 128 low bits, most significant first. */
  method DivideBits(hi: u128, lo: u128, divisor: u128) returns (quotient: u128)
    requires hi < divisor
    ensures quotient <= (hi * TWO128 + lo) / divisor
    ensures quotient == (hi * TWO128 + lo) / divisor <==> KeepsTopBit(hi * TWO128 + lo, divisor)
  {
    ghost var dividend := hi * TWO128 + lo;
    var remainder: u128 := hi;
    quotient := 0;
    ghost var lost := false;
    Start(hi, lo, divisor);
    for i := 128 downto 0
      invariant RoundInvariant(dividend, divisor, i, remainder, quotient, lost)
      invariant lost <==> !KeepsAbove(dividend, divisor, i)
    {
      LowWordBit(hi, lo, i);
      KeepsAboveStep(dividend, divisor, i);
      ghost var before := remainder;
      remainder, quotient := DivideBit(lo, divisor, i, remainder, quotient, dividend, lost);
      lost := lost || before >= TWO127;
    }
    Finish(dividend, divisor, remainder, quotient, lost);
  }

  method DivideBit(lo: u128, divisor: u128, i: nat, remainder: u128, quotient: u128,
                   ghost dividend: nat, ghost lost: bool)
    returns (r: u128, q: u128)
    requires 0 < divisor && i < 128
    requires RoundInvariant(dividend, divisor, i + 1, remainder, quotient, lost)
    requires (lo / Pow2(i)) % 2 == (dividend / Pow2(i)) % 2
    ensures RoundInvariant(dividend, divisor, i, r, q, lost || remainder >= TWO127)
  {
    var bit := (lo / Pow2(i)) % 2;
    var doubled := (remainder * 2) % TWO128 + bit;
    Round(dividend, divisor, i, remainder, quotient, lost, bit);
    if doubled >= divisor {
      r, q := doubled - divisor, quotient + Pow2(i);
    } else {
      r, q := doubled, quotient;
    }
  }

  lemma Finish(dividend: nat, divisor: u128, remainder: nat, quotient: nat, lost: bool)
    requires 0 < divisor
    requires RoundInvariant(dividend, divisor, 0, remainder, quotient, lost)
    ensures if lost then quotient < dividend / divisor else quotient == dividend / divisor
  {
    assert Pow2(0) == 1;
    assert dividend / 1 == dividend;
  }

  ghost predicate KeepsAbove(dividend: nat, divisor: nat, i: nat)
    requires divisor > 0
  {
    forall k :: i < k <= 128 ==> (dividend / Pow2(k)) % divisor < TWO127
  }

  lemma KeepsAboveStep(dividend: nat, divisor: nat, i: nat)
    requires divisor > 0 && i < 128
    ensures KeepsAbove(dividend, divisor, i) <==>
              KeepsAbove(dividend, divisor, i + 1) && (dividend / Pow2(i + 1)) % divisor < TWO127
  {
    var k := i + 1;
    assert i < k <= 128;
  }

  lemma Start(hi: nat, lo: nat, divisor: nat)
    requires hi < divisor && lo < TWO128
    ensures RoundInvariant(hi * TWO128 + lo, divisor, 128, hi, 0, false)
  {
    Pow2Word();
    DivUnique(hi * TWO128 + lo, TWO128, hi, lo);
    DivUnique(hi, divisor, 0, hi);
  }

  lemma QuotientRange(hi: nat, lo: nat, divisor: nat)
    requires divisor > 0 && lo < TWO128
    ensures hi < divisor ==> (hi * TWO128 + lo) / divisor < TWO128
    ensures hi >= divisor ==> (hi * TWO128 + lo) / divisor >= TWO128
  {
    var n := hi * TWO128 + lo;
    assert n == (n / divisor) * divisor + n % divisor;
    if hi < divisor {
      MulMonotone(hi + 1, divisor, TWO128);
      assert n < TWO128 * divisor;
      if n / divisor >= TWO128 {
        MulMonotone(TWO128, n / divisor, divisor);
      }
    } else {
      MulMonotone(divisor, hi, TWO128);
      assert TWO128 * divisor <= n;
      if n / divisor < TWO128 {
        MulMonotone(n / divisor + 1, TWO128, divisor);
      }
    }
  }

  // ---------------------------------------------------------------- the product

  const TWO192: nat := TWO128 * TWO64

  /** The middle column of the schoolbook product, before it is cut to one word. */
  ghost function MidSum(a: u128, b: u128): int {
    (a / TWO64) * (b % TWO64) + (a % TWO64) * (b % TWO64) / TWO64 + (a % TWO64) * (b / TWO64)
  }

  /** The column overflows its word. */
  ghost predicate Wraps(a: u128, b: u128) {
    MidSum(a, b) >= TWO128
  }

  /** The 256-bit value the two product words hold: the column's carry belongs at 2^192 but is
      added at 2^128. */
  ghost function MachineProduct(a: u128, b: u128): int {
    if Wraps(a, b) then a * b - TWO192 + TWO128 else a * b
  }

  lemma WordSplit(a: u128)
    ensures a == (a / TWO64) * TWO64 + a % TWO64 && a / TWO64 < TWO64
  {
  }

  lemma PartialProduct(x: nat, y: nat)
    requires x < TWO64 && y < TWO64
    ensures x * y <= (TWO64 - 1) * (TWO64 - 1)
  {
    MulMonotone(x, TWO64 - 1, y);
    MulMonotone(y, TWO64 - 1, TWO64 - 1);
  }

  lemma Expand(ah: nat, al: nat, bh: nat, bl: nat, w: nat)
    ensures (ah * w + al) * (bh * w + bl) == (ah * bh) * (w * w) + (ah * bl + al * bh) * w + al * bl
  {
    assert (ah * w + al) * (bh * w + bl) == (ah * w) * (bh * w + bl) + al * (bh * w + bl);
    assert (ah * w) * (bh * w + bl) == (ah * bh) * (w * w) + (ah * bl) * w by {
      assert (ah * w) * (bh * w) == (ah * bh) * (w * w);
      assert (ah * w) * bl == (ah * bl) * w;
    }
    assert al * (bh * w + bl) == (al * bh) * w + al * bl by {
      assert al * (bh * w) == (al * bh) * w;
    }
    assert (ah * bl) * w + (al * bh) * w == (ah * bl + al * bh) * w;
  }

  /** The product in terms of its columns. */
  lemma ProductColumns(a: u128, b: u128)
    ensures a * b == ((a / TWO64) * (b / TWO64)) * TWO128 + MidSum(a, b) * TWO64 + ((a % TWO64) * (b % TWO64)) % TWO64
  {
    WordSplit(a);
    WordSplit(b);
    Expand(a / TWO64, a % TWO64, b / TWO64, b % TWO64, TWO64);
    assert TWO64 * TWO64 == TWO128;
  }

  /** `a * b` as a high and a low word, off by the misplaced carry when the middle column wraps. */
  method Product(a: u128, b: u128) returns (hi: u128, lo: u128)
    ensures hi * TWO128 + lo == MachineProduct(a, b)
    ensures Wraps(a, b) ==> hi > 0
  {
    var aHi, aLo, bHi, bLo := a / TWO64, a % TWO64, b / TWO64, b % TWO64;
    WordSplit(a);
    WordSplit(b);
    PartialProduct(aLo, bLo);
    PartialProduct(aHi, bLo);
    PartialProduct(aLo, bHi);
    PartialProduct(aHi, bHi);
    ProductColumns(a, b);
    hi, lo := JoinColumns(aLo * bLo, aHi * bLo, aLo * bHi, aHi * bHi);
  }

  /** The carries between the four partial products. */
  method JoinColumns(loLo: u128, hiLo: u128, loHi: u128, hiHi: u128) returns (hi: u128, lo: u128)
    requires loLo <= (TWO64 - 1) * (TWO64 - 1) && hiLo <= (TWO64 - 1) * (TWO64 - 1)
    requires loHi <= (TWO64 - 1) * (TWO64 - 1) && hiHi <= (TWO64 - 1) * (TWO64 - 1)
    ensures var sum := hiLo + loLo / TWO64 + loHi;
            var value := hiHi * TWO128 + sum * TWO64 + loLo % TWO64;
            hi * TWO128 + lo == if sum >= TWO128 then value - TWO192 + TWO128 else value
    ensures hiLo + loLo / TWO64 + loHi >= TWO128 ==> hi > 0
  {
    var mid0: u128 := hiLo + loLo / TWO64;
    var mid := (mid0 + loHi) % TWO128;
    var carry := if mid < loHi then 1 else 0;
    ShiftWord(mid);
    lo := (mid * TWO64) % TWO128 + loLo % TWO64;
    hi := hiHi + mid / TWO64 + carry;
  }

  /** Shifting a word left by 64 keeps its low half. */
  lemma ShiftWord(mid: u128)
    ensures (mid * TWO64) % TWO128 == (mid % TWO64) * TWO64
    ensures mid * TWO64 == (mid / TWO64) * TWO128 + (mid % TWO64) * TWO64
    ensures mid / TWO64 < TWO64
  {
    WordSplit(mid);
    DivUnique(mid * TWO64, TWO128, mid / TWO64, (mid % TWO64) * TWO64);
  }

  /** When `MulDiv` returns the saturated quotient: the machine product saturates, or it is the true
      product (or its quotient is the largest word anyway) and its division loses no bit. */
  ghost predicate MulDivExact(a: u128, b: u128, c: u128)
    requires c > 0
  {
    var m := MachineProduct(a, b);
    m / TWO128 >= c
    || ((Wraps(a, b) ==> m / c == U128_MAX) && DivisionExact(m / TWO128, m % TWO128, c))
  }

  method MulDiv(a: u128, b: u128, c: u128) returns (r: u128)
    ensures c == 0 ==> r == 0
    ensures c > 0 ==> (r == SaturatedQuotient(a * b, c) <==> MulDivExact(a, b, c))
  {
    if c == 0 {
      return 0;
    }
    var hi, lo := Product(a, b);
    r := Div256By128(hi, lo, c);
    DivUnique(hi * TWO128 + lo, TWO128, hi, lo);
    if Wraps(a, b) {
      WrapGap(a, b, c);
    }
  }

  /** A wrapped product is so much too small that its quotient is too small for every divisor. */
  lemma WrapGap(a: u128, b: u128, c: u128)
    requires c > 0 && Wraps(a, b)
    ensures MachineProduct(a, b) / c < a * b / c
  {
    var m, p := MachineProduct(a, b), a * b;
    assert p >= m + c;
    assert m == (m / c) * c + m % c;
    assert p == (p / c) * c + p % c;
    MultipleIsFar(p / c - m / c, c);
    assert (p / c - m / c) * c == p - m + m % c - p % c;
  }

  /** The range the callers use: any stake, a rate below 2^64, a divisor up to 2^127. */
  lemma MulDivExactForRates(a: u128, b: u128, c: u128)
    requires b < TWO64 && 0 < c <= TWO127
    ensures MulDivExact(a, b, c)
  {
    WordSplit(a);
    PartialProduct(a % TWO64, b);
    PartialProduct(a / TWO64, b);
    assert b / TWO64 == 0 && b % TWO64 == b;
    assert MidSum(a, b) == (a / TWO64) * b + (a % TWO64) * b / TWO64;
    UnwrappedIsExact(a, b, c);
  }

  /** With a divisor up to 2^64, as every caller has, the result is right for all factors: a column that wraps
      means a product so large that the quotient saturates anyway. */
  lemma MulDivExactForSmallDivisors(a: u128, b: u128, c: u128)
    requires 0 < c <= TWO64
    ensures MulDivExact(a, b, c)
  {
    if Wraps(a, b) {
      WrappedSaturates(a, b);
    } else {
      UnwrappedIsExact(a, b, c);
    }
  }

  lemma UnwrappedIsExact(a: u128, b: u128, c: u128)
    requires 0 < c <= TWO127 && !Wraps(a, b)
    ensures MulDivExact(a, b, c)
  {
    forall k | 1 <= k <= 128 ensures ((a * b) / Pow2(k)) % c < TWO127 {
    }
  }

  lemma WrappedSaturates(a: u128, b: u128)
    requires Wraps(a, b)
    ensures MachineProduct(a, b) / TWO128 >= TWO64
  {
    WordSplit(a);
    WordSplit(b);
    PartialProduct(a % TWO64, b % TWO64);
    WrapMeansLarge(a / TWO64, b % TWO64, a % TWO64, b / TWO64, (a % TWO64) * (b % TWO64) / TWO64);
    ProductColumns(a, b);
    HighWord((a / TWO64) * (b / TWO64), MidSum(a, b), (a % TWO64) * (b % TWO64) % TWO64, MachineProduct(a, b));
  }

  lemma HighWord(top: nat, mid: nat, low: nat, m: int)
    requires mid >= TWO128 && top >= TWO64
    requires m == top * TWO128 + mid * TWO64 + low - TWO192 + TWO128
    ensures m / TWO128 >= TWO64
  {
    assert mid * TWO64 >= TWO192;
    assert m >= TWO64 * TWO128;
  }

  /** If the cross products overflow a word, so does the product of the high halves. */
  lemma WrapMeansLarge(x: nat, y: nat, z: nat, w: nat, carry: nat)
    requires x < TWO64 && y < TWO64 && z < TWO64 && w < TWO64 && carry < TWO64
    requires x * y + carry + z * w >= TWO128
    ensures x * w >= TWO64
  {
    MulMonotone(y, TWO64 - 1, x);
    MulMonotone(z, TWO64 - 1, w);
    assert x * y <= (TWO64 - 1) * x && z * w <= (TWO64 - 1) * w;
    assert x + w >= TWO64 + 1;
    assert x >= 2 && w >= 2;
    CornerProduct(x - 2, w - 2);
  }

  lemma CornerProduct(p: nat, q: nat)
    ensures (p + 2) * (q + 2) >= 2 * (p + q + 2)
  {
    assert (p + 2) * (q + 2) == p * q + 2 * p + 2 * q + 4;
  }

  /** Both failing branches are reachable: a divisor above 2^127 whose first remainder has its top
      bit set, and factors whose middle column wraps. There are factors for the first alone: no column
      wraps, and the high word of their exact product has its top bit set. */
  lemma MulDivFailures()
    ensures forall hi: nat, lo: nat, divisor: nat | TWO127 <= hi < divisor
            && lo < TWO128 :: !DivisionExact(hi, lo, divisor)
    ensures !MulDivExact(U128_MAX, U128_MAX, U128_MAX)
    ensures !Wraps(TWO128 - TWO64, TWO128 - TWO64) && !MulDivExact(TWO128 - TWO64, TWO128 - TWO64, U128_MAX)
  {
    forall hi: nat, lo: nat, divisor: nat | TWO127 <= hi < divisor && lo < TWO128
      ensures !DivisionExact(hi, lo, divisor)
    {
      Start(hi, lo, divisor);
      assert ((hi * TWO128 + lo) / Pow2(128)) % divisor == hi;
    }
    WrapFails();
    DroppedBitFails();
  }

  lemma WrapFails()
    ensures !MulDivExact(U128_MAX, U128_MAX, U128_MAX)
  {
    assert U128_MAX / TWO64 == TWO64 - 1 && U128_MAX % TWO64 == TWO64 - 1;
    assert Wraps(U128_MAX, U128_MAX);
    var m := MachineProduct(U128_MAX, U128_MAX);
    assert m == U128_MAX * U128_MAX - TWO192 + TWO128;
    assert m / TWO128 < U128_MAX && m / U128_MAX < U128_MAX;
  }

  lemma DroppedBitFails()
    ensures !Wraps(TWO128 - TWO64, TWO128 - TWO64) && !MulDivExact(TWO128 - TWO64, TWO128 - TWO64, U128_MAX)
  {
    var a, hi := TWO128 - TWO64, (TWO64 - 1) * (TWO64 - 1);
    assert a / TWO64 == TWO64 - 1 && a % TWO64 == 0;
    assert !Wraps(a, a) && MachineProduct(a, a) == hi * TWO128;
    assert TWO127 <= hi < U128_MAX;
    Start(hi, 0, U128_MAX);
    assert ((hi * TWO128 + 0) / Pow2(128)) % U128_MAX == hi;
  }
}
