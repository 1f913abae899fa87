/** 128-bit division, remainder and multiplication from 64-bit instructions. */
module CompilerRt {

  const B64: nat := 0x1_0000_0000_0000_0000
  const B128: nat := 0x1_0000_0000_0000_0000_0000_0000_0000_0000
  const MIN: int := -0x8000_0000_0000_0000_0000_0000_0000_0000

  type u64 = x: nat | x < B64
  type u128 = x: nat | x < B128
  type i128 = x: int | MIN <= x < -MIN

  // ---- Halves -----------------------------------------------------------------------------------

  function Lo(v: u128): u64 { v % B64 }

  function Hi(v: u128): u64 { v / B64 }

  function Join(hi: u64, lo: u64): (v: u128)
    ensures Hi(v) == hi && Lo(v) == lo
  {
    hi * B64 + lo
  }

  lemma JoinHalves(v: u128)
    ensures Join(Hi(v), Lo(v)) == v
  {}

  // ---- Instructions -------------------------------------------------------------------------------

  /** divq: RDX:RAX by a 64-bit divisor.  It faults unless the high half is below the divisor. */
  method Divq(hi: u64, lo: u64, d: u64) returns (q: u64, r: u64)
    requires hi < d
    ensures q * d + r == hi * B64 + lo && r < d
  {
    var n := hi * B64 + lo;
    QuotientFits(hi, lo, d);
    q, r := n / d, n % d;
  }

  lemma QuotientFits(hi: u64, lo: u64, d: u64)
    requires hi < d
    ensures (hi * B64 + lo) / d < B64
  {
    var n := hi * B64 + lo;
    assert n < d * B64;
    assert n == d * (n / d) + n % d;
  }

  /** mulq: the full product of two 64-bit factors. */
  method Mulq(a: u64, b: u64) returns (lo: u64, hi: u64)
    ensures hi * B64 + lo == a * b
  {
    ProductFits(a, b);
    lo, hi := a * b % B64, a * b / B64;
  }

  lemma ProductFits(a: u64, b: u64)
    ensures 0 <= a * b < B128 && a * b / B64 < B64
  {
    assert a * b <= a * B64 < B64 * B64;
  }

  // ---- Shifts ---------------------------------------------------------------------------------------

  function Pow2(k: nat): (p: nat)
    ensures p >= 1
  {
    if k == 0 then 1 else 2 * Pow2(k - 1)
  }

  function Shl(v: u128, k: nat): u128 { v * Pow2(k) % B128 }

  lemma Double(x: nat, p: nat)
    ensures x * (2 * p) == 2 * x * p == 2 * (x * p)
  {}

  /** Leading zeros of a non-zero value, known to be at most `m`. */
  function ClzUpTo(x: u64, m: nat): (c: nat)
    requires x > 0 && x * Pow2(m) >= B64 / 2
    ensures c <= m && B64 / 2 <= x * Pow2(c) < B64
    decreases m
  {
    if x >= B64 / 2 then 0
    else
      Double(x, Pow2(m - 1));
      var c := ClzUpTo(2 * x, m - 1);
      Double(x, Pow2(c));
      1 + c
  }

  lemma Pow2Of63()
    ensures Pow2(63) == B64 / 2
  {
    assert Pow2(10) == 0x400;
    assert Pow2(20) == 0x10_0000;
    assert Pow2(30) == 0x4000_0000;
    assert Pow2(40) == 0x100_0000_0000;
    assert Pow2(50) == 0x4_0000_0000_0000;
    assert Pow2(60) == 0x1000_0000_0000_0000;
  }

  /** Count of leading zeros of a non-zero 64-bit value. */
  function Clz(x: u64): (c: nat)
    requires x > 0
    ensures c <= 63 && B64 / 2 <= x * Pow2(c) < B64
  {
    Pow2Of63();
    assert x * Pow2(63) >= 1 * Pow2(63);
    ClzUpTo(x, 63)
  }

  // ---- Unsigned division ----------------------------------------------------------------------------

  lemma {:induction false} Pow2Add(a: nat, b: nat)
    ensures Pow2(a + b) == Pow2(a) * Pow2(b)
  {
    if a != 0 {
      Pow2Add(a - 1, b);
      Double(Pow2(b), Pow2(a - 1));
    }
  }

  /** A product with a power of two stays below 2^64 with one more unit added. */
  lemma RoomForOne(h: nat, k: nat)
    requires k <= 63 && h * Pow2(k) < B64
    ensures (h + 1) * Pow2(k) <= B64
  {
    Pow2Of63();
    assert Pow2(64) == B64;
    Pow2Add(64 - k, k);
    var p, m := Pow2(k), Pow2(64 - k);
    assert m * p == B64;
    if h >= m {
      MulMono(m, h, p);
      assert false;
    }
    MulMono(h + 1, m, p);
  }

  lemma MulMono(a: nat, b: nat, c: nat)
    requires a <= b
    ensures a * c <= b * c
  {}

  lemma MulSwap(a: nat, b: nat, c: nat)
    ensures a * b * c == a * c * b
  {}

  lemma Distribute(a: nat, b: nat, c: nat)
    ensures (a + b) * c == a * c + b * c
  {}

  lemma NormalisedDigits(b: nat, h: nat, l: nat, p: nat)
    requires l < b && p > 0 && (h + 1) * p <= b
    ensures h * p * b <= (h * b + l) * p < b * b
  {
    MulSwap(h, b, p);
    Distribute(h * b, l, p);
    MulMono(l + 1, b, p);
    Distribute(l, 1, p);
    Distribute(h, 1, p);
    Distribute(h * p, p, b);
    MulMono((h + 1) * p, b, b);
    assert b * p == p * b;
  }

  lemma NormalisedBy(d: nat, h: nat, l: nat, p: nat, hp: nat)
    requires d == h * B64 + l && l < B64 && p > 0 && hp == h * p && B64 / 2 <= hp && (h + 1) * p <= B64
    ensures B128 / 2 <= d * p < B128
  {
    NormalisedDigits(B64, h, l, p);
    assert hp * B64 >= B64 / 2 * B64;
  }

  /** Normalising the divisor neither overflows nor leaves its top bit clear. */
  lemma Normalised(d: u128)
    requires Hi(d) > 0
    ensures var k := Clz(Hi(d)); B128 / 2 <= d * Pow2(k) < B128 && Shl(d, k) == d * Pow2(k)
  {
    var k := Clz(Hi(d));
    RoomForOne(Hi(d), k);
    NormalisedBy(d, Hi(d), Lo(d), Pow2(k), Hi(d) * Pow2(k));
  }

  /** `q` and `r` divide `n` by `s`. */
  predicate Divides(n: nat, q: nat, s: nat, r: nat) { n == q * s + r && r < s }

  /** One step of the shift-subtract loop: with twice the shifted divisor behind, one ahead. */
  lemma SubtractStep(n: nat, q: nat, s: nat, r: nat)
    requires Divides(n, q, 2 * s, r)
    ensures if r >= s then Divides(n, 2 * q + 1, s, r - s) else Divides(n, 2 * q, s, r)
  {
    Double(q, s);
    assert (2 * q + 1) * s == 2 * q * s + s;
  }

  lemma QuotientBelow(n: nat, q: nat, s: nat, r: nat)
    requires Divides(n, q, s, r)
    ensures q <= n
  {
    MulMono(1, s, q);
  }

  /** The quotient with its lowest bit set. */
  function SetBit0(q: u128): u128 { if q % 2 == 0 then q + 1 else q }

  /** Unsigned division: quotient and remainder on every path, and every divq is safe. */
  method UDivMod128(n: u128, d: u128) returns (q: u128, r: u128)
    requires d != 0
    ensures n == q * d + r && r < d
  {
    if Hi(d) == 0 {
      q, r := DivideBy64(n, d);
      return;
    }
    if n < d {
      q, r := 0, n;
      return;
    }
    q, r := ShiftSubtract(n, d);
  }

  /** The three paths for a divisor that fits 64 bits. */
  method DivideBy64(n: u128, d: u64) returns (q: u128, r: u128)
    requires d != 0
    ensures n == q * d + r && r < d
  {
    if Hi(n) == 0 {
      q, r := Lo(n) / d, Lo(n) % d;
      DivMod(n, d);
    } else if Hi(n) < d {
      q, r := Divq(Hi(n), Lo(n), d);
    } else {
      q, r := DivideLong(n, d);
    }
  }

  lemma DivMod(n: nat, d: nat)
    requires d != 0
    ensures n == n / d * d + n % d && n % d < d
  {}

  /** Two divq in a row: the first remainder is the second high half. */
  method DivideLong(n: u128, d: u64) returns (q: u128, r: u128)
    requires d != 0
    ensures n == q * d + r && r < d
  {
    var qHi, rHi := Divq(0, Hi(n), d);
    var qLo, rLo := Divq(rHi, Lo(n), d);
    TwoDigits(n, d, qHi, rHi, qLo, rLo);
    q, r := Join(qHi, qLo), rLo;
  }

  lemma TwoDigits(n: u128, d: u64, qHi: u64, rHi: u64, qLo: u64, rLo: u64)
    requires qHi * d + rHi == Hi(n) && qLo * d + rLo == rHi * B64 + Lo(n)
    ensures n == Join(qHi, qLo) * d + rLo
  {
    assert n == (qHi * d + rHi) * B64 + Lo(n);
    MulSwap(qHi, d, B64);
    assert (qHi * B64 + qLo) * d == qHi * B64 * d + qLo * d;
  }

  lemma ShlOne(q: u128)
    requires 2 * (q as nat) < B128
    ensures Shl(q, 1) == 2 * q
  {
    assert Pow2(1) == 2;
  }

  /** One iteration of the loop: shift the quotient and subtract if the shifted divisor fits. */
  method SubtractBit(n: u128, q: u128, r: u128, s: nat) returns (q': u128, r': u128)
    requires Divides(n, q, 2 * s, r)
    ensures Divides(n, q', s, r')
  {
    SubtractStep(n, q, s, r);
    q', r' := Shl(q, 1), r;
    if r >= s {
      QuotientBelow(n, 2 * q + 1, s, r - s);
      ShlOne(q);
      r' := r - s;
      q' := SetBit0(q');
    } else {
      QuotientBelow(n, 2 * q, s, r);
      ShlOne(q);
    }
  }

  /** The bit-by-bit path, taken when the divisor has a non-zero high half. */
  method ShiftSubtract(n: u128, d: u128) returns (q: u128, r: u128)
    requires Hi(d) > 0
    ensures n == q * d + r && r < d
  {
    var shift := Clz(Hi(d));
    Normalised(d);
    q, r := 0, n;
    var shifted: nat := Shl(d, shift);
    assert Divides(n, q, 2 * shifted, r);
    var i := 0;
    while i <= shift
      invariant 0 <= i <= shift + 1
      invariant i <= shift ==> shifted == d * Pow2(shift - i) && Divides(n, q, 2 * shifted, r)
      invariant i == shift + 1 ==> Divides(n, q, d, r)
    {
      q, r := SubtractBit(n, q, r, shifted);
      if i < shift { HalveShifted(d, shift - i); }
      shifted := shifted / 2;
      i := i + 1;
    }
  }

  lemma HalveShifted(d: nat, k: nat)
    requires k > 0
    ensures d * Pow2(k) == 2 * (d * Pow2(k - 1)) && d * Pow2(k) / 2 == d * Pow2(k - 1)
  {
    Double(d, Pow2(k - 1));
  }

  // ---- Signed division ------------------------------------------------------------------------------

  /** Two's complement: the 128-bit pattern of a signed value and back. */
  function Bits(x: i128): u128 { if x < 0 then x + B128 else x }

  function Signed(u: u128): i128 { if u >= -MIN then u - B128 else u }

  /** The value a wrapping computation of `x` leaves. */
  function Wrap(x: int): i128 { Signed(x % B128) }

  /** Bit patterns and signed values correspond one to one. */
  lemma SignedBits(x: i128, u: u128)
    ensures Signed(Bits(x)) == x && Bits(Signed(u)) == u
  {}

  /** The wrapped value is congruent to `x` modulo 2^128, and no other signed value is. */
  lemma WrapIs(x: int, w: i128)
    ensures (w - x) % 0x1_0000_0000_0000_0000_0000_0000_0000_0000 == 0 <==> w == Wrap(x)
  {
    var r := x % B128;
    assert x == x / B128 * B128 + r;
    var k := if r >= -MIN then 1 else 0;
    if w == Wrap(x) {
      ModUnique(w - x, B128, -(x / B128) - k, 0);
    } else if (w - x) % B128 == 0 {
      ModUnique(x + (w - x), B128, x / B128 + (w - x) / B128, r);
      ModUnique(w, B128, if w < 0 then -1 else 0, Bits(w));
    }
  }

  /** Wrapping negation: the smallest value is its own negative. */
  function Negate(x: i128): i128 { if x == MIN then MIN else -x }

  function Abs(x: int): nat { if x < 0 then -x else x }

  /** Quotient and remainder of division that truncates toward zero. */
  function TruncDiv(n: int, d: int): int
    requires d != 0
  {
    if (n < 0) != (d < 0) then -(Abs(n) / Abs(d)) else Abs(n) / Abs(d)
  }

  function TruncRem(n: int, d: int): int
    requires d != 0
  {
    if n < 0 then -(Abs(n) % Abs(d)) else Abs(n) % Abs(d)
  }

  /** What truncating division means: the remainder is smaller than the divisor, has the sign of
      the dividend, and quotient and remainder give the dividend back. */
  predicate Truncates(n: int, d: int, q: int, r: int) {
    n == q * d + r && Abs(r) < Abs(d) && (r == 0 || (r < 0 <==> n < 0))
  }

  lemma TruncMeaning(n: int, d: int)
    requires d != 0
    ensures Truncates(n, d, TruncDiv(n, d), TruncRem(n, d))
  {
    var q, r := Abs(n) / Abs(d), Abs(n) % Abs(d);
    assert Divides(Abs(n), q, Abs(d), r) by { DivMod(Abs(n), Abs(d)); }
    SignedDivision(n, d, q, r);
  }

  lemma SignedDivision(n: int, d: int, q: int, r: int)
    requires d != 0 && q >= 0 && r >= 0 && Divides(Abs(n), q, Abs(d), r)
    ensures Truncates(n, d, if (n < 0) != (d < 0) then -q else q, if n < 0 then -r else r)
  {
    MulSigns(q, Abs(d));
  }

  lemma MulSigns(q: int, b: int)
    ensures (-q) * b == -(q * b) && q * (-b) == -(q * b) && (-q) * (-b) == q * b
  {}

  /** Nothing else satisfies it. */
  lemma TruncUnique(n: int, d: int, q: int, r: int, q': int, r': int)
    requires d != 0 && Truncates(n, d, q, r) && Truncates(n, d, q', r')
    ensures q == q' && r == r'
  {
    assert (q - q') * d == r' - r;
    assert Abs(r' - r) < Abs(d);
    SmallMultiple(q - q', d);
  }

  lemma MultipleAtLeast(k: int, d: int)
    requires k != 0
    ensures Abs(k * d) >= Abs(d)
  {
    if k > 0 { MulMono(1, k, Abs(d)); } else { MulMono(1, -k, Abs(d)); }
    MulSigns(k, d);
  }

  lemma SmallMultiple(k: int, d: int)
    requires Abs(k * d) < Abs(d)
    ensures k == 0
  {
    if k != 0 { MultipleAtLeast(k, d); }
  }

  /** Magnitude under wrapping negation, the smallest value included. */
  method Magnitude(x: i128) returns (u: u128)
    ensures u == Abs(x)
  {
    u := if x < 0 then Bits(Negate(x)) else Bits(x);
  }

  lemma QuotientOf(n: nat, d: nat, q: nat, r: nat)
    requires d > 0 && n == q * d + r && r < d
    ensures q == n / d && r == n % d
  {
    DivMod(n, d);
    assert (q - n / d) * d == n % d - r;
    SmallMultiple(q - n / d, d);
  }

  /** Signed division truncates toward zero; only MIN / -1 does not fit and wraps to MIN. */
  method DivTi3(n: i128, d: i128) returns (q: i128)
    requires d != 0
    ensures n != MIN || d != -1 ==> q == TruncDiv(n, d)
    ensures n == MIN && d == -1 ==> q == MIN
  {
    var neg := (n < 0) != (d < 0);
    var un := Magnitude(n);
    var ud := Magnitude(d);
    var uq, ur := UDivMod128(un, ud);
    QuotientOf(un, ud, uq, ur);
    QuotientBelow(un, uq, ud, ur);
    if uq >= -MIN { BigQuotient(n, d, uq, ur); }
    q := if neg then Negate(Signed(uq)) else Signed(uq);
  }

  /** A quotient of magnitude 2^127 comes only from the smallest dividend and a unit divisor. */
  lemma BigQuotient(n: i128, d: i128, q: nat, r: nat)
    requires d != 0 && Divides(Abs(n), q, Abs(d), r) && q >= -MIN
    ensures n == MIN && Abs(d) == 1 && q == -MIN
  {
    QuotientBelow(Abs(n), q, Abs(d), r);
    if Abs(d) >= 2 { MulMono(2, Abs(d), q); assert false; }
  }

  /** The remainder has the sign of the dividend. */
  method ModTi3(n: i128, d: i128) returns (r: i128)
    requires d != 0
    ensures r == TruncRem(n, d)
  {
    var un := Magnitude(n);
    var ud := Magnitude(d);
    var uq, ur := UDivMod128(un, ud);
    QuotientOf(un, ud, uq, ur);
    r := if n < 0 then Negate(Signed(ur)) else Signed(ur);
  }

  // ---- Multiplication -----------------------------------------------------------------------------------

  lemma Schoolbook(b: nat, ah: nat, al: nat, bh: nat, bl: nat)
    ensures (ah * b + al) * (bh * b + bl) == (ah * bh) * (b * b) + (ah * bl + al * bh) * b + al * bl
  {
    Distribute(ah * b, al, bh * b + bl);
    assert (ah * b) * (bh * b + bl) == (ah * b) * (bh * b) + (ah * b) * bl;
    assert al * (bh * b + bl) == al * (bh * b) + al * bl;
    assert (ah * b) * (bh * b) == (ah * bh) * (b * b);
    assert (ah * b) * bl == (ah * bl) * b;
    assert al * (bh * b) == (al * bh) * b;
    Distribute(ah * bl, al * bh, b);
  }

  lemma ModShift(x: int, k: int, m: nat)
    requires m > 0
    ensures (x + k * m) % m == x % m
  {
    var q := x / m;
    var r := x % m;
    assert x == q * m + r;
    assert x + k * m == (q + k) * m + r;
    ModUnique(x + k * m, m, q + k, r);
  }

  lemma ModUnique(x: int, m: nat, q: int, r: nat)
    requires m > 0 && x == q * m + r && r < m
    ensures x % m == r && x / m == q
  {
    assert x == x / m * m + x % m;
    assert (q - x / m) * m == x % m - r;
    SmallMultiple(q - x / m, m);
  }

  /** Signed and unsigned products agree modulo 2^128. */
  lemma ProductOfBits(a: i128, b: i128)
    ensures (a * b) % B128 == (Bits(a) * Bits(b)) % B128
  {
    var i, j := if a < 0 then 1 else 0, if b < 0 then 1 else 0;
    ShiftedProduct(Bits(a), Bits(b), i, j, B128);
    ModShift(Bits(a) * Bits(b), i * j * B128 - i * Bits(b) - j * Bits(a), B128);
  }

  lemma ShiftedProduct(x: int, y: int, i: int, j: int, m: int)
    ensures (x - i * m) * (y - j * m) == x * y + (i * j * m - i * y - j * x) * m
  {
    assert (x - i * m) * (y - j * m) == x * y - x * (j * m) - (i * m) * y + (i * m) * (j * m);
    assert x * (j * m) == (j * x) * m && (i * m) * y == (i * y) * m && (i * m) * (j * m) == (i * j * m) * m;
    assert (i * j * m - i * y - j * x) * m == (i * j * m) * m - (i * y) * m - (j * x) * m;
  }

  /** The upper half as the code computes it from the two cross products, each operation truncated
      to 64 bits. */
  function UpperHalf(carry: u64, x: nat, y: nat): (hi: u64)
    ensures hi == (carry + x + y) % B64
  {
    ((carry + x % B64) % B64 + y % B64) % B64
  }

  lemma ProductHalves(a: i128, b: i128, carry: u64, lo: u64, hi: u64)
    requires carry * B64 + lo == Lo(Bits(a)) * Lo(Bits(b))
    requires hi == (carry + Lo(Bits(a)) * Hi(Bits(b)) + Hi(Bits(a)) * Lo(Bits(b))) % B64
    ensures Join(hi, lo) == a * b % B128
  {
    var x, y := Bits(a), Bits(b);
    ProductDigits(Hi(x), Lo(x), Hi(y), Lo(y), carry, lo, hi);
    assert x == Hi(x) * B64 + Lo(x) && y == Hi(y) * B64 + Lo(y);
    ProductOfBits(a, b);
  }

  /** 128-bit product from one full multiplication and two truncated ones: exact modulo 2^128. */
  method MulTi3(a: i128, b: i128) returns (p: i128)
    ensures (p - a * b) % 0x1_0000_0000_0000_0000_0000_0000_0000_0000 == 0
  {
    var al: nat, ah: nat := Lo(Bits(a)), Hi(Bits(a));
    var bl: nat, bh: nat := Lo(Bits(b)), Hi(Bits(b));
    var lo, carry := Mulq(al, bl);
    var hi := UpperHalf(carry, al * bh, ah * bl);
    ProductHalves(a, b, carry, lo, hi);
    p := Signed(Join(hi, lo));
    WrapIs(a * b, p);
  }

  /** Carrying between digits of base b. */
  lemma Carry(b: nat, x: nat, c: nat, carry: nat, t: nat, hi: nat, lo: nat)
    requires carry + c == t * b + hi
    ensures x * (b * b) + c * b + (carry * b + lo) == (x + t) * (b * b) + (hi * b + lo)
  {
    Distribute(c, carry, b);
    Distribute(t * b, hi, b);
    assert t * b * b == t * (b * b);
    Distribute(x, t, b * b);
  }

  lemma ProductDigits(ah: nat, al: nat, bh: nat, bl: nat, carry: nat, lo: u64, hi: u64)
    requires carry * B64 + lo == al * bl
    requires hi == (carry + al * bh + ah * bl) % B64
    ensures ((ah * B64 + al) * (bh * B64 + bl)) % B128 == Join(hi, lo)
  {
    Schoolbook(B64, ah, al, bh, bl);
    assert carry + al * bh + ah * bl == carry + (ah * bl + al * bh);
    DigitsOf((ah * B64 + al) * (bh * B64 + bl), ah * bh, ah * bl + al * bh, carry, lo, hi);
  }

  lemma DigitsOf(p: nat, x: nat, c: nat, carry: nat, lo: u64, hi: u64)
    requires p == x * (B64 * B64) + c * B64 + (carry * B64 + lo) && hi == (carry + c) % B64
    ensures p % B128 == Join(hi, lo)
  {
    var t := (carry + c) / B64;
    Carry(B64, x, c, carry, t, hi, lo);
    ModUnique(p, B128, x + t, Join(hi, lo));
  }
}
