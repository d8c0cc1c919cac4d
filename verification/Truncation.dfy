/** Float-to-integer truncation (section 4.3.4 of the WebAssembly Core Specification 1.0): the range tests of
    OP_TRUNC and OP_TRUNC_SAT compare with float constants, some of which are not one below the smallest integer
    because no float is.
 */
module Truncation {
  import opened Words

  datatype Format = F32 | F64

  datatype IntType = I32 | U32 | I64 | U64

  /** A float as a number: `m * 2^e`. */
  datatype Float = NaN | Infinity(negative: bool) | Finite(m: int, e: int)

  /** Bits of the significand, the hidden one included. */
  function Precision(f: Format): nat {
    match f
    case F32 => 24
    case F64 => 53
  }

  /** The finite values of a format are among these. */
  predicate Representable(f: Format, x: Float) {
    x.Finite? ==> -Pow2(Precision(f)) < x.m < Pow2(Precision(f))
  }

  function Value(x: Float): real
    requires x.Finite?
  {
    if x.e >= 0 then (x.m * Pow2(x.e)) as real else x.m as real / Pow2(-x.e) as real
  }

  /** These two equations determine Value. */
  lemma ValueMeaning(m: int, e: int)
    ensures Value(Finite(m, 0)) == m as real
    ensures Value(Finite(m, e + 1)) == 2.0 * Value(Finite(m, e))
  {
    if e >= 0 {
      Doubled(m, Pow2(e));
    } else {
      Halved(m, Pow2(-e - 1));
    }
  }

  lemma Doubled(m: int, p: int)
    ensures (m * (2 * p)) as real == 2.0 * (m * p) as real
  {
  }

  lemma Halved(m: int, p: int)
    requires p >= 1
    ensures m as real / p as real == 2.0 * (m as real / (2 * p) as real)
  {
    var q, r := m as real / p as real, p as real;
    assert (2 * p) as real == 2.0 * r;
    assert q * r == m as real;
    assert q / 2.0 * (2.0 * r) == m as real;
  }

  function Trunc(r: real): int {
    if r >= 0.0 then r.Floor else -((-r).Floor)
  }

  function Min(ty: IntType): int {
    match ty
    case I32 => -0x8000_0000
    case I64 => -0x8000_0000_0000_0000
    case U32 => 0
    case U64 => 0
  }

  function Max(ty: IntType): int {
    match ty
    case I32 => 0x7FFF_FFFF
    case U32 => 0xFFFF_FFFF
    case I64 => 0x7FFF_FFFF_FFFF_FFFF
    case U64 => 0xFFFF_FFFF_FFFF_FFFF
  }

  // ----- the macros -----

  function RMin(f: Format, ty: IntType): int {
    match (f, ty)
    case (F32, I32) => -2147483904
    case (F64, I32) => -2147483649
    case (F32, I64) => -9223373136366403584
    case (F64, I64) => -9223372036854777856
    case (_, U32) => -1
    case (_, U64) => -1
  }

  function RMax(ty: IntType): int {
    match ty
    case I32 => 2147483648
    case U32 => 4294967296
    case I64 => 9223372036854775808
    case U64 => 18446744073709551616
  }

  /** `A <= RMIN` and `A >= RMAX`, infinities included. */
  predicate AtMost(x: Float, bound: int)
    requires !x.NaN?
  {
    if x.Infinity? then x.negative else Value(x) <= bound as real
  }

  predicate AtLeast(x: Float, bound: int)
    requires !x.NaN?
  {
    if x.Infinity? then !x.negative else Value(x) >= bound as real
  }

  datatype Result = Converted(n: int) | TrapConversion | TrapOverflow

  function OpTrunc(f: Format, ty: IntType, x: Float): Result {
    if x.NaN? then TrapConversion
    else if AtMost(x, RMin(f, ty)) || AtLeast(x, RMax(ty)) then TrapOverflow
    else Converted(Trunc(Value(x)))
  }

  function OpTruncSat(f: Format, ty: IntType, x: Float): int {
    if x.NaN? then 0
    else if AtMost(x, RMin(f, ty)) then Min(ty)
    else if AtLeast(x, RMax(ty)) then Max(ty)
    else Trunc(Value(x))
  }

  // ----- powers of two -----

  lemma {:induction false} Pow2Grows(j: nat, k: nat)
    requires j <= k
    ensures Pow2(j) <= Pow2(k)
    decreases k
  {
    if j < k {
      Pow2Grows(j, k - 1);
    }
  }

  lemma Pow2Values()
    ensures Pow2(8) == 256 && Pow2(11) == 2048 && Pow2(24) == 0x100_0000 && Pow2(31) == 0x8000_0000
    ensures Pow2(40) == 0x100_0000_0000 && Pow2(53) == 0x20_0000_0000_0000 && Pow2(63) == 0x8000_0000_0000_0000
  {
    assert Pow2(4) == 16 && Pow2(8) == 16 * Pow2(4);
    Pow2Add(8, 3);
    assert Pow2(3) == 8;
    Pow2Add(8, 16);
    Pow2Add(8, 8);
    Pow2Add(8, 23);
    Pow2Add(8, 15);
    assert Pow2(7) == 128;
    Pow2Add(8, 7);
    Pow2Add(16, 24);
    Pow2Add(40, 13);
    Pow2Add(8, 5);
    assert Pow2(5) == 32;
    Pow2Add(40, 23);
  }

  // ----- the gap below a power of two -----

  lemma ScaledAbove(m: int, bound: int, q: int)
    requires -bound < m && q >= 1
    ensures m * q >= -(bound * q)
  {
    assert (m + bound) * q >= 0;
  }

  lemma SmallQuotient(m: int, d: int)
    requires m < 0 && d >= 1
    ensures m as real / d as real >= m as real
  {
    var q, r := m as real / d as real, d as real;
    assert q * r == m as real && q <= 0.0;
    NegativeScaled(q, r);
  }

  lemma NegativeScaled(q: real, r: real)
    requires q <= 0.0 && r >= 1.0
    ensures q * r <= q
  {
    assert q * (r - 1.0) <= 0.0;
  }

  /** With a small exponent a float stays within 2^k in magnitude. */
  lemma {:induction false} FineValue(p: nat, k: nat, x: Float)
    requires x.Finite? && -Pow2(p) < x.m && p <= k && x.e <= k - p
    ensures Value(x) >= -(Pow2(k) as real)
  {
    if x.e < 0 {
      Pow2Grows(p, k);
      if x.m < 0 {
        SmallQuotient(x.m, Pow2(-x.e));
      }
    } else {
      Pow2Add(p, x.e);
      Pow2Grows(p + x.e, k);
      ScaledAbove(x.m, Pow2(p), Pow2(x.e));
    }
  }

  /** No float with `p` bits lies strictly between -(2^k + 2^(k-p+1)) and -2^k: so far out, floats are multiples of the
      larger step. */
  lemma {:induction false} Gap(p: nat, k: nat, x: Float)
    requires x.Finite? && -Pow2(p) < x.m < Pow2(p) && 0 < p <= k && Value(x) < -(Pow2(k) as real)
    ensures Value(x) <= -((Pow2(k) + Pow2(k - p + 1)) as real)
  {
    if x.e <= k - p {
      FineValue(p, k, x);
    } else {
      var j := k - p + 1;
      Pow2Add(j, x.e - j);
      Pow2Add(j, p - 1);
      OnGrid(x.m, Pow2(j), Pow2(x.e - j), Pow2(p - 1));
    }
  }

  lemma OnGrid(m: int, g: int, c: int, b: int)
    requires g >= 1
    ensures m * (g * c) < -(g * b) ==> m * (g * c) <= -(g * b + g)
  {
    assert m * (g * c) == g * (m * c);
    GridStep(g, m * c, b);
  }

  lemma GridStep(g: int, a: int, b: int)
    requires g >= 1
    ensures g * a < -(g * b) ==> g * a <= -(g * b + g)
  {
    Distribute(g, a, b);
    if a + b >= 0 {
      NonNegative(g, a + b);
    } else {
      NonNegative(g, -(a + b + 1));
      Distribute(g, a + b, 1);
      Negate(g, a + b + 1);
    }
  }

  lemma Distribute(g: int, a: int, b: int)
    ensures g * (a + b) == g * a + g * b
  {
  }

  lemma Negate(g: int, a: int)
    ensures g * -a == -(g * a)
  {
  }

  lemma NonNegative(g: int, a: int)
    requires g >= 0 && a >= 0
    ensures g * a >= 0
  {
  }

  /** Where the constant is not one below the smallest integer, no float lies in between. */
  lemma {:induction false} NothingBetween(f: Format, ty: IntType, x: Float)
    requires x.Finite? && Representable(f, x)
    ensures Value(x) <= RMin(f, ty) as real <==> Value(x) <= (Min(ty) - 1) as real
  {
    Pow2Values();
    if Value(x) <= (Min(ty) - 1) as real {
      match (f, ty)
      case (F32, I32) => Gap(24, 31, x);
      case (F32, I64) => Gap(24, 63, x);
      case (F64, I64) => Gap(53, 63, x);
      case _ =>
    }
  }

  // ----- exactness -----

  lemma TruncBounds(r: real, lo: int, hi: int)
    requires lo <= 0 <= hi
    ensures lo <= Trunc(r) <= hi <==> (lo - 1) as real < r < (hi + 1) as real
    ensures Trunc(r) < lo <==> r <= (lo - 1) as real
  {
  }

  /** OP_TRUNC converts exactly the floats whose truncation fits the integer type, to that truncation. */
  lemma {:induction false} TruncExact(f: Format, ty: IntType, x: Float)
    requires Representable(f, x)
    ensures OpTrunc(f, ty, x) ==
      if x.NaN? then TrapConversion
      else if x.Finite? && Min(ty) <= Trunc(Value(x)) <= Max(ty) then Converted(Trunc(Value(x)))
      else TrapOverflow
  {
    if x.Finite? {
      NothingBetween(f, ty, x);
      TruncBounds(Value(x), Min(ty), Max(ty));
    }
  }

  function Abs(n: int): int {
    if n < 0 then -n else n
  }

  /** The same with integers: what OP_TRUNC converts `m * 2^e` to is that integer, or for a negative exponent the
      quotient whose remainder is smaller than `2^-e`, with the sign of `m`. */
  lemma {:induction false} TruncIntegers(f: Format, ty: IntType, x: Float)
    requires x.Finite? && OpTrunc(f, ty, x).Converted?
    ensures x.e >= 0 ==> OpTrunc(f, ty, x).n == x.m * Pow2(x.e)
    ensures x.e < 0 ==> var n := OpTrunc(f, ty, x).n;
      Abs(n) * Pow2(-x.e) <= Abs(x.m) < (Abs(n) + 1) * Pow2(-x.e) && (n > 0 ==> x.m > 0) && (n < 0 ==> x.m < 0)
  {
    if x.e >= 0 {
      TruncWhole(x.m * Pow2(x.e));
    } else {
      TruncQuotient(x.m, Pow2(-x.e));
    }
  }

  lemma TruncWhole(k: int)
    ensures Trunc(k as real) == k
  {
  }

  lemma TruncQuotient(m: int, p: int)
    requires p >= 1
    ensures var n := Trunc(m as real / p as real);
      Abs(n) * p <= Abs(m) < (Abs(n) + 1) * p && (n > 0 ==> m > 0) && (n < 0 ==> m < 0)
  {
    var q := m as real / p as real;
    QuotientSign(m, p, q);
    if m >= 0 {
      FloorQuotient(m, p, q);
    } else {
      FloorQuotient(-m, p, -q);
    }
  }

  lemma QuotientSign(m: int, p: int, q: real)
    requires p >= 1 && q == m as real / p as real
    ensures q * p as real == m as real && (m >= 0 <==> q >= 0.0) && (m > 0 <==> q > 0.0)
  {
  }

  lemma FloorQuotient(m: int, p: int, q: real)
    requires p >= 1 && m >= 0 && q >= 0.0 && q * p as real == m as real
    ensures q.Floor >= 0 && q.Floor * p <= m < (q.Floor + 1) * p
  {
    FloorBelow(q.Floor, m, p, q);
    FloorAbove(q.Floor + 1, m, p, q);
  }

  lemma FloorBelow(n: int, m: int, p: int, q: real)
    requires p >= 1 && n as real <= q && q * p as real == m as real
    ensures n * p <= m
  {
    Scaled(n as real, q, p as real);
    WholeProduct(n, p);
  }

  lemma FloorAbove(n: int, m: int, p: int, q: real)
    requires p >= 1 && q < n as real && q * p as real == m as real
    ensures m < n * p
  {
    StrictlyScaled(q, n as real, p as real);
    WholeProduct(n, p);
  }

  lemma WholeProduct(n: int, p: int)
    ensures (n * p) as real == n as real * p as real
  {
  }

  lemma Scaled(a: real, b: real, p: real)
    requires a <= b && p >= 0.0
    ensures a * p <= b * p
  {
  }

  lemma StrictlyScaled(a: real, b: real, p: real)
    requires a < b && p > 0.0
    ensures a * p < b * p
  {
  }

  /** OP_TRUNC_SAT clamps the truncation to the integer type; a NaN gives 0. */
  lemma {:induction false} TruncSatExact(f: Format, ty: IntType, x: Float)
    requires Representable(f, x)
    ensures OpTruncSat(f, ty, x) ==
      if x.NaN? then 0
      else if x.Infinity? then (if x.negative then Min(ty) else Max(ty))
      else if Trunc(Value(x)) < Min(ty) then Min(ty)
      else if Trunc(Value(x)) > Max(ty) then Max(ty)
      else Trunc(Value(x))
  {
    if x.Finite? {
      NothingBetween(f, ty, x);
      TruncBounds(Value(x), Min(ty), Max(ty));
    }
  }

  /** The bounds are themselves floats of the format, so the comparison is with the number that is written. */
  lemma BoundsRepresentable(f: Format, ty: IntType) returns (lo: Float, hi: Float)
    ensures lo.Finite? && Representable(f, lo) && Value(lo) == RMin(f, ty) as real
    ensures hi.Finite? && Representable(f, hi) && Value(hi) == RMax(ty) as real
  {
    Pow2Values();
    Pow2Add(31, 1);
    Pow2Add(63, 1);
    assert Pow2(1) == 2;
    var k := match ty { case I32 => 31 case U32 => 32 case I64 => 63 case U64 => 64 };
    hi := Finite(1, k);
    lo := match (f, ty) {
      case (F32, I32) => Finite(-0x80_0001, 8)
      case (F64, I32) => Finite(-0x8000_0001, 0)
      case (F32, I64) => Finite(-0x80_0001, 40)
      case (F64, I64) => Finite(-0x10_0000_0000_0001, 11)
      case (_, U32) => Finite(-1, 0)
      case (_, U64) => Finite(-1, 0)
    };
  }

  /** The gap is what makes the i32 test right: a 25-bit number in between would pass it and not fit. */
  lemma GapIsNeeded()
    ensures var x := Finite(-0x100_0001, 7);
      OpTrunc(F32, IntType.I32, x) == Converted(-0x8000_0080) && -0x8000_0080 < Min(IntType.I32)
  {
    assert Pow2(7) == 128;
  }
}
