/** What the operators mean that the specification of section 4.3.2 and the C expressions share, said by the bits of
    their operands or by the property that determines their result.
 */
module IntegerMeaning {
  import opened Words
  import opened IntegerOps

  function Bit(a: nat, i: nat): nat {
    a / Pow2(i) % 2
  }

  lemma {:induction false} BitOfHalf(a: nat, i: nat)
    ensures Bit(a, i + 1) == Bit(a / 2, i)
  {
    hide Pow2;
    assert Pow2(i + 1) == 2 * Pow2(i) by {
      DoublePower(i);
    }
    DivTwice(a, Pow2(i));
  }

  lemma DoublePower(i: nat)
    ensures Pow2(i + 1) == 2 * Pow2(i) && Pow2(0) == 1
  {
  }

  lemma DivTwice(a: nat, p: nat)
    requires p >= 1
    ensures a / (2 * p) == a / 2 / p
  {
    var q := a / 2 / p;
    var r := a / 2 % p;
    assert a / 2 == q * p + r;
    var s := a % 2;
    assert a == 2 * (q * p + r) + s;
    assert a == q * (2 * p) + (2 * r + s);
    Quotient(q, 2 * p, 2 * r + s);
  }

  lemma Quotient(q: nat, d: nat, r: nat)
    requires r < d
    ensures (q * d + r) / d == q
  {
    ModUnique(q, d, r);
    var n := q * d + r;
    assert n == n / d * d + n % d;
    assert (n / d - q) * d == 0;
  }

  // ----- and, or, xor -----

  /** Every bit of the result depends on the two bits in its place. */
  lemma {:induction false} BitwiseBits(k: BinKind, a: nat, b: nat, i: nat)
    requires k.And? || k.Or? || k.Xor?
    ensures k.And? ==> (Bit(Bitwise(k, a, b), i) == 1 <==> Bit(a, i) == 1 && Bit(b, i) == 1)
    ensures k.Or? ==> (Bit(Bitwise(k, a, b), i) == 1 <==> Bit(a, i) == 1 || Bit(b, i) == 1)
    ensures k.Xor? ==> (Bit(Bitwise(k, a, b), i) == 1 <==> Bit(a, i) != Bit(b, i))
    decreases i
  {
    hide Pow2;
    DoublePower(0);
    var r := Bitwise(k, a, b);
    Halves(k, a, b);
    if i == 0 {
      assert Bit(a, 0) == a % 2 && Bit(b, 0) == b % 2 && Bit(r, 0) == r % 2;
    } else {
      BitOfHalf(a, i - 1);
      BitOfHalf(b, i - 1);
      BitOfHalf(r, i - 1);
      BitwiseBits(k, a / 2, b / 2, i - 1);
    }
  }

  lemma Halves(k: BinKind, a: nat, b: nat)
    requires k.And? || k.Or? || k.Xor?
    ensures Bitwise(k, a, b) / 2 == Bitwise(k, a / 2, b / 2)
    ensures k.And? ==> (Bitwise(k, a, b) % 2 == 1 <==> a % 2 == 1 && b % 2 == 1)
    ensures k.Or? ==> (Bitwise(k, a, b) % 2 == 1 <==> a % 2 == 1 || b % 2 == 1)
    ensures k.Xor? ==> (Bitwise(k, a, b) % 2 == 1 <==> a % 2 != b % 2)
  {
    assert a % 2 == 0 || a % 2 == 1;
    assert b % 2 == 0 || b % 2 == 1;
    assert Bitwise(k, 0, 0) == 0;
  }

  /** The instructions: and, or and xor of two operands, on every bit. */
  lemma BitwiseInstruction(op: BinOp, a: nat, b: nat, i: nat)
    requires a < Modulus(op.width) && b < Modulus(op.width) && (op.kind.And? || op.kind.Or? || op.kind.Xor?)
    ensures WasmBinary(op, a, b).Fine? && WasmBinary(op, a, b).result >= 0
    ensures op.kind.And? ==> (Bit(WasmBinary(op, a, b).result, i) == 1 <==> Bit(a, i) == 1 && Bit(b, i) == 1)
    ensures op.kind.Or? ==> (Bit(WasmBinary(op, a, b).result, i) == 1 <==> Bit(a, i) == 1 || Bit(b, i) == 1)
    ensures op.kind.Xor? ==> (Bit(WasmBinary(op, a, b).result, i) == 1 <==> Bit(a, i) != Bit(b, i))
  {
    hide Bit, Bitwise;
    BitwiseBits(op.kind, a, b, i);
  }

  // ----- counts -----

  /** The places of the ones among the low `n` bits. */
  function Ones(a: nat, n: nat): set<nat> {
    set i: nat | i < n && Bit(a, i) == 1
  }

  /** popcnt counts the places of the ones. */
  lemma {:induction false} OneBitsCount(a: nat, n: nat)
    ensures OneBits(a, n) == |Ones(a, n)|
    decreases n
  {
    hide Bit, OneBits;
    if n == 0 {
      NoBits(a);
      assert Ones(a, n) == {};
    } else {
      OneBitsCount(a, n - 1);
      OneBitsTop(a, n - 1);
      assert Ones(a, n) == Ones(a, n - 1) + if Bit(a, n - 1) == 1 then {n - 1} else {};
    }
  }

  lemma NoBits(a: nat)
    ensures OneBits(a, 0) == 0
  {
  }

  lemma {:induction false} OneBitsTop(a: nat, n: nat)
    ensures OneBits(a, n + 1) == OneBits(a, n) + Bit(a, n) && Bit(a, n) < 2
    decreases n
  {
    hide Pow2;
    DoublePower(0);
    if n == 0 {
      assert OneBits(a, 1) == a % 2 + OneBits(a / 2, 0);
    } else {
      BitOfHalf(a, n - 1);
      OneBitsTop(a / 2, n - 1);
    }
  }

  /** clz: the number lies between the two powers of two that leave so many bits above it. */
  lemma {:induction false} LeadingZerosMeaning(a: nat, n: nat)
    requires a < Pow2(n)
    ensures var z := LeadingZeros(a, n); z <= n && a < Pow2(n - z) && (z < n ==> a >= Pow2(n - z - 1))
    decreases n
  {
    if n > 0 && a < Pow2(n - 1) {
      LeadingZerosMeaning(a, n - 1);
    }
  }

  /** ctz: all lower bits are zero, the next one is not. */
  lemma {:induction false} TrailingZerosMeaning(a: nat, n: nat)
    ensures var z := TrailingZeros(a, n);
      z <= n && (forall i :: 0 <= i < z ==> Bit(a, i) == 0) && (z < n ==> Bit(a, z) == 1)
    decreases n
  {
    hide Pow2;
    DoublePower(0);
    assert Bit(a, 0) == a % 2;
    if n > 0 && a % 2 == 0 {
      TrailingZerosMeaning(a / 2, n - 1);
      var z := TrailingZeros(a / 2, n - 1);
      BitOfHalf(a, z);
      forall i | 0 <= i < z + 1
        ensures Bit(a, i) == 0
      {
        if i > 0 {
          BitOfHalf(a, i - 1);
        }
      }
    }
  }

  // ----- division and signs -----

  /** The quotient that truncates toward zero: the remainder is smaller than the divisor and has the dividend's sign. */
  lemma TruncDivMeaning(a: int, b: int)
    requires b != 0
    ensures var r := a - b * TruncDiv(a, b); Abs(r) < Abs(b) && (r > 0 ==> a > 0) && (r < 0 ==> a < 0)
  {
    hide TruncDiv;
    RemainderSign(a, b);
    SignedRemainder(a - b * TruncDiv(a, b), a, Abs(a), Abs(b));
  }

  lemma SignedRemainder(r: int, a: int, x: nat, y: nat)
    requires y > 0 && (a < 0 ==> x > 0) && (a == 0 ==> x == 0) && r == if a < 0 then -(x % y) else x % y
    ensures Abs(r) < y && (r > 0 ==> a > 0) && (r < 0 ==> a < 0)
  {
    assert 0 <= x % y < y;
  }

  /** The one number in the signed range that differs from the unsigned one by a multiple of the modulus. */
  lemma SignedMeaning(ty: ValType, n: int)
    requires 0 <= n < Modulus(ty)
    ensures var m, s := Modulus(ty), Signed(Modulus(ty), n); -m <= 2 * s < m && (s == n || s == n - m)
  {
  }

  /** Sign extensions: the number in the signed range of the lower 8, 16 or 32 bits that has those bits. */
  lemma SignExtension(w: ValType, a: nat)
    ensures var r := WasmUnary(Extend8S(w), a); -0x80 <= r < 0x80 && (a - r) % 0x100 == 0
    ensures var r := WasmUnary(Extend16S(w), a); -0x8000 <= r < 0x8000 && (a - r) % 0x1_0000 == 0
    ensures var r := WasmUnary(Extend32S, a); -0x8000_0000 <= r < 0x8000_0000 && (a - r) % 0x1_0000_0000 == 0
    ensures a < 0x1_0000_0000 ==> WasmUnary(ExtendI32S, a) == WasmUnary(Extend32S, a)
  {
  }

  // ----- comparisons -----

  /** The order of two operands, as signed or as unsigned numbers. */
  predicate Compares(k: BinKind, ty: ValType, a: int, b: int) {
    var sa, sb := Signed(Modulus(ty), a), Signed(Modulus(ty), b);
    match k
    case Eq => a == b
    case Ne => a != b
    case LtS => sa < sb
    case GtS => sb < sa
    case LeS => sa <= sb
    case GeS => sb <= sa
    case LtU => a < b
    case GtU => b < a
    case LeU => a <= b
    case GeU => b <= a
    case _ => false
  }

  /** Comparisons and eqz give 1 when they hold and 0 when they do not. */
  lemma ComparisonMeaning(op: BinOp, a: nat, b: nat)
    requires a < Modulus(op.width) && b < Modulus(op.width) && IsComparison(op.kind)
    ensures WasmBinary(op, a, b) == Fine(1) <==> Compares(op.kind, op.width, a, b)
    ensures WasmBinary(op, a, b) == Fine(0) <==> !Compares(op.kind, op.width, a, b)
    ensures WasmUnary(Eqz(op.width), a) == if a == 0 then 1 else 0
  {
  }
}
