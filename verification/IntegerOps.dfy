/** Integer instructions: the meaning the WebAssembly Core Specification gives them (section 4.3.2), the C expressions
    the engine evaluates for them, and the proof that the two agree on every pair of words.
 */
module IntegerOps {
  import opened Words

  datatype BinKind =
    | Add | Sub | Mul | DivS | DivU | RemS | RemU
    | And | Or | Xor | Shl | ShrS | ShrU | Rotl | Rotr
    | Eq | Ne | LtS | LtU | GtS | GtU | LeS | LeU | GeS | GeU

  datatype BinOp = BinOp(width: ValType, kind: BinKind)

  datatype UnOp = Eqz(width: ValType) | Extend8S(width: ValType) | Extend16S(width: ValType)
    | Extend32S | Wrap | ExtendI32S | ExtendI32U | Clz(width: ValType) | Ctz(width: ValType) | Popcnt(width: ValType)

  predicate IsComparison(k: BinKind) {
    k.Eq? || k.Ne? || k.LtS? || k.LtU? || k.GtS? || k.GtU? || k.LeS? || k.LeU? || k.GeS? || k.GeU?
  }

  /** Operations that the operation table lists without a `_sr` form. */
  predicate IsCommutative(k: BinKind) {
    k.Add? || k.Mul? || k.And? || k.Or? || k.Xor? || k.Eq? || k.Ne?
  }

  function BinResult(op: BinOp): ValType {
    if IsComparison(op.kind) then I32 else op.width
  }

  function UnOperand(op: UnOp): ValType {
    match op
    case Eqz(w) => w
    case Extend8S(w) => w
    case Extend16S(w) => w
    case Extend32S => I64
    case Wrap => I64
    case ExtendI32S => I32
    case ExtendI32U => I32
    case Clz(w) => w
    case Ctz(w) => w
    case Popcnt(w) => w
  }

  function UnResult(op: UnOp): ValType {
    match op
    case Eqz(_) => I32
    case Extend8S(w) => w
    case Extend16S(w) => w
    case Extend32S => I64
    case Wrap => I32
    case ExtendI32S => I64
    case ExtendI32U => I64
    case Clz(w) => w
    case Ctz(w) => w
    case Popcnt(w) => w
  }

  // ----- products and quotients of naturals -----

  lemma MulMono(a: nat, b: nat, m: nat)
    ensures a <= b ==> a * m <= b * m
    ensures a < b && m > 0 ==> a * m < b * m
  {
    if a <= b {
      assert b * m == a * m + (b - a) * m;
    }
  }

  /** A quotient of naturals is a natural, and what it is. */
  function Quotient(a: nat, p: nat): (q: nat)
    requires p > 0
    ensures q == a / p && a == q * p + a % p && 0 <= a % p
  {
    NegativeQuotient(a / p, p, a % p);
    a / p
  }

  lemma NegativeQuotient(q: int, p: nat, r: int)
    requires r < p
    ensures q < 0 ==> q * p + r < 0
  {
    if q < 0 {
      MulMono(0, -q - 1, p);
      assert q * p + p == 0 - (-q - 1) * p;
    }
  }

  // ----- numbers and words -----

  function Modulus(ty: ValType): (m: int)
    ensures m == TWO_32 || m == TWO_64
  {
    match ty
    case I32 => TWO_32
    case I64 => TWO_64
  }

  function Bits(ty: ValType): (n: int)
    ensures n > 0
  {
    match ty
    case I32 => 32
    case I64 => 64
  }

  function Unsigned64(w: Word): (n: int)
    ensures 0 <= n < TWO_64
  {
    w.hi * TWO_32 + w.lo
  }

  function Unsigned(v: Val): (n: int)
    ensures 0 <= n < Modulus(v.Type())
  {
    match v
    case V32(x) => x
    case V64(w) => Unsigned64(w)
  }

  /** The word holding `n` modulo 2^64. */
  function WordOf(n: int): (w: Word)
    ensures Unsigned64(w) == n % TWO_64
    ensures w.lo == n % TWO_32
  {
    var m := n % TWO_64;
    WordHalves(n);
    Word(m % TWO_32, m / TWO_32)
  }

  lemma WordHalves(n: int)
    ensures (n % TWO_64) % TWO_32 == n % TWO_32
    ensures 0 <= (n % TWO_64) / TWO_32 < TWO_32
  {
  }

  /** The value of type `ty` that equals `n` modulo 2^32 or 2^64. */
  function ValOf(ty: ValType, n: int): (v: Val)
    ensures v.Type() == ty
    ensures Unsigned(v) == n % Modulus(ty)
  {
    match ty
    case I32 => V32(n % TWO_32)
    case I64 => V64(WordOf(n))
  }

  /** The signed interpretation of an unsigned number below `m`. */
  function Signed(m: int, n: int): int {
    if n < m / 2 then n else n - m
  }

  function Abs(a: int): nat {
    if a < 0 then -a else a
  }

  /** Integer division that truncates toward zero. */
  function TruncDiv(a: int, b: int): int
    requires b != 0
  {
    var q := Abs(a) / Abs(b);
    if (a < 0) == (b < 0) then q else -q
  }

  /** `&`, `|` and `^` on unsigned numbers, bit by bit. */
  function Bitwise(k: BinKind, a: nat, b: nat): (r: nat)
    requires k.And? || k.Or? || k.Xor?
    decreases a + b
  {
    if a == 0 && b == 0 then 0 else BitOf(k, a % 2, b % 2) + 2 * Bitwise(k, a / 2, b / 2)
  }

  function BitOf(k: BinKind, x: nat, y: nat): (r: nat)
    requires x < 2 && y < 2
    ensures r < 2
  {
    if k.And? then x * y else if k.Or? then (if x + y > 0 then 1 else 0) else (x + y) % 2
  }

  /** The zero bits above the highest one among `n` bits. */
  function LeadingZeros(a: nat, n: nat): (r: nat) {
    if n == 0 || a >= Pow2(n - 1) then 0 else 1 + LeadingZeros(a, n - 1)
  }

  function TrailingZeros(a: nat, n: nat): (r: nat) {
    if n == 0 || a % 2 == 1 then 0 else 1 + TrailingZeros(a / 2, n - 1)
  }

  function OneBits(a: nat, n: nat): (r: nat) {
    if n == 0 then 0 else a % 2 + OneBits(a / 2, n - 1)
  }

  function Truth(b: bool): nat {
    if b then 1 else 0
  }

  /** The upper `high` and the lower `low` bits of a number, exchanged. */
  function SwapEnds(a: nat, high: nat, low: nat): int {
    a % Pow2(low) * Pow2(high) + a / Pow2(low)
  }

  // ----- WebAssembly -----

  /** The operators of section 4.3.2 on unsigned operands; the result still has to be reduced to its type. */
  function WasmBinary(op: BinOp, a: int, b: int): Checked<int>
    requires 0 <= a < Modulus(op.width) && 0 <= b < Modulus(op.width)
  {
    var m := Modulus(op.width);
    var sa, sb := Signed(m, a), Signed(m, b);
    var shift := b % Bits(op.width);
    match op.kind
    case Add => Fine(a + b)
    case Sub => Fine(a - b)
    case Mul => Fine(a * b)
    case DivU => if b == 0 then Traps(DivisionByZero) else Fine(a / b)
    case RemU => if b == 0 then Traps(DivisionByZero) else Fine(a % b)
    case DivS =>
      if b == 0 then Traps(DivisionByZero)
      else if TruncDiv(sa, sb) == m / 2 then Traps(IntegerOverflow)
      else Fine(TruncDiv(sa, sb))
    case RemS =>
      if b == 0 then Traps(DivisionByZero)
      else Fine(if sa < 0 then -(Abs(sa) % Abs(sb)) else Abs(sa) % Abs(sb))
    case And => Fine(Bitwise(op.kind, a, b))
    case Or => Fine(Bitwise(op.kind, a, b))
    case Xor => Fine(Bitwise(op.kind, a, b))
    case Shl => Fine(a * Pow2(shift))
    case ShrS => Fine(sa / Pow2(shift))
    case ShrU => Fine(a / Pow2(shift))
    case Rotl => Fine(SwapEnds(a, shift, Bits(op.width) - shift))
    case Rotr => Fine(SwapEnds(a, Bits(op.width) - shift, shift))
    case Eq => Fine(Truth(a == b))
    case Ne => Fine(Truth(a != b))
    case LtS => Fine(Truth(sa < sb))
    case LtU => Fine(Truth(a < b))
    case GtS => Fine(Truth(sa > sb))
    case GtU => Fine(Truth(a > b))
    case LeS => Fine(Truth(sa <= sb))
    case LeU => Fine(Truth(a <= b))
    case GeS => Fine(Truth(sa >= sb))
    case GeU => Fine(Truth(a >= b))
  }

  function WasmUnary(op: UnOp, a: nat): int {
    match op
    case Eqz(_) => Truth(a == 0)
    case Extend8S(_) => Signed(TWO_8, a % TWO_8)
    case Extend16S(_) => Signed(TWO_16, a % TWO_16)
    case Extend32S => Signed(TWO_32, a % TWO_32)
    case Wrap => a
    case ExtendI32S => Signed(TWO_32, a)
    case ExtendI32U => a
    case Clz(w) => LeadingZeros(a, Bits(w))
    case Ctz(w) => TrailingZeros(a, Bits(w))
    case Popcnt(w) => OneBits(a, Bits(w))
  }

  function BinaryVal(op: BinOp, a: Val, b: Val): (r: Checked<Val>)
    requires a.Type() == b.Type() == op.width
    ensures r.Fine? ==> r.result.Type() == BinResult(op)
  {
    match WasmBinary(op, Unsigned(a), Unsigned(b))
    case Fine(n) => Fine(ValOf(BinResult(op), n))
    case Traps(k) => Traps(k)
  }

  function UnaryVal(op: UnOp, a: Val): (r: Val)
    requires a.Type() == UnOperand(op)
    ensures r.Type() == UnResult(op)
  {
    ValOf(UnResult(op), WasmUnary(op, Unsigned(a)))
  }

  // ----- the engine's C expressions -----

  /** The C integer types the operation macros are instantiated at. */
  datatype CType = CType(width: ValType, signed: bool)

  /** The TYPE argument the operation macro gets for each opcode. */
  function OperandType(op: BinOp): CType {
    var k := op.kind;
    CType(op.width, !(k.DivU? || k.RemU? || k.And? || k.Or? || k.Xor? || k.Shl? || k.ShrU?
                      || k.Rotl? || k.Rotr? || k.LtU? || k.GtU? || k.LeU? || k.GeU?))
  }

  /** Converting any mathematical result to a C type of that width. Signed addition, subtraction and multiplication are
      taken to wrap around in two's complement when they overflow, which C leaves undefined. */
  function Convert(t: CType, n: int): int {
    var m := Modulus(t.width);
    if t.signed then Signed(m, n % m) else n % m
  }

  /** `(TYPE) _r0` or `slot (TYPE)`. */
  function Read(t: CType, w: Word): int {
    Convert(t, if t.width == I32 then w.lo else Unsigned64(w))
  }

  /** The count of a rotation arrives as an `unsigned`. */
  function RotateCount(count: nat, ty: ValType): (c: nat)
    ensures c < Bits(ty)
  {
    count % TWO_32 % Bits(ty)
  }

  /** `(-c) & mask`. */
  function Opposite(c: nat, ty: ValType): (d: nat)
    requires c < Bits(ty)
    ensures d == if c == 0 then 0 else Bits(ty) - c
  {
    if c == 0 then 0 else Bits(ty) - c
  }

  function ShiftLeft(n: nat, c: nat, ty: ValType): (r: nat) {
    n * Pow2(c) % Modulus(ty)
  }

  function ShiftRight(n: nat, c: nat): (r: nat) {
    Quotient(n, Pow2(c))
  }

  /** rotl32 and rotl64. */
  function RotateLeft(n: nat, count: nat, ty: ValType): nat {
    var c := RotateCount(count, ty);
    Bitwise(Or, ShiftLeft(n, c, ty), ShiftRight(n, Opposite(c, ty)))
  }

  /** rotr32 and rotr64. */
  function RotateRight(n: nat, count: nat, ty: ValType): nat {
    var c := RotateCount(count, ty);
    Bitwise(Or, ShiftRight(n, c), ShiftLeft(n, Opposite(c, ty), ty))
  }

  /** OP_CLZ_32 and OP_CLZ_64. The compiler's builtin counts leading zeros but is undefined at 0; the 64-bit form sets
      the lowest bit rather than branching. */
  function CountLeading(x: nat, ty: ValType): nat {
    if ty == I32 then if x == 0 then 32 else LeadingZeros(x, 32)
    else LeadingZeros(Bitwise(Or, x, 1), 64) + Truth(x == 0)
  }

  /** OP_CTZ_32 and OP_CTZ_64, the latter with the highest bit set. */
  function CountTrailing(x: nat, ty: ValType): nat {
    if ty == I32 then if x == 0 then 32 else TrailingZeros(x, 32)
    else TrailingZeros(Bitwise(Or, x, Pow2(63)), 64) + Truth(x == 0)
  }

  function COperator(op: BinOp, a: int, b: int): Checked<int> {
    var t := OperandType(op);
    var m := Modulus(t.width);
    var shift := (b % m) % Bits(t.width);
    match op.kind
    case Add => Fine(Convert(t, a + b))
    case Sub => Fine(Convert(t, a - b))
    case Mul => Fine(Convert(t, a * b))
    case DivU => if b == 0 then Traps(DivisionByZero) else Fine(TruncDiv(a, b))
    case RemU => if b == 0 then Traps(DivisionByZero) else Fine(a - b * TruncDiv(a, b))
    case DivS =>
      if b == 0 then Traps(DivisionByZero)
      else if b == -1 && a == -(m / 2) then Traps(IntegerOverflow)
      else Fine(TruncDiv(a, b))
    case RemS =>
      if b == 0 then Traps(DivisionByZero)
      else if b == -1 && a == -(m / 2) then Fine(0)
      else Fine(a - b * TruncDiv(a, b))
    case And => Fine(Bitwise(op.kind, a % m, b % m))
    case Or => Fine(Bitwise(op.kind, a % m, b % m))
    case Xor => Fine(Bitwise(op.kind, a % m, b % m))
    case Shl => Fine(Convert(t, a * Pow2(shift)))
    case ShrS => Fine(a / Pow2(shift))
    case ShrU => Fine(a / Pow2(shift))
    case Rotl => Fine(RotateLeft(a % m, b % m, t.width))
    case Rotr => Fine(RotateRight(a % m, b % m, t.width))
    case Eq => Fine(Truth(a == b))
    case Ne => Fine(Truth(a != b))
    case LtS => Fine(Truth(a < b))
    case LtU => Fine(Truth(a < b))
    case GtS => Fine(Truth(a > b))
    case GtU => Fine(Truth(a > b))
    case LeS => Fine(Truth(a <= b))
    case LeU => Fine(Truth(a <= b))
    case GeS => Fine(Truth(a >= b))
    case GeU => Fine(Truth(a >= b))
  }

  /** What the emitted operation leaves in `_r0`, its C operands being the words `a` and `b`. */
  function BinaryWord(op: BinOp, a: Word, b: Word): Checked<Word> {
    var t := OperandType(op);
    match COperator(op, Read(t, a), Read(t, b))
    case Fine(n) => Fine(WordOf(n))
    case Traps(k) => Traps(k)
  }

  function UnaryWord(op: UnOp, a: Word): Word {
    match op
    case Eqz(w) => WordOf(Truth(Read(CType(w, true), a) == 0))
    case Extend8S(w) => WordOf(Signed(TWO_8, Read(CType(w, true), a) % TWO_8))
    case Extend16S(w) => WordOf(Signed(TWO_16, Read(CType(w, true), a) % TWO_16))
    case Extend32S => WordOf(Signed(TWO_32, Read(CType(I64, true), a) % TWO_32))
    case Wrap => Word(a.lo, 0)
    case ExtendI32S => WordOf(Read(CType(I32, true), a))
    case ExtendI32U => WordOf(Read(CType(I32, false), a))
    case Clz(w) => WordOf(CountLeading(Read(CType(w, false), a), w))
    case Ctz(w) => WordOf(CountTrailing(Read(CType(w, false), a), w))
    case Popcnt(w) => WordOf(OneBits(Read(CType(w, false), a), Bits(w)))
  }

  // ----- agreement -----

  lemma ModSub32(n: int, k: int)
    ensures (n - k * 0x1_0000_0000) % 0x1_0000_0000 == n % 0x1_0000_0000
  {
  }

  lemma ModSub64(n: int, k: int)
    ensures (n - k * 0x1_0000_0000_0000_0000) % 0x1_0000_0000_0000_0000 == n % 0x1_0000_0000_0000_0000
  {
  }

  lemma ModSub(n: int, k: int, m: int)
    requires m == TWO_32 || m == TWO_64
    ensures (n - k * m) % m == n % m
  {
    ModSub32(n, k);
    ModSub64(n, k);
  }

  lemma ConvertMod(t: CType, n: int)
    ensures Convert(t, n) % Modulus(t.width) == n % Modulus(t.width)
  {
    var m := Modulus(t.width);
    ModSub(n % m, 1, m);
  }

  lemma MulModLeft(a: int, k: int, b: int, m: int)
    requires m == TWO_32 || m == TWO_64
    ensures ((a - k * m) * b) % m == (a * b) % m
  {
    assert (a - k * m) * b == a * b - (k * b) * m;
    ModSub(a * b, k * b, m);
  }

  lemma TruncDivNonNegative(a: int, b: int)
    requires a >= 0 && b > 0
    ensures TruncDiv(a, b) == a / b
    ensures a - b * TruncDiv(a, b) == a % b
  {
  }

  /** The C remainder takes the sign of the dividend. */
  lemma RemainderSign(a: int, b: int)
    requires b != 0
    ensures a - b * TruncDiv(a, b) == if a < 0 then -(Abs(a) % Abs(b)) else Abs(a) % Abs(b)
  {
    var q, r := Abs(a) / Abs(b), Abs(a) % Abs(b);
    assert Abs(a) == Abs(b) * q + r;
    if (a < 0) == (b < 0) {
      assert b * TruncDiv(a, b) == if a < 0 then -(Abs(b) * q) else Abs(b) * q;
    } else {
      assert b * TruncDiv(a, b) == b * -q;
      assert b * -q == if b < 0 then Abs(b) * q else -(Abs(b) * q);
    }
  }

  lemma QuotientBelow(h: int, x: nat, y: nat)
    requires h > 0 && x <= h && y >= 2
    ensures x / y < h
  {
    var q := x / y;
    assert y * q <= x;
    assert (y - 2) * q >= 0;
  }

  /** A truncated quotient of two signed m-range numbers leaves the range only for the least number over -1. */
  lemma QuotientOverflow(h: int, a: int, b: int)
    requires h > 0
    requires -h <= a < h && -h <= b < h && b != 0
    ensures TruncDiv(a, b) == h <==> a == -h && b == -1
  {
    if b >= 2 || b <= -2 {
      QuotientBelow(h, Abs(a), Abs(b));
    } else {
      assert Abs(a) / 1 == Abs(a);
    }
  }

  lemma LeastOverMinusOne(h: int, a: int, b: int)
    requires h > 0 && a == -h && b == -1
    ensures a - b * TruncDiv(a, b) == 0
  {
    assert Abs(a) / 1 == h;
  }

  lemma {:induction false} BitwiseCommutes(k: BinKind, a: nat, b: nat)
    requires k.And? || k.Or? || k.Xor?
    ensures Bitwise(k, a, b) == Bitwise(k, b, a)
    decreases a + b
  {
    if a != 0 || b != 0 {
      BitwiseCommutes(k, a / 2, b / 2);
    }
  }

  /** The operations without a `_sr` form really commute, as C expressions. */
  lemma CommutativeWord(op: BinOp, a: Word, b: Word)
    requires IsCommutative(op.kind)
    ensures BinaryWord(op, a, b) == BinaryWord(op, b, a)
  {
    var t := OperandType(op);
    var m := Modulus(t.width);
    var x, y := Read(t, a), Read(t, b);
    match op.kind
    case Mul => assert x * y == y * x;
    case And => BitwiseCommutes(op.kind, x % m, y % m);
    case Or => BitwiseCommutes(op.kind, x % m, y % m);
    case Xor => BitwiseCommutes(op.kind, x % m, y % m);
    case _ =>
  }

  lemma HoldsWordOf(ty: ValType, n: int, r: int)
    requires r % Modulus(ty) == n % Modulus(ty)
    ensures Holds(WordOf(r), ValOf(ty, n))
  {
    if ty == I64 {
      var w, w' := WordOf(r), WordOf(n);
      assert w.lo == w'.lo;
      assert w == w';
    }
  }

  /** What an operand word means to the C expression, in terms of the WebAssembly value it holds. */
  lemma ReadHolds(t: CType, w: Word, v: Val)
    requires Holds(w, v) && v.Type() == t.width
    ensures Read(t, w) == if t.signed then Signed(Modulus(t.width), Unsigned(v)) else Unsigned(v)
    ensures Read(t, w) % Modulus(t.width) == Unsigned(v)
  {
    var m := Modulus(t.width);
    var n := Unsigned(v);
    assert n % m == n;
    ConvertMod(t, n);
  }

  lemma UnsignedDivisionAgrees(op: BinOp, n: int, k: int)
    requires op.kind.DivU? || op.kind.RemU?
    requires 0 <= n < Modulus(op.width) && 0 <= k < Modulus(op.width)
    ensures COperator(op, n, k) == WasmBinary(op, n, k)
  {
    if k != 0 {
      TruncDivNonNegative(n, k);
    }
  }

  lemma SignedDivisionAgrees(op: BinOp, n: int, k: int)
    requires op.kind.DivS? || op.kind.RemS?
    requires 0 <= n < Modulus(op.width) && 0 <= k < Modulus(op.width)
    ensures var m := Modulus(op.width);
      COperator(op, Signed(m, n), Signed(m, k)) == WasmBinary(op, n, k)
  {
    var m := Modulus(op.width);
    var x, y := Signed(m, n), Signed(m, k);
    assert -(m / 2) <= x < m / 2 && -(m / 2) <= y < m / 2;
    if k != 0 {
      assert y != 0;
      QuotientOverflow(m / 2, x, y);
      RemainderSign(x, y);
      if x == -(m / 2) && y == -1 {
        LeastOverMinusOne(m / 2, x, y);
      }
    }
  }

  lemma ArithmeticAgrees(op: BinOp, x: int, y: int, n: int, k: int)
    requires op.kind.Add? || op.kind.Sub? || op.kind.Mul?
    requires var m := Modulus(op.width); x % m == n % m && y % m == k % m
    ensures var m := Modulus(op.width);
      COperator(op, x, y).Fine? &&
      COperator(op, x, y).result % m ==
      (match op.kind case Add => n + k case Sub => n - k case _ => n * k) % m
  {
    var t := OperandType(op);
    var m := Modulus(op.width);
    var p, q := x / m - n / m, y / m - k / m;
    assert x == n + p * m && y == k + q * m;
    match op.kind
    case Add =>
      ConvertMod(t, x + y);
      assert x + y == (n + k) - -(p + q) * m;
      ModSub(n + k, -(p + q), m);
    case Sub =>
      ConvertMod(t, x - y);
      assert x - y == (n - k) - (q - p) * m;
      ModSub(n - k, q - p, m);
    case Mul =>
      ConvertMod(t, x * y);
      assert x == n - (-p) * m && y == k - (-q) * m;
      MulModLeft(n, -p, y, m);
      assert n * y == y * n && n * k == k * n;
      MulModLeft(k, -q, n, m);
  }

  lemma ShiftsAgree(op: BinOp, x: int, y: int, n: int, k: int)
    requires op.kind.Shl? || op.kind.ShrS? || op.kind.ShrU?
    requires var m := Modulus(op.width); 0 <= n < m && 0 <= k < m && y % m == k
    requires x == if op.kind.ShrS? then Signed(Modulus(op.width), n) else n
    ensures COperator(op, x, y).Fine? && WasmBinary(op, n, k).Fine?
    ensures var m := Modulus(op.width); COperator(op, x, y).result % m == WasmBinary(op, n, k).result % m
  {
    var p := Pow2(k % Bits(op.width));
    match op.kind
    case Shl => ConvertMod(OperandType(op), n * p);
    case ShrS => assert COperator(op, x, y).result == x / p;
    case ShrU => assert COperator(op, x, y).result == n / p;
  }

  lemma BitwiseAgrees(op: BinOp, x: int, y: int, n: int, k: int)
    requires op.kind.And? || op.kind.Or? || op.kind.Xor?
    requires var m := Modulus(op.width); 0 <= n < m && 0 <= k < m && x % m == n && y % m == k
    ensures COperator(op, x, y).Fine? && COperator(op, x, y) == WasmBinary(op, n, k)
  {
    hide Bitwise;
  }

  // ----- rotations -----

  lemma Pow2Bits(ty: ValType)
    ensures Pow2(Bits(ty)) == Modulus(ty)
  {
    assert Pow2(8) == 0x100;
    Pow2Add(8, 8);
    Pow2Add(16, 16);
    Pow2Add(32, 32);
  }

  lemma {:induction false} OrSelf(a: nat)
    ensures Bitwise(Or, a, a) == a
  {
    if a > 0 {
      OrSelf(a / 2);
    }
  }

  lemma {:induction false} OrZero(a: nat)
    ensures Bitwise(Or, 0, a) == a
  {
    if a > 0 {
      OrZero(a / 2);
    }
  }

  /** `|` of numbers without common bits is their sum. */
  lemma {:induction false} OrDisjoint(h: nat, k: nat, low: nat)
    requires low < Pow2(k)
    ensures Bitwise(Or, h * Pow2(k), low) == h * Pow2(k) + low
    decreases k
  {
    var a := h * Pow2(k);
    if k == 0 {
      BitwiseCommutes(Or, a, low);
      OrZero(a);
    } else {
      assert a == 2 * (h * Pow2(k - 1));
      OrDisjoint(h, k - 1, low / 2);
      OrStep(h * Pow2(k - 1), low);
    }
  }

  lemma OrStep(a: nat, low: nat)
    ensures Bitwise(Or, 2 * a, low) == low % 2 + 2 * Bitwise(Or, a, low / 2)
  {
  }

  /** Shifting left drops the upper bits. */
  lemma ShiftedModulus(a: nat, high: nat, low: nat)
    ensures a * Pow2(high) % Pow2(low + high) == a % Pow2(low) * Pow2(high)
  {
    Pow2Add(low, high);
    ScaledModulus(a, Pow2(low), Pow2(high));
  }

  lemma ScaledModulus(a: nat, p: nat, q: nat)
    requires p > 0 && q > 0
    ensures p * q > 0 && a * q % (p * q) == a % p * q
  {
    ScaledRemainder(Quotient(a, p), p, a % p, q);
  }

  lemma ScaledRemainder(d: nat, p: nat, r: nat, q: nat)
    requires r < p && q > 0
    ensures p * q > 0 && (d * p + r) * q % (p * q) == r * q
  {
    Distribute(d, p, r, q);
    MulMono(r, p, q);
    MulMono(0, r, q);
    ModUnique(d, p * q, r * q);
  }

  lemma Distribute(d: int, p: int, r: int, q: int)
    ensures (d * p + r) * q == d * (p * q) + r * q
  {
  }

  lemma ModUnique(d: nat, m: nat, r: int)
    requires 0 <= r < m
    ensures (d * m + r) % m == r
  {
    var q := (d * m + r) / m;
    assert q >= 0;
    MulMono(d + 1, q, m);
    MulMono(q + 1, d, m);
  }

  /** The two shifted parts of a rotation share no bit. */
  lemma PartsJoined(a: nat, high: nat, low: nat, ty: ValType)
    requires low + high == Bits(ty) && a < Modulus(ty)
    ensures Bitwise(Or, ShiftLeft(a, high, ty), ShiftRight(a, low)) == SwapEnds(a, high, low)
    ensures Bitwise(Or, ShiftRight(a, low), ShiftLeft(a, high, ty)) == SwapEnds(a, high, low)
  {
    hide Bitwise, Pow2;
    Pow2Bits(ty);
    ShiftedModulus(a, high, low);
    Pow2Add(low, high);
    QuotientSmall(a, Pow2(low), Pow2(high));
    OrDisjoint(a % Pow2(low), high, Quotient(a, Pow2(low)));
    BitwiseCommutes(Or, ShiftLeft(a, high, ty), ShiftRight(a, low));
  }

  lemma QuotientSmall(a: nat, p: nat, q: nat)
    requires p > 0 && a < p * q
    ensures Quotient(a, p) < q
  {
    MulMono(q, Quotient(a, p), p);
  }

  /** A rotation by nothing joins the number with itself. */
  lemma NotRotated(a: nat, ty: ValType)
    requires a < Modulus(ty)
    ensures SwapEnds(a, 0, Bits(ty)) == a && SwapEnds(a, Bits(ty), 0) == a
    ensures ShiftLeft(a, 0, ty) == ShiftRight(a, 0) == a && Bitwise(Or, a, a) == a
  {
    hide Bitwise;
    Pow2Bits(ty);
    OrSelf(a);
    assert Pow2(0) == 1;
    SmallParts(a, Modulus(ty));
  }

  lemma SmallParts(a: nat, m: nat)
    requires a < m
    ensures a % m == a && a / m == 0 && a % 1 == 0 && a / 1 == a && 0 * m == 0
  {
  }

  lemma CountReduced(k: nat, ty: ValType)
    ensures RotateCount(k, ty) == k % Bits(ty)
  {
    CountReduced64(k);
    CountReduced32(k);
  }

  lemma CountReduced64(k: nat)
    ensures k % 0x1_0000_0000 % 64 == k % 64
  {
    var q := k / 0x1_0000_0000;
    assert k == k % 0x1_0000_0000 + 64 * (0x400_0000 * q);
  }

  lemma CountReduced32(k: nat)
    ensures k % 0x1_0000_0000 % 32 == k % 32
  {
    var q := k / 0x1_0000_0000;
    assert k == k % 0x1_0000_0000 + 32 * (0x800_0000 * q);
  }

  /** `(n << c) | (n >> (-c & mask))` exchanges the two ends, for every count. */
  lemma RotationsAgree(n: nat, k: nat, ty: ValType)
    requires n < Modulus(ty)
    ensures var s := k % Bits(ty);
      && RotateLeft(n, k, ty) == SwapEnds(n, s, Bits(ty) - s)
      && RotateRight(n, k, ty) == SwapEnds(n, Bits(ty) - s, s)
  {
    hide Bitwise, SwapEnds, Pow2, ShiftLeft, ShiftRight, RotateCount;
    CountReduced(k, ty);
    var s := RotateCount(k, ty);
    if s == 0 {
      NotRotated(n, ty);
    } else {
      PartsJoined(n, s, Bits(ty) - s, ty);
      PartsJoined(n, Bits(ty) - s, s, ty);
    }
  }

  // ----- counting bits -----

  lemma OrOne(x: nat)
    ensures Bitwise(Or, x, 1) == if x % 2 == 1 then x else x + 1
  {
    BitwiseCommutes(Or, x / 2, 0);
    OrZero(x / 2);
  }

  /** Setting the lowest bit of a number that has another one does not move the highest. */
  lemma {:induction false} LeadingOfNext(x: nat, n: nat)
    requires x > 0 && x % 2 == 0 && n > 0
    ensures LeadingZeros(x + 1, n) == LeadingZeros(x, n)
    decreases n
  {
    if n > 1 {
      assert Pow2(n - 1) == 2 * Pow2(n - 2);
      LeadingOfNext(x, n - 1);
    }
  }

  lemma {:induction false} LeadingOfOne(n: nat)
    requires n > 0
    ensures LeadingZeros(1, n) == n - 1 && LeadingZeros(0, n) == n
    decreases n
  {
    if n > 1 {
      assert Pow2(n - 1) == 2 * Pow2(n - 2);
      LeadingOfOne(n - 1);
    } else {
      assert Pow2(0) == 1 && LeadingZeros(0, 0) == 0;
    }
  }

  lemma {:induction false} TrailingOfZero(n: nat)
    ensures TrailingZeros(0, n) == n
  {
    if n > 0 {
      TrailingOfZero(n - 1);
    }
  }

  /** Setting the highest bit does not move the lowest. */
  lemma {:induction false} TrailingGuarded(x: nat, k: nat)
    requires x < Pow2(k + 1)
    ensures TrailingZeros(Bitwise(Or, x, Pow2(k)), k + 1) + Truth(x == 0) == TrailingZeros(x, k + 1)
    decreases k
  {
    if k == 0 {
      assert x == 0 || x == 1;
      assert Pow2(0) == 1;
      OrOne(x);
      assert TrailingZeros(1, 1) == 0 && TrailingZeros(0, 1) == 1 + TrailingZeros(0, 0);
    } else {
      assert Pow2(k + 1) == 2 * Pow2(k) && Pow2(k) == 2 * Pow2(k - 1);
      BitwiseCommutes(Or, x, Pow2(k));
      BitwiseCommutes(Or, x / 2, Pow2(k - 1));
      OrStep(Pow2(k - 1), x);
      TrailingGuarded(x / 2, k - 1);
    }
  }

  lemma LeadingAgrees(x: nat)
    ensures LeadingZeros(Bitwise(Or, x, 1), 64) + Truth(x == 0) == LeadingZeros(x, 64)
  {
    hide LeadingZeros, Bitwise;
    OrOne(x);
    LeadingOfOne(64);
    if x > 0 && x % 2 == 0 {
      LeadingOfNext(x, 64);
    }
  }

  /** The branchless forms count like the specification, at 0 too. */
  lemma CountsAgree(x: nat, ty: ValType)
    requires x < Modulus(ty)
    ensures CountLeading(x, ty) == LeadingZeros(x, Bits(ty)) && CountTrailing(x, ty) == TrailingZeros(x, Bits(ty))
  {
    hide LeadingZeros, TrailingZeros, Bitwise, Pow2, Truth;
    Pow2Bits(ty);
    if ty == I64 {
      LeadingAgrees(x);
      TrailingGuarded(x, 63);
    } else {
      LeadingOfOne(32);
      TrailingOfZero(32);
    }
  }

  /** Signed readings compare like the signed interpretations, unsigned ones like the numbers. */
  lemma ComparisonAgrees(op: BinOp, x: int, y: int, n: int, k: int)
    requires IsComparison(op.kind)
    requires var m := Modulus(op.width); 0 <= n < m && 0 <= k < m
    requires var m := Modulus(op.width);
      if OperandType(op).signed then x == Signed(m, n) && y == Signed(m, k) else x == n && y == k
    ensures COperator(op, x, y).Fine? && COperator(op, x, y) == WasmBinary(op, n, k)
  {
    hide Bitwise, Convert, Pow2, TruncDiv;
  }

  /** The C expression and the operator of the specification, on readings of the same operands. */
  lemma OperatorAgrees(op: BinOp, x: int, y: int, n: int, k: int)
    requires var m := Modulus(op.width); 0 <= n < m && 0 <= k < m && x % m == n && y % m == k
    requires var m := Modulus(op.width);
      if OperandType(op).signed then x == Signed(m, n) && y == Signed(m, k) else x == n && y == k
    ensures var c, w, m := COperator(op, x, y), WasmBinary(op, n, k), Modulus(BinResult(op));
      (c.Fine? <==> w.Fine?) && (c.Fine? ==> c.result % m == w.result % m) && (c.Traps? ==> c.kind == w.kind)
  {
    hide Convert, Bitwise, Pow2, SwapEnds, RotateLeft, RotateRight, TruncDiv;
    match op.kind
    case DivU => UnsignedDivisionAgrees(op, n, k);
    case RemU => UnsignedDivisionAgrees(op, n, k);
    case DivS => SignedDivisionAgrees(op, n, k);
    case RemS => SignedDivisionAgrees(op, n, k);
    case Add => ArithmeticAgrees(op, x, y, n, k);
    case Sub => ArithmeticAgrees(op, x, y, n, k);
    case Mul => ArithmeticAgrees(op, x, y, n, k);
    case Shl => ShiftsAgree(op, x, y, n, k);
    case ShrS => ShiftsAgree(op, x, y, n, k);
    case ShrU => ShiftsAgree(op, x, y, n, k);
    case Rotl => RotationsAgree(n, k, op.width);
    case Rotr => RotationsAgree(n, k, op.width);
    case And => BitwiseAgrees(op, x, y, n, k);
    case Or => BitwiseAgrees(op, x, y, n, k);
    case Xor => BitwiseAgrees(op, x, y, n, k);
    case _ => ComparisonAgrees(op, x, y, n, k);
  }

  /** Every emitted binary operation computes what the specification says: the same trap, or a word holding the same
      value. */
  lemma BinaryAgrees(op: BinOp, a: Word, b: Word, va: Val, vb: Val)
    requires Holds(a, va) && Holds(b, vb) && va.Type() == vb.Type() == op.width
    ensures BinaryWord(op, a, b).Fine? <==> BinaryVal(op, va, vb).Fine?
    ensures BinaryWord(op, a, b).Fine? ==> Holds(BinaryWord(op, a, b).result, BinaryVal(op, va, vb).result)
    ensures BinaryWord(op, a, b).Traps? ==> BinaryWord(op, a, b).kind == BinaryVal(op, va, vb).kind
  {
    hide COperator, WasmBinary, Read, WordOf, ValOf;
    var t := OperandType(op);
    ReadHolds(t, a, va);
    ReadHolds(t, b, vb);
    var c, w := COperator(op, Read(t, a), Read(t, b)), WasmBinary(op, Unsigned(va), Unsigned(vb));
    OperatorAgrees(op, Read(t, a), Read(t, b), Unsigned(va), Unsigned(vb));
    if c.Fine? {
      HoldsWordOf(BinResult(op), w.result, c.result);
    }
  }

  lemma ModShift8(n: int, j: int)
    ensures (n + j * TWO_8) % TWO_8 == n % TWO_8
  {
  }

  lemma ModShift16(n: int, j: int)
    ensures (n + j * TWO_16) % TWO_16 == n % TWO_16
  {
  }

  lemma ModShift32(n: int, j: int)
    ensures (n + j * TWO_32) % TWO_32 == n % TWO_32
  {
  }

  lemma ModShift(n: int, j: int, m: int)
    requires m == TWO_8 || m == TWO_16 || m == TWO_32
    ensures (n + j * m) % m == n % m
  {
    if m == TWO_8 {
      ModShift8(n, j);
    } else if m == TWO_16 {
      ModShift16(n, j);
    } else {
      ModShift32(n, j);
    }
  }

  lemma LowBits(w: ValType, x: int, n: int, m: int)
    requires x % Modulus(w) == n
    requires m == TWO_8 || m == TWO_16 || m == TWO_32
    ensures x % m == n % m
  {
    var q := x / Modulus(w);
    var f := Modulus(w) / m;
    assert Modulus(w) == f * m;
    assert x == n + q * Modulus(w);
    assert q * (f * m) == (q * f) * m;
    ModShift(n, q * f, m);
  }

  lemma CountAgrees(op: UnOp, w: ValType, a: Word, va: Val)
    requires op == Clz(w) || op == Ctz(w) || op == Popcnt(w)
    requires Holds(a, va) && va.Type() == w
    ensures Holds(UnaryWord(op, a), UnaryVal(op, va))
  {
    hide Convert, LeadingZeros, TrailingZeros, OneBits, CountLeading, CountTrailing;
    var n := Unsigned(va);
    ReadHolds(CType(w, false), a, va);
    CountsAgree(n, w);
    HoldsWordOf(w, WasmUnary(op, n), WasmUnary(op, n));
  }

  /** Every emitted unary operation computes what the specification says. */
  lemma UnaryAgrees(op: UnOp, a: Word, va: Val)
    requires Holds(a, va) && va.Type() == UnOperand(op)
    ensures Holds(UnaryWord(op, a), UnaryVal(op, va))
  {
    hide LeadingZeros, TrailingZeros, OneBits, CountLeading, CountTrailing, Bitwise;
    var n := Unsigned(va);
    var t := CType(UnOperand(op), true);
    ReadHolds(t, a, va);
    var x := Read(t, a);
    LowBits(UnOperand(op), x, n, TWO_8);
    LowBits(UnOperand(op), x, n, TWO_16);
    LowBits(UnOperand(op), x, n, TWO_32);
    match op
    case Eqz(_) => HoldsWordOf(I32, WasmUnary(op, n), WasmUnary(op, n));
    case Extend8S(w) => HoldsWordOf(w, WasmUnary(op, n), WasmUnary(op, n));
    case Extend16S(w) => HoldsWordOf(w, WasmUnary(op, n), WasmUnary(op, n));
    case Extend32S => HoldsWordOf(I64, WasmUnary(op, n), WasmUnary(op, n));
    case Wrap => assert a.lo == n % TWO_32;
    case ExtendI32S => HoldsWordOf(I64, WasmUnary(op, n), x);
    case ExtendI32U =>
      ReadHolds(CType(I32, false), a, va);
      HoldsWordOf(I64, n, n);
    case Clz(w) => CountAgrees(op, w, a, va);
    case Ctz(w) => CountAgrees(op, w, a, va);
    case Popcnt(w) => CountAgrees(op, w, a, va);
  }
}
