/** Machine words and WebAssembly integer values.

    The engine is modelled in its one-word-per-slot configuration: a slot and the integer register `_r0` both hold
    64 bits. A 32-bit operation only reads and writes the low half of a slot, so a word is kept as its two halves.
 */
module Words {

  const TWO_8 := 0x100
  const TWO_16 := 0x1_0000
  const TWO_32 := 0x1_0000_0000
  const TWO_64 := 0x1_0000_0000_0000_0000

  type U32 = n: int | 0 <= n < 0x1_0000_0000

  function Pow2(k: nat): (p: int)
    ensures p >= 1
  {
    if k == 0 then 1 else 2 * Pow2(k - 1)
  }

  lemma {:induction false} Pow2Add(j: nat, k: nat)
    ensures Pow2(j + k) == Pow2(j) * Pow2(k)
    decreases k
  {
    if k > 0 {
      Pow2Add(j, k - 1);
      assert Pow2(j + k) == 2 * Pow2(j + (k - 1));
      assert 2 * (Pow2(j) * Pow2(k - 1)) == Pow2(j) * (2 * Pow2(k - 1));
    }
  }

  /** The content of one slot, of one constant-table entry, or of `_r0`. */
  datatype Word = Word(lo: U32, hi: U32)

  const ZERO := Word(0, 0)

  datatype ValType = I32 | I64

  /** A typed WebAssembly value. */
  datatype Val = V32(bits32: U32) | V64(bits64: Word)
  {
    function Type(): ValType {
      if V32? then I32 else I64
    }
  }

  /** The word denotes the value; the high half is irrelevant for an i32. */
  predicate Holds(w: Word, v: Val) {
    match v
    case V32(x) => w.lo == x
    case V64(x) => w == x
  }

  /** Writing `w` through a pointer to `ty`: a 32-bit store keeps the high half of the slot. */
  function Store(was: Word, ty: ValType, w: Word): Word {
    match ty
    case I32 => was.(lo := w.lo)
    case I64 => w
  }

  /** Reading a slot as a signed `ty` and assigning it to `_r0`. */
  function LoadSigned(ty: ValType, w: Word): Word {
    match ty
    case I32 => Word(w.lo, if w.lo < 0x8000_0000 then 0 else 0xFFFF_FFFF)
    case I64 => w
  }

  /** The word a value of this type occupies when nothing else was ever stored there. */
  function ToWord(v: Val): Word {
    match v
    case V32(x) => Word(x, 0)
    case V64(x) => x
  }

  function Zero(ty: ValType): Val {
    match ty
    case I32 => V32(0)
    case I64 => V64(ZERO)
  }

  function TypesOf(vs: seq<Val>): (ts: seq<ValType>)
    ensures |ts| == |vs|
    ensures forall i :: 0 <= i < |vs| ==> ts[i] == vs[i].Type()
  {
    seq(|vs|, i requires 0 <= i < |vs| => vs[i].Type())
  }

  datatype Option<+T> = None | Some(value: T)
  {
    predicate IsFailure() { None? }

    function PropagateFailure<U>(): Option<U>
      requires None?
    {
      None
    }

    function Extract(): T
      requires Some?
    {
      value
    }

    function GetOr(default: T): T {
      if Some? then value else default
    }
  }

  datatype TrapKind = DivisionByZero | IntegerOverflow | Unreachable | StackOverflow

  datatype Checked<+T> = Fine(result: T) | Traps(kind: TrapKind)
}
