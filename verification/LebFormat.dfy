/** The integers of the binary format (section 5.2.2 of the WebAssembly Core Specification 1.0), defined as the
    specification does, by recursion on the width, and exactly which of the bytes that the readers accept are among
    them.
 */
module LebFormat {
  import opened Words
  import opened Leb128

  lemma SevenBits(n: nat)
    requires n >= 7
    ensures Pow2(n) == 128 * Pow2(n - 7) && Pow2(n) >= 128
  {
    assert Pow2(n) == 2 * Pow2(n - 1) && Pow2(n - 1) == 2 * Pow2(n - 2) && Pow2(n - 2) == 2 * Pow2(n - 3);
    assert Pow2(n - 3) == 2 * Pow2(n - 4) && Pow2(n - 4) == 2 * Pow2(n - 5) && Pow2(n - 5) == 2 * Pow2(n - 6);
    assert Pow2(n - 6) == 2 * Pow2(n - 7);
  }

  lemma Widths()
    ensures Pow2(3) == 8 && Pow2(4) == 16 && Pow2(31) == 0x8000_0000 && Pow2(32) == 0x1_0000_0000
    ensures Pow2(63) == 0x8000_0000_0000_0000
  {
    assert Pow2(3) == 2 * Pow2(2) && Pow2(2) == 2 * Pow2(1) && Pow2(1) == 2 * Pow2(0);
    SevenBits(10);
    SevenBits(17);
    SevenBits(24);
    SevenBits(31);
    SevenBits(38);
    SevenBits(45);
    SevenBits(52);
    SevenBits(59);
    assert Pow2(63) == 2 * Pow2(62) && Pow2(62) == 2 * Pow2(61) && Pow2(61) == 2 * Pow2(60);
    assert Pow2(60) == 2 * Pow2(59);
  }

  // ----- the format -----

  /** uN: its value and where it ends. */
  function UnsignedInteger(bits: nat, bs: Bytes, at: nat): (r: Option<(nat, nat)>)
    requires at <= |bs|
    ensures r.Some? ==> at < r.value.1 <= |bs|
    decreases bits
  {
    if at == |bs| then None
    else if bs[at] < 128 then (if bs[at] < Pow2(bits) then Some((bs[at], at + 1)) else None)
    else if bits > 7 then
      var rest :- UnsignedInteger(bits - 7, bs, at + 1);
      Some((128 * rest.0 + (bs[at] - 128), rest.1))
    else None
  }

  function Negative(n: int): int {
    n - 128
  }

  /** sN. */
  function SignedInteger(bits: nat, bs: Bytes, at: nat): (r: Option<(int, nat)>)
    requires at <= |bs| && bits > 0
    ensures r.Some? ==> at < r.value.1 <= |bs|
    decreases bits
  {
    if at == |bs| then None
    else if bs[at] < 64 then (if bs[at] < Pow2(bits - 1) then Some((bs[at], at + 1)) else None)
    else if bs[at] < 128 then (if bs[at] >= 128 - Pow2(bits - 1) then Some((Negative(bs[at]), at + 1)) else None)
    else if bits > 7 then
      var rest :- SignedInteger(bits - 7, bs, at + 1);
      Some((128 * rest.0 + (bs[at] - 128), rest.1))
    else None
  }

  // ----- what sets it apart from what is accepted -----

  /** The bits of the width that are left for the last of the most bytes an integer may have. */
  function LastBits(bits: nat): nat
    requires bits > 0
  {
    bits - 7 * (MaxBytes(bits) - 1)
  }

  /** The last byte of an integer of full length has no bits beyond the width: below 16 for the fifth byte of a u32. */
  predicate UnsignedTight(bits: nat, bs: seq<nat>, at: nat)
    requires bits > 0 && at <= |bs|
  {
    var end := ReadEnd(bits, bs, at);
    end - at == MaxBytes(bits) ==> bs[end - 1] < Pow2(LastBits(bits))
  }

  /** ... or only copies of the sign: below 8 or from 120 on for the fifth byte of an s32. */
  predicate SignedTight(bits: nat, bs: seq<nat>, at: nat)
    requires bits > 0 && at <= |bs|
  {
    var end, half := ReadEnd(bits, bs, at), Pow2(LastBits(bits) - 1);
    end - at == MaxBytes(bits) ==> bs[end - 1] < half || bs[end - 1] >= 128 - half
  }

  lemma OneByteLess(bits: nat)
    requires bits > 7
    ensures MaxBytes(bits) == MaxBytes(bits - 7) + 1
  {
  }

  /** One byte with the continuation bit, and the rest read at a width smaller by seven. */
  lemma {:induction false} NextByte(bits: nat, bs: seq<nat>, at: nat)
    requires bits > 7 && at < |bs| && bs[at] >= 128
    ensures ReadStatus(bits, bs, at) == ReadStatus(bits - 7, bs, at + 1)
    ensures ReadEnd(bits, bs, at) == ReadEnd(bits - 7, bs, at + 1)
    ensures MaxBytes(bits) == MaxBytes(bits - 7) + 1 && LastBits(bits) == LastBits(bits - 7)
    ensures UnsignedTight(bits, bs, at) == UnsignedTight(bits - 7, bs, at + 1)
    ensures SignedTight(bits, bs, at) == SignedTight(bits - 7, bs, at + 1)
  {
    hide MaxBytes, Pow2;
    OneByteLess(bits);
    assert Continued(bs, at, MaxBytes(bits)) == 1 + Continued(bs, at + 1, MaxBytes(bits - 7));
  }

  lemma {:induction false} FirstDigit(bs: Bytes, at: nat, end: nat)
    requires at < end <= |bs|
    ensures Number(bs[at..end]) == bs[at] % 128 + 128 * Number(bs[at + 1..end])
    ensures at + 1 < end ==> SignedNumber(bs[at..end]) == bs[at] % 128 + 128 * SignedNumber(bs[at + 1..end])
    ensures at + 1 == end ==> Number(bs[at..end]) == bs[at] % 128
    ensures at + 1 == end ==>
      SignedNumber(bs[at..end]) == if bs[at] % 128 < 64 then bs[at] % 128 else Negative(bs[at] % 128)
  {
    assert bs[at..end][1..] == bs[at + 1..end];
    assert at + 1 == end ==> bs[at + 1..end] == [];
    assert Pow128(1) == 128 * Pow128(0);
  }

  /** A last byte that is also the first. */
  lemma {:induction false} LastUnsigned(bits: nat, bs: Bytes, at: nat)
    requires bits > 0 && at < |bs| && bs[at] < 128
    ensures ReadStatus(bits, bs, at) == Decoded && ReadEnd(bits, bs, at) == at + 1
    ensures UnsignedTight(bits, bs, at) <==> UnsignedInteger(bits, bs, at).Some?
    ensures UnsignedTight(bits, bs, at) ==> UnsignedInteger(bits, bs, at) == Some((Number(bs[at..at + 1]), at + 1))
  {
    hide Number, Pow2, SignedNumber;
    ReadEnds(bits, bs, at, 0);
    FirstDigit(bs, at, at + 1);
    if bits > 7 {
      SevenBits(bits);
    }
  }

  /** The integers of the format are those the reader accepts whose last byte has no excess bits. */
  lemma {:induction false} UnsignedExact(bits: nat, bs: Bytes, at: nat)
    requires bits > 0 && at <= |bs|
    ensures UnsignedInteger(bits, bs, at)
      == if ReadStatus(bits, bs, at) == Decoded && UnsignedTight(bits, bs, at)
         then Some((Number(bs[at..ReadEnd(bits, bs, at)]), ReadEnd(bits, bs, at))) else None
    decreases bits
  {
    hide Number, Pow2, SignedNumber, ReadStatus, ReadEnd, UnsignedTight, UnsignedInteger;
    if at < |bs| && bs[at] < 128 {
      LastUnsigned(bits, bs, at);
    } else if at < |bs| && bits > 7 {
      UnsignedStep(bits, bs, at);
      NextByte(bits, bs, at);
      UnsignedExact(bits - 7, bs, at + 1);
      if ReadStatus(bits, bs, at) == Decoded {
        SomeRead(bits - 7, bs, at + 1);
        FirstDigit(bs, at, ReadEnd(bits, bs, at));
      }
    } else {
      UnsignedEnds(bits, bs, at);
      NotDecoded(bits, bs, at);
    }
  }

  lemma UnsignedStep(bits: nat, bs: Bytes, at: nat)
    requires bits > 7 && at < |bs| && bs[at] >= 128
    ensures UnsignedInteger(bits, bs, at)
      == match UnsignedInteger(bits - 7, bs, at + 1)
         case None => None
         case Some(rest) => Some((bs[at] % 128 + 128 * rest.0, rest.1))
  {
  }

  lemma UnsignedEnds(bits: nat, bs: Bytes, at: nat)
    requires at <= |bs| && (at == |bs| || (bs[at] >= 128 && bits <= 7))
    ensures UnsignedInteger(bits, bs, at) == None
  {
  }

  lemma SomeRead(bits: nat, bs: seq<nat>, at: nat)
    requires at <= |bs| && ReadStatus(bits, bs, at) == Decoded
    ensures at < ReadEnd(bits, bs, at)
  {
  }

  lemma {:induction false} SignedExact(bits: nat, bs: Bytes, at: nat)
    requires bits > 0 && at <= |bs|
    ensures SignedInteger(bits, bs, at)
      == if ReadStatus(bits, bs, at) == Decoded && SignedTight(bits, bs, at)
         then Some((SignedNumber(bs[at..ReadEnd(bits, bs, at)]), ReadEnd(bits, bs, at))) else None
    decreases bits
  {
    hide Number, Pow2, SignedNumber, ReadStatus, ReadEnd, SignedTight, SignedInteger;
    if at < |bs| && bs[at] < 128 {
      LastSigned(bits, bs, at);
    } else if at < |bs| && bits > 7 {
      SignedStep(bits, bs, at);
      NextByte(bits, bs, at);
      SignedExact(bits - 7, bs, at + 1);
      if ReadStatus(bits, bs, at) == Decoded {
        SomeRead(bits - 7, bs, at + 1);
        FirstDigit(bs, at, ReadEnd(bits, bs, at));
      }
    } else {
      SignedEnds(bits, bs, at);
      NotDecoded(bits, bs, at);
    }
  }

  lemma SignedStep(bits: nat, bs: Bytes, at: nat)
    requires bits > 7 && at < |bs| && bs[at] >= 128
    ensures SignedInteger(bits, bs, at)
      == match SignedInteger(bits - 7, bs, at + 1)
         case None => None
         case Some(rest) => Some((bs[at] % 128 + 128 * rest.0, rest.1))
  {
  }

  lemma SignedEnds(bits: nat, bs: Bytes, at: nat)
    requires bits > 0 && at <= |bs| && (at == |bs| || (bs[at] >= 128 && bits <= 7))
    ensures SignedInteger(bits, bs, at) == None
  {
  }

  lemma NotDecoded(bits: nat, bs: seq<nat>, at: nat)
    requires bits > 0 && at <= |bs| && (at == |bs| || (bs[at] >= 128 && bits <= 7))
    ensures ReadStatus(bits, bs, at) != Decoded
  {
  }

  /** A last byte that is also the first. */
  lemma {:induction false} LastSigned(bits: nat, bs: Bytes, at: nat)
    requires bits > 0 && at < |bs| && bs[at] < 128
    ensures ReadStatus(bits, bs, at) == Decoded && ReadEnd(bits, bs, at) == at + 1
    ensures SignedTight(bits, bs, at) <==> SignedInteger(bits, bs, at).Some?
    ensures SignedTight(bits, bs, at) ==>
      SignedInteger(bits, bs, at) == Some((SignedNumber(bs[at..at + 1]), at + 1))
  {
    hide Number, Pow2, SignedNumber;
    ReadEnds(bits, bs, at, 0);
    FirstDigit(bs, at, at + 1);
    if bits > 7 {
      HalfWidth(bits);
    } else {
      HalfByte(bits);
    }
  }

  lemma HalfWidth(bits: nat)
    requires bits > 7
    ensures Pow2(bits - 1) >= 64
  {
    SevenBits(bits);
    assert Pow2(bits) == 2 * Pow2(bits - 1);
  }

  lemma HalfByte(n: nat)
    requires 0 < n <= 7
    ensures Pow2(n - 1) <= 64
  {
    assert Pow2(6) == 2 * Pow2(5) && Pow2(5) == 2 * Pow2(4) && Pow2(4) == 2 * Pow2(3) && Pow2(3) == 2 * Pow2(2);
    assert Pow2(2) == 2 * Pow2(1) && Pow2(1) == 2 * Pow2(0);
  }

  // ----- ranges -----

  lemma {:induction false} UnsignedRange(bits: nat, bs: Bytes, at: nat)
    requires bits > 0 && at <= |bs| && ReadStatus(bits, bs, at) == Decoded
    ensures UnsignedTight(bits, bs, at) <==> Number(bs[at..ReadEnd(bits, bs, at)]) < Pow2(bits)
    decreases bits
  {
    hide Number, Pow2, SignedNumber, ReadStatus, ReadEnd, UnsignedTight;
    SomeRead(bits, bs, at);
    FirstDigit(bs, at, ReadEnd(bits, bs, at));
    if bs[at] < 128 {
      LastUnsigned(bits, bs, at);
    } else if bits > 7 {
      SevenBits(bits);
      NextByte(bits, bs, at);
      UnsignedRange(bits - 7, bs, at + 1);
    } else {
      NotDecoded(bits, bs, at);
    }
  }

  predicate InSignedRange(v: int, bits: nat)
    requires bits > 0
  {
    0 <= v + Pow2(bits - 1) && v < Pow2(bits - 1)
  }

  lemma {:induction false} SignedRange(bits: nat, bs: Bytes, at: nat)
    requires bits > 0 && at <= |bs| && ReadStatus(bits, bs, at) == Decoded
    ensures SignedTight(bits, bs, at) <==> InSignedRange(SignedNumber(bs[at..ReadEnd(bits, bs, at)]), bits)
    decreases bits
  {
    hide Number, Pow2, SignedNumber, ReadStatus, ReadEnd, SignedTight;
    SomeRead(bits, bs, at);
    FirstDigit(bs, at, ReadEnd(bits, bs, at));
    if bs[at] < 128 {
      LastSigned(bits, bs, at);
    } else if bits > 7 {
      NextByte(bits, bs, at);
      SomeRead(bits - 7, bs, at + 1);
      SignedRange(bits - 7, bs, at + 1);
      HalfScaled(bits);
    } else {
      NotDecoded(bits, bs, at);
    }
  }

  lemma HalfScaled(bits: nat)
    requires bits > 7
    ensures Pow2(bits - 1) == 128 * Pow2(bits - 8)
  {
    SevenBits(bits - 1);
  }

  // ----- the casts behind the readers -----

  /** ReadLEB_u32 keeps the low 32 bits: the encoded number unless there is a fifth byte of 16 or more. */
  lemma {:induction false} U32Exact(bs: Bytes, at: nat)
    requires at <= |bs| && ReadStatus(32, bs, at) == Decoded
    ensures var end := ReadEnd(32, bs, at);
      Number(bs[at..end]) % TWO_64 % 0x1_0000_0000 == Number(bs[at..end]) <==> (end - at < 5 || bs[at + 4] < 16)
  {
    hide Number, Pow2;
    UnsignedRange(32, bs, at);
    Widths();
    FiveBytes(bs, at);
    LowBits(Number(bs[at..ReadEnd(32, bs, at)]));
  }

  lemma {:induction false} FiveBytes(bs: Bytes, at: nat)
    requires at <= |bs| && ReadStatus(32, bs, at) == Decoded
    ensures var end := ReadEnd(32, bs, at);
      end - at <= 5 && Number(bs[at..end]) < 0x8_0000_0000
      && -0x8_0000_0000 <= SignedNumber(bs[at..end]) < 0x8_0000_0000 && bs[end - 1] < 128
  {
    var end := ReadEnd(32, bs, at);
    NumberBound(bs[at..end]);
    WeightsGrow(end - at, 5);
    assert Pow128(5) == 128 * Pow128(4) && Pow128(4) == 128 * Pow128(3) && Pow128(3) == 128 * Pow128(2);
    assert Pow128(2) == 128 * Pow128(1) && Pow128(1) == 128 * Pow128(0);
  }

  lemma LowBits(n: nat)
    requires n < 0x8_0000_0000
    ensures n % TWO_64 % 0x1_0000_0000 == n <==> n < 0x1_0000_0000
  {
  }

  function AsSigned32(n: nat): int {
    if n < 0x8000_0000 then n else n - 0x1_0000_0000
  }

  /** ReadLEB_i32: unless the fifth byte lies between 8 and 119. */
  lemma {:induction false} I32Exact(bs: Bytes, at: nat)
    requires at <= |bs| && ReadStatus(32, bs, at) == Decoded
    ensures var end := ReadEnd(32, bs, at); var v := SignedNumber(bs[at..end]);
      AsSigned32(AsSigned(v % TWO_64) % 0x1_0000_0000) == v <==> (end - at < 5 || bs[at + 4] < 8 || bs[at + 4] >= 120)
  {
    hide Number, SignedNumber, Pow2, AsSigned;
    SignedRange(32, bs, at);
    Widths();
    FiveBytes(bs, at);
    var v := SignedNumber(bs[at..ReadEnd(32, bs, at)]);
    AsSignedMod(v);
    LowSignedBits(v);
  }

  lemma LowSignedBits(v: int)
    requires -0x8_0000_0000 <= v < 0x8_0000_0000
    ensures AsSigned32(v % 0x1_0000_0000) == v <==> -0x8000_0000 <= v < 0x8000_0000
  {
  }

  /** ReadLEB_i64: unless the tenth byte is neither 0 nor 127. */
  lemma {:induction false} I64Exact(bs: Bytes, at: nat)
    requires at <= |bs| && ReadStatus(64, bs, at) == Decoded
    ensures var end := ReadEnd(64, bs, at); var v := SignedNumber(bs[at..end]);
      AsSigned(v % TWO_64) == v <==> (end - at < 10 || bs[at + 9] == 0 || bs[at + 9] == 127)
  {
    hide Number, SignedNumber, AsSigned, Pow2, ReadStatus, ReadEnd;
    SignedRange(64, bs, at);
    Widths();
    var v := SignedNumber(bs[at..ReadEnd(64, bs, at)]);
    if -0x8000_0000_0000_0000 <= v < 0x8000_0000_0000_0000 {
      AsSignedMod(v);
    } else {
      AsSignedRange(v);
    }
    FinalByte(bs, at);
  }

  lemma AsSignedRange(v: int)
    ensures -0x8000_0000_0000_0000 <= AsSigned(v % TWO_64) < 0x8000_0000_0000_0000
  {
  }

  /** The tenth byte of an accepted i64 is its last. */
  lemma FinalByte(bs: Bytes, at: nat)
    requires at <= |bs| && ReadStatus(64, bs, at) == Decoded
    ensures var end := ReadEnd(64, bs, at); end - at <= 10 && bs[end - 1] < 128
    ensures Pow2(LastBits(64) - 1) == 1
  {
  }

  /** The integers beyond the width are accepted all the same: five bytes that encode 2^32 read as 0. */
  lemma OutOfRangeAccepted()
    ensures var bs: Bytes := [0x80, 0x80, 0x80, 0x80, 0x10];
      && ReadStatus(32, bs, 0) == Decoded && ReadEnd(32, bs, 0) == 5 && UnsignedInteger(32, bs, 0) == None
      && Number(bs[0..5]) == 0x1_0000_0000 && Number(bs[0..5]) % TWO_64 % 0x1_0000_0000 == 0
  {
    hide Number, Pow2, ReadStatus, ReadEnd, UnsignedInteger;
    var bs: Bytes := [0x80, 0x80, 0x80, 0x80, 0x10];
    ReadEnds(32, bs, 0, 4);
    UnsignedExact(32, bs, 0);
    Widths();
    FirstDigit(bs, 0, 5);
    FirstDigit(bs, 1, 5);
    FirstDigit(bs, 2, 5);
    FirstDigit(bs, 3, 5);
    FirstDigit(bs, 4, 5);
  }
}
