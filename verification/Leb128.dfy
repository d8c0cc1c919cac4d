/** LEB128 integers (section 5.2.2 of the WebAssembly Core Specification 1.0): the two readers as the source runs them,
    what they accept, and that every encoding of a number in range, padded or not, reads back as that number.
 */
module Leb128 {
  import opened Words

  datatype Status = Decoded | Underrun | Overflow

  type Bytes = bs: seq<nat> | forall b <- bs :: b < 256 witness []

  /** The weight of digit `k`. */
  function Pow128(k: nat): (p: nat)
    ensures p > 0
  {
    if k == 0 then 1 else 128 * Pow128(k - 1)
  }

  function MaxBytes(bits: nat): nat {
    (bits + 6) / 7
  }

  // ----- what a sequence of bytes encodes -----

  /** The number whose digits are the low seven bits, the first byte lowest. */
  function Number(bs: seq<nat>): nat {
    if bs == [] then 0 else bs[0] % 128 + 128 * Number(bs[1..])
  }

  /** In two's complement: bit 6 of the last byte is the sign. */
  function SignedNumber(bs: seq<nat>): int {
    if bs != [] && bs[|bs| - 1] % 128 >= 64 then Number(bs) - Pow128(|bs|) else Number(bs)
  }

  /** `(byte & 0x7f) << 7 * k`. */
  function Digit(b: nat, k: nat): nat {
    b % 128 * Pow128(k)
  }

  lemma {:induction false} NumberAppend(bs: seq<nat>, b: nat)
    ensures Number(bs + [b]) == Number(bs) + Digit(b, |bs|)
    decreases |bs|
  {
    if bs == [] {
      assert (bs + [b])[1..] == [];
    } else {
      assert (bs + [b])[1..] == bs[1..] + [b];
      NumberAppend(bs[1..], b);
      assert 128 * (b % 128 * Pow128(|bs| - 1)) == b % 128 * (128 * Pow128(|bs| - 1));
    }
  }

  lemma {:induction false} NumberBound(bs: seq<nat>)
    ensures Number(bs) < Pow128(|bs|)
    decreases |bs|
  {
    if bs != [] {
      NumberBound(bs[1..]);
    }
  }

  // ----- which bytes are read -----

  /** The number of leading bytes with the continuation bit, at most `max`. */
  function Continued(bs: seq<nat>, at: nat, max: nat): (r: nat)
    requires at <= |bs|
    ensures r <= max && at + r <= |bs|
    ensures forall i :: at <= i < at + r ==> bs[i] >= 128
    ensures r < max && at + r < |bs| ==> bs[at + r] < 128
    decreases max
  {
    if max == 0 || at == |bs| || bs[at] < 128 then 0 else 1 + Continued(bs, at + 1, max - 1)
  }

  function ReadStatus(bits: nat, bs: seq<nat>, at: nat): Status
    requires at <= |bs|
  {
    var r := Continued(bs, at, MaxBytes(bits));
    if r == MaxBytes(bits) then Overflow else if at + r == |bs| then Underrun else Decoded
  }

  /** Where the cursor ends up. */
  function ReadEnd(bits: nat, bs: seq<nat>, at: nat): (end: nat)
    requires at <= |bs|
    ensures at <= end <= |bs| && end - at <= MaxBytes(bits)
  {
    var r := Continued(bs, at, MaxBytes(bits));
    if ReadStatus(bits, bs, at) == Decoded then at + r + 1 else at + r
  }

  /** `k` bytes with the continuation bit have been passed. */
  lemma {:induction false} ContinuedPast(bs: seq<nat>, at: nat, k: nat, max: nat)
    requires at + k <= |bs| && k <= max && forall i :: at <= i < at + k ==> bs[i] >= 128
    ensures Continued(bs, at, max) == k + Continued(bs, at + k, max - k)
    decreases k
  {
    if k > 0 {
      ContinuedPast(bs, at + 1, k - 1, max - 1);
    }
  }

  // ----- the readers -----

  /** 2^(7k) for the shift counts that occur. */
  lemma Weights()
    ensures Pow128(9) == 0x8000_0000_0000_0000 && Pow128(10) == 64 * TWO_64
  {
    assert Pow128(2) == 0x4000 && Pow128(3) == 128 * 0x4000;
    assert Pow128(4) == 128 * Pow128(3);
    assert Pow128(5) == 128 * Pow128(4) && Pow128(6) == 128 * Pow128(5) && Pow128(7) == 128 * Pow128(6);
    assert Pow128(8) == 128 * Pow128(7) && Pow128(9) == 128 * Pow128(8) && Pow128(10) == 128 * Pow128(9);
  }

  lemma {:induction false} WeightsGrow(j: nat, k: nat)
    requires j <= k
    ensures Pow128(j) <= Pow128(k)
    decreases k
  {
    if j < k {
      WeightsGrow(j, k - 1);
    }
  }

  /** The digit shifted into place; a u64 keeps the low 64 bits. The accumulated value lies below the digit, so `|`
      adds. */
  function Accumulate(value: nat, b: nat, k: nat): nat {
    (value + Digit(b, k)) % TWO_64
  }

  lemma AccumulateNumber(bs: seq<nat>, b: nat)
    ensures Accumulate(Number(bs) % TWO_64, b, |bs|) == Number(bs + [b]) % TWO_64
  {
    hide Number, Digit;
    NumberAppend(bs, b);
    ModAdd(Number(bs), Digit(b, |bs|));
  }

  lemma ModAdd(a: nat, b: nat)
    ensures (a % TWO_64 + b) % TWO_64 == (a + b) % TWO_64
  {
    ModAddLiteral(a, b);
  }

  lemma ModAddLiteral(a: nat, b: nat)
    ensures (a % 0x1_0000_0000_0000_0000 + b) % 0x1_0000_0000_0000_0000 == (a + b) % 0x1_0000_0000_0000_0000
  {
  }

  /** All shift counts up to here were below the width. */
  lemma ShiftCount(bits: nat, k: nat)
    requires bits > 0
    ensures 7 * k >= bits <==> k >= MaxBytes(bits)
  {
  }

  /** The three ways a read ends, after `k` bytes with the continuation bit. */
  lemma {:induction false} ReadEnds(bits: nat, bs: seq<nat>, at: nat, k: nat)
    requires at + k <= |bs| && k <= MaxBytes(bits) && forall i :: at <= i < at + k ==> bs[i] >= 128
    ensures k == MaxBytes(bits) ==> ReadStatus(bits, bs, at) == Overflow && ReadEnd(bits, bs, at) == at + k
    ensures k < MaxBytes(bits) && at + k == |bs| ==>
      ReadStatus(bits, bs, at) == Underrun && ReadEnd(bits, bs, at) == at + k
    ensures k < MaxBytes(bits) && at + k < |bs| && bs[at + k] < 128 ==>
      ReadStatus(bits, bs, at) == Decoded && ReadEnd(bits, bs, at) == at + k + 1
  {
    ContinuedPast(bs, at, k, MaxBytes(bits));
  }

  /** The bytes read so far and their number. */
  lemma NextDigit(bs: seq<nat>, at: nat, next: nat, value: nat)
    requires at <= next < |bs| && value == Number(bs[at..next]) % TWO_64
    ensures Accumulate(value, bs[next], next - at) == Number(bs[at..next + 1]) % TWO_64
  {
    hide Number, Accumulate;
    AccumulateNumber(bs[at..next], bs[next]);
    assert bs[at..next + 1] == bs[at..next] + [bs[next]];
  }

  method ReadLebUnsigned(maxNumBits: nat, bytes: Bytes, at: nat) returns (result: Status, value: nat, next: nat)
    requires 0 < maxNumBits <= 64 && at <= |bytes|
    ensures result == ReadStatus(maxNumBits, bytes, at) && next == ReadEnd(maxNumBits, bytes, at)
    ensures value == Number(bytes[at..next]) % TWO_64
  {
    hide Continued, Number, Accumulate, ReadStatus, ReadEnd;
    result, value, next := Underrun, 0, at;
    var shift := 0;
    NoDigits(bytes, at);
    while next < |bytes|
      invariant at <= next <= |bytes| && shift == 7 * (next - at) && shift < maxNumBits
      invariant result == Underrun && forall i :: at <= i < next ==> bytes[i] >= 128
      invariant value == Number(bytes[at..next]) % TWO_64
    {
      var byte := bytes[next];
      NextDigit(bytes, at, next, value);
      ShiftCount(maxNumBits, next - at);
      ReadEnds(maxNumBits, bytes, at, next - at);
      value := Accumulate(value, byte, shift / 7);
      next := next + 1;
      shift := shift + 7;
      if byte < 128 {
        result := Decoded;
        return;
      }
      ShiftCount(maxNumBits, next - at);
      if shift >= maxNumBits {
        ReadEnds(maxNumBits, bytes, at, next - at);
        result := Overflow;
        return;
      }
    }
    ShiftCount(maxNumBits, next - at);
    ReadEnds(maxNumBits, bytes, at, next - at);
  }

  lemma NoDigits(bs: seq<nat>, at: nat)
    requires at <= |bs|
    ensures Number(bs[at..at]) % TWO_64 == 0
  {
    assert bs[at..at] == [];
  }

  // ----- signed -----

  function AsSigned(n: nat): int {
    if n < 0x8000_0000_0000_0000 then n else n - TWO_64
  }

  /** Setting all bits from `shift` on in a value that has none of them: `value |= (~0 << shift)`. */
  function Extend(value: nat, k: nat): nat {
    (value + TWO_64 - Pow128(k) % TWO_64) % TWO_64
  }

  lemma ExtendNumber(bs: seq<nat>)
    requires 0 < |bs| <= 10
    ensures var n := Number(bs) % TWO_64;
      (if bs[|bs| - 1] % 128 >= 64 && |bs| < 10 then Extend(n, |bs|) else n) == SignedNumber(bs) % TWO_64
  {
    NumberBound(bs);
    Weights();
    if bs[|bs| - 1] % 128 >= 64 {
      if |bs| < 10 {
        WeightsGrow(|bs|, 9);
        SubtractMod(Number(bs), Pow128(|bs|));
      } else {
        SubtractMultiple(Number(bs));
      }
    }
  }

  lemma SubtractMod(a: nat, p: nat)
    requires p < TWO_64
    ensures (a % TWO_64 + TWO_64 - p % TWO_64) % TWO_64 == (a - p) % TWO_64
  {
    SubtractModLiteral(a, p);
  }

  lemma SubtractModLiteral(a: nat, p: nat)
    requires p < 0x1_0000_0000_0000_0000
    ensures (a % 0x1_0000_0000_0000_0000 + 0x1_0000_0000_0000_0000 - p) % 0x1_0000_0000_0000_0000
      == (a - p) % 0x1_0000_0000_0000_0000
  {
  }

  lemma SubtractMultiple(a: nat)
    ensures (a - 64 * TWO_64) % TWO_64 == a % TWO_64
  {
    SubtractMultipleLiteral(a);
  }

  lemma SubtractMultipleLiteral(a: nat)
    ensures (a - 64 * 0x1_0000_0000_0000_0000) % 0x1_0000_0000_0000_0000 == a % 0x1_0000_0000_0000_0000
  {
  }

  method ReadLebSigned(maxNumBits: nat, bytes: Bytes, at: nat) returns (result: Status, value: int, next: nat)
    requires 0 < maxNumBits <= 64 && at <= |bytes|
    ensures result == ReadStatus(maxNumBits, bytes, at) && next == ReadEnd(maxNumBits, bytes, at)
    ensures result == Decoded ==> next > at && value == AsSigned(SignedNumber(bytes[at..next]) % TWO_64)
  {
    hide Continued, Number, Accumulate, ReadStatus, ReadEnd, SignedNumber;
    result, value, next := Underrun, 0, at;
    var word, shift := 0, 0;
    NoDigits(bytes, at);
    while next < |bytes|
      invariant at <= next <= |bytes| && shift == 7 * (next - at) && shift < maxNumBits
      invariant result == Underrun && forall i :: at <= i < next ==> bytes[i] >= 128
      invariant word == Number(bytes[at..next]) % TWO_64
    {
      var byte := bytes[next];
      NextDigit(bytes, at, next, word);
      ShiftCount(maxNumBits, next - at);
      ReadEnds(maxNumBits, bytes, at, next - at);
      word := Accumulate(word, byte, shift / 7);
      next := next + 1;
      shift := shift + 7;
      if byte < 128 {
        ExtendNumber(bytes[at..next]);
        if byte % 128 >= 64 && shift < 64 {
          word := Extend(word, shift / 7);
        }
        result, value := Decoded, AsSigned(word);
        return;
      }
      ShiftCount(maxNumBits, next - at);
      if shift >= maxNumBits {
        ReadEnds(maxNumBits, bytes, at, next - at);
        result, value := Overflow, AsSigned(word);
        return;
      }
    }
    ShiftCount(maxNumBits, next - at);
    ReadEnds(maxNumBits, bytes, at, next - at);
    value := AsSigned(word);
  }

  // ----- encoding -----

  /** The low `n` digits of `u`, all but the last with the continuation bit: the shortest form when `n` is the least
      that fits, a padded one otherwise. */
  function Encode(u: nat, n: nat): (bs: Bytes)
    ensures |bs| == n
    decreases n
  {
    if n == 0 then []
    else if n == 1 then [u % 128]
    else [u % 128 + 128] + Encode(u / 128, n - 1)
  }

  lemma {:induction false} EncodeNumber(u: nat, n: nat)
    requires u < Pow128(n)
    ensures Number(Encode(u, n)) == u
    decreases n
  {
    if n == 1 {
      assert Pow128(1) == 128 * Pow128(0);
      assert Encode(u, 1)[1..] == [];
    } else if n > 1 {
      assert u / 128 < Pow128(n - 1);
      EncodeNumber(u / 128, n - 1);
      assert Encode(u, n)[1..] == Encode(u / 128, n - 1);
    }
  }

  lemma {:induction false} EncodeFlags(u: nat, n: nat)
    requires n > 0
    ensures forall i :: 0 <= i < n - 1 ==> Encode(u, n)[i] >= 128
    ensures Encode(u, n)[n - 1] < 128
    decreases n
  {
    if n > 1 {
      EncodeFlags(u / 128, n - 1);
      assert forall i :: 1 <= i < n ==> Encode(u, n)[i] == Encode(u / 128, n - 1)[i - 1];
    }
  }

  /** The last digit is the number without its lower ones. */
  lemma {:induction false} EncodeLast(u: nat, n: nat)
    requires n > 0 && u < Pow128(n)
    ensures Encode(u, n)[n - 1] % 128 >= 64 <==> 2 * u >= Pow128(n)
    decreases n
  {
    if n == 1 {
      assert Pow128(1) == 128 * Pow128(0);
    } else {
      assert u / 128 < Pow128(n - 1);
      EncodeLast(u / 128, n - 1);
      assert Pow128(n) == 128 * Pow128(n - 1);
      assert Encode(u, n)[n - 1] == Encode(u / 128, n - 1)[n - 2];
      HalfDigits(u, Pow128(n - 1), n - 1);
    }
  }

  lemma {:induction false} HalfDigits(u: nat, p: nat, k: nat)
    requires p == Pow128(k) && k > 0
    ensures 2 * (u / 128) >= p <==> 2 * u >= 128 * p
  {
    assert p == 2 * (64 * Pow128(k - 1));
  }

  /** Reading an encoding that is followed by anything. */
  lemma {:induction false} ReadsWhole(bits: nat, before: seq<nat>, u: nat, n: nat, after: seq<nat>)
    requires bits > 0 && 0 < n <= MaxBytes(bits)
    ensures var bs := before + Encode(u, n) + after;
      && ReadStatus(bits, bs, |before|) == Decoded && ReadEnd(bits, bs, |before|) == |before| + n
      && bs[|before|..|before| + n] == Encode(u, n)
  {
    var bs := before + Encode(u, n) + after;
    EncodeFlags(u, n);
    assert forall i :: 0 <= i < n ==> bs[|before| + i] == Encode(u, n)[i];
    forall i | |before| <= i < |before| + n - 1
      ensures bs[i] >= 128
    {
      assert bs[|before| + (i - |before|)] == Encode(u, n)[i - |before|];
    }
    ReadEnds(bits, bs, |before|, n - 1);
  }

  /** Round trip, unsigned: any encoding of at most ceil(N/7) bytes reads back as the number and uses only its own
      bytes. */
  lemma {:induction false} UnsignedRoundTrip(bits: nat, v: nat, n: nat, before: seq<nat>, after: seq<nat>)
    requires bits > 0 && 0 < n <= MaxBytes(bits) && v < Pow128(n) && v < TWO_64
    ensures var bs, at := before + Encode(v, n) + after, |before|;
      && ReadStatus(bits, bs, at) == Decoded && ReadEnd(bits, bs, at) == at + n
      && Number(bs[at..ReadEnd(bits, bs, at)]) % TWO_64 == v
  {
    ReadsWhole(bits, before, v, n, after);
    EncodeNumber(v, n);
  }

  /** The digits of a number in two's complement. */
  function Complement(v: int, n: nat): nat
    requires v + Pow128(n) >= 0
  {
    if v < 0 then v + Pow128(n) else v
  }

  lemma {:induction false} ComplementNumber(v: int, n: nat)
    requires n > 0 && 0 <= 2 * v + Pow128(n) && 2 * v < Pow128(n)
    ensures Complement(v, n) < Pow128(n) && SignedNumber(Encode(Complement(v, n), n)) == v
  {
    EncodeNumber(Complement(v, n), n);
    EncodeLast(Complement(v, n), n);
  }

  lemma AsSignedMod(v: int)
    requires -0x8000_0000_0000_0000 <= v < 0x8000_0000_0000_0000
    ensures AsSigned(v % TWO_64) == v
  {
    assert v % 0x1_0000_0000_0000_0000 == if v < 0 then v + 0x1_0000_0000_0000_0000 else v;
  }

  /** Round trip, signed. */
  lemma {:induction false} SignedRoundTrip(bits: nat, v: int, n: nat, before: seq<nat>, after: seq<nat>)
    requires bits > 0 && 0 < n <= MaxBytes(bits) && 0 <= 2 * v + Pow128(n) && 2 * v < Pow128(n)
    requires -0x8000_0000_0000_0000 <= v < 0x8000_0000_0000_0000
    ensures var bs, at := before + Encode(Complement(v, n), n) + after, |before|;
      && ReadStatus(bits, bs, at) == Decoded && ReadEnd(bits, bs, at) == at + n
      && AsSigned(SignedNumber(bs[at..ReadEnd(bits, bs, at)]) % TWO_64) == v
  {
    ReadsWhole(bits, before, Complement(v, n), n, after);
    ComplementNumber(v, n);
    AsSignedMod(v);
  }

  // ----- what is accepted -----

  /** Only the continuation bits decide: an encoding is accepted when it ends within ceil(N/7) bytes and within the
      input. */
  lemma {:induction false} AcceptedIff(bits: nat, bs: seq<nat>, at: nat)
    requires at <= |bs|
    ensures ReadStatus(bits, bs, at) == Decoded <==>
      exists k: nat :: k < MaxBytes(bits) && EndsAt(bs, at, k)
  {
    if ReadStatus(bits, bs, at) == Decoded {
      assert EndsAt(bs, at, Continued(bs, at, MaxBytes(bits)));
    }
    if k: nat :| k < MaxBytes(bits) && EndsAt(bs, at, k) {
      ReadEnds(bits, bs, at, k);
    }
  }

  predicate EndsAt(bs: seq<nat>, at: nat, k: nat) {
    at + k < |bs| && bs[at + k] < 128 && forall i :: at <= i < at + k ==> bs[i] >= 128
  }
}
