/** circuits/src/bitcoin.rs: compact targets, the hash threshold and the 256-bit work. */
module ProofOfWork {
  import opened Wrappers
  import opened Bits
  import opened SymbolicBytes

  type Digits = seq<U8>

  function LittleEndian(b: Digits): nat {
    if b == [] then 0 else b[0] + 256 * LittleEndian(b[1..])
  }

  function Pow256(k: nat): (r: nat)
    ensures r > 0
  {
    if k == 0 then 1 else 256 * Pow256(k - 1)
  }

  /** 2^256, the modulus of U256. */
  function Modulus(): (r: nat)
    ensures r > 1
  {
    assert Pow256(32) == 256 * Pow256(31);
    Pow256(32)
  }

  function Zeros(k: nat): Digits {
    seq(k, _ => 0)
  }

  lemma {:induction false} LittleEndianBound(b: Digits)
    ensures LittleEndian(b) < Pow256(|b|)
  {
    if b != [] {
      LittleEndianBound(b[1..]);
    }
  }

  lemma {:induction false} LittleEndianAppend(a: Digits, b: Digits)
    ensures LittleEndian(a + b) == LittleEndian(a) + Pow256(|a|) * LittleEndian(b)
  {
    if a == [] {
      assert a + b == b;
    } else {
      assert (a + b)[1..] == a[1..] + b;
      LittleEndianAppend(a[1..], b);
      MulAssociates(256, Pow256(|a| - 1), LittleEndian(b));
    }
  }

  lemma {:induction false} LittleEndianZeros(k: nat)
    ensures LittleEndian(Zeros(k)) == 0
  {
    if k > 0 {
      assert Zeros(k)[1..] == Zeros(k - 1);
      LittleEndianZeros(k - 1);
    }
  }

  // Decoding.

  /** The three bytes the decoder puts together, the fourth being the exponent. */
  function MantissaOf(b: Digits): (r: nat)
    requires |b| == 4
    ensures r < 0x100_0000
  {
    b[2] as nat * 0x1_0000 + b[1] as nat * 0x100 + b[0]
  }

  function BitsBytes(bits: U32): (r: Digits)
    ensures |r| == 4
  {
    [bits % 256, bits / 256 % 256, bits / 256 / 256 % 256, bits / 256 / 256 / 256]
  }

  /** The fields of the compact form, taken from its little-endian bytes as the code does. */
  function Exponent(bits: U32): U8 { BitsBytes(bits)[3] }

  function Mantissa(bits: U32): (r: nat)
    ensures r < 0x100_0000
  {
    MantissaOf(BitsBytes(bits))
  }

  /** They are the quotient and the remainder by 2^24. */
  lemma CompactFields(bits: U32)
    ensures Exponent(bits) == bits / 0x100_0000 && Mantissa(bits) == bits % 0x100_0000
  {
    QuotientUnique(bits, 0x100_0000, bits / 256 / 256 / 256, Mantissa(bits));
  }

  /** (value >> 8 * i) as u8, for a 24-bit value. */
  function ByteOf(value: nat, i: nat): U8
    requires value < 0x100_0000
  {
    match i
    case 0 => value % 256
    case 1 => value / 0x100 % 256
    case 2 => value / 0x1_0000
    case _ => 0
  }

  /** The 32 bytes the decoder produces; None where it indexes out of range. */
  function DecodedTarget(exponent: U8, mantissa: nat): (r: Option<Digits>)
    requires mantissa < 0x100_0000
    ensures r.Some? <==> exponent <= 32
    ensures r.Some? ==> |r.value| == 32
  {
    if exponent > 32 then None
    else if exponent > 3 then
      Some(Zeros(exponent - 3)
           + [ByteOf(mantissa, 0), ByteOf(mantissa, 1), ByteOf(mantissa, 2)]
           + Zeros(32 - exponent))
    else
      // The short branch fills the high end of the array from byte 4 - exponent upwards.
      Some(seq(32, j requires 0 <= j < 32 =>
        if j > 31 - exponent then ByteOf(mantissa, 4 - exponent + 31 - j) else 0))
  }

  method DecodeCompactTarget(bits: Digits) returns (r: Option<Digits>)
    requires |bits| == 4
    ensures r == DecodedTarget(bits[3], MantissaOf(bits))
  {
    var target := new U8[32](_ => 0);
    var exponent := bits[3];
    var value := MantissaOf(bits);
    if exponent <= 3 {
      var startIndex := 4 - exponent;
      for i := 0 to exponent
        invariant forall j :: 0 <= j < 32 ==>
                    target[j] == if j > 31 - i then ByteOf(value, 4 - exponent + 31 - j) else 0
      {
        target[31 - i] := ByteOf(value, startIndex + i);
      }
    } else {
      for i := 0 to 3
        invariant i > 0 ==> exponent <= 34
        invariant forall j :: 0 <= j < 32 ==>
                    target[j] == if exponent - 3 <= j < exponent - 3 + i then ByteOf(value, j - (exponent - 3)) else 0
        invariant i > 0 ==> exponent - 3 + i <= 32
      {
        if exponent - 3 + i >= 32 {
          return None;
        }
        target[exponent - 3 + i] := ByteOf(value, i);
      }
    }
    r := Some(target[..]);
    assert r.value == DecodedTarget(exponent, value).value;
  }

  /** For exponents 4 to 32 the decoded bytes are the integer mantissa * 256^(exponent - 3). */
  lemma DecodedTargetValue(exponent: U8, mantissa: nat)
    requires 4 <= exponent <= 32 && mantissa < 0x100_0000
    ensures LittleEndian(DecodedTarget(exponent, mantissa).value) == mantissa * Pow256(exponent - 3)
  {
    var low, high := Zeros(exponent - 3), Zeros(32 - exponent);
    var middle := [ByteOf(mantissa, 0), ByteOf(mantissa, 1), ByteOf(mantissa, 2)];
    LittleEndianZeros(exponent - 3);
    LittleEndianZeros(32 - exponent);
    LittleEndianAppend(middle, high);
    LittleEndianAppend(low, middle + high);
    assert low + middle + high == low + (middle + high);
    MiddleValue(mantissa);
    var p := Pow256(exponent - 3);
    assert p * mantissa == mantissa * p;
  }

  lemma MiddleValue(mantissa: nat)
    requires mantissa < 0x100_0000
    ensures LittleEndian([ByteOf(mantissa, 0), ByteOf(mantissa, 1), ByteOf(mantissa, 2)]) == mantissa
  {
    var m := [ByteOf(mantissa, 0), ByteOf(mantissa, 1), ByteOf(mantissa, 2)];
    assert m[1..] == [m[1], m[2]] && m[1..][1..] == [m[2]] && m[1..][1..][1..] == [];
    assert LittleEndian([m[2]]) == m[2];
    assert LittleEndian([m[1], m[2]]) == m[1] as nat + 256 * m[2] as nat;
  }

  /** For exponents up to 3 the upper mantissa bytes land at the high end of the 32 bytes. */
  lemma ShortDecodedBytes(exponent: U8, mantissa: nat, j: nat)
    requires exponent <= 3 && mantissa < 0x100_0000 && j < 32
    ensures DecodedTarget(exponent, mantissa).value[j] ==
            if exponent == 3 && j == 31 then mantissa / 0x100 % 256
            else if (exponent == 3 && j == 30) || (exponent == 2 && j == 31) then mantissa / 0x1_0000
            else 0
  {
    assert DecodedTarget(exponent, mantissa).value[j]
        == if j > 31 - exponent then ByteOf(mantissa, 4 - exponent + 31 - j) else 0;
    hide DecodedTarget;
  }

  lemma ShortDecodedValue(exponent: U8, mantissa: nat)
    requires exponent <= 3 && mantissa < 0x100_0000
    ensures LittleEndian(DecodedTarget(exponent, mantissa).value) ==
            Pow256(30) * (if exponent == 3 then mantissa / 0x1_0000 + 256 * (mantissa / 0x100 % 256)
                          else if exponent == 2 then 256 * (mantissa / 0x1_0000)
                          else 0)
  {
    hide DecodedTarget, Pow256, LittleEndian;
    var target := DecodedTarget(exponent, mantissa).value;
    forall j: nat | j < 30 ensures target[j] == Zeros(30)[j] {
      ShortDecodedBytes(exponent, mantissa, j);
    }
    ShortDecodedBytes(exponent, mantissa, 30);
    ShortDecodedBytes(exponent, mantissa, 31);
    var top := [target[30], target[31]];
    assert target == Zeros(30) + top;
    LittleEndianAppend(Zeros(30), top);
    LittleEndianZeros(30);
    TwoDigits(top);
  }

  lemma TwoDigits(b: Digits)
    requires |b| == 2
    ensures LittleEndian(b) == b[0] as nat + 256 * b[1] as nat
  {
    assert b[1..] == [b[1]] && b[1..][1..] == [];
    assert LittleEndian([b[1]]) == b[1];
  }

  /** The integer a compact form stands for: the mantissa shifted up, or down, by whole bytes. */
  function CompactTarget(exponent: nat, mantissa: nat): int {
    if exponent > 3 then mantissa * Pow256(exponent - 3) else mantissa / Pow256(3 - exponent)
  }

  /** The decoder gives the compact form's integer exactly from exponent 4 on, or where it is zero. */
  lemma DecodedIsCompactIff(exponent: U8, mantissa: nat)
    requires exponent <= 32 && mantissa < 0x100_0000
    ensures LittleEndian(DecodedTarget(exponent, mantissa).value) == CompactTarget(exponent, mantissa)
            <==> exponent > 3 || mantissa < Pow256(3 - exponent)
  {
    hide DecodedTarget, LittleEndian, Pow256;
    if exponent > 3 {
      DecodedTargetValue(exponent, mantissa);
    } else {
      hide CompactTarget;
      ShortDecodedValue(exponent, mantissa);
      ShortCompact(exponent, mantissa);
      Pow256Monotone(3, 30);
      ShortMismatch(exponent, mantissa, Pow256(30));
    }
  }

  /** 256^(3 - exponent). */
  function ShiftedOut(exponent: nat): (r: nat)
    requires exponent <= 3
    ensures r > 0
  {
    if exponent == 3 then 1 else if exponent == 2 then 0x100 else if exponent == 1 then 0x1_0000 else 0x100_0000
  }

  lemma ShortCompact(exponent: nat, mantissa: nat)
    requires exponent <= 3
    ensures Pow256(3 - exponent) == ShiftedOut(exponent) && Pow256(3) == 0x100_0000
    ensures CompactTarget(exponent, mantissa) == mantissa / ShiftedOut(exponent)
  {
    SmallPowers();
    hide Pow256;
  }

  lemma SmallPowers()
    ensures Pow256(0) == 1 && Pow256(1) == 0x100 && Pow256(2) == 0x1_0000 && Pow256(3) == 0x100_0000
  {
  }

  lemma ShortMismatch(exponent: nat, mantissa: nat, top: nat)
    requires exponent <= 3 && mantissa < 0x100_0000 && top >= 0x100_0000
    ensures var scaled := if exponent == 3 then mantissa / 0x1_0000 + 256 * (mantissa / 0x100 % 256)
                          else if exponent == 2 then 256 * (mantissa / 0x1_0000)
                          else 0;
            top * scaled == mantissa / ShiftedOut(exponent) <==> mantissa < ShiftedOut(exponent)
  {
    var scaled := if exponent == 3 then mantissa / 0x1_0000 + 256 * (mantissa / 0x100 % 256)
                  else if exponent == 2 then 256 * (mantissa / 0x1_0000)
                  else 0;
    if scaled > 0 {
      MulMonotone(top, top, 1, scaled);
    }
  }

  /** The failing input: exponent 3 and mantissa 256 stand for 256, and decode to 256^31. */
  lemma ShortTargetIsHuge()
    ensures CompactTarget(3, 0x100) == 0x100
    ensures LittleEndian(DecodedTarget(3, 0x100).value) == Pow256(31)
  {
    hide *;
    ShortDecodedValue(3, 0x100);
    ShortCompact(3, 0x100);
    ThirdShift();
    Pow256Split(30, 1);
    SmallPowers();
  }

  lemma ThirdShift()
    ensures ShiftedOut(3) == 1
  {
  }

  // The threshold.

  lemma {:induction false} CompareFromTop(a: Digits, b: Digits, i: nat)
    requires |a| == |b| && i < |a|
    requires a[i + 1..] == b[i + 1..] && a[i] < b[i]
    ensures LittleEndian(a) < LittleEndian(b)
    decreases |a|
  {
    if i == 0 {
      assert a[1..] == b[1..];
    } else {
      assert a[1..][i..] == a[i + 1..] && b[1..][i..] == b[i + 1..];
      CompareFromTop(a[1..], b[1..], i - 1);
    }
  }

  /** check_hash_valid: false is the panic. The scan from byte 31 decides the integer order. */
  method CheckHashValid(hash: Digits, target: Digits) returns (ok: bool)
    requires |hash| == |target| == 32
    ensures ok <==> LittleEndian(hash) <= LittleEndian(target)
  {
    for i := 32 downto 0
      invariant hash[i..] == target[i..]
    {
      assert hash[i..] == [hash[i]] + hash[i + 1..] && target[i..] == [target[i]] + target[i + 1..];
      if hash[i] > target[i] {
        CompareFromTop(target, hash, i);
        return false;
      } else if hash[i] < target[i] {
        CompareFromTop(hash, target, i);
        return true;
      }
    }
    assert hash[0..] == hash && target[0..] == target;
    return true;
  }

  // The work.

  /** calculate_work: U256::MAX / saturating(target + 1). */
  function CalculateWork(target: Digits): (work: nat)
    ensures work < Modulus()
  {
    var targetPlusOne := Min(LittleEndian(target) + 1, Modulus() - 1);
    DivAtMost(Modulus() - 1, targetPlusOne);
    (Modulus() - 1) / targetPlusOne
  }

  lemma {:induction false} Pow256IsPow2(k: nat)
    ensures Pow256(k) == Pow2(8 * k)
  {
    if k > 0 {
      Pow256IsPow2(k - 1);
      var j := 8 * (k - 1);
      assert Pow2(j + 8) == 2 * (2 * (2 * (2 * (2 * (2 * (2 * (2 * Pow2(j)))))))) by {
        assert Pow2(j + 4) == 2 * Pow2(j + 3) && Pow2(j + 2) == 2 * Pow2(j + 1);
        assert Pow2(j + 6) == 2 * Pow2(j + 5);
      }
    }
  }

  /** An odd divisor of a power of two is one. */
  lemma {:induction false} OddDivisorOfPow2(d: nat, q: nat, k: nat)
    requires d % 2 == 1 && d * q == Pow2(k)
    ensures d == 1
    decreases k
  {
    if k == 0 {
      if q > 0 {
        MulMonotone(d, d, 1, q);
      }
    } else {
      var h := d / 2;
      assert d * q == 2 * (h * q) + q;
      var r := q / 2;
      assert q == 2 * r;
      assert d * q == 2 * (d * r);
      OddDivisorOfPow2(d, r, k - 1);
    }
  }

  lemma DivPredecessor(n: nat, d: nat)
    requires n > 0 && d > 0
    ensures (n - 1) / d == n / d <==> n % d != 0
  {
    var q, r := n / d, n % d;
    DivMod(n, d);
    if r != 0 {
      QuotientUnique(n - 1, d, q, r - 1);
    } else {
      assert (q - 1) * d == q * d - d;
      QuotientUnique(n - 1, d, q - 1, d - 1);
    }
  }

  /** The target of a compact form with exponent 4 to 32, out of quotient and remainder by 2^24. */
  function Target(bits: U32): nat
    requires 4 <= bits / 0x100_0000 <= 32
  {
    (bits % 0x100_0000) * Pow256(bits / 0x100_0000 - 3)
  }

  /** The decoded bytes are the target. */
  lemma DecodesToTarget(bits: U32)
    requires 4 <= bits / 0x100_0000 <= 32
    ensures 4 <= Exponent(bits) <= 32 && Target(bits) == Mantissa(bits) * Pow256(Exponent(bits) - 3)
    ensures LittleEndian(DecodedTarget(Exponent(bits), Mantissa(bits)).value) == Target(bits)
  {
    CompactFields(bits);
    hide Exponent, Mantissa, DecodedTarget, LittleEndian, Pow256;
    DecodedTargetValue(Exponent(bits), Mantissa(bits));
  }

  lemma TargetBelowMax(bits: U32)
    requires 4 <= bits / 0x100_0000 <= 32
    ensures Target(bits) + 1 < Modulus() && Target(bits) % 2 == 0
    ensures Target(bits) == 0 <==> bits % 0x100_0000 == 0
  {
    CompactFields(bits);
    DecodesToTarget(bits);
    hide Exponent, Mantissa, Target;
    TopOfRange(Exponent(bits), Mantissa(bits));
  }

  lemma TopOfRange(e: nat, m: nat)
    requires 4 <= e <= 32 && m < 0x100_0000
    ensures m * Pow256(e - 3) + 1 < Modulus() && m * Pow256(e - 3) % 2 == 0
    ensures m * Pow256(e - 3) == 0 <==> m == 0
  {
    EvenProduct(m, Pow256(e - 4));
    Pow256Monotone(1, e - 3);
    Pow256Monotone(e, 32);
    PowThreeUp(e);
    assert Pow256(1) == 256;
    BelowTop(m, Pow256(e - 3), Pow256(e));
  }

  lemma BelowTop(m: nat, q: nat, top: nat)
    requires m < 0x100_0000 && q >= 256 && top == 0x100_0000 * q
    ensures m * q + 1 < top
    ensures m * q == 0 <==> m == 0
  {
    MulMonotone(m, 0xff_ffff, q, q);
    if m > 0 {
      MulMonotone(1, m, 1, q);
    }
  }

  lemma EvenProduct(m: nat, p: nat)
    ensures m * (256 * p) % 2 == 0
  {
    assert m * (256 * p) == 2 * (m * (128 * p));
  }

  lemma PowThreeUp(e: nat)
    requires e >= 3
    ensures Pow256(e) == 0x100_0000 * Pow256(e - 3)
  {
    assert Pow256(e) == 256 * Pow256(e - 1) && Pow256(e - 1) == 256 * Pow256(e - 2);
  }

  lemma {:induction false} Pow256Split(a: nat, b: nat)
    ensures Pow256(a + b) == Pow256(a) * Pow256(b)
  {
    if a > 0 {
      Pow256Split(a - 1, b);
      MulAssociates(256, Pow256(a - 1), Pow256(b));
    }
  }

  lemma {:induction false} Pow256Monotone(a: nat, b: nat)
    requires a <= b
    ensures Pow256(a) <= Pow256(b)
    decreases b - a
  {
    if a < b {
      Pow256Monotone(a + 1, b);
    }
  }

  /**
   For exponents 4 to 32, dividing 2^256 - 1 gives exactly floor(2^256 / (target + 1)) if
   and only if the mantissa is not zero.
  */
  lemma WorkExactIff(bits: U32)
    requires 4 <= bits / 0x100_0000 <= 32
    ensures Exponent(bits) <= 32
    ensures CalculateWork(DecodedTarget(Exponent(bits), Mantissa(bits)).value)
            == Modulus() / (Target(bits) + 1)
            <==> bits % 0x100_0000 != 0
  {
    hide Modulus, Exponent, Mantissa, Pow256, DecodedTarget, Target;
    DecodesToTarget(bits);
    TargetBelowMax(bits);
    var k := ModulusIsPowerOfTwo();
    ExactQuotientIff(Target(bits), k);
  }

  /** The failing input with exponent 32: a zero mantissa claims 2^256 - 1, not 2^256. */
  lemma ZeroMantissaWork()
    ensures DecodedTarget(Exponent(0x2000_0000), Mantissa(0x2000_0000)).Some?
    ensures CalculateWork(DecodedTarget(Exponent(0x2000_0000), Mantissa(0x2000_0000)).value)
            != Modulus() / (Target(0x2000_0000) + 1)
  {
    hide *;
    WorkExactIff(0x2000_0000);
  }

  lemma ExactQuotientIff(target: nat, k: nat)
    requires target % 2 == 0
    ensures (Pow2(k) - 1) / (target + 1) == Pow2(k) / (target + 1) <==> target != 0
  {
    var d := target + 1;
    DivPredecessor(Pow2(k), d);
    if Pow2(k) % d == 0 {
      DivMod(Pow2(k), d);
      OddDivisorOfPow2(d, Pow2(k) / d, k);
    }
  }

  lemma ModulusIsPowerOfTwo() returns (k: nat)
    ensures Modulus() == Pow2(k)
  {
    Pow256IsPow2(32);
    k := 8 * 32;
  }

  /** The outcome of validate_threshold_and_add_work: None is the panic. */
  function ValidateAndAdd(bits: U32, hash: Digits, oldWork: nat): Option<nat>
    requires |hash| == 32
  {
    var target :- DecodedTarget(Exponent(bits), Mantissa(bits));
    if LittleEndian(hash) <= LittleEndian(target) then Some((oldWork + CalculateWork(target)) % Modulus())
    else None
  }

  method ValidateThresholdAndAddWork(bits: Digits, blockHash: Digits, oldWork: nat) returns (r: Option<nat>)
    requires |bits| == 4 && |blockHash| == 32
    ensures forall b: U32 :: BitsBytes(b) == bits ==> r == ValidateAndAdd(b, blockHash, oldWork)
  {
    var target :- DecodeCompactTarget(bits);
    var ok := CheckHashValid(blockHash, target);
    if !ok {
      return None;
    }
    var work := CalculateWork(target);
    return Some((oldWork + work) % Modulus());
  }

  /** A block is accepted exactly when its hash, read little-endian, is at most the target. */
  lemma ThresholdIff(bits: U32, hash: Digits, oldWork: nat)
    requires |hash| == 32 && 4 <= bits / 0x100_0000 <= 32
    ensures ValidateAndAdd(bits, hash, oldWork).Some? <==> LittleEndian(hash) <= Target(bits)
    ensures LittleEndian(hash) <= Target(bits) && bits % 0x100_0000 != 0 ==>
              ValidateAndAdd(bits, hash, oldWork)
              == Some((oldWork + Modulus() / (Target(bits) + 1)) % Modulus())
  {
    hide Modulus, Exponent, Mantissa, Pow256, CalculateWork, Target;
    DecodesToTarget(bits);
    WorkExactIff(bits);
  }
}
