/**
 Bytes as the circuit sees them. A byte is either a literal or one byte of the SHA-256
 digest of a message. The digest is a free constructor, so two messages with the same
 digest are the same message and no digest byte equals a literal byte: this is
 collision-free hashing with no hash equal to a program constant.
*/
module SymbolicBytes {
  import opened Bits

  type U8 = n: nat | n < 256
  type U16 = n: nat | n < 0x1_0000
  type U32 = n: nat | n < 0x1_0000_0000
  type U64 = n: nat | n < 0x1_0000_0000_0000_0000
  type I32 = n: int | -0x8000_0000 <= n < 0x8000_0000

  datatype Byte = Lit(value: U8) | Digest(message: seq<Byte>, index: nat)

  type Bytes = seq<Byte>
  type Word = w: Bytes | |w| == 32 witness seq(32, i => Lit(0))

  /** hashes.rs: sha256_hash! applied to the concatenation of its arguments. */
  function Sha256(message: Bytes): Word {
    seq(32, k requires 0 <= k < 32 => Digest(message, k))
  }

  /** hashes.rs: double_sha256_hash!. */
  function DoubleSha256(message: Bytes): Word {
    Sha256(Sha256(message))
  }

  lemma Sha256Injective(a: Bytes, b: Bytes)
    requires Sha256(a) == Sha256(b)
    ensures a == b
  {
    assert Sha256(a)[0] == Digest(a, 0) && Sha256(b)[0] == Digest(b, 0);
  }

  lemma DoubleSha256Injective(a: Bytes, b: Bytes)
    requires DoubleSha256(a) == DoubleSha256(b)
    ensures a == b
  {
    Sha256Injective(Sha256(a), Sha256(b));
    Sha256Injective(a, b);
  }

  predicate IsLiteral(w: Bytes) {
    forall k :: 0 <= k < |w| ==> w[k].Lit?
  }

  lemma DigestIsNotLiteral(message: Bytes)
    ensures !IsLiteral(Sha256(message))
  {
    assert Sha256(message)[0] == Digest(message, 0);
  }

  function Literals(values: seq<U8>): (r: Bytes)
    ensures |r| == |values|
  {
    seq(|values|, i requires 0 <= i < |values| => Lit(values[i]))
  }

  // Little-endian encodings of the machine integers (to_le_bytes).

  function Le8(n: U8): Bytes { [Lit(n)] }

  function Le16(n: U16): Bytes { [Lit(n % 256), Lit(n / 256)] }

  function Le32(n: U32): Bytes { Le16(n % 0x1_0000) + Le16(n / 0x1_0000) }

  function Le64(n: U64): Bytes { Le32(n % 0x1_0000_0000) + Le32(n / 0x1_0000_0000) }

  function LeI32(n: I32): Bytes {
    Le32(if n < 0 then n + 0x1_0000_0000 else n)
  }

  lemma Le16Injective(a: U16, b: U16)
    requires Le16(a) == Le16(b)
    ensures a == b
  {
    assert Le16(a)[0].value == Le16(b)[0].value && Le16(a)[1].value == Le16(b)[1].value;
  }

  lemma Le32Injective(a: U32, b: U32)
    requires Le32(a) == Le32(b)
    ensures a == b
  {
    SplitEqual(Le16(a % 0x1_0000), Le16(a / 0x1_0000), Le16(b % 0x1_0000), Le16(b / 0x1_0000));
    Le16Injective(a % 0x1_0000, b % 0x1_0000);
    Le16Injective(a / 0x1_0000, b / 0x1_0000);
  }

  lemma Le64Injective(a: U64, b: U64)
    requires Le64(a) == Le64(b)
    ensures a == b
  {
    var k := 0x1_0000_0000;
    SplitEqual(Le32(a % k), Le32(a / k), Le32(b % k), Le32(b / k));
    Le32Injective(a % k, b % k);
    Le32Injective(a / k, b / k);
  }

  lemma LeI32Injective(a: I32, b: I32)
    requires LeI32(a) == LeI32(b)
    ensures a == b
  {
    Le32Injective(if a < 0 then a + 0x1_0000_0000 else a, if b < 0 then b + 0x1_0000_0000 else b);
  }
}
