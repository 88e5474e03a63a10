/** circuits/src/bridge.rs: reading batches of block headers and hashing them into a chain. */
module Headers {
  import opened Wrappers
  import opened Bits
  import opened SymbolicBytes
  import opened Tape
  import opened ProofOfWork
  import opened IncrementalMerkle

  /** A block header as the tape carries it: without the hash of the block before. */
  datatype Header = Header(version: I32, merkleRoot: Word, time: U32, bits: U32, nonce: U32)

  /** What a byte is worth as a number: the circuit compares hashes as integers. */
  type Interpretation = Byte -> U8

  function Value(interp: Interpretation, w: Bytes): (r: Digits)
    ensures |r| == |w| && forall k :: 0 <= k < |w| ==> r[k] == interp(w[k])
  {
    if w == [] then [] else [interp(w[0])] + Value(interp, w[1..])
  }

  function HeaderBytes(prev: Word, h: Header): Bytes {
    LeI32(h.version) + (prev + (h.merkleRoot + (Le32(h.time) + (Le32(h.bits) + Le32(h.nonce)))))
  }

  /** calculate_next_block_hash. */
  function BlockHash(prev: Word, h: Header): Word {
    DoubleSha256(HeaderBytes(prev, h))
  }

  /** A block hash commits to its header and to the block before. */
  lemma BlockHashCommits(p: Word, a: Header, q: Word, b: Header)
    requires BlockHash(p, a) == BlockHash(q, b)
    ensures p == q && a == b
  {
    DoubleSha256Injective(HeaderBytes(p, a), HeaderBytes(q, b));
    var a4, b4 := Le32(a.bits) + Le32(a.nonce), Le32(b.bits) + Le32(b.nonce);
    var a3, b3 := Le32(a.time) + a4, Le32(b.time) + b4;
    var a2, b2 := a.merkleRoot + a3, b.merkleRoot + b3;
    SplitEqual(LeI32(a.version), p + a2, LeI32(b.version), q + b2);
    LeI32Injective(a.version, b.version);
    SplitEqual(p, a2, q, b2);
    SplitEqual(a.merkleRoot, a3, b.merkleRoot, b3);
    SplitEqual(Le32(a.time), a4, Le32(b.time), b4);
    Le32Injective(a.time, b.time);
    SplitEqual(Le32(a.bits), Le32(a.nonce), Le32(b.bits), Le32(b.nonce));
    Le32Injective(a.bits, b.bits);
    Le32Injective(a.nonce, b.nonce);
  }

  /** The hash of the last of a list of linked headers. */
  function HashAfter(start: Word, headers: seq<Header>): Word {
    if headers == [] then start
    else BlockHash(HashAfter(start, headers[..|headers| - 1]), headers[|headers| - 1])
  }

  /** The hash of every block of the list, oldest first. */
  function BlockHashes(start: Word, headers: seq<Header>): (r: seq<Word>)
    ensures |r| == |headers|
  {
    if headers == [] then []
    else BlockHashes(start, headers[..|headers| - 1]) + [HashAfter(start, headers)]
  }

  lemma EmptyChain(start: Word)
    ensures HashAfter(start, []) == start && BlockHashes(start, []) == []
    ensures SumOfWork([]) == 0 && SumOfWork([]) % Modulus() == 0
  {
    DivMod(0, Modulus());
  }

  lemma HashAfterSnoc(start: Word, headers: seq<Header>, h: Header)
    ensures HashAfter(start, headers + [h]) == BlockHash(HashAfter(start, headers), h)
    ensures BlockHashes(start, headers + [h]) == BlockHashes(start, headers) + [HashAfter(start, headers + [h])]
  {
    assert (headers + [h])[..|headers|] == headers;
  }

  lemma {:induction false} HashAfterAppend(start: Word, a: seq<Header>, b: seq<Header>)
    ensures HashAfter(start, a + b) == HashAfter(HashAfter(start, a), b)
    ensures BlockHashes(start, a + b) == BlockHashes(start, a) + BlockHashes(HashAfter(start, a), b)
    decreases |b|
  {
    if b == [] {
      assert a + b == a;
    } else {
      var b', h := b[..|b| - 1], b[|b| - 1];
      assert b == b' + [h] && a + b == (a + b') + [h];
      HashAfterAppend(start, a, b');
      HashAfterSnoc(start, a + b', h);
      HashAfterSnoc(HashAfter(start, a), b', h);
    }
  }

  lemma {:induction false} BlockHashAt(start: Word, headers: seq<Header>, k: nat)
    requires k < |headers|
    ensures BlockHashes(start, headers)[k] == BlockHash(HashAfter(start, headers[..k]), headers[k])
    decreases |headers|
  {
    var n := |headers| - 1;
    if k < n {
      BlockHashAt(start, headers[..n], k);
      assert headers[..n][..k] == headers[..k];
    }
  }

  /** The work a header claims. */
  function WorkOf(bits: U32): nat {
    match DecodedTarget(Exponent(bits), Mantissa(bits))
    case Some(target) => CalculateWork(target)
    case None => 0
  }

  /** It is floor(2^256 / (target + 1)) for exponents 4 to 32 and a mantissa other than zero. */
  lemma WorkOfIs(bits: U32)
    requires 4 <= bits / 0x100_0000 <= 32 && bits % 0x100_0000 != 0
    ensures WorkOf(bits) == Modulus() / (Target(bits) + 1)
  {
    hide Modulus, Exponent, Mantissa, CalculateWork, Target;
    WorkExactIff(bits);
  }

  function SumOfWork(headers: seq<Header>): nat {
    if headers == [] then 0 else SumOfWork(headers[..|headers| - 1]) + WorkOf(headers[|headers| - 1].bits)
  }

  lemma SumOfWorkSnoc(headers: seq<Header>, h: Header)
    ensures SumOfWork(headers + [h]) == SumOfWork(headers) + WorkOf(h.bits)
  {
    assert (headers + [h])[..|headers|] == headers;
  }

  lemma {:induction false} SumOfWorkAppend(a: seq<Header>, b: seq<Header>)
    ensures SumOfWork(a + b) == SumOfWork(a) + SumOfWork(b)
    decreases |b|
  {
    if b == [] {
      assert a + b == a;
    } else {
      var b', h := b[..|b| - 1], b[|b| - 1];
      assert b == b' + [h] && a + b == (a + b') + [h];
      SumOfWorkAppend(a, b');
      SumOfWorkSnoc(a + b', h);
      SumOfWorkSnoc(b', h);
    }
  }

  /** A hash meets the target its header states. */
  predicate MeetsTarget(interp: Interpretation, bits: U32, hash: Word) {
    var target := DecodedTarget(Exponent(bits), Mantissa(bits));
    target.Some? && LittleEndian(Value(interp, hash)) <= LittleEndian(target.value)
  }

  /** As integers: with exponent 4 to 32 the hash is at most the target, above 32 none meets it. */
  lemma MeetsTargetIff(interp: Interpretation, bits: U32, hash: Word)
    ensures bits / 0x100_0000 > 32 ==> !MeetsTarget(interp, bits, hash)
    ensures 4 <= bits / 0x100_0000 <= 32 ==>
              (MeetsTarget(interp, bits, hash) <==> LittleEndian(Value(interp, hash)) <= Target(bits))
    ensures bits / 0x100_0000 <= 3 ==>
              (MeetsTarget(interp, bits, hash) <==>
                LittleEndian(Value(interp, hash)) <=
                Pow256(30) * (if bits / 0x100_0000 == 3
                              then bits % 0x100_0000 / 0x1_0000 + 256 * (bits % 0x100_0000 / 0x100 % 256)
                              else if bits / 0x100_0000 == 2 then 256 * (bits % 0x100_0000 / 0x1_0000)
                              else 0))
  {
    CompactFields(bits);
    hide Exponent, Mantissa, DecodedTarget, LittleEndian, Pow256, Target, Value;
    if 4 <= Exponent(bits) <= 32 {
      DecodesToTarget(bits);
    } else if Exponent(bits) <= 3 {
      ShortDecodedValue(Exponent(bits), Mantissa(bits));
    }
  }

  /** Every block of the chain meets its own target. */
  ghost predicate Mined(interp: Interpretation, start: Word, headers: seq<Header>) {
    forall k :: 0 <= k < |headers| ==> MeetsTarget(interp, headers[k].bits, BlockHashes(start, headers)[k])
  }

  lemma MinedSnoc(interp: Interpretation, start: Word, headers: seq<Header>, h: Header)
    ensures Mined(interp, start, headers + [h])
            <==> Mined(interp, start, headers) && MeetsTarget(interp, h.bits, BlockHash(HashAfter(start, headers), h))
  {
    HashAfterSnoc(start, headers, h);
    var all := headers + [h];
    assert all[|headers|] == h;
    if Mined(interp, start, all) {
      forall k | 0 <= k < |headers|
        ensures MeetsTarget(interp, headers[k].bits, BlockHashes(start, headers)[k])
      {
        assert all[k] == headers[k];
      }
    }
  }

  // Reading.

  function ReadHeader(tape: seq<Item>): Read<Header> {
    var (version, t1) :- NextI32(tape);
    var (merkleRoot, t2) :- NextWord(t1);
    var (time, t3) :- NextU32(t2);
    var (bits, t4) :- NextU32(t3);
    var (nonce, t5) :- NextU32(t4);
    Got(Header(version, merkleRoot, time, bits, nonce), t5)
  }

  /** `count` headers after those in `acc`, each checked against its target. */
  function ReadHeaders(interp: Interpretation, tape: seq<Item>, count: nat, start: Word, acc: seq<Header>)
    : (r: Read<seq<Header>>)
    ensures r.Got? ==> |r.value| == |acc| + count && acc <= r.value
    ensures r.Got? && Mined(interp, start, acc) ==> Mined(interp, start, r.value)
    decreases count
  {
    if count == 0 then Got(acc, tape)
    else
      var (h, t) :- ReadHeader(tape);
      if MeetsTarget(interp, h.bits, BlockHash(HashAfter(start, acc), h)) then
        MinedSnoc(interp, start, acc, h);
        ReadHeaders(interp, t, count - 1, start, acc + [h])
      else Panic
  }

  lemma ReadHeadersStep(interp: Interpretation, tape: seq<Item>, count: nat, start: Word, acc: seq<Header>)
    requires count > 0
    ensures var r := ReadHeader(tape);
            ReadHeaders(interp, tape, count, start, acc)
            == if r.Got? && MeetsTarget(interp, r.value.bits, BlockHash(HashAfter(start, acc), r.value))
               then ReadHeaders(interp, r.rest, count - 1, start, acc + [r.value]) else Panic
  {
    hide ReadHeader, MeetsTarget, BlockHash, HashAfter, Mined;
  }

  lemma NoHeadersLeft(interp: Interpretation, tape: seq<Item>, start: Word, acc: seq<Header>)
    ensures ReadHeaders(interp, tape, 0, start, acc) == Got(acc, tape)
  {
  }

  datatype Batch = Batch(headers: seq<Header>, lcBlockHash: Word)

  const ZERO_WORD: Word :=
    Literals([0, 0, 0, 0, 0, 0, 0, 0, 0, 0, 0, 0, 0, 0, 0, 0, 0, 0, 0, 0, 0, 0, 0, 0, 0, 0, 0, 0, 0, 0, 0, 0])

  /** The chain hash just before the last `maxOps` headers; zero bytes if that index is never met. */
  function LcBlockHash(start: Word, headers: seq<Header>, maxOps: U32): Word {
    if 0 < maxOps <= |headers| then HashAfter(start, headers[..|headers| - maxOps]) else ZERO_WORD
  }

  /** The variable of the loop over `n` headers once these have been read. */
  function LcSoFar(start: Word, headers: seq<Header>, n: U32, maxOps: U32): Word {
    if maxOps <= n && n - maxOps < |headers| then HashAfter(start, headers[..n - maxOps]) else ZERO_WORD
  }

  lemma LcSoFarSnoc(start: Word, headers: seq<Header>, h: Header, n: U32, maxOps: U32)
    requires maxOps <= n
    ensures LcSoFar(start, headers + [h], n, maxOps)
            == if |headers| == n - maxOps then HashAfter(start, headers) else LcSoFar(start, headers, n, maxOps)
  {
    hide HashAfter;
    if n - maxOps <= |headers| {
      assert (headers + [h])[..n - maxOps] == headers[..n - maxOps];
    }
  }

  lemma NoLcYet(start: Word, n: U32, maxOps: U32)
    ensures LcSoFar(start, [], n, maxOps) == ZERO_WORD
  {
  }

  lemma LcAtEnd(start: Word, headers: seq<Header>, maxOps: U32)
    requires |headers| < 0x1_0000_0000
    ensures LcSoFar(start, headers, |headers|, maxOps) == LcBlockHash(start, headers, maxOps)
  {
  }

  /**
   read_blocks_and_add_to_merkle_tree. Two u32 overflows are panics: n - maxOps inside the
   loop, and the counter of the tree, which already holds `leafCount` leaves.
  */
  function ReadBatch(interp: Interpretation, tape: seq<Item>, start: Word, maxOps: U32, leafCount: nat): Read<Batch> {
    var (n, t) :- NextU32(tape);
    if (0 < n < maxOps) || (n > 0 && leafCount + n >= 0x1_0000_0000) then Panic
    else
      var (headers, rest) :- ReadHeaders(interp, t, n, start, []);
      Got(Batch(headers, LcBlockHash(start, headers, maxOps)), rest)
  }

  /** n - max_block_handle_ops where the subtraction wraps instead of panicking. */
  function WrappedIndex(n: U32, maxOps: U32): U32 {
    (n + 0x1_0000_0000 - maxOps) % 0x1_0000_0000
  }

  /** The loop meets that index exactly when the plain difference is one of its indices. */
  lemma WrappedIndexIsMet(n: U32, maxOps: U32)
    ensures WrappedIndex(n, maxOps) < n <==> 0 < maxOps <= n
    ensures 0 < maxOps <= n ==> WrappedIndex(n, maxOps) == n - maxOps
  {
  }

  /** The same function in a build without overflow checks. */
  function ReadBatchWrapping(interp: Interpretation, tape: seq<Item>, start: Word, maxOps: U32): Read<Batch> {
    var (n, t) :- NextU32(tape);
    var (headers, rest) :- ReadHeaders(interp, t, n, start, []);
    var i := WrappedIndex(n, maxOps);
    Got(Batch(headers, if i < |headers| then HashAfter(start, headers[..i]) else ZERO_WORD), rest)
  }

  /**
   The two builds agree except where the checked one panics; there, on a batch of fewer than
   maxOps headers, the other one reports zero bytes as the light-client hash.
  */
  lemma BuildsAgree(interp: Interpretation, tape: seq<Item>, start: Word, maxOps: U32, leafCount: nat)
    requires NextU32(tape).Got?
    ensures var n := NextU32(tape).value;
            ReadBatch(interp, tape, start, maxOps, leafCount)
            == if (0 < n < maxOps) || (n > 0 && leafCount + n >= 0x1_0000_0000) then Panic
               else ReadBatchWrapping(interp, tape, start, maxOps)
    ensures var r := ReadBatchWrapping(interp, tape, start, maxOps);
            r.Got? && NextU32(tape).value < maxOps ==> r.value.lcBlockHash == ZERO_WORD
  {
    hide ReadHeaders, HashAfter, Mined;
    WrappedIndexIsMet(NextU32(tape).value, maxOps);
  }

  function ReadWorkBatch(interp: Interpretation, tape: seq<Item>, start: Word): Read<seq<Header>> {
    var (n, t) :- NextU32(tape);
    ReadHeaders(interp, t, n, start, [])
  }

  method ReadHeaderExceptPrevBlockhash(env: Environment) returns (r: Option<Header>)
    requires env.Valid()
    modifies env`cursor
    ensures env.Valid() && r == ReadHeader(old(env.Rest())).ToOption()
    ensures r.Some? ==> env.Rest() == ReadHeader(old(env.Rest())).rest
  {
    var version :- env.ReadI32();
    var merkleRoot :- env.Read32Bytes();
    var time :- env.ReadU32();
    var bits :- env.ReadU32();
    var nonce :- env.ReadU32();
    return Some(Header(version, merkleRoot, time, bits, nonce));
  }

  /** One header of the loop: hash it, check it, add its work. */
  method NextBlock(interp: Interpretation, h: Header, prev: Word, totalWork: nat) returns (r: Option<(Word, nat)>)
    ensures var hash := BlockHash(prev, h);
            r == if MeetsTarget(interp, h.bits, hash) then Some((hash, (totalWork + WorkOf(h.bits)) % Modulus()))
                 else None
  {
    hide CalculateWork, Modulus, BlockHash, LittleEndian;
    var hash := BlockHash(prev, h);
    var work :- ValidateThresholdAndAddWork(BitsBytes(h.bits), Value(interp, hash), totalWork);
    return Some((hash, work));
  }

  lemma AddMod(sum: nat, acc: nat, w: nat, m: nat)
    requires m > 0 && acc == sum % m
    ensures (acc + w) % m == (sum + w) % m
  {
    DivMod(sum, m);
    DivMod(sum + w, m);
    var q := (sum + w) / m - sum / m;
    assert acc + w == q * m + (sum + w) % m;
    QuotientUnique(acc + w, m, q, (sum + w) % m);
  }

  /** The rest of the loop: the block's hash also becomes a leaf of the tree. */
  method AddBlock(interp: Interpretation, h: Header, prev: Word, totalWork: nat, imt: IncrementalMerkleTree,
                  ghost start: Word, ghost headers: seq<Header>)
    returns (r: Option<(Word, nat)>)
    requires imt.Valid()
    requires prev == HashAfter(start, headers) && totalWork == SumOfWork(headers) % Modulus()
    modifies imt, imt.filledSubtrees
    ensures r.Some? <==> MeetsTarget(interp, h.bits, BlockHash(prev, h)) && old(|imt.Leaves|) + 1 < 0x1_0000_0000
    ensures r.Some? ==>
              && r.value == (HashAfter(start, headers + [h]), SumOfWork(headers + [h]) % Modulus())
              && imt.Valid() && imt.Leaves == old(imt.Leaves) + [HashAfter(start, headers + [h])]
  {
    hide Modulus, BlockHash, MeetsTarget, WorkOf, IncrementalMerkleTree.Valid;
    HashAfterSnoc(start, headers, h);
    SumOfWorkSnoc(headers, h);
    AddMod(SumOfWork(headers), totalWork, WorkOf(h.bits), Modulus());
    var next :- NextBlock(interp, h, prev, totalWork);
    var ok := imt.Add(next.0);
    if !ok {
      return None;
    }
    return Some(next);
  }

  method ReadBlocksAndAddToMerkleTree(interp: Interpretation, env: Environment, startPrevBlockHash: Word,
                                      imt: IncrementalMerkleTree, maxBlockHandleOps: U32)
    returns (r: Option<(nat, Word, Word)>)
    requires env.Valid() && imt.Valid()
    modifies env`cursor, imt, imt.filledSubtrees
    ensures env.Valid()
    ensures var spec := ReadBatch(interp, old(env.Rest()), startPrevBlockHash, maxBlockHandleOps, old(|imt.Leaves|));
            && (r.Some? <==> spec.Got?)
            && (r.Some? ==>
                  var b := spec.value;
                  && r.value == (SumOfWork(b.headers) % Modulus(), b.lcBlockHash,
                                 HashAfter(startPrevBlockHash, b.headers))
                  && env.Rest() == spec.rest
                  && imt.Valid() && imt.Leaves == old(imt.Leaves) + BlockHashes(startPrevBlockHash, b.headers))
  {
    hide Modulus, BlockHash, MeetsTarget, Mined, ReadHeader, ReadHeaders, WorkOf, BlockHashes, HashAfter, SumOfWork;
    hide IncrementalMerkleTree.Valid, LcSoFar;
    EmptyChain(startPrevBlockHash);
    var n :- env.ReadU32();
    ghost var tape := env.Rest();
    var totalWork := 0;
    var currPrevBlockHash := startPrevBlockHash;
    var lcBlockHash := ZERO_WORD;
    ghost var headers: seq<Header> := [];
    NoLcYet(startPrevBlockHash, n, maxBlockHandleOps);
    for i := 0 to n
      invariant env.Valid() && imt.Valid() && |headers| == i
      invariant i > 0 ==> maxBlockHandleOps <= n && old(|imt.Leaves|) + i < 0x1_0000_0000
      invariant ReadHeaders(interp, tape, n, startPrevBlockHash, [])
                == ReadHeaders(interp, env.Rest(), n - i, startPrevBlockHash, headers)
      invariant currPrevBlockHash == HashAfter(startPrevBlockHash, headers)
      invariant imt.Leaves == old(imt.Leaves) + BlockHashes(startPrevBlockHash, headers)
      invariant totalWork == SumOfWork(headers) % Modulus()
      invariant lcBlockHash == LcSoFar(startPrevBlockHash, headers, n, maxBlockHandleOps)
    {
      ReadHeadersStep(interp, env.Rest(), n - i, startPrevBlockHash, headers);
      var header :- ReadHeaderExceptPrevBlockhash(env);
      if n < maxBlockHandleOps {
        return None;
      }
      if i == n - maxBlockHandleOps {
        lcBlockHash := currPrevBlockHash;
      }
      HashAfterSnoc(startPrevBlockHash, headers, header);
      var next :- AddBlock(interp, header, currPrevBlockHash, totalWork, imt, startPrevBlockHash, headers);
      currPrevBlockHash := next.0;
      totalWork := next.1;
      LcSoFarSnoc(startPrevBlockHash, headers, header, n, maxBlockHandleOps);
      headers := headers + [header];
    }
    NoHeadersLeft(interp, env.Rest(), startPrevBlockHash, headers);
    LcAtEnd(startPrevBlockHash, headers, maxBlockHandleOps);
    return Some((totalWork, lcBlockHash, currPrevBlockHash));
  }

  method ReadBlocksAndCalculateWork(interp: Interpretation, env: Environment, startPrevBlockHash: Word)
    returns (r: Option<nat>)
    requires env.Valid()
    modifies env`cursor
    ensures env.Valid()
    ensures var spec := ReadWorkBatch(interp, old(env.Rest()), startPrevBlockHash);
            && (r.Some? <==> spec.Got?)
            && (r.Some? ==> r.value == SumOfWork(spec.value) % Modulus() && env.Rest() == spec.rest)
  {
    hide Modulus, BlockHash, MeetsTarget, Mined, ReadHeader, ReadHeaders, WorkOf, HashAfter, SumOfWork;
    EmptyChain(startPrevBlockHash);
    var numBlocks :- env.ReadU32();
    ghost var tape := env.Rest();
    var totalWork := 0;
    var currPrevBlockHash := startPrevBlockHash;
    ghost var headers: seq<Header> := [];
    for i := 0 to numBlocks
      invariant env.Valid() && |headers| == i
      invariant ReadHeaders(interp, tape, numBlocks, startPrevBlockHash, [])
                == ReadHeaders(interp, env.Rest(), numBlocks - i, startPrevBlockHash, headers)
      invariant currPrevBlockHash == HashAfter(startPrevBlockHash, headers)
      invariant totalWork == SumOfWork(headers) % Modulus()
    {
      ReadHeadersStep(interp, env.Rest(), numBlocks - i, startPrevBlockHash, headers);
      var header :- ReadHeaderExceptPrevBlockhash(env);
      HashAfterSnoc(startPrevBlockHash, headers, header);
      SumOfWorkSnoc(headers, header);
      AddMod(SumOfWork(headers), totalWork, WorkOf(header.bits), Modulus());
      var next :- NextBlock(interp, header, currPrevBlockHash, totalWork);
      currPrevBlockHash := next.0;
      totalWork := next.1;
      headers := headers + [header];
    }
    NoHeadersLeft(interp, env.Rest(), startPrevBlockHash, headers);
    return Some(totalWork);
  }

  // Batches.

  /** Reading on from `acc` is reading afresh from the hash `acc` ends at. */
  lemma {:induction false} ReadHeadersRebase(interp: Interpretation, tape: seq<Item>, count: nat,
                                             start: Word, acc: seq<Header>, more: seq<Header>)
    ensures var joined := ReadHeaders(interp, tape, count, start, acc + more);
            var fresh_ := ReadHeaders(interp, tape, count, HashAfter(start, acc), more);
            && (joined.Got? <==> fresh_.Got?)
            && (joined.Got? ==> joined.value == acc + fresh_.value && joined.rest == fresh_.rest)
    decreases count
  {
    hide BlockHash, MeetsTarget, Mined, ReadHeader;
    HashAfterAppend(start, acc, more);
    if count > 0 {
      var r := ReadHeader(tape);
      if r.Got? {
        assert acc + more + [r.value] == acc + (more + [r.value]);
        ReadHeadersRebase(interp, r.rest, count - 1, start, acc, more + [r.value]);
      }
    }
  }

  lemma {:induction false} ReadHeadersSplit(interp: Interpretation, tape: seq<Item>, a: nat, b: nat,
                                            start: Word, acc: seq<Header>)
    ensures ReadHeaders(interp, tape, a + b, start, acc)
            == var first := ReadHeaders(interp, tape, a, start, acc);
               if first.Panic? then Panic else ReadHeaders(interp, first.rest, b, start, first.value)
    decreases a
  {
    hide BlockHash, MeetsTarget, Mined, ReadHeader;
    if a > 0 {
      var r := ReadHeader(tape);
      if r.Got? {
        ReadHeadersSplit(interp, r.rest, a - 1, b, start, acc + [r.value]);
      }
    }
  }

  /**
   One batch of a + b headers and two batches, the second started at the hash the first
   ended with, accept the same tapes and give the same final hash, the same block hashes
   in the tree, and the same work mod 2^256.
  */
  lemma BatchesCompose(interp: Interpretation, tape: seq<Item>, a: nat, b: nat, start: Word)
    ensures var whole := ReadHeaders(interp, tape, a + b, start, []);
            var one := ReadHeaders(interp, tape, a, start, []);
            var two := if one.Got? then ReadHeaders(interp, one.rest, b, HashAfter(start, one.value), []) else Panic;
            && (whole.Got? <==> two.Got?)
            && (whole.Got? ==>
                  && whole.rest == two.rest
                  && HashAfter(start, whole.value) == HashAfter(HashAfter(start, one.value), two.value)
                  && BlockHashes(start, whole.value)
                     == BlockHashes(start, one.value) + BlockHashes(HashAfter(start, one.value), two.value)
                  && SumOfWork(whole.value) % Modulus()
                     == (SumOfWork(one.value) % Modulus() + SumOfWork(two.value) % Modulus()) % Modulus())
  {
    hide MeetsTarget, Mined, ReadHeader, ReadHeaders, Modulus, HashAfter, BlockHashes, SumOfWork;
    ReadHeadersSplit(interp, tape, a, b, start, []);
    var one := ReadHeaders(interp, tape, a, start, []);
    if one.Got? {
      ReadHeadersRebase(interp, one.rest, b, start, one.value, []);
      assert one.value + [] == one.value;
      var two := ReadHeaders(interp, one.rest, b, HashAfter(start, one.value), []);
      if two.Got? {
        HashAfterAppend(start, one.value, two.value);
        SumOfWorkAppend(one.value, two.value);
        var s, t, m := SumOfWork(one.value), SumOfWork(two.value), Modulus();
        AddMod(s, s % m, t % m, m);
        AddMod(t, t % m, s, m);
      }
    }
  }

  /**
   For n >= maxOps >= 1 the light-client hash is the chain hash after the first n - maxOps
   headers, that is, the hash the header that follows them builds on.
  */
  lemma LcBlockHashMeaning(interp: Interpretation, tape: seq<Item>, start: Word, maxOps: U32, leafCount: nat)
    requires ReadBatch(interp, tape, start, maxOps, leafCount).Got?
    requires 1 <= maxOps <= NextU32(tape).value
    ensures var b := ReadBatch(interp, tape, start, maxOps, leafCount).value;
            var first := ReadHeaders(interp, NextU32(tape).rest, |b.headers| - maxOps, start, []);
            && first.Got? && first.value == b.headers[..|b.headers| - maxOps]
            && b.lcBlockHash == HashAfter(start, first.value)
  {
    hide BlockHash, MeetsTarget, Mined, ReadHeader, HashAfter, ReadHeaders;
    var n := NextU32(tape).value;
    ReadHeadersSplit(interp, NextU32(tape).rest, n - maxOps, maxOps, start, []);
  }

  // The accumulated work.

  /** Every target is at least 5 * 2^32, so that no run can add up to 2^256. */
  ghost predicate EasyBounded(headers: seq<Header>) {
    forall k :: 0 <= k < |headers| ==>
      && DecodedTarget(Exponent(headers[k].bits), Mantissa(headers[k].bits)).Some?
      && LittleEndian(DecodedTarget(Exponent(headers[k].bits), Mantissa(headers[k].bits)).value) >= 5 * 0x1_0000_0000
  }

  lemma WorkBound(target: Digits)
    requires LittleEndian(target) >= 5 * 0x1_0000_0000
    requires Modulus() > 5 * 0x1_0000_0000 + 1
    ensures CalculateWork(target) * (5 * 0x1_0000_0000) < Modulus()
  {
    var m := Modulus();
    hide LittleEndian, Modulus, Pow256;
    var d := Min(LittleEndian(target) + 1, m - 1);
    var w := CalculateWork(target);
    DivMod(m - 1, d);
    MulMonotone(w, w, 5 * 0x1_0000_0000, d);
  }

  lemma {:induction false} SumOfWorkBound(headers: seq<Header>)
    requires EasyBounded(headers) && Modulus() > 5 * 0x1_0000_0000 + 1
    ensures SumOfWork(headers) * (5 * 0x1_0000_0000) <= |headers| * Modulus()
    decreases |headers|
  {
    hide CalculateWork, Modulus, Exponent, Mantissa, LittleEndian;
    if headers != [] {
      var n := |headers| - 1;
      assert forall k :: 0 <= k < n ==> headers[..n][k] == headers[k];
      SumOfWorkBound(headers[..n]);
      WorkBound(DecodedTarget(Exponent(headers[n].bits), Mantissa(headers[n].bits)).value);
      assert |headers| * Modulus() == n * Modulus() + Modulus();
    }
  }

  lemma ModulusIsLarge()
    ensures Modulus() > 5 * 0x1_0000_0000 + 1
  {
    assert Pow256(5) == 256 * Pow256(4) && Pow256(4) == 0x1_0000_0000 by {
      assert Pow256(2) == 0x1_0000 && Pow256(3) == 0x100_0000;
    }
    Pow256Monotone(5, 32);
  }

  /** The u32 batch counts of four rounds and the k-deep batch bound a run: the sum is exact. */
  lemma WorkDoesNotWrap(headers: seq<Header>)
    requires EasyBounded(headers) && |headers| < 5 * 0x1_0000_0000
    ensures SumOfWork(headers) < Modulus() && SumOfWork(headers) % Modulus() == SumOfWork(headers)
  {
    ModulusIsLarge();
    SumOfWorkBound(headers);
    ScaledBelow(SumOfWork(headers), |headers|, 5 * 0x1_0000_0000, Modulus());
    hide Modulus;
    QuotientUnique(SumOfWork(headers), Modulus(), 0, SumOfWork(headers));
  }

  lemma ScaledBelow(s: nat, n: nat, k: nat, m: nat)
    requires n < k && s * k <= n * m && m > 0
    ensures s < m
  {
    if s >= m {
      assert m * k == n * m + m * (k - n);
      MulMonotone(m, m, 1, k - n);
      MulMonotone(m, s, k, k);
    }
  }
}
