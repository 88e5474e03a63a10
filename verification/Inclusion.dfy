/**
 circuits/src/bridge.rs and bitcoin.rs: proofs that a transaction lies in a block whose
 hash is a leaf of the block-hash tree, and the withdrawal built on them.
*/
module Inclusion {
  import opened Wrappers
  import opened Bits
  import opened SymbolicBytes
  import opened Tape
  import opened TxFormat
  import opened TxReader
  import opened MerkleSpec
  import opened MerkleProof
  import opened Headers
  import opened IncrementalMerkle

  const DEPTH: nat := 32
  const BRIDGE_AMOUNT_SATS: U64 := 100_000_000

  /** One level of Bitcoin's transaction tree. */
  function BitcoinStep(hash: Word, index: nat, node: Word): Word {
    if index % 2 == 0 then DoubleSha256(hash + node) else DoubleSha256(node + hash)
  }

  function BitcoinFold(hash: Word, index: nat, nodes: seq<Word>): Word
    decreases |nodes|
  {
    if nodes == [] then hash else BitcoinFold(BitcoinStep(hash, index, nodes[0]), index / 2, nodes[1..])
  }

  function ReadWords(tape: seq<Item>, count: nat, acc: seq<Word>): (r: Read<seq<Word>>)
    ensures r.Got? ==> |r.value| == |acc| + count
    decreases count
  {
    if count == 0 then Got(acc, tape)
    else
      var (w, t) :- NextWord(tape);
      ReadWords(t, count - 1, acc + [w])
  }

  lemma ReadWordsStep(tape: seq<Item>, count: nat, acc: seq<Word>)
    requires count > 0
    ensures ReadWords(tape, count, acc)
            == if NextWord(tape).Panic? then Panic
               else ReadWords(NextWord(tape).rest, count - 1, acc + [NextWord(tape).value])
  {
  }

  lemma NoWordsLeft(tape: seq<Item>, acc: seq<Word>)
    ensures ReadWords(tape, 0, acc) == Got(acc, tape)
  {
  }

  lemma {:induction false} FoldSnoc(hash: Word, index: nat, siblings: seq<Word>, s: Word)
    ensures Fold(hash, index, siblings + [s])
            == FoldStep(Fold(hash, index, siblings), Shift(index, |siblings|), s)
    decreases |siblings|
  {
    if siblings == [] {
      assert siblings + [s] == [s] && [s][1..] == [];
    } else {
      assert (siblings + [s])[0] == siblings[0] && (siblings + [s])[1..] == siblings[1..] + [s];
      FoldSnoc(FoldStep(hash, index, siblings[0]), index / 2, siblings[1..], s);
      ShiftHalf(index, |siblings| - 1);
    }
  }

  lemma {:induction false} BitcoinFoldSnoc(hash: Word, index: nat, nodes: seq<Word>, n: Word)
    ensures BitcoinFold(hash, index, nodes + [n])
            == BitcoinStep(BitcoinFold(hash, index, nodes), Shift(index, |nodes|), n)
    decreases |nodes|
  {
    if nodes == [] {
      assert nodes + [n] == [n] && [n][1..] == [];
    } else {
      assert (nodes + [n])[0] == nodes[0] && (nodes + [n])[1..] == nodes[1..] + [n];
      BitcoinFoldSnoc(BitcoinStep(hash, index, nodes[0]), index / 2, nodes[1..], n);
      ShiftHalf(index, |nodes| - 1);
    }
  }

  /** read_merkle_tree_proof: the index is given, or read from the tape first. */
  method ReadMerkleTreeProof(env: Environment, leaf: Word, index: Option<U32>, depth: nat) returns (r: Option<Word>)
    requires env.Valid()
    modifies env`cursor
    ensures env.Valid()
    ensures var at := if index.Some? then Got(index.value, old(env.Rest())) else NextU32(old(env.Rest()));
            var siblings := if at.Got? then ReadWords(at.rest, depth, []) else Panic;
            && (r.Some? <==> siblings.Got?)
            && (r.Some? ==> r.value == Fold(leaf, at.value, siblings.value) && env.Rest() == siblings.rest)
  {
    hide Pair;
    var levelIdx: nat;
    if index.Some? {
      levelIdx := index.value;
    } else {
      levelIdx :- env.ReadU32();
    }
    ghost var start: nat, tape := levelIdx, env.Rest();
    ghost var siblings: seq<Word> := [];
    var hash := leaf;
    assert Fold(leaf, start, siblings) == leaf;
    ShiftOnce(start, 0);
    hide Fold, ReadWords, Shift;
    for i := 0 to depth
      invariant env.Valid() && |siblings| == i
      invariant ReadWords(tape, depth, []) == ReadWords(env.Rest(), depth - i, siblings)
      invariant levelIdx == Shift(start, i)
      invariant hash == Fold(leaf, start, siblings)
    {
      ReadWordsStep(env.Rest(), depth - i, siblings);
      var sibling :- env.Read32Bytes();
      FoldSnoc(leaf, start, siblings, sibling);
      hash := if levelIdx % 2 == 0 then Pair(hash, sibling) else Pair(sibling, hash);
      ShiftOnce(start, i);
      levelIdx := levelIdx / 2;
      siblings := siblings + [sibling];
    }
    NoWordsLeft(env.Rest(), siblings);
    return Some(hash);
  }

  /** read_and_verify_bitcoin_merkle_path: the number of levels is read from the tape. */
  method ReadAndVerifyBitcoinMerklePath(env: Environment, txid: Word) returns (r: Option<Word>)
    requires env.Valid()
    modifies env`cursor
    ensures env.Valid()
    ensures var spec := ReadPath(old(env.Rest()));
            && (r.Some? <==> spec.Got?)
            && (r.Some? ==> r.value == BitcoinFold(txid, spec.value.index, spec.value.nodes) && env.Rest() == spec.rest)
  {
    hide BitcoinFold, ReadWords;
    var index :- env.ReadU32();
    var levels :- env.ReadU32();
    var root :- FoldPath(env, txid, index, levels);
    return Some(root);
  }

  /** Its loop over the levels. */
  method FoldPath(env: Environment, txid: Word, first: U32, levels: U32) returns (r: Option<Word>)
    requires env.Valid()
    modifies env`cursor
    ensures env.Valid()
    ensures var spec := ReadWords(old(env.Rest()), levels, []);
            && (r.Some? <==> spec.Got?)
            && (r.Some? ==> r.value == BitcoinFold(txid, first, spec.value) && env.Rest() == spec.rest)
  {
    hide DoubleSha256;
    var hash := txid;
    var index: nat := first;
    ghost var tape := env.Rest();
    ghost var nodes: seq<Word> := [];
    assert BitcoinFold(txid, first, nodes) == txid;
    ShiftOnce(first, 0);
    hide BitcoinFold, ReadWords, Shift;
    for i := 0 to levels
      invariant env.Valid() && |nodes| == i
      invariant ReadWords(tape, levels, []) == ReadWords(env.Rest(), levels - i, nodes)
      invariant index == Shift(first, i)
      invariant hash == BitcoinFold(txid, first, nodes)
    {
      ReadWordsStep(env.Rest(), levels - i, nodes);
      var node :- env.Read32Bytes();
      BitcoinFoldSnoc(txid, first, nodes, node);
      hash := if index % 2 == 0 then DoubleSha256(hash + node) else DoubleSha256(node + hash);
      ShiftOnce(first, i);
      index := index / 2;
      nodes := nodes + [node];
    }
    NoWordsLeft(env.Rest(), nodes);
    return Some(hash);
  }

  // What the tape says about where a transaction lies.

  datatype MerklePath = MerklePath(index: U32, nodes: seq<Word>)

  /** A path to a Merkle root, the rest of that block's header, and the place of its hash in the tree. */
  datatype Placement = Placement(path: MerklePath, prev: Word, header: Header, proofIndex: U32, siblings: seq<Word>) {
    function Hash(): Word {
      BlockHash(prev, header)
    }
  }

  function ReadPath(tape: seq<Item>): (r: Read<MerklePath>)
    ensures r.Got? ==> |r.value.nodes| < LIMIT
  {
    var (index, t1) :- NextU32(tape);
    var (levels, t2) :- NextU32(t1);
    var (nodes, t3) :- ReadWords(t2, levels, []);
    Got(MerklePath(index, nodes), t3)
  }

  function ReadHeaderExceptRoot(tape: seq<Item>, mtRoot: Word): Read<(Word, Header)> {
    var (version, t1) :- NextI32(tape);
    var (prev, t2) :- NextWord(t1);
    var (time, t3) :- NextU32(t2);
    var (bits, t4) :- NextU32(t3);
    var (nonce, t5) :- NextU32(t4);
    Got((prev, Header(version, mtRoot, time, bits, nonce)), t5)
  }

  /** Reads where `txid` lies and checks the block's hash against the root of the block-hash tree. */
  function ReadPlacement(tape: seq<Item>, txid: Word, root: Word): (r: Read<Placement>)
    ensures r.Got? ==> Placed(r.value, txid, root)
  {
    var (path, t1) :- ReadPath(tape);
    var mtRoot := BitcoinFold(txid, path.index, path.nodes);
    var (h, t2) :- ReadHeaderExceptRoot(t1, mtRoot);
    var (proofIndex, t3) :- NextU32(t2);
    var (siblings, t4) :- ReadWords(t3, DEPTH, []);
    var p := Placement(path, h.0, h.1, proofIndex, siblings);
    if root == Fold(p.Hash(), proofIndex, siblings) then Got(p, t4) else Panic
  }

  predicate Placed(p: Placement, txid: Word, root: Word) {
    && |p.path.nodes| < LIMIT
    && p.header.merkleRoot == BitcoinFold(txid, p.path.index, p.path.nodes)
    && |p.siblings| == DEPTH
    && Fold(p.Hash(), p.proofIndex, p.siblings) == root
  }

  method ReadHeaderExceptRootAndCalculateBlockhash(env: Environment, mtRoot: Word) returns (r: Option<Word>)
    requires env.Valid()
    modifies env`cursor
    ensures env.Valid()
    ensures var spec := ReadHeaderExceptRoot(old(env.Rest()), mtRoot);
            && (r.Some? <==> spec.Got?)
            && (r.Some? ==> r.value == BlockHash(spec.value.0, spec.value.1) && env.Rest() == spec.rest)
  {
    hide BlockHash, Le32, LeI32;
    var version :- env.ReadI32();
    var prevBlockhash :- env.Read32Bytes();
    var time :- env.ReadU32();
    var bits :- env.ReadU32();
    var nonce :- env.ReadU32();
    return Some(BlockHash(prevBlockhash, Header(version, mtRoot, time, bits, nonce)));
  }

  /** The common tail of read_withdrawal_proof and of the reveal check in bridge_proof. */
  method CheckPlacement(env: Environment, txid: Word, root: Word) returns (r: Option<()>)
    requires env.Valid()
    modifies env`cursor
    ensures env.Valid()
    ensures var spec := ReadPlacement(old(env.Rest()), txid, root);
            (r.Some? <==> spec.Got?) && (r.Some? ==> env.Rest() == spec.rest)
  {
    hide BlockHash, BitcoinFold, ReadWords, ReadPath, ReadHeaderExceptRoot, Fold;
    var mtRoot :- ReadAndVerifyBitcoinMerklePath(env, txid);
    var blockhash :- ReadHeaderExceptRootAndCalculateBlockhash(env, mtRoot);
    var folded :- ReadMerkleTreeProof(env, blockhash, None, DEPTH);
    if root != folded {
      return None;
    }
    return Some(());
  }

  /**
   A placement under the root of the tree of the hashes of a header chain names a header of
   that chain: the transaction lies under the Merkle root of a block that was read. (A
   block hash is a digest, so it is not the empty leaf.)
  */
  lemma PlacedInReadBlock(p: Placement, txid: Word, start: Word, headers: seq<Header>) returns (k: nat)
    requires |headers| < 0x1_0000_0000
    requires Placed(p, txid, Root(BlockHashes(start, headers), DEPTH))
    ensures k < |headers|
    ensures headers[k] == p.header && HashAfter(start, headers[..k]) == p.prev
    ensures headers[k].merkleRoot == BitcoinFold(txid, p.path.index, p.path.nodes)
  {
    var leaves := BlockHashes(start, headers);
    ProofAcceptedIff(leaves, p.Hash(), p.proofIndex, p.siblings);
    k := p.proofIndex % Pow2(DEPTH);
    EmptyDataIsLiteral();
    DigestIsNotLiteral(Sha256(HeaderBytes(p.prev, p.header)));
    assert k < |leaves|;
    BlockHashAt(start, headers, k);
    BlockHashCommits(p.prev, p.header, HashAfter(start, headers[..k]), headers[k]);
  }

  // Withdrawals.

  datatype Withdrawal = Withdrawal(address: Word, entry: TxEntry, placement: Placement)

  function Payment(address: Word): OutputCondition {
    Some((Some(BRIDGE_AMOUNT_SATS), address))
  }

  function ReadWithdrawal(tape: seq<Item>, root: Word): (r: Read<Withdrawal>)
    ensures r.Got? ==> WithdrawalHolds(r.value, root)
  {
    var (address, t1) :- NextWord(tape);
    var (entry, t2) :- ReadTxChecked(t1, None, Payment(address));
    var (placement, t3) :- ReadPlacement(t2, Txid(entry.Tx()), root);
    Got(Withdrawal(address, entry, placement), t3)
  }

  ghost predicate WithdrawalHolds(w: Withdrawal, root: Word) {
    && Readable(w.entry)
    && OutputFound(Payment(w.address), w.entry.entries)
    && Placed(w.placement, Txid(w.entry.Tx()), root)
  }

  ghost predicate AllHold(ws: seq<Withdrawal>, root: Word) {
    forall k :: 0 <= k < |ws| ==> WithdrawalHolds(ws[k], root)
  }

  lemma AllHoldSnoc(ws: seq<Withdrawal>, w: Withdrawal, root: Word)
    requires WithdrawalHolds(w, root)
    ensures AllHold(ws, root) ==> AllHold(ws + [w], root)
  {
    hide WithdrawalHolds;
  }

  /** The withdrawals of one round; the leaf counter already stands at `leafCount`. */
  function ReadWithdrawals(tape: seq<Item>, count: nat, root: Word, leafCount: nat, acc: seq<Withdrawal>)
    : (r: Read<seq<Withdrawal>>)
    ensures r.Got? ==> |r.value| == |acc| + count
    ensures r.Got? && AllHold(acc, root) ==> AllHold(r.value, root)
    ensures r.Got? && count > 0 ==> leafCount + |r.value| < 0x1_0000_0000
    decreases count
  {
    if count == 0 then Got(acc, tape)
    else
      var (w, t) :- ReadWithdrawal(tape, root);
      if leafCount + |acc| + 1 < 0x1_0000_0000 then
        AllHoldSnoc(acc, w, root);
        ReadWithdrawals(t, count - 1, root, leafCount, acc + [w])
      else Panic
  }

  function Addresses(ws: seq<Withdrawal>): (r: seq<Word>)
    ensures |r| == |ws|
  {
    seq(|ws|, i requires 0 <= i < |ws| => ws[i].address)
  }

  method ReadWithdrawalProof(env: Environment, blockMtRoot: Word, imt: IncrementalMerkleTree) returns (r: Option<()>)
    requires env.Valid() && imt.Valid()
    modifies env`cursor, imt, imt.filledSubtrees
    ensures env.Valid()
    ensures var spec := ReadWithdrawal(old(env.Rest()), blockMtRoot);
            && (r.Some? <==> spec.Got? && old(|imt.Leaves|) + 1 < 0x1_0000_0000)
            && (r.Some? ==> && env.Rest() == spec.rest
                            && imt.Valid() && imt.Leaves == old(imt.Leaves) + [spec.value.address])
  {
    hide ReadTxChecked, ReadPlacement, Txid, IncrementalMerkleTree.Valid;
    var outputAddress :- env.Read32Bytes();
    var txid :- ReadTxAndCalculateTxid(env, None, Payment(outputAddress));
    var _ :- CheckPlacement(env, txid, blockMtRoot);
    var ok := imt.Add(outputAddress);
    if !ok {
      return None;
    }
    return Some(());
  }

  /** The withdrawal loop of one round. */
  method ReadWithdrawalProofs(env: Environment, numWithdrawals: U32, blockMtRoot: Word, imt: IncrementalMerkleTree)
    returns (r: Option<()>)
    requires env.Valid() && imt.Valid()
    modifies env`cursor, imt, imt.filledSubtrees
    ensures env.Valid()
    ensures var spec := ReadWithdrawals(old(env.Rest()), numWithdrawals, blockMtRoot, old(|imt.Leaves|), []);
            && (r.Some? <==> spec.Got?)
            && (r.Some? ==> && env.Rest() == spec.rest
                            && imt.Valid() && imt.Leaves == old(imt.Leaves) + Addresses(spec.value))
  {
    hide ReadWithdrawal, WithdrawalHolds, IncrementalMerkleTree.Valid;
    ghost var ws: seq<Withdrawal> := [];
    for i := 0 to numWithdrawals
      invariant env.Valid() && imt.Valid() && |ws| == i
      invariant ReadWithdrawals(old(env.Rest()), numWithdrawals, blockMtRoot, old(|imt.Leaves|), [])
                == ReadWithdrawals(env.Rest(), numWithdrawals - i, blockMtRoot, old(|imt.Leaves|), ws)
      invariant imt.Leaves == old(imt.Leaves) + Addresses(ws)
    {
      ghost var w := ReadWithdrawal(env.Rest(), blockMtRoot);
      var _ :- ReadWithdrawalProof(env, blockMtRoot, imt);
      assert Addresses(ws + [w.value]) == Addresses(ws) + [w.value.address];
      ws := ws + [w.value];
    }
    return Some(());
  }
}
