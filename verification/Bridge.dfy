/** circuits/src/bridge.rs: bridge_proof, one run of the circuit over its input tape. */
module Bridge {
  import opened Wrappers
  import opened Bits
  import opened SymbolicBytes
  import opened Tape
  import opened TxFormat
  import opened TxReader
  import opened MerkleSpec
  import opened MerkleProof
  import opened ProofOfWork
  import opened Headers
  import opened IncrementalMerkle
  import opened Inclusion

  // constants.rs
  const MAX_BLOCK_HANDLE_OPS: U32 := 3
  const NUM_ROUNDS: nat := 4
  const CLAIM_MERKLE_TREE_DEPTH: nat := 4

  /**
   constants.rs: PERIOD_CLAIM_MT_ROOTS, one claim tree root for each period. They are outputs
   of the tree hash over leaves that the repository does not hold, so they are a parameter.
  */
  type ClaimRoots = roots: seq<Word> | |roots| == NUM_ROUNDS witness [ZERO_WORD, ZERO_WORD, ZERO_WORD, ZERO_WORD]

  /** The elliptic-curve tweak of calculate_taproot_from_single_script, kept symbolic. */
  type Tweak = Word -> Word

  // The commit transaction's script.

  /** "TapLeaf" in ASCII. */
  const TAP_LEAF: Bytes := Literals([84, 97, 112, 76, 101, 97, 102])

  function PreimagePushes(preimages: seq<Word>): Bytes {
    if preimages == [] then []
    else PreimagePushes(preimages[..|preimages| - 1]) + (Le8(32) + preimages[|preimages| - 1])
  }

  function PreimageHashes(preimages: seq<Word>): Bytes {
    if preimages == [] then []
    else PreimageHashes(preimages[..|preimages| - 1]) + Sha256(preimages[|preimages| - 1])
  }

  function LeafHead(scriptLength: U32, actorPk: Word): Bytes {
    var tag := Sha256(TAP_LEAF);
    [] + tag + tag + Le8(192) + VarInt(scriptLength) + Le8(32) + actorPk + (Le8(172) + Le8(0) + Le8(99))
  }

  datatype Preimages = Preimages(actorPk: Word, words: seq<Word>) {
    /** The tap leaf: version, script length, key push, the preimage pushes in a dead branch. */
    function LeafScript(): Bytes
      requires 37 + 33 * |words| < LIMIT
    {
      LeafHead(37 + 33 * |words|, actorPk) + PreimagePushes(words) + Le8(104)
    }

    function ClaimLeaf(): Word {
      Sha256(PreimageHashes(words))
    }
  }

  /** The u32 script length overflows, and a checked build panics, for very many preimages. */
  function ReadPreimages(tape: seq<Item>): (r: Read<Preimages>)
    ensures r.Got? ==> 37 + 33 * |r.value.words| < LIMIT
  {
    var (count, t1) :- NextU32(tape);
    var (actorPk, t2) :- NextWord(t1);
    if 37 + 33 * count >= LIMIT then Panic
    else
      var (words, t3) :- ReadWords(t2, count, []);
      Got(Preimages(actorPk, words), t3)
  }

  lemma PushesSnoc(words: seq<Word>, w: Word)
    ensures PreimagePushes(words + [w]) == PreimagePushes(words) + (Le8(32) + w)
    ensures PreimageHashes(words + [w]) == PreimageHashes(words) + Sha256(w)
  {
    assert (words + [w])[..|words|] == words;
  }

  method ReadPreimagesAndCalculateCommitTaproot(env: Environment, tweak: Tweak) returns (r: Option<(Word, Word)>)
    requires env.Valid()
    modifies env`cursor
    ensures env.Valid()
    ensures var spec := ReadPreimages(old(env.Rest()));
            && (r.Some? <==> spec.Got?)
            && (r.Some? ==> && r.value == (tweak(Sha256(spec.value.LeafScript())), spec.value.ClaimLeaf())
                            && env.Rest() == spec.rest)
  {
    hide Sha256, ReadWords, PreimagePushes, PreimageHashes, LeafHead;
    var numPreimages :- env.ReadU32();
    var actorPkBytes :- env.Read32Bytes();
    var commitHasher := new Hasher();
    var claimHasher := new Hasher();
    if 37 + 33 * numPreimages >= LIMIT {
      return None;
    }
    var scriptLength: U32 := 37 + 33 * numPreimages;
    UpdateLeafHead(commitHasher, scriptLength, actorPkBytes);
    ghost var words := ReadWords(env.Rest(), numPreimages, []);
    var _ :- ReadPushes(env, commitHasher, claimHasher, numPreimages);
    commitHasher.Update(Le8(104));
    assert commitHasher.data == Preimages(actorPkBytes, words.value).LeafScript();
    var scriptHash := commitHasher.FinalizeReset();
    var claimProofLeaf := claimHasher.FinalizeReset();
    return Some((tweak(scriptHash), claimProofLeaf));
  }

  /** The updates before the loop, on a new hasher. */
  method UpdateLeafHead(hasher: Hasher, scriptLength: U32, actorPk: Word)
    requires hasher.data == []
    modifies hasher
    ensures hasher.data == LeafHead(scriptLength, actorPk)
  {
    hide Sha256, VarInt;
    var tag := Sha256(TAP_LEAF);
    hasher.Update(tag);
    hasher.Update(tag);
    hasher.Update(Le8(192));
    UpdateHasherWithVarint(hasher, scriptLength);
    hasher.Update(Le8(32));
    hasher.Update(actorPk);
    hasher.Update(Le8(172) + Le8(0) + Le8(99));
  }

  /** The loop over the preimages, feeding both hashers. */
  method ReadPushes(env: Environment, commitHasher: Hasher, claimHasher: Hasher, numPreimages: U32)
    returns (r: Option<()>)
    requires env.Valid() && commitHasher != claimHasher && claimHasher.data == []
    modifies env`cursor, commitHasher, claimHasher
    ensures env.Valid()
    ensures var spec := ReadWords(old(env.Rest()), numPreimages, []);
            && (r.Some? <==> spec.Got?)
            && (r.Some? ==> && commitHasher.data == old(commitHasher.data) + PreimagePushes(spec.value)
                            && claimHasher.data == PreimageHashes(spec.value)
                            && env.Rest() == spec.rest)
  {
    hide Sha256;
    ghost var words: seq<Word> := [];
    assert PreimagePushes(words) == [] && PreimageHashes(words) == [];
    hide ReadWords, PreimagePushes, PreimageHashes;
    for i := 0 to numPreimages
      invariant env.Valid() && |words| == i
      invariant ReadWords(old(env.Rest()), numPreimages, []) == ReadWords(env.Rest(), numPreimages - i, words)
      invariant commitHasher.data == old(commitHasher.data) + PreimagePushes(words)
      invariant claimHasher.data == PreimageHashes(words)
    {
      commitHasher.Update(Le8(32));
      ReadWordsStep(env.Rest(), numPreimages - i, words);
      var preimage :- env.Read32Bytes();
      commitHasher.Update(preimage);
      claimHasher.Update(Sha256(preimage));
      PushesSnoc(words, preimage);
      AppendTwo(old(commitHasher.data), PreimagePushes(words), Le8(32), preimage);
      words := words + [preimage];
    }
    NoWordsLeft(env.Rest(), words);
    return Some(());
  }

  lemma AppendTwo(a: Bytes, b: Bytes, c: Bytes, d: Bytes)
    ensures a + b + c + d == a + (b + (c + d))
  {
  }

  // The rounds.

  /** `end` is the word that asks to stop when it is 1. */
  datatype Round = Round(batch: Batch, withdrawals: seq<Withdrawal>, end: U32)

  function AllHeaders(rounds: seq<Round>): seq<Header> {
    if rounds == [] then [] else AllHeaders(rounds[..|rounds| - 1]) + rounds[|rounds| - 1].batch.headers
  }

  function AllAddresses(rounds: seq<Round>): seq<Word> {
    if rounds == [] then [] else AllAddresses(rounds[..|rounds| - 1]) + Addresses(rounds[|rounds| - 1].withdrawals)
  }

  lemma RoundsSnoc(rounds: seq<Round>, r: Round)
    ensures AllHeaders(rounds + [r]) == AllHeaders(rounds) + r.batch.headers
    ensures AllAddresses(rounds + [r]) == AllAddresses(rounds) + Addresses(r.withdrawals)
  {
    assert (rounds + [r])[..|rounds|] == rounds;
  }

  /** The root of the block-hash tree once the headers of these rounds are in. */
  function BlockRoot(first: Word, headers: seq<Header>): Word {
    Root(BlockHashes(first, headers), DEPTH)
  }

  /** One round after those in `rounds`. */
  function ReadRound(interp: Interpretation, tape: seq<Item>, first: Word, rounds: seq<Round>): Read<Round> {
    var headers := AllHeaders(rounds);
    var (batch, t1) :- ReadBatch(interp, tape, HashAfter(first, headers), MAX_BLOCK_HANDLE_OPS, |headers|);
    var root := BlockRoot(first, headers + batch.headers);
    var (num, t2) :- NextU32(t1);
    var (withdrawals, t3) :- ReadWithdrawals(t2, num, root, |AllAddresses(rounds)|, []);
    var (end, t4) :- NextU32(t3);
    Got(Round(batch, withdrawals, end), t4)
  }

  /** At most `left` more rounds. The last period stays 0 when no round ends the proving. */
  function ReadRounds(interp: Interpretation, tape: seq<Item>, left: nat, first: Word, rounds: seq<Round>)
    : Read<(seq<Round>, nat)>
    decreases left
  {
    hide ReadRound;
    if left == 0 then Got((rounds, 0), tape)
    else
      var (r, t) :- ReadRound(interp, tape, first, rounds);
      if r.end == 1 then Got((rounds + [r], |rounds|), t)
      else ReadRounds(interp, t, left - 1, first, rounds + [r])
  }

  lemma ReadRoundsStep(interp: Interpretation, tape: seq<Item>, left: nat, first: Word, rounds: seq<Round>)
    requires left > 0
    ensures var r := ReadRound(interp, tape, first, rounds);
            ReadRounds(interp, tape, left, first, rounds)
            == if r.Panic? then Panic
               else if r.value.end == 1 then Got((rounds + [r.value], |rounds|), r.rest)
               else ReadRounds(interp, r.rest, left - 1, first, rounds + [r.value])
  {
    hide ReadRound;
  }

  lemma NoRoundsLeft(interp: Interpretation, tape: seq<Item>, first: Word, rounds: seq<Round>)
    ensures ReadRounds(interp, tape, 0, first, rounds) == Got((rounds, 0), tape)
  {
  }

  // The challenge and the final checks.

  datatype Challenge = Challenge(mock: seq<Word>, cutoff: Word, maxPow: Word, periodNum: U32) {
    function Pow(interp: Interpretation): nat {
      LittleEndian(Value(interp, maxPow))
    }

    /** period_num as u8. */
    function Period(): U8 {
      periodNum % 256
    }
  }

  function ReadChallenge(tape: seq<Item>): Read<Challenge> {
    var (mock, t1) :- ReadWords(tape, 4, []);
    var (cutoff, t2) :- NextWord(t1);
    var (maxPow, t3) :- NextWord(t2);
    var (period, t4) :- NextU32(t3);
    Got(Challenge(mock, cutoff, maxPow, period), t4)
  }

  /** The two words on the tape for the light-client proof. */
  datatype LcProof = LcProof(blockhash: Word, withdrawalRoot: Word)

  /** read_and_verify_lc_proof: two words that must repeat what was computed. */
  function ReadLcProof(tape: seq<Item>, lcBlockhash: Word, withdrawalRoot: Word): Read<LcProof> {
    var (a, t1) :- NextWord(tape);
    var (b, t2) :- NextWord(t1);
    if a == lcBlockhash && b == withdrawalRoot then Got(LcProof(a, b), t2) else Panic
  }

  datatype Claim = Claim(preimages: Preimages, commit: TxEntry, vout: U32, spend: TxEntry,
                           placement: Placement, claimSiblings: seq<Word>)

  ghost predicate ClaimHolds(tweak: Tweak, roots: ClaimRoots, v: Claim, root: Word, period: U8, total: nat) {
    && 37 + 33 * |v.preimages.words| < LIMIT
    && Readable(v.commit) && Readable(v.spend)
    && OutputFound(Some((None, tweak(Sha256(v.preimages.LeafScript())))), v.commit.entries)
    && InputFound(Some((Txid(v.commit.Tx()), v.vout)), v.spend.inputs)
    && Placed(v.placement, Txid(v.spend.Tx()), root)
    && period < NUM_ROUNDS
    && |v.claimSiblings| == CLAIM_MERKLE_TREE_DEPTH
    && Fold(v.preimages.ClaimLeaf(), total, v.claimSiblings) == roots[period]
  }

  /** The commit and reveal transactions and the claim proof at index `total`. */
  function ReadClaim(tweak: Tweak, roots: ClaimRoots, tape: seq<Item>, root: Word, period: U8, total: nat)
    : (r: Read<Claim>)
    ensures r.Got? ==> ClaimHolds(tweak, roots, r.value, root, period, total)
  {
    var (preimages, t1) :- ReadPreimages(tape);
    var commitAddress := tweak(Sha256(preimages.LeafScript()));
    var (commit, t2) :- ReadTxChecked(t1, None, Some((None, commitAddress)));
    var (vout, t3) :- NextU32(t2);
    var (spend, t4) :- ReadTxChecked(t3, Some((Txid(commit.Tx()), vout)), None);
    var (placement, t5) :- ReadPlacement(t4, Txid(spend.Tx()), root);
    if period >= NUM_ROUNDS then Panic
    else
      var (siblings, t6) :- ReadWords(t5, CLAIM_MERKLE_TREE_DEPTH, []);
      var v := Claim(preimages, commit, vout, spend, placement, siblings);
      if Fold(preimages.ClaimLeaf(), total, siblings) == roots[period] then Got(v, t6) else Panic
  }

  /** Everything one accepted run read. */
  datatype Transcript = Transcript(first: Word, rounds: seq<Round>, lastPeriod: nat,
                                   challenge: Challenge, kDeep: seq<Header>, lc: LcProof, claim: Claim) {
    function Headers(): seq<Header> {
      AllHeaders(rounds)
    }

    function FinalHash(): Word {
      HashAfter(first, Headers())
    }

    /** total_pow: the wrapping sum of the works of all headers, k-deep ones included. */
    function TotalPow(): nat {
      SumOfWork(Headers() + kDeep) % Modulus()
    }
  }

  /** Neither mismatch with the challenge survives unless the operator shows more work. */
  predicate ChallengeMet(interp: Interpretation, c: Challenge, lastPeriod: nat, finalHash: Word, totalPow: nat) {
    && (c.Period() != lastPeriod % 256 ==> totalPow > c.Pow(interp))
    && (c.cutoff != finalHash ==> totalPow > c.Pow(interp))
  }

  /** lc_blockhash of the last round read; four zero-round runs do not exist. */
  function LastLc(rounds: seq<Round>): Word {
    if rounds == [] then ZERO_WORD else rounds[|rounds| - 1].batch.lcBlockHash
  }

  function ReadBridgeProof(interp: Interpretation, tweak: Tweak, roots: ClaimRoots, tape: seq<Item>): Read<Transcript> {
    var (first, t1) :- NextWord(tape);
    var (r, t2) :- ReadRounds(interp, t1, NUM_ROUNDS, first, []);
    var (challenge, t3) :- ReadChallenge(t2);
    var headers := AllHeaders(r.0);
    var (kDeep, t4) :- ReadWorkBatch(interp, t3, HashAfter(first, headers));
    var totalPow := SumOfWork(headers + kDeep) % Modulus();
    if !ChallengeMet(interp, challenge, r.1, HashAfter(first, headers), totalPow) then Panic
    else
      var addresses := AllAddresses(r.0);
      var (lc, t5) :- ReadLcProof(t4, LastLc(r.0), Root(addresses, DEPTH));
      var (claim, t6) :- ReadClaim(tweak, roots, t5, BlockRoot(first, headers), challenge.Period(), |addresses|);
      Got(Transcript(first, r.0, r.1, challenge, kDeep, lc, claim), t6)
  }

  // The methods.

  lemma FitsDepth(n: nat)
    requires n < 0x1_0000_0000
    ensures n < Pow2(DEPTH)
  {
    assert Pow2(8) == 256 by { assert Pow2(4) == 16; }
    Pow2Add(8, 8);
    Pow2Add(16, 16);
  }

  lemma {:induction false} Pow2Add(a: nat, b: nat)
    ensures Pow2(a + b) == Pow2(a) * Pow2(b)
  {
    if a > 0 {
      Pow2Add(a - 1, b);
      MulAssociates(2, Pow2(a - 1), Pow2(b));
    }
  }

  /** The tree's root field is the padded root: a u32 counter never exceeds the depth. */
  lemma TreeRoot(tree: IncrementalMerkleTree)
    requires tree.Valid() && tree.depth == DEPTH
    ensures tree.root == Root(tree.Leaves, DEPTH)
    ensures |tree.Leaves| < 0x1_0000_0000
  {
    FitsDepth(|tree.Leaves|);
    RootWithinCapacity(tree.Leaves, DEPTH);
  }

  method ReadOneRound(interp: Interpretation, env: Environment, curBlockHash: Word,
                      blockhashesMt: IncrementalMerkleTree, withdrawalMt: IncrementalMerkleTree,
                      ghost first: Word, ghost rounds: seq<Round>)
    returns (r: Option<(nat, Word, Word, U32, U32)>)
    requires env.Valid() && blockhashesMt.Valid() && withdrawalMt.Valid()
    requires blockhashesMt.depth == DEPTH && withdrawalMt.depth == DEPTH
    requires blockhashesMt != withdrawalMt && blockhashesMt.filledSubtrees != withdrawalMt.filledSubtrees
    requires blockhashesMt.filledSubtrees != withdrawalMt.zeroes && withdrawalMt.filledSubtrees != blockhashesMt.zeroes
    requires curBlockHash == HashAfter(first, AllHeaders(rounds))
    requires blockhashesMt.Leaves == BlockHashes(first, AllHeaders(rounds))
    requires withdrawalMt.Leaves == AllAddresses(rounds)
    modifies env`cursor, blockhashesMt, blockhashesMt.filledSubtrees, withdrawalMt, withdrawalMt.filledSubtrees
    ensures env.Valid()
    ensures var spec := ReadRound(interp, old(env.Rest()), first, rounds);
            && (r.Some? <==> spec.Got?)
            && (r.Some? ==>
                  var (work, lc, cur, num, end) := r.value;
                  var after := rounds + [spec.value];
                  && env.Rest() == spec.rest && end == spec.value.end
                  && work == SumOfWork(spec.value.batch.headers) % Modulus()
                  && lc == spec.value.batch.lcBlockHash
                  && num == |spec.value.withdrawals|
                  && cur == HashAfter(first, AllHeaders(after))
                  && blockhashesMt.Valid() && blockhashesMt.Leaves == BlockHashes(first, AllHeaders(after))
                  && withdrawalMt.Valid() && withdrawalMt.Leaves == AllAddresses(after))
  {
    hide ReadBatch, ReadWithdrawals, Modulus, HashAfter, BlockHashes, SumOfWork, Root;
    hide AllHeaders, AllAddresses, Addresses, IncrementalMerkleTree.Valid;
    ghost var headers := AllHeaders(rounds);
    ghost var batch := ReadBatch(interp, env.Rest(), curBlockHash, MAX_BLOCK_HANDLE_OPS, |headers|);
    var blocks :- ReadBlocksAndAddToMerkleTree(interp, env, curBlockHash, blockhashesMt, MAX_BLOCK_HANDLE_OPS);
    HashAfterAppend(first, headers, batch.value.headers);
    TreeRoot(blockhashesMt);
    var numWithdrawals :- env.ReadU32();
    ghost var ws := ReadWithdrawals(env.Rest(), numWithdrawals, blockhashesMt.root, |AllAddresses(rounds)|, []);
    var _ :- ReadWithdrawalProofs(env, numWithdrawals, blockhashesMt.root, withdrawalMt);
    var end :- env.ReadU32();
    RoundsSnoc(rounds, Round(batch.value, ws.value, end));
    return Some((blocks.0, blocks.1, blocks.2, numWithdrawals, end));
  }

  method ReadAndVerifyVerifiersChallengeProof(env: Environment) returns (r: Option<Challenge>)
    requires env.Valid()
    modifies env`cursor
    ensures env.Valid() && r == ReadChallenge(old(env.Rest())).ToOption()
    ensures r.Some? ==> env.Rest() == ReadChallenge(old(env.Rest())).rest
  {
    hide ReadWords;
    var mock :- ReadMockProof(env);
    var lcCutoffBlockhash :- env.Read32Bytes();
    var maxPowBytes :- env.Read32Bytes();
    var periodNum :- env.ReadU32();
    return Some(Challenge(mock, lcCutoffBlockhash, maxPowBytes, periodNum));
  }

  /** Four words that verify_challenge_proof accepts unseen. */
  method ReadMockProof(env: Environment) returns (r: Option<seq<Word>>)
    requires env.Valid()
    modifies env`cursor
    ensures env.Valid() && r == ReadWords(old(env.Rest()), 4, []).ToOption()
    ensures r.Some? ==> env.Rest() == ReadWords(old(env.Rest()), 4, []).rest
  {
    var mock: seq<Word> := [];
    for i := 0 to 4
      invariant env.Valid() && |mock| == i
      invariant ReadWords(old(env.Rest()), 4, []) == ReadWords(env.Rest(), 4 - i, mock)
    {
      var word :- env.Read32Bytes();
      mock := mock + [word];
    }
    return Some(mock);
  }

  method ReadAndVerifyLcProof(env: Environment, lcBlockhash: Word, withdrawalMtRoot: Word)
    returns (r: Option<LcProof>)
    requires env.Valid()
    modifies env`cursor
    ensures env.Valid() && r == ReadLcProof(old(env.Rest()), lcBlockhash, withdrawalMtRoot).ToOption()
    ensures r.Some? ==> env.Rest() == ReadLcProof(old(env.Rest()), lcBlockhash, withdrawalMtRoot).rest
  {
    var readLcBlockhash :- env.Read32Bytes();
    if readLcBlockhash != lcBlockhash {
      return None;
    }
    var readWithdrawalMtRoot :- env.Read32Bytes();
    if readWithdrawalMtRoot != withdrawalMtRoot {
      return None;
    }
    return Some(LcProof(readLcBlockhash, readWithdrawalMtRoot));
  }

  method CheckClaim(tweak: Tweak, roots: ClaimRoots, env: Environment, root: Word, period: U8, total: U32)
    returns (r: Option<()>)
    requires env.Valid()
    modifies env`cursor
    ensures env.Valid()
    ensures var spec := ReadClaim(tweak, roots, old(env.Rest()), root, period, total);
            (r.Some? <==> spec.Got?) && (r.Some? ==> env.Rest() == spec.rest)
  {
    hide ReadPreimages, ReadTxChecked, ReadPlacement, ReadWords, Txid, Sha256, Fold;
    hide Preimages.LeafScript, Preimages.ClaimLeaf;
    var commit :- ReadPreimagesAndCalculateCommitTaproot(env, tweak);
    var commitTxid :- ReadTxAndCalculateTxid(env, None, Some((None, commit.0)));
    var vout :- env.ReadU32();
    var revealTxid :- ReadTxAndCalculateTxid(env, Some((commitTxid, vout)), None);
    var _ :- CheckPlacement(env, revealTxid, root);
    if period >= NUM_ROUNDS {
      return None;
    }
    var folded :- ReadMerkleTreeProof(env, commit.1, Some(total), CLAIM_MERKLE_TREE_DEPTH);
    if roots[period] != folded {
      return None;
    }
    return Some(());
  }

  /** The loop over the periods, which ends early when the tape says so. */
  method ReadAllRounds(interp: Interpretation, env: Environment, first: Word,
                       blockhashesMt: IncrementalMerkleTree, withdrawalMt: IncrementalMerkleTree)
    returns (r: Option<(nat, Word, Word, U32, nat)>)
    requires env.Valid() && blockhashesMt.Valid() && withdrawalMt.Valid()
    requires blockhashesMt.depth == DEPTH && withdrawalMt.depth == DEPTH
    requires blockhashesMt != withdrawalMt && blockhashesMt.filledSubtrees != withdrawalMt.filledSubtrees
    requires blockhashesMt.filledSubtrees != withdrawalMt.zeroes && withdrawalMt.filledSubtrees != blockhashesMt.zeroes
    requires blockhashesMt.Leaves == [] && withdrawalMt.Leaves == []
    modifies env`cursor, blockhashesMt, blockhashesMt.filledSubtrees, withdrawalMt, withdrawalMt.filledSubtrees
    ensures env.Valid()
    ensures var spec := ReadRounds(interp, old(env.Rest()), NUM_ROUNDS, first, []);
            && (r.Some? <==> spec.Got?)
            && (r.Some? ==>
                  var (totalPow, lc, cur, total, last) := r.value;
                  && env.Rest() == spec.rest && last == spec.value.1
                  && blockhashesMt.Valid() && withdrawalMt.Valid()
                  && Tracks(first, spec.value.0, totalPow, lc, cur, total, blockhashesMt.Leaves, withdrawalMt.Leaves))
  {
    hide ReadRound, ReadRounds, Modulus, HashAfter, BlockHashes, SumOfWork, AllHeaders, AllAddresses;
    hide IncrementalMerkleTree.Valid;
    var totalPow: nat := 0;
    var curBlockHash := first;
    var lcBlockhash := ZERO_WORD;
    var totalNumWithdrawals: U32 := 0;
    ghost var tape, rounds: seq<Round> := env.Rest(), [];
    EmptyRun(first);
    for periodCount := 0 to NUM_ROUNDS
      invariant env.Valid() && blockhashesMt.Valid() && withdrawalMt.Valid()
      invariant |rounds| == periodCount
      invariant ReadRounds(interp, tape, NUM_ROUNDS, first, [])
                == ReadRounds(interp, env.Rest(), NUM_ROUNDS - periodCount, first, rounds)
      invariant Tracks(first, rounds, totalPow, lcBlockhash, curBlockHash, totalNumWithdrawals,
                       blockhashesMt.Leaves, withdrawalMt.Leaves)
    {
      ghost var round := ReadRound(interp, env.Rest(), first, rounds);
      ReadRoundsStep(interp, env.Rest(), NUM_ROUNDS - periodCount, first, rounds);
      var step :- ReadOneRound(interp, env, curBlockHash, blockhashesMt, withdrawalMt, first, rounds);
      TracksStep(first, rounds, round.value, totalPow, lcBlockhash, curBlockHash, totalNumWithdrawals, step.0);
      TreeRoot(withdrawalMt);
      hide Tracks;
      totalPow := (totalPow + step.0) % Modulus();
      lcBlockhash, curBlockHash := step.1, step.2;
      totalNumWithdrawals := totalNumWithdrawals + step.3;
      rounds := rounds + [round.value];
      if step.4 == 1 {
        return Some((totalPow, lcBlockhash, curBlockHash, totalNumWithdrawals, periodCount));
      }
    }
    NoRoundsLeft(interp, env.Rest(), first, rounds);
    return Some((totalPow, lcBlockhash, curBlockHash, totalNumWithdrawals, 0));
  }

  /** The variables of the loop, and the leaves of its two trees, after these rounds. */
  ghost predicate Tracks(first: Word, rounds: seq<Round>, totalPow: nat, lc: Word, cur: Word, total: nat,
                         hashes: seq<Word>, addresses: seq<Word>) {
    && totalPow == SumOfWork(AllHeaders(rounds)) % Modulus()
    && lc == LastLc(rounds)
    && cur == HashAfter(first, AllHeaders(rounds))
    && hashes == BlockHashes(first, AllHeaders(rounds))
    && addresses == AllAddresses(rounds) && total == |addresses|
  }

  lemma TracksStep(first: Word, rounds: seq<Round>, round: Round, totalPow: nat, lc: Word, cur: Word, total: nat,
                   work: nat)
    requires Tracks(first, rounds, totalPow, lc, cur, total, BlockHashes(first, AllHeaders(rounds)),
                    AllAddresses(rounds))
    requires work == SumOfWork(round.batch.headers) % Modulus()
    ensures var after := rounds + [round];
            && |AllAddresses(after)| == total + |round.withdrawals|
            && Tracks(first, after, (totalPow + work) % Modulus(), round.batch.lcBlockHash,
                      HashAfter(first, AllHeaders(after)), total + |round.withdrawals|,
                      BlockHashes(first, AllHeaders(after)), AllAddresses(after))
  {
    hide Modulus, HashAfter, BlockHashes, SumOfWork, AllHeaders, AllAddresses;
    RoundsSnoc(rounds, round);
    WrappingAdd(AllHeaders(rounds), round.batch.headers, totalPow, work);
  }

  /** Reads the verifiers' challenge and the k-deep batch, and compares. */
  method FaceChallenge(interp: Interpretation, env: Environment, curBlockHash: Word, powSoFar: nat, lastPeriod: nat,
                       ghost headers: seq<Header>)
    returns (r: Option<Challenge>)
    requires env.Valid() && powSoFar == SumOfWork(headers) % Modulus()
    modifies env`cursor
    ensures env.Valid()
    ensures var c := ReadChallenge(old(env.Rest()));
            var k := if c.Got? then ReadWorkBatch(interp, c.rest, curBlockHash) else Panic;
            && (r.Some? <==> && k.Got?
                             && ChallengeMet(interp, c.value, lastPeriod, curBlockHash,
                                             SumOfWork(headers + k.value) % Modulus()))
            && (r.Some? ==> r.value == c.value && env.Rest() == k.rest)
  {
    hide ReadWorkBatch, ReadChallenge, Modulus, SumOfWork;
    var challenge :- ReadAndVerifyVerifiersChallengeProof(env);
    ghost var kDeep := ReadWorkBatch(interp, env.Rest(), curBlockHash);
    var kDeepWork :- ReadBlocksAndCalculateWork(interp, env, curBlockHash);
    WrappingAdd(headers, kDeep.value, powSoFar, kDeepWork);
    var totalPow := (powSoFar + kDeepWork) % Modulus();
    if challenge.Period() != lastPeriod % 256 {
      if totalPow <= challenge.Pow(interp) {
        return None;
      }
    }
    if challenge.cutoff != curBlockHash {
      if totalPow <= challenge.Pow(interp) {
        return None;
      }
    }
    return Some(challenge);
  }

  method BridgeProof(interp: Interpretation, tweak: Tweak, roots: ClaimRoots, env: Environment)
    returns (r: Option<(nat, Word, U8)>)
    requires env.Valid()
    modifies env`cursor
    ensures env.Valid()
    ensures var spec := ReadBridgeProof(interp, tweak, roots, old(env.Rest()));
            && (r.Some? <==> spec.Got?)
            && (r.Some? ==>
                  var c := spec.value.challenge;
                  r.value == (c.Pow(interp), c.cutoff, c.Period()) && env.Rest() == spec.rest)
  {
    hide ReadRounds, ReadWorkBatch, ReadChallenge, ReadLcProof, ReadClaim, Modulus, HashAfter, BlockHashes;
    hide SumOfWork, Root, AllHeaders, AllAddresses, IncrementalMerkleTree.Valid;
    var zeroes := BuildZeroes();
    var blockhashesMt := new IncrementalMerkleTree(DEPTH, zeroes);
    var withdrawalMt := new IncrementalMerkleTree(DEPTH, zeroes);
    var first :- env.Read32Bytes();
    ghost var rounds := ReadRounds(interp, env.Rest(), NUM_ROUNDS, first, []);
    var run :- ReadAllRounds(interp, env, first, blockhashesMt, withdrawalMt);
    var (totalPow, lcBlockhash, curBlockHash, totalNumWithdrawals, lastPeriod) := run;
    var challenge :- FaceChallenge(interp, env, curBlockHash, totalPow, lastPeriod, AllHeaders(rounds.value.0));
    TreeRoot(withdrawalMt);
    TreeRoot(blockhashesMt);
    var _ :- ReadAndVerifyLcProof(env, lcBlockhash, withdrawalMt.root);
    var _ :- CheckClaim(tweak, roots, env, blockhashesMt.root, challenge.Period(), totalNumWithdrawals);
    return Some((challenge.Pow(interp), challenge.cutoff, challenge.Period()));
  }

  lemma EmptyRun(first: Word)
    ensures AllHeaders([]) == [] && AllAddresses([]) == []
    ensures HashAfter(first, []) == first && BlockHashes(first, []) == []
    ensures SumOfWork([]) == 0 && 0 % Modulus() == 0
  {
    EmptyChain(first);
  }

  /** wrapping_add of two reduced sums is the reduced sum. */
  lemma WrappingAdd(a: seq<Header>, b: seq<Header>, x: nat, y: nat)
    requires x == SumOfWork(a) % Modulus() && y == SumOfWork(b) % Modulus()
    ensures (x + y) % Modulus() == SumOfWork(a + b) % Modulus()
  {
    hide Modulus;
    SumOfWorkAppend(a, b);
    AddMod(SumOfWork(a), x, y, Modulus());
    AddMod(SumOfWork(b), y, SumOfWork(a), Modulus());
  }

  // What an accepted run proves.

  /** Round `r` was read against the root of the block-hash tree at that time. */
  ghost predicate RoundHolds(first: Word, rounds: seq<Round>, r: nat)
    requires r < |rounds|
  {
    && (forall k :: 0 <= k < |rounds[r].withdrawals| ==>
         WithdrawalHolds(rounds[r].withdrawals[k], BlockRoot(first, AllHeaders(rounds[..r + 1]))))
    && rounds[r].batch.lcBlockHash == HashBeforeLast(first, AllHeaders(rounds[..r]), rounds[r].batch.headers)
  }

  /** The chain hash before the last MAX_BLOCK_HANDLE_OPS of the headers, zero bytes for none. */
  ghost function HashBeforeLast(first: Word, before: seq<Header>, headers: seq<Header>): Word {
    if |headers| < MAX_BLOCK_HANDLE_OPS then ZERO_WORD
    else HashAfter(first, before + headers[..|headers| - MAX_BLOCK_HANDLE_OPS])
  }

  lemma BatchHashBeforeLast(interp: Interpretation, tape: seq<Item>, first: Word, before: seq<Header>)
    requires ReadBatch(interp, tape, HashAfter(first, before), MAX_BLOCK_HANDLE_OPS, |before|).Got?
    ensures var b := ReadBatch(interp, tape, HashAfter(first, before), MAX_BLOCK_HANDLE_OPS, |before|).value;
            b.lcBlockHash == HashBeforeLast(first, before, b.headers)
  {
    hide HashAfter, ReadHeaders, Mined;
    var b := ReadBatch(interp, tape, HashAfter(first, before), MAX_BLOCK_HANDLE_OPS, |before|).value;
    if |b.headers| >= MAX_BLOCK_HANDLE_OPS {
      HashAfterAppend(first, before, b.headers[..|b.headers| - MAX_BLOCK_HANDLE_OPS]);
    }
  }

  ghost predicate RunHolds(interp: Interpretation, first: Word, rounds: seq<Round>) {
    && Mined(interp, first, AllHeaders(rounds))
    && |AllHeaders(rounds)| < 0x1_0000_0000
    && |AllAddresses(rounds)| < 0x1_0000_0000
    && forall r :: 0 <= r < |rounds| ==> RoundHolds(first, rounds, r)
  }

  lemma MinedAppend(interp: Interpretation, start: Word, a: seq<Header>, b: seq<Header>)
    requires Mined(interp, start, a) && Mined(interp, HashAfter(start, a), b)
    ensures Mined(interp, start, a + b)
  {
    hide MeetsTarget, BlockHashes, HashAfter;
    HashAfterAppend(start, a, b);
    forall k | 0 <= k < |a + b|
      ensures MeetsTarget(interp, (a + b)[k].bits, BlockHashes(start, a + b)[k])
    {
    }
  }

  lemma RoundKeepsRun(interp: Interpretation, tape: seq<Item>, first: Word, rounds: seq<Round>)
    requires RunHolds(interp, first, rounds)
    requires ReadRound(interp, tape, first, rounds).Got?
    ensures RunHolds(interp, first, rounds + [ReadRound(interp, tape, first, rounds).value])
  {
    hide HashAfter, BlockHashes, Root, MeetsTarget, WithdrawalHolds, ReadWithdrawal;
    var round := ReadRound(interp, tape, first, rounds).value;
    var after := rounds + [round];
    RoundsSnoc(rounds, round);
    var headers := AllHeaders(rounds);
    MinedAppend(interp, first, headers, round.batch.headers);
    BatchHashBeforeLast(interp, tape, first, headers);
    hide ReadBatch, HashBeforeLast;
    assert after[..|rounds|] == rounds && after[..|rounds| + 1] == after;
    assert RoundHolds(first, after, |rounds|);
    hide RoundHolds, ReadRound;
    forall r | 0 <= r < |rounds| ensures RoundHolds(first, after, r) {
      EarlierRoundHolds(first, rounds, round, r);
    }
  }

  lemma EarlierRoundHolds(first: Word, rounds: seq<Round>, round: Round, r: nat)
    requires r < |rounds| && RoundHolds(first, rounds, r)
    ensures RoundHolds(first, rounds + [round], r)
  {
    hide HashBeforeLast, WithdrawalHolds, BlockRoot, AllHeaders, HashAfter;
    var after := rounds + [round];
    assert after[..r + 1] == rounds[..r + 1] && after[..r] == rounds[..r] && after[r] == rounds[r];
  }

  lemma {:induction false} RoundsHold(interp: Interpretation, tape: seq<Item>, left: nat, first: Word,
                                      rounds: seq<Round>)
    requires RunHolds(interp, first, rounds)
    requires ReadRounds(interp, tape, left, first, rounds).Got?
    ensures RunHolds(interp, first, ReadRounds(interp, tape, left, first, rounds).value.0)
    decreases left
  {
    hide ReadRound, RunHolds;
    if left > 0 {
      var r := ReadRound(interp, tape, first, rounds);
      RoundKeepsRun(interp, tape, first, rounds);
      if r.value.end != 1 {
        RoundsHold(interp, r.rest, left - 1, first, rounds + [r.value]);
      }
    }
  }

  /** A transaction under the Merkle root of one of these headers. */
  ghost predicate InBlock(txid: Word, headers: seq<Header>, path: MerklePath) {
    exists k :: 0 <= k < |headers| && headers[k].merkleRoot == BitcoinFold(txid, path.index, path.nodes)
  }

  ghost predicate PaidTo(address: Word, w: Withdrawal) {
    exists o :: && 0 <= o < |w.entry.Tx().outputs|
                && w.entry.Tx().outputs[o] == Output(BRIDGE_AMOUNT_SATS, TaprootScript(address))
  }

  ghost predicate EveryWithdrawalPaid(first: Word, rounds: seq<Round>) {
    forall r, k :: 0 <= r < |rounds| && 0 <= k < |rounds[r].withdrawals| ==>
      var w := rounds[r].withdrawals[k];
      && PaidTo(w.address, w)
      && Encodable(w.entry.Tx())
      && InBlock(Txid(w.entry.Tx()), AllHeaders(rounds[..r + 1]), w.placement.path)
  }

  lemma {:induction false} HeadersMonotone(rounds: seq<Round>, r: nat)
    requires r <= |rounds|
    ensures |AllHeaders(rounds[..r])| <= |AllHeaders(rounds)|
    decreases |rounds|
  {
    if r < |rounds| {
      HeadersMonotone(rounds[..|rounds| - 1], r);
      assert rounds[..|rounds| - 1][..r] == rounds[..r];
    } else {
      assert rounds[..r] == rounds;
    }
  }

  lemma WithdrawalsArePaid(interp: Interpretation, first: Word, rounds: seq<Round>)
    requires RunHolds(interp, first, rounds)
    ensures EveryWithdrawalPaid(first, rounds)
  {
    hide Txid, Encodable, TaprootScript, Mined, HashAfter, BlockHashes, Root, BitcoinFold;
    forall r, k | 0 <= r < |rounds| && 0 <= k < |rounds[r].withdrawals|
      ensures var w := rounds[r].withdrawals[k];
              && PaidTo(w.address, w)
              && Encodable(w.entry.Tx())
              && InBlock(Txid(w.entry.Tx()), AllHeaders(rounds[..r + 1]), w.placement.path)
    {
      var w, headers := rounds[r].withdrawals[k], AllHeaders(rounds[..r + 1]);
      assert RoundHolds(first, rounds, r);
      assert WithdrawalHolds(w, BlockRoot(first, headers));
      var o :| 0 <= o < |w.entry.entries| && OutputMatches(Payment(w.address), w.entry.entries[o]);
      assert w.entry.Tx().outputs[o] == w.entry.entries[o].output;
      HeadersMonotone(rounds, r + 1);
      var b := PlacedInReadBlock(w.placement, Txid(w.entry.Tx()), first, headers);
    }
  }

  /** The leaves of the withdrawal tree, in order, are the addresses the withdrawals paid. */
  lemma {:induction false} LeafIsWithdrawal(rounds: seq<Round>, i: nat) returns (r: nat, k: nat)
    requires i < |AllAddresses(rounds)|
    ensures r < |rounds| && k < |rounds[r].withdrawals|
    ensures AllAddresses(rounds)[i] == rounds[r].withdrawals[k].address
    decreases |rounds|
  {
    var n := |rounds| - 1;
    var before := |AllAddresses(rounds[..n])|;
    if i < before {
      r, k := LeafIsWithdrawal(rounds[..n], i);
    } else {
      r, k := n, i - before;
    }
  }

  // The claim proof.

  /**
   The claim tree has CLAIM_MERKLE_TREE_DEPTH levels, so its proof is for the number of
   withdrawals modulo 16: under a root of known leaves the preimages are the ones there.
  */
  lemma ClaimLeafIsAt(leaves: seq<Word>, leaf: Word, total: nat, siblings: seq<Word>)
    requires |siblings| == CLAIM_MERKLE_TREE_DEPTH
    requires Fold(leaf, total, siblings) == Root(leaves, CLAIM_MERKLE_TREE_DEPTH)
    ensures leaf == PaddedLeaf(leaves, total % 16)
  {
    ProofAcceptedIff(leaves, leaf, total, siblings);
  }

  /** Whatever the claim tree, an accepted proof for the number is for the leaf at the number. */
  ghost predicate ClaimNamesCount(total: nat) {
    forall leaves, leaf, siblings ::
      |siblings| == CLAIM_MERKLE_TREE_DEPTH && Fold(leaf, total, siblings) == Root(leaves, CLAIM_MERKLE_TREE_DEPTH) ==>
        leaf == PaddedLeaf(leaves, total)
  }

  /** The claim proof is for the number of withdrawals exactly when there are fewer than 16. */
  lemma ClaimNamesCountIff(total: nat)
    ensures ClaimNamesCount(total) <==> total < 16
  {
    if total < 16 {
      forall leaves, leaf, siblings | |siblings| == CLAIM_MERKLE_TREE_DEPTH
                                      && Fold(leaf, total, siblings) == Root(leaves, CLAIM_MERKLE_TREE_DEPTH)
        ensures leaf == PaddedLeaf(leaves, total)
      {
        ClaimLeafIsAt(leaves, leaf, total, siblings);
      }
    } else {
      FullClaimTree(total);
    }
  }

  function SixteenLeaves(): seq<Word> {
    seq(16, _ => ZERO_WORD)
  }

  /** From 16 on, in a full claim tree: the leaf at total modulo 16 passes and is not the one at total. */
  lemma FullClaimTree(total: nat)
    requires total >= 16
    ensures var leaves, p := SixteenLeaves(), total % 16;
            && Fold(PaddedLeaf(leaves, p), total, Siblings(leaves, 0, p, CLAIM_MERKLE_TREE_DEPTH))
               == Root(leaves, CLAIM_MERKLE_TREE_DEPTH)
            && PaddedLeaf(leaves, p) != PaddedLeaf(leaves, total)
  {
    var leaves, p := SixteenLeaves(), total % 16;
    var siblings := Siblings(leaves, 0, p, CLAIM_MERKLE_TREE_DEPTH);
    assert Pow2(CLAIM_MERKLE_TREE_DEPTH) == 16;
    assert ZERO_WORD[0] != EmptyData()[0];
    hide Fold, Siblings, Root, Pow2;
    ProofAcceptedIff(leaves, PaddedLeaf(leaves, p), total, siblings);
  }

  /** The failing family: the same proof is accepted for sixteen withdrawals more. */
  lemma ClaimProofRepeats(leaf: Word, total: nat, siblings: seq<Word>)
    requires |siblings| == CLAIM_MERKLE_TREE_DEPTH
    ensures Fold(leaf, total + 16, siblings) == Fold(leaf, total, siblings)
  {
    assert Pow2(CLAIM_MERKLE_TREE_DEPTH) == 16 && (total + 16) % 16 == total % 16;
    hide Fold, Pow2;
    FoldIgnoresHighBits(leaf, total, siblings);
    FoldIgnoresHighBits(leaf, total + 16, siblings);
  }

  /** One of them: sixteen withdrawals pass with the proof for none, of another leaf. */
  lemma SixteenWithdrawalsPassAsNone()
    ensures var leaves := SixteenLeaves();
            && Fold(PaddedLeaf(leaves, 0), 16, Siblings(leaves, 0, 0, CLAIM_MERKLE_TREE_DEPTH))
               == Root(leaves, CLAIM_MERKLE_TREE_DEPTH)
            && PaddedLeaf(leaves, 0) != PaddedLeaf(leaves, 16)
  {
    hide Fold, Siblings, Root, PaddedLeaf, SixteenLeaves;
    FullClaimTree(16);
  }

  // Payments behind more than one leaf.

  predicate PaysAt(w: Withdrawal, o: nat) {
    && o < |w.entry.Tx().outputs|
    && w.entry.Tx().outputs[o] == Output(BRIDGE_AMOUNT_SATS, TaprootScript(w.address))
  }

  /** Withdrawals to different addresses are paid by different outputs. */
  lemma OneOutputOneAddress(v: Withdrawal, w: Withdrawal, o: nat)
    requires Readable(v.entry) && Readable(w.entry) && PaysAt(v, o) && PaysAt(w, o)
    requires Txid(v.entry.Tx()) == Txid(w.entry.Tx())
    ensures v.address == w.address
  {
    hide Txid, TaprootScript;
    TxidCommits(v.entry.Tx(), w.entry.Tx());
    TaprootScriptInjective(v.address, w.address);
  }

  lemma AcceptedRunHolds(interp: Interpretation, tweak: Tweak, roots: ClaimRoots, tape: seq<Item>)
    requires ReadBridgeProof(interp, tweak, roots, tape).Got?
    ensures var s := ReadBridgeProof(interp, tweak, roots, tape).value;
            && RunHolds(interp, s.first, s.rounds)
            && Mined(interp, s.FinalHash(), s.kDeep)
            && |s.kDeep| < 0x1_0000_0000
            && s.rounds != [] && s.lc == LcProof(LastLc(s.rounds), Root(AllAddresses(s.rounds), DEPTH))
            && ChallengeMet(interp, s.challenge, s.lastPeriod, s.FinalHash(), s.TotalPow())
            && ClaimHolds(tweak, roots, s.claim, BlockRoot(s.first, s.Headers()), s.challenge.Period(),
                          |AllAddresses(s.rounds)|)
  {
    hide HashAfter, BlockHashes, ReadRounds, ReadChallenge, ReadClaim, SumOfWork, Modulus, MeetsTarget, Root;
    hide RoundHolds, ClaimHolds, ChallengeMet, BlockRoot;
    var first := NextWord(tape);
    EmptyRun(first.value);
    assert RunHolds(interp, first.value, []);
    RoundsHold(interp, first.rest, NUM_ROUNDS, first.value, []);
    SomeRound(interp, first.rest, NUM_ROUNDS, first.value, []);
  }

  lemma {:induction false} SomeRound(interp: Interpretation, tape: seq<Item>, left: nat, first: Word,
                                     rounds: seq<Round>)
    requires left > 0 || rounds != []
    requires ReadRounds(interp, tape, left, first, rounds).Got?
    ensures ReadRounds(interp, tape, left, first, rounds).value.0 != []
    decreases left
  {
    hide ReadRounds, ReadRound;
    if left == 0 {
      NoRoundsLeft(interp, tape, first, rounds);
    } else {
      ReadRoundsStep(interp, tape, left, first, rounds);
      var r := ReadRound(interp, tape, first, rounds);
      if r.value.end != 1 {
        SomeRound(interp, r.rest, left - 1, first, rounds + [r.value]);
      }
    }
  }

  /**
   What bridge_proof establishes whenever it returns: (1) the headers form one hash-linked
   chain and each meets its own target; (2) every withdrawal was paid exactly the bridge
   amount by a transaction in a block read by then, so every leaf of the withdrawal tree is;
   (3) the tree holds all withdrawals, fewer than 2^32; (4) the reveal transaction spends
   the named output of the commit transaction and lies in a block read; (5) under the
   period's claim root the committed preimages are those at the index equal to the number of
   withdrawals modulo 16; (6) the last period and the final hash are the verifier's, or the
   operator showed strictly more work; (7) the two words for the light-client proof are the
   chain hash before the last round's last headers and the root of the withdrawal tree.
  */
  lemma BridgeProofSound(interp: Interpretation, tweak: Tweak, roots: ClaimRoots, tape: seq<Item>)
    requires ReadBridgeProof(interp, tweak, roots, tape).Got?
    ensures var s := ReadBridgeProof(interp, tweak, roots, tape).value;
            && Mined(interp, s.first, s.Headers() + s.kDeep)
            && EveryWithdrawalPaid(s.first, s.rounds)
            && |AllAddresses(s.rounds)| < 0x1_0000_0000
            && Encodable(s.claim.commit.Tx()) && Encodable(s.claim.spend.Tx())
            && (exists i :: && 0 <= i < |s.claim.spend.inputs|
                            && s.claim.spend.inputs[i].prevTx == Txid(s.claim.commit.Tx())
                            && s.claim.spend.inputs[i].vout == s.claim.vout)
            && InBlock(Txid(s.claim.spend.Tx()), s.Headers(), s.claim.placement.path)
            && s.challenge.Period() < NUM_ROUNDS
            && (forall leaves :: roots[s.challenge.Period()] == Root(leaves, CLAIM_MERKLE_TREE_DEPTH) ==>
                  s.claim.preimages.ClaimLeaf() == PaddedLeaf(leaves, |AllAddresses(s.rounds)| % 16))
            && (|| (s.challenge.Period() == s.lastPeriod % 256 && s.challenge.cutoff == s.FinalHash())
                || s.TotalPow() > s.challenge.Pow(interp))
            && s.rounds != [] && s.lc.withdrawalRoot == Root(AllAddresses(s.rounds), DEPTH)
            && (var last := |s.rounds| - 1;
                s.lc.blockhash == HashBeforeLast(s.first, AllHeaders(s.rounds[..last]), s.rounds[last].batch.headers))
  {
    hide Txid, Encodable, TaprootScript, HashAfter, BlockHashes, Root, BitcoinFold, Fold, ReadBridgeProof, Mined;
    hide SumOfWork, Modulus, MeetsTarget, EveryWithdrawalPaid, HashBeforeLast, AllHeaders, AllAddresses, PaddedLeaf;
    hide Preimages.LeafScript, Preimages.ClaimLeaf;
    var s := ReadBridgeProof(interp, tweak, roots, tape).value;
    AcceptedRunHolds(interp, tweak, roots, tape);
    assert RoundHolds(s.first, s.rounds, |s.rounds| - 1);
    MinedAppend(interp, s.first, s.Headers(), s.kDeep);
    WithdrawalsArePaid(interp, s.first, s.rounds);
    var b := PlacedInReadBlock(s.claim.placement, Txid(s.claim.spend.Tx()), s.first, s.Headers());
    var i :| 0 <= i < |s.claim.spend.inputs|
             && InputMatches(Some((Txid(s.claim.commit.Tx()), s.claim.vout)), s.claim.spend.inputs[i]);
    forall leaves | roots[s.challenge.Period()] == Root(leaves, CLAIM_MERKLE_TREE_DEPTH)
      ensures s.claim.preimages.ClaimLeaf() == PaddedLeaf(leaves, |AllAddresses(s.rounds)| % 16)
    {
      ClaimLeafIsAt(leaves, s.claim.preimages.ClaimLeaf(), |AllAddresses(s.rounds)|, s.claim.claimSiblings);
    }
  }

  /** With targets of at least 5 * 2^32 the work compared with the challenge's is the exact sum. */
  lemma TotalPowIsExact(interp: Interpretation, tweak: Tweak, roots: ClaimRoots, tape: seq<Item>)
    requires ReadBridgeProof(interp, tweak, roots, tape).Got?
    requires var s := ReadBridgeProof(interp, tweak, roots, tape).value; EasyBounded(s.Headers() + s.kDeep)
    ensures var s := ReadBridgeProof(interp, tweak, roots, tape).value; s.TotalPow() == SumOfWork(s.Headers() + s.kDeep)
  {
    hide ReadBridgeProof, EasyBounded, SumOfWork, Modulus, Mined, RoundHolds, ClaimHolds;
    AcceptedRunHolds(interp, tweak, roots, tape);
    var s := ReadBridgeProof(interp, tweak, roots, tape).value;
    WorkDoesNotWrap(s.Headers() + s.kDeep);
  }
}
