/**
 Accepted runs: one for every number of withdrawals, which all repeat one payment. So what
 Bridge proves about accepted tapes is about something, and what it does not say about
 repeated withdrawals it could not say.
*/
module AcceptedRun {
  import opened Wrappers
  import opened Bits
  import opened SymbolicBytes
  import opened Tape
  import opened TxFormat
  import opened TxReader
  import opened TxWriter
  import opened MerkleSpec
  import opened MerkleProof
  import opened ProofOfWork
  import opened Headers
  import opened Inclusion
  import opened Bridge
  import opened BridgeTape

  // A transaction that is the whole of a block is placed in it without a Merkle path.

  function PlacementOf(first: Word, headers: seq<Header>, k: U32): Placement
    requires k < |headers|
  {
    Placement(MerklePath(0, []), HashAfter(first, headers[..k]), headers[k], k,
              Siblings(BlockHashes(first, headers), 0, k, DEPTH))
  }

  lemma OnlyTransactionIsPlaced(first: Word, headers: seq<Header>, k: U32, txid: Word)
    requires k < |headers| && headers[k].merkleRoot == txid
    ensures Placed(PlacementOf(first, headers, k), txid, BlockRoot(first, headers))
  {
    hide BlockHash, BlockHashes, HashAfter, Fold, Siblings, Node, Pow2, Shift;
    var leaves := BlockHashes(first, headers);
    var p := PlacementOf(first, headers, k);
    BlockHashAt(first, headers, k);
    LeafNode(leaves, k);
    FitsDepth(k);
    ShiftZero(k, DEPTH);
    FoldComplete(leaves, 0, k, DEPTH);
    assert p.Hash() == leaves[k];
    NoPath(txid);
  }

  lemma NoPath(txid: Word)
    ensures BitcoinFold(txid, 0, []) == txid
  {
  }

  lemma LeafNode(leaves: seq<Word>, k: nat)
    requires k < |leaves|
    ensures Node(leaves, 0, k) == leaves[k]
  {
  }

  // The parts of the run.

  function ZeroInterpretation(): Interpretation {
    (b: Byte) => 0
  }

  lemma {:induction false} ZeroValue(w: Bytes)
    ensures LittleEndian(Value(ZeroInterpretation(), w)) == 0
  {
    if w != [] {
      ZeroValue(w[1..]);
      assert Value(ZeroInterpretation(), w)[1..] == Value(ZeroInterpretation(), w[1..]);
    }
  }

  /** With every digest worth 0 all headers are mined. */
  lemma ZeroIsMined(start: Word, headers: seq<Header>)
    requires forall k :: 0 <= k < |headers| ==> headers[k].bits == 0
    ensures Mined(ZeroInterpretation(), start, headers)
  {
    CompactFields(0);
    hide LittleEndian, BlockHashes;
    forall k | 0 <= k < |headers|
      ensures MeetsTarget(ZeroInterpretation(), headers[k].bits, BlockHashes(start, headers)[k])
    {
      ZeroValue(BlockHashes(start, headers)[k]);
    }
  }

  function OneOutput(value: U64, address: Word): Transaction {
    Transaction(2, [], [Output(value, TaprootScript(address))], 0)
  }

  lemma OneOutputIsReadable(value: U64, address: Word, wanted: Option<U64>)
    requires wanted.None? || wanted.value == value
    ensures var e := EntryOfTx(OneOutput(value, address));
            Readable(e) && e.Tx() == OneOutput(value, address) && OutputFound(Some((wanted, address)), e.entries)
  {
    var e := EntryOfTx(OneOutput(value, address));
    TaprootScriptShape(address);
    OutputItemsOfEntry(Output(value, TaprootScript(address)));
    assert e.Tx().outputs == OneOutput(value, address).outputs;
    assert OutputMatches(Some((wanted, address)), e.entries[0]);
  }

  function OneInput(txid: Word, vout: U32): Transaction {
    Transaction(2, [Input(txid, vout, [], 0)], [], 0)
  }

  lemma OneInputIsReadable(txid: Word, vout: U32)
    ensures var e := EntryOfTx(OneInput(txid, vout));
            Readable(e) && e.Tx() == OneInput(txid, vout) && InputFound(Some((txid, vout)), e.inputs)
  {
    var e := EntryOfTx(OneInput(txid, vout));
    assert e.Tx().outputs == [];
    assert InputMatches(Some((txid, vout)), e.inputs[0]);
  }

  const NO_PREIMAGES := Preimages(ZERO_WORD, [])

  function PaymentTx(address: Word): Transaction {
    OneOutput(BRIDGE_AMOUNT_SATS, address)
  }

  function CommitTx(tweak: Tweak): Transaction {
    OneOutput(0, tweak(Sha256(NO_PREIMAGES.LeafScript())))
  }

  function RevealTx(tweak: Tweak): Transaction
    requires Encodable(CommitTx(tweak))
  {
    OneInput(Txid(CommitTx(tweak)), 0)
  }

  // The runs: one round of three blocks and `n` withdrawals, whose last word ends the proving.

  function TheHeaders(tweak: Tweak, address: Word): (r: seq<Header>)
    ensures |r| == 3 && forall k :: 0 <= k < 3 ==> r[k].bits == 0
  {
    var payment := Txid(PaymentTx(address));
    var spending := Txid(RevealTx(tweak));
    [Header(0, payment, 0, 0, 0), Header(0, spending, 0, 0, 0), Header(0, spending, 0, 0, 0)]
  }

  /** The withdrawal that every leaf stands for. */
  function TheWithdrawal(tweak: Tweak, address: Word): Withdrawal {
    Withdrawal(address, EntryOfTx(PaymentTx(address)), PlacementOf(ZERO_WORD, TheHeaders(tweak, address), 0))
  }

  function TheRound(tweak: Tweak, address: Word, n: U32): Round {
    var headers := TheHeaders(tweak, address);
    Round(Batch(headers, LcBlockHash(ZERO_WORD, headers, MAX_BLOCK_HANDLE_OPS)),
          seq(n, _ => TheWithdrawal(tweak, address)), 1)
  }

  /** A claim tree of every period with the leaf of no preimages everywhere. */
  function ClaimLeaves(): (r: seq<Word>)
    ensures |r| == 16 && forall i :: 0 <= i < 16 ==> r[i] == NO_PREIMAGES.ClaimLeaf()
  {
    seq(16, _ => NO_PREIMAGES.ClaimLeaf())
  }

  function TheRoots(): ClaimRoots {
    var root := Root(ClaimLeaves(), CLAIM_MERKLE_TREE_DEPTH);
    [root, root, root, root]
  }

  function TheClaim(tweak: Tweak, address: Word, n: U32): Claim {
    Claim(NO_PREIMAGES, EntryOfTx(CommitTx(tweak)), 0, EntryOfTx(RevealTx(tweak)),
          PlacementOf(ZERO_WORD, TheHeaders(tweak, address), 1), Siblings(ClaimLeaves(), 0, n % 16,
                                                                          CLAIM_MERKLE_TREE_DEPTH))
  }

  /** A run whose challenge names this period and cutoff and no work. */
  function ChallengedTranscript(tweak: Tweak, address: Word, n: U32, period: U32, cutoff: Word): Transcript {
    var round := TheRound(tweak, address, n);
    Transcript(ZERO_WORD, [round], 0,
               Challenge([ZERO_WORD, ZERO_WORD, ZERO_WORD, ZERO_WORD], cutoff, ZERO_WORD, period),
               [], LcProof(round.batch.lcBlockHash, Root(AllAddresses([round]), DEPTH)), TheClaim(tweak, address, n))
  }

  function TheTranscript(tweak: Tweak, address: Word, n: U32): Transcript {
    ChallengedTranscript(tweak, address, n, 0, HashAfter(ZERO_WORD, TheHeaders(tweak, address)))
  }

  lemma TheRoundFits(tweak: Tweak, address: Word, n: U32)
    ensures RoundFits(ZeroInterpretation(), ZERO_WORD, [], TheRound(tweak, address, n))
  {
    hide HashAfter, BlockHashes, BlockHash, Root, Txid, Mined, Readable, OutputFound, LcBlockHash, Placed;
    hide EntryOfTx, Siblings;
    var headers := TheHeaders(tweak, address);
    EmptyRun(ZERO_WORD);
    assert [] + headers == headers;
    ZeroIsMined(ZERO_WORD, headers);
    OneOutputIsReadable(BRIDGE_AMOUNT_SATS, address, Some(BRIDGE_AMOUNT_SATS));
    OnlyTransactionIsPlaced(ZERO_WORD, headers, 0, Txid(PaymentTx(address)));
    assert WithdrawalHolds(TheWithdrawal(tweak, address), BlockRoot(ZERO_WORD, headers));
  }

  lemma TheClaimHolds(tweak: Tweak, address: Word, n: U32, period: U8)
    requires period < NUM_ROUNDS
    ensures ClaimHolds(tweak, TheRoots(), TheClaim(tweak, address, n),
                       BlockRoot(ZERO_WORD, TheHeaders(tweak, address)), period, n)
  {
    OneOutputIsReadable(0, tweak(Sha256(NO_PREIMAGES.LeafScript())), None);
    OneInputIsReadable(Txid(CommitTx(tweak)), 0);
    hide HashAfter, BlockHashes, BlockHash, BlockRoot, Txid, Readable, OutputFound, InputFound, Placed, EntryOfTx;
    hide Preimages.LeafScript, Preimages.ClaimLeaf, Siblings, Root, Fold;
    OnlyTransactionIsPlaced(ZERO_WORD, TheHeaders(tweak, address), 1, Txid(RevealTx(tweak)));
    var leaves, p := ClaimLeaves(), n % 16;
    ClaimCapacity();
    ProofAcceptedIff(leaves, leaves[p], n, Siblings(leaves, 0, p, CLAIM_MERKLE_TREE_DEPTH));
  }

  lemma ClaimCapacity()
    ensures Pow2(CLAIM_MERKLE_TREE_DEPTH) == 16
  {
  }

  lemma TheWithdrawals(tweak: Tweak, address: Word, n: U32)
    ensures |AllAddresses([TheRound(tweak, address, n)])| == n
    ensures AllHeaders([TheRound(tweak, address, n)]) == TheHeaders(tweak, address)
  {
    hide TheHeaders, TheWithdrawal, LcBlockHash;
    EmptyRun(ZERO_WORD);
    RoundsSnoc([], TheRound(tweak, address, n));
    assert [] + [TheRound(tweak, address, n)] == [TheRound(tweak, address, n)];
    assert [] + TheHeaders(tweak, address) == TheHeaders(tweak, address);
  }

  /** Whatever the tweak, and the address, there is an accepted tape with blocks and `n` times the same withdrawal. */
  lemma SomeRunIsAccepted(tweak: Tweak, address: Word, n: U32)
    ensures var s := TheTranscript(tweak, address, n);
            && PrintableTranscript(s)
            && ReadBridgeProof(ZeroInterpretation(), tweak, TheRoots(), PrintTranscript(s, [])) == Got(s, [])
            && |s.Headers()| == 3 && |AllAddresses(s.rounds)| == n && |s.rounds[0].withdrawals| == n
            && (forall k :: 0 <= k < n ==> s.rounds[0].withdrawals[k] == TheWithdrawal(tweak, address))
  {
    hide HashAfter, Root, BlockRoot, RoundFits, ClaimHolds, Mined, PrintTranscript, PrintableTranscript;
    hide ReadBridgeProof, TheHeaders, TheClaim, TheRoots, SumOfWork, Modulus, TheWithdrawal;
    var s, r := TheTranscript(tweak, address, n), TheRound(tweak, address, n);
    TheWithdrawals(tweak, address, n);
    TheRoundFits(tweak, address, n);
    TheClaimHolds(tweak, address, n, 0);
    RoundsFitSnoc(ZeroInterpretation(), ZERO_WORD, [], r);
    assert [] + [r] == [r];
    ZeroIsMined(s.FinalHash(), []);
    hide AllHeaders, AllAddresses, TheRound;
    TranscriptIsAccepted(ZeroInterpretation(), tweak, TheRoots(), s, []);
  }

  /** With a target of zero a header claims all the work there is. */
  lemma ZeroBitsWork()
    ensures WorkOf(0) == Modulus() - 1
  {
    CompactFields(0);
    var target := DecodedTarget(0, 0).value;
    assert target == Zeros(32);
    LittleEndianZeros(32);
    ModulusIsLarge();
    hide Modulus, LittleEndian;
    DivMod(Modulus() - 1, 1);
  }

  lemma ThreeHeadersWork(headers: seq<Header>)
    requires |headers| == 3 && forall k :: 0 <= k < 3 ==> headers[k].bits == 0
    ensures SumOfWork(headers + []) % Modulus() == Modulus() - 3 > 0
  {
    ZeroBitsWork();
    ModulusIsLarge();
    hide Modulus, WorkOf;
    assert headers + [] == headers && headers[..2][..1] == headers[..1] && headers[..1][..0] == [];
    assert SumOfWork(headers) == SumOfWork(headers[..2]) + WorkOf(headers[2].bits);
    assert SumOfWork(headers[..2]) == SumOfWork(headers[..1]) + WorkOf(headers[1].bits);
    assert SumOfWork(headers[..1]) == SumOfWork([]) + WorkOf(headers[0].bits);
    QuotientUnique(SumOfWork(headers), Modulus(), 2, Modulus() - 3);
  }

  /** Against a challenge with less work a run is accepted whatever period and final hash it names. */
  lemma MoreWorkIsAccepted(tweak: Tweak, address: Word, n: U32, period: U32, cutoff: Word)
    requires period % 256 < NUM_ROUNDS
    ensures var s := ChallengedTranscript(tweak, address, n, period, cutoff);
            && PrintableTranscript(s)
            && ReadBridgeProof(ZeroInterpretation(), tweak, TheRoots(), PrintTranscript(s, [])) == Got(s, [])
            && s.challenge.Pow(ZeroInterpretation()) == 0 && s.TotalPow() > 0
  {
    hide HashAfter, Root, BlockRoot, RoundFits, ClaimHolds, Mined, PrintTranscript, PrintableTranscript;
    hide ReadBridgeProof, TheHeaders, TheClaim, TheRoots, SumOfWork, Modulus, TheWithdrawal, LittleEndian;
    var s, r := ChallengedTranscript(tweak, address, n, period, cutoff), TheRound(tweak, address, n);
    TheWithdrawals(tweak, address, n);
    TheRoundFits(tweak, address, n);
    TheClaimHolds(tweak, address, n, period % 256);
    RoundsFitSnoc(ZeroInterpretation(), ZERO_WORD, [], r);
    assert [] + [r] == [r];
    ZeroIsMined(s.FinalHash(), []);
    ZeroValue(ZERO_WORD);
    ThreeHeadersWork(TheHeaders(tweak, address));
    hide AllHeaders, AllAddresses, TheRound;
    TranscriptIsAccepted(ZeroInterpretation(), tweak, TheRoots(), s, []);
  }

  /** Two leaves of the run, to these addresses, are paid by the same output of the same transaction. */
  ghost predicate LeavesShareOutput(s: Transcript, a: Word, b: Word) {
    exists r: nat, k: nat, q: nat, l: nat, o: nat :: LeavesAtShare(s, a, b, r, k, q, l, o)
  }

  /** Withdrawal `k` of round `r` and withdrawal `l` of round `q`, by output `o`. */
  ghost predicate LeavesAtShare(s: Transcript, a: Word, b: Word, r: nat, k: nat, q: nat, l: nat, o: nat) {
    && r < |s.rounds| && k < |s.rounds[r].withdrawals|
    && q < |s.rounds| && l < |s.rounds[q].withdrawals| && (r, k) != (q, l)
    && SharedOutput(s.rounds[r].withdrawals[k], s.rounds[q].withdrawals[l], a, b, o)
  }

  ghost predicate SharedOutput(v: Withdrawal, w: Withdrawal, a: Word, b: Word, o: nat) {
    && v.address == a && w.address == b && Readable(v.entry) && Readable(w.entry)
    && Txid(v.entry.Tx()) == Txid(w.entry.Tx()) && PaysAt(v, o) && PaysAt(w, o)
  }

  ghost predicate SomeRunSharesOutput(tweak: Tweak, a: Word, b: Word) {
    exists interp, roots, tape ::
      var r := ReadBridgeProof(interp, tweak, roots, tape);
      r.Got? && LeavesShareOutput(r.value, a, b)
  }

  lemma RunWithTwoSharesOutput(tweak: Tweak, address: Word)
    ensures LeavesShareOutput(TheTranscript(tweak, address, 2), address, address)
  {
    hide TheHeaders, Txid, TaprootScript, Readable;
    var w := TheWithdrawal(tweak, address);
    OneOutputIsReadable(BRIDGE_AMOUNT_SATS, address, None);
    assert w.entry.Tx() == PaymentTx(address);
    assert SharedOutput(w, w, address, address, 0);
    var s := TheTranscript(tweak, address, 2);
    assert s.rounds[0].withdrawals[0] == w && s.rounds[0].withdrawals[1] == w;
    assert LeavesAtShare(s, address, address, 0, 0, 0, 1, 0);
  }

  lemma SharedMeansOneAddress(s: Transcript, a: Word, b: Word)
    requires LeavesShareOutput(s, a, b)
    ensures a == b
  {
    hide Readable, Txid, PaysAt;
    var r: nat, k: nat, q: nat, l: nat, o: nat :| LeavesAtShare(s, a, b, r, k, q, l, o);
    OneOutputOneAddress(s.rounds[r].withdrawals[k], s.rounds[q].withdrawals[l], o);
  }

  /** An accepted run can let one output stand behind two leaves exactly when they name one address. */
  lemma OutputIsSharedIff(tweak: Tweak, a: Word, b: Word)
    ensures SomeRunSharesOutput(tweak, a, b) <==> a == b
  {
    hide ReadBridgeProof, TheTranscript, PrintTranscript, LeavesShareOutput, PrintableTranscript, TheWithdrawal;
    if SomeRunSharesOutput(tweak, a, b) {
      var interp, roots, tape :| ReadBridgeProof(interp, tweak, roots, tape).Got?
        && LeavesShareOutput(ReadBridgeProof(interp, tweak, roots, tape).value, a, b);
      SharedMeansOneAddress(ReadBridgeProof(interp, tweak, roots, tape).value, a, b);
    }
    if a == b {
      var s := TheTranscript(tweak, a, 2);
      SomeRunIsAccepted(tweak, a, 2);
      RunWithTwoSharesOutput(tweak, a);
      assert ReadBridgeProof(ZeroInterpretation(), tweak, TheRoots(), PrintTranscript(s, [])) == Got(s, []);
    }
  }
}
