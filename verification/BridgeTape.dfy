/**
 The converse of what Bridge proves: which runs the circuit accepts, exactly. Every accepted
 tape describes a transcript that holds, and every transcript that holds has a tape, printed
 here in the reader's order and with each output's own flag, that is accepted and read back
 as that transcript.
*/
module BridgeTape {
  import opened Wrappers
  import opened SymbolicBytes
  import opened Tape
  import opened TxFormat
  import opened TxReader
  import opened TxWriter
  import opened MerkleSpec
  import opened MerkleProof
  import opened ProofOfWork
  import opened Headers
  import opened Inclusion
  import opened Bridge

  // The conditions a run meets.

  /** A round that fits after the rounds in `before`. */
  ghost predicate RoundFits(interp: Interpretation, first: Word, before: seq<Round>, r: Round) {
    var start := HashAfter(first, AllHeaders(before));
    var n := |r.batch.headers|;
    && n < LIMIT && (n > 0 ==> MAX_BLOCK_HANDLE_OPS <= n && |AllHeaders(before)| + n < 0x1_0000_0000)
    && Mined(interp, start, r.batch.headers)
    && r.batch.lcBlockHash == LcBlockHash(start, r.batch.headers, MAX_BLOCK_HANDLE_OPS)
    && |r.withdrawals| < LIMIT
    && (r.withdrawals != [] ==> |AllAddresses(before)| + |r.withdrawals| < 0x1_0000_0000)
    && AllHold(r.withdrawals, BlockRoot(first, AllHeaders(before) + r.batch.headers))
  }

  ghost predicate RoundsFit(interp: Interpretation, first: Word, rounds: seq<Round>) {
    forall r :: 0 <= r < |rounds| ==> RoundFits(interp, first, rounds[..r], rounds[r])
  }

  /** Only the last round may ask to stop, and without a request there are NUM_ROUNDS of them. */
  predicate RoundsEnd(rounds: seq<Round>, lastPeriod: nat) {
    && 0 < |rounds| <= NUM_ROUNDS
    && (forall r :: 0 <= r < |rounds| - 1 ==> rounds[r].end != 1)
    && (if rounds[|rounds| - 1].end == 1 then lastPeriod == |rounds| - 1 else |rounds| == NUM_ROUNDS && lastPeriod == 0)
  }

  ghost predicate TranscriptHolds(interp: Interpretation, tweak: Tweak, roots: ClaimRoots, s: Transcript) {
    && RoundsFit(interp, s.first, s.rounds) && RoundsEnd(s.rounds, s.lastPeriod)
    && |s.challenge.mock| == 4
    && |s.kDeep| < LIMIT && Mined(interp, s.FinalHash(), s.kDeep)
    && (|| (s.challenge.periodNum % 256 == s.lastPeriod % 256 && s.challenge.cutoff == s.FinalHash())
        || s.TotalPow() > LittleEndian(Value(interp, s.challenge.maxPow)))
    && s.lc == LcProof(LastLc(s.rounds), Root(AllAddresses(s.rounds), DEPTH))
    && ClaimHolds(tweak, roots, s.claim, BlockRoot(s.first, s.Headers()), s.challenge.periodNum % 256,
                  |AllAddresses(s.rounds)|)
  }

  // Accepted tapes describe transcripts that hold.

  lemma ReadRoundFits(interp: Interpretation, tape: seq<Item>, first: Word, rounds: seq<Round>)
    requires ReadRound(interp, tape, first, rounds).Got?
    ensures RoundFits(interp, first, rounds, ReadRound(interp, tape, first, rounds).value)
  {
    hide AllHeaders, AllAddresses, HashAfter, BlockRoot, WithdrawalHolds, ReadWithdrawal, MeetsTarget, BlockHashes;
    EmptyChain(HashAfter(first, AllHeaders(rounds)));
  }

  lemma RoundsFitSnoc(interp: Interpretation, first: Word, rounds: seq<Round>, r: Round)
    requires RoundsFit(interp, first, rounds) && RoundFits(interp, first, rounds, r)
    ensures RoundsFit(interp, first, rounds + [r])
  {
    hide RoundFits;
    var after := rounds + [r];
    forall k | 0 <= k < |after| ensures RoundFits(interp, first, after[..k], after[k]) {
      if k < |rounds| {
        assert after[..k] == rounds[..k] && after[k] == rounds[k];
      } else {
        assert after[..k] == rounds;
      }
    }
  }

  lemma {:induction false} ReadRoundsFit(interp: Interpretation, tape: seq<Item>, left: nat, first: Word,
                                         rounds: seq<Round>)
    requires RoundsFit(interp, first, rounds) && |rounds| + left == NUM_ROUNDS
    requires forall r :: 0 <= r < |rounds| ==> rounds[r].end != 1
    requires ReadRounds(interp, tape, left, first, rounds).Got?
    ensures var r := ReadRounds(interp, tape, left, first, rounds).value;
            RoundsFit(interp, first, r.0) && RoundsEnd(r.0, r.1)
    decreases left
  {
    hide ReadRounds, ReadRound, RoundsFit, RoundFits;
    if left == 0 {
      NoRoundsLeft(interp, tape, first, rounds);
    } else {
      ReadRoundsStep(interp, tape, left, first, rounds);
      var r := ReadRound(interp, tape, first, rounds);
      ReadRoundFits(interp, tape, first, rounds);
      RoundsFitSnoc(interp, first, rounds, r.value);
      if r.value.end != 1 {
        ReadRoundsFit(interp, r.rest, left - 1, first, rounds + [r.value]);
      }
    }
  }

  lemma AcceptedTapeHolds(interp: Interpretation, tweak: Tweak, roots: ClaimRoots, tape: seq<Item>)
    requires ReadBridgeProof(interp, tweak, roots, tape).Got?
    ensures TranscriptHolds(interp, tweak, roots, ReadBridgeProof(interp, tweak, roots, tape).value)
  {
    hide AllHeaders, AllAddresses, HashAfter, BlockRoot, Root, ReadRounds, ReadClaim, ClaimHolds;
    hide SumOfWork, Modulus, RoundFits, RoundsEnd, ReadHeader, MeetsTarget, BlockHashes;
    var first := NextWord(tape);
    ReadRoundsFit(interp, first.rest, NUM_ROUNDS, first.value, []);
    var s := ReadBridgeProof(interp, tweak, roots, tape).value;
    EmptyChain(s.FinalHash());
  }

  // The printer: each function puts its items in front of what follows on the tape.

  function PrintWords(words: seq<Word>, post: seq<Item>): seq<Item> {
    if words == [] then post else [WordItem(words[0])] + PrintWords(words[1..], post)
  }

  function PrintHeader(h: Header, post: seq<Item>): seq<Item> {
    [I32Item(h.version), WordItem(h.merkleRoot), U32Item(h.time), U32Item(h.bits), U32Item(h.nonce)] + post
  }

  function PrintHeaders(headers: seq<Header>, post: seq<Item>): seq<Item> {
    if headers == [] then post else PrintHeader(headers[0], PrintHeaders(headers[1..], post))
  }

  function PrintPlacement(p: Placement, post: seq<Item>): seq<Item>
    requires |p.path.nodes| < LIMIT
  {
    [U32Item(p.path.index), U32Item(|p.path.nodes|)] + PrintWords(p.path.nodes,
      [I32Item(p.header.version), WordItem(p.prev), U32Item(p.header.time), U32Item(p.header.bits),
       U32Item(p.header.nonce)] + ([U32Item(p.proofIndex)] + PrintWords(p.siblings, post)))
  }

  /** What the items of a withdrawal can carry; a withdrawal that holds is one of these. */
  ghost predicate PrintableWithdrawal(w: Withdrawal) {
    Readable(w.entry) && |w.placement.path.nodes| < LIMIT
  }

  function PrintWithdrawal(w: Withdrawal, post: seq<Item>): seq<Item>
    requires PrintableWithdrawal(w)
  {
    [WordItem(w.address)] + (TxEntryItems(w.entry) + PrintPlacement(w.placement, post))
  }

  function PrintWithdrawals(ws: seq<Withdrawal>, post: seq<Item>): seq<Item>
    requires forall k :: 0 <= k < |ws| ==> PrintableWithdrawal(ws[k])
  {
    if ws == [] then post else PrintWithdrawal(ws[0], PrintWithdrawals(ws[1..], post))
  }

  ghost predicate PrintableRound(r: Round) {
    && |r.batch.headers| < LIMIT && |r.withdrawals| < LIMIT
    && forall k :: 0 <= k < |r.withdrawals| ==> PrintableWithdrawal(r.withdrawals[k])
  }

  function PrintRound(r: Round, post: seq<Item>): seq<Item>
    requires PrintableRound(r)
  {
    [U32Item(|r.batch.headers|)] + PrintHeaders(r.batch.headers, PrintPayments(r, post))
  }

  function PrintPayments(r: Round, post: seq<Item>): seq<Item>
    requires PrintableRound(r)
  {
    [U32Item(|r.withdrawals|)] + PrintWithdrawals(r.withdrawals, [U32Item(r.end)] + post)
  }

  function PrintRounds(rounds: seq<Round>, post: seq<Item>): seq<Item>
    requires forall k :: 0 <= k < |rounds| ==> PrintableRound(rounds[k])
  {
    if rounds == [] then post else PrintRound(rounds[0], PrintRounds(rounds[1..], post))
  }

  function PrintChallenge(c: Challenge, post: seq<Item>): seq<Item> {
    PrintWords(c.mock, [WordItem(c.cutoff), WordItem(c.maxPow), U32Item(c.periodNum)] + post)
  }

  ghost predicate PrintableClaim(c: Claim) {
    && |c.preimages.words| < LIMIT && Readable(c.commit) && Readable(c.spend)
    && |c.placement.path.nodes| < LIMIT
  }

  function PrintClaim(c: Claim, post: seq<Item>): seq<Item>
    requires PrintableClaim(c)
  {
    [U32Item(|c.preimages.words|), WordItem(c.preimages.actorPk)] + PrintWords(c.preimages.words,
      TxEntryItems(c.commit) + ([U32Item(c.vout)] + (TxEntryItems(c.spend)
        + PrintPlacement(c.placement, PrintWords(c.claimSiblings, post)))))
  }

  ghost predicate PrintableTranscript(s: Transcript) {
    && (forall k :: 0 <= k < |s.rounds| ==> PrintableRound(s.rounds[k]))
    && |s.kDeep| < LIMIT && PrintableClaim(s.claim)
  }

  function PrintTranscript(s: Transcript, post: seq<Item>): seq<Item>
    requires PrintableTranscript(s)
  {
    [WordItem(s.first)] + PrintRounds(s.rounds, PrintChallenge(s.challenge, [U32Item(|s.kDeep|)] + PrintHeaders(s.kDeep,
      [WordItem(s.lc.blockhash), WordItem(s.lc.withdrawalRoot)] + PrintClaim(s.claim, post))))
  }

  // Reading back.

  lemma {:induction false} WordsReadBack(words: seq<Word>, acc: seq<Word>, post: seq<Item>)
    ensures ReadWords(PrintWords(words, post), |words|, acc) == Got(acc + words, post)
    decreases |words|
  {
    if words == [] {
      assert acc + words == acc;
    } else {
      WordsReadBack(words[1..], acc + [words[0]], post);
      assert acc + [words[0]] + words[1..] == acc + words;
    }
  }

  lemma HeaderReadBack(h: Header, post: seq<Item>)
    ensures ReadHeader(PrintHeader(h, post)) == Got(h, post)
  {
    var t := PrintHeader(h, post);
    assert t[1..][1..][1..][1..][1..] == post;
  }

  lemma MinedHead(interp: Interpretation, start: Word, acc: seq<Header>, headers: seq<Header>)
    requires headers != [] && Mined(interp, start, acc + headers)
    ensures MeetsTarget(interp, headers[0].bits, BlockHash(HashAfter(start, acc), headers[0]))
  {
    var all := acc + headers;
    BlockHashAt(start, all, |acc|);
    assert all[..|acc|] == acc && all[|acc|] == headers[0];
    assert MeetsTarget(interp, all[|acc|].bits, BlockHashes(start, all)[|acc|]);
  }

  lemma {:induction false} HeadersReadBack(interp: Interpretation, headers: seq<Header>, start: Word, acc: seq<Header>,
                                           post: seq<Item>)
    requires Mined(interp, start, acc + headers)
    ensures ReadHeaders(interp, PrintHeaders(headers, post), |headers|, start, acc) == Got(acc + headers, post)
    decreases |headers|
  {
    hide PrintHeader, ReadHeader, MeetsTarget, BlockHash, HashAfter, Mined;
    if headers == [] {
      assert acc + headers == acc;
    } else {
      HeaderReadBack(headers[0], PrintHeaders(headers[1..], post));
      MinedHead(interp, start, acc, headers);
      assert acc + [headers[0]] + headers[1..] == acc + headers;
      HeadersReadBack(interp, headers[1..], start, acc + [headers[0]], post);
    }
  }

  lemma BatchReadBack(interp: Interpretation, first: Word, before: seq<Round>, r: Round, post: seq<Item>)
    requires RoundFits(interp, first, before, r)
    ensures ReadBatch(interp, [U32Item(|r.batch.headers|)] + PrintHeaders(r.batch.headers, post),
                      HashAfter(first, AllHeaders(before)), MAX_BLOCK_HANDLE_OPS, |AllHeaders(before)|)
            == Got(r.batch, post)
  {
    hide AllHeaders, HashAfter, Mined, PrintHeaders, ReadHeaders, AllHold;
    var headers := r.batch.headers;
    var t := [U32Item(|headers|)] + PrintHeaders(headers, post);
    assert t[1..] == PrintHeaders(headers, post) && [] + headers == headers;
    HeadersReadBack(interp, headers, HashAfter(first, AllHeaders(before)), [], post);
  }

  function PathItems(p: Placement, post: seq<Item>): seq<Item>
    requires |p.path.nodes| < LIMIT
  {
    [U32Item(p.path.index), U32Item(|p.path.nodes|)] + PrintWords(p.path.nodes, post)
  }

  function HeaderRestItems(p: Placement, post: seq<Item>): seq<Item> {
    [I32Item(p.header.version), WordItem(p.prev), U32Item(p.header.time), U32Item(p.header.bits),
     U32Item(p.header.nonce)] + post
  }

  lemma PathReadBack(p: Placement, post: seq<Item>)
    requires |p.path.nodes| < LIMIT
    ensures ReadPath(PathItems(p, post)) == Got(p.path, post)
  {
    var t := PathItems(p, post);
    assert t[1..][1..] == PrintWords(p.path.nodes, post);
    WordsReadBack(p.path.nodes, [], post);
    assert [] + p.path.nodes == p.path.nodes;
  }

  lemma HeaderRestReadBack(p: Placement, post: seq<Item>)
    ensures ReadHeaderExceptRoot(HeaderRestItems(p, post), p.header.merkleRoot) == Got((p.prev, p.header), post)
  {
    var t := HeaderRestItems(p, post);
    assert t[1..][1..][1..][1..][1..] == post;
  }

  lemma PlacementReadBack(p: Placement, txid: Word, root: Word, post: seq<Item>)
    requires Placed(p, txid, root) && |p.path.nodes| < LIMIT
    ensures ReadPlacement(PrintPlacement(p, post), txid, root) == Got(p, post)
  {
    var t3 := PrintWords(p.siblings, post);
    var t2 := [U32Item(p.proofIndex)] + t3;
    var t1 := HeaderRestItems(p, t2);
    assert PrintPlacement(p, post) == PathItems(p, t1);
    assert t2[1..] == t3 && [] + p.siblings == p.siblings;
    PathReadBack(p, t1);
    HeaderRestReadBack(p, t2);
    WordsReadBack(p.siblings, [], post);
    hide Fold, BitcoinFold, BlockHash, PathItems, HeaderRestItems, PrintPlacement, PrintWords, ReadWords, ReadPath,
      ReadHeaderExceptRoot;
  }

  lemma TxReadBack(e: TxEntry, requireInput: InputCondition, requireOutput: OutputCondition, post: seq<Item>)
    requires Readable(e) && Accepts(requireInput, requireOutput, e)
    ensures ReadTxChecked(TxEntryItems(e) + post, requireInput, requireOutput) == Got(e, post)
  {
    hide ReadTx, TxEntryItems, Accepts, Readable;
    TxEntryRoundTrip(e, post);
  }

  lemma WithdrawalReadBack(w: Withdrawal, root: Word, post: seq<Item>)
    requires WithdrawalHolds(w, root) && PrintableWithdrawal(w)
    ensures ReadWithdrawal(PrintWithdrawal(w, post), root) == Got(w, post)
  {
    var t2 := PrintPlacement(w.placement, post);
    var t1 := TxEntryItems(w.entry) + t2;
    var t := PrintWithdrawal(w, post);
    assert t == [WordItem(w.address)] + t1 && t[1..] == t1;
    hide TxEntryItems, PrintPlacement, Placed, OutputFound, Readable, ReadTxChecked, ReadPlacement, Txid, Encodable;
    assert InputFound(None, w.entry.inputs);
    TxReadBack(w.entry, None, Payment(w.address), t2);
    PlacementReadBack(w.placement, Txid(w.entry.Tx()), root, post);
  }

  lemma {:induction false} WithdrawalsReadBack(ws: seq<Withdrawal>, root: Word, leafCount: nat, acc: seq<Withdrawal>,
                                               post: seq<Item>)
    requires AllHold(ws, root) && forall k :: 0 <= k < |ws| ==> PrintableWithdrawal(ws[k])
    requires ws != [] ==> leafCount + |acc| + |ws| < 0x1_0000_0000
    ensures ReadWithdrawals(PrintWithdrawals(ws, post), |ws|, root, leafCount, acc) == Got(acc + ws, post)
    decreases |ws|
  {
    hide PrintWithdrawal, ReadWithdrawal, WithdrawalHolds, PrintableWithdrawal;
    if ws == [] {
      assert acc + ws == acc;
    } else {
      WithdrawalReadBack(ws[0], root, PrintWithdrawals(ws[1..], post));
      WithdrawalsReadBack(ws[1..], root, leafCount, acc + [ws[0]], post);
      assert acc + [ws[0]] + ws[1..] == acc + ws;
    }
  }

  /** The part of ReadRound after the batch. */
  function ReadPayments(tape: seq<Item>, batch: Batch, root: Word, leafCount: nat): Read<Round> {
    var (num, t2) :- NextU32(tape);
    var (withdrawals, t3) :- ReadWithdrawals(t2, num, root, leafCount, []);
    var (end, t4) :- NextU32(t3);
    Got(Round(batch, withdrawals, end), t4)
  }

  lemma ReadRoundParts(interp: Interpretation, tape: seq<Item>, first: Word, rounds: seq<Round>)
    ensures var headers := AllHeaders(rounds);
            var b := ReadBatch(interp, tape, HashAfter(first, headers), MAX_BLOCK_HANDLE_OPS, |headers|);
            ReadRound(interp, tape, first, rounds)
            == if b.Panic? then Panic
               else ReadPayments(b.rest, b.value, BlockRoot(first, headers + b.value.headers), |AllAddresses(rounds)|)
  {
    hide ReadBatch, ReadWithdrawals, BlockRoot, HashAfter, AllHeaders, AllAddresses;
  }

  lemma PaymentsReadBack(r: Round, root: Word, leafCount: nat, post: seq<Item>)
    requires AllHold(r.withdrawals, root) && PrintableRound(r)
    requires r.withdrawals != [] ==> leafCount + |r.withdrawals| < 0x1_0000_0000
    ensures ReadPayments(PrintPayments(r, post), r.batch, root, leafCount) == Got(r, post)
  {
    hide ReadWithdrawals, PrintWithdrawals, PrintableWithdrawal, AllHold;
    var t3 := [U32Item(r.end)] + post;
    assert t3[1..] == post && PrintPayments(r, post)[1..] == PrintWithdrawals(r.withdrawals, t3);
    assert [] + r.withdrawals == r.withdrawals;
    WithdrawalsReadBack(r.withdrawals, root, leafCount, [], t3);
  }

  lemma RoundReadBack(interp: Interpretation, first: Word, before: seq<Round>, r: Round, post: seq<Item>)
    requires RoundFits(interp, first, before, r) && PrintableRound(r)
    ensures ReadRound(interp, PrintRound(r, post), first, before) == Got(r, post)
  {
    hide ReadRound, ReadBatch, ReadPayments, PrintPayments, PrintHeaders, AllHeaders, AllAddresses, HashAfter;
    hide BlockRoot, Mined, AllHold;
    ReadRoundParts(interp, PrintRound(r, post), first, before);
    BatchReadBack(interp, first, before, r, PrintPayments(r, post));
    PaymentsReadBack(r, BlockRoot(first, AllHeaders(before) + r.batch.headers), |AllAddresses(before)|, post);
  }

  lemma {:induction false} RoundsReadBack(interp: Interpretation, first: Word, before: seq<Round>, rounds: seq<Round>,
                                          lastPeriod: nat, post: seq<Item>)
    requires RoundsFit(interp, first, before + rounds) && RoundsEnd(before + rounds, lastPeriod)
    requires rounds == [] ==> before != [] && before[|before| - 1].end != 1
    requires forall k :: 0 <= k < |rounds| ==> PrintableRound(rounds[k])
    ensures ReadRounds(interp, PrintRounds(rounds, post), NUM_ROUNDS - |before|, first, before)
            == Got((before + rounds, lastPeriod), post)
    decreases |rounds|
  {
    hide ReadRounds, ReadRound, PrintRound, PrintableRound, RoundFits, RoundsFit, RoundsEnd;
    if rounds == [] {
      assert before + rounds == before;
      EndedRounds(before, lastPeriod);
      NoRoundsLeft(interp, post, first, before);
    } else {
      var all, r := before + rounds, rounds[0];
      assert before + [r] + rounds[1..] == all;
      NextRoundFits(interp, first, before, rounds, lastPeriod);
      var rest := PrintRounds(rounds[1..], post);
      RoundReadBack(interp, first, before, r, rest);
      ReadRoundsStep(interp, PrintRounds(rounds, post), NUM_ROUNDS - |before|, first, before);
      if r.end != 1 {
        RoundsReadBack(interp, first, before + [r], rounds[1..], lastPeriod, post);
      }
    }
  }

  lemma EndedRounds(rounds: seq<Round>, lastPeriod: nat)
    requires RoundsEnd(rounds, lastPeriod) && rounds[|rounds| - 1].end != 1
    ensures |rounds| == NUM_ROUNDS && lastPeriod == 0
  {
  }

  /** The next round fits where it stands, and if it asks to stop it is the last one. */
  lemma NextRoundFits(interp: Interpretation, first: Word, before: seq<Round>, rounds: seq<Round>, lastPeriod: nat)
    requires rounds != [] && RoundsFit(interp, first, before + rounds) && RoundsEnd(before + rounds, lastPeriod)
    ensures RoundFits(interp, first, before, rounds[0]) && |before| < NUM_ROUNDS
    ensures rounds[0].end == 1 ==>
              before + rounds == before + [rounds[0]] && rounds[1..] == [] && lastPeriod == |before|
  {
    hide RoundFits;
    var all, r := before + rounds, rounds[0];
    assert all[..|before|] == before && all[|before|] == r;
    assert RoundFits(interp, first, all[..|before|], all[|before|]);
    if r.end == 1 {
      assert |before| == |all| - 1;
      assert rounds == [r];
    }
  }

  lemma ChallengeReadBack(c: Challenge, post: seq<Item>)
    requires |c.mock| == 4
    ensures ReadChallenge(PrintChallenge(c, post)) == Got(c, post)
  {
    var t := [WordItem(c.cutoff), WordItem(c.maxPow), U32Item(c.periodNum)] + post;
    assert t[1..][1..][1..] == post && [] + c.mock == c.mock;
    WordsReadBack(c.mock, [], t);
    hide ReadWords, PrintWords;
  }

  lemma WorkBatchReadBack(interp: Interpretation, headers: seq<Header>, start: Word, post: seq<Item>)
    requires |headers| < LIMIT && Mined(interp, start, headers)
    ensures ReadWorkBatch(interp, [U32Item(|headers|)] + PrintHeaders(headers, post), start) == Got(headers, post)
  {
    hide ReadHeaders, PrintHeaders, Mined;
    var t := [U32Item(|headers|)] + PrintHeaders(headers, post);
    assert t[1..] == PrintHeaders(headers, post) && [] + headers == headers;
    HeadersReadBack(interp, headers, start, [], post);
  }

  lemma PreimagesReadBack(p: Preimages, post: seq<Item>)
    requires 37 + 33 * |p.words| < LIMIT
    ensures ReadPreimages([U32Item(|p.words|), WordItem(p.actorPk)] + PrintWords(p.words, post)) == Got(p, post)
  {
    hide ReadWords, PrintWords;
    var t := [U32Item(|p.words|), WordItem(p.actorPk)] + PrintWords(p.words, post);
    assert t[1..][1..] == PrintWords(p.words, post) && [] + p.words == p.words;
    WordsReadBack(p.words, [], post);
  }

  /** The claim is read when its parts are, one after another. */
  lemma ReadClaimParts(tweak: Tweak, roots: ClaimRoots, c: Claim, root: Word, period: U8, total: nat, tape: seq<Item>,
                       t2: seq<Item>, t3: seq<Item>, t4: seq<Item>, t5: seq<Item>, t6: seq<Item>, post: seq<Item>)
    requires ReadPreimages(tape) == Got(c.preimages, t2)
    requires ReadTxChecked(t2, None, Some((None, tweak(Sha256(c.preimages.LeafScript()))))) == Got(c.commit, t3)
    requires NextU32(t3) == Got(c.vout, t4)
    requires Encodable(c.commit.Tx()) && Encodable(c.spend.Tx())
    requires ReadTxChecked(t4, Some((Txid(c.commit.Tx()), c.vout)), None) == Got(c.spend, t5)
    requires ReadPlacement(t5, Txid(c.spend.Tx()), root) == Got(c.placement, t6)
    requires ReadWords(t6, CLAIM_MERKLE_TREE_DEPTH, []) == Got(c.claimSiblings, post)
    requires period < NUM_ROUNDS && Fold(c.preimages.ClaimLeaf(), total, c.claimSiblings) == roots[period]
    ensures ReadClaim(tweak, roots, tape, root, period, total) == Got(c, post)
  {
    hide ReadPreimages, ReadTxChecked, NextU32, ReadPlacement, ReadWords, Fold, Encodable, Txid, Sha256, ClaimHolds;
    hide Preimages.LeafScript, Preimages.ClaimLeaf;
  }

  /** What the claim's conditions say of each part. */
  lemma ClaimParts(tweak: Tweak, roots: ClaimRoots, c: Claim, root: Word, period: U8, total: nat)
    requires ClaimHolds(tweak, roots, c, root, period, total)
    ensures 37 + 33 * |c.preimages.words| < LIMIT && Readable(c.commit) && Readable(c.spend)
    ensures Encodable(c.commit.Tx()) && Encodable(c.spend.Tx())
    ensures Accepts(None, Some((None, tweak(Sha256(c.preimages.LeafScript())))), c.commit)
    ensures Accepts(Some((Txid(c.commit.Tx()), c.vout)), None, c.spend)
    ensures Placed(c.placement, Txid(c.spend.Tx()), root)
    ensures period < NUM_ROUNDS && |c.claimSiblings| == CLAIM_MERKLE_TREE_DEPTH
    ensures Fold(c.preimages.ClaimLeaf(), total, c.claimSiblings) == roots[period]
  {
    assert Readable(c.commit) && Readable(c.spend);
    hide Txid, Sha256, Fold, Placed, Preimages.LeafScript, Preimages.ClaimLeaf;
  }

  lemma NextOfU32(n: U32, post: seq<Item>)
    ensures NextU32([U32Item(n)] + post) == Got(n, post)
  {
  }

  lemma ClaimItems(c: Claim, post: seq<Item>)
    requires PrintableClaim(c)
    ensures |c.preimages.words| < LIMIT && |c.placement.path.nodes| < LIMIT
    ensures Encodable(c.commit.Tx()) && Encodable(c.spend.Tx())
    ensures PrintClaim(c, post)
            == [U32Item(|c.preimages.words|), WordItem(c.preimages.actorPk)] + PrintWords(c.preimages.words,
                 TxEntryItems(c.commit) + ([U32Item(c.vout)] + (TxEntryItems(c.spend)
                   + PrintPlacement(c.placement, PrintWords(c.claimSiblings, post)))))
  {
    hide TxEntryItems, PrintPlacement, PrintWords;
  }

  lemma ClaimReadBack(tweak: Tweak, roots: ClaimRoots, c: Claim, root: Word, period: U8, total: nat, post: seq<Item>)
    requires ClaimHolds(tweak, roots, c, root, period, total) && PrintableClaim(c)
    ensures ReadClaim(tweak, roots, PrintClaim(c, post), root, period, total) == Got(c, post)
  {
    hide *;
    ClaimParts(tweak, roots, c, root, period, total);
    ClaimItems(c, post);
    var t6 := PrintWords(c.claimSiblings, post);
    var t5 := PrintPlacement(c.placement, t6);
    var t4 := TxEntryItems(c.spend) + t5;
    var t3 := [U32Item(c.vout)] + t4;
    var t2 := TxEntryItems(c.commit) + t3;
    PreimagesReadBack(c.preimages, t2);
    TxReadBack(c.commit, None, Some((None, tweak(Sha256(c.preimages.LeafScript())))), t3);
    NextOfU32(c.vout, t4);
    TxReadBack(c.spend, Some((Txid(c.commit.Tx()), c.vout)), None, t5);
    PlacementReadBack(c.placement, Txid(c.spend.Tx()), root, t6);
    WordsReadBack(c.claimSiblings, [], post);
    assert [] + c.claimSiblings == c.claimSiblings;
    ReadClaimParts(tweak, roots, c, root, period, total, PrintClaim(c, post), t2, t3, t4, t5, t6, post);
  }

  lemma RoundIsPrintable(interp: Interpretation, first: Word, before: seq<Round>, r: Round)
    requires RoundFits(interp, first, before, r)
    ensures PrintableRound(r)
  {
    hide Readable, OutputFound, Mined;
    forall k | 0 <= k < |r.withdrawals| ensures PrintableWithdrawal(r.withdrawals[k]) {
      assert WithdrawalHolds(r.withdrawals[k], BlockRoot(first, AllHeaders(before) + r.batch.headers));
    }
  }

  lemma HoldsIsPrintable(interp: Interpretation, tweak: Tweak, roots: ClaimRoots, s: Transcript)
    requires TranscriptHolds(interp, tweak, roots, s)
    ensures PrintableTranscript(s)
  {
    hide RoundFits, PrintableRound, Readable, OutputFound, InputFound, Mined;
    forall r | 0 <= r < |s.rounds| ensures PrintableRound(s.rounds[r]) {
      assert RoundFits(interp, s.first, s.rounds[..r], s.rounds[r]);
      RoundIsPrintable(interp, s.first, s.rounds[..r], s.rounds[r]);
    }
  }

  lemma TranscriptReadBack(interp: Interpretation, tweak: Tweak, roots: ClaimRoots, s: Transcript, post: seq<Item>)
    requires TranscriptHolds(interp, tweak, roots, s) && PrintableTranscript(s)
    ensures ReadBridgeProof(interp, tweak, roots, PrintTranscript(s, post)) == Got(s, post)
  {
    hide PrintRounds, PrintChallenge, PrintHeaders, PrintClaim, RoundsFit, RoundsEnd, Mined, ClaimHolds;
    hide ReadRounds, ReadChallenge, ReadWorkBatch, ReadClaim, AllHeaders, AllAddresses, HashAfter, Root, BlockRoot;
    hide SumOfWork, Modulus, PrintableRound, PrintableClaim;
    var t5 := PrintClaim(s.claim, post);
    var t4 := [WordItem(s.lc.blockhash), WordItem(s.lc.withdrawalRoot)] + t5;
    var t3 := [U32Item(|s.kDeep|)] + PrintHeaders(s.kDeep, t4);
    var t2 := PrintChallenge(s.challenge, t3);
    var t1 := PrintRounds(s.rounds, t2);
    assert PrintTranscript(s, post)[1..] == t1 && t4[1..][1..] == t5 && [] + s.rounds == s.rounds;
    assert s.rounds != [] by { NoRoundsNoEnd(s.rounds, s.lastPeriod); }
    RoundsReadBack(interp, s.first, [], s.rounds, s.lastPeriod, t2);
    ChallengeReadBack(s.challenge, t3);
    WorkBatchReadBack(interp, s.kDeep, s.FinalHash(), t4);
    ClaimReadBack(tweak, roots, s.claim, BlockRoot(s.first, s.Headers()), s.challenge.Period(),
                  |AllAddresses(s.rounds)|, post);
  }

  /** Every transcript that holds is accepted: its printed tape is read back as the transcript. */
  lemma TranscriptIsAccepted(interp: Interpretation, tweak: Tweak, roots: ClaimRoots, s: Transcript, post: seq<Item>)
    requires TranscriptHolds(interp, tweak, roots, s)
    ensures PrintableTranscript(s)
    ensures ReadBridgeProof(interp, tweak, roots, PrintTranscript(s, post)) == Got(s, post)
  {
    hide TranscriptHolds, PrintableTranscript, ReadBridgeProof, PrintTranscript;
    HoldsIsPrintable(interp, tweak, roots, s);
    TranscriptReadBack(interp, tweak, roots, s, post);
  }

  lemma NoRoundsNoEnd(rounds: seq<Round>, lastPeriod: nat)
    requires RoundsEnd(rounds, lastPeriod)
    ensures rounds != []
  {
  }

  /** A transcript is the reading of some tape exactly when it holds. */
  lemma AcceptedIffHolds(interp: Interpretation, tweak: Tweak, roots: ClaimRoots, s: Transcript)
    ensures (exists tape :: ReadBridgeProof(interp, tweak, roots, tape) == Got(s, []))
            <==> TranscriptHolds(interp, tweak, roots, s)
  {
    hide TranscriptHolds, PrintTranscript, ReadBridgeProof, PrintableTranscript;
    if TranscriptHolds(interp, tweak, roots, s) {
      TranscriptIsAccepted(interp, tweak, roots, s, []);
      assert ReadBridgeProof(interp, tweak, roots, PrintTranscript(s, [])) == Got(s, []);
    }
    if tape :| ReadBridgeProof(interp, tweak, roots, tape) == Got(s, []) {
      AcceptedTapeHolds(interp, tweak, roots, tape);
    }
  }
}
