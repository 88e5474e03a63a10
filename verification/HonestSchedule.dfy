/**
 The schedule of core/tests/deposit.rs: every verifier is asked for nonces, then for each
 kind of signature in turn, and the aggregator combines the answers. It always completes.
*/
module HonestSchedule {
  import opened Wrappers
  import opened Transactions
  import opened VerifierDatabase
  import opened Verifier
  import opened Aggregator

  /** One deposit: the verifiers' secret nonces and the operators' kickoffs. */
  datatype Setup = Setup(
    cfg: Config,
    deposit: OutPoint,
    info: Info,
    secrets: seq<seq<nat>>,
    utxos: seq<Utxo>,
    operatorSigs: seq<OperatorSignature>)

  /** Kickoffs of the first operators, possibly not of all. */
  ghost predicate Honest(h: Setup) {
    && WellFormed(h.cfg) && |h.cfg.operators| > 0 && |h.secrets| > 0
    && (forall v :: 0 <= v < |h.secrets| ==> |h.secrets[v]| == RequiredNonces(h.cfg))
    && 0 < |h.utxos| == |h.operatorSigs| <= |h.cfg.operators|
    && (forall i :: 0 <= i < |h.utxos| ==>
         && CheckKickoff(h.cfg, h.deposit, h.utxos[i], h.operatorSigs[i], i).Success?
         && TakesSighash(h.cfg, h.deposit, h.utxos[i], i).Some?)
    && MoveSighash(h.cfg, h.deposit, h.info.evm, h.info.recovery).Some?
  }

  function Messages(h: Setup, takes: bool): (r: seq<Sighash>)
    requires Honest(h)
    ensures |r| == |h.utxos|
    ensures forall i :: 0 <= i < |r| ==> Message(h.cfg, h.deposit, h.utxos[i], i, takes) == Some(r[i])
  {
    seq(|h.utxos|, i requires 0 <= i < |h.utxos| => Message(h.cfg, h.deposit, h.utxos[i], i, takes).value)
  }

  function MoveMessage(h: Setup): Sighash
    requires Honest(h)
  {
    MoveSighash(h.cfg, h.deposit, h.info.evm, h.info.recovery).value
  }

  function SlotSum(h: Setup, j: nat): AggNonce
    requires Honest(h) && j < RequiredNonces(h.cfg)
  {
    Sum(seq(|h.secrets|, v requires 0 <= v < |h.secrets| => PubNonce(h.secrets[v][j])))
  }

  /** Slot by slot, the sum of all the verifiers' public nonces. */
  function SlotSums(h: Setup): (r: seq<AggNonce>)
    requires Honest(h)
    ensures |r| == RequiredNonces(h.cfg) && forall j :: 0 <= j < |r| ==> r[j] == SlotSum(h, j)
  {
    seq(RequiredNonces(h.cfg), j requires 0 <= j < RequiredNonces(h.cfg) => SlotSum(h, j))
  }

  /** The rows hold the verifier's nonces and the sums, and the slots below `free` are unbound. */
  ghost predicate Ready(h: Setup, v: nat, rec: Record, free: nat)
    requires Honest(h) && v < |h.secrets|
  {
    && |rec.nonces| == RequiredNonces(h.cfg)
    && (forall j :: 0 <= j < |rec.nonces| ==>
         && rec.nonces[j].sec == h.secrets[v][j] && rec.nonces[j].agg == Some(SlotSum(h, j))
         && (j < free ==> rec.nonces[j].sighash.None?))
    && Utxos(rec.kickoffs) == h.utxos && rec.info == Some(h.info)
  }

  /** Each message signed by `v` with its own slot's nonce and sum. */
  function SignedSlots(h: Setup, v: nat, start: nat, messages: seq<Sighash>, tweaked: bool): (r: seq<Partial>)
    requires Honest(h) && v < |h.secrets| && start + |messages| <= RequiredNonces(h.cfg)
    ensures |r| == |messages|
  {
    seq(|messages|, t requires 0 <= t < |messages| =>
      Partial(v, h.secrets[v][start + t], SlotSum(h, start + t), messages[t], tweaked))
  }

  lemma BindHonest(h: Setup, v: nat, rec: Record, start: nat, messages: seq<Sighash>, tweaked: bool)
    requires Honest(h) && v < |h.secrets| && messages != []
    requires start + |messages| <= RequiredNonces(h.cfg) && Ready(h, v, rec, start + |messages|)
    ensures var (rec', r) := BindAndSign(v, rec, start, messages, tweaked);
            r == Success(SignedSlots(h, v, start, messages, tweaked)) && Ready(h, v, rec', start)
  {
    hide SlotSum, Honest, Utxos;
    var bound := WithSighashes(rec.nonces, start, messages);
    var affected := Affected(bound, start, |messages|);
    assert BindSighashes(rec.nonces, start, messages) == Some(bound);
    assert AllAggregated(affected);
    assert Sign(v, affected, messages, tweaked) == SignedSlots(h, v, start, messages, tweaked);
  }

  lemma ColumnOfSlots(h: Setup, partials: seq<seq<Partial>>, start: nat, messages: seq<Sighash>, tweaked: bool, i: nat)
    requires Honest(h) && start + |messages| <= RequiredNonces(h.cfg) && i < |messages|
    requires |partials| == |h.secrets|
    requires forall v :: 0 <= v < |partials| ==> partials[v] == SignedSlots(h, v, start, messages, tweaked)
    ensures Column(partials, i).Some? && |Column(partials, i).value| == |h.secrets|
    ensures forall v :: 0 <= v < |h.secrets| ==>
              && start + i < |h.secrets[v]|
              && Column(partials, i).value[v]
                 == Partial(v, h.secrets[v][start + i], SlotSum(h, start + i), messages[i], tweaked)
  {
    hide CheckKickoff, TakesSighash, MoveSighash, SlotSum, Column;
  }

  /** Aggregating one message's partial signatures, all out of the same slot, succeeds. */
  lemma SlotAggregates(h: Setup, partials: seq<seq<Partial>>, start: nat, messages: seq<Sighash>, tweaked: bool, i: nat)
    requires Honest(h) && start + |messages| <= RequiredNonces(h.cfg) && i < |messages|
    requires |partials| == |h.secrets|
    requires forall v :: 0 <= v < |partials| ==> partials[v] == SignedSlots(h, v, start, messages, tweaked)
    ensures Column(partials, i).Some?
    ensures Aggregates(|h.secrets|, SlotSum(h, start + i), Column(partials, i).value, messages[i], tweaked)
  {
    ColumnOfSlots(h, partials, start, messages, tweaked, i);
    var column := Column(partials, i).value;
    hide Honest, Column, SignedSlots;
    forall v: nat | v < |h.secrets| ensures HasSigner(column, v) {
      assert column[v].signer == v;
    }
    assert Nonces(column) == SlotSum(h, start + i).nonces;
  }

  // The four rounds of calls.

  function Deposited(h: Setup, v: nat): (Record, Result<seq<PubNonce>, Error>)
    requires Honest(h) && v < |h.secrets|
  {
    NewDepositStep(h.cfg, Record(None, [], []), h.info, true, h.secrets[v])
  }

  function Generated(h: Setup, v: nat, aggs: seq<AggNonce>): (Record, Result<seq<Partial>, Error>)
    requires Honest(h) && v < |h.secrets|
  {
    KickoffsGeneratedStep(h.cfg, v, h.deposit, Deposited(h, v).0, h.utxos, h.operatorSigs, aggs)
  }

  function Burned(h: Setup, v: nat, aggs: seq<AggNonce>, slashSigs: seq<Signature>)
    : (Record, Result<seq<Partial>, Error>)
    requires Honest(h) && v < |h.secrets|
  {
    BurnTxsSignedStep(h.cfg, v, h.deposit, Generated(h, v, aggs).0, Generated(h, v, aggs).0, slashSigs)
  }

  function Moved(h: Setup, v: nat, aggs: seq<AggNonce>, slashSigs: seq<Signature>, takeSigs: seq<Signature>)
    : (Record, Result<Partial, Error>)
    requires Honest(h) && v < |h.secrets|
  {
    var rec := Burned(h, v, aggs, slashSigs).0;
    OperatorTakeTxsSignedStep(h.cfg, v, h.deposit, rec, rec, takeSigs)
  }

  /** The N-of-N signatures on the messages of one round. */
  ghost predicate SignsAll(h: Setup, sigs: seq<Signature>, takes: bool)
    requires Honest(h)
  {
    |sigs| == |h.utxos| && forall i :: 0 <= i < |sigs| ==> sigs[i] == NofN(Messages(h, takes)[i], takes)
  }

  lemma OneCheckSucceeds(h: Setup, i: nat)
    requires Honest(h) && i < |h.utxos|
    ensures CheckKickoff(h.cfg, h.deposit, h.utxos[i], h.operatorSigs[i], i) == Success(Messages(h, false)[i])
  {
    hide SlashSighash, TakesSighash, MoveSighash;
    assert Message(h.cfg, h.deposit, h.utxos[i], i, false) == SlashSighash(h.cfg, h.deposit, h.utxos[i], i);
  }

  lemma {:induction false} ChecksSucceed(h: Setup, n: nat)
    requires Honest(h) && n <= |h.utxos|
    ensures CheckKickoffs(h.cfg, h.deposit, h.utxos, h.operatorSigs, n) == Success(Messages(h, false)[..n])
  {
    hide SlashSighash, TakesSighash, MoveSighash;
    if n > 0 {
      ChecksSucceed(h, n - 1);
      OneCheckSucceeds(h, n - 1);
      hide Honest, CheckKickoff, Messages;
      assert Messages(h, false)[..n] == Messages(h, false)[..n - 1] + [Messages(h, false)[n - 1]];
    }
  }

  lemma GeneratedSucceeds(h: Setup, v: nat)
    requires Honest(h) && v < |h.secrets|
    ensures var n := |h.cfg.operators|;
            var (rec, r) := Generated(h, v, SlotSums(h));
            r == Success(SignedSlots(h, v, n + 1, Messages(h, false), false)) && Ready(h, v, rec, n + 1)
  {
    hide CheckKickoff, SlashSighash, TakesSighash, MoveSighash, SlotSum, CheckKickoffs, BindAndSign, SignedSlots;
    hide Messages;
    ChecksSucceed(h, |h.utxos|);
    var messages := Messages(h, false);
    assert messages[..|h.utxos|] == messages;
    var rec := Deposited(h, v).0;
    var stored := rec.(nonces := WithAggNonces(rec.nonces, SlotSums(h)),
                       kickoffs := WithKickoffs(rec.kickoffs, h.utxos));
    StoredIsReady(h, v);
    BindHonest(h, v, stored, |h.cfg.operators| + 1, messages, false);
  }

  lemma StoredIsReady(h: Setup, v: nat)
    requires Honest(h) && v < |h.secrets|
    ensures var rec := Deposited(h, v).0;
            Ready(h, v, rec.(nonces := WithAggNonces(rec.nonces, SlotSums(h)),
                             kickoffs := WithKickoffs(rec.kickoffs, h.utxos)),
                  RequiredNonces(h.cfg))
  {
    hide CheckKickoff, TakesSighash, MoveSighash, SlotSum;
  }

  lemma OneSlashSigPasses(h: Setup, sigs: seq<Signature>, i: nat)
    requires Honest(h) && SignsAll(h, sigs, false) && i < |h.utxos|
    ensures CheckSlashSig(h.cfg, h.deposit, h.utxos[i], sigs, i) == Some(Messages(h, true)[i])
  {
    hide SlashSighash, TakesSighash, MoveSighash;
    assert Message(h.cfg, h.deposit, h.utxos[i], i, false) == SlashSighash(h.cfg, h.deposit, h.utxos[i], i);
    assert Message(h.cfg, h.deposit, h.utxos[i], i, true) == TakesSighash(h.cfg, h.deposit, h.utxos[i], i);
  }

  lemma {:induction false} SlashSigsPass(h: Setup, sigs: seq<Signature>, n: nat)
    requires Honest(h) && SignsAll(h, sigs, false) && n <= |h.utxos|
    ensures CheckSlashSigs(h.cfg, h.deposit, h.utxos, sigs, n) == Some(Messages(h, true)[..n])
  {
    hide SlashSighash, TakesSighash, MoveSighash;
    if n > 0 {
      SlashSigsPass(h, sigs, n - 1);
      OneSlashSigPasses(h, sigs, n - 1);
      hide Honest, CheckSlashSig, Messages;
      assert Messages(h, true)[..n] == Messages(h, true)[..n - 1] + [Messages(h, true)[n - 1]];
    }
  }

  lemma BurnedSucceeds(h: Setup, v: nat, slashSigs: seq<Signature>)
    requires Honest(h) && v < |h.secrets| && SignsAll(h, slashSigs, false)
    ensures var (rec, r) := Burned(h, v, SlotSums(h), slashSigs);
            r == Success(SignedSlots(h, v, 1, Messages(h, true), true)) && Ready(h, v, rec, 1)
  {
    hide Generated, BindAndSign, SignedSlots, CheckSlashSig, SlashSighash, TakesSighash, MoveSighash, CheckKickoff;
    GeneratedSucceeds(h, v);
    SlashSigsPass(h, slashSigs, |h.utxos|);
    var messages := Messages(h, true);
    assert messages[..|h.utxos|] == messages;
    var rec := Generated(h, v, SlotSums(h)).0;
    assert |rec.kickoffs| == |Utxos(rec.kickoffs)| == |h.utxos|;
    var saved := rec.(kickoffs := WithSlashSigs(rec.kickoffs, slashSigs));
    assert Utxos(saved.kickoffs) == Utxos(rec.kickoffs);
    BindHonest(h, v, saved, 1, messages, true);
  }

  lemma MovedSucceeds(h: Setup, v: nat, slashSigs: seq<Signature>, takeSigs: seq<Signature>)
    requires Honest(h) && v < |h.secrets| && SignsAll(h, slashSigs, false) && SignsAll(h, takeSigs, true)
    ensures var (rec, r) := Moved(h, v, SlotSums(h), slashSigs, takeSigs);
            r == Success(SignedSlots(h, v, 0, [MoveMessage(h)], false)[0]) && Ready(h, v, rec, 0)
  {
    hide Burned, BindAndSign, SlashSighash, MoveSighash, CheckKickoff;
    BurnedSucceeds(h, v, slashSigs);
    var rec := Burned(h, v, SlotSums(h), slashSigs).0;
    assert |rec.kickoffs| == |Utxos(rec.kickoffs)| == |h.utxos|;
    assert TakeSigsOk(h.cfg, h.deposit, h.utxos, takeSigs);
    hide TakesSighash, SignedSlots;
    var batch := UtxosAndSigs(h.utxos, takeSigs);
    var saved := rec.(kickoffs := WithTakeSigs(rec.kickoffs, batch));
    assert Utxos(saved.kickoffs) == Utxos(rec.kickoffs);
    BindHonest(h, v, saved, 0, [MoveMessage(h)], false);
  }

  /** What the aggregator gets from the verifiers in the first round sums to SlotSums. */
  lemma SumsAreSlotSums(h: Setup, pubNonces: seq<seq<PubNonce>>, aggs: seq<AggNonce>)
    requires Honest(h) && |pubNonces| == |h.secrets|
    requires forall v :: 0 <= v < |pubNonces| ==> Deposited(h, v).1 == Success(pubNonces[v])
    requires |aggs| == RequiredNonces(h.cfg) && ColumnSums(pubNonces, aggs)
    ensures aggs == SlotSums(h)
  {
    forall j | 0 <= j < |aggs| ensures aggs[j] == SlotSum(h, j) {
      assert Column(pubNonces, j) == Some(aggs[j].nonces);
      forall v | 0 <= v < |pubNonces| ensures pubNonces[v][j] == PubNonce(h.secrets[v][j]) {
        assert pubNonces[v] == PubNonces(FreshRows(h.secrets[v]));
      }
      assert aggs[j].nonces == SlotSum(h, j).nonces;
    }
  }

  lemma DepositedSucceeds(h: Setup, v: nat)
    requires Honest(h) && v < |h.secrets|
    ensures var r := Deposited(h, v).1; r.Success? && |r.value| == RequiredNonces(h.cfg)
  {
    hide CheckKickoff, TakesSighash, MoveSighash;
  }

  /** The aggregator signs one round's messages, given the slots' part of the sums. */
  lemma RoundAggregates(h: Setup, partials: seq<seq<Partial>>, start: nat, takes: bool, aggs: seq<AggNonce>, i: nat)
    requires Honest(h) && start + |aggs| <= RequiredNonces(h.cfg) && i < |h.utxos| <= |aggs|
    requires |partials| == |h.secrets|
    requires forall v :: 0 <= v < |partials| ==> partials[v] == SignedSlots(h, v, start, Messages(h, takes), takes)
    requires aggs == SlotSums(h)[start..start + |aggs|]
    ensures AggregateAt(h.cfg, |h.secrets|, h.deposit, h.utxos, aggs, partials, i, takes)
            == Success(NofN(Messages(h, takes)[i], takes))
  {
    SlotAggregates(h, partials, start, Messages(h, takes), takes, i);
    AggregateAtSigns(h.cfg, |h.secrets|, h.deposit, h.utxos, aggs, partials, i, takes);
    hide Honest, Aggregates, Message, SlotSum, SignedSlots;
    assert aggs[i] == SlotSums(h)[start + i];
  }

  /**
   Runs the schedule. Every call and every aggregation in it succeeds, and what comes out
   is the fully signed move transaction's signature.
  */
  method RunSchedule(h: Setup) returns (moveSig: Option<Signature>)
    requires Honest(h)
    ensures moveSig == Some(NofN(MoveMessage(h), false))
  {
    hide CheckKickoff, TakesSighash, MoveSighash, SlashSighash, NewDepositStep, KickoffsGeneratedStep;
    hide Generated, Burned, Moved, Deposited, SignedSlots, Column, Aggregates, Message, SlotSums, AggregateAt;
    var n, verifiers := |h.cfg.operators|, |h.secrets|;

    var pubNonces: seq<seq<PubNonce>> := [];
    for v := 0 to verifiers
      invariant |pubNonces| == v
      invariant forall k :: 0 <= k < v ==> Deposited(h, k).1 == Success(pubNonces[k]) && |pubNonces[k]| == 2 * n + 1
    {
      DepositedSucceeds(h, v);
      pubNonces := pubNonces + [Deposited(h, v).1.value];
    }
    var sums := AggregatePubNonces(pubNonces);
    var aggs := sums.value;
    SumsAreSlotSums(h, pubNonces, aggs);

    var slashPartials: seq<seq<Partial>> := [];
    for v := 0 to verifiers
      invariant |slashPartials| == v
      invariant forall k :: 0 <= k < v ==> slashPartials[k] == SignedSlots(h, k, n + 1, Messages(h, false), false)
    {
      GeneratedSucceeds(h, v);
      slashPartials := slashPartials + [Generated(h, v, aggs).1.value];
    }
    var slashAggs := aggs[n + 1..2 * n + 1];
    forall i | 0 <= i < |h.utxos|
      ensures AggregateAt(h.cfg, verifiers, h.deposit, h.utxos, slashAggs, slashPartials, i, false)
              == Success(NofN(Messages(h, false)[i], false))
    {
      RoundAggregates(h, slashPartials, n + 1, false, slashAggs, i);
    }
    var slash := AggregateSigs(h.cfg, verifiers, h.deposit, h.utxos, slashAggs, slashPartials, false);
    var slashSigs := slash.value;
    assert SignsAll(h, slashSigs, false);

    var takesPartials: seq<seq<Partial>> := [];
    for v := 0 to verifiers
      invariant |takesPartials| == v
      invariant forall k :: 0 <= k < v ==> takesPartials[k] == SignedSlots(h, k, 1, Messages(h, true), true)
    {
      BurnedSucceeds(h, v, slashSigs);
      takesPartials := takesPartials + [Burned(h, v, aggs, slashSigs).1.value];
    }
    var takesAggs := aggs[1..n + 1];
    forall i | 0 <= i < |h.utxos|
      ensures AggregateAt(h.cfg, verifiers, h.deposit, h.utxos, takesAggs, takesPartials, i, true)
              == Success(NofN(Messages(h, true)[i], true))
    {
      RoundAggregates(h, takesPartials, 1, true, takesAggs, i);
    }
    var takes := AggregateSigs(h.cfg, verifiers, h.deposit, h.utxos, takesAggs, takesPartials, true);
    var takeSigs := takes.value;
    assert SignsAll(h, takeSigs, true);

    moveSig := CollectMove(h, aggs, slashSigs, takeSigs);
  }

  /** The last round: each verifier's signature on the move transaction, then aggregate_move_tx_sigs. */
  method CollectMove(h: Setup, aggs: seq<AggNonce>, slashSigs: seq<Signature>, takeSigs: seq<Signature>)
    returns (moveSig: Option<Signature>)
    requires Honest(h) && aggs == SlotSums(h) && SignsAll(h, slashSigs, false) && SignsAll(h, takeSigs, true)
    ensures moveSig == Some(NofN(MoveMessage(h), false))
  {
    hide CheckKickoff, TakesSighash, SlashSighash, Moved;
    var partials: seq<Partial> := [];
    ghost var lists: seq<seq<Partial>> := [];
    for v := 0 to |h.secrets|
      invariant |partials| == |lists| == v
      invariant forall k :: 0 <= k < v ==>
        lists[k] == SignedSlots(h, k, 0, [MoveMessage(h)], false) && partials[k] == lists[k][0]
    {
      MovedSucceeds(h, v, slashSigs, takeSigs);
      partials := partials + [Moved(h, v, aggs, slashSigs, takeSigs).1.value];
      lists := lists + [SignedSlots(h, v, 0, [MoveMessage(h)], false)];
    }
    SlotAggregates(h, lists, 0, [MoveMessage(h)], false, 0);
    assert Column(lists, 0).value == partials;
    moveSig := AggregatePartialSignatures(|h.secrets|, aggs[0], partials, MoveMessage(h), false);
  }
}
