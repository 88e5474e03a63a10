/** When each call of a verifier succeeds, exactly, and which signatures it leaves in which rows. */
module VerifierOutcomes {
  import opened Wrappers
  import opened Transactions
  import opened VerifierDatabase
  import opened Verifier

  /** Why new_deposit fails, and that nothing else makes it fail. */
  lemma NewDepositFailsWhen(cfg: Config, rec: Record, info: Info, valid: bool, secrets: seq<nat>)
    requires |secrets| == RequiredNonces(cfg)
    ensures var (rec', r) := NewDepositStep(cfg, rec, info, valid, secrets);
            && (!valid ==> r == Failure(InvalidDeposit))
            && (valid && rec.nonces != [] && |rec.nonces| != 2 * |cfg.operators| + 1 ==> r == Failure(NoncesNotFound))
            && (valid && rec.nonces == [] && rec.info.Some? ==> r == Failure(DatabaseError))
            && (r.Failure? ==> rec' == rec)
            && (r.Failure? <==>
                  || !valid || (rec.nonces != [] && |rec.nonces| != 2 * |cfg.operators| + 1)
                  || (rec.nonces == [] && rec.info.Some?))
            && (r.Success? ==> |r.value| == |rec'.nonces| == 2 * |cfg.operators| + 1
                               && forall k :: 0 <= k < |r.value| ==> r.value[k] == rec'.nonces[k].pub)
  {
  }

  /** The slots are free for these messages, or hold them already, and have aggregated nonces. */
  ghost predicate SlotsReady(rows: seq<NonceRow>, start: nat, sighashes: seq<Sighash>) {
    forall k :: start <= k < |rows| && k < start + |sighashes| ==>
      rows[k].agg.Some? && (rows[k].sighash.None? || rows[k].sighash == Some(sighashes[k - start]))
  }

  lemma BindAndSignSucceedsIff(v: nat, rec: Record, start: nat, sighashes: seq<Sighash>, tweaked: bool)
    ensures BindAndSign(v, rec, start, sighashes, tweaked).1.Success?
            <==> sighashes != [] && SlotsReady(rec.nonces, start, sighashes)
  {
    var bound := WithSighashes(rec.nonces, start, sighashes);
    var affected := Affected(bound, start, |sighashes|);
    assert MayBindAll(rec.nonces, start, sighashes) <==>
      forall k :: start <= k < |rec.nonces| && k < start + |sighashes| ==>
        rec.nonces[k].sighash.None? || rec.nonces[k].sighash == Some(sighashes[k - start]);
    assert AllAggregated(affected) <==>
      forall k :: start <= k < |rec.nonces| && k < start + |sighashes| ==> rec.nonces[k].agg.Some? by {
      if AllAggregated(affected) {
        forall k | start <= k < |rec.nonces| && k < start + |sighashes| ensures rec.nonces[k].agg.Some? {
          assert affected[k - start] == bound[k];
        }
      }
    }
  }

  /** What a kickoff must be for the first phase, spelled out. */
  ghost predicate KickoffOk(cfg: Config, d: OutPoint, utxo: Utxo, sig: OperatorSignature, i: nat) {
    && utxo.txout.value >= 100_000 && i < |cfg.operators|
    && sig == KickoffSignature(cfg.operators[i], d, utxo.outpoint)
    && utxo.txout.script == Taproot(None, [Multisig(cfg.nofn, cfg.operators[i])]) && cfg.bridgeAmount >= 520
  }

  /** The error of a kickoff that is not in order. */
  function KickoffError(cfg: Config, d: OutPoint, utxo: Utxo, sig: OperatorSignature, i: nat): Error {
    if utxo.txout.value < 100_000 then InvalidKickoffUtxo
    else if i < |cfg.operators| && sig != KickoffSignature(cfg.operators[i], d, utxo.outpoint) then InvalidSignature
    else Panicked
  }

  lemma CheckKickoffIff(cfg: Config, d: OutPoint, utxo: Utxo, sig: OperatorSignature, i: nat)
    ensures CheckKickoff(cfg, d, utxo, sig, i).Success? <==> KickoffOk(cfg, d, utxo, sig, i)
    ensures !KickoffOk(cfg, d, utxo, sig, i) ==>
              CheckKickoff(cfg, d, utxo, sig, i) == Failure(KickoffError(cfg, d, utxo, sig, i))
  {
    if i < |cfg.operators| {
      SlashOrTakeTxConserves(d, utxo, cfg.operators[i], i, cfg);
    }
  }

  lemma {:induction false} CheckKickoffsIff(cfg: Config, d: OutPoint, utxos: seq<Utxo>, sigs: seq<OperatorSignature>,
                                            n: nat)
    requires n <= |utxos| == |sigs|
    ensures CheckKickoffs(cfg, d, utxos, sigs, n).Success?
            <==> forall i :: 0 <= i < n ==> KickoffOk(cfg, d, utxos[i], sigs[i], i)
  {
    hide KickoffOk, CheckKickoff, SlashSighash;
    if n > 0 {
      CheckKickoffsIff(cfg, d, utxos, sigs, n - 1);
      CheckKickoffIff(cfg, d, utxos[n - 1], sigs[n - 1], n - 1);
    }
  }

  function SlashMessages(cfg: Config, d: OutPoint, utxos: seq<Utxo>): (r: seq<Sighash>)
    requires forall i :: 0 <= i < |utxos| ==> SlashSighash(cfg, d, utxos[i], i).Some?
    ensures |r| == |utxos| && forall i :: 0 <= i < |r| ==> Some(r[i]) == SlashSighash(cfg, d, utxos[i], i)
  {
    seq(|utxos|, i requires 0 <= i < |utxos| => SlashSighash(cfg, d, utxos[i], i).value)
  }

  lemma KickoffOkHasMessage(cfg: Config, d: OutPoint, utxo: Utxo, sig: OperatorSignature, i: nat)
    requires KickoffOk(cfg, d, utxo, sig, i)
    ensures SlashSighash(cfg, d, utxo, i).Some?
  {
    CheckKickoffIff(cfg, d, utxo, sig, i);
  }

  /** Both lists are there, every kickoff is in order and its slot is free or holds its message. */
  ghost predicate KickoffsInOrder(cfg: Config, d: OutPoint, rec: Record, utxos: seq<Utxo>, sigs: seq<OperatorSignature>,
                                  aggs: seq<AggNonce>) {
    && |sigs| == |utxos| && utxos != [] && aggs != []
    && (forall i :: 0 <= i < |utxos| ==>
         && KickoffOk(cfg, d, utxos[i], sigs[i], i) && SlashSighash(cfg, d, utxos[i], i).Some?)
    && SlotsReady(WithAggNonces(rec.nonces, aggs), cfg.numOperators + 1, SlashMessages(cfg, d, utxos))
  }

  lemma KickoffsGeneratedSucceedsIff(cfg: Config, v: nat, d: OutPoint, rec: Record, utxos: seq<Utxo>,
                                     sigs: seq<OperatorSignature>, aggs: seq<AggNonce>)
    ensures KickoffsGeneratedStep(cfg, v, d, rec, utxos, sigs, aggs).1.Success?
            <==> KickoffsInOrder(cfg, d, rec, utxos, sigs, aggs)
  {
    hide KickoffOk, SlashSighash, WithAggNonces, WithKickoffs, SlotsReady, BindAndSign;
    if |sigs| == |utxos| {
      CheckKickoffsIff(cfg, d, utxos, sigs, |utxos|);
      var sighashes := CheckKickoffs(cfg, d, utxos, sigs, |utxos|);
      if sighashes.Success? {
        assert sighashes.value == SlashMessages(cfg, d, utxos);
        var stored := rec.(nonces := WithAggNonces(rec.nonces, aggs), kickoffs := WithKickoffs(rec.kickoffs, utxos));
        BindAndSignSucceedsIff(v, stored, SlashSlot(cfg), sighashes.value, false);
      }
    }
  }

  /** Of a stored kickoff: all its transactions can be built. */
  ghost predicate Reimbursed(cfg: Config, utxo: Utxo, i: nat) {
    && i < |cfg.operators| && i < |cfg.wallets|
    && utxo.txout.script == Taproot(None, [Multisig(cfg.nofn, cfg.operators[i])])
    && cfg.bridgeAmount >= 520 && utxo.txout.value >= 570
    && 1650 <= utxo.txout.value + cfg.bridgeAmount < 0x1_0000_0000_0000_0000 + 570
  }

  lemma TakesMessageIff(cfg: Config, d: OutPoint, utxo: Utxo, i: nat)
    ensures TakesSighash(cfg, d, utxo, i).Some? <==> Reimbursed(cfg, utxo, i)
    ensures Reimbursed(cfg, utxo, i) ==> SlashSighash(cfg, d, utxo, i).Some?
  {
    if i < |cfg.operators| && i < |cfg.wallets| {
      ReimbursementBuiltIff(d, utxo, cfg.operators[i], i, cfg, cfg.wallets[i]);
    }
  }

  ghost predicate SlashSigned(cfg: Config, d: OutPoint, utxo: Utxo, sigs: seq<Signature>, i: nat) {
    && Reimbursed(cfg, utxo, i) && i < |sigs| && SlashSighash(cfg, d, utxo, i).Some?
    && sigs[i] == NofN(SlashSighash(cfg, d, utxo, i).value, false)
  }

  lemma {:induction false} CheckSlashSigsIff(cfg: Config, d: OutPoint, utxos: seq<Utxo>, sigs: seq<Signature>, n: nat)
    requires n <= |utxos|
    ensures CheckSlashSigs(cfg, d, utxos, sigs, n).Some? <==> forall i :: 0 <= i < n ==> SlashSigned(cfg, d, utxos[i],
                                                                                                     sigs, i)
  {
    hide SlashSighash, TakesSighash, Reimbursed;
    if n > 0 {
      CheckSlashSigsIff(cfg, d, utxos, sigs, n - 1);
      TakesMessageIff(cfg, d, utxos[n - 1], n - 1);
    }
  }

  function TakesMessages(cfg: Config, d: OutPoint, rows: seq<KickoffRow>): (r: seq<Sighash>)
    requires forall i :: 0 <= i < |rows| ==> TakesSighash(cfg, d, rows[i].utxo, i).Some?
    ensures |r| == |rows| && forall i :: 0 <= i < |r| ==> Some(r[i]) == TakesSighash(cfg, d, rows[i].utxo, i)
  {
    seq(|rows|, i requires 0 <= i < |rows| => TakesSighash(cfg, d, rows[i].utxo, i).value)
  }

  lemma MoveMessageIff(cfg: Config, d: OutPoint, evm: nat, recovery: Key)
    ensures MoveSighash(cfg, d, evm, recovery).Some? <==> cfg.bridgeAmount >= 520
  {
    MoveTxConserves(d, evm, recovery, cfg);
  }

  /** The checks before the first statement that writes. */
  ghost predicate SlashChecked(cfg: Config, d: OutPoint, rec: Record, sigs: seq<Signature>) {
    && rec.kickoffs != [] && rec.info.Some?
    && forall i :: 0 <= i < |rec.kickoffs| ==>
         && SlashSigned(cfg, d, rec.kickoffs[i].utxo, sigs, i) && TakesSighash(cfg, d, rec.kickoffs[i].utxo, i).Some?
  }

  lemma SlashCheckedIff(cfg: Config, d: OutPoint, rec: Record, sigs: seq<Signature>)
    ensures var messages := CheckSlashSigs(cfg, d, Utxos(rec.kickoffs), sigs, |rec.kickoffs|);
            && (DepositDetails(cfg, d, rec).Success? && messages.Some? <==> SlashChecked(cfg, d, rec, sigs))
            && (SlashChecked(cfg, d, rec, sigs) ==> messages.value == TakesMessages(cfg, d, rec.kickoffs))
  {
    hide SlashSighash, TakesSighash, MoveSighash, Reimbursed;
    var utxos := Utxos(rec.kickoffs);
    CheckSlashSigsIff(cfg, d, utxos, sigs, |rec.kickoffs|);
    forall i | 0 <= i < |rec.kickoffs|
      ensures SlashSigned(cfg, d, utxos[i], sigs, i) ==> TakesSighash(cfg, d, utxos[i],
                                                                      i).Some? && cfg.bridgeAmount >= 520
    {
      TakesMessageIff(cfg, d, utxos[i], i);
      NeedsBridgeAmount(cfg, utxos[i], i);
    }
    if rec.info.Some? {
      MoveMessageIff(cfg, d, rec.info.value.evm, rec.info.value.recovery);
    }
    if rec.kickoffs != [] {
      assert SlashSigned(cfg, d, utxos[0], sigs, 0) ==> cfg.bridgeAmount >= 520;
    }
    hide SlashSigned;
    assert forall i :: 0 <= i < |rec.kickoffs| ==> utxos[i] == rec.kickoffs[i].utxo;
  }

  lemma NeedsBridgeAmount(cfg: Config, utxo: Utxo, i: nat)
    ensures Reimbursed(cfg, utxo, i) ==> cfg.bridgeAmount >= 520
  {
  }

  ghost predicate BurnInOrder(cfg: Config, d: OutPoint, rec: Record, sigs: seq<Signature>) {
    SlashChecked(cfg, d, rec, sigs) && SlotsReady(rec.nonces, 1, TakesMessages(cfg, d, rec.kickoffs))
  }

  lemma BurnSucceedsIff(cfg: Config, v: nat, d: OutPoint, rec: Record, sigs: seq<Signature>)
    ensures BurnTxsSignedStep(cfg, v, d, rec, rec, sigs).1.Success? <==> BurnInOrder(cfg, d, rec, sigs)
  {
    SlashCheckedIff(cfg, d, rec, sigs);
    var messages := CheckSlashSigs(cfg, d, Utxos(rec.kickoffs), sigs, |rec.kickoffs|);
    assert SlashChecked(cfg, d, rec, sigs) ==> rec.kickoffs != [];
    if messages.Some? {
      BindAndSignSucceedsIff(v, rec.(kickoffs := WithSlashSigs(rec.kickoffs, sigs)), TAKES_SLOT, messages.value, true);
    }
    hide DepositDetails, CheckSlashSigs, WithSlashSigs, BindAndSign, SlotsReady;
  }

  ghost predicate TakesInOrder(cfg: Config, d: OutPoint, rec: Record, sigs: seq<Signature>) {
    && rec.kickoffs != [] && rec.info.Some? && MoveSighash(cfg, d, rec.info.value.evm, rec.info.value.recovery).Some?
    && (forall i :: 0 <= i < |rec.kickoffs| ==>
         && TakesSighash(cfg, d, rec.kickoffs[i].utxo, i).Some?
         && i < |sigs| && sigs[i] == NofN(TakesSighash(cfg, d, rec.kickoffs[i].utxo, i).value, true))
    && rec.nonces != []
    && SlotsReady(rec.nonces, 0, [MoveSighash(cfg, d, rec.info.value.evm, rec.info.value.recovery).value])
  }

  lemma TakesSucceedIff(cfg: Config, v: nat, d: OutPoint, rec: Record, sigs: seq<Signature>)
    ensures OperatorTakeTxsSignedStep(cfg, v, d, rec, rec, sigs).1.Success? <==> TakesInOrder(cfg, d, rec, sigs)
  {
    assert |Utxos(rec.kickoffs)| == |rec.kickoffs| && forall i :: 0 <= i < |rec.kickoffs| ==>
        Utxos(rec.kickoffs)[i] == rec.kickoffs[i].utxo;
    var details := DepositDetails(cfg, d, rec);
    hide SlashSighash, TakesSighash, MoveSighash, Utxos, WithTakeSigs, SlotsReady;
    assert TakeSigsOk(cfg, d, Utxos(rec.kickoffs), sigs) <==> forall i :: 0 <= i < |rec.kickoffs| ==>
        TakeSigOk(cfg, d, rec.kickoffs[i].utxo, sigs, i);
    if details.Success? && TakeSigsOk(cfg, d, Utxos(rec.kickoffs), sigs) {
      EnoughTakeSigs(cfg, d, Utxos(rec.kickoffs), sigs);
      var batch := UtxosAndSigs(Utxos(rec.kickoffs), sigs);
      var saved := rec.(kickoffs := WithTakeSigs(rec.kickoffs, batch));
      BindAndSignSucceedsIff(v, saved, MOVE_SLOT, [details.value], false);
      var (rec', r) := BindAndSign(v, saved, MOVE_SLOT, [details.value], false);
      assert r.Success? ==> (r.value == [] <==> rec.nonces == []);
      hide BindAndSign;
    }
  }

  // Why each call fails.

  lemma BindAndSignFailsWith(v: nat, rec: Record, start: nat, sighashes: seq<Sighash>, tweaked: bool)
    ensures var r := BindAndSign(v, rec, start, sighashes, tweaked).1;
            r.Failure? ==> r.error == DatabaseError
  {
  }

  lemma FirstBadKickoff(cfg: Config, d: OutPoint, utxos: seq<Utxo>, sigs: seq<OperatorSignature>, i: nat)
    requires i < |utxos| == |sigs| && !KickoffOk(cfg, d, utxos[i], sigs[i], i)
    requires forall k :: 0 <= k < i ==> KickoffOk(cfg, d, utxos[k], sigs[k], k)
    ensures CheckKickoffs(cfg, d, utxos, sigs, |utxos|) == Failure(KickoffError(cfg, d, utxos[i], sigs[i], i))
  {
    hide KickoffOk, KickoffError, CheckKickoff;
    CheckKickoffsIff(cfg, d, utxos, sigs, i);
    CheckKickoffIff(cfg, d, utxos[i], sigs[i], i);
    FirstErrorStays(cfg, d, utxos, sigs, i + 1);
  }

  /** Lists of different lengths; the first bad kickoff; with none, an empty batch or a slot that is not ready. */
  lemma KickoffsGeneratedFailsWith(cfg: Config, v: nat, d: OutPoint, rec: Record, utxos: seq<Utxo>,
                                   sigs: seq<OperatorSignature>, aggs: seq<AggNonce>, i: nat)
    requires KickoffsGeneratedStep(cfg, v, d, rec, utxos, sigs, aggs).1.Failure?
    requires i <= |utxos| && (forall k :: 0 <= k < i && k < |sigs| ==> KickoffOk(cfg, d, utxos[k], sigs[k], k))
    ensures var e := KickoffsGeneratedStep(cfg, v, d, rec, utxos, sigs, aggs).1.error;
            && (|sigs| != |utxos| ==> e == InvalidKickoffUtxo)
            && (|sigs| == |utxos| == i ==> e == DatabaseError)
            && (|sigs| == |utxos| && i < |utxos| && !KickoffOk(cfg, d, utxos[i], sigs[i], i) ==>
                  e == KickoffError(cfg, d, utxos[i], sigs[i], i))
  {
    hide KickoffOk, KickoffError, CheckKickoffs, BindAndSign, WithAggNonces, WithKickoffs;
    if |sigs| == |utxos| {
      if i < |utxos| {
        if !KickoffOk(cfg, d, utxos[i], sigs[i], i) {
          FirstBadKickoff(cfg, d, utxos, sigs, i);
        }
      } else {
        CheckKickoffsIff(cfg, d, utxos, sigs, i);
        var sighashes := CheckKickoffs(cfg, d, utxos, sigs, |utxos|);
        var stored := rec.(nonces := WithAggNonces(rec.nonces, aggs), kickoffs := WithKickoffs(rec.kickoffs, utxos));
        BindAndSignFailsWith(v, stored, SlashSlot(cfg), sighashes.value, false);
      }
    }
  }

  /** What ends the two later calls before they look at a signature. */
  lemma DetailsFailWith(cfg: Config, d: OutPoint, rec: Record)
    ensures var r := DepositDetails(cfg, d, rec);
            && (rec.kickoffs == [] ==> r == Failure(KickoffOutpointsNotFound))
            && (rec.kickoffs != [] && rec.info.None? ==> r == Failure(DatabaseError))
            && (rec.kickoffs != [] && rec.info.Some? && cfg.bridgeAmount < 520 ==> r == Failure(Panicked))
            && (rec.kickoffs != [] && rec.info.Some? && cfg.bridgeAmount >= 520 ==> r.Success?)
  {
    if rec.info.Some? {
      MoveMessageIff(cfg, d, rec.info.value.evm, rec.info.value.recovery);
    }
  }

  lemma BurnFailsWith(cfg: Config, v: nat, d: OutPoint, rec: Record, sigs: seq<Signature>)
    requires BurnTxsSignedStep(cfg, v, d, rec, rec, sigs).1.Failure?
    ensures var e := BurnTxsSignedStep(cfg, v, d, rec, rec, sigs).1.error;
            && (rec.kickoffs == [] ==> e == KickoffOutpointsNotFound)
            && (rec.kickoffs != [] && rec.info.None? ==> e == DatabaseError)
            && (rec.kickoffs != [] && rec.info.Some? ==>
                  e == if forall i :: 0 <= i < |rec.kickoffs| ==> SlashSigned(cfg, d, rec.kickoffs[i].utxo, sigs, i)
                       then DatabaseError else Panicked)
  {
    var utxos := Utxos(rec.kickoffs);
    assert |utxos| == |rec.kickoffs| && forall i :: 0 <= i < |rec.kickoffs| ==> utxos[i] == rec.kickoffs[i].utxo;
    CheckSlashSigsIff(cfg, d, utxos, sigs, |rec.kickoffs|);
    DetailsFailWith(cfg, d, rec);
    if rec.kickoffs != [] {
      assert SlashSigned(cfg, d, rec.kickoffs[0].utxo, sigs, 0) ==> cfg.bridgeAmount >= 520;
    }
    hide CheckSlashSigs, BindAndSign, Utxos, DepositDetails, SlashSigned;
    var sighashes := CheckSlashSigs(cfg, d, utxos, sigs, |rec.kickoffs|);
    if sighashes.Some? {
      BindAndSignFailsWith(v, rec.(kickoffs := WithSlashSigs(rec.kickoffs, sigs)), TAKES_SLOT, sighashes.value, true);
    }
  }

  lemma TakesFailWith(cfg: Config, v: nat, d: OutPoint, rec: Record, sigs: seq<Signature>)
    requires OperatorTakeTxsSignedStep(cfg, v, d, rec, rec, sigs).1.Failure?
    ensures var e := OperatorTakeTxsSignedStep(cfg, v, d, rec, rec, sigs).1.error;
            && (rec.kickoffs == [] ==> e == KickoffOutpointsNotFound)
            && (rec.kickoffs != [] && rec.info.None? ==> e == DatabaseError)
            && (rec.kickoffs != [] && rec.info.Some? ==>
                  e == if cfg.bridgeAmount >= 520 && rec.nonces != []
                          && forall i :: 0 <= i < |rec.kickoffs| ==> TakeSigOk(cfg, d, rec.kickoffs[i].utxo, sigs, i)
                       then DatabaseError else Panicked)
  {
    var utxos := Utxos(rec.kickoffs);
    assert |utxos| == |rec.kickoffs| && forall i :: 0 <= i < |rec.kickoffs| ==> utxos[i] == rec.kickoffs[i].utxo;
    DetailsFailWith(cfg, d, rec);
    hide Utxos, DepositDetails, TakeSigOk, WithTakeSigs;
    var details := DepositDetails(cfg, d, rec);
    assert TakeSigsOk(cfg, d, utxos, sigs) <==>
      forall i :: 0 <= i < |rec.kickoffs| ==> TakeSigOk(cfg, d, rec.kickoffs[i].utxo, sigs, i);
    if details.Success? && TakeSigsOk(cfg, d, utxos, sigs) {
      EnoughTakeSigs(cfg, d, utxos, sigs);
      var saved := rec.(kickoffs := WithTakeSigs(rec.kickoffs, UtxosAndSigs(utxos, sigs)));
      BindAndSignFailsWith(v, saved, MOVE_SLOT, [details.value], false);
      var r := BindAndSign(v, saved, MOVE_SLOT, [details.value], false).1;
      assert r.Success? ==> (r.value == [] <==> rec.nonces == []);
      assert rec.nonces == [] ==> r.Success?;
    }
  }

  // What each call leaves in the tables.

  /** The rows with the slots from `start` on bound to these messages. */
  ghost predicate BoundRows(before: seq<NonceRow>, after: seq<NonceRow>, start: nat, sighashes: seq<Sighash>) {
    && |after| == |before|
    && forall k :: 0 <= k < |before| ==>
         && after[k].sec == before[k].sec && after[k].pub == before[k].pub && after[k].agg == before[k].agg
         && after[k].sighash == if start <= k < start + |sighashes| then Some(sighashes[k - start])
                                else before[k].sighash
  }

  /** Binding is all or nothing, but what is bound stays bound when an aggregated nonce is missing. */
  lemma BindAndSignLeaves(v: nat, rec: Record, start: nat, sighashes: seq<Sighash>, tweaked: bool)
    ensures var (rec', r) := BindAndSign(v, rec, start, sighashes, tweaked);
            && rec'.info == rec.info && rec'.kickoffs == rec.kickoffs
            && (r.Success? ==> BoundRows(rec.nonces, rec'.nonces, start, sighashes))
            && (r.Failure? ==> rec' == rec || BoundRows(rec.nonces, rec'.nonces, start, sighashes))
  {
  }

  /**
   operator_kickoffs_generated is one database transaction: when it fails the rows are as
   they were; when it succeeds they have the new sums and messages, and the missing kickoffs.
  */
  lemma KickoffsGeneratedLeaves(cfg: Config, v: nat, d: OutPoint, rec: Record, utxos: seq<Utxo>,
                                sigs: seq<OperatorSignature>, aggs: seq<AggNonce>)
    ensures var (rec', r) := KickoffsGeneratedStep(cfg, v, d, rec, utxos, sigs, aggs);
            && (r.Failure? ==> rec' == rec)
            && (r.Success? ==>
                  && rec'.info == rec.info && |rec'.nonces| == |rec.nonces|
                  && (forall k :: 0 <= k < |rec.nonces| ==>
                       rec'.nonces[k].agg == if k < |aggs| then Some(aggs[k]) else rec.nonces[k].agg)
                  && (forall k :: 0 <= k < |rec.kickoffs| ==>
                       k < |rec'.kickoffs| && rec'.kickoffs[k] == rec.kickoffs[k])
                  && (forall k :: |rec.kickoffs| <= k < |rec'.kickoffs| ==>
                       k < |utxos| && rec'.kickoffs[k] == KickoffRow(utxos[k], None, None))
                  && |rec'.kickoffs| >= |utxos|)
  {
    hide CheckKickoffs, BindAndSign;
    if |sigs| == |utxos| {
      var sighashes := CheckKickoffs(cfg, d, utxos, sigs, |utxos|);
      if sighashes.Success? {
        var stored := rec.(nonces := WithAggNonces(rec.nonces, aggs), kickoffs := WithKickoffs(rec.kickoffs, utxos));
        BindAndSignLeaves(v, stored, SlashSlot(cfg), sighashes.value, false);
      }
    }
  }

  /**
   burn_txs_signed is not: before its checks pass it leaves everything, and from there on the
   signatures stay saved, and bound messages bound, whatever fails later.
  */
  lemma BurnLeaves(cfg: Config, v: nat, d: OutPoint, rec: Record, sigs: seq<Signature>)
    ensures var (rec', r) := BurnTxsSignedStep(cfg, v, d, rec, rec, sigs);
            var checked := DepositDetails(cfg, d, rec).Success?
                           && forall i :: 0 <= i < |rec.kickoffs| ==> SlashSigned(cfg, d, rec.kickoffs[i].utxo, sigs,
                                                                                  i);
            && rec'.info == rec.info
            && (!checked ==> r.Failure? && rec' == rec)
            && (checked ==>
                  && |rec'.kickoffs| == |rec.kickoffs|
                  && (forall i :: 0 <= i < |rec.kickoffs| ==>
                       rec'.kickoffs[i] == KickoffRow(rec.kickoffs[i].utxo, Some(sigs[i]),
                                                      rec.kickoffs[i].operatorTakeSig))
                  && (rec'.nonces == rec.nonces
                      || exists ms :: |ms| == |rec.kickoffs| && BoundRows(rec.nonces, rec'.nonces, 1, ms)))
  {
    var utxos := Utxos(rec.kickoffs);
    assert |utxos| == |rec.kickoffs| && forall i :: 0 <= i < |rec.kickoffs| ==> utxos[i] == rec.kickoffs[i].utxo;
    CheckSlashSigsIff(cfg, d, utxos, sigs, |rec.kickoffs|);
    hide CheckSlashSigs, BindAndSign, Utxos, DepositDetails, BoundRows;
    var sighashes := CheckSlashSigs(cfg, d, utxos, sigs, |rec.kickoffs|);
    if sighashes.Some? {
      var saved := rec.(kickoffs := WithSlashSigs(rec.kickoffs, sigs));
      BindAndSignLeaves(v, saved, TAKES_SLOT, sighashes.value, true);
    }
  }

  // Which signature ends up where.

  /** After burn_txs_signed every row holds the full signature on its own slash_or_take. */
  lemma BurnStoresSignatures(cfg: Config, v: nat, d: OutPoint, rec: Record, sigs: seq<Signature>, i: nat)
    requires BurnTxsSignedStep(cfg, v, d, rec, rec, sigs).1.Success? && i < |rec.kickoffs|
    ensures var row := rec.kickoffs[i];
            var rows := BurnTxsSignedStep(cfg, v, d, rec, rec, sigs).0.kickoffs;
            && |rows| == |rec.kickoffs| && SlashSighash(cfg, d, row.utxo, i).Some?
            && rows[i] == KickoffRow(row.utxo, Some(NofN(SlashSighash(cfg, d, row.utxo, i).value, false)),
                                     row.operatorTakeSig)
  {
    hide SlashSighash, TakesSighash, MoveSighash;
    assert Utxos(rec.kickoffs)[i] == rec.kickoffs[i].utxo;
  }

  ghost predicate DistinctUtxos(rows: seq<KickoffRow>) {
    forall i, j :: 0 <= i < j < |rows| ==> rows[i].utxo != rows[j].utxo
  }

  lemma {:induction false} SigForOwn(utxos: seq<Utxo>, sigs: seq<Signature>, i: nat)
    requires |utxos| <= |sigs| && i < |utxos|
    requires forall k :: 0 <= k < i ==> utxos[k] != utxos[i]
    ensures SigFor(utxos[i], UtxosAndSigs(utxos, sigs)) == Some(sigs[i])
    decreases i
  {
    var batch := UtxosAndSigs(utxos, sigs);
    if i > 0 {
      SigForOwn(utxos[1..], sigs[1..], i - 1);
      assert batch[1..] == UtxosAndSigs(utxos[1..], sigs[1..]);
    }
  }

  /** Different operators' kickoffs differ, so with distinct keys no row takes another's signature. */
  lemma KickoffsAreDistinct(cfg: Config, rows: seq<KickoffRow>)
    requires forall i, j :: 0 <= i < j < |cfg.operators| ==> cfg.operators[i] != cfg.operators[j]
    requires forall i :: 0 <= i < |rows| ==> Reimbursed(cfg, rows[i].utxo, i)
    ensures DistinctUtxos(rows)
  {
    forall i, j | 0 <= i < j < |rows| ensures rows[i].utxo != rows[j].utxo {
      assert Reimbursed(cfg, rows[i].utxo, i) && Reimbursed(cfg, rows[j].utxo, j);
    }
  }

  /** After operator_take_txs_signed every row holds the full signature on its own operator_takes. */
  lemma TakesStoreSignatures(cfg: Config, v: nat, d: OutPoint, rec: Record, sigs: seq<Signature>, i: nat)
    requires OperatorTakeTxsSignedStep(cfg, v, d, rec, rec, sigs).1.Success? && i < |rec.kickoffs|
    requires DistinctUtxos(rec.kickoffs)
    ensures var row := rec.kickoffs[i];
            var rows := OperatorTakeTxsSignedStep(cfg, v, d, rec, rec, sigs).0.kickoffs;
            && |rows| == |rec.kickoffs| && TakesSighash(cfg, d, row.utxo, i).Some?
            && rows[i] == KickoffRow(row.utxo, row.slashOrTakeSig,
                                     Some(NofN(TakesSighash(cfg, d, row.utxo, i).value, true)))
  {
    hide SlashSighash, TakesSighash, MoveSighash;
    var utxos := Utxos(rec.kickoffs);
    assert forall k :: 0 <= k < |rec.kickoffs| ==> utxos[k] == rec.kickoffs[k].utxo;
    assert TakeSigOk(cfg, d, utxos[i], sigs, i);
    EnoughTakeSigs(cfg, d, utxos, sigs);
    SigForOwn(utxos, sigs, i);
  }
}
