/** Immediately repeating a verifier's call gives the same answer and changes nothing more. */
module VerifierRetry {
  import opened Wrappers
  import opened Transactions
  import opened VerifierDatabase
  import opened Verifier

  /** Whatever new nonces the second call would have generated. */
  lemma NewDepositRetry(cfg: Config, rec: Record, info: Info, valid: bool, secrets: seq<nat>, secrets': seq<nat>)
    requires |secrets| == |secrets'| == RequiredNonces(cfg)
    ensures var (rec', r) := NewDepositStep(cfg, rec, info, valid, secrets);
            NewDepositStep(cfg, rec', info, valid, secrets') == (rec', r)
  {
  }

  lemma BindAgain(rows: seq<NonceRow>, start: nat, sighashes: seq<Sighash>)
    requires BindSighashes(rows, start, sighashes).Some?
    ensures var bound := BindSighashes(rows, start, sighashes).value;
            BindSighashes(bound, start, sighashes) == Some(bound)
  {
    var bound := BindSighashes(rows, start, sighashes).value;
    assert WithSighashes(bound, start, sighashes) == bound;
  }

  lemma BindAndSignAgain(signer: nat, rec: Record, start: nat, sighashes: seq<Sighash>, tweaked: bool)
    ensures var (rec', r) := BindAndSign(signer, rec, start, sighashes, tweaked);
            BindAndSign(signer, rec', start, sighashes, tweaked) == (rec', r)
  {
    if BindSighashes(rec.nonces, start, sighashes).Some? {
      BindAgain(rec.nonces, start, sighashes);
    }
  }

  lemma AggNoncesAgain(rows: seq<NonceRow>, aggs: seq<AggNonce>, start: nat, sighashes: seq<Sighash>)
    ensures var set' := WithAggNonces(rows, aggs);
            && WithAggNonces(set', aggs) == set'
            && WithAggNonces(WithSighashes(set', start, sighashes), aggs) == WithSighashes(set', start, sighashes)
  {
  }

  lemma KickoffsGeneratedRetry(cfg: Config, signer: nat, deposit: OutPoint, rec: Record, utxos: seq<Utxo>,
                               sigs: seq<OperatorSignature>, aggs: seq<AggNonce>)
    ensures var (rec', r) := KickoffsGeneratedStep(cfg, signer, deposit, rec, utxos, sigs, aggs);
            KickoffsGeneratedStep(cfg, signer, deposit, rec', utxos, sigs, aggs) == (rec', r)
  {
    if |sigs| == |utxos| {
      var sighashes := CheckKickoffs(cfg, deposit, utxos, sigs, |utxos|);
      if sighashes.Success? {
        StoreKickoffsAgain(cfg, signer, rec, utxos, sighashes.value, aggs);
      }
    }
  }

  lemma StoreKickoffsAgain(cfg: Config, signer: nat, rec: Record, utxos: seq<Utxo>, sighashes: seq<Sighash>,
                           aggs: seq<AggNonce>)
    ensures var (rec', r) := StoreKickoffs(cfg, signer, rec, utxos, sighashes, aggs);
            StoreKickoffs(cfg, signer, rec', utxos, sighashes, aggs) == (rec', r)
  {
    hide WithAggNonces, WithSighashes, AllAggregated, Affected, MayBindAll;
    var stored := rec.(nonces := WithAggNonces(rec.nonces, aggs), kickoffs := WithKickoffs(rec.kickoffs, utxos));
    AggNoncesAgain(rec.nonces, aggs, SlashSlot(cfg), sighashes);
    BindAndSignAgain(signer, stored, SlashSlot(cfg), sighashes, false);
  }

  lemma SigsKeepUtxos(rows: seq<KickoffRow>, sigs: seq<Signature>, batch: seq<(Utxo, Signature)>)
    ensures Utxos(WithSlashSigs(rows, sigs)) == Utxos(rows)
    ensures WithSlashSigs(WithSlashSigs(rows, sigs), sigs) == WithSlashSigs(rows, sigs)
    ensures Utxos(WithTakeSigs(rows, batch)) == Utxos(rows)
    ensures WithTakeSigs(WithTakeSigs(rows, batch), batch) == WithTakeSigs(rows, batch)
  {
  }

  lemma BurnTxsSignedRetry(cfg: Config, signer: nat, deposit: OutPoint, rec: Record, sigs: seq<Signature>)
    ensures var (rec', r) := BurnTxsSignedStep(cfg, signer, deposit, rec, rec, sigs);
            BurnTxsSignedStep(cfg, signer, deposit, rec', rec', sigs) == (rec', r)
  {
    hide WithSlashSigs, CheckSlashSig, Utxos, BindSighashes, AllAggregated, MoveSighash;
    SigsKeepUtxos(rec.kickoffs, sigs, []);
    var sighashes := CheckSlashSigs(cfg, deposit, Utxos(rec.kickoffs), sigs, |rec.kickoffs|);
    if sighashes.Some? {
      BindAndSignAgain(signer, rec.(kickoffs := WithSlashSigs(rec.kickoffs, sigs)), TAKES_SLOT, sighashes.value, true);
    }
  }

  lemma OperatorTakeTxsSignedRetry(cfg: Config, signer: nat, deposit: OutPoint, rec: Record, sigs: seq<Signature>)
    ensures var (rec', r) := OperatorTakeTxsSignedStep(cfg, signer, deposit, rec, rec, sigs);
            OperatorTakeTxsSignedStep(cfg, signer, deposit, rec', rec', sigs) == (rec', r)
  {
    hide WithTakeSigs, TakeSigOk, Utxos, BindSighashes, AllAggregated, MoveSighash;
    var details := DepositDetails(cfg, deposit, rec);
    if details.Success? && TakeSigsOk(cfg, deposit, Utxos(rec.kickoffs), sigs) {
      EnoughTakeSigs(cfg, deposit, Utxos(rec.kickoffs), sigs);
      var batch := UtxosAndSigs(Utxos(rec.kickoffs), sigs);
      SigsKeepUtxos(rec.kickoffs, sigs, batch);
      BindAndSignAgain(signer, rec.(kickoffs := WithTakeSigs(rec.kickoffs, batch)), MOVE_SLOT, [details.value], false);
    }
  }
}
