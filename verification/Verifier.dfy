/** core/src/verifier.rs: the four calls of a verifier, as functions of the deposit's rows and as methods. */
module Verifier {
  import opened Wrappers
  import opened Transactions
  import opened VerifierDatabase

  /** A verifier's MuSig2 partial signature, which fixes all that it was made of. */
  datatype Partial = Partial(signer: nat, nonce: nat, agg: AggNonce, message: Sighash, tweaked: bool)

  /** All verifiers read the same configuration, which counts its operators correctly. */
  predicate WellFormed(cfg: Config) {
    cfg.numOperators == |cfg.operators|
  }

  function RequiredNonces(cfg: Config): nat {
    2 * |cfg.operators| + 1
  }

  // The first nonce slot of each phase.

  const MOVE_SLOT: nat := 0
  const TAKES_SLOT: nat := 1

  function SlashSlot(cfg: Config): nat {
    cfg.numOperators + 1
  }

  /** Signs each message with the nonce its slot holds. */
  function Sign(signer: nat, rows: seq<NonceRow>, sighashes: seq<Sighash>, tweaked: bool): (r: seq<Partial>)
    requires AllAggregated(rows) && |rows| <= |sighashes|
    ensures |r| == |rows|
    ensures forall t :: 0 <= t < |r| ==> r[t] == Partial(signer, rows[t].sec, rows[t].agg.value, sighashes[t], tweaked)
  {
    seq(|rows|, t requires 0 <= t < |rows| => Partial(signer, rows[t].sec, rows[t].agg.value, sighashes[t], tweaked))
  }

  /** Binds the messages to the slots from `start` on, then signs them with the slots' nonces. */
  function BindAndSign(signer: nat, rec: Record, start: nat, sighashes: seq<Sighash>, tweaked: bool)
    : (Record, Result<seq<Partial>, Error>)
  {
    var bound := BindSighashes(rec.nonces, start, sighashes);
    if bound.None? then (rec, Failure(DatabaseError))
    else
      var affected := Affected(bound.value, start, |sighashes|);
      (rec.(nonces := bound.value),
       if AllAggregated(affected) then Success(Sign(signer, affected, sighashes, tweaked)) else Failure(DatabaseError))
  }

  // new_deposit

  /** `secrets` are the secret nonces it generates, `depositValid` the node's answer about the deposit. */
  function NewDepositStep(cfg: Config, rec: Record, info: Info, depositValid: bool, secrets: seq<nat>)
    : (Record, Result<seq<PubNonce>, Error>)
    requires |secrets| == RequiredNonces(cfg)
  {
    if !depositValid then (rec, Failure(InvalidDeposit))
    else if rec.nonces != [] then
      (rec, if |rec.nonces| == RequiredNonces(cfg) then Success(PubNonces(rec.nonces)) else Failure(NoncesNotFound))
    else if rec.info.Some? then (rec, Failure(DatabaseError))
    else (Record(Some(info), FreshRows(secrets), rec.kickoffs), Success(PubNonces(FreshRows(secrets))))
  }

  // operator_kickoffs_generated

  function CheckKickoff(cfg: Config, deposit: OutPoint, utxo: Utxo, sig: OperatorSignature, i: nat)
    : Result<Sighash, Error>
  {
    if utxo.txout.value < KICKOFF_UTXO_AMOUNT_SATS then Failure(InvalidKickoffUtxo)
    else if i >= |cfg.operators| then Failure(Panicked)
    else if sig != KickoffSignature(cfg.operators[i], deposit, utxo.outpoint) then Failure(InvalidSignature)
    else OrPanic(SlashSighash(cfg, deposit, utxo, i))
  }

  /** The slash_or_take messages of the first `n` kickoffs, or the first error. */
  function CheckKickoffs(cfg: Config, deposit: OutPoint, utxos: seq<Utxo>, sigs: seq<OperatorSignature>, n: nat)
    : (r: Result<seq<Sighash>, Error>)
    requires n <= |utxos| == |sigs|
    ensures r.Success? ==> |r.value| == n
    ensures r.Success? ==> forall i :: 0 <= i < n ==>
              && i < |cfg.operators| && utxos[i].txout.value >= KICKOFF_UTXO_AMOUNT_SATS
              && sigs[i] == KickoffSignature(cfg.operators[i], deposit, utxos[i].outpoint)
              && SlashSighash(cfg, deposit, utxos[i], i) == Some(r.value[i])
  {
    if n == 0 then Success([])
    else
      var before :- CheckKickoffs(cfg, deposit, utxos, sigs, n - 1);
      var sighash :- CheckKickoff(cfg, deposit, utxos[n - 1], sigs[n - 1], n - 1);
      Success(before + [sighash])
  }

  lemma {:induction false} FirstErrorStays(cfg: Config, deposit: OutPoint, utxos: seq<Utxo>,
                                           sigs: seq<OperatorSignature>, n: nat)
    requires n <= |utxos| == |sigs| && CheckKickoffs(cfg, deposit, utxos, sigs, n).Failure?
    ensures CheckKickoffs(cfg, deposit, utxos, sigs, |utxos|) == CheckKickoffs(cfg, deposit, utxos, sigs, n)
    decreases |utxos| - n
  {
    if n < |utxos| {
      FirstErrorStays(cfg, deposit, utxos, sigs, n + 1);
    }
  }

  /** The database part, in one transaction. */
  function StoreKickoffs(cfg: Config, signer: nat, rec: Record, utxos: seq<Utxo>, sighashes: seq<Sighash>,
                         aggs: seq<AggNonce>)
    : (Record, Result<seq<Partial>, Error>)
  {
    if aggs == [] || utxos == [] then (rec, Failure(DatabaseError))
    else
      var stored := rec.(nonces := WithAggNonces(rec.nonces, aggs), kickoffs := WithKickoffs(rec.kickoffs, utxos));
      var (signed, r) := BindAndSign(signer, stored, SlashSlot(cfg), sighashes, false);
      if r.Success? then (signed, r) else (rec, r)
  }

  function KickoffsGeneratedStep(cfg: Config, signer: nat, deposit: OutPoint, rec: Record, utxos: seq<Utxo>,
                                 sigs: seq<OperatorSignature>, aggs: seq<AggNonce>)
    : (Record, Result<seq<Partial>, Error>)
  {
    if |sigs| != |utxos| then (rec, Failure(InvalidKickoffUtxo))
    else
      var sighashes := CheckKickoffs(cfg, deposit, utxos, sigs, |utxos|);
      if sighashes.Failure? then (rec, Failure(sighashes.error))
      else StoreKickoffs(cfg, signer, rec, utxos, sighashes.value, aggs)
  }

  // burn_txs_signed and operator_take_txs_signed

  /** create_deposit_details: what makes the two calls fail before they look at signatures. */
  function DepositDetails(cfg: Config, deposit: OutPoint, rec: Record): Result<Sighash, Error> {
    if rec.kickoffs == [] then Failure(KickoffOutpointsNotFound)
    else if rec.info.None? then Failure(DatabaseError)
    else OrPanic(MoveSighash(cfg, deposit, rec.info.value.evm, rec.info.value.recovery))
  }

  /** The first signature must be the N-of-N one on slash_or_take; any other case panics. */
  function CheckSlashSig(cfg: Config, deposit: OutPoint, utxo: Utxo, sigs: seq<Signature>, i: nat): Option<Sighash> {
    var slash :- SlashSighash(cfg, deposit, utxo, i);
    if i < |sigs| && sigs[i] == NofN(slash, false) then TakesSighash(cfg, deposit, utxo, i) else None
  }

  /** The operator_takes messages of the first `n` stored kickoffs. */
  function CheckSlashSigs(cfg: Config, deposit: OutPoint, utxos: seq<Utxo>, sigs: seq<Signature>, n: nat)
    : (r: Option<seq<Sighash>>)
    requires n <= |utxos|
    ensures r.Some? ==> |r.value| == n
    ensures r.Some? ==> forall i :: 0 <= i < n ==>
              && SlashSighash(cfg, deposit, utxos[i], i).Some?
              && i < |sigs| && sigs[i] == NofN(SlashSighash(cfg, deposit, utxos[i], i).value, false)
              && TakesSighash(cfg, deposit, utxos[i], i) == Some(r.value[i])
  {
    if n == 0 then Some([])
    else
      var before :- CheckSlashSigs(cfg, deposit, utxos, sigs, n - 1);
      var sighash :- CheckSlashSig(cfg, deposit, utxos[n - 1], sigs, n - 1);
      Some(before + [sighash])
  }

  lemma {:induction false} SlashSigPanicStays(cfg: Config, deposit: OutPoint, utxos: seq<Utxo>, sigs: seq<Signature>,
                                              n: nat)
    requires n <= |utxos| && CheckSlashSigs(cfg, deposit, utxos, sigs, n).None?
    ensures CheckSlashSigs(cfg, deposit, utxos, sigs, |utxos|).None?
    decreases |utxos| - n
  {
    if n < |utxos| {
      SlashSigPanicStays(cfg, deposit, utxos, sigs, n + 1);
    }
  }

  /**
   Not one transaction: the signatures stay saved when a later statement fails, and the
   rows `seen` when the call began may be older than the rows `rec` it writes to.
  */
  function BurnTxsSignedStep(cfg: Config, signer: nat, deposit: OutPoint, seen: Record, rec: Record,
                             sigs: seq<Signature>)
    : (Record, Result<seq<Partial>, Error>)
  {
    var details := DepositDetails(cfg, deposit, seen);
    if details.Failure? then (rec, Failure(details.error))
    else
      var sighashes := CheckSlashSigs(cfg, deposit, Utxos(seen.kickoffs), sigs, |seen.kickoffs|);
      if sighashes.None? then (rec, Failure(Panicked))
      else
        BindAndSign(signer, rec.(kickoffs := WithSlashSigs(rec.kickoffs, sigs)), TAKES_SLOT, sighashes.value, true)
  }

  predicate TakeSigOk(cfg: Config, deposit: OutPoint, utxo: Utxo, sigs: seq<Signature>, i: nat) {
    var takes := TakesSighash(cfg, deposit, utxo, i);
    takes.Some? && i < |sigs| && sigs[i] == NofN(takes.value, true)
  }

  predicate TakeSigsOk(cfg: Config, deposit: OutPoint, utxos: seq<Utxo>, sigs: seq<Signature>) {
    forall i :: 0 <= i < |utxos| ==> TakeSigOk(cfg, deposit, utxos[i], sigs, i)
  }

  function UtxosAndSigs(utxos: seq<Utxo>, sigs: seq<Signature>): seq<(Utxo, Signature)>
    requires |utxos| <= |sigs|
  {
    seq(|utxos|, i requires 0 <= i < |utxos| => (utxos[i], sigs[i]))
  }

  function OperatorTakeTxsSignedStep(cfg: Config, signer: nat, deposit: OutPoint, seen: Record, rec: Record,
                                     sigs: seq<Signature>)
    : (Record, Result<Partial, Error>)
  {
    var details := DepositDetails(cfg, deposit, seen);
    if details.Failure? then (rec, Failure(details.error))
    else if !TakeSigsOk(cfg, deposit, Utxos(seen.kickoffs), sigs) then (rec, Failure(Panicked))
    else
      EnoughTakeSigs(cfg, deposit, Utxos(seen.kickoffs), sigs);
      var batch := UtxosAndSigs(Utxos(seen.kickoffs), sigs);
      var (signed, r) := BindAndSign(signer, rec.(kickoffs := WithTakeSigs(rec.kickoffs, batch)), MOVE_SLOT,
                                     [details.value], false);
      (signed,
       if r.Failure? then Failure(r.error)
       else if r.value == [] then Failure(Panicked)
       else Success(r.value[0]))
  }

  lemma EnoughTakeSigs(cfg: Config, deposit: OutPoint, utxos: seq<Utxo>, sigs: seq<Signature>)
    requires TakeSigsOk(cfg, deposit, utxos, sigs)
    ensures |utxos| <= |sigs|
  {
    if utxos != [] {
      assert TakeSigOk(cfg, deposit, utxos[|utxos| - 1], sigs, |utxos| - 1);
    }
  }

  // The verifier.

  class Verifier {
    const cfg: Config
    const signer: nat
    const db: Database

    constructor (cfg: Config, signer: nat, db: Database)
      ensures this.cfg == cfg && this.signer == signer && this.db == db
    {
      this.cfg, this.signer, this.db := cfg, signer, db;
    }

    method NewDeposit(deposit: OutPoint, info: Info, depositValid: bool, secrets: seq<nat>)
      returns (r: Result<seq<PubNonce>, Error>)
      requires |secrets| == RequiredNonces(cfg)
      modifies db
      ensures (db.At(deposit), r) == NewDepositStep(cfg, old(db.At(deposit)), info, depositValid, secrets)
      ensures forall d :: d != deposit ==> db.At(d) == old(db.At(d))
    {
      if !depositValid {
        return Failure(InvalidDeposit);
      }
      var pubNonces := db.GetPubNonces(deposit);
      if pubNonces != [] {
        if |pubNonces| != RequiredNonces(cfg) {
          return Failure(NoncesNotFound);
        }
        return Success(pubNonces);
      }
      var ok := db.SaveDepositInfo(deposit, info);
      if !ok {
        return Failure(DatabaseError);
      }
      ok := db.SaveNonces(deposit, secrets);
      r := Success(PubNonces(FreshRows(secrets)));
    }

    method OperatorKickoffsGenerated(deposit: OutPoint, utxos: seq<Utxo>, sigs: seq<OperatorSignature>,
                                     aggs: seq<AggNonce>)
      returns (r: Result<seq<Partial>, Error>)
      modifies db
      ensures (db.At(deposit), r) == KickoffsGeneratedStep(cfg, signer, deposit, old(db.At(deposit)), utxos, sigs, aggs)
      ensures forall d :: d != deposit ==> db.At(d) == old(db.At(d))
    {
      if |sigs| != |utxos| {
        return Failure(InvalidKickoffUtxo);
      }
      var sighashes: seq<Sighash> := [];
      for i := 0 to |utxos|
        invariant CheckKickoffs(cfg, deposit, utxos, sigs, i) == Success(sighashes)
      {
        var sighash := CheckKickoff(cfg, deposit, utxos[i], sigs[i], i);
        if sighash.Failure? {
          FirstErrorStays(cfg, deposit, utxos, sigs, i + 1);
          return Failure(sighash.error);
        }
        sighashes := sighashes + [sighash.value];
      }
      r := StoreAndSign(deposit, utxos, sighashes, aggs);
    }

    /** The database transaction of the call. */
    method StoreAndSign(deposit: OutPoint, utxos: seq<Utxo>, sighashes: seq<Sighash>, aggs: seq<AggNonce>)
      returns (r: Result<seq<Partial>, Error>)
      modifies db
      ensures (db.At(deposit), r) == StoreKickoffs(cfg, signer, old(db.At(deposit)), utxos, sighashes, aggs)
      ensures forall d :: d != deposit ==> db.At(d) == old(db.At(d))
    {
      hide WithAggNonces, WithKickoffs, Sign, Affected, AllAggregated, BindSighashes;
      var saved := db.At(deposit);
      var ok := db.SaveAggNonces(deposit, aggs);
      if !ok {
        return Failure(DatabaseError);
      }
      ok := db.SaveKickoffUtxos(deposit, utxos);
      if !ok {
        db.Rollback(deposit, saved);
        return Failure(DatabaseError);
      }
      var nonces := db.SaveSighashesAndGetNonces(deposit, cfg.numOperators + 1, sighashes);
      if nonces.None? {
        db.Rollback(deposit, saved);
        return Failure(DatabaseError);
      }
      r := Success(Sign(signer, nonces.value, sighashes, false));
    }

    /** The stored kickoffs and the move transaction's message. */
    method CreateDepositDetails(deposit: OutPoint) returns (r: Result<(seq<Utxo>, Sighash), Error>)
      ensures r == (var details := DepositDetails(cfg, deposit, db.At(deposit));
                    if details.Success? then Success((Utxos(db.At(deposit).kickoffs), details.value))
                    else Failure(details.error))
    {
      var utxos := db.GetKickoffUtxos(deposit);
      if utxos == [] {
        return Failure(KickoffOutpointsNotFound);
      }
      var info := db.GetDepositInfo(deposit);
      if info.None? {
        return Failure(DatabaseError);
      }
      var sighash := MoveSighash(cfg, deposit, info.value.evm, info.value.recovery);
      if sighash.None? {
        return Failure(Panicked);
      }
      r := Success((utxos, sighash.value));
    }

    method BurnTxsSigned(deposit: OutPoint, slashOrTakeSigs: seq<Signature>) returns (r: Result<seq<Partial>, Error>)
      modifies db
      ensures (db.At(deposit), r) == BurnTxsSignedStep(cfg, signer, deposit, old(db.At(deposit)), old(db.At(deposit)),
                                                       slashOrTakeSigs)
      ensures forall d :: d != deposit ==> db.At(d) == old(db.At(d))
    {
      var details := CreateDepositDetails(deposit);
      if details.Failure? {
        return Failure(details.error);
      }
      var utxos := details.value.0;
      var sighashes: seq<Sighash> := [];
      for i := 0 to |utxos|
        invariant CheckSlashSigs(cfg, deposit, utxos, slashOrTakeSigs, i) == Some(sighashes)
      {
        var sighash := CheckSlashSig(cfg, deposit, utxos[i], slashOrTakeSigs, i);
        if sighash.None? {
          SlashSigPanicStays(cfg, deposit, utxos, slashOrTakeSigs, i + 1);
          return Failure(Panicked);
        }
        sighashes := sighashes + [sighash.value];
      }
      var ok := db.SaveSlashOrTakeSigs(deposit, slashOrTakeSigs);
      var nonces := db.SaveSighashesAndGetNonces(deposit, 1, sighashes);
      if nonces.None? {
        return Failure(DatabaseError);
      }
      r := Success(Sign(signer, nonces.value, sighashes, true));
    }

    method OperatorTakeTxsSigned(deposit: OutPoint, operatorTakeSigs: seq<Signature>)
      returns (r: Result<Partial, Error>)
      modifies db
      ensures (db.At(deposit), r)
              == OperatorTakeTxsSignedStep(cfg, signer, deposit, old(db.At(deposit)), old(db.At(deposit)),
                                           operatorTakeSigs)
      ensures forall d :: d != deposit ==> db.At(d) == old(db.At(d))
    {
      var details := CreateDepositDetails(deposit);
      if details.Failure? {
        return Failure(details.error);
      }
      var (utxos, sighash) := details.value;
      for i := 0 to |utxos|
        invariant forall k :: 0 <= k < i ==> TakeSigOk(cfg, deposit, utxos[k], operatorTakeSigs, k)
      {
        if !TakeSigOk(cfg, deposit, utxos[i], operatorTakeSigs, i) {
          return Failure(Panicked);
        }
      }
      EnoughTakeSigs(cfg, deposit, utxos, operatorTakeSigs);
      var ok := db.SaveOperatorTakeSigs(deposit, UtxosAndSigs(utxos, operatorTakeSigs));
      var nonces := db.SaveSighashesAndGetNonces(deposit, 0, [sighash]);
      if nonces.None? {
        return Failure(DatabaseError);
      }
      if |nonces.value| == 0 {
        return Failure(Panicked);
      }
      r := Success(Partial(signer, nonces.value[0].sec, nonces.value[0].agg.value, sighash, false));
    }
  }
}
