/**
 The verifier's tables nonces, deposit_infos and deposit_kickoff_utxos of
 scripts/schema.sql and their operations in core/src/database/common.rs. Batches number
 their rows from 0 and every query names one deposit, so a deposit's rows form a sequence.
*/
module VerifierDatabase {
  import opened Wrappers
  import opened Transactions

  // Symbolic keys and signatures.

  /** The public half of a secret nonce. */
  datatype PubNonce = PubNonce(sec: nat)

  /** A sum of public nonces. */
  datatype AggNonce = Sum(nonces: seq<PubNonce>)

  /** A Schnorr signature by the N-of-N key, as it is or with the taproot tweak; or neither. */
  datatype Signature = NofN(message: Sighash, tweaked: bool) | OtherSignature(id: nat)

  /** An operator's signature over the deposit and its kickoff outpoint. */
  datatype OperatorSignature = KickoffSignature(key: Key, deposit: OutPoint, kickoff: OutPoint) | BadSignature(id: nat)

  datatype Info = Info(recovery: Key, evm: nat)
  datatype NonceRow = NonceRow(sec: nat, pub: PubNonce, agg: Option<AggNonce>, sighash: Option<Sighash>)
  datatype KickoffRow = KickoffRow(utxo: Utxo, slashOrTakeSig: Option<Signature>, operatorTakeSig: Option<Signature>)

  /** Everything the three tables hold about one deposit. */
  datatype Record = Record(info: Option<Info>, nonces: seq<NonceRow>, kickoffs: seq<KickoffRow>)

  // The statements as functions of a deposit's rows; an empty batch is a syntax error.

  function FreshRows(secrets: seq<nat>): (r: seq<NonceRow>)
    ensures |r| == |secrets|
  {
    seq(|secrets|, k requires 0 <= k < |secrets| => NonceRow(secrets[k], PubNonce(secrets[k]), None, None))
  }

  function PubNonces(rows: seq<NonceRow>): (r: seq<PubNonce>)
    ensures |r| == |rows|
  {
    seq(|rows|, k requires 0 <= k < |rows| => rows[k].pub)
  }

  function WithAggNonces(rows: seq<NonceRow>, aggs: seq<AggNonce>): (r: seq<NonceRow>)
    ensures |r| == |rows|
  {
    seq(|rows|, k requires 0 <= k < |rows| => if k < |aggs| then rows[k].(agg := Some(aggs[k])) else rows[k])
  }

  /** ON CONFLICT DO NOTHING: a kickoff that is stored stays. */
  function WithKickoffs(rows: seq<KickoffRow>, utxos: seq<Utxo>): (r: seq<KickoffRow>)
    ensures |r| == if |utxos| > |rows| then |utxos| else |rows|
    ensures forall k :: 0 <= k < |rows| ==> r[k] == rows[k]
    ensures forall k :: |rows| <= k < |r| ==> r[k].utxo == utxos[k]
  {
    if |utxos| <= |rows| then rows
    else rows + seq(|utxos| - |rows|, k requires 0 <= k < |utxos| - |rows| => KickoffRow(utxos[|rows| + k], None, None))
  }

  /** The trigger: a bound sighash may only be written again with the same value. */
  predicate MayBind(row: NonceRow, sighash: Sighash) {
    row.sighash.None? || row.sighash.value == sighash
  }

  predicate MayBindAll(rows: seq<NonceRow>, start: nat, sighashes: seq<Sighash>) {
    forall k :: start <= k < |rows| && k < start + |sighashes| ==> MayBind(rows[k], sighashes[k - start])
  }

  function WithSighashes(rows: seq<NonceRow>, start: nat, sighashes: seq<Sighash>): (r: seq<NonceRow>)
    ensures |r| == |rows|
  {
    seq(|rows|, k requires 0 <= k < |rows| =>
      if start <= k < start + |sighashes| then rows[k].(sighash := Some(sighashes[k - start])) else rows[k])
  }

  function BindSighashes(rows: seq<NonceRow>, start: nat, sighashes: seq<Sighash>): Option<seq<NonceRow>> {
    if sighashes != [] && MayBindAll(rows, start, sighashes) then Some(WithSighashes(rows, start, sighashes)) else None
  }

  /** The rows such a statement returns, in the order of their index. */
  function Affected(rows: seq<NonceRow>, start: nat, n: nat): (r: seq<NonceRow>)
    ensures forall t :: 0 <= t < |r| ==> t < n && start + t < |rows| && r[t] == rows[start + t]
    ensures |r| == if start + n <= |rows| then n else if start <= |rows| then |rows| - start else 0
  {
    if start > |rows| then [] else if start + n <= |rows| then rows[start..start + n] else rows[start..]
  }

  predicate AllAggregated(rows: seq<NonceRow>) {
    forall t :: 0 <= t < |rows| ==> rows[t].agg.Some?
  }

  function WithSlashSigs(rows: seq<KickoffRow>, sigs: seq<Signature>): (r: seq<KickoffRow>)
    ensures |r| == |rows|
    ensures forall k :: 0 <= k < |rows| ==> r[k].utxo == rows[k].utxo
  {
    seq(|rows|, k requires 0 <= k < |rows| => if k < |sigs| then rows[k].(slashOrTakeSig := Some(sigs[k])) else rows[k])
  }

  function SigFor(utxo: Utxo, batch: seq<(Utxo, Signature)>): Option<Signature> {
    if batch == [] then None else if batch[0].0 == utxo then Some(batch[0].1) else SigFor(utxo, batch[1..])
  }

  /** Unlike the other batches this one is matched by the kickoff UTXO itself. */
  function WithTakeSigs(rows: seq<KickoffRow>, batch: seq<(Utxo, Signature)>): (r: seq<KickoffRow>)
    ensures |r| == |rows|
    ensures forall k :: 0 <= k < |rows| ==> r[k].utxo == rows[k].utxo
  {
    seq(|rows|, k requires 0 <= k < |rows| =>
      var sig := SigFor(rows[k].utxo, batch);
      if sig.Some? then rows[k].(operatorTakeSig := sig) else rows[k])
  }

  function RowsAt<T>(table: map<OutPoint, seq<T>>, deposit: OutPoint): seq<T> {
    if deposit in table then table[deposit] else []
  }

  class Database {
    var infos: map<OutPoint, Info>
    var nonces: map<OutPoint, seq<NonceRow>>
    var kickoffs: map<OutPoint, seq<KickoffRow>>

    constructor ()
      ensures forall d :: At(d) == Record(None, [], [])
    {
      infos, nonces, kickoffs := map[], map[], map[];
    }

    function At(deposit: OutPoint): Record
      reads this
    {
      Record(if deposit in infos then Some(infos[deposit]) else None, RowsAt(nonces, deposit),
             RowsAt(kickoffs, deposit))
    }

    /** Dropping an open database transaction undoes its writes to the deposit's rows. */
    method Rollback(deposit: OutPoint, saved: Record)
      modifies this
      ensures At(deposit) == saved
      ensures forall d :: d != deposit ==> At(d) == old(At(d))
    {
      infos := if saved.info.Some? then infos[deposit := saved.info.value] else infos - {deposit};
      nonces := nonces[deposit := saved.nonces];
      kickoffs := kickoffs[deposit := saved.kickoffs];
    }

    method GetPubNonces(deposit: OutPoint) returns (r: seq<PubNonce>)
      ensures r == PubNonces(At(deposit).nonces)
    {
      r := PubNonces(RowsAt(nonces, deposit));
    }

    method SaveDepositInfo(deposit: OutPoint, info: Info) returns (ok: bool)
      modifies this`infos
      ensures ok <==> old(At(deposit)).info.None?
      ensures At(deposit) == if ok then old(At(deposit)).(info := Some(info)) else old(At(deposit))
      ensures forall d :: d != deposit ==> At(d) == old(At(d))
    {
      ok := deposit !in infos;
      if ok {
        infos := infos[deposit := info];
      }
    }

    /** The deposit and the index are the primary key. */
    method SaveNonces(deposit: OutPoint, secrets: seq<nat>) returns (ok: bool)
      modifies this`nonces
      ensures ok <==> secrets != [] && old(At(deposit)).nonces == []
      ensures At(deposit) == if ok then old(At(deposit)).(nonces := FreshRows(secrets)) else old(At(deposit))
      ensures forall d :: d != deposit ==> At(d) == old(At(d))
    {
      ok := secrets != [] && RowsAt(nonces, deposit) == [];
      if ok {
        nonces := nonces[deposit := FreshRows(secrets)];
      }
    }

    method SaveAggNonces(deposit: OutPoint, aggs: seq<AggNonce>) returns (ok: bool)
      modifies this`nonces
      ensures ok <==> aggs != []
      ensures At(deposit) == if ok then old(At(deposit)).(nonces := WithAggNonces(old(At(deposit)).nonces, aggs))
                             else old(At(deposit))
      ensures forall d :: d != deposit ==> At(d) == old(At(d))
    {
      ok := aggs != [];
      if ok {
        nonces := nonces[deposit := WithAggNonces(RowsAt(nonces, deposit), aggs)];
      }
    }

    method SaveKickoffUtxos(deposit: OutPoint, utxos: seq<Utxo>) returns (ok: bool)
      modifies this`kickoffs
      ensures ok <==> utxos != []
      ensures At(deposit) == if ok then old(At(deposit)).(kickoffs := WithKickoffs(old(At(deposit)).kickoffs, utxos))
                             else old(At(deposit))
      ensures forall d :: d != deposit ==> At(d) == old(At(d))
    {
      ok := utxos != [];
      if ok {
        kickoffs := kickoffs[deposit := WithKickoffs(RowsAt(kickoffs, deposit), utxos)];
      }
    }

    /** A missing aggregated nonce fails the reading of the result, after the rows are written. */
    method SaveSighashesAndGetNonces(deposit: OutPoint, start: nat, sighashes: seq<Sighash>)
      returns (r: Option<seq<NonceRow>>)
      modifies this`nonces
      ensures var bound := BindSighashes(old(At(deposit)).nonces, start, sighashes);
              && At(deposit) == (if bound.Some? then old(At(deposit)).(nonces := bound.value) else old(At(deposit)))
              && r == if bound.Some? && AllAggregated(Affected(bound.value, start, |sighashes|))
                      then Some(Affected(bound.value, start, |sighashes|)) else None
      ensures forall d :: d != deposit ==> At(d) == old(At(d))
    {
      var bound := BindSighashes(RowsAt(nonces, deposit), start, sighashes);
      if bound.None? {
        return None;
      }
      nonces := nonces[deposit := bound.value];
      var affected := Affected(bound.value, start, |sighashes|);
      r := if AllAggregated(affected) then Some(affected) else None;
    }

    method GetKickoffUtxos(deposit: OutPoint) returns (r: seq<Utxo>)
      ensures r == Utxos(At(deposit).kickoffs)
    {
      r := Utxos(RowsAt(kickoffs, deposit));
    }

    method GetDepositInfo(deposit: OutPoint) returns (r: Option<Info>)
      ensures r == At(deposit).info
    {
      r := if deposit in infos then Some(infos[deposit]) else None;
    }

    method SaveSlashOrTakeSigs(deposit: OutPoint, sigs: seq<Signature>) returns (ok: bool)
      modifies this`kickoffs
      ensures ok <==> sigs != []
      ensures At(deposit) == if ok then old(At(deposit)).(kickoffs := WithSlashSigs(old(At(deposit)).kickoffs, sigs))
                             else old(At(deposit))
      ensures forall d :: d != deposit ==> At(d) == old(At(d))
    {
      ok := sigs != [];
      if ok {
        kickoffs := kickoffs[deposit := WithSlashSigs(RowsAt(kickoffs, deposit), sigs)];
      }
    }

    method SaveOperatorTakeSigs(deposit: OutPoint, batch: seq<(Utxo, Signature)>) returns (ok: bool)
      modifies this`kickoffs
      ensures ok <==> batch != []
      ensures At(deposit) == if ok then old(At(deposit)).(kickoffs := WithTakeSigs(old(At(deposit)).kickoffs, batch))
                             else old(At(deposit))
      ensures forall d :: d != deposit ==> At(d) == old(At(d))
    {
      ok := batch != [];
      if ok {
        kickoffs := kickoffs[deposit := WithTakeSigs(RowsAt(kickoffs, deposit), batch)];
      }
    }
  }

  function Utxos(rows: seq<KickoffRow>): (r: seq<Utxo>)
    ensures |r| == |rows|
  {
    seq(|rows|, k requires 0 <= k < |rows| => rows[k].utxo)
  }
}
