/**
 The operator's tables of scripts/schema.sql and their operations in
 core/src/database/common.rs. A serial id is a row's position.
*/
module OperatorDatabase {
  import opened Wrappers
  import opened Transactions

  datatype GeneratorRow = GeneratorRow(txid: Txid, tx: Tx, numKickoffs: nat, cur: nat, fundingTxid: Txid)

  datatype Tables = Tables(
    generators: seq<GeneratorRow>,
    kickoffs: map<OutPoint, Utxo>,
    funding: seq<Utxo>)

  /** The newest row with an unused kickoff: ORDER BY id DESC LIMIT 1. */
  function NewestOpen(rows: seq<GeneratorRow>): (r: Option<nat>)
    ensures r.Some? ==> r.value < |rows| && rows[r.value].cur < rows[r.value].numKickoffs
    ensures forall i :: (if r.Some? then r.value + 1 else 0) <= i < |rows| ==> rows[i].cur >= rows[i].numKickoffs
  {
    if rows == [] then None
    else
      var last := |rows| - 1;
      if rows[last].cur < rows[last].numKickoffs then Some(last) else NewestOpen(rows[..last])
  }

  function FindGenerator(rows: seq<GeneratorRow>, txid: Txid): (r: Option<GeneratorRow>)
    ensures r.Some? ==> r.value in rows && r.value.txid == txid
    ensures r.None? ==> forall row :: row in rows ==> row.txid != txid
  {
    if rows == [] then None else if rows[0].txid == txid then Some(rows[0]) else FindGenerator(rows[1..], txid)
  }

  function TakeUnused(t: Tables): (Tables, Result<Option<Utxo>, Error>) {
    var open := NewestOpen(t.generators);
    if open.None? then (t, Success(None))
    else
      var row := t.generators[open.value];
      var taken := t.(generators := t.generators[open.value := row.(cur := row.cur + 1)]);
      if row.cur < |row.tx.outputs| && row.cur < 0x8000_0000
      then (taken, Success(Some(Utxo(OutPoint(row.txid, row.cur), row.tx.outputs[row.cur]))))
      else (taken, Failure(Panicked))
  }

  class Database {
    var generators: seq<GeneratorRow>
    var kickoffs: map<OutPoint, Utxo>
    var funding: seq<Utxo>

    constructor ()
      ensures View() == Tables([], map[], [])
    {
      generators, kickoffs, funding := [], map[], [];
    }

    function View(): Tables
      reads this
    {
      Tables(generators, kickoffs, funding)
    }

    /** Dropping an open database transaction undoes its writes. */
    method Rollback(saved: Tables)
      modifies this
      ensures View() == saved
    {
      generators, kickoffs, funding := saved.generators, saved.kickoffs, saved.funding;
    }

    method GetKickoffUtxo(deposit: OutPoint) returns (r: Option<Utxo>)
      ensures r == if deposit in kickoffs then Some(kickoffs[deposit]) else None
    {
      r := if deposit in kickoffs then Some(kickoffs[deposit]) else None;
    }

    method GetUnusedKickoffUtxoAndIncreaseIdx() returns (r: Result<Option<Utxo>, Error>)
      modifies this
      ensures (View(), r) == TakeUnused(old(View()))
    {
      var open := NewestOpen(generators);
      if open.None? {
        return Success(None);
      }
      var row := generators[open.value];
      var updated := row.(cur := row.cur + 1);
      generators := generators[open.value := updated];
      if !(updated.cur - 1 < |row.tx.outputs| && updated.cur - 1 < 0x8000_0000) {
        return Failure(Panicked);
      }
      r := Success(Some(Utxo(OutPoint(row.txid, updated.cur - 1), row.tx.outputs[updated.cur - 1])));
    }

    /** The deposit is the primary key. */
    method SaveKickoffUtxo(deposit: OutPoint, kickoff: Utxo) returns (ok: bool)
      modifies this
      ensures ok <==> deposit !in old(kickoffs)
      ensures View() == if ok then old(View()).(kickoffs := old(kickoffs)[deposit := kickoff]) else old(View())
    {
      ok := deposit !in kickoffs;
      if ok {
        kickoffs := kickoffs[deposit := kickoff];
      }
    }

    /** The txid is unique, and the index may not pass the number of kickoffs. */
    method AddDepositKickoffGeneratorTx(txid: Txid, tx: Tx, numKickoffs: nat, fundingTxid: Txid) returns (ok: bool)
      modifies this
      ensures ok <==> 1 <= numKickoffs && FindGenerator(old(generators), txid).None?
      ensures View() == if ok
                        then old(View()).(generators := old(generators)
                                                        + [GeneratorRow(txid, tx, numKickoffs, 1, fundingTxid)])
                        else old(View())
    {
      ok := 1 <= numKickoffs && FindGenerator(generators, txid).None?;
      if ok {
        generators := generators + [GeneratorRow(txid, tx, numKickoffs, 1, fundingTxid)];
      }
    }

    method GetFundingUtxo() returns (r: Option<Utxo>)
      ensures r == if funding == [] then None else Some(funding[|funding| - 1])
    {
      r := if funding == [] then None else Some(funding[|funding| - 1]);
    }

    method SetFundingUtxo(utxo: Utxo)
      modifies this
      ensures View() == old(View()).(funding := old(funding) + [utxo])
    {
      funding := funding + [utxo];
    }
  }
}
