/** core/src/operator.rs: the kickoff allocator and the walk back along its funding chain. */
module Operator {
  import opened Wrappers
  import opened Transactions
  import opened OperatorDatabase

  datatype Settings = Settings(cfg: Config, key: Key, idx: nat, kickoffs: nat)

  /** The i32 column bounds the number of kickoffs in a transaction. */
  predicate Usable(o: Settings) {
    o.kickoffs < 0x8000_0000 && o.idx < |o.cfg.operators| && o.cfg.operators[o.idx] == o.key
  }

  function KickoffCost(kickoffs: nat): nat {
    KICKOFF_UTXO_AMOUNT_SATS * kickoffs + KickoffMinRelayFee(kickoffs) + 330
  }

  /** The operator's own address: its key, no scripts. */
  function OperatorScript(key: Key): Script {
    Taproot(Some(key), [])
  }

  function FirstFunding(o: Settings, sent: OutPoint): Utxo {
    Utxo(sent, TxOut(200_000_000, OperatorScript(o.key)))
  }

  // new_deposit as a function of the tables.

  function Generator(o: Settings, funding: Utxo): Tx
    requires funding.txout.value >= KickoffCost(o.kickoffs)
  {
    KickoffTx(funding, o.cfg.nofn, o.key, o.kickoffs, funding.txout.value - KickoffCost(o.kickoffs)).tx
  }

  /** The branch that makes a new generator transaction out of the latest funding UTXO. */
  function Generate(o: Settings, t: Tables, deposit: OutPoint): (Tables, Result<Utxo, Error>)
    requires Usable(o)
  {
    if t.funding == [] then (t, Failure(OperatorFundingUtxoNotFound))
    else
      var funding := t.funding[|t.funding| - 1];
      if funding.txout.value < KickoffCost(o.kickoffs) then (t, Failure(OperatorFundingUtxoAmountNotEnough))
      else
        var tx := Generator(o, funding);
        if o.kickoffs < 1 || FindGenerator(t.generators, Id(tx)).Some? then (t, Failure(DatabaseError))
        else
          (Tables(t.generators + [GeneratorRow(Id(tx), tx, o.kickoffs, 1, funding.outpoint.txid)],
                  t.kickoffs[deposit := OutputOf(tx, 0)],
                  t.funding + [OutputOf(tx, o.kickoffs)]),
           Success(OutputOf(tx, 0)))
  }

  function Assign(o: Settings, t: Tables, deposit: OutPoint, depositValid: bool): (Tables, Result<Utxo, Error>)
    requires Usable(o)
  {
    if !depositValid then (t, Failure(InvalidDeposit))
    else if deposit in t.kickoffs then (t, Success(t.kickoffs[deposit]))
    else
      var (taken, unused) := TakeUnused(t);
      match unused
      case Failure(e) => (t, Failure(e))
      case Success(Some(u)) => (taken.(kickoffs := t.kickoffs[deposit := u]), Success(u))
      case Success(None) => Generate(o, t, deposit)
  }

  // withdrawal_proved_on_citrea as a function of the tables and the node's transactions.

  const MAX_ITERATIONS: nat := 25

  /** The transactions to send, oldest first, for a walk with `n` iterations left. */
  function Walk(rows: seq<GeneratorRow>, known: set<Txid>, txid: Txid, n: nat): Result<seq<Tx>, Error>
    decreases n
  {
    if n == 0 then Failure(KickoffGeneratorTxsTooManyIterations)
    else if txid in known then Success([])
    else
      var found := FindGenerator(rows, txid);
      if found.None? then Failure(KickoffGeneratorTxNotFound)
      else
        var earlier :- Walk(rows, known, found.value.fundingTxid, n - 1);
        Success(earlier + [found.value.tx])
  }

  function Reversed<T>(s: seq<T>): seq<T> {
    if s == [] then [] else Reversed(s[1..]) + [s[0]]
  }

  lemma {:induction false} ReversedSnoc<T>(s: seq<T>, x: T)
    ensures Reversed(s + [x]) == [x] + Reversed(s)
  {
    if s != [] {
      assert (s + [x])[1..] == s[1..] + [x];
      ReversedSnoc(s[1..], x);
    }
  }

  function AndThen(walk: Result<seq<Tx>, Error>, later: seq<Tx>): Result<seq<Tx>, Error> {
    if walk.Success? then Success(walk.value + later) else walk
  }

  class Operator {
    const settings: Settings
    const db: Database

    predicate Valid() {
      Usable(settings)
    }

    /** On first start the node's wallet sends two bitcoins to the operator, at outpoint `sent`. */
    constructor (settings: Settings, db: Database, sent: OutPoint)
      requires Usable(settings)
      modifies db
      ensures Valid() && this.settings == settings && this.db == db
      ensures db.View() == if old(db.funding) == [] then old(db.View()).(funding := [FirstFunding(settings, sent)])
                           else old(db.View())
    {
      this.settings := settings;
      this.db := db;
      new;
      var funding := db.GetFundingUtxo();
      if funding.None? {
        db.SetFundingUtxo(FirstFunding(settings, sent));
      }
    }

    /** `depositValid` is the node's answer about the deposit. */
    method NewDeposit(deposit: OutPoint, depositValid: bool) returns (r: Result<Utxo, Error>)
      requires Valid()
      modifies db
      ensures (db.View(), r) == Assign(settings, old(db.View()), deposit, depositValid)
    {
      if !depositValid {
        return Failure(InvalidDeposit);
      }
      var saved := db.View();
      var existing := db.GetKickoffUtxo(deposit);
      if existing.Some? {
        return Success(existing.value);
      }
      var unused := db.GetUnusedKickoffUtxoAndIncreaseIdx();
      if unused.Failure? {
        db.Rollback(saved);
        return Failure(unused.error);
      }
      if unused.value.Some? {
        var ok := db.SaveKickoffUtxo(deposit, unused.value.value);
        return Success(unused.value.value);
      }
      r := GenerateKickoffs(deposit);
    }

    /** The last branch of new_deposit; it undoes its own writes when it fails. */
    method GenerateKickoffs(deposit: OutPoint) returns (r: Result<Utxo, Error>)
      requires Valid() && deposit !in db.kickoffs
      modifies db
      ensures (db.View(), r) == Generate(settings, old(db.View()), deposit)
    {
      hide KickoffOutputs, TxIns, KickoffScript;
      var saved := db.View();
      var funding := db.GetFundingUtxo();
      if funding.None? {
        return Failure(OperatorFundingUtxoNotFound);
      }
      var k := settings.kickoffs;
      var fee := if k <= 250 then 154 + 43 * k else 156 + 43 * k;
      if funding.value.txout.value < KICKOFF_UTXO_AMOUNT_SATS * k + fee + 330 {
        return Failure(OperatorFundingUtxoAmountNotEnough);
      }
      var handler := CreateKickoffUtxoTx(funding.value, settings.cfg.nofn, settings.key, k);
      var tx := handler.value.tx;
      var change := OutputOf(tx, k);
      var kickoff := OutputOf(tx, 0);
      var ok := db.SaveKickoffUtxo(deposit, kickoff);
      ok := db.AddDepositKickoffGeneratorTx(Id(tx), tx, k, funding.value.outpoint.txid);
      if !ok {
        db.Rollback(saved);
        return Failure(DatabaseError);
      }
      db.SetFundingUtxo(change);
      r := Success(kickoff);
    }

    method SetFundingUtxo(funding: Utxo)
      modifies db
      ensures db.View() == old(db.View()).(funding := old(db.funding) + [funding])
    {
      db.SetFundingUtxo(funding);
    }

    /**
     `proved` is Citrea's answer about the withdrawal, `known` the transactions the node
     has, and the two flags say whether the N-of-N signatures of the kickoff are stored.
    */
    method WithdrawalProvedOnCitrea(deposit: OutPoint, proved: bool, known: set<Txid>, slashSigned: bool,
                                    takesSigned: bool)
      returns (r: Result<seq<Tx>, Error>)
      requires Valid()
      ensures r == ToBroadcast(settings, db.View(), deposit, proved, known, slashSigned, takesSigned)
    {
      if !proved {
        return Failure(InvalidWithdrawal);
      }
      var stored := db.GetKickoffUtxo(deposit);
      if stored.None? {
        return Failure(KickoffOutpointsNotFound);
      }
      var kickoff := stored.value;
      var txsToBeSent: seq<Tx> := [];
      var currentSearchingTxid := kickoff.outpoint.txid;
      var foundTxid := false;
      ghost var walk := Walk(db.generators, known, kickoff.outpoint.txid, MAX_ITERATIONS);
      AndThenNothing(walk);
      for i := 0 to MAX_ITERATIONS
        invariant !foundTxid
        invariant walk == AndThen(Walk(db.generators, known, currentSearchingTxid, MAX_ITERATIONS - i),
                                  Reversed(txsToBeSent))
      {
        if currentSearchingTxid in known {
          foundTxid := true;
          assert [] + Reversed(txsToBeSent) == Reversed(txsToBeSent);
          assert walk == Success(Reversed(txsToBeSent));
          break;
        }
        var found := FindGenerator(db.generators, currentSearchingTxid);
        if found.None? {
          return Failure(KickoffGeneratorTxNotFound);
        }
        ReversedSnoc(txsToBeSent, found.value.tx);
        WalkStep(db.generators, known, currentSearchingTxid, MAX_ITERATIONS - i, Reversed(txsToBeSent));
        txsToBeSent := txsToBeSent + [found.value.tx];
        currentSearchingTxid := found.value.fundingTxid;
      }
      txsToBeSent := Reversed(txsToBeSent);
      if !foundTxid {
        return Failure(KickoffGeneratorTxsTooManyIterations);
      }
      var slash := CreateSlashOrTakeTx(deposit, kickoff, settings.key, settings.idx, settings.cfg);
      if slash.None? {
        return Failure(Panicked);
      }
      if !slashSigned {
        return Failure(OperatorSlashOrTakeSigNotFound);
      }
      txsToBeSent := txsToBeSent + [slash.value.tx];
      var moveTx := CreateMoveTx(deposit, settings.cfg);
      if moveTx.None? || settings.idx >= |settings.cfg.wallets| {
        return Failure(Panicked);
      }
      var takes := CreateOperatorTakesTx(OutPoint(Id(moveTx.value), 0), OutputOf(slash.value.tx, 0), settings.key,
                                         settings.cfg, settings.cfg.wallets[settings.idx]);
      if takes.None? {
        return Failure(Panicked);
      }
      if !takesSigned {
        return Failure(OperatorTakesSigNotFound);
      }
      r := Success(txsToBeSent + [takes.value.tx]);
    }
  }

  lemma AndThenNothing(walk: Result<seq<Tx>, Error>)
    ensures AndThen(walk, Reversed([])) == walk
  {
    if walk.Success? {
      assert walk.value + [] == walk.value;
    }
  }

  lemma WalkStep(rows: seq<GeneratorRow>, known: set<Txid>, txid: Txid, n: nat, later: seq<Tx>)
    requires n > 0 && txid !in known && FindGenerator(rows, txid).Some?
    ensures var row := FindGenerator(rows, txid).value;
            AndThen(Walk(rows, known, txid, n), later)
            == AndThen(Walk(rows, known, row.fundingTxid, n - 1), [row.tx] + later)
  {
    var row := FindGenerator(rows, txid).value;
    var earlier := Walk(rows, known, row.fundingTxid, n - 1);
    if earlier.Success? {
      assert earlier.value + [row.tx] + later == earlier.value + ([row.tx] + later);
    }
  }

  function ToBroadcast(o: Settings, t: Tables, deposit: OutPoint, proved: bool, known: set<Txid>, slashSigned: bool,
                       takesSigned: bool)
    : Result<seq<Tx>, Error>
  {
    if !proved then Failure(InvalidWithdrawal)
    else if deposit !in t.kickoffs then Failure(KickoffOutpointsNotFound)
    else
      var kickoff := t.kickoffs[deposit];
      var generators :- Walk(t.generators, known, kickoff.outpoint.txid, MAX_ITERATIONS);
      var slash :- OrPanic(CreateSlashOrTakeTx(deposit, kickoff, o.key, o.idx, o.cfg));
      if !slashSigned then Failure(OperatorSlashOrTakeSigNotFound)
      else if o.idx >= |o.cfg.wallets| then Failure(Panicked)
      else
        var takes :- OrPanic(ReimbursementTx(deposit, kickoff, o.key, o.idx, o.cfg, o.cfg.wallets[o.idx]));
        if !takesSigned then Failure(OperatorTakesSigNotFound)
        else Success(generators + [slash.tx] + [takes.tx])
  }
}
