/** What withdrawal_proved_on_citrea returns: a list that can be broadcast in order. */
module FundingChain {
  import opened Wrappers
  import opened Transactions
  import opened OperatorDatabase
  import opened Operator
  import opened KickoffAllocation

  /** The `i`-th ancestor along the recorded funding links, while the rows last. */
  function Ancestor(rows: seq<GeneratorRow>, txid: Txid, i: nat): Option<Txid>
    decreases i
  {
    if i == 0 then Some(txid)
    else
      var row :- FindGenerator(rows, txid);
      Ancestor(rows, row.fundingTxid, i - 1)
  }

  ghost predicate KnownAncestor(rows: seq<GeneratorRow>, known: set<Txid>, txid: Txid, i: nat) {
    Ancestor(rows, txid, i).Some? && Ancestor(rows, txid, i).value in known
  }

  /** The walk finds a parent exactly when a known ancestor lies within its iterations. */
  lemma {:induction false} WalkFindsIff(rows: seq<GeneratorRow>, known: set<Txid>, txid: Txid, n: nat)
    ensures Walk(rows, known, txid, n).Success? <==> exists i: nat :: i < n && KnownAncestor(rows, known, txid, i)
    decreases n
  {
    if n > 0 && txid in known {
      assert KnownAncestor(rows, known, txid, 0);
    } else if n > 0 && FindGenerator(rows, txid).Some? {
      var parent := FindGenerator(rows, txid).value.fundingTxid;
      WalkFindsIff(rows, known, parent, n - 1);
      if i: nat :| i < n - 1 && KnownAncestor(rows, known, parent, i) {
        assert KnownAncestor(rows, known, txid, i + 1);
      }
      if i: nat :| i < n && KnownAncestor(rows, known, txid, i) {
        assert KnownAncestor(rows, known, parent, i - 1);
      }
    }
  }

  /** Twenty-five rows, each funded by the next one's transaction. */
  function LongChain(tx: Tx): seq<GeneratorRow> {
    seq(MAX_ITERATIONS, i requires 0 <= i < MAX_ITERATIONS => GeneratorRow(External(i), tx, 1, 1, External(i + 1)))
  }

  lemma {:induction false} LongChainAncestor(tx: Tx, i: nat, j: nat)
    requires i + j <= MAX_ITERATIONS
    ensures Ancestor(LongChain(tx), External(i), j) == Some(External(i + j))
    decreases j
  {
    if j > 0 {
      var rows := LongChain(tx);
      assert rows[i] in rows && rows[i].txid == External(i);
      var row := FindGenerator(rows, External(i)).value;
      var k :| 0 <= k < |rows| && rows[k] == row;
      LongChainAncestor(tx, i + 1, j - 1);
    }
  }

  /** A failing input: a parent that is known, but twenty-five links away. */
  lemma TwentyFiveLinksAreTooMany(tx: Tx)
    ensures KnownAncestor(LongChain(tx), {External(25)}, External(0), 25)
    ensures Walk(LongChain(tx), {External(25)}, External(0), MAX_ITERATIONS)
            == Failure(KickoffGeneratorTxsTooManyIterations)
  {
    var rows, known := LongChain(tx), {External(25)};
    LongChainAncestor(tx, 0, 25);
    WalkFindsIff(rows, known, External(0), MAX_ITERATIONS);
    forall i: nat | i < MAX_ITERATIONS ensures !KnownAncestor(rows, known, External(0), i) {
      LongChainAncestor(tx, 0, i);
    }
    WalkFailsBecause(rows, known, External(0), MAX_ITERATIONS);
  }

  /** Why it fails otherwise: an ancestor within reach has no row, or none was reached. */
  lemma {:induction false} WalkFailsBecause(rows: seq<GeneratorRow>, known: set<Txid>, txid: Txid, n: nat)
    requires Walk(rows, known, txid, n).Failure?
    ensures Walk(rows, known, txid, n)
            == Failure(if Ancestor(rows, txid, n).Some? then KickoffGeneratorTxsTooManyIterations
                       else KickoffGeneratorTxNotFound)
    decreases n
  {
    if n > 0 && FindGenerator(rows, txid).Some? {
      WalkFailsBecause(rows, known, FindGenerator(rows, txid).value.fundingTxid, n - 1);
    }
  }

  /** Each transaction in turn spends only transactions that are known by then. */
  ghost predicate Broadcastable(txs: seq<Tx>, known: set<Txid>)
    decreases |txs|
  {
    txs == [] ||
    (&& (forall i :: 0 <= i < |txs[0].inputs| ==> txs[0].inputs[i].previousOutput.txid in known)
     && Broadcastable(txs[1..], known + {Id(txs[0])}))
  }

  function Ids(txs: seq<Tx>): set<Txid> {
    set tx | tx in txs :: Id(tx)
  }

  lemma {:induction false} BroadcastableSnoc(txs: seq<Tx>, tx: Tx, known: set<Txid>)
    requires Broadcastable(txs, known)
    requires forall i :: 0 <= i < |tx.inputs| ==> tx.inputs[i].previousOutput.txid in known + Ids(txs)
    ensures Broadcastable(txs + [tx], known)
    decreases |txs|
  {
    if txs == [] {
      assert (txs + [tx])[1..] == [];
    } else {
      assert known + Ids(txs) == known + {Id(txs[0])} + Ids(txs[1..]);
      assert (txs + [tx])[1..] == txs[1..] + [tx];
      BroadcastableSnoc(txs[1..], tx, known + {Id(txs[0])});
    }
  }

  /**
   The walk's list: it can be broadcast in order, nothing in it was known, the first one
   spends a known transaction, each of the others its predecessor, and the last one is the
   transaction asked for.
  */
  ghost predicate Chain(txs: seq<Tx>, known: set<Txid>, txid: Txid) {
    && Broadcastable(txs, known)
    && (forall k :: 0 <= k < |txs| ==> Id(txs[k]) !in known && |txs[k].inputs| == 1)
    && (forall k :: 0 < k < |txs| ==> txs[k].inputs[0].previousOutput.txid == Id(txs[k - 1]))
    && (txs != [] ==> txs[0].inputs[0].previousOutput.txid in known)
    && (if txs == [] then txid in known else Id(txs[|txs| - 1]) == txid)
  }

  lemma ChainSnoc(txs: seq<Tx>, tx: Tx, known: set<Txid>, parent: Txid)
    requires Chain(txs, known, parent) && |tx.inputs| == 1 && tx.inputs[0].previousOutput.txid == parent
    requires Id(tx) !in known
    ensures Chain(txs + [tx], known, Id(tx))
  {
    if txs != [] {
      assert txs[|txs| - 1] in txs && Id(txs[|txs| - 1]) in Ids(txs);
    }
    BroadcastableSnoc(txs, tx, known);
  }

  lemma FoundRow(o: Settings, rows: seq<GeneratorRow>, txid: Txid)
    requires RowsOk(o, rows) && FindGenerator(rows, txid).Some?
    ensures var row := FindGenerator(rows, txid).value;
            && Id(row.tx) == txid && |row.tx.inputs| == 1
            && row.tx.inputs[0].previousOutput.txid == row.fundingTxid
  {
    var row := FindGenerator(rows, txid).value;
    var g :| 0 <= g < |rows| && rows[g] == row;
    assert RowOk(o, rows[g]);
  }

  lemma {:induction false} WalkReturnsChain(o: Settings, rows: seq<GeneratorRow>, known: set<Txid>, txid: Txid, n: nat)
    requires RowsOk(o, rows) && Walk(rows, known, txid, n).Success?
    ensures Chain(Walk(rows, known, txid, n).value, known, txid)
    decreases n
  {
    if txid !in known {
      hide RowsOk, FindGenerator, Chain;
      var row := FindGenerator(rows, txid).value;
      FoundRow(o, rows, txid);
      WalkReturnsChain(o, rows, known, row.fundingTxid, n - 1);
      ChainSnoc(Walk(rows, known, row.fundingTxid, n - 1).value, row.tx, known, row.fundingTxid);
    } else {
      assert Chain([], known, txid);
    }
  }

  ghost predicate Stored(rows: seq<GeneratorRow>, tx: Tx) {
    exists g :: 0 <= g < |rows| && rows[g].tx == tx
  }

  lemma {:induction false} WalkReturnsStored(rows: seq<GeneratorRow>, known: set<Txid>, txid: Txid, n: nat, k: nat)
    requires Walk(rows, known, txid, n).Success? && k < |Walk(rows, known, txid, n).value|
    ensures Stored(rows, Walk(rows, known, txid, n).value[k])
    decreases n
  {
    var row := FindGenerator(rows, txid).value;
    assert row in rows;
    assert Stored(rows, row.tx);
    hide FindGenerator, Stored;
    var earlier := Walk(rows, known, row.fundingTxid, n - 1).value;
    if k < |earlier| {
      WalkReturnsStored(rows, known, row.fundingTxid, n - 1, k);
    }
  }

  /** The full result: a chain for the kickoff, then slash_or_take, then operator_takes. */
  ghost predicate Deliverable(txs: seq<Tx>, known: set<Txid>, kickoff: OutPoint, moveTxid: Txid) {
    |txs| >= 2 && Broadcastable(txs, known) &&
    var n := |txs| - 2;
    && Chain(txs[..n], known, kickoff.txid)
    && |txs[n].inputs| == 1 && txs[n].inputs[0].previousOutput == kickoff
    && |txs[n + 1].inputs| == 2
    && txs[n + 1].inputs[0].previousOutput == OutPoint(moveTxid, 0)
    && txs[n + 1].inputs[1].previousOutput == OutPoint(Id(txs[n]), 0)
  }

  lemma TailIsDeliverable(generators: seq<Tx>, slash: Tx, takes: Tx, known: set<Txid>, kickoff: OutPoint,
                          moveTxid: Txid)
    requires Chain(generators, known, kickoff.txid) && moveTxid in known
    requires |slash.inputs| == 1 && slash.inputs[0].previousOutput == kickoff
    requires |takes.inputs| == 2 && takes.inputs[0].previousOutput == OutPoint(moveTxid, 0)
    requires takes.inputs[1].previousOutput == OutPoint(Id(slash), 0)
    ensures Deliverable(generators + [slash] + [takes], known, kickoff, moveTxid)
  {
    ChainEnd(generators, known, kickoff.txid);
    var before := generators + [slash];
    assert Id(slash) in Ids(before) by {
      assert before[|generators|] == slash;
    }
    hide Broadcastable, Chain, Ids;
    BroadcastableSnoc(generators, slash, known);
    BroadcastableSnoc(before, takes, known);
    var all := before + [takes];
    assert all[..|generators|] == generators && all[|generators|] == slash && all[|generators| + 1] == takes;
  }

  lemma ChainEnd(txs: seq<Tx>, known: set<Txid>, txid: Txid)
    requires Chain(txs, known, txid)
    ensures Broadcastable(txs, known) && txid in known + Ids(txs)
  {
    if txs != [] {
      assert txs[|txs| - 1] in txs;
    }
  }

  lemma TailInputs(o: Settings, deposit: OutPoint, kickoff: Utxo, wallet: Script)
    requires ReimbursementTx(deposit, kickoff, o.key, o.idx, o.cfg, wallet).Some?
    ensures var slash := CreateSlashOrTakeTx(deposit, kickoff, o.key, o.idx, o.cfg).value.tx;
            var takes := ReimbursementTx(deposit, kickoff, o.key, o.idx, o.cfg, wallet).value.tx;
            && |slash.inputs| == 1 && slash.inputs[0].previousOutput == kickoff.outpoint
            && |takes.inputs| == 2
            && takes.inputs[0].previousOutput == OutPoint(Id(CreateMoveTx(deposit, o.cfg).value), 0)
            && takes.inputs[1].previousOutput == OutPoint(Id(slash), 0)
  {
  }

  /** Whenever the call succeeds and the move transaction is known, its list can be sent in order. */
  lemma ResultIsBroadcastable(o: Settings, t: Tables, deposit: OutPoint, known: set<Txid>, slashSigned: bool,
                              takesSigned: bool)
    requires Usable(o) && Invariant(o, t)
    requires ToBroadcast(o, t, deposit, true, known, slashSigned, takesSigned).Success?
    requires CreateMoveTx(deposit, o.cfg).Some? ==> Id(CreateMoveTx(deposit, o.cfg).value) in known
    ensures CreateMoveTx(deposit, o.cfg).Some?
    ensures Deliverable(ToBroadcast(o, t, deposit, true, known, slashSigned, takesSigned).value, known,
                        t.kickoffs[deposit].outpoint, Id(CreateMoveTx(deposit, o.cfg).value))
  {
    var kickoff := t.kickoffs[deposit];
    TailInputs(o, deposit, kickoff, o.cfg.wallets[o.idx]);
    WalkReturnsChain(o, t.generators, known, kickoff.outpoint.txid, MAX_ITERATIONS);
    assert CreateMoveTx(deposit, o.cfg).Some?;
    hide Invariant, Walk, Chain, Deliverable, CreateSlashOrTakeTx, CreateOperatorTakesTx, CreateMoveTx;
    TailIsDeliverable(Walk(t.generators, known, kickoff.outpoint.txid, MAX_ITERATIONS).value,
                      CreateSlashOrTakeTx(deposit, kickoff, o.key, o.idx, o.cfg).value.tx,
                      ReimbursementTx(deposit, kickoff, o.key, o.idx, o.cfg, o.cfg.wallets[o.idx]).value.tx,
                      known, kickoff.outpoint, Id(CreateMoveTx(deposit, o.cfg).value));
  }

  // When the call succeeds, and what it returns.

  /** A kickoff that a verifier would accept and amounts the builders can handle. */
  predicate Payable(o: Settings) {
    o.cfg.bridgeAmount >= 520 && KICKOFF_UTXO_AMOUNT_SATS + o.cfg.bridgeAmount < 0x1_0000_0000_0000_0000 + 570
  }

  lemma KickoffIsPayable(o: Settings, t: Tables, deposit: OutPoint, wallet: Script)
    requires Usable(o) && Invariant(o, t) && deposit in t.kickoffs
    ensures CreateSlashOrTakeTx(deposit, t.kickoffs[deposit], o.key, o.idx, o.cfg).Some? <==> o.cfg.bridgeAmount >= 520
    ensures ReimbursementTx(deposit, t.kickoffs[deposit], o.key, o.idx, o.cfg, wallet).Some? <==> Payable(o)
  {
    hide Invariant, CreateSlashOrTakeTx, ReimbursementTx, CreateMoveTx, HandedOut;
    AssignedIsKickoff(o, t, deposit);
    var kickoff := t.kickoffs[deposit];
    SlashOrTakeTxConserves(deposit, kickoff, o.key, o.idx, o.cfg);
    ReimbursementBuiltIff(deposit, kickoff, o.key, o.idx, o.cfg, wallet);
  }

  ghost predicate AncestorWithin(rows: seq<GeneratorRow>, known: set<Txid>, txid: Txid, n: nat) {
    exists i: nat :: i < n && KnownAncestor(rows, known, txid, i)
  }

  /**
   On reachable tables the call succeeds exactly when the withdrawal is proved, the deposit
   has a kickoff, a known ancestor of it lies within 24 links, both N-of-N signatures are
   stored, the operator has a wallet and the amounts fit.
  */
  lemma WithdrawalSucceedsIff(o: Settings, t: Tables, deposit: OutPoint, proved: bool, known: set<Txid>,
                              slashSigned: bool, takesSigned: bool)
    requires Usable(o) && Invariant(o, t)
    ensures ToBroadcast(o, t, deposit, proved, known, slashSigned, takesSigned).Success?
            <==> && proved && deposit in t.kickoffs
                 && AncestorWithin(t.generators, known, t.kickoffs[deposit].outpoint.txid, 25)
                 && slashSigned && takesSigned && o.idx < |o.cfg.wallets| && Payable(o)
  {
    hide Invariant, Walk, CreateSlashOrTakeTx, ReimbursementTx, KnownAncestor;
    if deposit in t.kickoffs {
      WalkFindsIff(t.generators, known, t.kickoffs[deposit].outpoint.txid, MAX_ITERATIONS);
      KickoffIsPayable(o, t, deposit, if o.idx < |o.cfg.wallets| then o.cfg.wallets[o.idx] else AnyoneCanSpend);
    }
  }

  /** The error it ends in otherwise, the first of these that applies. */
  lemma WithdrawalFailsWith(o: Settings, t: Tables, deposit: OutPoint, proved: bool, known: set<Txid>,
                            slashSigned: bool, takesSigned: bool)
    requires Usable(o) && Invariant(o, t)
    ensures var r := ToBroadcast(o, t, deposit, proved, known, slashSigned, takesSigned);
            && (!proved ==> r == Failure(InvalidWithdrawal))
            && (proved && deposit !in t.kickoffs ==> r == Failure(KickoffOutpointsNotFound))
            && (proved && deposit in t.kickoffs ==>
                  var txid := t.kickoffs[deposit].outpoint.txid;
                  && (!AncestorWithin(t.generators, known, txid, 25) ==>
                        r == Failure(if Ancestor(t.generators, txid, 25).Some? then KickoffGeneratorTxsTooManyIterations
                                     else KickoffGeneratorTxNotFound))
                  && (AncestorWithin(t.generators, known, txid, 25) ==>
                        && (o.cfg.bridgeAmount < 520 ==> r == Failure(Panicked))
                        && (o.cfg.bridgeAmount >= 520 && !slashSigned ==> r == Failure(OperatorSlashOrTakeSigNotFound))
                        && (slashSigned && !(o.idx < |o.cfg.wallets| && Payable(o)) ==> r == Failure(Panicked))
                        && (slashSigned && o.idx < |o.cfg.wallets| && Payable(o) && !takesSigned ==>
                              r == Failure(OperatorTakesSigNotFound))))
  {
    hide Invariant, Walk, CreateSlashOrTakeTx, ReimbursementTx, KnownAncestor, Ancestor;
    if deposit in t.kickoffs {
      var txid := t.kickoffs[deposit].outpoint.txid;
      WalkFindsIff(t.generators, known, txid, MAX_ITERATIONS);
      if Walk(t.generators, known, txid, MAX_ITERATIONS).Failure? {
        WalkFailsBecause(t.generators, known, txid, MAX_ITERATIONS);
      }
      KickoffIsPayable(o, t, deposit, if o.idx < |o.cfg.wallets| then o.cfg.wallets[o.idx] else AnyoneCanSpend);
    }
  }

  /** The last two transactions are the ones whose messages the verifiers sign for this operator. */
  lemma ResultIsWhatWasSigned(o: Settings, t: Tables, deposit: OutPoint, known: set<Txid>)
    requires Usable(o) && Invariant(o, t)
    requires ToBroadcast(o, t, deposit, true, known, true, true).Success?
    ensures var txs := ToBroadcast(o, t, deposit, true, known, true, true).value;
            var kickoff := t.kickoffs[deposit];
            var n := |txs| - 2;
            && n >= 0
            && SlashSighash(o.cfg, deposit, kickoff, o.idx).Some? && TakesSighash(o.cfg, deposit, kickoff, o.idx).Some?
            && SlashSighash(o.cfg, deposit, kickoff, o.idx).value.tx == txs[n]
            && TakesSighash(o.cfg, deposit, kickoff, o.idx).value.tx == txs[n + 1]
            && txs[..n] == Walk(t.generators, known, kickoff.outpoint.txid, MAX_ITERATIONS).value
  {
    hide Invariant, Walk, CreateSlashOrTakeTx, ReimbursementTx, SlashSighash, TakesSighash;
    var kickoff := t.kickoffs[deposit];
    assert o.idx < |o.cfg.wallets|;
    MessagesOfBuilt(o, deposit, kickoff);
    var txs := ToBroadcast(o, t, deposit, true, known, true, true).value;
    assert txs[..|txs| - 2] == Walk(t.generators, known, kickoff.outpoint.txid, MAX_ITERATIONS).value;
  }

  lemma MessagesOfBuilt(o: Settings, deposit: OutPoint, kickoff: Utxo)
    requires Usable(o) && o.idx < |o.cfg.wallets|
    ensures var slash := CreateSlashOrTakeTx(deposit, kickoff, o.key, o.idx, o.cfg);
            slash.Some? ==> SlashSighash(o.cfg, deposit, kickoff, o.idx).Some?
                            && SlashSighash(o.cfg, deposit, kickoff, o.idx).value.tx == slash.value.tx
    ensures var takes := ReimbursementTx(deposit, kickoff, o.key, o.idx, o.cfg, o.cfg.wallets[o.idx]);
            takes.Some? ==> TakesSighash(o.cfg, deposit, kickoff, o.idx).Some?
                            && TakesSighash(o.cfg, deposit, kickoff, o.idx).value.tx == takes.value.tx
  {
  }

  // Acyclicity.

  /** How many transactions lie below a txid along first inputs. */
  function Height(txid: Txid): nat {
    match txid
    case External(_) => 0
    case Id(tx) => if tx.inputs == [] then 0 else 1 + Height(tx.inputs[0].previousOutput.txid)
  }

  lemma {:induction false} AncestorsDescend(o: Settings, rows: seq<GeneratorRow>, txid: Txid, i: nat)
    requires RowsOk(o, rows) && Ancestor(rows, txid, i).Some?
    ensures Height(Ancestor(rows, txid, i).value) + i <= Height(txid)
    decreases i
  {
    if i > 0 {
      var row := FindGenerator(rows, txid).value;
      var g :| 0 <= g < |rows| && rows[g] == row;
      assert RowOk(o, rows[g]);
      AncestorsDescend(o, rows, row.fundingTxid, i - 1);
    }
  }

  lemma {:induction false} AncestorAdds(rows: seq<GeneratorRow>, txid: Txid, i: nat, j: nat)
    requires Ancestor(rows, txid, i).Some?
    ensures Ancestor(rows, txid, i + j) == Ancestor(rows, Ancestor(rows, txid, i).value, j)
    decreases i
  {
    if i > 0 {
      AncestorAdds(rows, FindGenerator(rows, txid).value.fundingTxid, i - 1, j);
    }
  }

  /** The funding links never lead back: no transaction is its own ancestor. */
  lemma FundingLinksAreAcyclic(o: Settings, rows: seq<GeneratorRow>, txid: Txid, i: nat, j: nat)
    requires RowsOk(o, rows) && i < j && Ancestor(rows, txid, j).Some? && Ancestor(rows, txid, i).Some?
    ensures Ancestor(rows, txid, i) != Ancestor(rows, txid, j)
  {
    AncestorAdds(rows, txid, i, j - i);
    AncestorsDescend(o, rows, Ancestor(rows, txid, i).value, j - i);
  }

  // The links are change outputs.

  /** What the outputs of transactions from elsewhere really are. */
  type Ledger = OutPoint -> TxOut

  function OutputAt(ledger: Ledger, o: OutPoint): Option<TxOut> {
    match o.txid
    case External(_) => Some(ledger(o))
    case Id(tx) => if o.vout < |tx.outputs| then Some(tx.outputs[o.vout]) else None
  }

  /**
   A funding UTXO that carries the output its outpoint really has, at the operator's own
   address, as create_kickoff_utxo_tx asks of its caller.
  */
  ghost predicate Genuine(o: Settings, ledger: Ledger, u: Utxo) {
    OutputAt(ledger, u.outpoint) == Some(u.txout) && u.txout.script == OperatorScript(o.key)
  }

  /** The generator transaction made of a genuine funding UTXO. */
  ghost predicate SpendsGenuine(o: Settings, ledger: Ledger, tx: Tx) {
    |tx.inputs| == 1 &&
    var prev := tx.inputs[0].previousOutput;
    OutputAt(ledger, prev).Some? &&
    var u := Utxo(prev, OutputAt(ledger, prev).value);
    Genuine(o, ledger, u) && u.txout.value >= KickoffCost(o.kickoffs) && tx == Generator(o, u)
  }

  ghost predicate Linked(o: Settings, ledger: Ledger, t: Tables) {
    && (forall i :: 0 <= i < |t.funding| ==> Genuine(o, ledger, t.funding[i]))
    && (forall g :: 0 <= g < |t.generators| ==> SpendsGenuine(o, ledger, t.generators[g].tx))
  }

  ghost predicate GenuineCalls(o: Settings, ledger: Ledger, calls: seq<Call>) {
    forall i :: 0 <= i < |calls| ==> calls[i].SetFunding? ==> Genuine(o, ledger, calls[i].utxo)
  }

  lemma GeneratorIsLinked(o: Settings, ledger: Ledger, funding: Utxo)
    requires Usable(o) && funding.txout.value >= KickoffCost(o.kickoffs) && Genuine(o, ledger, funding)
    ensures SpendsGenuine(o, ledger, Generator(o, funding))
    ensures Genuine(o, ledger, OutputOf(Generator(o, funding), o.kickoffs))
  {
  }

  lemma StepKeepsLinked(o: Settings, ledger: Ledger, t: Tables, call: Call)
    requires Usable(o) && Linked(o, ledger, t) && (call.SetFunding? ==> Genuine(o, ledger, call.utxo))
    ensures Linked(o, ledger, Step(o, t, call))
  {
    hide Genuine, SpendsGenuine;
    if call.NewDeposit? && t.funding != [] {
      var funding := t.funding[|t.funding| - 1];
      if funding.txout.value >= KickoffCost(o.kickoffs) {
        GeneratorIsLinked(o, ledger, funding);
      }
    }
    hide Generator;
    match call
    case SetFunding(utxo) =>
    case NewDeposit(deposit, valid) =>
      var after := Step(o, t, call);
      forall g | 0 <= g < |after.generators| ensures SpendsGenuine(o, ledger, after.generators[g].tx) {
      }
  }

  lemma {:induction false} RunKeepsLinked(o: Settings, ledger: Ledger, t: Tables, calls: seq<Call>)
    requires Usable(o) && Linked(o, ledger, t) && GenuineCalls(o, ledger, calls)
    ensures Linked(o, ledger, Run(o, t, calls))
    decreases |calls|
  {
    hide Linked, Genuine;
    if calls != [] {
      StepKeepsLinked(o, ledger, t, calls[0]);
      RunKeepsLinked(o, ledger, Step(o, t, calls[0]), calls[1..]);
    }
  }

  /** `next` spends the change of `tx`, which covers its outputs and its fee exactly. */
  ghost predicate PaysFromChange(o: Settings, tx: Tx, next: Tx)
    requires Usable(o)
  {
    && |next.inputs| == 1 && o.kickoffs < |tx.outputs|
    && next.inputs[0].previousOutput == OutPoint(Id(tx), o.kickoffs)
    && tx.outputs[o.kickoffs].value == OutputSum(next.outputs) + KickoffMinRelayFee(o.kickoffs)
  }

  /** Of a generator's outputs only the change is at the operator's address. */
  lemma OnlyChangeIsOperators(o: Settings, tx: Tx, j: nat)
    requires GeneratorShape(o, tx) && j < |tx.outputs| && tx.outputs[j].script == OperatorScript(o.key)
    ensures j == o.kickoffs
  {
  }

  lemma GeneratorConserves(o: Settings, funding: Utxo)
    requires funding.txout.value >= KickoffCost(o.kickoffs)
    ensures funding.txout.value == OutputSum(Generator(o, funding).outputs) + KickoffMinRelayFee(o.kickoffs)
  {
    var change := funding.txout.value - KickoffCost(o.kickoffs);
    KickoffTxConserves(funding, o.cfg.nofn, o.key, o.kickoffs, change);
    var h := KickoffTx(funding, o.cfg.nofn, o.key, o.kickoffs, change);
    assert h.prevouts[1..] == [];
    assert OutputSum(h.prevouts) == funding.txout.value + OutputSum([]);
  }

  lemma LinkPaysFromChange(o: Settings, ledger: Ledger, tx: Tx, next: Tx)
    requires Usable(o) && GeneratorShape(o, tx) && SpendsGenuine(o, ledger, next)
    requires next.inputs[0].previousOutput.txid == Id(tx)
    ensures PaysFromChange(o, tx, next)
  {
    var prev := next.inputs[0].previousOutput;
    assert tx.outputs[prev.vout].script == OperatorScript(o.key);
    OnlyChangeIsOperators(o, tx, prev.vout);
    GeneratorConserves(o, Utxo(prev, tx.outputs[prev.vout]));
  }

  lemma StoredFacts(o: Settings, ledger: Ledger, t: Tables, tx: Tx)
    requires Invariant(o, t) && Linked(o, ledger, t) && Stored(t.generators, tx)
    ensures GeneratorShape(o, tx) && SpendsGenuine(o, ledger, tx)
  {
    hide GeneratorShape, OneToOne, SpendsGenuine;
    var g :| 0 <= g < |t.generators| && t.generators[g].tx == tx;
    assert RowOk(o, t.generators[g]);
  }

  lemma ChainLink(txs: seq<Tx>, known: set<Txid>, txid: Txid, k: nat)
    requires Chain(txs, known, txid) && 0 < k < |txs|
    ensures |txs[k].inputs| == 1 && txs[k].inputs[0].previousOutput.txid == Id(txs[k - 1])
  {
    hide Broadcastable;
  }

  /**
   Over every run whose funding UTXOs are genuine: in the list the walk returns, each
   generator spends output `kickoffs`, the change, of its predecessor, and the change
   carries what the generator pays out plus its fee.
  */
  lemma ChainSpendsChange(o: Settings, ledger: Ledger, funding: Utxo, calls: seq<Call>, known: set<Txid>, txid: Txid,
                          k: nat)
    requires Usable(o) && Genuine(o, ledger, funding) && GenuineCalls(o, ledger, calls)
    requires var walk := Walk(Run(o, Tables([], map[], [funding]), calls).generators, known, txid, MAX_ITERATIONS);
             walk.Success? && 0 < k < |walk.value|
    ensures var txs := Walk(Run(o, Tables([], map[], [funding]), calls).generators, known, txid, MAX_ITERATIONS).value;
            PaysFromChange(o, txs[k - 1], txs[k])
  {
    var start := Tables([], map[], [funding]);
    EmptyTablesHoldInvariant(o, [funding]);
    assert Linked(o, ledger, start);
    hide Invariant, Linked, Walk, PaysFromChange, Genuine, GenuineCalls, Stored, Chain, GeneratorShape, SpendsGenuine;
    RunKeeps(o, start, calls);
    RunKeepsLinked(o, ledger, start, calls);
    var t := Run(o, start, calls);
    var txs := Walk(t.generators, known, txid, MAX_ITERATIONS).value;
    WalkReturnsChain(o, t.generators, known, txid, MAX_ITERATIONS);
    ChainLink(txs, known, txid, k);
    WalkReturnsStored(t.generators, known, txid, MAX_ITERATIONS, k - 1);
    WalkReturnsStored(t.generators, known, txid, MAX_ITERATIONS, k);
    StoredFacts(o, ledger, t, txs[k - 1]);
    StoredFacts(o, ledger, t, txs[k]);
    LinkPaysFromChange(o, ledger, txs[k - 1], txs[k]);
  }

  /**
   Over the same runs no two stored generator transactions spend the same output, so none
   keeps another's kickoffs from being confirmed.
  */
  lemma GeneratorsSpendDistinctOutputs(o: Settings, ledger: Ledger, funding: Utxo, calls: seq<Call>, g: nat, h: nat)
    requires Usable(o) && Genuine(o, ledger, funding) && GenuineCalls(o, ledger, calls)
    requires g < h < |Run(o, Tables([], map[], [funding]), calls).generators|
    ensures var rows := Run(o, Tables([], map[], [funding]), calls).generators;
            && |rows[g].tx.inputs| == |rows[h].tx.inputs| == 1
            && rows[g].tx.inputs[0].previousOutput != rows[h].tx.inputs[0].previousOutput
  {
    var start := Tables([], map[], [funding]);
    EmptyTablesHoldInvariant(o, [funding]);
    hide Genuine, GenuineCalls, OneToOne, GeneratorShape;
    RunKeeps(o, start, calls);
    RunKeepsLinked(o, ledger, start, calls);
    hide Generator, Run;
    var rows := Run(o, start, calls).generators;
    assert RowOk(o, rows[g]) && RowOk(o, rows[h]);
    assert SpendsGenuine(o, ledger, rows[g].tx) && SpendsGenuine(o, ledger, rows[h].tx);
  }

  // Exactly when the generators stay apart.

  /** The output a stored generator transaction spends. */
  function Spends(row: GeneratorRow): Option<OutPoint> {
    if |row.tx.inputs| == 1 then Some(row.tx.inputs[0].previousOutput) else None
  }

  ghost predicate DistinctInputs(rows: seq<GeneratorRow>) {
    forall g, h :: 0 <= g < h < |rows| ==> Spends(rows[g]) != Spends(rows[h])
  }

  ghost predicate AlreadySpent(rows: seq<GeneratorRow>, at: OutPoint) {
    exists g :: 0 <= g < |rows| && Spends(rows[g]) == Some(at)
  }

  /** The guards of new_deposit up to the insertion of a new row. */
  predicate Generates(o: Settings, t: Tables, call: Call)
    requires Usable(o)
  {
    && call.NewDeposit? && call.depositValid && call.deposit !in t.kickoffs
    && NewestOpen(t.generators).None? && t.funding != []
    && var funding := t.funding[|t.funding| - 1];
    && funding.txout.value >= KickoffCost(o.kickoffs) && o.kickoffs >= 1
    && FindGenerator(t.generators, Id(Generator(o, funding))).None?
  }

  /** The call would spend an output that a stored generator transaction spends. */
  ghost predicate SpendsAgain(o: Settings, t: Tables, call: Call)
    requires Usable(o)
  {
    Generates(o, t, call) && AlreadySpent(t.generators, t.funding[|t.funding| - 1].outpoint)
  }

  /** What a call does to the stored transactions: nothing, or one more at the end. */
  lemma StepRows(o: Settings, t: Tables, call: Call)
    requires Usable(o)
    ensures var rows, rows' := t.generators, Step(o, t, call).generators;
            && |rows'| == |rows| + (if Generates(o, t, call) then 1 else 0)
            && (forall g :: 0 <= g < |rows| ==> rows'[g].tx == rows[g].tx)
            && (Generates(o, t, call) ==> Spends(rows'[|rows|]) == Some(t.funding[|t.funding| - 1].outpoint))
  {
    hide NewestOpen, FindGenerator, KickoffCost;
    if call.NewDeposit? && t.funding != [] {
      var funding := t.funding[|t.funding| - 1];
      if funding.txout.value >= KickoffCost(o.kickoffs) {
        GeneratedShape(o, funding);
      }
    }
    hide Generator, OutputOf, GeneratorShape;
  }

  lemma AppendKeepsDistinctIff(rows: seq<GeneratorRow>, after: seq<GeneratorRow>, at: OutPoint)
    requires DistinctInputs(rows) && |after| == |rows| + 1 && Spends(after[|rows|]) == Some(at)
    requires forall g :: 0 <= g < |rows| ==> after[g].tx == rows[g].tx
    ensures DistinctInputs(after) <==> !AlreadySpent(rows, at)
  {
    if AlreadySpent(rows, at) {
      var g :| 0 <= g < |rows| && Spends(rows[g]) == Some(at);
      assert Spends(after[g]) == Spends(after[|rows|]);
    } else {
      forall g, h | 0 <= g < h < |after| ensures Spends(after[g]) != Spends(after[h]) {
        assert Spends(after[g]) == Spends(rows[g]);
        if h < |rows| {
          assert Spends(after[h]) == Spends(rows[h]);
        }
      }
    }
  }

  /** One step: the inputs stay apart exactly unless the call spends a spent funding outpoint. */
  lemma StepKeepsDistinctIff(o: Settings, t: Tables, call: Call)
    requires Usable(o) && DistinctInputs(t.generators)
    ensures DistinctInputs(Step(o, t, call).generators) <==> !SpendsAgain(o, t, call)
  {
    hide Step, Generates, AlreadySpent;
    StepRows(o, t, call);
    var rows, after := t.generators, Step(o, t, call).generators;
    if Generates(o, t, call) {
      assert t.funding != [] by { GeneratesHasFunding(o, t, call); }
      AppendKeepsDistinctIff(rows, after, t.funding[|t.funding| - 1].outpoint);
    } else {
      forall g, h | 0 <= g < h < |after| ensures Spends(after[g]) != Spends(after[h]) {
        assert Spends(after[g]) == Spends(rows[g]) && Spends(after[h]) == Spends(rows[h]);
      }
    }
  }

  lemma GeneratesHasFunding(o: Settings, t: Tables, call: Call)
    requires Usable(o) && Generates(o, t, call)
    ensures t.funding != []
  {
  }

  /** Two stored transactions that spend one output stay stored. */
  lemma {:induction false} OverlapStays(o: Settings, t: Tables, calls: seq<Call>)
    requires Usable(o) && !DistinctInputs(t.generators)
    ensures !DistinctInputs(Run(o, t, calls).generators)
    decreases |calls|
  {
    if calls != [] {
      var next := Step(o, t, calls[0]);
      assert !DistinctInputs(next.generators) by {
        hide Step, Generates;
        StepRows(o, t, calls[0]);
        var g, h :| 0 <= g < h < |t.generators| && Spends(t.generators[g]) == Spends(t.generators[h]);
        assert Spends(next.generators[g]) == Spends(next.generators[h]);
      }
      hide DistinctInputs, Step;
      OverlapStays(o, next, calls[1..]);
    }
  }

  /** Every call that generates finds its funding outpoint unspent by the transactions stored then. */
  ghost predicate FundingUnspent(o: Settings, t: Tables, calls: seq<Call>)
    requires Usable(o)
    decreases |calls|
  {
    calls == [] || (!SpendsAgain(o, t, calls[0]) && FundingUnspent(o, Step(o, t, calls[0]), calls[1..]))
  }

  /**
   Over every run, with no condition on the funding UTXOs: no two stored generator
   transactions spend one output exactly when every generating call found its funding
   outpoint unspent.
  */
  lemma {:induction false} RunKeepsDistinctIff(o: Settings, t: Tables, calls: seq<Call>)
    requires Usable(o) && DistinctInputs(t.generators)
    ensures DistinctInputs(Run(o, t, calls).generators) <==> FundingUnspent(o, t, calls)
    decreases |calls|
  {
    hide DistinctInputs, SpendsAgain, Step;
    if calls != [] {
      StepKeepsDistinctIff(o, t, calls[0]);
      var next := Step(o, t, calls[0]);
      if SpendsAgain(o, t, calls[0]) {
        OverlapStays(o, next, calls[1..]);
      } else {
        RunKeepsDistinctIff(o, next, calls[1..]);
      }
    }
  }

  // Exactly when a link is a change output.

  /** Every stored transaction was made of a UTXO of the funding table. */
  ghost predicate MadeOfFunding(o: Settings, t: Tables) {
    forall g :: 0 <= g < |t.generators| ==> MadeOfOne(o, t.generators[g].tx, t.funding)
  }

  ghost predicate MadeOfOne(o: Settings, tx: Tx, funding: seq<Utxo>) {
    exists i :: 0 <= i < |funding| && MadeOf(o, tx, funding[i])
  }

  ghost predicate MadeOf(o: Settings, tx: Tx, u: Utxo) {
    u.txout.value >= KickoffCost(o.kickoffs) && tx == Generator(o, u)
  }

  lemma StepKeepsMade(o: Settings, t: Tables, call: Call)
    requires Usable(o) && MadeOfFunding(o, t)
    ensures MadeOfFunding(o, Step(o, t, call))
  {
    var after := Step(o, t, call);
    assert t.funding <= after.funding;
    hide Generator, NewestOpen, FindGenerator, KickoffCost;
    StepRows(o, t, call);
    forall g | 0 <= g < |after.generators| ensures MadeOfOne(o, after.generators[g].tx, after.funding) {
      if g < |t.generators| {
        assert MadeOfOne(o, t.generators[g].tx, t.funding);
        var i :| 0 <= i < |t.funding| && MadeOf(o, t.generators[g].tx, t.funding[i]);
        assert MadeOf(o, after.generators[g].tx, after.funding[i]);
      } else {
        assert MadeOf(o, after.generators[g].tx, after.funding[|t.funding| - 1]);
      }
    }
  }

  lemma {:induction false} RunKeepsMade(o: Settings, t: Tables, calls: seq<Call>)
    requires Usable(o) && MadeOfFunding(o, t)
    ensures MadeOfFunding(o, Run(o, t, calls))
    decreases |calls|
  {
    hide MadeOfFunding, Step;
    if calls != [] {
      StepKeepsMade(o, t, calls[0]);
      RunKeepsMade(o, Step(o, t, calls[0]), calls[1..]);
    }
  }

  /** A transaction made of `u` pays from the change of `tx` exactly when `u` is that change, in place and value. */
  lemma PaysFromChangeIff(o: Settings, tx: Tx, next: Tx, u: Utxo)
    requires Usable(o) && MadeOf(o, next, u) && |tx.outputs| == o.kickoffs + 2
    ensures PaysFromChange(o, tx, next)
            <==> u.outpoint == OutPoint(Id(tx), o.kickoffs) && u.txout.value == tx.outputs[o.kickoffs].value
  {
    GeneratorConserves(o, u);
    GeneratedShape(o, u);
    hide KickoffCost, Generator;
  }

  /** `next` was made of `u`, and pays from the change of `tx` exactly when `u` names it and its value. */
  ghost predicate LinkedBy(o: Settings, tx: Tx, next: Tx, u: Utxo)
    requires Usable(o)
  {
    && MadeOf(o, next, u) && o.kickoffs < |tx.outputs|
    && (PaysFromChange(o, tx, next)
        <==> u.outpoint == OutPoint(Id(tx), o.kickoffs) && u.txout.value == tx.outputs[o.kickoffs].value)
  }

  /**
   Over every run, with no condition on the funding UTXOs: a generator in the list the walk
   returns was made of a UTXO of the funding table, and it spends its predecessor's change
   and accounts for all of it exactly when that UTXO names the change and its value.
  */
  lemma ChainSpendsChangeIff(o: Settings, funding: Utxo, calls: seq<Call>, known: set<Txid>, txid: Txid, k: nat)
    returns (u: Utxo)
    requires Usable(o)
    requires var walk := Walk(Run(o, Tables([], map[], [funding]), calls).generators, known, txid, MAX_ITERATIONS);
             walk.Success? && 0 < k < |walk.value|
    ensures u in Run(o, Tables([], map[], [funding]), calls).funding
    ensures var txs := Walk(Run(o, Tables([], map[], [funding]), calls).generators, known, txid, MAX_ITERATIONS).value;
            LinkedBy(o, txs[k - 1], txs[k], u)
  {
    hide Invariant, MadeOfFunding, Run, Walk, LinkedBy;
    StartHolds(o, funding);
    var start := Tables([], map[], [funding]);
    RunKeeps(o, start, calls);
    RunKeepsMade(o, start, calls);
    u := LinkOfWalk(o, Run(o, start, calls), known, txid, k);
  }

  lemma StartHolds(o: Settings, funding: Utxo)
    ensures Invariant(o, Tables([], map[], [funding])) && MadeOfFunding(o, Tables([], map[], [funding]))
  {
    EmptyTablesHoldInvariant(o, [funding]);
  }

  lemma LinkOfWalk(o: Settings, t: Tables, known: set<Txid>, txid: Txid, k: nat) returns (u: Utxo)
    requires Usable(o) && Invariant(o, t) && MadeOfFunding(o, t)
    requires var walk := Walk(t.generators, known, txid, MAX_ITERATIONS); walk.Success? && 0 < k < |walk.value|
    ensures u in t.funding
    ensures var txs := Walk(t.generators, known, txid, MAX_ITERATIONS).value; LinkedBy(o, txs[k - 1], txs[k], u)
  {
    hide Invariant, MadeOfFunding, Walk, Stored, MadeOf, PaysFromChange;
    var txs := Walk(t.generators, known, txid, MAX_ITERATIONS).value;
    WalkReturnsStored(t.generators, known, txid, MAX_ITERATIONS, k - 1);
    WalkReturnsStored(t.generators, known, txid, MAX_ITERATIONS, k);
    StoredOutputs(o, t, txs[k - 1]);
    u := StoredMade(o, t, txs[k]);
    PaysFromChangeIff(o, txs[k - 1], txs[k], u);
  }

  lemma StoredOutputs(o: Settings, t: Tables, tx: Tx)
    requires Invariant(o, t) && Stored(t.generators, tx)
    ensures |tx.outputs| == o.kickoffs + 2
  {
    hide RowOk, OneToOne;
    var g :| 0 <= g < |t.generators| && t.generators[g].tx == tx;
    RowFacts(o, t.generators[g]);
  }

  lemma StoredMade(o: Settings, t: Tables, tx: Tx) returns (u: Utxo)
    requires MadeOfFunding(o, t) && Stored(t.generators, tx)
    ensures u in t.funding && MadeOf(o, tx, u)
  {
    hide MadeOf;
    var g :| 0 <= g < |t.generators| && t.generators[g].tx == tx;
    assert MadeOfOne(o, t.generators[g].tx, t.funding);
    var i :| 0 <= i < |t.funding| && MadeOf(o, tx, t.funding[i]);
    u := t.funding[i];
  }

  /** A call that makes a new generator transaction out of the latest funding UTXO. */
  lemma StepGenerates(o: Settings, t: Tables, d: OutPoint)
    requires Usable(o) && o.kickoffs >= 1 && d !in t.kickoffs && NewestOpen(t.generators).None? && t.funding != []
    requires var funding := t.funding[|t.funding| - 1];
             && funding.txout.value >= KickoffCost(o.kickoffs)
             && FindGenerator(t.generators, Id(Generator(o, funding))).None?
    ensures var funding := t.funding[|t.funding| - 1];
            var tx := Generator(o, funding);
            Step(o, t, NewDeposit(d, true))
            == Tables(t.generators + [GeneratorRow(Id(tx), tx, o.kickoffs, 1, funding.outpoint.txid)],
                      t.kickoffs[d := OutputOf(tx, 0)], t.funding + [OutputOf(tx, o.kickoffs)])
  {
    hide Generator, KickoffCost, NewestOpen, FindGenerator;
  }

  /**
   A set_funding_utxo that fails it: the outpoint of the first funding UTXO again, with
   another value. Both generator transactions are stored, and both spend that outpoint.
  */
  lemma SameOutpointTwice(o: Settings, d: OutPoint, e: OutPoint)
    requires Usable(o) && o.kickoffs == 1 && d != e
    ensures var at := OutPoint(External(0), 0);
            var one := Utxo(at, TxOut(1_000_000, OperatorScript(o.key)));
            var two := Utxo(at, TxOut(2_000_000, OperatorScript(o.key)));
            var calls := [NewDeposit(d, true), SetFunding(two), NewDeposit(e, true)];
            var rows := Run(o, Tables([], map[], [one]), calls).generators;
            && |rows| == 2 && |rows[0].tx.inputs| == |rows[1].tx.inputs| == 1
            && rows[0].tx.inputs[0].previousOutput == rows[1].tx.inputs[0].previousOutput == at
  {
    var at := OutPoint(External(0), 0);
    var one := Utxo(at, TxOut(1_000_000, OperatorScript(o.key)));
    var two := Utxo(at, TxOut(2_000_000, OperatorScript(o.key)));
    assert KickoffCost(1) == 100_527;
    TwoGenerators(o, one, two);
    var tx, tx' := Generator(o, one), Generator(o, two);
    hide Generator, KickoffCost, GeneratorShape, Assign, OutputOf, OperatorScript, RowOk;
    var row := GeneratorRow(Id(tx), tx, 1, 1, External(0));
    OneFullRow(row, Id(tx'));
    hide NewestOpen, FindGenerator;
    var start := Tables([], map[], [one]);
    NoRows(Id(tx));
    StepGenerates(o, start, d);
    var t1 := Step(o, start, NewDeposit(d, true));
    assert t1.generators == [row];
    var t2 := Step(o, t1, SetFunding(two));
    StepGenerates(o, t2, e);
    var t3 := Step(o, t2, NewDeposit(e, true));
    hide Step;
    RunThree(o, start, NewDeposit(d, true), SetFunding(two), NewDeposit(e, true));
  }

  lemma TwoGenerators(o: Settings, one: Utxo, two: Utxo)
    requires o.kickoffs == 1 && one.outpoint == two.outpoint && one.txout.value < two.txout.value
    requires one.txout.value >= KickoffCost(1)
    ensures var tx, tx' := Generator(o, one), Generator(o, two);
            && tx != tx' && |tx.inputs| == |tx'.inputs| == 1
            && tx.inputs[0].previousOutput == tx'.inputs[0].previousOutput == one.outpoint
  {
    assert Generator(o, one).outputs[1].value != Generator(o, two).outputs[1].value;
  }

  lemma OneFullRow(row: GeneratorRow, other: Txid)
    requires row.cur == row.numKickoffs && row.txid != other
    ensures NewestOpen([row]).None? && FindGenerator([row], other).None?
  {
    assert [row][..0] == [] && [row][1..] == [];
  }

  lemma NoRows(txid: Txid)
    ensures NewestOpen([]).None? && FindGenerator([], txid).None?
  {
  }

  lemma RunThree(o: Settings, t: Tables, a: Call, b: Call, c: Call)
    requires Usable(o)
    ensures Run(o, t, [a, b, c]) == Step(o, Step(o, Step(o, t, a), b), c)
  {
    hide Step;
    assert [a, b, c][1..] == [b, c] && [b, c][1..] == [c] && [c][1..] == [];
    var t1 := Step(o, t, a);
    var t2 := Step(o, t1, b);
    var t3 := Step(o, t2, c);
    assert Run(o, t3, []) == t3 && Run(o, t2, [c]) == t3 && Run(o, t1, [b, c]) == t3;
  }
}
