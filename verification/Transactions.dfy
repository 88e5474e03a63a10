/**
 core/src/builder/transaction.rs, with the scripts and addresses of builder/script.rs and
 builder/address.rs kept symbolic. Transactions, scripts and sighashes are free datatypes,
 and a txid holds the transaction it identifies, so equal identifiers name equal objects.
*/
module Transactions {
  import opened Wrappers
  import opened SymbolicBytes
  import TxFormat

  type Key = nat
  type Amount = U64

  datatype Leaf =
    | DepositLeaf(nofn: Key, evm: nat, amount: Amount)
    | Timelock(key: Key, blocks: U32)
    | Multisig(nofn: Key, operator: Key)

  /** A script public key; a taproot address is its internal key and its leaves. */
  datatype Script =
    | Taproot(internal: Option<Key>, leaves: seq<Leaf>)
    | AnyoneCanSpend
    | OpReturn(txid: Txid, operatorIdx: nat)
    | Foreign(id: nat, length: nat)

  /** The id of a transaction built here, or of one from elsewhere. */
  datatype Txid = Id(tx: Tx) | External(id: nat)
  datatype OutPoint = OutPoint(txid: Txid, vout: U32)
  datatype Sequence = EnableRbfNoLocktime | Height(blocks: U16)
  datatype TxIn = TxIn(previousOutput: OutPoint, sequence: Sequence)
  datatype TxOut = TxOut(value: Amount, script: Script)
  datatype Tx = Tx(inputs: seq<TxIn>, outputs: seq<TxOut>)
  datatype Utxo = Utxo(outpoint: OutPoint, txout: TxOut)
  datatype TxHandler = TxHandler(tx: Tx, prevouts: seq<TxOut>, scripts: seq<seq<Leaf>>)

  /** What a taproot signature commits to under SIGHASH_DEFAULT. */
  datatype Sighash =
    | ScriptSpend(tx: Tx, prevouts: seq<TxOut>, input: nat, leaf: Leaf)
    | KeySpend(tx: Tx, prevouts: seq<TxOut>, input: nat)

  datatype Config = Config(
    nofn: Key,
    operators: seq<Key>,
    wallets: seq<Script>,
    bridgeAmount: Amount,
    userTakesAfter: U32,
    operatorTakesAfter: U32,
    numOperators: nat)

  const MOVE_TX_MIN_RELAY_FEE: Amount := 190
  const SLASH_OR_TAKE_TX_MIN_RELAY_FEE: Amount := 240
  const OPERATOR_TAKES_TX_MIN_RELAY_FEE: Amount := 230
  const KICKOFF_UTXO_AMOUNT_SATS: Amount := 100_000

  /** script.rs: a P2WSH output at its dust limit. */
  const ANYONE_CAN_SPEND: TxOut := TxOut(330, AnyoneCanSpend)

  /** Amounts panic where they leave the u64 range. */
  function Plus(a: Amount, b: Amount): Option<Amount> {
    if a + b < 0x1_0000_0000_0000_0000 then Some(a + b) else None
  }

  function Minus(a: Amount, b: Amount): Option<Amount> {
    if a >= b then Some(a - b) else None
  }

  function Musig2Script(nofn: Key): Script {
    Taproot(Some(nofn), [])
  }

  function KickoffScript(nofn: Key, operator: Key): Script {
    Taproot(None, [Multisig(nofn, operator)])
  }

  function SlashOrTakeScript(cfg: Config, operator: Key): Script {
    Taproot(Some(cfg.nofn), [Timelock(operator, cfg.operatorTakesAfter)])
  }

  function DepositScript(cfg: Config, recovery: Key, evm: nat): Script {
    Taproot(None, [DepositLeaf(cfg.nofn, evm, cfg.bridgeAmount), Timelock(recovery, cfg.userTakesAfter)])
  }

  // Inputs and outputs, which the builders push one at a time.

  function TxIns(outpoints: seq<OutPoint>, sequence: Sequence): (r: seq<TxIn>)
    ensures |r| == |outpoints|
  {
    seq(|outpoints|, i requires 0 <= i < |outpoints| => TxIn(outpoints[i], sequence))
  }

  function TxOuts(pairs: seq<(Amount, Script)>): (r: seq<TxOut>)
    ensures |r| == |pairs|
  {
    seq(|pairs|, i requires 0 <= i < |pairs| => TxOut(pairs[i].0, pairs[i].1))
  }

  method CreateTxIns(outpoints: seq<OutPoint>) returns (ins: seq<TxIn>)
    ensures ins == TxIns(outpoints, EnableRbfNoLocktime)
  {
    ins := [];
    for i := 0 to |outpoints|
      invariant ins == TxIns(outpoints, EnableRbfNoLocktime)[..i]
    {
      ins := ins + [TxIn(outpoints[i], EnableRbfNoLocktime)];
    }
  }

  method CreateTxInsWithSequence(outpoints: seq<OutPoint>, height: U16) returns (ins: seq<TxIn>)
    ensures ins == TxIns(outpoints, Height(height))
  {
    ins := [];
    for i := 0 to |outpoints|
      invariant ins == TxIns(outpoints, Height(height))[..i]
    {
      ins := ins + [TxIn(outpoints[i], Height(height))];
    }
  }

  method CreateTxOuts(pairs: seq<(Amount, Script)>) returns (outs: seq<TxOut>)
    ensures outs == TxOuts(pairs)
  {
    outs := [];
    for i := 0 to |pairs|
      invariant outs == TxOuts(pairs)[..i]
    {
      outs := outs + [TxOut(pairs[i].0, pairs[i].1)];
    }
  }

  // The builders; None where the original panics.

  function CreateMoveTx(deposit: OutPoint, cfg: Config): Option<Tx> {
    var afterFee :- Minus(cfg.bridgeAmount, MOVE_TX_MIN_RELAY_FEE);
    var value :- Minus(afterFee, ANYONE_CAN_SPEND.value);
    Some(Tx(TxIns([deposit], EnableRbfNoLocktime), [TxOut(value, Musig2Script(cfg.nofn)), ANYONE_CAN_SPEND]))
  }

  function CreateMoveTxHandler(deposit: OutPoint, evm: nat, recovery: Key, cfg: Config): Option<TxHandler> {
    var tx :- CreateMoveTx(deposit, cfg);
    Some(TxHandler(tx, [TxOut(cfg.bridgeAmount, DepositScript(cfg, recovery, evm))],
                   [[DepositLeaf(cfg.nofn, evm, cfg.bridgeAmount)]]))
  }

  /** Also computed on its own by the operator's funding guard (operator.rs). */
  function KickoffMinRelayFee(kickoffs: nat): nat {
    if kickoffs <= 250 then 154 + 43 * kickoffs else 156 + 43 * kickoffs
  }

  /** The kickoff outputs, then the change, then the fee bumping output. */
  function KickoffOutputs(kickoffs: nat, kickoff: Script, change: Amount, operator: Key): (r: seq<TxOut>)
    ensures |r| == kickoffs + 2
    ensures forall j :: 0 <= j < kickoffs ==> r[j] == TxOut(KICKOFF_UTXO_AMOUNT_SATS, kickoff)
    ensures r[kickoffs] == TxOut(change, Taproot(Some(operator), [])) && r[kickoffs + 1] == ANYONE_CAN_SPEND
  {
    seq(kickoffs, _ => TxOut(KICKOFF_UTXO_AMOUNT_SATS, kickoff))
    + [TxOut(change, Taproot(Some(operator), [])), ANYONE_CAN_SPEND]
  }

  function KickoffTx(funding: Utxo, nofn: Key, operator: Key, kickoffs: nat, change: Amount): TxHandler {
    TxHandler(Tx(TxIns([funding.outpoint], EnableRbfNoLocktime),
                 KickoffOutputs(kickoffs, KickoffScript(nofn, operator), change, operator)),
              [funding.txout], [[]])
  }

  /** `kickoffs` is a configuration value that the database holds as an i32. */
  method CreateKickoffUtxoTx(funding: Utxo, nofn: Key, operator: Key, kickoffs: nat) returns (r: Option<TxHandler>)
    requires kickoffs < 0x8000_0000
    ensures var cost := KICKOFF_UTXO_AMOUNT_SATS * kickoffs + KickoffMinRelayFee(kickoffs) + 330;
            r == if funding.txout.value >= cost
                 then Some(KickoffTx(funding, nofn, operator, kickoffs, funding.txout.value - cost))
                 else None
  {
    var fee := if kickoffs <= 250 then 154 + 43 * kickoffs else 156 + 43 * kickoffs;
    var ins := CreateTxIns([funding.outpoint]);
    var script := KickoffScript(nofn, operator);
    var afterKickoffs :- Minus(funding.txout.value, KICKOFF_UTXO_AMOUNT_SATS * kickoffs);
    var afterAnyone :- Minus(afterKickoffs, ANYONE_CAN_SPEND.value);
    var change :- Minus(afterAnyone, fee);
    var raw := seq(kickoffs, _ => (KICKOFF_UTXO_AMOUNT_SATS, script));
    raw := raw + [(change, Taproot(Some(operator), []))];
    raw := raw + [(ANYONE_CAN_SPEND.value, ANYONE_CAN_SPEND.script)];
    var outs := CreateTxOuts(raw);
    assert outs == KickoffOutputs(kickoffs, script, change, operator);
    r := Some(TxHandler(Tx(ins, outs), [funding.txout], [[]]));
  }

  function CreateSlashOrTakeTx(deposit: OutPoint, kickoff: Utxo, operator: Key, idx: nat, cfg: Config)
    : Option<TxHandler>
  {
    var moveTx :- CreateMoveTx(deposit, cfg);
    if kickoff.txout.script != KickoffScript(cfg.nofn, operator) then None
    else
      var afterAnyone :- Minus(kickoff.txout.value, 330);
      var value :- Minus(afterAnyone, SLASH_OR_TAKE_TX_MIN_RELAY_FEE);
      Some(TxHandler(
        Tx(TxIns([kickoff.outpoint], EnableRbfNoLocktime),
           [TxOut(value, SlashOrTakeScript(cfg, operator)), ANYONE_CAN_SPEND, TxOut(0, OpReturn(Id(moveTx), idx))]),
        [kickoff.txout], [[Multisig(cfg.nofn, operator)]]))
  }

  function CreateOperatorTakesTx(bridgeFund: OutPoint, slashOrTake: Utxo, operator: Key, cfg: Config, wallet: Script)
    : Option<TxHandler>
  {
    var height := cfg.operatorTakesAfter % 0x1_0000;
    if slashOrTake.txout.script != SlashOrTakeScript(cfg, operator) then None
    else
      var sum :- Plus(slashOrTake.txout.value, cfg.bridgeAmount);
      var a :- Minus(sum, MOVE_TX_MIN_RELAY_FEE);
      var b :- Minus(a, OPERATOR_TAKES_TX_MIN_RELAY_FEE);
      var c :- Minus(b, ANYONE_CAN_SPEND.value);
      var value :- Minus(c, ANYONE_CAN_SPEND.value);
      var d :- Minus(cfg.bridgeAmount, MOVE_TX_MIN_RELAY_FEE);
      var moved :- Minus(d, ANYONE_CAN_SPEND.value);
      Some(TxHandler(
        Tx(TxIns([bridgeFund], EnableRbfNoLocktime) + TxIns([slashOrTake.outpoint], Height(height)),
           [TxOut(value, wallet), ANYONE_CAN_SPEND]),
        [TxOut(moved, Musig2Script(cfg.nofn)), slashOrTake.txout],
        [[], [Timelock(operator, cfg.operatorTakesAfter)]]))
  }

  /** Output `vout` of a built transaction as a UTXO, the way every caller forms it. */
  function OutputOf(tx: Tx, vout: U32): Utxo
    requires vout < |tx.outputs|
  {
    Utxo(OutPoint(Id(tx), vout), tx.outputs[vout])
  }

  /** The operator_takes transaction for a kickoff, built on the other two. */
  function ReimbursementTx(deposit: OutPoint, kickoff: Utxo, operator: Key, idx: nat, cfg: Config, wallet: Script)
    : Option<TxHandler>
  {
    var moveTx :- CreateMoveTx(deposit, cfg);
    var slash :- CreateSlashOrTakeTx(deposit, kickoff, operator, idx, cfg);
    CreateOperatorTakesTx(OutPoint(Id(moveTx), 0), OutputOf(slash.tx, 0), operator, cfg, wallet)
  }

  // Satoshi accounting.

  function OutputSum(outs: seq<TxOut>): nat {
    if outs == [] then 0 else outs[0].value + OutputSum(outs[1..])
  }

  lemma {:induction false} OutputSumAppend(a: seq<TxOut>, b: seq<TxOut>)
    ensures OutputSum(a + b) == OutputSum(a) + OutputSum(b)
  {
    if a == [] {
      assert a + b == b;
    } else {
      assert (a + b)[1..] == a[1..] + b;
      OutputSumAppend(a[1..], b);
    }
  }

  lemma OutputSumOfTwo(a: TxOut, b: TxOut)
    ensures OutputSum([a, b]) == a.value + b.value
  {
    assert [a, b][1..] == [b] && [b][1..] == [];
    assert OutputSum([b]) == b.value + OutputSum([]);
  }

  lemma {:induction false} OutputSumRepeated(n: nat, out: TxOut)
    ensures OutputSum(seq(n, _ => out)) == n * out.value
  {
    if n > 0 {
      assert seq(n, _ => out)[1..] == seq(n - 1, _ => out);
      OutputSumRepeated(n - 1, out);
    }
  }

  /** What the inputs bring and the outputs leave over. */
  ghost predicate Pays(h: TxHandler, fee: nat) {
    |h.prevouts| == |h.tx.inputs| && OutputSum(h.prevouts) == OutputSum(h.tx.outputs) + fee
  }

  lemma MoveTxConserves(deposit: OutPoint, evm: nat, recovery: Key, cfg: Config)
    ensures var h := CreateMoveTxHandler(deposit, evm, recovery, cfg);
            && (h.Some? <==> cfg.bridgeAmount >= 520)
            && (h.Some? ==> Pays(h.value, MOVE_TX_MIN_RELAY_FEE))
  {
    var h := CreateMoveTxHandler(deposit, evm, recovery, cfg);
    if h.Some? {
      var outs := h.value.tx.outputs;
      OutputSumOfTwo(outs[0], outs[1]);
      assert outs == [outs[0], outs[1]];
      assert h.value.prevouts[1..] == [];
    }
  }

  /** `change` is what CreateKickoffUtxoTx subtracts down to. */
  lemma KickoffTxConserves(funding: Utxo, nofn: Key, operator: Key, kickoffs: nat, change: Amount)
    requires funding.txout.value == change + KICKOFF_UTXO_AMOUNT_SATS * kickoffs + KickoffMinRelayFee(kickoffs) + 330
    ensures Pays(KickoffTx(funding, nofn, operator, kickoffs, change), KickoffMinRelayFee(kickoffs))
  {
    var h := KickoffTx(funding, nofn, operator, kickoffs, change);
    var out := TxOut(KICKOFF_UTXO_AMOUNT_SATS, KickoffScript(nofn, operator));
    var last := TxOut(change, Taproot(Some(operator), []));
    OutputSumRepeated(kickoffs, out);
    OutputSumAppend(seq(kickoffs, _ => out), [last, ANYONE_CAN_SPEND]);
    OutputSumOfTwo(last, ANYONE_CAN_SPEND);
    assert h.prevouts[1..] == [];
  }

  lemma SlashOrTakeTxConserves(deposit: OutPoint, kickoff: Utxo, operator: Key, idx: nat, cfg: Config)
    ensures var h := CreateSlashOrTakeTx(deposit, kickoff, operator, idx, cfg);
            && (h.Some? <==> && kickoff.txout.script == KickoffScript(cfg.nofn, operator)
                             && cfg.bridgeAmount >= 520 && kickoff.txout.value >= 570)
            && (h.Some? ==> Pays(h.value, SLASH_OR_TAKE_TX_MIN_RELAY_FEE))
  {
    var h := CreateSlashOrTakeTx(deposit, kickoff, operator, idx, cfg);
    if h.Some? {
      var outs := h.value.tx.outputs;
      OutputSumAppend([outs[0]], [outs[1], outs[2]]);
      OutputSumOfTwo(outs[1], outs[2]);
      assert outs == [outs[0]] + [outs[1], outs[2]];
      assert [outs[0]][1..] == [] && h.value.prevouts[1..] == [];
    }
  }

  /**
   The reimbursement: whenever a verifier would accept the kickoff output and the bridge
   amount covers the move transaction, all three transactions are built; the two outputs
   operator_takes spends carry exactly the value and script it assumes; each transaction
   pays its own fee; and of the deposit and the kickoff output the operator receives all but
   the three fees and the three fee bumping outputs.
  */
  lemma ReimbursementConserves(deposit: OutPoint, kickoff: Utxo, operator: Key, idx: nat, cfg: Config, wallet: Script)
    requires cfg.bridgeAmount >= 520
    requires kickoff.txout.value >= KICKOFF_UTXO_AMOUNT_SATS
    requires kickoff.txout.script == KickoffScript(cfg.nofn, operator)
    requires kickoff.txout.value + cfg.bridgeAmount < 0x1_0000_0000_0000_0000 + 570
    ensures var moved := CreateMoveTx(deposit, cfg);
            var slash := CreateSlashOrTakeTx(deposit, kickoff, operator, idx, cfg);
            var takes := ReimbursementTx(deposit, kickoff, operator, idx, cfg, wallet);
            && moved.Some? && slash.Some? && takes.Some?
            && takes.value.prevouts == [moved.value.outputs[0], slash.value.tx.outputs[0]]
            && takes.value.tx.inputs[0].previousOutput == OutPoint(Id(moved.value), 0)
            && takes.value.tx.inputs[1].previousOutput == OutPoint(Id(slash.value.tx), 0)
            && Pays(takes.value, OPERATOR_TAKES_TX_MIN_RELAY_FEE)
            && takes.value.tx.outputs[0].script == wallet
            && cfg.bridgeAmount + kickoff.txout.value
               == takes.value.tx.outputs[0].value + 3 * ANYONE_CAN_SPEND.value
                  + MOVE_TX_MIN_RELAY_FEE + SLASH_OR_TAKE_TX_MIN_RELAY_FEE + OPERATOR_TAKES_TX_MIN_RELAY_FEE
  {
    var h := ReimbursementTx(deposit, kickoff, operator, idx, cfg, wallet).value;
    OutputSumOfTwo(h.prevouts[0], h.prevouts[1]);
    assert h.prevouts == [h.prevouts[0], h.prevouts[1]];
    OutputSumOfTwo(h.tx.outputs[0], h.tx.outputs[1]);
    assert h.tx.outputs == [h.tx.outputs[0], h.tx.outputs[1]];
  }

  /** Exactly when all three transactions can be built. */
  lemma ReimbursementBuiltIff(deposit: OutPoint, kickoff: Utxo, operator: Key, idx: nat, cfg: Config, wallet: Script)
    ensures ReimbursementTx(deposit, kickoff, operator, idx, cfg, wallet).Some?
            <==> && kickoff.txout.script == KickoffScript(cfg.nofn, operator)
                 && cfg.bridgeAmount >= 520 && kickoff.txout.value >= 570
                 && 1650 <= kickoff.txout.value + cfg.bridgeAmount < 0x1_0000_0000_0000_0000 + 570
  {
  }

  /** The kickoff outputs are what slash_or_take asserts and a verifier demands. */
  lemma KickoffOutputsAreAccepted(funding: Utxo, operator: Key, kickoffs: nat, change: Amount, j: U32, cfg: Config)
    requires j < kickoffs
    ensures var u := OutputOf(KickoffTx(funding, cfg.nofn, operator, kickoffs, change).tx, j);
            u.txout.value == KICKOFF_UTXO_AMOUNT_SATS && u.txout.script == KickoffScript(cfg.nofn, operator)
  {
  }

  // The kickoff fee against the virtual size of BIP 141.

  function ScriptLength(script: Script): nat {
    match script
    case Taproot(_, _) => 34
    case AnyoneCanSpend => 34
    case OpReturn(_, idx) => 2 + 32 + VarLenBytes(idx)
    case Foreign(_, length) => length
  }

  /** utils.rs: the length of usize_to_var_len_bytes. */
  function VarLenBytes(x: nat): nat {
    if x < 256 then 1 else 1 + VarLenBytes(x / 256)
  }

  function VarIntLength(n: nat): nat {
    if n < 0x1_0000_0000 then |TxFormat.VarInt(n)| else 9
  }

  function OutputsSize(outs: seq<TxOut>): nat {
    if outs == [] then 0
    else
      var len := ScriptLength(outs[0].script);
      8 + VarIntLength(len) + len + OutputsSize(outs[1..])
  }

  /** Version, inputs with empty script_sigs (32 + 4 + 1 + 4 bytes each), outputs, lock time. */
  function BaseSize(tx: Tx): nat {
    4 + VarIntLength(|tx.inputs|) + 41 * |tx.inputs| + VarIntLength(|tx.outputs|) + OutputsSize(tx.outputs) + 4
  }

  /** BIP 141, "Transaction size calculations": a quarter of the weight, rounded up. */
  function VirtualSize(tx: Tx, witnessBytes: nat): nat {
    var weight := 3 * BaseSize(tx) + (BaseSize(tx) + witnessBytes);
    (weight + 3) / 4
  }

  /** Marker, flag, item count, length and the 64 bytes of one key path signature. */
  const KEY_PATH_WITNESS: nat := 68

  lemma {:induction false} OutputsSizeAllTaproot(outs: seq<TxOut>)
    requires forall i :: 0 <= i < |outs| ==> ScriptLength(outs[i].script) == 34
    ensures OutputsSize(outs) == 43 * |outs|
  {
    if outs != [] {
      OutputsSizeAllTaproot(outs[1..]);
    }
  }

  /** The fee is one satoshi per virtual byte exactly up to 65533 kickoffs. */
  lemma KickoffFeeIsVirtualSize(funding: Utxo, nofn: Key, operator: Key, kickoffs: nat, change: Amount)
    ensures KickoffMinRelayFee(kickoffs)
            == VirtualSize(KickoffTx(funding, nofn, operator, kickoffs, change).tx, KEY_PATH_WITNESS)
            <==> kickoffs <= 65533
  {
    var tx := KickoffTx(funding, nofn, operator, kickoffs, change).tx;
    var kickoff := KickoffScript(nofn, operator);
    OutputsSizeAllTaproot(tx.outputs);
    assert BaseSize(tx) == 50 + VarIntLength(kickoffs + 2) + 43 * (kickoffs + 2);
  }

  /** The first failing number: the output count then takes four bytes and not two. */
  lemma FeeFallsShortAt65534(funding: Utxo, nofn: Key, operator: Key, change: Amount)
    ensures KickoffMinRelayFee(65534)
            < VirtualSize(KickoffTx(funding, nofn, operator, 65534, change).tx, KEY_PATH_WITNESS)
  {
    var tx := KickoffTx(funding, nofn, operator, 65534, change).tx;
    OutputsSizeAllTaproot(tx.outputs);
    assert BaseSize(tx) == 50 + VarIntLength(65536) + 43 * 65536;
  }

  // Sighashes and what they determine.

  function SighashScriptSpend(h: TxHandler, input: nat, script: nat): Option<Sighash> {
    if input < |h.scripts| && script < |h.scripts[input]|
    then Some(ScriptSpend(h.tx, h.prevouts, input, h.scripts[input][script])) else None
  }

  function SighashPubkeySpend(h: TxHandler, input: nat): Option<Sighash> {
    if input < |h.tx.inputs| then Some(KeySpend(h.tx, h.prevouts, input)) else None
  }

  function MoveSighash(cfg: Config, deposit: OutPoint, evm: nat, recovery: Key): Option<Sighash> {
    var h :- CreateMoveTxHandler(deposit, evm, recovery, cfg);
    SighashScriptSpend(h, 0, 0)
  }

  /** The panics on an index outside the configured operators are None as well. */
  function SlashSighash(cfg: Config, deposit: OutPoint, kickoff: Utxo, idx: nat): Option<Sighash> {
    if idx >= |cfg.operators| then None
    else
      var h :- CreateSlashOrTakeTx(deposit, kickoff, cfg.operators[idx], idx, cfg);
      SighashScriptSpend(h, 0, 0)
  }

  function TakesSighash(cfg: Config, deposit: OutPoint, kickoff: Utxo, idx: nat): Option<Sighash> {
    if idx >= |cfg.operators| || idx >= |cfg.wallets| then None
    else
      var h :- ReimbursementTx(deposit, kickoff, cfg.operators[idx], idx, cfg, cfg.wallets[idx]);
      SighashPubkeySpend(h, 0)
  }

  // What the messages are about, spelled out.

  /** The move: the deposit's N-of-N leaf spends the deposit into an output of the N-of-N key. */
  lemma MoveMessageSpends(cfg: Config, deposit: OutPoint, evm: nat, recovery: Key)
    requires MoveSighash(cfg, deposit, evm, recovery).Some?
    ensures var m := MoveSighash(cfg, deposit, evm, recovery).value;
            && CreateMoveTx(deposit, cfg) == Some(m.tx) && m.ScriptSpend? && m.input == 0
            && m.tx.inputs == [TxIn(deposit, EnableRbfNoLocktime)]
            && m.prevouts == [TxOut(cfg.bridgeAmount, DepositScript(cfg, recovery, evm))]
            && m.leaf in m.prevouts[0].script.leaves && m.leaf == DepositLeaf(cfg.nofn, evm, cfg.bridgeAmount)
            && m.tx.outputs == [TxOut(cfg.bridgeAmount - 520, Taproot(Some(cfg.nofn), [])), ANYONE_CAN_SPEND]
  {
    assert DepositScript(cfg, recovery, evm).leaves[0] == DepositLeaf(cfg.nofn, evm, cfg.bridgeAmount);
  }

  /**
   slash_or_take: the kickoff output's leaf of the N-of-N key and this operator spends it
   into an output of the N-of-N key that the operator can take after its time lock, and names
   the move transaction and the operator.
  */
  lemma SlashMessageSpends(cfg: Config, deposit: OutPoint, kickoff: Utxo, i: nat)
    requires SlashSighash(cfg, deposit, kickoff, i).Some?
    ensures i < |cfg.operators| && CreateMoveTx(deposit, cfg).Some? && kickoff.txout.value >= 570
    ensures var m := SlashSighash(cfg, deposit, kickoff, i).value;
            && m.ScriptSpend? && m.input == 0
            && m.tx.inputs == [TxIn(kickoff.outpoint, EnableRbfNoLocktime)] && m.prevouts == [kickoff.txout]
            && kickoff.txout.script == Taproot(None, [m.leaf]) && m.leaf == Multisig(cfg.nofn, cfg.operators[i])
            && m.tx.outputs == [TxOut(kickoff.txout.value - 570,
                                      Taproot(Some(cfg.nofn), [Timelock(cfg.operators[i], cfg.operatorTakesAfter)])),
                                ANYONE_CAN_SPEND,
                                TxOut(0, OpReturn(Id(CreateMoveTx(deposit, cfg).value), i))]
  {
  }

  /**
   operator_takes: the N-of-N key spends the moved deposit, and with it the output of
   slash_or_take after the time lock, to this operator's wallet.
  */
  lemma TakesMessageSpends(cfg: Config, deposit: OutPoint, kickoff: Utxo, i: nat)
    requires TakesSighash(cfg, deposit, kickoff, i).Some?
    ensures i < |cfg.wallets| && SlashSighash(cfg, deposit, kickoff, i).Some? && CreateMoveTx(deposit, cfg).Some?
    ensures var m := TakesSighash(cfg, deposit, kickoff, i).value;
            var moved := CreateMoveTx(deposit, cfg).value;
            var slash := SlashSighash(cfg, deposit, kickoff, i).value.tx;
            && m.KeySpend? && m.input == 0 && |m.tx.inputs| == 2
            && m.tx.inputs[0] == TxIn(OutPoint(Id(moved), 0), EnableRbfNoLocktime)
            && m.tx.inputs[1] == TxIn(OutPoint(Id(slash), 0), Height(cfg.operatorTakesAfter % 0x1_0000))
            && m.prevouts == [moved.outputs[0], slash.outputs[0]]
            && m.prevouts[m.input].script == Taproot(Some(cfg.nofn), [])
            && |m.tx.outputs| == 2 && m.tx.outputs[0].script == cfg.wallets[i] && m.tx.outputs[1] == ANYONE_CAN_SPEND
  {
  }

  /** BIP 112: a number in the script is met by an input's sequence, and the numbers it does not check. */
  predicate LockMet(blocks: U32, s: Sequence) {
    blocks >= 0x8000_0000 || (s.Height? && blocks / 0x40_0000 % 2 == 0 && blocks % 0x1_0000 <= s.blocks)
  }

  /**
   operator_takes carries the lock of the output it spends cut down to 16 bits. The script
   accepts that exactly when bit 22 is clear (or bit 31 turns the check off), and the input
   waits for all the blocks of the configuration exactly when they are fewer than 65536.
  */
  lemma TakesLock(cfg: Config, deposit: OutPoint, kickoff: Utxo, i: nat)
    requires TakesSighash(cfg, deposit, kickoff, i).Some?
    ensures i < |cfg.operators| && SlashSighash(cfg, deposit, kickoff, i).Some?
    ensures var m := TakesSighash(cfg, deposit, kickoff, i).value;
            var lock := Timelock(cfg.operators[i], cfg.operatorTakesAfter);
            && |m.prevouts| == |m.tx.inputs| == 2 && m.prevouts[1].script.Taproot?
            && m.prevouts[1].script.leaves == [lock]
            && (LockMet(lock.blocks, m.tx.inputs[1].sequence)
                <==> lock.blocks / 0x40_0000 % 2 == 0 || lock.blocks >= 0x8000_0000)
            && m.tx.inputs[1].sequence.Height?
            && (m.tx.inputs[1].sequence.blocks == lock.blocks <==> cfg.operatorTakesAfter < 0x1_0000)
  {
    TakesMessageSpends(cfg, deposit, kickoff, i);
    SlashMessageSpends(cfg, deposit, kickoff, i);
  }

  lemma MoveTxDeterminesDeposit(cfg: Config, d: OutPoint, e: OutPoint)
    requires CreateMoveTx(d, cfg).Some? && CreateMoveTx(d, cfg) == CreateMoveTx(e, cfg)
    ensures d == e
  {
    assert CreateMoveTx(d, cfg).value.inputs[0].previousOutput == d;
    assert CreateMoveTx(e, cfg).value.inputs[0].previousOutput == e;
  }

  /** Signing slash_or_take fixes the deposit, the kickoff output and the operator. */
  lemma SlashSighashInjective(cfg: Config, d: OutPoint, u: Utxo, i: nat, e: OutPoint, v: Utxo, j: nat)
    requires SlashSighash(cfg, d, u, i).Some? && SlashSighash(cfg, d, u, i) == SlashSighash(cfg, e, v, j)
    ensures d == e && u == v && i == j
  {
    var s, t := SlashSighash(cfg, d, u, i).value, SlashSighash(cfg, e, v, j).value;
    assert s.tx.inputs[0].previousOutput == u.outpoint && t.tx.inputs[0].previousOutput == v.outpoint;
    assert s.prevouts[0] == u.txout && t.prevouts[0] == v.txout;
    assert s.tx.outputs[2].script == OpReturn(Id(CreateMoveTx(d, cfg).value), i);
    assert t.tx.outputs[2].script == OpReturn(Id(CreateMoveTx(e, cfg).value), j);
    MoveTxDeterminesDeposit(cfg, d, e);
  }

  /** So does signing operator_takes, through the transactions it spends. */
  lemma TakesSighashInjective(cfg: Config, d: OutPoint, u: Utxo, i: nat, e: OutPoint, v: Utxo, j: nat)
    requires TakesSighash(cfg, d, u, i).Some? && TakesSighash(cfg, d, u, i) == TakesSighash(cfg, e, v, j)
    ensures d == e && u == v && i == j
  {
    var s, t := TakesSighash(cfg, d, u, i).value, TakesSighash(cfg, e, v, j).value;
    var a := CreateSlashOrTakeTx(d, u, cfg.operators[i], i, cfg).value;
    var b := CreateSlashOrTakeTx(e, v, cfg.operators[j], j, cfg).value;
    assert s.tx.inputs[1].previousOutput.txid == Id(a.tx) && t.tx.inputs[1].previousOutput.txid == Id(b.tx);
    assert a.tx.inputs[0].previousOutput == u.outpoint && b.tx.inputs[0].previousOutput == v.outpoint;
    assert a.tx.outputs[2].script == OpReturn(Id(CreateMoveTx(d, cfg).value), i);
    assert b.tx.outputs[2].script == OpReturn(Id(CreateMoveTx(e, cfg).value), j);
    MoveTxDeterminesDeposit(cfg, d, e);
    assert a.tx.outputs[0].value == u.txout.value - 570 && b.tx.outputs[0].value == v.txout.value - 570;
    assert u.txout.script == KickoffScript(cfg.nofn, cfg.operators[i]) == v.txout.script;
  }

  /** And the move transaction's own, together with the depositor's data. */
  lemma MoveSighashInjective(cfg: Config, d: OutPoint, evm: nat, rec: Key, e: OutPoint, evm': nat, rec': Key)
    requires MoveSighash(cfg, d, evm, rec).Some? && MoveSighash(cfg, d, evm, rec) == MoveSighash(cfg, e, evm', rec')
    ensures d == e && evm == evm' && rec == rec'
  {
    var s, t := MoveSighash(cfg, d, evm, rec).value, MoveSighash(cfg, e, evm', rec').value;
    assert s.tx.inputs[0].previousOutput == d && t.tx.inputs[0].previousOutput == e;
    assert s.prevouts[0].script.leaves[1] == Timelock(rec, cfg.userTakesAfter);
    assert t.prevouts[0].script.leaves[1] == Timelock(rec', cfg.userTakesAfter);
  }

  /** The three kinds of messages never coincide. */
  lemma SighashKinds(cfg: Config, d: OutPoint, evm: nat, rec: Key, u: Utxo, i: nat)
    ensures MoveSighash(cfg, d, evm, rec).Some? ==>
              MoveSighash(cfg, d, evm, rec).value.ScriptSpend? && MoveSighash(cfg, d, evm, rec).value.leaf.DepositLeaf?
    ensures SlashSighash(cfg, d, u, i).Some? ==>
              SlashSighash(cfg, d, u, i).value.ScriptSpend? && SlashSighash(cfg, d, u, i).value.leaf.Multisig?
    ensures TakesSighash(cfg, d, u, i).Some? ==> TakesSighash(cfg, d, u, i).value.KeySpend?
  {
  }
}
