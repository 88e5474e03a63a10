/**
 N verifiers as one protocol: calls reach them in any order, with any arguments, any number
 of times, and the two calls that are not one database transaction may act on rows they
 read before other calls were served. A signature by the N-of-N key can be presented only when every verifier has
 released a partial signature on its message.
*/
module Signing {
  import opened Wrappers
  import opened Transactions
  import opened VerifierDatabase
  import opened Verifier

  datatype Call =
    | NewDeposit(info: Info, depositValid: bool, secrets: seq<nat>)
    | KickoffsGenerated(utxos: seq<Utxo>, operatorSigs: seq<OperatorSignature>, aggs: seq<AggNonce>)
    | BurnTxsSigned(slashOrTakeSigs: seq<Signature>)
    | OperatorTakeTxsSigned(operatorTakeSigs: seq<Signature>)

  /** `seen` is what the call read of the deposit's rows when it began. */
  datatype Event = Event(verifier: nat, deposit: OutPoint, call: Call, seen: Record)

  /** A partial signature that has left its verifier, with the nonce slot it used. */
  datatype Release = Release(deposit: OutPoint, slot: nat, partial: Partial)

  /** The stored kickoffs a verifier went by when it signed a move transaction. */
  datatype MoveEvent = MoveEvent(verifier: nat, deposit: OutPoint, utxos: seq<Utxo>)

  datatype System = System(records: seq<map<OutPoint, Record>>, released: set<Release>, moves: set<MoveEvent>)

  function Initial(n: nat): System {
    System(seq(n, _ => map[]), {}, {})
  }

  function RecordOf(s: System, v: nat, d: OutPoint): Record {
    if v < |s.records| && d in s.records[v] then s.records[v][d] else Record(None, [], [])
  }

  // One call at one verifier.

  /** The new rows, and the partial signatures returned for the slots from `start` on. */
  datatype Outcome = Outcome(record: Record, start: nat, partials: seq<Partial>)

  function Returned(r: Result<seq<Partial>, Error>): seq<Partial> {
    if r.Success? then r.value else []
  }

  predicate Callable(cfg: Config, call: Call) {
    call.NewDeposit? ==> |call.secrets| == RequiredNonces(cfg)
  }

  function Perform(cfg: Config, v: nat, d: OutPoint, seen: Record, rec: Record, call: Call): Outcome
    requires Callable(cfg, call)
  {
    match call
    case NewDeposit(info, valid, secrets) =>
      Outcome(NewDepositStep(cfg, rec, info, valid, secrets).0, 0, [])
    case KickoffsGenerated(utxos, sigs, aggs) =>
      var (rec', r) := KickoffsGeneratedStep(cfg, v, d, rec, utxos, sigs, aggs);
      Outcome(rec', SlashSlot(cfg), Returned(r))
    case BurnTxsSigned(sigs) =>
      var (rec', r) := BurnTxsSignedStep(cfg, v, d, seen, rec, sigs);
      Outcome(rec', TAKES_SLOT, Returned(r))
    case OperatorTakeTxsSigned(sigs) =>
      var (rec', r) := OperatorTakeTxsSignedStep(cfg, v, d, seen, rec, sigs);
      Outcome(rec', MOVE_SLOT, if r.Success? then [r.value] else [])
  }

  function Releases(d: OutPoint, o: Outcome): set<Release> {
    set t | 0 <= t < |o.partials| :: Release(d, o.start + t, o.partials[t])
  }

  ghost predicate SignedBy(s: System, v: nat, message: Sighash, tweaked: bool) {
    exists r :: r in s.released && r.partial.signer == v && r.partial.message == message && r.partial.tweaked == tweaked
  }

  ghost predicate FullySigned(s: System, message: Sighash, tweaked: bool) {
    forall v :: 0 <= v < |s.records| ==> SignedBy(s, v, message, tweaked)
  }

  ghost predicate Presentable(s: System, sigs: seq<Signature>) {
    forall i :: 0 <= i < |sigs| && sigs[i].NofN? ==> FullySigned(s, sigs[i].message, sigs[i].tweaked)
  }

  ghost predicate Enabled(cfg: Config, s: System, e: Event) {
    && e.verifier < |s.records| && Callable(cfg, e.call)
    && Grows(e.seen, RecordOf(s, e.verifier, e.deposit))
    && (e.call.BurnTxsSigned? ==> Presentable(s, e.call.slashOrTakeSigs))
    && (e.call.OperatorTakeTxsSigned? ==> Presentable(s, e.call.operatorTakeSigs))
  }

  function Next(cfg: Config, s: System, e: Event): System
    requires e.verifier < |s.records| && Callable(cfg, e.call)
  {
    var rec := RecordOf(s, e.verifier, e.deposit);
    var o := Perform(cfg, e.verifier, e.deposit, e.seen, rec, e.call);
    System(s.records[e.verifier := s.records[e.verifier][e.deposit := o.record]],
           s.released + Releases(e.deposit, o),
           if e.call.OperatorTakeTxsSigned? && o.partials != []
           then s.moves + {MoveEvent(e.verifier, e.deposit, Utxos(e.seen.kickoffs))} else s.moves)
  }

  ghost predicate ValidRun(cfg: Config, s: System, events: seq<Event>)
    decreases |events|
  {
    events == [] || (Enabled(cfg, s, events[0]) && ValidRun(cfg, Next(cfg, s, events[0]), events[1..]))
  }

  function Run(cfg: Config, s: System, events: seq<Event>): System
    requires ValidRun(cfg, s, events)
    decreases |events|
  {
    if events == [] then s else Run(cfg, Next(cfg, s, events[0]), events[1..])
  }

  // What no call undoes.

  predicate RowGrows(a: NonceRow, b: NonceRow) {
    a.sec == b.sec && a.pub == b.pub && (a.sighash.Some? ==> b.sighash == a.sighash)
  }

  /** Deposit info, nonces, bound sighashes and kickoffs are written once. */
  ghost predicate Grows(a: Record, b: Record) {
    && (a.info.Some? ==> b.info == a.info)
    && (a.nonces != [] ==> |b.nonces| == |a.nonces|)
    && (forall k :: 0 <= k < |a.nonces| ==> k < |b.nonces| && RowGrows(a.nonces[k], b.nonces[k]))
    && |a.kickoffs| <= |b.kickoffs|
    && (forall k :: 0 <= k < |a.kickoffs| ==> b.kickoffs[k].utxo == a.kickoffs[k].utxo)
  }

  /** What BindAndSign signs sits in the slots it bound. */
  ghost predicate SlotHolds(rec: Record, v: nat, slot: nat, p: Partial) {
    && p.signer == v && slot < |rec.nonces|
    && rec.nonces[slot].sighash == Some(p.message) && rec.nonces[slot].sec == p.nonce
  }

  lemma GrowsTransitive(a: Record, b: Record, c: Record)
    requires Grows(a, b) && Grows(b, c)
    ensures Grows(a, c)
  {
  }

  /** Everything BindAndSign signed is bound to its slot and uses the slot's nonce. */
  ghost predicate Bound(v: nat, before: Record, after: Record, start: nat, sighashes: seq<Sighash>, tweaked: bool,
                        partials: seq<Partial>) {
    && Grows(before, after) && |after.nonces| == |before.nonces|
    && after.info == before.info && after.kickoffs == before.kickoffs
    && |partials| <= |sighashes|
    && (forall t :: 0 <= t < |partials| ==>
         && SlotHolds(after, v, start + t, partials[t])
         && partials[t].message == sighashes[t] && partials[t].tweaked == tweaked)
  }

  lemma BindingGrows(rec: Record, start: nat, sighashes: seq<Sighash>)
    ensures var bound := BindSighashes(rec.nonces, start, sighashes);
            bound.Some? ==> |bound.value| == |rec.nonces| && Grows(rec, rec.(nonces := bound.value))
  {
    var bound := BindSighashes(rec.nonces, start, sighashes);
    if bound.Some? {
      forall k | 0 <= k < |rec.nonces| ensures RowGrows(rec.nonces[k], bound.value[k]) {
        assert start <= k < start + |sighashes| ==> MayBind(rec.nonces[k], sighashes[k - start]);
      }
    }
  }

  lemma BindingBinds(rows: seq<NonceRow>, start: nat, sighashes: seq<Sighash>)
    ensures var bound := BindSighashes(rows, start, sighashes);
            bound.Some? ==> forall t :: 0 <= t < |sighashes| && start + t < |rows| ==>
              bound.value[start + t].sighash == Some(sighashes[t])
  {
  }

  lemma BindAndSignFacts(v: nat, rec: Record, start: nat, sighashes: seq<Sighash>, tweaked: bool)
    ensures var (rec', r) := BindAndSign(v, rec, start, sighashes, tweaked);
            Bound(v, rec, rec', start, sighashes, tweaked, Returned(r))
  {
    BindingGrows(rec, start, sighashes);
    BindingBinds(rec.nonces, start, sighashes);
    assert Grows(rec, rec);
    hide Grows, BindSighashes;
    var (rec', r) := BindAndSign(v, rec, start, sighashes, tweaked);
    var affected := Affected(rec'.nonces, start, |sighashes|);
    forall t | 0 <= t < |Returned(r)| ensures SlotHolds(rec', v, start + t, Returned(r)[t]) {
      assert affected[t] == rec'.nonces[start + t];
    }
  }

  /** What each kind of call signs, in terms of the rows it leaves. */
  ghost predicate SignsFor(cfg: Config, d: OutPoint, seen: Record, rec: Record, call: Call, t: nat, p: Partial) {
    match call
    case NewDeposit(_, _, _) => false
    case KickoffsGenerated(utxos, _, _) =>
      t < |utxos| && SlashSighash(cfg, d, utxos[t], t) == Some(p.message) && !p.tweaked
    case BurnTxsSigned(sigs) =>
      && t < |rec.kickoffs| && p.tweaked
      && TakesSighash(cfg, d, rec.kickoffs[t].utxo, t) == Some(p.message)
      && SlashSighash(cfg, d, rec.kickoffs[t].utxo, t).Some?
      && t < |sigs| && sigs[t] == NofN(SlashSighash(cfg, d, rec.kickoffs[t].utxo, t).value, false)
    case OperatorTakeTxsSigned(sigs) =>
      && t == 0 && rec.info.Some? && !p.tweaked && seen.kickoffs != []
      && MoveSighash(cfg, d, rec.info.value.evm, rec.info.value.recovery) == Some(p.message)
      && (forall i :: 0 <= i < |seen.kickoffs| ==> TakeSigOk(cfg, d, seen.kickoffs[i].utxo, sigs, i))
  }

  ghost predicate OutcomeOk(cfg: Config, v: nat, d: OutPoint, seen: Record, rec: Record, call: Call, o: Outcome) {
    && Grows(rec, o.record)
    && (|rec.nonces| == 0 || |rec.nonces| == RequiredNonces(cfg) ==>
         |o.record.nonces| == 0 || |o.record.nonces| == RequiredNonces(cfg))
    && (forall t :: 0 <= t < |o.partials| ==>
         SlotHolds(o.record, v, o.start + t, o.partials[t]) && SignsFor(cfg, d, seen, o.record, call, t, o.partials[t]))
  }

  lemma StoringGrows(rec: Record, aggs: seq<AggNonce>, utxos: seq<Utxo>)
    ensures Grows(rec, rec.(nonces := WithAggNonces(rec.nonces, aggs), kickoffs := WithKickoffs(rec.kickoffs, utxos)))
  {
  }

  lemma SigsGrow(rec: Record, sigs: seq<Signature>, batch: seq<(Utxo, Signature)>)
    ensures Grows(rec, rec.(kickoffs := WithSlashSigs(rec.kickoffs, sigs)))
    ensures Grows(rec, rec.(kickoffs := WithTakeSigs(rec.kickoffs, batch)))
    ensures Utxos(WithTakeSigs(rec.kickoffs, batch)) == Utxos(rec.kickoffs)
  {
  }

  lemma NothingHappens(cfg: Config, v: nat, d: OutPoint, seen: Record, rec: Record, call: Call, start: nat)
    ensures OutcomeOk(cfg, v, d, seen, rec, call, Outcome(rec, start, []))
  {
  }

  /** What was seen is still stored. */
  lemma SeenAreStored(seen: Record, rec: Record)
    requires Grows(seen, rec)
    ensures |seen.kickoffs| <= |rec.kickoffs|
    ensures forall i :: 0 <= i < |seen.kickoffs| ==> rec.kickoffs[i].utxo == seen.kickoffs[i].utxo
    ensures seen.info.Some? ==> rec.info == seen.info
  {
  }

  lemma KickoffsGeneratedFacts(cfg: Config, v: nat, d: OutPoint, seen: Record, rec: Record, call: Call)
    requires call.KickoffsGenerated?
    ensures OutcomeOk(cfg, v, d, seen, rec, call, Perform(cfg, v, d, seen, rec, call))
  {
    hide SlashSighash, Grows, SlotHolds, BindAndSign;
    NothingHappens(cfg, v, d, seen, rec, call, SlashSlot(cfg));
    if |call.operatorSigs| == |call.utxos| && call.aggs != [] && call.utxos != [] {
      var sighashes := CheckKickoffs(cfg, d, call.utxos, call.operatorSigs, |call.utxos|);
      if sighashes.Success? {
        var stored := rec.(nonces := WithAggNonces(rec.nonces, call.aggs),
                           kickoffs := WithKickoffs(rec.kickoffs, call.utxos));
        StoringGrows(rec, call.aggs, call.utxos);
        BindAndSignFacts(v, stored, SlashSlot(cfg), sighashes.value, false);
        hide WithAggNonces, WithKickoffs, CheckKickoffs, SlashSlot;
        GrowsTransitive(rec, stored, BindAndSign(v, stored, SlashSlot(cfg), sighashes.value, false).0);
      }
    }
  }

  lemma BurnTxsSignedFacts(cfg: Config, v: nat, d: OutPoint, seen: Record, rec: Record, call: Call)
    requires call.BurnTxsSigned? && Grows(seen, rec)
    ensures OutcomeOk(cfg, v, d, seen, rec, call, Perform(cfg, v, d, seen, rec, call))
  {
    hide SlashSighash, TakesSighash, MoveSighash, Grows, SlotHolds, BindAndSign;
    NothingHappens(cfg, v, d, seen, rec, call, TAKES_SLOT);
    SeenAreStored(seen, rec);
    var sighashes := CheckSlashSigs(cfg, d, Utxos(seen.kickoffs), call.slashOrTakeSigs, |seen.kickoffs|);
    if sighashes.Some? {
      var saved := rec.(kickoffs := WithSlashSigs(rec.kickoffs, call.slashOrTakeSigs));
      SigsGrow(rec, call.slashOrTakeSigs, []);
      BindAndSignFacts(v, saved, TAKES_SLOT, sighashes.value, true);
      assert forall i :: 0 <= i < |seen.kickoffs| ==>
          Utxos(seen.kickoffs)[i] == rec.kickoffs[i].utxo == saved.kickoffs[i].utxo;
      hide WithSlashSigs, CheckSlashSigs, Utxos;
      GrowsTransitive(rec, saved, BindAndSign(v, saved, TAKES_SLOT, sighashes.value, true).0);
    }
  }

  lemma OperatorTakeTxsSignedFacts(cfg: Config, v: nat, d: OutPoint, seen: Record, rec: Record, call: Call)
    requires call.OperatorTakeTxsSigned? && Grows(seen, rec)
    ensures OutcomeOk(cfg, v, d, seen, rec, call, Perform(cfg, v, d, seen, rec, call))
  {
    hide TakeSigOk, MoveSighash, Grows, SlotHolds, BindAndSign;
    NothingHappens(cfg, v, d, seen, rec, call, MOVE_SLOT);
    var sigs := call.operatorTakeSigs;
    SeenAreStored(seen, rec);
    var details := DepositDetails(cfg, d, seen);
    if details.Success? && TakeSigsOk(cfg, d, Utxos(seen.kickoffs), sigs) {
      EnoughTakeSigs(cfg, d, Utxos(seen.kickoffs), sigs);
      var batch := UtxosAndSigs(Utxos(seen.kickoffs), sigs);
      var saved := rec.(kickoffs := WithTakeSigs(rec.kickoffs, batch));
      SigsGrow(rec, sigs, batch);
      BindAndSignFacts(v, saved, MOVE_SLOT, [details.value], false);
      assert forall i :: 0 <= i < |seen.kickoffs| ==> Utxos(seen.kickoffs)[i] == seen.kickoffs[i].utxo;
      hide WithTakeSigs, Utxos, UtxosAndSigs;
      GrowsTransitive(rec, saved, BindAndSign(v, saved, MOVE_SLOT, [details.value], false).0);
    }
  }

  lemma PerformFacts(cfg: Config, v: nat, d: OutPoint, seen: Record, rec: Record, call: Call)
    requires Callable(cfg, call) && Grows(seen, rec)
    ensures OutcomeOk(cfg, v, d, seen, rec, call, Perform(cfg, v, d, seen, rec, call))
  {
    match call
    case NewDeposit(_, _, _) =>
    case KickoffsGenerated(_, _, _) => KickoffsGeneratedFacts(cfg, v, d, seen, rec, call);
    case BurnTxsSigned(_) => BurnTxsSignedFacts(cfg, v, d, seen, rec, call);
    case OperatorTakeTxsSigned(_) => OperatorTakeTxsSignedFacts(cfg, v, d, seen, rec, call);
  }
}
