/**
 The aggregated nonces the partial signatures are made with: which calls decide them, and
 when all signatures out of one slot carry the same one.
*/
module AggregatedNonces {
  import opened Wrappers
  import opened Transactions
  import opened VerifierDatabase
  import opened Verifier
  import opened Signing
  import opened Safety

  /** Every list of aggregated nonces given for the deposit that reaches the slot holds `a` there. */
  ghost predicate ListsAgree(events: seq<Event>, v: nat, d: OutPoint, slot: nat, a: AggNonce) {
    forall k :: 0 <= k < |events| && events[k].verifier == v && events[k].deposit == d ==>
      CallAgrees(events[k].call, slot, a)
  }

  predicate CallAgrees(call: Call, slot: nat, a: AggNonce) {
    call.KickoffsGenerated? && slot < |call.aggs| ==> call.aggs[slot] == a
  }

  ghost predicate RowAgrees(rec: Record, slot: nat, a: AggNonce) {
    slot < |rec.nonces| && rec.nonces[slot].agg.Some? ==> rec.nonces[slot].agg.value == a
  }

  ghost predicate SignedWith(rows: seq<NonceRow>, start: nat, partials: seq<Partial>) {
    forall t :: 0 <= t < |partials| ==> start + t < |rows| && rows[start + t].agg == Some(partials[t].agg)
  }

  /** A call signs with what the rows then hold, and only operator_kickoffs_generated sets it. */
  ghost predicate SignsWithRows(rec: Record, call: Call, o: Outcome) {
    && SignedWith(o.record.nonces, o.start, o.partials)
    && (forall k :: 0 <= k < |o.record.nonces| && o.record.nonces[k].agg.Some? ==>
         || (k < |rec.nonces| && rec.nonces[k].agg == o.record.nonces[k].agg)
         || (call.KickoffsGenerated? && k < |call.aggs| && o.record.nonces[k].agg.value == call.aggs[k]))
  }

  lemma BindAndSignAggs(v: nat, rec: Record, start: nat, sighashes: seq<Sighash>, tweaked: bool)
    ensures var (rec', r) := BindAndSign(v, rec, start, sighashes, tweaked);
            && |rec'.nonces| == |rec.nonces|
            && (forall k :: 0 <= k < |rec.nonces| ==> rec'.nonces[k].agg == rec.nonces[k].agg)
            && SignedWith(rec'.nonces, start, Returned(r))
  {
    hide MayBindAll;
    var (rec', r) := BindAndSign(v, rec, start, sighashes, tweaked);
    var affected := Affected(rec'.nonces, start, |sighashes|);
    var partials := Returned(r);
    forall t | 0 <= t < |partials|
      ensures start + t < |rec'.nonces| && rec'.nonces[start + t].agg == Some(partials[t].agg)
    {
      assert affected[t] == rec'.nonces[start + t];
    }
  }

  lemma NothingSigned()
    ensures forall rows, start :: SignedWith(rows, start, [])
  {
  }

  lemma FirstSignedWith(rows: seq<NonceRow>, start: nat, partials: seq<Partial>)
    requires SignedWith(rows, start, partials)
    ensures partials != [] ==> SignedWith(rows, start, [partials[0]])
  {
  }

  lemma PerformAggs(cfg: Config, v: nat, d: OutPoint, seen: Record, rec: Record, call: Call)
    requires Callable(cfg, call)
    ensures SignsWithRows(rec, call, Perform(cfg, v, d, seen, rec, call))
  {
    hide BindAndSign, SlashSighash, TakesSighash, MoveSighash, SignedWith;
    NothingSigned();
    match call
    case NewDeposit(_, _, _) =>
    case KickoffsGenerated(utxos, sigs, aggs) =>
      if |sigs| == |utxos| {
        var sighashes := CheckKickoffs(cfg, d, utxos, sigs, |utxos|);
        if sighashes.Success? {
          var stored := rec.(nonces := WithAggNonces(rec.nonces, aggs), kickoffs := WithKickoffs(rec.kickoffs, utxos));
          assert forall k :: 0 <= k < |rec.nonces| ==>
              stored.nonces[k].agg == if k < |aggs| then Some(aggs[k]) else rec.nonces[k].agg;
          BindAndSignAggs(v, stored, SlashSlot(cfg), sighashes.value, false);
          hide CheckKickoffs, WithKickoffs, WithAggNonces;
        }
      }
    case BurnTxsSigned(sigs) =>
      var sighashes := CheckSlashSigs(cfg, d, Utxos(seen.kickoffs), sigs, |seen.kickoffs|);
      if sighashes.Some? {
        BindAndSignAggs(v, rec.(kickoffs := WithSlashSigs(rec.kickoffs, sigs)), TAKES_SLOT, sighashes.value, true);
      }
    case OperatorTakeTxsSigned(sigs) =>
      var details := DepositDetails(cfg, d, seen);
      if details.Success? && TakeSigsOk(cfg, d, Utxos(seen.kickoffs), sigs) {
        EnoughTakeSigs(cfg, d, Utxos(seen.kickoffs), sigs);
        var batch := UtxosAndSigs(Utxos(seen.kickoffs), sigs);
        var saved := rec.(kickoffs := WithTakeSigs(rec.kickoffs, batch));
        BindAndSignAggs(v, saved, MOVE_SLOT, [details.value], false);
        var (rec', r) := BindAndSign(v, saved, MOVE_SLOT, [details.value], false);
        FirstSignedWith(rec'.nonces, MOVE_SLOT, Returned(r));
      }
  }

  /** The slot's row, and everything signed out of it so far, carry `a` or nothing. */
  ghost predicate SlotCarries(s: System, v: nat, d: OutPoint, slot: nat, a: AggNonce) {
    && RowAgrees(RecordOf(s, v, d), slot, a)
    && forall r :: r in s.released && r.partial.signer == v && r.deposit == d && r.slot == slot ==> r.partial.agg == a
  }

  lemma RowStillAgrees(rec: Record, call: Call, o: Outcome, slot: nat, a: AggNonce)
    requires RowAgrees(rec, slot, a) && SignsWithRows(rec, call, o) && CallAgrees(call, slot, a)
    ensures RowAgrees(o.record, slot, a)
    ensures forall t :: 0 <= t < |o.partials| && o.start + t == slot ==> o.partials[t].agg == a
  {
  }

  /** What a step releases is what the call returned. */
  lemma NewRelease(cfg: Config, s: System, e: Event, r: Release)
    requires Enabled(cfg, s, e) && r in Next(cfg, s, e).released && r !in s.released
    ensures var o := Perform(cfg, e.verifier, e.deposit, e.seen, RecordOf(s, e.verifier, e.deposit), e.call);
            && r.partial.signer == e.verifier && r.deposit == e.deposit
            && exists t :: 0 <= t < |o.partials| && r.slot == o.start + t && r.partial == o.partials[t]
  {
    PerformFacts(cfg, e.verifier, e.deposit, e.seen, RecordOf(s, e.verifier, e.deposit), e.call);
    hide Perform, Grows, SignsFor, Presentable, RecordOf;
    var o := Perform(cfg, e.verifier, e.deposit, e.seen, RecordOf(s, e.verifier, e.deposit), e.call);
    var t :| 0 <= t < |o.partials| && r == Release(e.deposit, o.start + t, o.partials[t]);
  }

  lemma NextCarries(cfg: Config, s: System, e: Event, v: nat, d: OutPoint, slot: nat, a: AggNonce)
    requires Enabled(cfg, s, e) && SlotCarries(s, v, d, slot, a)
    requires e.verifier == v && e.deposit == d ==> CallAgrees(e.call, slot, a)
    ensures SlotCarries(Next(cfg, s, e), v, d, slot, a)
  {
    hide Perform, Next, Grows, Presentable, RecordOf, RowAgrees, SignsWithRows, CallAgrees;
    var rec := RecordOf(s, e.verifier, e.deposit);
    PerformAggs(cfg, e.verifier, e.deposit, e.seen, rec, e.call);
    NextRecord(cfg, s, e, v, d);
    var o, t := Perform(cfg, e.verifier, e.deposit, e.seen, rec, e.call), Next(cfg, s, e);
    if e.verifier == v && e.deposit == d {
      RowStillAgrees(rec, e.call, o, slot, a);
    }
    forall r | r in t.released && r.partial.signer == v && r.deposit == d && r.slot == slot ensures r.partial.agg == a {
      if r !in s.released {
        NewRelease(cfg, s, e, r);
      }
    }
  }

  lemma {:induction false} RunCarries(cfg: Config, s: System, events: seq<Event>, v: nat, d: OutPoint, slot: nat,
                                      a: AggNonce)
    requires ValidRun(cfg, s, events) && SlotCarries(s, v, d, slot, a) && ListsAgree(events, v, d, slot, a)
    ensures SlotCarries(Run(cfg, s, events), v, d, slot, a)
    decreases |events|
  {
    hide SlotCarries, Presentable, Perform;
    if events != [] {
      NextCarries(cfg, s, events[0], v, d, slot, a);
      RunCarries(cfg, Next(cfg, s, events[0]), events[1..], v, d, slot, a);
    }
  }

  /**
   Over every run: when the lists of aggregated nonces given to a verifier for a deposit
   agree at a slot, all partial signatures out of the slot carry that aggregated nonce.
  */
  lemma SlotHasOneAggregate(cfg: Config, n: nat, events: seq<Event>, slot: nat, a: AggNonce, r: Release)
    requires ValidRun(cfg, Initial(n), events) && r in Run(cfg, Initial(n), events).released && r.slot == slot
    requires ListsAgree(events, r.partial.signer, r.deposit, slot, a)
    ensures r.partial.agg == a
  {
    hide Run, ValidRun, ListsAgree;
    RunCarries(cfg, Initial(n), events, r.partial.signer, r.deposit, slot, a);
  }

  // When the lists do not agree.

  /** The rows after a later list of aggregated nonces: it overrides the slots it reaches, nothing else. */
  ghost predicate Overlaid(rows: seq<NonceRow>, after: seq<NonceRow>, list: seq<AggNonce>) {
    && |after| == |rows|
    && forall k :: 0 <= k < |rows| ==>
         && after[k].sec == rows[k].sec && (rows[k].sighash.Some? ==> after[k].sighash == rows[k].sighash)
         && after[k].agg == if k < |list| then Some(list[k]) else rows[k].agg
  }

  /** The partial signatures out of the slots from `start` on, made again after the list. */
  ghost predicate SignedAgain(one: seq<Partial>, two: seq<Partial>, start: nat, list: seq<AggNonce>) {
    && |two| == |one|
    && forall t :: 0 <= t < |one| ==>
         two[t] == if start + t < |list| then one[t].(agg := list[start + t]) else one[t]
  }

  /** Slot by slot the two signatures are the same exactly when the list agrees with the first one. */
  lemma SameAgainIff(one: seq<Partial>, two: seq<Partial>, start: nat, list: seq<AggNonce>, t: nat)
    requires SignedAgain(one, two, start, list) && t < |one|
    ensures two[t] == one[t] <==> (start + t < |list| ==> list[start + t] == one[t].agg)
  {
  }

  lemma OverlaidBinds(rows: seq<NonceRow>, start: nat, sighashes: seq<Sighash>, after: seq<NonceRow>,
                      list: seq<AggNonce>)
    requires BindSighashes(rows, start, sighashes).Some?
    requires Overlaid(BindSighashes(rows, start, sighashes).value, after, list)
    ensures BindSighashes(after, start, sighashes) == Some(after)
  {
    var bound := BindSighashes(rows, start, sighashes).value;
    assert forall k :: start <= k < |rows| && k < start + |sighashes| ==>
        bound[k].sighash == Some(sighashes[k - start]);
    assert MayBindAll(after, start, sighashes);
    assert WithSighashes(after, start, sighashes) == after;
  }

  /** After any later list the same messages are signed again, by the same nonces, with its sums. */
  lemma BoundSignsAgain(v: nat, rec: Record, start: nat, sighashes: seq<Sighash>, tweaked: bool, after: Record,
                        list: seq<AggNonce>)
    requires BindAndSign(v, rec, start, sighashes, tweaked).1.Success?
    requires Overlaid(BindAndSign(v, rec, start, sighashes, tweaked).0.nonces, after.nonces, list)
    ensures BindAndSign(v, after, start, sighashes, tweaked).1.Success?
    ensures SignedAgain(BindAndSign(v, rec, start, sighashes, tweaked).1.value,
                        BindAndSign(v, after, start, sighashes, tweaked).1.value, start, list)
  {
    hide BindSighashes, Overlaid, AllAggregated, Affected, Sign, SignedAgain;
    OverlaidBinds(rec.nonces, start, sighashes, after.nonces, list);
    var bound, n := BindSighashes(rec.nonces, start, sighashes).value, |sighashes|;
    AffectedOverlaid(bound, after.nonces, start, n, list);
    SignOverlaid(v, Affected(bound, start, n), Affected(after.nonces, start, n), sighashes, tweaked, start, list);
  }

  /** The affected rows of overlaid rows, row by row. */
  ghost predicate AffectedOver(first: seq<NonceRow>, again: seq<NonceRow>, start: nat, list: seq<AggNonce>) {
    && |first| == |again|
    && forall t :: 0 <= t < |first| ==>
         && again[t].sec == first[t].sec
         && again[t].agg == if start + t < |list| then Some(list[start + t]) else first[t].agg
  }

  lemma AffectedOverlaid(bound: seq<NonceRow>, after: seq<NonceRow>, start: nat, n: nat, list: seq<AggNonce>)
    requires Overlaid(bound, after, list)
    ensures AffectedOver(Affected(bound, start, n), Affected(after, start, n), start, list)
  {
  }

  lemma SignOverlaid(v: nat, first: seq<NonceRow>, again: seq<NonceRow>, sighashes: seq<Sighash>, tweaked: bool,
                     start: nat, list: seq<AggNonce>)
    requires AffectedOver(first, again, start, list) && AllAggregated(first) && |first| <= |sighashes|
    ensures AllAggregated(again)
    ensures SignedAgain(Sign(v, first, sighashes, tweaked), Sign(v, again, sighashes, tweaked), start, list)
  {
    forall t | 0 <= t < |again| ensures again[t].agg.Some? {
      assert first[t].agg.Some?;
    }
  }

  /** A call of operator_kickoffs_generated that succeeds overlays its list. */
  lemma StoringOverlays(cfg: Config, v: nat, rec: Record, utxos: seq<Utxo>, sighashes: seq<Sighash>,
                        list: seq<AggNonce>)
    requires StoreKickoffs(cfg, v, rec, utxos, sighashes, list).1.Success?
    ensures var after := StoreKickoffs(cfg, v, rec, utxos, sighashes, list).0;
            Overlaid(rec.nonces, after.nonces, list) && after.info == rec.info
  {
    var stored := rec.(nonces := WithAggNonces(rec.nonces, list), kickoffs := WithKickoffs(rec.kickoffs, utxos));
    BindingGrows(stored, SlashSlot(cfg), sighashes);
    BindAndSignAggs(v, stored, SlashSlot(cfg), sighashes, false);
    assert forall k :: 0 <= k < |rec.nonces| ==>
        && stored.nonces[k].sec == rec.nonces[k].sec && stored.nonces[k].sighash == rec.nonces[k].sighash;
    hide WithAggNonces, WithKickoffs, BindSighashes;
    var after := BindAndSign(v, stored, SlashSlot(cfg), sighashes, false).0;
    forall k | 0 <= k < |rec.nonces|
      ensures after.nonces[k].sec == rec.nonces[k].sec
      ensures rec.nonces[k].sighash.Some? ==> after.nonces[k].sighash == rec.nonces[k].sighash
    {
      assert RowGrows(stored.nonces[k], after.nonces[k]);
    }
  }

  /** The rows after a first signing and then a second list of aggregated nonces. */
  ghost predicate ThenList(cfg: Config, v: nat, d: OutPoint, rec: Record, utxos: seq<Utxo>,
                           sigs: seq<OperatorSignature>,
                           list: seq<AggNonce>, after: Record) {
    && KickoffsGeneratedStep(cfg, v, d, rec, utxos, sigs, list).1.Success?
    && after == KickoffsGeneratedStep(cfg, v, d, rec, utxos, sigs, list).0
  }

  lemma ThenListOverlays(cfg: Config, v: nat, d: OutPoint, rec: Record, utxos: seq<Utxo>, sigs: seq<OperatorSignature>,
                         list: seq<AggNonce>, after: Record)
    requires ThenList(cfg, v, d, rec, utxos, sigs, list, after)
    ensures Overlaid(rec.nonces, after.nonces, list) && after.info == rec.info
  {
    hide StoreKickoffs, CheckKickoffs;
    StoringOverlays(cfg, v, rec, utxos, CheckKickoffs(cfg, d, utxos, sigs, |utxos|).value, list);
  }

  /** For slash_or_take: the same kickoffs with another list. */
  lemma KickoffsSignedAgain(cfg: Config, v: nat, rec: Record, utxos: seq<Utxo>, sighashes: seq<Sighash>,
                            first: seq<AggNonce>, list: seq<AggNonce>)
    requires StoreKickoffs(cfg, v, rec, utxos, sighashes, first).1.Success? && list != []
    ensures var (rec', one) := StoreKickoffs(cfg, v, rec, utxos, sighashes, first);
            var two := StoreKickoffs(cfg, v, rec', utxos, sighashes, list).1;
            two.Success? && SignedAgain(one.value, two.value, SlashSlot(cfg), list)
  {
    var stored := rec.(nonces := WithAggNonces(rec.nonces, first), kickoffs := WithKickoffs(rec.kickoffs, utxos));
    var rec' := BindAndSign(v, stored, SlashSlot(cfg), sighashes, false).0;
    var again := rec'.(nonces := WithAggNonces(rec'.nonces, list), kickoffs := WithKickoffs(rec'.kickoffs, utxos));
    assert Overlaid(rec'.nonces, again.nonces, list);
    hide WithAggNonces, WithKickoffs, BindAndSign, Overlaid, SignedAgain;
    BoundSignsAgain(v, stored, SlashSlot(cfg), sighashes, false, again, list);
  }

  /**
   For operator_takes: burn_txs_signed, a second list, and burn_txs_signed again with the
   same signatures, over the kickoffs the first one saw.
  */
  lemma BurnSignsAgain(cfg: Config, v: nat, d: OutPoint, rec: Record, sigs: seq<Signature>, utxos: seq<Utxo>,
                       operatorSigs: seq<OperatorSignature>, list: seq<AggNonce>, after: Record, seen: Record)
    requires BurnTxsSignedStep(cfg, v, d, rec, rec, sigs).1.Success?
    requires ThenList(cfg, v, d, BurnTxsSignedStep(cfg, v, d, rec, rec, sigs).0, utxos, operatorSigs, list, after)
    requires Utxos(seen.kickoffs) == Utxos(rec.kickoffs) && seen.info == rec.info
    ensures BurnTxsSignedStep(cfg, v, d, seen, after, sigs).1.Success?
    ensures SignedAgain(BurnTxsSignedStep(cfg, v, d, rec, rec, sigs).1.value,
                        BurnTxsSignedStep(cfg, v, d, seen, after, sigs).1.value, TAKES_SLOT, list)
  {
    hide KickoffsGeneratedStep, MoveSighash, CheckSlashSig, WithSlashSigs, SignedAgain, Overlaid, BindAndSign;
    ThenListOverlays(cfg, v, d, BurnTxsSignedStep(cfg, v, d, rec, rec, sigs).0, utxos, operatorSigs, list, after);
    assert |seen.kickoffs| == |Utxos(seen.kickoffs)| == |rec.kickoffs|;
    var sighashes := CheckSlashSigs(cfg, d, Utxos(rec.kickoffs), sigs, |rec.kickoffs|).value;
    BoundSignsAgain(v, rec.(kickoffs := WithSlashSigs(rec.kickoffs, sigs)), TAKES_SLOT, sighashes, true,
                    after.(kickoffs := WithSlashSigs(after.kickoffs, sigs)), list);
  }

  /** For the move: operator_take_txs_signed, a second list, and the call again. */
  lemma TakesSignAgain(cfg: Config, v: nat, d: OutPoint, rec: Record, sigs: seq<Signature>, utxos: seq<Utxo>,
                       operatorSigs: seq<OperatorSignature>, list: seq<AggNonce>, after: Record, seen: Record)
    requires OperatorTakeTxsSignedStep(cfg, v, d, rec, rec, sigs).1.Success?
    requires ThenList(cfg, v, d, OperatorTakeTxsSignedStep(cfg, v, d, rec, rec, sigs).0, utxos, operatorSigs, list,
                      after)
    requires Utxos(seen.kickoffs) == Utxos(rec.kickoffs) && seen.info == rec.info
    ensures OperatorTakeTxsSignedStep(cfg, v, d, seen, after, sigs).1.Success?
    ensures SignedAgain([OperatorTakeTxsSignedStep(cfg, v, d, rec, rec, sigs).1.value],
                        [OperatorTakeTxsSignedStep(cfg, v, d, seen, after, sigs).1.value], MOVE_SLOT, list)
  {
    hide KickoffsGeneratedStep, MoveSighash, TakeSigOk, WithTakeSigs, Overlaid, BindAndSign;
    var step := OperatorTakeTxsSignedStep(cfg, v, d, rec, rec, sigs);
    ThenListOverlays(cfg, v, d, step.0, utxos, operatorSigs, list, after);
    assert |seen.kickoffs| == |Utxos(seen.kickoffs)| == |rec.kickoffs|;
    EnoughTakeSigs(cfg, d, Utxos(rec.kickoffs), sigs);
    var batch := UtxosAndSigs(Utxos(rec.kickoffs), sigs);
    var messages := [DepositDetails(cfg, d, rec).value];
    BoundSignsAgain(v, rec.(kickoffs := WithTakeSigs(rec.kickoffs, batch)), MOVE_SLOT, messages, false,
                    after.(kickoffs := WithTakeSigs(after.kickoffs, batch)), list);
  }

  /** An instance: one operator, the secret nonces 1, 2 and 3, and two different sums in every slot. */
  lemma SecondListExample(cfg: Config, v: nat, utxo: Utxo, m: Sighash, a: AggNonce, b: AggNonce)
    requires cfg.numOperators == 1 && a != b
    ensures var rec := Record(None, FreshRows([1, 2, 3]), []);
            var (rec', one) := StoreKickoffs(cfg, v, rec, [utxo], [m], [a, a, a]);
            var two := StoreKickoffs(cfg, v, rec', [utxo], [m], [b, b, b]).1;
            && one == Success([Partial(v, 3, a, m, false)])
            && two == Success([Partial(v, 3, b, m, false)])
  {
    var rec := Record(None, FreshRows([1, 2, 3]), []);
    var stored := WithAggNonces(rec.nonces, [a, a, a]);
    var bound := WithSighashes(stored, 2, [m]);
    assert Affected(bound, 2, 1) == [bound[2]];
    var one := StoreKickoffs(cfg, v, rec, [utxo], [m], [a, a, a]).1;
    assert one.Success? && one.value == [Partial(v, 3, a, m, false)];
    KickoffsSignedAgain(cfg, v, rec, [utxo], [m], [a, a, a], [b, b, b]);
    var two := StoreKickoffs(cfg, v, StoreKickoffs(cfg, v, rec, [utxo], [m], [a, a, a]).0, [utxo], [m], [b, b, b]).1;
    assert two.value == [two.value[0]];
  }
}
