/** What N verifiers keep over every run: when a move transaction can be signed. */
module Safety {
  import opened Wrappers
  import opened Transactions
  import opened VerifierDatabase
  import opened Verifier
  import opened Signing

  /** Both reimbursement transactions of the kickoff are signed by everyone. */
  ghost predicate Reimbursable(cfg: Config, s: System, d: OutPoint, u: Utxo, i: nat) {
    && SlashSighash(cfg, d, u, i).Some? && FullySigned(s, SlashSighash(cfg, d, u, i).value, false)
    && TakesSighash(cfg, d, u, i).Some? && FullySigned(s, TakesSighash(cfg, d, u, i).value, true)
  }

  // The invariant. The slots 0, 1..n and n+1..2n serve the three kinds of messages.

  ghost predicate MoveReleaseOk(cfg: Config, s: System, r: Release, rec: Record) {
    && r.slot == MOVE_SLOT && !r.partial.tweaked && rec.info.Some?
    && MoveSighash(cfg, r.deposit, rec.info.value.evm, rec.info.value.recovery) == Some(r.partial.message)
    && (exists e :: e in s.moves && e.verifier == r.partial.signer && e.deposit == r.deposit)
  }

  ghost predicate TakesReleaseOk(cfg: Config, s: System, r: Release, rec: Record) {
    && 1 <= r.slot <= |cfg.operators| && r.slot - 1 < |rec.kickoffs| && r.partial.tweaked
    && var i, u := r.slot - 1, rec.kickoffs[r.slot - 1].utxo;
    && TakesSighash(cfg, r.deposit, u, i) == Some(r.partial.message)
    && SlashSighash(cfg, r.deposit, u, i).Some?
    && FullySigned(s, SlashSighash(cfg, r.deposit, u, i).value, false)
  }

  ghost predicate SlashReleaseOk(cfg: Config, r: Release) {
    && |cfg.operators| < r.slot <= 2 * |cfg.operators| && !r.partial.tweaked
    && var i := r.slot - |cfg.operators| - 1;
    && exists u :: SlashSighash(cfg, r.deposit, u, i) == Some(r.partial.message)
  }

  ghost predicate ReleaseOk(cfg: Config, s: System, r: Release) {
    var rec := RecordOf(s, r.partial.signer, r.deposit);
    && r.partial.signer < |s.records|
    && SlotHolds(rec, r.partial.signer, r.slot, r.partial)
    && (MoveReleaseOk(cfg, s, r, rec) || TakesReleaseOk(cfg, s, r, rec) || SlashReleaseOk(cfg, r))
  }

  ghost predicate MoveOk(cfg: Config, s: System, e: MoveEvent) {
    && e.verifier < |s.records| && e.utxos != []
    && forall i :: 0 <= i < |e.utxos| ==>
         && TakesSighash(cfg, e.deposit, e.utxos[i], i).Some?
         && FullySigned(s, TakesSighash(cfg, e.deposit, e.utxos[i], i).value, true)
  }

  ghost predicate NoncesOk(cfg: Config, s: System) {
    forall v, d :: |RecordOf(s, v, d).nonces| == 0 || |RecordOf(s, v, d).nonces| == RequiredNonces(cfg)
  }

  ghost predicate Invariant(cfg: Config, s: System) {
    && NoncesOk(cfg, s)
    && (forall r :: r in s.released ==> ReleaseOk(cfg, s, r))
    && (forall e :: e in s.moves ==> MoveOk(cfg, s, e))
  }

  // Preservation.

  ghost predicate Later(s: System, t: System) {
    && |t.records| == |s.records| && s.released <= t.released && s.moves <= t.moves
    && forall v, d :: Grows(RecordOf(s, v, d), RecordOf(t, v, d))
  }

  lemma FullySignedStays(s: System, t: System, message: Sighash, tweaked: bool)
    requires Later(s, t) && FullySigned(s, message, tweaked)
    ensures FullySigned(t, message, tweaked)
  {
    hide Grows;
    forall v | 0 <= v < |t.records| ensures SignedBy(t, v, message, tweaked) {
      assert SignedBy(s, v, message, tweaked);
    }
  }

  lemma ReleaseStaysOk(cfg: Config, s: System, t: System, r: Release)
    requires Later(s, t) && ReleaseOk(cfg, s, r)
    ensures ReleaseOk(cfg, t, r)
  {
    hide SlashSighash, TakesSighash, MoveSighash, FullySigned;
    var rec, rec' := RecordOf(s, r.partial.signer, r.deposit), RecordOf(t, r.partial.signer, r.deposit);
    assert Grows(rec, rec');
    assert RowGrows(rec.nonces[r.slot], rec'.nonces[r.slot]);
    if TakesReleaseOk(cfg, s, r, rec) {
      FullySignedStays(s, t, SlashSighash(cfg, r.deposit, rec.kickoffs[r.slot - 1].utxo, r.slot - 1).value, false);
    }
  }

  lemma MoveStaysOk(cfg: Config, s: System, t: System, e: MoveEvent)
    requires Later(s, t) && MoveOk(cfg, s, e)
    ensures MoveOk(cfg, t, e)
  {
    hide TakesSighash, FullySigned, Grows;
    forall i | 0 <= i < |e.utxos|
      ensures FullySigned(t, TakesSighash(cfg, e.deposit, e.utxos[i], i).value, true)
    {
      FullySignedStays(s, t, TakesSighash(cfg, e.deposit, e.utxos[i], i).value, true);
    }
  }

  lemma GrowsReflexive(a: Record)
    ensures Grows(a, a)
  {
  }

  lemma NextRecord(cfg: Config, s: System, e: Event, v: nat, d: OutPoint)
    requires Enabled(cfg, s, e)
    ensures RecordOf(Next(cfg, s, e), v, d)
            == if v == e.verifier && d == e.deposit
               then Perform(cfg, v, d, e.seen, RecordOf(s, v, d), e.call).record else RecordOf(s, v, d)
  {
    hide Perform;
  }

  lemma NextIsLater(cfg: Config, s: System, e: Event)
    requires Enabled(cfg, s, e)
    ensures Later(s, Next(cfg, s, e))
  {
    var rec := RecordOf(s, e.verifier, e.deposit);
    PerformFacts(cfg, e.verifier, e.deposit, e.seen, rec, e.call);
    hide Perform, Grows;
    forall v: nat, d ensures Grows(RecordOf(s, v, d), RecordOf(Next(cfg, s, e), v, d)) {
      NextRecord(cfg, s, e, v, d);
      GrowsReflexive(RecordOf(s, v, d));
    }
  }

  /** A signature that was presented is still fully signed afterwards. */
  lemma PresentedStays(s: System, t: System, sigs: seq<Signature>, i: nat, message: Sighash, tweaked: bool)
    requires Later(s, t) && Presentable(s, sigs) && i < |sigs| && sigs[i] == NofN(message, tweaked)
    ensures FullySigned(t, message, tweaked)
  {
    hide Later, FullySigned;
    FullySignedStays(s, t, message, tweaked);
  }

  lemma NewSlashReleaseOk(cfg: Config, t: System, r: Release, u: Utxo, k: nat)
    requires r.partial.signer < |t.records|
    requires SlotHolds(RecordOf(t, r.partial.signer, r.deposit), r.partial.signer, r.slot, r.partial)
    requires r.slot == |cfg.operators| + 1 + k && SlashSighash(cfg, r.deposit, u, k) == Some(r.partial.message)
    requires !r.partial.tweaked
    ensures ReleaseOk(cfg, t, r)
  {
    IndexInRange(cfg, r.deposit, u, k);
    hide SlashSighash, SlotHolds, MoveReleaseOk, TakesReleaseOk;
    assert k == r.slot - |cfg.operators| - 1;
    assert SlashReleaseOk(cfg, r);
  }

  lemma NewTakesReleaseOk(cfg: Config, t: System, r: Release, k: nat)
    requires r.partial.signer < |t.records| && r.slot == 1 + k && r.partial.tweaked
    requires var rec := RecordOf(t, r.partial.signer, r.deposit);
             && SlotHolds(rec, r.partial.signer, r.slot, r.partial) && k < |rec.kickoffs|
             && TakesSighash(cfg, r.deposit, rec.kickoffs[k].utxo, k) == Some(r.partial.message)
             && SlashSighash(cfg, r.deposit, rec.kickoffs[k].utxo, k).Some?
             && FullySigned(t, SlashSighash(cfg, r.deposit, rec.kickoffs[k].utxo, k).value, false)
    ensures ReleaseOk(cfg, t, r)
  {
    var rec := RecordOf(t, r.partial.signer, r.deposit);
    IndexInRange(cfg, r.deposit, rec.kickoffs[k].utxo, k);
    hide SlashSighash, TakesSighash, SlotHolds, MoveReleaseOk, SlashReleaseOk, FullySigned;
    assert TakesReleaseOk(cfg, t, r, rec);
  }

  lemma NewMoveReleaseOk(cfg: Config, t: System, r: Release, e: MoveEvent)
    requires r.partial.signer < |t.records| && r.slot == MOVE_SLOT && !r.partial.tweaked
    requires var rec := RecordOf(t, r.partial.signer, r.deposit);
             && SlotHolds(rec, r.partial.signer, r.slot, r.partial) && rec.info.Some?
             && MoveSighash(cfg, r.deposit, rec.info.value.evm, rec.info.value.recovery) == Some(r.partial.message)
    requires e in t.moves && e.verifier == r.partial.signer && e.deposit == r.deposit
    ensures ReleaseOk(cfg, t, r)
  {
    hide SlashSighash, MoveSighash, SlotHolds, SlashReleaseOk, TakesReleaseOk;
    assert MoveReleaseOk(cfg, t, r, RecordOf(t, r.partial.signer, r.deposit));
  }

  lemma NextMoves(cfg: Config, s: System, e: Event)
    requires Enabled(cfg, s, e) && e.call.OperatorTakeTxsSigned?
    requires Perform(cfg, e.verifier, e.deposit, e.seen, RecordOf(s, e.verifier, e.deposit), e.call).partials != []
    ensures MoveEvent(e.verifier, e.deposit, Utxos(e.seen.kickoffs)) in Next(cfg, s, e).moves
  {
    hide Perform, RecordOf, Utxos;
  }

  lemma NewReleaseOk(cfg: Config, s: System, e: Event, k: nat)
    requires WellFormed(cfg) && Enabled(cfg, s, e)
    requires var o := Perform(cfg, e.verifier, e.deposit, e.seen, RecordOf(s, e.verifier, e.deposit), e.call);
             k < |o.partials|
    ensures var o := Perform(cfg, e.verifier, e.deposit, e.seen, RecordOf(s, e.verifier, e.deposit), e.call);
            ReleaseOk(cfg, Next(cfg, s, e), Release(e.deposit, o.start + k, o.partials[k]))
  {
    hide Perform, Next, Later, Grows, SignsFor, SlotHolds, Presentable, ReleaseOk, RecordOf, NoncesOk, Utxos;
    var v, d, t := e.verifier, e.deposit, Next(cfg, s, e);
    var rec := RecordOf(s, v, d);
    var o := Perform(cfg, v, d, e.seen, rec, e.call);
    PerformFacts(cfg, v, d, e.seen, rec, e.call);
    NextIsLater(cfg, s, e);
    NextRecord(cfg, s, e, v, d);
    CallSlots(cfg, v, d, e.seen, rec, e.call);
    if e.call.OperatorTakeTxsSigned? {
      NextMoves(cfg, s, e);
    }
    SignedReleaseOk(cfg, s, t, e, o, MoveEvent(v, d, Utxos(e.seen.kickoffs)), k);
  }

  lemma SignedReleaseOk(cfg: Config, s: System, t: System, e: Event, o: Outcome, m: MoveEvent, k: nat)
    requires WellFormed(cfg) && Later(s, t) && e.verifier < |s.records| && k < |o.partials|
    requires RecordOf(t, e.verifier, e.deposit) == o.record
    requires SlotHolds(o.record, e.verifier, o.start + k, o.partials[k])
    requires SignsFor(cfg, e.deposit, e.seen, o.record, e.call, k, o.partials[k])
    requires match e.call
             case NewDeposit(_, _, _) => true
             case KickoffsGenerated(_, _, _) => o.start == cfg.numOperators + 1
             case BurnTxsSigned(sigs) => o.start == TAKES_SLOT && Presentable(s, sigs)
             case OperatorTakeTxsSigned(_) =>
               o.start == MOVE_SLOT && m in t.moves && m.verifier == e.verifier && m.deposit == e.deposit
    ensures ReleaseOk(cfg, t, Release(e.deposit, o.start + k, o.partials[k]))
  {
    assert o.partials[k].signer == e.verifier && |t.records| == |s.records|;
    hide Later, SlotHolds, SlashSighash, TakesSighash, MoveSighash, FullySigned, Presentable, RecordOf, TakeSigOk;
    hide ReleaseOk;
    var r := Release(e.deposit, o.start + k, o.partials[k]);
    match e.call
    case NewDeposit(_, _, _) =>
    case KickoffsGenerated(utxos, _, _) =>
      NewSlashReleaseOk(cfg, t, r, utxos[k], k);
    case BurnTxsSigned(sigs) =>
      PresentedStays(s, t, sigs, k, SlashSighash(cfg, e.deposit, o.record.kickoffs[k].utxo, k).value, false);
      NewTakesReleaseOk(cfg, t, r, k);
    case OperatorTakeTxsSigned(_) =>
      NewMoveReleaseOk(cfg, t, r, m);
  }

  lemma CallSlots(cfg: Config, v: nat, d: OutPoint, seen: Record, rec: Record, call: Call)
    requires Callable(cfg, call)
    ensures var o := Perform(cfg, v, d, seen, rec, call);
            match call
            case NewDeposit(_, _, _) => o.partials == []
            case KickoffsGenerated(_, _, _) => o.start == cfg.numOperators + 1
            case BurnTxsSigned(_) => o.start == 1
            case OperatorTakeTxsSigned(_) => o.start == 0
  {
  }

  /** Messages exist for configured operators only. */
  lemma IndexInRange(cfg: Config, d: OutPoint, u: Utxo, i: nat)
    ensures SlashSighash(cfg, d, u, i).Some? || TakesSighash(cfg, d, u, i).Some? ==> i < |cfg.operators|
  {
  }

  lemma NewMoveOk(cfg: Config, s: System, e: Event)
    requires Enabled(cfg, s, e) && e.call.OperatorTakeTxsSigned?
    requires Perform(cfg, e.verifier, e.deposit, e.seen, RecordOf(s, e.verifier, e.deposit), e.call).partials != []
    ensures MoveOk(cfg, Next(cfg, s, e), MoveEvent(e.verifier, e.deposit, Utxos(e.seen.kickoffs)))
  {
    var v, d, t := e.verifier, e.deposit, Next(cfg, s, e);
    var rec := RecordOf(s, v, d);
    var o := Perform(cfg, v, d, e.seen, rec, e.call);
    PerformFacts(cfg, v, d, e.seen, rec, e.call);
    NextIsLater(cfg, s, e);
    hide Perform, Later, Grows, TakesSighash, MoveSighash, FullySigned, Presentable;
    var utxos, sigs := Utxos(e.seen.kickoffs), e.call.operatorTakeSigs;
    assert SignsFor(cfg, d, e.seen, o.record, e.call, 0, o.partials[0]);
    assert |t.records| == |s.records|;
    forall i | 0 <= i < |utxos|
      ensures TakesSighash(cfg, d, utxos[i], i).Some? && FullySigned(t, TakesSighash(cfg, d, utxos[i], i).value, true)
    {
      assert TakeSigOk(cfg, d, utxos[i], sigs, i);
      PresentedStays(s, t, sigs, i, TakesSighash(cfg, d, utxos[i], i).value, true);
    }
  }

  lemma NextKeepsNonces(cfg: Config, s: System, e: Event)
    requires Enabled(cfg, s, e) && NoncesOk(cfg, s)
    ensures NoncesOk(cfg, Next(cfg, s, e))
  {
    hide Perform, Next, Grows;
    forall v: nat, d ensures var n := |RecordOf(Next(cfg, s, e), v, d).nonces|; n == 0 || n == RequiredNonces(cfg) {
      NextRecord(cfg, s, e, v, d);
      if v == e.verifier && d == e.deposit {
        PerformFacts(cfg, v, d, e.seen, RecordOf(s, v, d), e.call);
      }
    }
  }

  lemma NextReleased(cfg: Config, s: System, e: Event, r: Release)
    requires WellFormed(cfg) && Enabled(cfg, s, e) && r in Next(cfg, s, e).released && r !in s.released
    ensures ReleaseOk(cfg, Next(cfg, s, e), r)
  {
    hide Perform, ReleaseOk, Grows, Presentable;
    var o := Perform(cfg, e.verifier, e.deposit, e.seen, RecordOf(s, e.verifier, e.deposit), e.call);
    var k :| 0 <= k < |o.partials| && r == Release(e.deposit, o.start + k, o.partials[k]);
    NewReleaseOk(cfg, s, e, k);
  }

  lemma NextMoved(cfg: Config, s: System, e: Event, m: MoveEvent)
    requires Enabled(cfg, s, e) && m in Next(cfg, s, e).moves && m !in s.moves
    ensures MoveOk(cfg, Next(cfg, s, e), m)
  {
    hide Perform, MoveOk, Grows, Presentable;
    NewMoveOk(cfg, s, e);
  }

  lemma NextKeeps(cfg: Config, s: System, e: Event)
    requires WellFormed(cfg) && Invariant(cfg, s) && Enabled(cfg, s, e)
    ensures Invariant(cfg, Next(cfg, s, e))
  {
    hide Perform, Next, Later, NoncesOk, ReleaseOk, MoveOk, Grows, Presentable;
    var t := Next(cfg, s, e);
    NextIsLater(cfg, s, e);
    NextKeepsNonces(cfg, s, e);
    forall r | r in t.released ensures ReleaseOk(cfg, t, r) {
      if r in s.released {
        ReleaseStaysOk(cfg, s, t, r);
      } else {
        NextReleased(cfg, s, e, r);
      }
    }
    forall m | m in t.moves ensures MoveOk(cfg, t, m) {
      if m in s.moves {
        MoveStaysOk(cfg, s, t, m);
      } else {
        NextMoved(cfg, s, e, m);
      }
    }
  }

  lemma {:induction false} RunKeeps(cfg: Config, s: System, events: seq<Event>)
    requires WellFormed(cfg) && Invariant(cfg, s) && ValidRun(cfg, s, events)
    ensures Invariant(cfg, Run(cfg, s, events)) && |Run(cfg, s, events).records| == |s.records|
    decreases |events|
  {
    hide Invariant, Presentable, Perform;
    if events != [] {
      NextKeeps(cfg, s, events[0]);
      RunKeeps(cfg, Next(cfg, s, events[0]), events[1..]);
    }
  }

  lemma InitialHoldsInvariant(cfg: Config, n: nat)
    ensures Invariant(cfg, Initial(n))
  {
  }

  // The theorems.

  /** The kickoff is reimbursable, and verifier `w` stores the same one at the same place. */
  ghost predicate Agreed(cfg: Config, s: System, d: OutPoint, u: Utxo, i: nat) {
    && Reimbursable(cfg, s, d, u, i)
    && forall w :: 0 <= w < |s.records| ==> Stores(s, w, d, u, i)
  }

  predicate Stores(s: System, w: nat, d: OutPoint, u: Utxo, i: nat) {
    i < |RecordOf(s, w, d).kickoffs| && RecordOf(s, w, d).kickoffs[i].utxo == u
  }

  /** A partial signature on operator_takes says where its verifier stores the kickoff. */
  lemma TakesSignerStores(cfg: Config, s: System, w: nat, d: OutPoint, u: Utxo, i: nat)
    requires Invariant(cfg, s) && w < |s.records|
    requires TakesSighash(cfg, d, u, i).Some? && SignedBy(s, w, TakesSighash(cfg, d, u, i).value, true)
    ensures Stores(s, w, d, u, i)
    ensures SlashSighash(cfg, d, u, i).Some? && FullySigned(s, SlashSighash(cfg, d, u, i).value, false)
  {
    hide TakesSighash, SlashSighash, MoveSighash, FullySigned, NoncesOk, MoveOk;
    var m := TakesSighash(cfg, d, u, i).value;
    var r :| r in s.released && r.partial.signer == w && r.partial.message == m && r.partial.tweaked;
    assert ReleaseOk(cfg, s, r);
    var rec := RecordOf(s, w, r.deposit);
    assert TakesReleaseOk(cfg, s, r, rec);
    TakesSighashInjective(cfg, d, u, i, r.deposit, rec.kickoffs[r.slot - 1].utxo, r.slot - 1);
  }

  lemma FullySignedTakesAgree(cfg: Config, s: System, d: OutPoint, u: Utxo, i: nat)
    requires Invariant(cfg, s) && |s.records| > 0
    requires TakesSighash(cfg, d, u, i).Some? && FullySigned(s, TakesSighash(cfg, d, u, i).value, true)
    ensures Agreed(cfg, s, d, u, i)
  {
    hide TakesSighash, SlashSighash, Invariant, SignedBy;
    var m := TakesSighash(cfg, d, u, i).value;
    assert SignedBy(s, 0, m, true);
    TakesSignerStores(cfg, s, 0, d, u, i);
    forall w | 0 <= w < |s.records| ensures Stores(s, w, d, u, i) {
      assert SignedBy(s, w, m, true);
      TakesSignerStores(cfg, s, w, d, u, i);
    }
  }

  /** The verifier signed the move over these stored kickoffs, all of them agreed. */
  ghost predicate MovedOver(cfg: Config, s: System, v: nat, d: OutPoint, e: MoveEvent) {
    && e in s.moves && e.verifier == v && e.deposit == d && e.utxos != []
    && forall i :: 0 <= i < |e.utxos| ==> Agreed(cfg, s, d, e.utxos[i], i)
  }

  /** At every signing of a move transaction the kickoffs gone by were agreed. */
  lemma EveryMoveIsOverAgreed(cfg: Config, s: System, e: MoveEvent)
    requires Invariant(cfg, s) && e in s.moves
    ensures MovedOver(cfg, s, e.verifier, e.deposit, e)
  {
    hide TakesSighash, FullySigned, Agreed, NoncesOk, ReleaseOk;
    assert MoveOk(cfg, s, e);
    forall i | 0 <= i < |e.utxos| ensures Agreed(cfg, s, e.deposit, e.utxos[i], i) {
      FullySignedTakesAgree(cfg, s, e.deposit, e.utxos[i], i);
    }
  }

  /** Whoever signed the move of a deposit stores its data and did so in a recorded event. */
  lemma MoveSignerRecorded(cfg: Config, s: System, v: nat, d: OutPoint, evm: nat, recovery: Key) returns (e: MoveEvent)
    requires Invariant(cfg, s) && v < |s.records|
    requires MoveSighash(cfg, d, evm, recovery).Some?
    requires SignedBy(s, v, MoveSighash(cfg, d, evm, recovery).value, false)
    ensures e in s.moves && e.verifier == v && e.deposit == d
    ensures RecordOf(s, v, d).info == Some(Info(recovery, evm))
  {
    hide NoncesOk, SlashSighash, TakesSighash, MoveSighash, FullySigned, MoveOk;
    var m := MoveSighash(cfg, d, evm, recovery).value;
    var r :| r in s.released && r.partial.signer == v && r.partial.message == m && !r.partial.tweaked;
    assert ReleaseOk(cfg, s, r);
    var rec := RecordOf(s, v, r.deposit);
    NotASlash(cfg, d, evm, recovery, r);
    assert MoveReleaseOk(cfg, s, r, rec);
    MoveSighashInjective(cfg, d, evm, recovery, r.deposit, rec.info.value.evm, rec.info.value.recovery);
    e :| e in s.moves && e.verifier == v && e.deposit == d;
  }

  lemma NotASlash(cfg: Config, d: OutPoint, evm: nat, recovery: Key, r: Release)
    requires MoveSighash(cfg, d, evm, recovery) == Some(r.partial.message)
    ensures !SlashReleaseOk(cfg, r)
  {
    hide MoveSighash, SlashSighash;
    if SlashReleaseOk(cfg, r) {
      var i := r.slot - |cfg.operators| - 1;
      var u :| SlashSighash(cfg, r.deposit, u, i) == Some(r.partial.message);
      SighashKinds(cfg, d, evm, recovery, u, i);
      SighashKinds(cfg, r.deposit, evm, recovery, u, i);
    }
  }

  /**
   Over every run of N verifiers, at every signing of a move transaction: for each stored
   kickoff the verifier went by, both slash_or_take and operator_takes are fully signed and
   all verifiers store the same UTXO for the same operator.
  */
  lemma MoveIsSignedLast(cfg: Config, n: nat, events: seq<Event>, e: MoveEvent)
    requires WellFormed(cfg) && ValidRun(cfg, Initial(n), events)
    requires e in Run(cfg, Initial(n), events).moves
    ensures MovedOver(cfg, Run(cfg, Initial(n), events), e.verifier, e.deposit, e)
  {
    InitialHoldsInvariant(cfg, n);
    hide Invariant, ValidRun, Run, MovedOver;
    RunKeeps(cfg, Initial(n), events);
    EveryMoveIsOverAgreed(cfg, Run(cfg, Initial(n), events), e);
  }

  /**
   So once the move transaction of a deposit is fully signed, every verifier has signed it
   over agreed kickoffs, each time it did, and stores the depositor's data it commits to.
  */
  lemma FullySignedMoveIsCovered(cfg: Config, n: nat, events: seq<Event>, v: nat, d: OutPoint, evm: nat, recovery: Key)
    requires WellFormed(cfg) && v < n && ValidRun(cfg, Initial(n), events)
    requires MoveSighash(cfg, d, evm, recovery).Some?
    requires FullySigned(Run(cfg, Initial(n), events), MoveSighash(cfg, d, evm, recovery).value, false)
    ensures var s := Run(cfg, Initial(n), events);
            && (exists e :: e in s.moves && e.verifier == v && e.deposit == d)
            && (forall e :: e in s.moves && e.verifier == v && e.deposit == d ==> MovedOver(cfg, s, v, d, e))
            && RecordOf(s, v, d).info == Some(Info(recovery, evm))
  {
    InitialHoldsInvariant(cfg, n);
    hide Invariant, ValidRun, Run, MovedOver, MoveSighash, SignedBy;
    RunKeeps(cfg, Initial(n), events);
    var s := Run(cfg, Initial(n), events);
    assert SignedBy(s, v, MoveSighash(cfg, d, evm, recovery).value, false);
    var e := MoveSignerRecorded(cfg, s, v, d, evm, recovery);
    forall e | e in s.moves && e.verifier == v && e.deposit == d ensures MovedOver(cfg, s, v, d, e) {
      EveryMoveIsOverAgreed(cfg, s, e);
    }
  }

  /** A message by which the N-of-N key spends the moved deposit, together with this slash_or_take, to the operator. */
  ghost predicate SpendsBridgeFund(cfg: Config, d: OutPoint, u: Utxo, i: nat, m: Sighash) {
    && CreateMoveTx(d, cfg).Some? && SlashSighash(cfg, d, u, i).Some? && i < |cfg.wallets|
    && m.KeySpend? && m.input < |m.tx.inputs| == |m.prevouts|
    && m.tx.inputs[m.input].previousOutput == OutPoint(Id(CreateMoveTx(d, cfg).value), 0)
    && m.prevouts[m.input] == CreateMoveTx(d, cfg).value.outputs[0]
    && (exists j :: 0 <= j < |m.tx.inputs| &&
         m.tx.inputs[j].previousOutput == OutPoint(Id(SlashSighash(cfg, d, u, i).value.tx), 0))
    && m.tx.outputs != [] && m.tx.outputs[0].script == cfg.wallets[i]
  }

  /** So at every signing of a move, each kickoff gone by has a fully signed spend of the bridge fund. */
  lemma BridgeFundIsCovered(cfg: Config, n: nat, events: seq<Event>, e: MoveEvent, i: nat) returns (m: Sighash)
    requires WellFormed(cfg) && ValidRun(cfg, Initial(n), events)
    requires e in Run(cfg, Initial(n), events).moves && i < |e.utxos|
    ensures SpendsBridgeFund(cfg, e.deposit, e.utxos[i], i, m)
    ensures FullySigned(Run(cfg, Initial(n), events), m, true)
  {
    hide Run, ValidRun, TakesSighash, SlashSighash, FullySigned, CreateMoveTx;
    MoveIsSignedLast(cfg, n, events, e);
    assert Agreed(cfg, Run(cfg, Initial(n), events), e.deposit, e.utxos[i], i);
    m := TakesSighash(cfg, e.deposit, e.utxos[i], i).value;
    TakesMessageSpends(cfg, e.deposit, e.utxos[i], i);
    assert m.tx.inputs[1].previousOutput == OutPoint(Id(SlashSighash(cfg, e.deposit, e.utxos[i], i).value.tx), 0);
  }

  // Which operators are reimbursed.

  ghost predicate OperatorReimbursable(cfg: Config, s: System, d: OutPoint, i: nat) {
    exists u :: Reimbursable(cfg, s, d, u, i)
  }

  ghost predicate AllReimbursable(cfg: Config, s: System, d: OutPoint) {
    forall i :: 0 <= i < |cfg.operators| ==> OperatorReimbursable(cfg, s, d, i)
  }

  /** The move was signed over every kickoff its verifier stores. */
  predicate OverAllStored(s: System, e: MoveEvent) {
    e.utxos == Utxos(RecordOf(s, e.verifier, e.deposit).kickoffs)
  }

  lemma OperatorReimbursableIff(cfg: Config, s: System, e: MoveEvent, i: nat)
    requires Invariant(cfg, s) && e in s.moves && OverAllStored(s, e)
    ensures OperatorReimbursable(cfg, s, e.deposit, i) <==> i < |e.utxos|
    ensures |e.utxos| <= |cfg.operators|
  {
    EveryMoveIsOverAgreed(cfg, s, e);
    var d, v := e.deposit, e.verifier;
    assert MoveOk(cfg, s, e);
    hide Invariant, TakesSighash, SlashSighash, SignedBy;
    var last := |e.utxos| - 1;
    assert Agreed(cfg, s, d, e.utxos[last], last);
    IndexInRange(cfg, d, e.utxos[last], last);
    if OperatorReimbursable(cfg, s, d, i) {
      var u :| Reimbursable(cfg, s, d, u, i);
      assert SignedBy(s, v, TakesSighash(cfg, d, u, i).value, true);
      TakesSignerStores(cfg, s, v, d, u, i);
    }
    if i < |e.utxos| {
      assert Agreed(cfg, s, d, e.utxos[i], i);
    }
  }

  /**
   Over every run and for a move signed over every kickoff its verifier stores: all
   configured operators can be reimbursed exactly when these kickoffs are as many as the
   operators. (operator_kickoffs_generated takes fewer, and the move does not ask for more.)
  */
  lemma AllReimbursableIff(cfg: Config, n: nat, events: seq<Event>, e: MoveEvent)
    requires WellFormed(cfg) && ValidRun(cfg, Initial(n), events)
    requires e in Run(cfg, Initial(n), events).moves && OverAllStored(Run(cfg, Initial(n), events), e)
    ensures AllReimbursable(cfg, Run(cfg, Initial(n), events), e.deposit) <==> |e.utxos| == |cfg.operators|
  {
    InitialHoldsInvariant(cfg, n);
    hide Invariant, ValidRun, Run, OperatorReimbursable, OverAllStored;
    RunKeeps(cfg, Initial(n), events);
    var s := Run(cfg, Initial(n), events);
    OperatorReimbursableIff(cfg, s, e, 0);
    forall i | 0 <= i < |cfg.operators| ensures OperatorReimbursable(cfg, s, e.deposit, i) <==> i < |e.utxos| {
      OperatorReimbursableIff(cfg, s, e, i);
    }
    assert |e.utxos| < |cfg.operators| ==> !OperatorReimbursable(cfg, s, e.deposit, |e.utxos|);
  }

  /**
   Over every run, a nonce slot serves one message: the one bound to it in the table. Two
   partial signatures out of the same slot are over the same message with the same nonce;
   every slot lies among the 2n+1 generated ones.
  */
  lemma SlotServesOneMessage(cfg: Config, n: nat, events: seq<Event>, r: Release, q: Release)
    requires WellFormed(cfg) && ValidRun(cfg, Initial(n), events)
    requires r in Run(cfg, Initial(n), events).released && q in Run(cfg, Initial(n), events).released
    ensures var rec := RecordOf(Run(cfg, Initial(n), events), r.partial.signer, r.deposit);
            && |rec.nonces| == RequiredNonces(cfg) && r.slot < RequiredNonces(cfg)
            && rec.nonces[r.slot].sighash == Some(r.partial.message) && rec.nonces[r.slot].sec == r.partial.nonce
    ensures r.partial.signer == q.partial.signer && r.deposit == q.deposit && r.slot == q.slot ==>
              r.partial.message == q.partial.message && r.partial.nonce == q.partial.nonce
              && r.partial.tweaked == q.partial.tweaked
  {
    hide Run, ValidRun, MoveSighash, TakesSighash, SlashSighash, MoveOk;
    InitialHoldsInvariant(cfg, n);
    RunKeeps(cfg, Initial(n), events);
    var s := Run(cfg, Initial(n), events);
    assert ReleaseOk(cfg, s, r) && ReleaseOk(cfg, s, q);
  }

  /** The three phases use the slots 0, 1..n and n+1..2n, each for its own kind of message. */
  lemma SlotTellsKind(cfg: Config, n: nat, events: seq<Event>, r: Release)
    requires WellFormed(cfg) && ValidRun(cfg, Initial(n), events)
    requires r in Run(cfg, Initial(n), events).released
    ensures r.slot == 0 <==> r.partial.message.ScriptSpend? && r.partial.message.leaf.DepositLeaf?
    ensures 1 <= r.slot <= |cfg.operators| <==> r.partial.message.KeySpend?
    ensures |cfg.operators| < r.slot <= 2 * |cfg.operators| <==>
            r.partial.message.ScriptSpend? && !r.partial.message.leaf.DepositLeaf?
  {
    hide Run, ValidRun, MoveSighash, TakesSighash, SlashSighash, MoveOk, FullySigned;
    InitialHoldsInvariant(cfg, n);
    RunKeeps(cfg, Initial(n), events);
    var s := Run(cfg, Initial(n), events);
    assert ReleaseOk(cfg, s, r);
    KindIsDetermined(cfg, s, r, RecordOf(s, r.partial.signer, r.deposit));
  }

  /** And a message uses one slot: nobody signs the same message out of two slots. */
  lemma MessageUsesOneSlot(cfg: Config, n: nat, events: seq<Event>, r: Release, q: Release)
    requires WellFormed(cfg) && ValidRun(cfg, Initial(n), events)
    requires r in Run(cfg, Initial(n), events).released && q in Run(cfg, Initial(n), events).released
    requires r.partial.signer == q.partial.signer && r.partial.message == q.partial.message
    ensures r.deposit == q.deposit && r.slot == q.slot
  {
    hide Run, ValidRun;
    InitialHoldsInvariant(cfg, n);
    RunKeeps(cfg, Initial(n), events);
    var s := Run(cfg, Initial(n), events);
    assert ReleaseOk(cfg, s, r) && ReleaseOk(cfg, s, q);
    OneSlot(cfg, s, r, q);
  }

  lemma OneSlot(cfg: Config, s: System, r: Release, q: Release)
    requires ReleaseOk(cfg, s, r) && ReleaseOk(cfg, s, q)
    requires r.partial.signer == q.partial.signer && r.partial.message == q.partial.message
    ensures r.deposit == q.deposit && r.slot == q.slot
  {
    hide MoveSighash, TakesSighash, SlashSighash, FullySigned, SlotHolds;
    var a, b := RecordOf(s, r.partial.signer, r.deposit), RecordOf(s, q.partial.signer, q.deposit);
    KindIsDetermined(cfg, s, r, a);
    KindIsDetermined(cfg, s, q, b);
    if r.partial.message.KeySpend? {
      TakesSighashInjective(cfg, r.deposit, a.kickoffs[r.slot - 1].utxo, r.slot - 1,
                            q.deposit, b.kickoffs[q.slot - 1].utxo, q.slot - 1);
    } else if r.partial.message.leaf.DepositLeaf? {
      MoveSighashInjective(cfg, r.deposit, a.info.value.evm, a.info.value.recovery,
                           q.deposit, b.info.value.evm, b.info.value.recovery);
    } else {
      var i, j := r.slot - |cfg.operators| - 1, q.slot - |cfg.operators| - 1;
      var u :| SlashSighash(cfg, r.deposit, u, i) == Some(r.partial.message);
      var w :| SlashSighash(cfg, q.deposit, w, j) == Some(q.partial.message);
      SlashSighashInjective(cfg, r.deposit, u, i, q.deposit, w, j);
    }
  }

  lemma KindIsDetermined(cfg: Config, s: System, r: Release, rec: Record)
    requires MoveReleaseOk(cfg, s, r, rec) || TakesReleaseOk(cfg, s, r, rec) || SlashReleaseOk(cfg, r)
    ensures r.partial.message.KeySpend? ==> TakesReleaseOk(cfg, s, r, rec)
    ensures r.partial.message.ScriptSpend? && r.partial.message.leaf.DepositLeaf? ==> MoveReleaseOk(cfg, s, r, rec)
    ensures r.partial.message.ScriptSpend? && !r.partial.message.leaf.DepositLeaf? ==> SlashReleaseOk(cfg, r)
  {
    hide MoveSighash, TakesSighash, SlashSighash, FullySigned;
    var none := Utxo(r.deposit, ANYONE_CAN_SPEND);
    if MoveReleaseOk(cfg, s, r, rec) {
      SighashKinds(cfg, r.deposit, rec.info.value.evm, rec.info.value.recovery, none, 0);
    } else if TakesReleaseOk(cfg, s, r, rec) {
      SighashKinds(cfg, r.deposit, 0, 0, rec.kickoffs[r.slot - 1].utxo, r.slot - 1);
    } else {
      var u :| SlashSighash(cfg, r.deposit, u, r.slot - |cfg.operators| - 1) == Some(r.partial.message);
      SighashKinds(cfg, r.deposit, 0, 0, u, r.slot - |cfg.operators| - 1);
    }
  }
}
