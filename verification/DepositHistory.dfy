/** Over every run: what a verifier holds for a deposit came from a call that found the deposit valid. */
module DepositHistory {
  import opened Wrappers
  import opened Transactions
  import opened VerifierDatabase
  import opened Verifier
  import opened VerifierOutcomes
  import opened Signing
  import opened Safety

  /** The rows hold the info and the nonces of this call, which found the deposit valid. */
  ghost predicate ComesFrom(call: Call, rec: Record) {
    && call.NewDeposit? && call.depositValid && rec.info == Some(call.info)
    && |rec.nonces| == |call.secrets|
    && forall k :: 0 <= k < |rec.nonces| ==>
         rec.nonces[k].sec == call.secrets[k] && rec.nonces[k].pub == PubNonce(call.secrets[k])
  }

  lemma StillComesFrom(call: Call, a: Record, b: Record)
    requires ComesFrom(call, a) && Grows(a, b) && a.nonces != []
    ensures ComesFrom(call, b)
  {
    forall k | 0 <= k < |b.nonces|
      ensures b.nonces[k].sec == call.secrets[k] && b.nonces[k].pub == PubNonce(call.secrets[k])
    {
      assert RowGrows(a.nonces[k], b.nonces[k]);
    }
  }

  /** Only new_deposit of a valid deposit makes a record with nonces out of one without. */
  lemma FirstNonces(cfg: Config, v: nat, d: OutPoint, seen: Record, rec: Record, call: Call)
    requires Callable(cfg, call) && rec.nonces == [] && Perform(cfg, v, d, seen, rec, call).record.nonces != []
    ensures ComesFrom(call, Perform(cfg, v, d, seen, rec, call).record)
  {
    match call
    case NewDeposit(_, _, _) =>
    case KickoffsGenerated(utxos, sigs, aggs) =>
      hide CheckKickoffs;
    case BurnTxsSigned(_) =>
      hide CheckSlashSigs, MoveSighash;
    case OperatorTakeTxsSigned(_) =>
      hide TakeSigsOk, MoveSighash;
  }

  ghost predicate SomeEventMade(events: seq<Event>, v: nat, d: OutPoint, rec: Record) {
    exists k :: 0 <= k < |events| && events[k].verifier == v && events[k].deposit == d && ComesFrom(events[k].call, rec)
  }

  lemma {:induction false} History(cfg: Config, s: System, events: seq<Event>, v: nat, d: OutPoint)
    requires ValidRun(cfg, s, events)
    ensures var a, b := RecordOf(s, v, d), RecordOf(Run(cfg, s, events), v, d);
            b.nonces != [] ==> (a.nonces != [] && Grows(a, b)) || SomeEventMade(events, v, d, b)
    decreases |events|
  {
    hide Perform, Presentable;
    if events == [] {
      GrowsReflexive(RecordOf(s, v, d));
    } else {
      var e := events[0];
      var next := Next(cfg, s, e);
      History(cfg, next, events[1..], v, d);
      NextIsLater(cfg, s, e);
      NextRecord(cfg, s, e, v, d);
      HistoryStep(cfg, s, events, v, d);
    }
  }

  lemma HistoryStep(cfg: Config, s: System, events: seq<Event>, v: nat, d: OutPoint)
    requires events != [] && ValidRun(cfg, s, events)
    requires var a, b := RecordOf(Next(cfg, s, events[0]), v, d), RecordOf(Run(cfg, s, events), v, d);
             b.nonces != [] ==> (a.nonces != [] && Grows(a, b)) || SomeEventMade(events[1..], v, d, b)
    ensures var a, b := RecordOf(s, v, d), RecordOf(Run(cfg, s, events), v, d);
            b.nonces != [] ==> (a.nonces != [] && Grows(a, b)) || SomeEventMade(events, v, d, b)
  {
    var e := events[0];
    var a, mid, b := RecordOf(s, v, d), RecordOf(Next(cfg, s, e), v, d), RecordOf(Run(cfg, s, events), v, d);
    NextIsLater(cfg, s, e);
    NextRecord(cfg, s, e, v, d);
    assert Grows(a, mid);
    hide Perform, Next, Run, ValidRun, Presentable, RecordOf;
    if b.nonces != [] {
      if SomeEventMade(events[1..], v, d, b) {
        LaterEvent(events, v, d, b);
      } else if a.nonces != [] {
        GrowsTransitive(a, mid, b);
      } else {
        assert v == e.verifier && d == e.deposit;
        FirstNonces(cfg, v, d, e.seen, a, e.call);
        StillComesFrom(e.call, mid, b);
      }
    }
  }

  lemma LaterEvent(events: seq<Event>, v: nat, d: OutPoint, rec: Record)
    requires events != [] && SomeEventMade(events[1..], v, d, rec)
    ensures SomeEventMade(events, v, d, rec)
  {
    hide ComesFrom;
    var k :| 0 <= k < |events[1..]| && events[1..][k].verifier == v && events[1..][k].deposit == d
             && ComesFrom(events[1..][k].call, rec);
    assert events[k + 1] == events[1..][k];
  }

  /**
   Over every run from empty tables: the info and the nonces a verifier holds for a deposit
   are those of a new_deposit call for it in the run, which found the deposit valid.
  */
  lemma NoncesComeFromValidDeposit(cfg: Config, n: nat, events: seq<Event>, v: nat, d: OutPoint)
    requires ValidRun(cfg, Initial(n), events)
    requires RecordOf(Run(cfg, Initial(n), events), v, d).nonces != []
    ensures SomeEventMade(events, v, d, RecordOf(Run(cfg, Initial(n), events), v, d))
  {
    History(cfg, Initial(n), events, v, d);
  }

  /** So nothing is ever signed for a deposit that no call found valid. */
  lemma SignedDepositWasValid(cfg: Config, n: nat, events: seq<Event>, r: Release)
    requires WellFormed(cfg) && ValidRun(cfg, Initial(n), events) && r in Run(cfg, Initial(n), events).released
    ensures SomeEventMade(events, r.partial.signer, r.deposit,
                          RecordOf(Run(cfg, Initial(n), events), r.partial.signer, r.deposit))
  {
    hide Run, ValidRun, SomeEventMade;
    SlotServesOneMessage(cfg, n, events, r, r);
    NoncesComeFromValidDeposit(cfg, n, events, r.partial.signer, r.deposit);
  }

  // On reachable tables the deposit check is all that new_deposit can fail by.

  /** Deposit data and nonces are saved together. */
  ghost predicate InfoWithNonces(rec: Record) {
    rec.info.Some? <==> rec.nonces != []
  }

  lemma PerformKeepsInfo(cfg: Config, v: nat, d: OutPoint, seen: Record, rec: Record, call: Call)
    requires Callable(cfg, call) && InfoWithNonces(rec)
    ensures InfoWithNonces(Perform(cfg, v, d, seen, rec, call).record)
  {
    match call
    case NewDeposit(_, _, _) =>
    case KickoffsGenerated(_, _, _) =>
      hide CheckKickoffs;
    case BurnTxsSigned(_) =>
      hide CheckSlashSigs, MoveSighash;
    case OperatorTakeTxsSigned(_) =>
      hide TakeSigsOk, MoveSighash;
  }

  lemma {:induction false} RunKeepsInfo(cfg: Config, s: System, events: seq<Event>)
    requires ValidRun(cfg, s, events) && forall v, d :: InfoWithNonces(RecordOf(s, v, d))
    ensures forall v, d :: InfoWithNonces(RecordOf(Run(cfg, s, events), v, d))
    decreases |events|
  {
    hide Perform, Presentable, InfoWithNonces;
    if events != [] {
      var e := events[0];
      var next := Next(cfg, s, e);
      forall v: nat, d ensures InfoWithNonces(RecordOf(next, v, d)) {
        NextRecord(cfg, s, e, v, d);
        PerformKeepsInfo(cfg, e.verifier, e.deposit, e.seen, RecordOf(s, e.verifier, e.deposit), e.call);
      }
      hide Next;
      RunKeepsInfo(cfg, next, events[1..]);
    }
  }

  /** Over every run: new_deposit fails exactly for an invalid deposit, and then by that error. */
  lemma NewDepositFailsIff(cfg: Config, n: nat, events: seq<Event>, v: nat, d: OutPoint, info: Info, valid: bool,
                           secrets: seq<nat>)
    requires WellFormed(cfg) && ValidRun(cfg, Initial(n), events) && |secrets| == RequiredNonces(cfg)
    ensures var r := NewDepositStep(cfg, RecordOf(Run(cfg, Initial(n), events), v, d), info, valid, secrets).1;
            (r.Failure? <==> !valid) && (!valid ==> r == Failure(InvalidDeposit))
  {
    InitialHoldsInvariant(cfg, n);
    var s := Run(cfg, Initial(n), events);
    hide Run, ValidRun, ReleaseOk, MoveOk, NewDepositStep;
    RunKeeps(cfg, Initial(n), events);
    RunKeepsInfo(cfg, Initial(n), events);
    var rec := RecordOf(s, v, d);
    assert InfoWithNonces(rec);
    assert |rec.nonces| == 0 || |rec.nonces| == RequiredNonces(cfg);
    NewDepositFailsWhen(cfg, rec, info, valid, secrets);
  }
}
