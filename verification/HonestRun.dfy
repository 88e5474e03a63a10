/**
 The honest schedule as a run of the N verifiers: the move transaction can become fully
 signed, so what Safety proves about that moment is about something that happens.
*/
module HonestRun {
  import opened Wrappers
  import opened Transactions
  import opened VerifierDatabase
  import opened Verifier
  import opened Signing
  import opened Aggregator
  import opened HonestSchedule
  import opened Safety

  /** The full signatures on one kind of messages. */
  function FullSigs(h: Setup, takes: bool): (r: seq<Signature>)
    requires Honest(h)
    ensures SignsAll(h, r, takes)
  {
    seq(|h.utxos|, i requires 0 <= i < |h.utxos| => NofN(Messages(h, takes)[i], takes))
  }

  /** A verifier's rows after the first `p` of the four rounds. */
  function After(h: Setup, v: nat, p: nat): Record
    requires Honest(h) && v < |h.secrets| && p <= 4
  {
    if p == 0 then Record(None, [], [])
    else if p == 1 then Deposited(h, v).0
    else if p == 2 then Generated(h, v, SlotSums(h)).0
    else if p == 3 then Burned(h, v, SlotSums(h), FullSigs(h, false)).0
    else Moved(h, v, SlotSums(h), FullSigs(h, false), FullSigs(h, true)).0
  }

  function RoundCall(h: Setup, v: nat, p: nat): (r: Call)
    requires Honest(h) && v < |h.secrets| && 1 <= p <= 4
    ensures Callable(h.cfg, r)
  {
    if p == 1 then NewDeposit(h.info, true, h.secrets[v])
    else if p == 2 then KickoffsGenerated(h.utxos, h.operatorSigs, SlotSums(h))
    else if p == 3 then BurnTxsSigned(FullSigs(h, false))
    else OperatorTakeTxsSigned(FullSigs(h, true))
  }

  /** What every verifier signs in a round. */
  function RoundMessages(h: Setup, p: nat): seq<Sighash>
    requires Honest(h) && 1 <= p <= 4
  {
    if p == 1 then [] else if p == 2 then Messages(h, false) else if p == 3 then Messages(h, true) else [MoveMessage(h)]
  }

  lemma RoundOutcome(h: Setup, v: nat, p: nat)
    requires Honest(h) && v < |h.secrets| && 1 <= p <= 4
    ensures var o := Perform(h.cfg, v, h.deposit, After(h, v, p - 1), After(h, v, p - 1), RoundCall(h, v, p));
            && o.record == After(h, v, p) && |o.partials| == |RoundMessages(h, p)|
            && forall t :: 0 <= t < |o.partials| ==>
                 && o.partials[t].signer == v && o.partials[t].message == RoundMessages(h, p)[t]
                 && o.partials[t].tweaked == (p == 3)
  {
    hide NewDepositStep, KickoffsGeneratedStep, BurnTxsSignedStep, OperatorTakeTxsSignedStep, SlotSums, FullSigs;
    hide Messages, MoveMessage;
    if p == 2 {
      GeneratedSucceeds(h, v);
    } else if p == 3 {
      BurnedSucceeds(h, v, FullSigs(h, false));
    } else if p == 4 {
      MovedSucceeds(h, v, FullSigs(h, false), FullSigs(h, true));
    }
  }

  ghost predicate SignedRound(h: Setup, s: System, v: nat, p: nat)
    requires Honest(h) && 1 <= p <= 4
  {
    forall i :: 0 <= i < |RoundMessages(h, p)| ==> SignedBy(s, v, RoundMessages(h, p)[i], p == 3)
  }

  /** Round `p` has been served by the first `k` verifiers. */
  ghost predicate Reached(h: Setup, s: System, p: nat, k: nat)
    requires Honest(h) && 1 <= p <= 4 && k <= |h.secrets|
  {
    && |s.records| == |h.secrets|
    && (forall v :: 0 <= v < |h.secrets| ==> RecordOf(s, v, h.deposit) == After(h, v, if v < k then p else p - 1))
    && (forall v, q :: 0 <= v < |h.secrets| && 1 <= q <= p && (q < p || v < k) ==> SignedRound(h, s, v, q))
  }

  function RoundEvent(h: Setup, p: nat, v: nat): Event
    requires Honest(h) && v < |h.secrets| && 1 <= p <= 4
  {
    Event(v, h.deposit, RoundCall(h, v, p), After(h, v, p - 1))
  }

  /** The signatures a round presents have been signed by everyone in the round before. */
  lemma RoundIsEnabled(h: Setup, s: System, p: nat, k: nat)
    requires Honest(h) && 1 <= p <= 4 && k < |h.secrets| && Reached(h, s, p, k)
    ensures Enabled(h.cfg, s, RoundEvent(h, p, k))
  {
    hide Honest, After, SignedBy, Messages, MoveMessage;
    assert Grows(After(h, k, p - 1), RecordOf(s, k, h.deposit));
    if p >= 3 {
      var takes := p == 4;
      var sigs := FullSigs(h, takes);
      forall i | 0 <= i < |sigs| ensures FullySigned(s, sigs[i].message, sigs[i].tweaked) {
        forall v | 0 <= v < |s.records| ensures SignedBy(s, v, sigs[i].message, sigs[i].tweaked) {
          assert SignedRound(h, s, v, p - 1);
          assert sigs[i] == NofN(RoundMessages(h, p - 1)[i], p - 1 == 3);
        }
      }
    }
  }

  lemma SignedRoundStays(h: Setup, s: System, t: System, v: nat, p: nat)
    requires Honest(h) && 1 <= p <= 4 && SignedRound(h, s, v, p) && s.released <= t.released
    ensures SignedRound(h, t, v, p)
  {
    hide Honest, RoundMessages;
  }

  lemma NextSigns(cfg: Config, s: System, e: Event, i: nat)
    requires Enabled(cfg, s, e)
    requires var o := Perform(cfg, e.verifier, e.deposit, e.seen, RecordOf(s, e.verifier, e.deposit), e.call);
             i < |o.partials|
    ensures var o := Perform(cfg, e.verifier, e.deposit, e.seen, RecordOf(s, e.verifier, e.deposit), e.call);
            var p := o.partials[i];
            SignedBy(Next(cfg, s, e), p.signer, p.message, p.tweaked)
  {
    hide Perform, Grows, Presentable;
    var o := Perform(cfg, e.verifier, e.deposit, e.seen, RecordOf(s, e.verifier, e.deposit), e.call);
    assert Release(e.deposit, o.start + i, o.partials[i]) in Next(cfg, s, e).released;
  }

  lemma RoundSigns(h: Setup, s: System, p: nat, k: nat)
    requires Honest(h) && 1 <= p <= 4 && k < |h.secrets| && Reached(h, s, p, k)
    requires Enabled(h.cfg, s, RoundEvent(h, p, k))
    ensures SignedRound(h, Next(h.cfg, s, RoundEvent(h, p, k)), k, p)
  {
    hide Honest, After, RoundCall, RoundMessages, Perform, SignedBy, Enabled, Next, SignedRound, Deposited;
    var e := RoundEvent(h, p, k);
    assert RecordOf(s, k, h.deposit) == After(h, k, p - 1);
    RoundOutcome(h, k, p);
    var t := Next(h.cfg, s, e);
    forall i | 0 <= i < |RoundMessages(h, p)| ensures SignedBy(t, k, RoundMessages(h, p)[i], p == 3) {
      NextSigns(h.cfg, s, e, i);
    }
    SignedRoundFrom(h, t, k, p);
  }

  lemma SignedRoundFrom(h: Setup, s: System, v: nat, p: nat)
    requires Honest(h) && 1 <= p <= 4
    requires forall i :: 0 <= i < |RoundMessages(h, p)| ==> SignedBy(s, v, RoundMessages(h, p)[i], p == 3)
    ensures SignedRound(h, s, v, p)
  {
  }

  lemma RoundAdvances(h: Setup, s: System, p: nat, k: nat)
    requires Honest(h) && 1 <= p <= 4 && k < |h.secrets| && Reached(h, s, p, k)
    requires Enabled(h.cfg, s, RoundEvent(h, p, k))
    ensures Reached(h, Next(h.cfg, s, RoundEvent(h, p, k)), p, k + 1)
  {
    RoundSigns(h, s, p, k);
    hide Honest, After, RoundCall, RoundMessages, Perform, Enabled, SignedRound, RecordOf;
    var e := RoundEvent(h, p, k);
    var t := Next(h.cfg, s, e);
    assert |t.records| == |s.records| && s.released <= t.released;
    assert RecordOf(s, k, h.deposit) == After(h, k, p - 1);
    RoundOutcome(h, k, p);
    hide Next;
    forall v | 0 <= v < |h.secrets| ensures RecordOf(t, v, h.deposit) == After(h, v, if v < k + 1 then p else p - 1) {
      NextRecord(h.cfg, s, e, v, h.deposit);
    }
    forall v, q | 0 <= v < |h.secrets| && 1 <= q <= p && (q < p || v < k + 1) ensures SignedRound(h, t, v, q) {
      if q < p || v < k {
        SignedRoundStays(h, s, t, v, q);
      }
    }
  }

  /** The rest of the schedule, round after round. */
  lemma {:induction false} FinishSchedule(h: Setup, s: System, p: nat, k: nat) returns (events: seq<Event>)
    requires Honest(h) && 1 <= p <= 4 && k <= |h.secrets| && Reached(h, s, p, k)
    ensures ValidRun(h.cfg, s, events) && Reached(h, Run(h.cfg, s, events), 4, |h.secrets|)
    decreases 4 - p, |h.secrets| - k
  {
    hide Honest, After, SignedRound, RoundEvent, Perform, Presentable;
    if k < |h.secrets| {
      RoundIsEnabled(h, s, p, k);
      RoundAdvances(h, s, p, k);
      var rest := FinishSchedule(h, Next(h.cfg, s, RoundEvent(h, p, k)), p, k + 1);
      events := [RoundEvent(h, p, k)] + rest;
      assert events[1..] == rest;
    } else if p < 4 {
      events := FinishSchedule(h, s, p + 1, 0);
    } else {
      events := [];
    }
  }

  /** From empty tables there is a valid run after which the move transaction is fully signed. */
  lemma MoveCanBeSigned(h: Setup) returns (events: seq<Event>)
    requires Honest(h)
    ensures ValidRun(h.cfg, Initial(|h.secrets|), events)
    ensures FullySigned(Run(h.cfg, Initial(|h.secrets|), events), MoveMessage(h), false)
  {
    hide Honest, MoveMessage;
    var start := Initial(|h.secrets|);
    assert Reached(h, start, 1, 0);
    events := FinishSchedule(h, start, 1, 0);
    var s := Run(h.cfg, start, events);
    forall v | 0 <= v < |s.records| ensures SignedBy(s, v, MoveMessage(h), false) {
      assert SignedRound(h, s, v, 4);
      assert RoundMessages(h, 4)[0] == MoveMessage(h);
    }
  }

  /** The final rows of every verifier: the kickoffs of the schedule and no others. */
  lemma FinalKickoffs(h: Setup, v: nat)
    requires Honest(h) && v < |h.secrets|
    ensures Utxos(After(h, v, 4).kickoffs) == h.utxos
  {
    hide Honest, Moved;
    MovedSucceeds(h, v, FullSigs(h, false), FullSigs(h, true));
  }

  /** In the final state the operators with a kickoff are reimbursable, and no others. */
  lemma ReachedReimburses(h: Setup, s: System, i: nat)
    requires Honest(h) && Reached(h, s, 4, |h.secrets|) && Safety.Invariant(h.cfg, s)
    ensures OperatorReimbursable(h.cfg, s, h.deposit, i) <==> i < |h.utxos|
  {
    assert |h.secrets| > 0;
    FinalKickoffs(h, 0);
    assert RecordOf(s, 0, h.deposit) == After(h, 0, 4);
    if OperatorReimbursable(h.cfg, s, h.deposit, i) {
      var u :| Reimbursable(h.cfg, s, h.deposit, u, i);
      hide Honest, After, SlashSighash, TakesSighash, SignedBy, SignedRound, Safety.Invariant;
      assert SignedBy(s, 0, TakesSighash(h.cfg, h.deposit, u, i).value, true);
      TakesSignerStores(h.cfg, s, 0, h.deposit, u, i);
    }
    if i < |h.utxos| {
      FullySignedRounds(h, s, i);
    }
  }

  lemma FullySignedRounds(h: Setup, s: System, i: nat)
    requires Honest(h) && Reached(h, s, 4, |h.secrets|) && i < |h.utxos|
    ensures Reimbursable(h.cfg, s, h.deposit, h.utxos[i], i)
  {
    hide SlashSighash, TakesSighash, MoveSighash, SignedBy, After, CheckKickoff;
    var slash, takes := Messages(h, false)[i], Messages(h, true)[i];
    assert Message(h.cfg, h.deposit, h.utxos[i], i, false) == SlashSighash(h.cfg, h.deposit, h.utxos[i], i);
    assert Message(h.cfg, h.deposit, h.utxos[i], i, true) == TakesSighash(h.cfg, h.deposit, h.utxos[i], i);
    forall v | 0 <= v < |s.records| ensures SignedBy(s, v, slash, false) && SignedBy(s, v, takes, true) {
      assert SignedRound(h, s, v, 2) && SignedRound(h, s, v, 3);
      assert RoundMessages(h, 2)[i] == slash && RoundMessages(h, 3)[i] == takes;
    }
  }

  /**
   With kickoffs of the first operators only, the schedule still ends in a fully signed
   move, and exactly these operators can be reimbursed then.
  */
  lemma MoveLeavesOperatorsOut(h: Setup) returns (events: seq<Event>)
    requires Honest(h)
    ensures ValidRun(h.cfg, Initial(|h.secrets|), events)
    ensures var s := Run(h.cfg, Initial(|h.secrets|), events);
            && FullySigned(s, MoveMessage(h), false)
            && (forall i: nat :: OperatorReimbursable(h.cfg, s, h.deposit, i) <==> i < |h.utxos|)
  {
    assert WellFormed(h.cfg);
    hide Honest, MoveMessage, OperatorReimbursable, Safety.Invariant;
    var start := Initial(|h.secrets|);
    assert Reached(h, start, 1, 0);
    events := FinishSchedule(h, start, 1, 0);
    var s := Run(h.cfg, start, events);
    InitialHoldsInvariant(h.cfg, |h.secrets|);
    RunKeeps(h.cfg, start, events);
    forall v | 0 <= v < |s.records| ensures SignedBy(s, v, MoveMessage(h), false) {
      assert SignedRound(h, s, v, 4);
      assert RoundMessages(h, 4)[0] == MoveMessage(h);
    }
    forall i: nat ensures OperatorReimbursable(h.cfg, s, h.deposit, i) <==> i < |h.utxos| {
      ReachedReimburses(h, s, i);
    }
  }

  // A setup: two verifiers, two operators, and the kickoffs of the first `k` of them.

  const TWO_OPERATORS := Config(1, [2, 3], [Foreign(0, 34), Foreign(1, 34)], 100_000_000, 200, 100, 2)

  function ExampleKickoff(i: nat): Utxo
    requires i < 2
  {
    Utxo(OutPoint(External(1 + i), 0), TxOut(KICKOFF_UTXO_AMOUNT_SATS, KickoffScript(1, 2 + i)))
  }

  function ExampleSetup(k: nat): Setup
    requires k <= 2
  {
    var deposit := OutPoint(External(0), 0);
    Setup(TWO_OPERATORS, deposit, Info(4, 5), [[1, 2, 3, 4, 5], [6, 7, 8, 9, 10]],
          seq(k, i requires 0 <= i < k => ExampleKickoff(i)),
          seq(k, i requires 0 <= i < k => KickoffSignature(2 + i, deposit, ExampleKickoff(i).outpoint)))
  }

  lemma ExampleIsHonest(k: nat)
    requires 1 <= k <= 2
    ensures Honest(ExampleSetup(k))
  {
    var h := ExampleSetup(k);
    forall i | 0 <= i < k
      ensures CheckKickoff(h.cfg, h.deposit, h.utxos[i], h.operatorSigs[i], i).Success?
      ensures TakesSighash(h.cfg, h.deposit, h.utxos[i], i).Some?
    {
      ReimbursementConserves(h.deposit, h.utxos[i], h.cfg.operators[i], i, h.cfg, h.cfg.wallets[i]);
    }
  }

  /** So a move can be fully signed while the second operator cannot be reimbursed. */
  lemma SecondOperatorLeftOut() returns (events: seq<Event>)
    ensures Honest(ExampleSetup(1))
    ensures ValidRun(TWO_OPERATORS, Initial(2), events)
    ensures var s := Run(TWO_OPERATORS, Initial(2), events);
            && FullySigned(s, MoveMessage(ExampleSetup(1)), false)
            && !OperatorReimbursable(TWO_OPERATORS, s, ExampleSetup(1).deposit, 1)
  {
    ExampleIsHonest(1);
    hide Honest, MoveMessage, ValidRun, Run, OperatorReimbursable, FullySigned;
    events := MoveLeavesOperatorsOut(ExampleSetup(1));
  }
}
