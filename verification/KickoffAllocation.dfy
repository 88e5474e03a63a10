/** What the operator's kickoff allocator keeps over every run of its calls. */
module KickoffAllocation {
  import opened Wrappers
  import opened Transactions
  import opened OperatorDatabase
  import opened Operator

  datatype Call = NewDeposit(deposit: OutPoint, depositValid: bool) | SetFunding(utxo: Utxo)

  function Step(o: Settings, t: Tables, call: Call): Tables
    requires Usable(o)
  {
    match call
    case NewDeposit(deposit, valid) => Assign(o, t, deposit, valid).0
    case SetFunding(utxo) => t.(funding := t.funding + [utxo])
  }

  function Run(o: Settings, t: Tables, calls: seq<Call>): Tables
    requires Usable(o)
    decreases |calls|
  {
    if calls == [] then t else Run(o, Step(o, t, calls[0]), calls[1..])
  }

  // The invariant.

  /** A transaction CreateKickoffUtxoTx can have built for this operator. */
  ghost predicate GeneratorShape(o: Settings, tx: Tx) {
    && |tx.inputs| == 1 && |tx.outputs| == o.kickoffs + 2
    && tx.outputs == KickoffOutputs(o.kickoffs, KickoffScript(o.cfg.nofn, o.key), tx.outputs[o.kickoffs].value, o.key)
  }

  ghost predicate RowOk(o: Settings, row: GeneratorRow) {
    && GeneratorShape(o, row.tx) && row.txid == Id(row.tx)
    && row.fundingTxid == row.tx.inputs[0].previousOutput.txid
    && row.numKickoffs == o.kickoffs && 1 <= row.cur <= o.kickoffs
  }

  ghost predicate RowsOk(o: Settings, rows: seq<GeneratorRow>) {
    && (forall g :: 0 <= g < |rows| ==> RowOk(o, rows[g]))
    && (forall g, h :: 0 <= g < h < |rows| ==> rows[g].txid != rows[h].txid)
  }

  /** Every row but the newest is used up. */
  ghost predicate OnlyNewestOpen(rows: seq<GeneratorRow>) {
    forall g :: 0 <= g < |rows| - 1 ==> rows[g].cur == rows[g].numKickoffs
  }

  /** The UTXO is one of the handed out outputs of a row. */
  ghost predicate HandedOut(rows: seq<GeneratorRow>, u: Utxo) {
    exists g :: 0 <= g < |rows| && HandedOutBy(rows[g], u)
  }

  ghost predicate HandedOutBy(row: GeneratorRow, u: Utxo) {
    row.txid == u.outpoint.txid && u.outpoint.vout < row.cur <= |row.tx.outputs|
    && u.txout == row.tx.outputs[u.outpoint.vout]
  }

  ghost predicate Allotted(rows: seq<GeneratorRow>, o: OutPoint) {
    exists g :: 0 <= g < |rows| && AllottedBy(rows[g], o)
  }

  ghost predicate AllottedBy(row: GeneratorRow, o: OutPoint) {
    row.txid == o.txid && o.vout < row.cur
  }

  ghost predicate Assigned(kickoffs: map<OutPoint, Utxo>, o: OutPoint) {
    exists d :: d in kickoffs && kickoffs[d].outpoint == o
  }

  /** Deposits and handed out outputs correspond one to one. */
  ghost predicate OneToOne(t: Tables) {
    && (forall d :: d in t.kickoffs ==> HandedOut(t.generators, t.kickoffs[d]))
    && (forall d, e :: d in t.kickoffs && e in t.kickoffs ==>
         t.kickoffs[d].outpoint == t.kickoffs[e].outpoint ==> d == e)
    && (forall o :: Allotted(t.generators, o) ==> Assigned(t.kickoffs, o))
  }

  function SumCur(rows: seq<GeneratorRow>): nat {
    if rows == [] then 0 else SumCur(rows[..|rows| - 1]) + rows[|rows| - 1].cur
  }

  ghost predicate Invariant(o: Settings, t: Tables) {
    && RowsOk(o, t.generators) && OnlyNewestOpen(t.generators)
    && OneToOne(t) && |t.kickoffs| == SumCur(t.generators)
  }

  lemma NewestOpenIsLast(rows: seq<GeneratorRow>)
    requires OnlyNewestOpen(rows)
    ensures NewestOpen(rows).Some? ==> NewestOpen(rows).value == |rows| - 1
    ensures NewestOpen(rows).None? ==> rows == [] || rows[|rows| - 1].cur >= rows[|rows| - 1].numKickoffs
  {
    var open := NewestOpen(rows);
    if open.Some? {
      assert !(rows[open.value].cur == rows[open.value].numKickoffs);
    }
  }

  /** Handing out one more output, which no row had handed out, to one more deposit. */
  lemma AssignOneMore(t: Tables, after: Tables, deposit: OutPoint, u: Utxo)
    requires OneToOne(t) && deposit !in t.kickoffs && after.kickoffs == t.kickoffs[deposit := u]
    requires forall v :: HandedOut(t.generators, v) ==> HandedOut(after.generators, v) && v.outpoint != u.outpoint
    requires HandedOut(after.generators, u)
    requires forall o :: Allotted(after.generators, o) ==> o == u.outpoint || Allotted(t.generators, o)
    ensures OneToOne(after)
  {
    hide HandedOut, Allotted;
    forall d, e | d in after.kickoffs && e in after.kickoffs && after.kickoffs[d].outpoint == after.kickoffs[e].outpoint
      ensures d == e
    {
      if d != deposit {
        assert HandedOut(t.generators, t.kickoffs[d]);
      }
      if e != deposit {
        assert HandedOut(t.generators, t.kickoffs[e]);
      }
    }
    forall o | Allotted(after.generators, o) ensures Assigned(after.kickoffs, o) {
      if o == u.outpoint {
        assert after.kickoffs[deposit].outpoint == o;
      } else {
        assert Assigned(t.kickoffs, o);
        var d :| d in t.kickoffs && t.kickoffs[d].outpoint == o;
        assert after.kickoffs[d].outpoint == o;
      }
    }
  }

  /** Advancing the last row hands out its next output and nothing else. */
  lemma AdvanceLast(rows: seq<GeneratorRow>, after: seq<GeneratorRow>, u: Utxo)
    requires rows != [] && forall g, h :: 0 <= g < h < |rows| ==> rows[g].txid != rows[h].txid
    requires var last := rows[|rows| - 1];
             && after == rows[|rows| - 1 := last.(cur := last.cur + 1)]
             && last.cur < |last.tx.outputs| && last.cur < 0x8000_0000
             && u == Utxo(OutPoint(last.txid, last.cur), last.tx.outputs[last.cur])
    ensures forall v :: HandedOut(rows, v) ==> HandedOut(after, v) && v.outpoint != u.outpoint
    ensures HandedOut(after, u)
    ensures forall o :: Allotted(after, o) ==> o == u.outpoint || Allotted(rows, o)
  {
    var last := |rows| - 1;
    forall v | HandedOut(rows, v) ensures HandedOut(after, v) && v.outpoint != u.outpoint {
      var g :| 0 <= g < |rows| && HandedOutBy(rows[g], v);
      assert HandedOutBy(after[g], v);
    }
    assert HandedOutBy(after[last], u);
    forall o | Allotted(after, o) && o != u.outpoint ensures Allotted(rows, o) {
      var g :| 0 <= g < |after| && AllottedBy(after[g], o);
      assert AllottedBy(rows[g], o);
    }
  }

  /** A new row hands out its first output. */
  lemma AppendRow(rows: seq<GeneratorRow>, row: GeneratorRow, u: Utxo)
    requires forall g :: 0 <= g < |rows| ==> rows[g].txid != row.txid
    requires row.cur == 1 <= |row.tx.outputs| && u == Utxo(OutPoint(row.txid, 0), row.tx.outputs[0])
    ensures forall v :: HandedOut(rows, v) ==> HandedOut(rows + [row], v) && v.outpoint != u.outpoint
    ensures HandedOut(rows + [row], u)
    ensures forall o :: Allotted(rows + [row], o) ==> o == u.outpoint || Allotted(rows, o)
  {
    var after := rows + [row];
    forall v | HandedOut(rows, v) ensures HandedOut(after, v) && v.outpoint != u.outpoint {
      var g :| 0 <= g < |rows| && HandedOutBy(rows[g], v);
      assert HandedOutBy(after[g], v);
    }
    assert HandedOutBy(after[|rows|], u);
    forall o | Allotted(after, o) && o != u.outpoint ensures Allotted(rows, o) {
      var g :| 0 <= g < |after| && AllottedBy(after[g], o);
      assert AllottedBy(rows[g], o);
    }
  }

  lemma TakeKeeps(o: Settings, t: Tables, deposit: OutPoint, u: Utxo, after: Tables)
    requires Usable(o) && Invariant(o, t) && deposit !in t.kickoffs
    requires TakeUnused(t).1 == Success(Some(u))
    requires after == TakeUnused(t).0.(kickoffs := t.kickoffs[deposit := u])
    ensures Invariant(o, after)
  {
    hide OneToOne, GeneratorShape;
    var rows, rows' := t.generators, after.generators;
    NewestOpenIsLast(rows);
    var g := |rows| - 1;
    assert RowOk(o, rows[g]);
    assert rows'[..g] == rows[..g];
    AdvanceLast(rows, rows', u);
    AssignOneMore(t, after, deposit, u);
  }

  lemma AppendKeeps(o: Settings, t: Tables, after: Tables, deposit: OutPoint, row: GeneratorRow, u: Utxo)
    requires Invariant(o, t) && deposit !in t.kickoffs && NewestOpen(t.generators).None?
    requires RowOk(o, row) && row.cur == 1 && FindGenerator(t.generators, row.txid).None?
    requires u == Utxo(OutPoint(row.txid, 0), row.tx.outputs[0])
    requires after.generators == t.generators + [row] && after.kickoffs == t.kickoffs[deposit := u]
    ensures Invariant(o, after)
  {
    hide OneToOne, RowOk, HandedOut, Allotted, NewestOpen, FindGenerator;
    var rows, g := t.generators, |t.generators|;
    NewestOpenIsLast(rows);
    if g > 0 {
      RowFacts(o, rows[g - 1]);
    }
    RowFacts(o, row);
    TxidIsNew(rows, row.txid);
    AppendRow(rows, row, u);
    AssignOneMore(t, after, deposit, u);
    hide OnlyNewestOpen, RowsOk;
    assert RowsOk(o, after.generators) && OnlyNewestOpen(after.generators) by {
      AppendedRowsOk(o, rows, row);
    }
    assert after.generators[..g] == rows;
  }

  lemma TxidIsNew(rows: seq<GeneratorRow>, txid: Txid)
    requires FindGenerator(rows, txid).None?
    ensures forall h :: 0 <= h < |rows| ==> rows[h].txid != txid
  {
    forall h | 0 <= h < |rows| ensures rows[h].txid != txid {
      assert rows[h] in rows;
    }
  }

  lemma AppendedRowsOk(o: Settings, rows: seq<GeneratorRow>, row: GeneratorRow)
    requires RowsOk(o, rows) && RowOk(o, row) && OnlyNewestOpen(rows)
    requires forall h :: 0 <= h < |rows| ==> rows[h].txid != row.txid
    requires rows != [] ==> rows[|rows| - 1].cur == rows[|rows| - 1].numKickoffs
    ensures RowsOk(o, rows + [row]) && OnlyNewestOpen(rows + [row])
  {
    hide RowOk;
  }

  lemma RowFacts(o: Settings, row: GeneratorRow)
    requires RowOk(o, row)
    ensures row.numKickoffs == o.kickoffs && 1 <= row.cur <= o.kickoffs && |row.tx.outputs| == o.kickoffs + 2
  {
  }

  lemma GenerateKeeps(o: Settings, t: Tables, deposit: OutPoint)
    requires Usable(o) && Invariant(o, t) && deposit !in t.kickoffs
    requires NewestOpen(t.generators).None?
    ensures Invariant(o, Generate(o, t, deposit).0)
  {
    var after := Generate(o, t, deposit).0;
    if after != t {
      GeneratedShape(o, t.funding[|t.funding| - 1]);
      hide Invariant, Generator, OutputOf, KickoffCost;
      var row := after.generators[|t.generators|];
      hide GeneratorShape;
      assert RowOk(o, row);
      AppendKeeps(o, t, after, deposit, row, after.kickoffs[deposit]);
    }
  }

  lemma GeneratedShape(o: Settings, funding: Utxo)
    requires funding.txout.value >= KickoffCost(o.kickoffs)
    ensures GeneratorShape(o, Generator(o, funding))
    ensures Generator(o, funding).inputs[0].previousOutput == funding.outpoint
  {
  }

  lemma FundingIsFree(o: Settings, t: Tables, after: Tables)
    requires Invariant(o, t) && after == t.(funding := after.funding)
    ensures Invariant(o, after)
  {
  }

  lemma StepKeeps(o: Settings, t: Tables, call: Call)
    requires Usable(o) && Invariant(o, t)
    ensures Invariant(o, Step(o, t, call))
  {
    hide OneToOne, RowsOk, OnlyNewestOpen, SumCur, Generate;
    match call
    case SetFunding(_) =>
      FundingIsFree(o, t, Step(o, t, call));
    case NewDeposit(deposit, valid) =>
      if valid && deposit !in t.kickoffs {
        var (taken, unused) := TakeUnused(t);
        if unused.Success? {
          if unused.value.Some? {
            TakeKeeps(o, t, deposit, unused.value.value, taken.(kickoffs := t.kickoffs[deposit := unused.value.value]));
          } else {
            GenerateKeeps(o, t, deposit);
          }
        }
      }
  }

  lemma {:induction false} RunKeeps(o: Settings, t: Tables, calls: seq<Call>)
    requires Usable(o) && Invariant(o, t)
    ensures Invariant(o, Run(o, t, calls))
    decreases |calls|
  {
    if calls != [] {
      StepKeeps(o, t, calls[0]);
      RunKeeps(o, Step(o, t, calls[0]), calls[1..]);
    }
  }

  /** No step and so no run ever changes or drops an assignment. */
  lemma {:induction false} AssignmentsNeverChange(o: Settings, t: Tables, calls: seq<Call>)
    requires Usable(o)
    ensures forall d :: d in t.kickoffs ==>
              d in Run(o, t, calls).kickoffs && Run(o, t, calls).kickoffs[d] == t.kickoffs[d]
    decreases |calls|
  {
    if calls != [] {
      AssignmentsNeverChange(o, Step(o, t, calls[0]), calls[1..]);
    }
  }

  lemma EmptyTablesHoldInvariant(o: Settings, funding: seq<Utxo>)
    ensures Invariant(o, Tables([], map[], funding))
  {
  }

  /** Over every run from empty tables no kickoff UTXO is assigned to two deposits. */
  lemma NoKickoffUtxoAssignedTwice(o: Settings, funding: seq<Utxo>, calls: seq<Call>, d: OutPoint, e: OutPoint)
    requires Usable(o)
    requires var t := Run(o, Tables([], map[], funding), calls); d in t.kickoffs && e in t.kickoffs && d != e
    ensures var t := Run(o, Tables([], map[], funding), calls); t.kickoffs[d].outpoint != t.kickoffs[e].outpoint
  {
    EmptyTablesHoldInvariant(o, funding);
    RunKeeps(o, Tables([], map[], funding), calls);
  }

  /**
   Over every run from empty tables: every assigned UTXO is a kickoff output, never the
   change, of a stored generator transaction and is what the verifiers demand of a kickoff;
   all rows but the newest are used up; no index passes the number of kickoffs; and there
   are as many assignments as the rows count.
  */
  lemma AssignmentsMatchRows(o: Settings, funding: seq<Utxo>, calls: seq<Call>)
    requires Usable(o)
    ensures var t := Run(o, Tables([], map[], funding), calls);
            && (forall d :: d in t.kickoffs ==>
                  && HandedOut(t.generators, t.kickoffs[d]) && t.kickoffs[d].outpoint.vout < o.kickoffs
                  && t.kickoffs[d].txout == TxOut(KICKOFF_UTXO_AMOUNT_SATS, KickoffScript(o.cfg.nofn, o.key)))
            && OnlyNewestOpen(t.generators)
            && (forall g :: 0 <= g < |t.generators| ==> 1 <= t.generators[g].cur <= t.generators[g].numKickoffs)
            && |t.kickoffs| == SumCur(t.generators)
  {
    EmptyTablesHoldInvariant(o, funding);
    RunKeeps(o, Tables([], map[], funding), calls);
    var t := Run(o, Tables([], map[], funding), calls);
    hide Run, HandedOut, GeneratorShape, KickoffScript;
    forall d | d in t.kickoffs
      ensures HandedOut(t.generators, t.kickoffs[d]) && t.kickoffs[d].outpoint.vout < o.kickoffs
      ensures t.kickoffs[d].txout == TxOut(KICKOFF_UTXO_AMOUNT_SATS, KickoffScript(o.cfg.nofn, o.key))
    {
      AssignedIsKickoff(o, t, d);
    }
    forall g | 0 <= g < |t.generators| ensures 1 <= t.generators[g].cur <= t.generators[g].numKickoffs {
      assert RowOk(o, t.generators[g]);
    }
  }

  lemma AssignedIsKickoff(o: Settings, t: Tables, d: OutPoint)
    requires Invariant(o, t) && d in t.kickoffs
    ensures HandedOut(t.generators, t.kickoffs[d])
    ensures t.kickoffs[d].outpoint.vout < o.kickoffs
    ensures t.kickoffs[d].txout == TxOut(KICKOFF_UTXO_AMOUNT_SATS, KickoffScript(o.cfg.nofn, o.key))
  {
    var g :| 0 <= g < |t.generators| && HandedOutBy(t.generators[g], t.kickoffs[d]);
    assert RowOk(o, t.generators[g]);
  }

  /** A call that fails changes no table; a repeated call returns the same UTXO. */
  lemma NewDepositIsIdempotent(o: Settings, t: Tables, deposit: OutPoint, valid: bool)
    requires Usable(o)
    ensures var (t', r) := Assign(o, t, deposit, valid);
            && (r.Failure? ==> t' == t)
            && (r.Success? ==> deposit in t'.kickoffs && t'.kickoffs[deposit] == r.value)
            && Assign(o, t', deposit, valid) == (t', r)
  {
  }

  /** On invariant tables the call never panics, and it fails for four reasons only. */
  lemma NewDepositFailsWhen(o: Settings, t: Tables, deposit: OutPoint, valid: bool)
    requires Usable(o) && Invariant(o, t)
    ensures var r := Assign(o, t, deposit, valid).1;
            r.Failure? <==>
            || !valid
            || (deposit !in t.kickoffs && (t.generators == [] || t.generators[|t.generators| - 1].cur == o.kickoffs)
                && (|| t.funding == []
                    || t.funding[|t.funding| - 1].txout.value < KickoffCost(o.kickoffs)
                    || o.kickoffs == 0
                    || FindGenerator(t.generators, Id(Generator(o, t.funding[|t.funding| - 1]))).Some?))
  {
    hide OneToOne, SumCur, Generator, KickoffCost, RowOk;
    NewestOpenIsLast(t.generators);
    if t.generators != [] {
      RowFacts(o, t.generators[|t.generators| - 1]);
    }
    hide RowsOk, OnlyNewestOpen, FindGenerator;
  }
}
