/**
 core/src/env_writer.rs: write_tx_to_env, the printer for the circuit's reader. The file is
 commented out in the repository; it is modelled as the reader's partner.
*/
module TxWriter {
  import opened Wrappers
  import opened SymbolicBytes
  import opened Tape
  import opened TxFormat
  import opened TxReader

  /** A script of 34 bytes that starts with OP_PUSHNUM_1 and a 32-byte push. */
  predicate IsTaproot(script: Bytes) {
    |script| == 34 && script[0] == Lit(81) && script[1] == Lit(32)
  }

  function Padding(count: nat): Bytes {
    seq(count, _ => Lit(0))
  }

  function ChunkItems(script: Bytes): seq<Item>
    decreases |script|
  {
    if script == [] then []
    else if |script| < 32 then [WordItem(script + Padding(32 - |script|))]
    else [WordItem(script[..32])] + ChunkItems(script[32..])
  }

  function InputItems(i: Input): seq<Item>
    requires |i.script| < LIMIT
  {
    [WordItem(i.prevTx), U32Item(i.vout), U32Item(i.sequence), U32Item(|i.script|)] + ChunkItems(i.script)
  }

  /** An output in the form its flag says: the address alone, or the script by its length. */
  function EntryItems(e: OutputEntry): seq<Item>
    requires ReadableOutput(e)
  {
    var script := e.output.script;
    if e.taproot then [U64Item(e.output.value), U32Item(0), WordItem(script[2..34])]
    else [U64Item(e.output.value), U32Item(|script|)] + ChunkItems(script)
  }

  /** The writer flags every output that has the shape. */
  function OutputItems(o: Output): seq<Item>
    requires |o.script| < LIMIT
  {
    if IsTaproot(o.script) then [U64Item(o.value), U32Item(0), WordItem(o.script[2..34])]
    else [U64Item(o.value), U32Item(|o.script|)] + ChunkItems(o.script)
  }

  function AllInputItems(inputs: seq<Input>): seq<Item>
    requires forall i :: 0 <= i < |inputs| ==> |inputs[i].script| < LIMIT
  {
    if inputs == [] then [] else InputItems(inputs[0]) + AllInputItems(inputs[1..])
  }

  function AllOutputItems(outputs: seq<Output>): seq<Item>
    requires forall i :: 0 <= i < |outputs| ==> |outputs[i].script| < LIMIT
  {
    if outputs == [] then [] else OutputItems(outputs[0]) + AllOutputItems(outputs[1..])
  }

  function HeadItems(tx: Transaction): seq<Item>
    requires Encodable(tx)
  {
    [I32Item(tx.version), U32Item(|tx.inputs|), U32Item(|tx.outputs|), U32Item(tx.lockTime)]
  }

  function TxItems(tx: Transaction): seq<Item>
    requires Encodable(tx)
  {
    HeadItems(tx) + (AllInputItems(tx.inputs) + AllOutputItems(tx.outputs))
  }

  // The writer.

  method WriteChunks(env: Environment, script: Bytes)
    requires env.Valid()
    modifies env`tape
    ensures env.Valid() && env.Rest() == old(env.Rest()) + ChunkItems(script)
  {
    var chunkNum, remainder := |script| / 32, |script| % 32;
    for i := 0 to chunkNum
      invariant env.Valid()
      invariant env.Rest() + ChunkItems(script[32 * i..]) == old(env.Rest()) + ChunkItems(script)
    {
      ghost var rest := script[32 * i..];
      assert script[32 * i..32 * (i + 1)] == rest[..32];
      assert script[32 * (i + 1)..] == rest[32..];
      ghost var before := env.Rest();
      env.Write(WordItem(script[32 * i..32 * (i + 1)]));
      assert before + ChunkItems(rest) == env.Rest() + ChunkItems(rest[32..]);
    }
    if remainder > 0 {
      env.Write(WordItem(script[32 * chunkNum..] + Padding(32 - remainder)));
    }
  }

  method WriteInput(env: Environment, input: Input)
    requires env.Valid() && |input.script| < LIMIT
    modifies env`tape
    ensures env.Valid() && env.Rest() == old(env.Rest()) + InputItems(input)
  {
    env.Write(WordItem(input.prevTx));
    env.Write(U32Item(input.vout));
    env.Write(U32Item(input.sequence));
    env.Write(U32Item(|input.script|));
    WriteChunks(env, input.script);
  }

  method WriteOutput(env: Environment, output: Output)
    requires env.Valid() && |output.script| < LIMIT
    modifies env`tape
    ensures env.Valid() && env.Rest() == old(env.Rest()) + OutputItems(output)
  {
    env.Write(U64Item(output.value));
    if IsTaproot(output.script) {
      env.Write(U32Item(0));
      env.Write(WordItem(output.script[2..34]));
    } else {
      env.Write(U32Item(|output.script|));
      WriteChunks(env, output.script);
    }
  }

  method WriteTxToEnv(env: Environment, tx: Transaction)
    requires env.Valid() && Encodable(tx)
    modifies env`tape
    ensures env.Valid() && env.Rest() == old(env.Rest()) + TxItems(tx)
  {
    hide InputItems, OutputItems;
    env.Write(I32Item(tx.version));
    env.Write(U32Item(|tx.inputs|));
    env.Write(U32Item(|tx.outputs|));
    env.Write(U32Item(tx.lockTime));
    ghost var head := env.Rest();
    assert head == old(env.Rest()) + HeadItems(tx);
    for i := 0 to |tx.inputs|
      invariant env.Valid()
      invariant env.Rest() + AllInputItems(tx.inputs[i..]) == head + AllInputItems(tx.inputs)
    {
      ghost var before, todo := env.Rest(), tx.inputs[i..];
      WriteInput(env, tx.inputs[i]);
      assert todo[0] == tx.inputs[i] && todo[1..] == tx.inputs[i + 1..];
      AppendFirst(before, InputItems(todo[0]), AllInputItems(todo[1..]));
    }
    ghost var middle := env.Rest();
    assert tx.inputs[|tx.inputs|..] == [];
    assert middle == head + AllInputItems(tx.inputs);
    for i := 0 to |tx.outputs|
      invariant env.Valid()
      invariant env.Rest() + AllOutputItems(tx.outputs[i..]) == middle + AllOutputItems(tx.outputs)
    {
      ghost var before, todo := env.Rest(), tx.outputs[i..];
      WriteOutput(env, tx.outputs[i]);
      assert todo[0] == tx.outputs[i] && todo[1..] == tx.outputs[i + 1..];
      AppendFirst(before, OutputItems(todo[0]), AllOutputItems(todo[1..]));
    }
    assert tx.outputs[|tx.outputs|..] == [];
    assert env.Rest() == middle + AllOutputItems(tx.outputs);
  }

  lemma AppendFirst<T>(a: seq<T>, b: seq<T>, c: seq<T>)
    ensures a + (b + c) == (a + b) + c
  {
  }

  // The round trip.

  /** What the reader makes of an output the writer wrote. */
  function EntryOf(o: Output): OutputEntry {
    OutputEntry(o, IsTaproot(o.script))
  }

  function EntriesOf(outputs: seq<Output>): seq<OutputEntry> {
    seq(|outputs|, i requires 0 <= i < |outputs| => EntryOf(outputs[i]))
  }

  lemma EntriesOfCons(outputs: seq<Output>)
    requires outputs != []
    ensures EntriesOf(outputs) == [EntryOf(outputs[0])] + EntriesOf(outputs[1..])
  {
  }

  lemma TaprootScriptShape(address: Word)
    ensures IsTaproot(TaprootScript(address))
  {
  }

  function EntryOfTx(tx: Transaction): TxEntry {
    TxEntry(tx.version, tx.inputs, EntriesOf(tx.outputs), tx.lockTime)
  }

  lemma {:induction false} ChunksRoundTrip(script: Bytes, acc: Bytes, post: seq<Item>)
    ensures ReadChunks(ChunkItems(script) + post, |script|, acc) == Got(acc + script, post)
    decreases |script|
  {
    var tape := ChunkItems(script) + post;
    if script == [] {
      assert tape == post && acc + script == acc;
    } else if |script| < 32 {
      var chunk: Word := script + Padding(32 - |script|);
      assert tape[0] == WordItem(chunk) && tape[1..] == post;
      assert chunk[..|script|] == script;
    } else {
      assert tape[0] == WordItem(script[..32]) && tape[1..] == ChunkItems(script[32..]) + post;
      ChunksRoundTrip(script[32..], acc + script[..32], post);
      assert acc + script == acc + script[..32] + script[32..];
    }
  }

  lemma InputRoundTrip(i: Input, post: seq<Item>)
    requires |i.script| < LIMIT
    ensures ReadInput(InputItems(i) + post) == Got(i, post)
  {
    var t0 := InputItems(i) + post;
    var t1, t2, t3, t4 := t0[1..], t0[1..][1..], t0[1..][1..][1..], t0[1..][1..][1..][1..];
    assert t4 == ChunkItems(i.script) + post;
    ChunksRoundTrip(i.script, [], post);
    assert [] + i.script == i.script;
  }

  lemma EntryRoundTrip(e: OutputEntry, post: seq<Item>)
    requires ReadableOutput(e)
    ensures ReadOutput(EntryItems(e) + post) == Got(e, post)
  {
    var t0, script := EntryItems(e) + post, e.output.script;
    var t2 := t0[1..][1..];
    if e.taproot {
      assert t2[0] == WordItem(script[2..34]) && t2[1..] == post && script[2..34] == script[2..];
    } else {
      assert t2 == ChunkItems(script) + post;
      ChunksRoundTrip(script, [], post);
      assert [] + script == script;
    }
  }

  /** The writer's items are those of the entry the reader makes of the output. */
  lemma OutputItemsOfEntry(o: Output)
    requires |o.script| < LIMIT && o.script != []
    ensures ReadableOutput(EntryOf(o)) && OutputItems(o) == EntryItems(EntryOf(o))
  {
    if IsTaproot(o.script) {
      assert TaprootScript(o.script[2..]) == o.script;
    }
  }

  lemma ReadInputsStep(tape: seq<Item>, count: nat, acc: seq<Input>, first: Input, rest: seq<Item>)
    requires count > 0 && ReadInput(tape) == Got(first, rest)
    ensures ReadInputs(tape, count, acc) == ReadInputs(rest, count - 1, acc + [first])
  {
    hide ReadInput;
  }

  lemma ReadOutputsStep(tape: seq<Item>, count: nat, acc: seq<OutputEntry>, first: OutputEntry, rest: seq<Item>)
    requires count > 0 && ReadOutput(tape) == Got(first, rest)
    ensures ReadOutputs(tape, count, acc) == ReadOutputs(rest, count - 1, acc + [first])
  {
    hide ReadOutput;
  }

  lemma {:induction false} InputsRoundTrip(inputs: seq<Input>, acc: seq<Input>, post: seq<Item>)
    requires forall i :: 0 <= i < |inputs| ==> |inputs[i].script| < LIMIT
    ensures ReadInputs(AllInputItems(inputs) + post, |inputs|, acc) == Got(acc + inputs, post)
    decreases |inputs|
  {
    if inputs == [] {
      assert AllInputItems(inputs) + post == post && acc + inputs == acc;
    } else {
      hide ReadInput, InputItems, ReadInputs;
      var first, rest := inputs[0], AllInputItems(inputs[1..]) + post;
      var tape := AllInputItems(inputs) + post;
      assert tape == InputItems(first) + rest by {
        AppendFirst(InputItems(first), AllInputItems(inputs[1..]), post);
      }
      hide AllInputItems;
      InputRoundTrip(first, rest);
      calc {
        ReadInputs(tape, |inputs|, acc);
        { ReadInputsStep(tape, |inputs|, acc, first, rest); }
        ReadInputs(rest, |inputs| - 1, acc + [first]);
        { InputsRoundTrip(inputs[1..], acc + [first], post); }
        Got(acc + [first] + inputs[1..], post);
        { assert inputs == [first] + inputs[1..]; AppendFirst(acc, [first], inputs[1..]); }
        Got(acc + inputs, post);
      }
    }
  }

  function AllEntryItems(entries: seq<OutputEntry>): seq<Item>
    requires ReadableOutputs(entries)
  {
    if entries == [] then [] else EntryItems(entries[0]) + AllEntryItems(entries[1..])
  }

  lemma EntryItemsFirst(entries: seq<OutputEntry>, post: seq<Item>)
    requires ReadableOutputs(entries) && entries != []
    ensures ReadableOutput(entries[0]) && ReadableOutputs(entries[1..])
    ensures AllEntryItems(entries) + post == EntryItems(entries[0]) + (AllEntryItems(entries[1..]) + post)
  {
    hide EntryItems, ReadableOutput;
    AppendFirst(EntryItems(entries[0]), AllEntryItems(entries[1..]), post);
  }

  /** Reading one more entry in front. */
  lemma EntriesStep(entries: seq<OutputEntry>, acc: seq<OutputEntry>, post: seq<Item>)
    requires ReadableOutputs(entries)
    requires entries != [] ==>
               && ReadableOutputs(entries[1..])
               && ReadOutputs(AllEntryItems(entries[1..]) + post, |entries| - 1, acc + [entries[0]])
                  == Got(acc + [entries[0]] + entries[1..], post)
    ensures ReadOutputs(AllEntryItems(entries) + post, |entries|, acc) == Got(acc + entries, post)
  {
    hide *;
    if entries == [] {
      NoEntries(acc, post);
      assert acc + entries == acc;
    } else {
      EntryItemsFirst(entries, post);
      var first, rest := entries[0], AllEntryItems(entries[1..]) + post;
      EntryRoundTrip(first, rest);
      ReadOutputsStep(EntryItems(first) + rest, |entries|, acc, first, rest);
      assert acc + [first] + entries[1..] == acc + entries;
    }
  }

  lemma NoEntries(acc: seq<OutputEntry>, post: seq<Item>)
    ensures ReadOutputs(AllEntryItems([]) + post, 0, acc) == Got(acc, post)
  {
    assert AllEntryItems([]) + post == post;
  }

  lemma {:induction false} EntriesRoundTrip(entries: seq<OutputEntry>, acc: seq<OutputEntry>, post: seq<Item>)
    requires ReadableOutputs(entries)
    ensures ReadOutputs(AllEntryItems(entries) + post, |entries|, acc) == Got(acc + entries, post)
    decreases |entries|
  {
    hide *;
    if entries != [] {
      EntryItemsFirst(entries, post);
      EntriesRoundTrip(entries[1..], acc + [entries[0]], post);
    }
    EntriesStep(entries, acc, post);
  }

  lemma {:induction false} OutputItemsOfEntries(outputs: seq<Output>)
    requires forall i :: 0 <= i < |outputs| ==> 0 < |outputs[i].script| < LIMIT
    ensures ReadableOutputs(EntriesOf(outputs))
    ensures AllOutputItems(outputs) == AllEntryItems(EntriesOf(outputs))
    decreases |outputs|
  {
    hide OutputItems, EntryItems, ReadableOutput, EntryOf;
    forall i | 0 <= i < |outputs| ensures ReadableOutput(EntriesOf(outputs)[i]) {
      OutputItemsOfEntry(outputs[i]);
    }
    if outputs != [] {
      EntriesOfCons(outputs);
      OutputItemsOfEntry(outputs[0]);
      OutputItemsOfEntries(outputs[1..]);
      assert EntriesOf(outputs)[1..] == EntriesOf(outputs[1..]);
    }
  }

  lemma OutputsRoundTrip(outputs: seq<Output>, acc: seq<OutputEntry>, post: seq<Item>)
    requires forall i :: 0 <= i < |outputs| ==> 0 < |outputs[i].script| < LIMIT
    ensures ReadOutputs(AllOutputItems(outputs) + post, |outputs|, acc) == Got(acc + EntriesOf(outputs), post)
  {
    hide ReadOutputs, AllOutputItems, AllEntryItems, ReadableOutput, EntryOf;
    OutputItemsOfEntries(outputs);
    EntriesRoundTrip(EntriesOf(outputs), acc, post);
  }

  /** A transaction printed with its own flags. */
  function TxEntryItems(e: TxEntry): seq<Item>
    requires Readable(e)
  {
    HeadItems(e.Tx()) + (AllInputItems(e.inputs) + AllEntryItems(e.entries))
  }

  lemma EntriesAssembly(a: seq<Item>, b: seq<Item>, c: seq<Item>, post: seq<Item>)
    ensures a + (b + c) + post == a + (b + (c + post))
  {
  }

  /** Whatever some tape describes is read back from its own items. */
  lemma TxEntryRoundTrip(e: TxEntry, post: seq<Item>)
    requires Readable(e)
    ensures ReadTx(TxEntryItems(e) + post) == Got(e, post)
  {
    hide ReadHead, ReadInputs, ReadOutputs, AllInputItems, AllEntryItems, HeadItems, ReadableOutput;
    EntriesAssembly(HeadItems(e.Tx()), AllInputItems(e.inputs), AllEntryItems(e.entries), post);
    HeadRoundTrip(e.Tx(), AllInputItems(e.inputs) + (AllEntryItems(e.entries) + post));
    InputsRoundTrip(e.inputs, [], AllEntryItems(e.entries) + post);
    EntriesRoundTrip(e.entries, [], post);
    assert [] + e.inputs == e.inputs && [] + e.entries == e.entries;
  }

  /** Such an input is among those described. */
  ghost predicate HasInput(e: TxEntry, txid: Word, vout: U32) {
    exists i :: 0 <= i < |e.inputs| && e.inputs[i].prevTx == txid && e.inputs[i].vout == vout
  }

  /** Such an output is, and the tape flagged it as a taproot output. */
  ghost predicate HasFlaggedOutput(e: TxEntry, value: Option<U64>, address: Word) {
    exists o :: && 0 <= o < |e.entries| && e.entries[o].taproot
                && e.entries[o].output.script == [Lit(0x51), Lit(0x20)] + address
                && (value.Some? ==> e.entries[o].output.value == value.value)
  }

  /** What a tape describes is accepted exactly when the required input and flagged output are there. */
  lemma EntryAcceptedIff(e: TxEntry, post: seq<Item>, requireInput: InputCondition, requireOutput: OutputCondition)
    requires Readable(e)
    ensures ReadTxChecked(TxEntryItems(e) + post, requireInput, requireOutput).Got?
            <==> && (requireInput.Some? ==> HasInput(e, requireInput.value.0, requireInput.value.1))
                 && (requireOutput.Some? ==> HasFlaggedOutput(e, requireOutput.value.0, requireOutput.value.1))
  {
    hide ReadTx, TxEntryItems, Readable;
    TxEntryRoundTrip(e, post);
    if requireInput.Some? && HasInput(e, requireInput.value.0, requireInput.value.1) {
      var i :| && 0 <= i < |e.inputs|
               && e.inputs[i].prevTx == requireInput.value.0 && e.inputs[i].vout == requireInput.value.1;
      assert InputMatches(requireInput, e.inputs[i]);
    }
    if requireOutput.Some? {
      var (value, address) := requireOutput.value;
      assert TaprootScript(address) == [Lit(0x51), Lit(0x20)] + address;
      hide TaprootScript;
      if HasFlaggedOutput(e, value, address) {
        var o :| && 0 <= o < |e.entries| && e.entries[o].taproot
                 && e.entries[o].output.script == [Lit(0x51), Lit(0x20)] + address
                 && (value.Some? ==> e.entries[o].output.value == value.value);
        assert OutputMatches(requireOutput, e.entries[o]);
      }
    }
  }

  /** So one transaction, with one txid, is accepted or refused by the flag the tape gives its output. */
  lemma FlagDecides(version: I32, inputs: seq<Input>, value: U64, address: Word, lockTime: U32, post: seq<Item>)
    requires ShortInputs(inputs) && |inputs| < LIMIT
    ensures var output := Output(value, [Lit(0x51), Lit(0x20)] + address);
            var flagged := TxEntry(version, inputs, [OutputEntry(output, true)], lockTime);
            var plain := TxEntry(version, inputs, [OutputEntry(output, false)], lockTime);
            && Readable(flagged) && Readable(plain) && flagged.Tx() == plain.Tx()
            && ReadTxChecked(TxEntryItems(flagged) + post, None, Some((Some(value), address))).Got?
            && ReadTxChecked(TxEntryItems(plain) + post, None, Some((Some(value), address))).Panic?
  {
    hide ReadTx, TxEntryItems, ReadTxChecked;
    var output := Output(value, [Lit(0x51), Lit(0x20)] + address);
    assert TaprootScript(address) == output.script && output.script[2..] == address;
    var flagged := TxEntry(version, inputs, [OutputEntry(output, true)], lockTime);
    var plain := TxEntry(version, inputs, [OutputEntry(output, false)], lockTime);
    assert Outputs(flagged.entries) == [output] && Outputs(plain.entries) == [output];
    assert ReadableOutput(flagged.entries[0]) && ReadableOutput(plain.entries[0]);
    EntryAcceptedIff(flagged, post, None, Some((Some(value), address)));
    EntryAcceptedIff(plain, post, None, Some((Some(value), address)));
    assert flagged.entries[0].taproot && HasFlaggedOutput(flagged, Some(value), address);
    assert !HasFlaggedOutput(plain, Some(value), address);
  }

  predicate NoEmptyScript(tx: Transaction) {
    forall i :: 0 <= i < |tx.outputs| ==> tx.outputs[i].script != []
  }

  lemma HeadRoundTrip(tx: Transaction, post: seq<Item>)
    requires Encodable(tx)
    ensures ReadHead(HeadItems(tx) + post)
            == Got(Head(tx.version, |tx.inputs|, |tx.outputs|, tx.lockTime), post)
  {
    var t0 := HeadItems(tx) + post;
    assert t0[1..][1..][1..][1..] == post;
  }

  /**
   The round trip: read back, the writer's tape gives the transaction it was written from
   and stops at its end, exactly when no output script is empty. (An empty script is
   written as length zero, which the reader takes for the taproot flag.)
  */
  lemma TxRoundTripIff(tx: Transaction, post: seq<Item>)
    requires Encodable(tx)
    ensures NoEmptyScript(tx) <==> ReadTx(TxItems(tx) + post) == Got(EntryOfTx(tx), post)
    ensures !NoEmptyScript(tx) ==> var r := ReadTx(TxItems(tx) + post);
                                   r.Got? ==> Serialize(r.value.Tx()) != Serialize(tx)
    ensures EntryOfTx(tx).Tx() == tx
  {
    hide Serialize, ReadHead, ReadInputs, ReadOutputs, AllInputItems, AllOutputItems, HeadItems;
    assert Outputs(EntriesOf(tx.outputs)) == tx.outputs;
    var body := AllInputItems(tx.inputs) + (AllOutputItems(tx.outputs) + post);
    assert TxItems(tx) + post == HeadItems(tx) + body;
    HeadRoundTrip(tx, body);
    InputsRoundTrip(tx.inputs, [], AllOutputItems(tx.outputs) + post);
    assert [] + tx.inputs == tx.inputs;
    if NoEmptyScript(tx) {
      OutputsRoundTrip(tx.outputs, [], post);
      assert [] + EntriesOf(tx.outputs) == EntriesOf(tx.outputs);
    } else {
      var r := ReadTx(TxItems(tx) + post);
      var k :| 0 <= k < |tx.outputs| && tx.outputs[k].script == [];
      if r.Got? {
        assert r.value.entries[k].output.script != [];
        assert r.value.Tx().outputs[k].script != tx.outputs[k].script;
        if Serialize(r.value.Tx()) == Serialize(tx) {
          SerializeInjective(r.value.Tx(), tx);
        }
      }
    }
  }

  /**
   Writing a transaction and reading it back hashes exactly its serialization, and the
   conditions are accepted exactly when such an input, or such a taproot output, exists.
  */
  lemma WrittenTxAcceptedIff(tx: Transaction, post: seq<Item>,
                             requireInput: InputCondition, requireOutput: OutputCondition)
    requires Encodable(tx) && NoEmptyScript(tx)
    ensures var r := ReadTxChecked(TxItems(tx) + post, requireInput, requireOutput);
            && (r.Got? ==> r == Got(EntryOfTx(tx), post))
            && (r.Got? <==>
                && (requireInput.Some? ==>
                      exists i :: && 0 <= i < |tx.inputs|
                                  && tx.inputs[i].prevTx == requireInput.value.0
                                  && tx.inputs[i].vout == requireInput.value.1)
                && (requireOutput.Some? ==>
                      exists o :: && 0 <= o < |tx.outputs|
                                  && tx.outputs[o].script == TaprootScript(requireOutput.value.1)
                                  && (requireOutput.value.0.Some? ==>
                                        requireOutput.value.0.value == tx.outputs[o].value)))
  {
    hide ReadTx, TxItems, TaprootScript, Serialize;
    TxRoundTripIff(tx, post);
    var e := EntryOfTx(tx);
    if requireInput.Some? {
      if i :| && 0 <= i < |tx.inputs|
              && tx.inputs[i].prevTx == requireInput.value.0 && tx.inputs[i].vout == requireInput.value.1 {
        assert InputMatches(requireInput, e.inputs[i]);
      }
    }
    if requireOutput.Some? {
      if o :| && 0 <= o < |tx.outputs|
              && tx.outputs[o].script == TaprootScript(requireOutput.value.1)
              && (requireOutput.value.0.Some? ==> requireOutput.value.0.value == tx.outputs[o].value) {
        TaprootScriptShape(requireOutput.value.1);
        assert OutputMatches(requireOutput, e.entries[o]);
      }
      if OutputFound(requireOutput, e.entries) {
        var k :| 0 <= k < |e.entries| && OutputMatches(requireOutput, e.entries[k]);
        assert tx.outputs[k] == e.entries[k].output;
      }
    }
  }

  /** A failing input: one output with an empty script. */
  lemma EmptyScriptIsMisread()
    ensures var tx := Transaction(2, [], [Output(0, [])], 0);
            Encodable(tx) && ReadTx(TxItems(tx)) != Got(EntryOfTx(tx), [])
  {
    var tx := Transaction(2, [], [Output(0, [])], 0);
    assert tx.outputs[0].script == [] && TxItems(tx) + [] == TxItems(tx);
    TxRoundTripIff(tx, []);
  }
}
