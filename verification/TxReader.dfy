/**
 circuits/src/bitcoin.rs: the streaming transaction reader. The functions say what a tape
 describes; the methods stream it into the hasher, and their contracts connect the two.
*/
module TxReader {
  import opened Wrappers
  import opened SymbolicBytes
  import opened Tape
  import opened TxFormat

  /** One output as read: `taproot` when the tape flagged it with script length zero. */
  datatype OutputEntry = OutputEntry(output: Output, taproot: bool)

  datatype TxEntry = TxEntry(version: I32, inputs: seq<Input>, entries: seq<OutputEntry>, lockTime: U32) {
    function Tx(): Transaction {
      Transaction(version, inputs, Outputs(entries), lockTime)
    }
  }

  type InputCondition = Option<(Word, U32)>
  type OutputCondition = Option<(Option<U64>, Word)>

  function Outputs(entries: seq<OutputEntry>): seq<Output> {
    seq(|entries|, i requires 0 <= i < |entries| => entries[i].output)
  }

  function TaprootScript(address: Word): Bytes {
    Le8(81) + (Le8(32) + address)
  }

  // What a tape describes.

  function ReadChunks(tape: seq<Item>, byteLen: nat, acc: Bytes): (r: Read<Bytes>)
    ensures r.Got? ==> |r.value| == |acc| + byteLen
    decreases byteLen
  {
    if byteLen == 0 then Got(acc, tape)
    else
      var (chunk, t) :- NextWord(tape);
      if byteLen < 32 then Got(acc + chunk[..byteLen], t)
      else ReadChunks(t, byteLen - 32, acc + chunk)
  }

  function ReadInput(tape: seq<Item>): (r: Read<Input>)
    ensures r.Got? ==> |r.value.script| < LIMIT
  {
    var (prevTx, t1) :- NextWord(tape);
    var (vout, t2) :- NextU32(t1);
    var (sequence, t3) :- NextU32(t2);
    var (size, t4) :- NextU32(t3);
    var (script, t5) :- ReadChunks(t4, size, []);
    Got(Input(prevTx, vout, script, sequence), t5)
  }

  /** A flagged output has the taproot script of its address, any other one a script. */
  predicate ReadableOutput(e: OutputEntry) {
    && |e.output.script| < LIMIT
    && (if e.taproot then |e.output.script| == 34 && e.output.script == TaprootScript(e.output.script[2..])
        else e.output.script != [])
  }

  ghost predicate ReadableOutputs(entries: seq<OutputEntry>) {
    forall i :: 0 <= i < |entries| ==> ReadableOutput(entries[i])
  }

  /** What some tape describes. */
  ghost predicate Readable(e: TxEntry) {
    Encodable(e.Tx()) && ReadableOutputs(e.entries)
  }

  function ReadOutput(tape: seq<Item>): (r: Read<OutputEntry>)
    ensures r.Got? ==> ReadableOutput(r.value)
  {
    var (value, t1) :- NextU64(tape);
    var (flag, t2) :- NextU32(t1);
    if flag == 0 then
      var (address, t3) :- NextWord(t2);
      assert TaprootScript(address)[2..] == address;
      Got(OutputEntry(Output(value, TaprootScript(address)), true), t3)
    else
      var (script, t3) :- ReadChunks(t2, flag, []);
      Got(OutputEntry(Output(value, script), false), t3)
  }

  ghost predicate ShortInputs(inputs: seq<Input>) {
    forall i :: 0 <= i < |inputs| ==> |inputs[i].script| < LIMIT
  }

  function ReadInputs(tape: seq<Item>, count: nat, acc: seq<Input>): (r: Read<seq<Input>>)
    ensures r.Got? ==> |r.value| == |acc| + count
    ensures r.Got? && ShortInputs(acc) ==> ShortInputs(r.value)
    decreases count
  {
    if count == 0 then Got(acc, tape)
    else
      var (input, t) :- ReadInput(tape);
      ReadInputs(t, count - 1, acc + [input])
  }

  function ReadOutputs(tape: seq<Item>, count: nat, acc: seq<OutputEntry>): (r: Read<seq<OutputEntry>>)
    ensures r.Got? ==> |r.value| == |acc| + count && r.value[..|acc|] == acc
    ensures r.Got? && ReadableOutputs(acc) ==> ReadableOutputs(r.value)
    decreases count
  {
    if count == 0 then Got(acc, tape)
    else
      var (entry, t) :- ReadOutput(tape);
      var r := ReadOutputs(t, count - 1, acc + [entry]);
      assert r.Got? ==> r.value[|acc|] == (acc + [entry])[|acc|] && r.value[..|acc|] == (acc + [entry])[..|acc|];
      r
  }

  datatype Head = Head(version: I32, inputCount: U32, outputCount: U32, lockTime: U32)

  /** The four integers a transaction starts with on the tape. */
  function ReadHead(tape: seq<Item>): Read<Head> {
    var (version, t1) :- NextI32(tape);
    var (inputCount, t2) :- NextU32(t1);
    var (outputCount, t3) :- NextU32(t2);
    var (lockTime, t4) :- NextU32(t3);
    Got(Head(version, inputCount, outputCount, lockTime), t4)
  }

  function ReadTx(tape: seq<Item>): (r: Read<TxEntry>)
    ensures r.Got? ==> Readable(r.value)
  {
    var (head, t1) :- ReadHead(tape);
    var (inputs, t2) :- ReadInputs(t1, head.inputCount, []);
    var (entries, t3) :- ReadOutputs(t2, head.outputCount, []);
    Got(TxEntry(head.version, inputs, entries, head.lockTime), t3)
  }

  predicate InputMatches(required: InputCondition, i: Input) {
    required.Some? && i.prevTx == required.value.0 && i.vout == required.value.1
  }

  predicate OutputMatches(required: OutputCondition, e: OutputEntry) {
    && required.Some? && e.taproot
    && e.output.script == TaprootScript(required.value.1)
    && (required.value.0.Some? ==> required.value.0.value == e.output.value)
  }

  predicate InputFound(required: InputCondition, inputs: seq<Input>) {
    required.None? || exists k :: 0 <= k < |inputs| && InputMatches(required, inputs[k])
  }

  predicate OutputFound(required: OutputCondition, entries: seq<OutputEntry>) {
    required.None? || exists k :: 0 <= k < |entries| && OutputMatches(required, entries[k])
  }

  predicate Accepts(requireInput: InputCondition, requireOutput: OutputCondition, e: TxEntry) {
    InputFound(requireInput, e.inputs) && OutputFound(requireOutput, e.entries)
  }

  /** The reader's outcome: the described transaction, when it meets the conditions. */
  function ReadTxChecked(tape: seq<Item>, requireInput: InputCondition, requireOutput: OutputCondition)
    : (r: Read<TxEntry>)
    ensures r.Got? ==> Readable(r.value)
  {
    var (e, t) :- ReadTx(tape);
    if Accepts(requireInput, requireOutput, e) then Got(e, t) else Panic
  }

  // The streaming methods.

  method UpdateHasherWithVarint(hasher: Hasher, integer: U32)
    modifies hasher
    ensures hasher.data == old(hasher.data) + VarInt(integer)
  {
    if integer < 0xfd {
      hasher.Update(Le8(integer));
    } else if integer <= 0xffff {
      hasher.Update(Le8(0xfd));
      hasher.Update(Le16(integer));
    } else {
      hasher.Update(Le8(0xfe));
      hasher.Update(Le32(integer));
    }
  }

  method ReadChunksAndUpdateHasher(env: Environment, hasher: Hasher, byteLen: U32) returns (ok: Option<()>)
    requires env.Valid()
    modifies env`cursor, hasher
    ensures env.Valid()
    ensures ok.Some? <==> ReadChunks(old(env.Rest()), byteLen, []).Got?
    ensures ok.Some? ==> var r := ReadChunks(old(env.Rest()), byteLen, []);
                         hasher.data == old(hasher.data) + r.value && env.Rest() == r.rest
  {
    var chunks := byteLen / 32;
    ghost var acc: Bytes := [];
    for k := 0 to chunks
      invariant env.Valid()
      invariant hasher.data == old(hasher.data) + acc
      invariant ReadChunks(old(env.Rest()), byteLen, []) == ReadChunks(env.Rest(), byteLen - 32 * k, acc)
    {
      var chunk :- env.Read32Bytes();
      hasher.Update(chunk);
      acc := acc + chunk;
    }
    var remaining := byteLen % 32;
    if remaining > 0 {
      var chunk :- env.Read32Bytes();
      hasher.Update(chunk[..remaining]);
    }
    return Some(());
  }

  /** How the five updates of one input associate. */
  lemma InputAssembly(d: Bytes, a: Bytes, b: Bytes, c: Bytes, e: Bytes, f: Bytes)
    ensures d + a + b + c + e + f == d + (a + (b + ((c + e) + f)))
  {
  }

  /** The body of the input loop. */
  method ReadInputAndUpdateHasher(env: Environment, hasher: Hasher) returns (r: Option<(Word, U32)>)
    requires env.Valid()
    modifies env`cursor, hasher
    ensures env.Valid()
    ensures r.Some? <==> ReadInput(old(env.Rest())).Got?
    ensures r.Some? ==> var i := ReadInput(old(env.Rest()));
                        && r.value == (i.value.prevTx, i.value.vout)
                        && hasher.data == old(hasher.data) + SerializeInput(i.value)
                        && env.Rest() == i.rest
  {
    hide VarInt, Le32, ReadChunks;
    var prevTxHash :- env.Read32Bytes();
    var outputIndex :- env.ReadU32();
    var sequence :- env.ReadU32();
    hasher.Update(prevTxHash);
    hasher.Update(Le32(outputIndex));
    var scriptSigSize :- env.ReadU32();
    UpdateHasherWithVarint(hasher, scriptSigSize);
    var _ :- ReadChunksAndUpdateHasher(env, hasher, scriptSigSize);
    hasher.Update(Le32(sequence));
    ghost var input := ReadInput(old(env.Rest())).value;
    InputAssembly(old(hasher.data), prevTxHash, Le32(outputIndex), VarInt(scriptSigSize), input.script, Le32(sequence));
    return Some((prevTxHash, outputIndex));
  }

  /** The updates for a flagged output spell out its 34-byte script. */
  lemma OutputAssembly(d: Bytes, value: U64, address: Word)
    ensures |TaprootScript(address)| == 34
    ensures d + Le64(value) + Le8(34) + Le8(81) + Le8(32) + address
            == d + SerializeOutput(Output(value, TaprootScript(address)))
  {
    assert VarInt(34) == Le8(34);
  }

  /** The body of the output loop, with the test of the required output. */
  method ReadOutputAndUpdateHasher(env: Environment, hasher: Hasher, requireOutput: OutputCondition)
    returns (r: Option<bool>)
    requires env.Valid()
    modifies env`cursor, hasher
    ensures env.Valid()
    ensures r.Some? <==> ReadOutput(old(env.Rest())).Got?
    ensures r.Some? ==> var o := ReadOutput(old(env.Rest()));
                        && r.value == OutputMatches(requireOutput, o.value)
                        && hasher.data == old(hasher.data) + SerializeOutput(o.value.output)
                        && env.Rest() == o.rest
  {
    hide VarInt, Le32, Le64;
    var value :- env.ReadU64();
    var outputFlag :- env.ReadU32();
    if outputFlag == 0 {
      var taprootAddress :- env.Read32Bytes();
      OutputAssembly(hasher.data, value, taprootAddress);
      hasher.Update(Le64(value));
      hasher.Update(Le8(34));
      hasher.Update(Le8(81));
      hasher.Update(Le8(32));
      hasher.Update(taprootAddress);
      var satisfied := false;
      if requireOutput.Some? {
        TaprootScriptInjective(taprootAddress, requireOutput.value.1);
        if taprootAddress == requireOutput.value.1
           && (requireOutput.value.0.Some? ==> requireOutput.value.0.value == value) {
          satisfied := true;
        }
      }
      return Some(satisfied);
    } else {
      hasher.Update(Le64(value));
      UpdateHasherWithVarint(hasher, outputFlag);
      ghost var script := ReadChunks(env.Rest(), outputFlag, []);
      var _ :- ReadChunksAndUpdateHasher(env, hasher, outputFlag);
      AppendThree(old(hasher.data), Le64(value), VarInt(outputFlag), script.value);
      return Some(false);
    }
  }

  lemma AppendThree(d: Bytes, a: Bytes, b: Bytes, c: Bytes)
    ensures d + a + b + c == d + (a + (b + c))
  {
  }

  lemma TaprootScriptInjective(a: Word, b: Word)
    ensures TaprootScript(a) == TaprootScript(b) <==> a == b
  {
    if TaprootScript(a) == TaprootScript(b) {
      assert TaprootScript(a)[2..] == a && TaprootScript(b)[2..] == b;
    }
  }

  /** The input loop. */
  method ReadInputsAndUpdateHasher(env: Environment, hasher: Hasher, inputCount: U32, requireInput: InputCondition)
    returns (r: Option<bool>)
    requires env.Valid()
    modifies env`cursor, hasher
    ensures env.Valid()
    ensures r.Some? <==> ReadInputs(old(env.Rest()), inputCount, []).Got?
    ensures r.Some? ==> var s := ReadInputs(old(env.Rest()), inputCount, []);
                        && r.value == InputFound(requireInput, s.value)
                        && hasher.data == old(hasher.data) + SerializeInputs(s.value)
                        && env.Rest() == s.rest
  {
    hide ReadInput, SerializeInput;
    var inputSatisfied := requireInput.None?;
    ghost var inputs: seq<Input> := [];
    for i := 0 to inputCount
      invariant env.Valid()
      invariant |inputs| == i && ShortInputs(inputs)
      invariant ReadInputs(old(env.Rest()), inputCount, []) == ReadInputs(env.Rest(), inputCount - i, inputs)
      invariant hasher.data == old(hasher.data) + SerializeInputs(inputs)
      invariant inputSatisfied <==> InputFound(requireInput, inputs)
    {
      ghost var input, before := ReadInput(env.Rest()), hasher.data;
      var outpoint :- ReadInputAndUpdateHasher(env, hasher);
      SerializeInputsSnoc(inputs, input.value);
      InputFoundSnoc(requireInput, inputs, input.value);
      if requireInput.Some? && !inputSatisfied
         && outpoint.0 == requireInput.value.0 && outpoint.1 == requireInput.value.1 {
        inputSatisfied := true;
      }
      inputs := inputs + [input.value];
    }
    return Some(inputSatisfied);
  }

  /** The output loop. */
  method ReadOutputsAndUpdateHasher(env: Environment, hasher: Hasher, outputCount: U32, requireOutput: OutputCondition)
    returns (r: Option<bool>)
    requires env.Valid()
    modifies env`cursor, hasher
    ensures env.Valid()
    ensures r.Some? <==> ReadOutputs(old(env.Rest()), outputCount, []).Got?
    ensures r.Some? ==> var s := ReadOutputs(old(env.Rest()), outputCount, []);
                        && r.value == OutputFound(requireOutput, s.value)
                        && hasher.data == old(hasher.data) + SerializeOutputs(Outputs(s.value))
                        && env.Rest() == s.rest
  {
    hide ReadOutput, SerializeOutput;
    var outputSatisfied := requireOutput.None?;
    ghost var entries: seq<OutputEntry> := [];
    for i := 0 to outputCount
      invariant env.Valid()
      invariant |entries| == i && ReadableOutputs(entries)
      invariant ReadOutputs(old(env.Rest()), outputCount, []) == ReadOutputs(env.Rest(), outputCount - i, entries)
      invariant hasher.data == old(hasher.data) + SerializeOutputs(Outputs(entries))
      invariant outputSatisfied <==> OutputFound(requireOutput, entries)
    {
      ghost var entry := ReadOutput(env.Rest());
      var matched :- ReadOutputAndUpdateHasher(env, hasher, requireOutput);
      SerializeOutputsSnoc(Outputs(entries), entry.value.output);
      assert Outputs(entries + [entry.value]) == Outputs(entries) + [entry.value.output];
      OutputFoundSnoc(requireOutput, entries, entry.value);
      if matched {
        outputSatisfied := true;
      }
      entries := entries + [entry.value];
    }
    return Some(outputSatisfied);
  }

  /** How the six parts of a transaction associate. */
  lemma TxAssembly(a: Bytes, b: Bytes, c: Bytes, d: Bytes, e: Bytes, f: Bytes)
    ensures [] + a + b + c + d + e + f == a + (b + (c + (d + (e + f))))
  {
  }

  /**
   read_tx_and_calculate_txid: returns the double SHA-256 of exactly the non-witness
   serialization of the transaction the tape describes, and panics exactly when the tape
   describes none or the required input or output is missing.
  */
  method ReadTxAndCalculateTxid(env: Environment, requireInput: InputCondition, requireOutput: OutputCondition)
    returns (r: Option<Word>)
    requires env.Valid()
    modifies env`cursor
    ensures env.Valid()
    ensures var spec := ReadTxChecked(old(env.Rest()), requireInput, requireOutput);
            && (r.Some? <==> spec.Got?)
            && (r.Some? ==> r.value == Txid(spec.value.Tx()) && env.Rest() == spec.rest)
  {
    hide ReadHead, ReadInputs, ReadOutputs, SerializeInputs, SerializeOutputs, VarInt, Le32, LeI32;
    hide InputFound, OutputFound, Encodable, Sha256;
    var inputSatisfied := requireInput.None?;
    var outputSatisfied := requireOutput.None?;
    var head :- ReadTxHead(env);
    var hasher := new Hasher();
    hasher.Update(LeI32(head.version));
    UpdateHasherWithVarint(hasher, head.inputCount);
    ghost var inputs := ReadInputs(env.Rest(), head.inputCount, []);
    inputSatisfied :- ReadInputsAndUpdateHasher(env, hasher, head.inputCount, requireInput);
    UpdateHasherWithVarint(hasher, head.outputCount);
    ghost var entries := ReadOutputs(env.Rest(), head.outputCount, []);
    outputSatisfied :- ReadOutputsAndUpdateHasher(env, hasher, head.outputCount, requireOutput);
    if !inputSatisfied {
      return None;
    }
    if !outputSatisfied {
      return None;
    }
    hasher.Update(Le32(head.lockTime));
    TxAssembly(LeI32(head.version), VarInt(head.inputCount), SerializeInputs(inputs.value),
               VarInt(head.outputCount), SerializeOutputs(Outputs(entries.value)), Le32(head.lockTime));
    assert hasher.data == Serialize(ReadTx(old(env.Rest())).value.Tx());
    var result := hasher.FinalizeReset();
    hasher.Update(result);
    assert hasher.data == result;
    var txid := hasher.FinalizeReset();
    return Some(txid);
  }

  method ReadTxHead(env: Environment) returns (r: Option<Head>)
    requires env.Valid()
    modifies env`cursor
    ensures env.Valid() && r == ReadHead(old(env.Rest())).ToOption()
    ensures r.Some? ==> env.Rest() == ReadHead(old(env.Rest())).rest
  {
    var version :- env.ReadI32();
    var inputCount :- env.ReadU32();
    var outputCount :- env.ReadU32();
    var lockTime :- env.ReadU32();
    return Some(Head(version, inputCount, outputCount, lockTime));
  }

  lemma InputFoundSnoc(required: InputCondition, inputs: seq<Input>, i: Input)
    ensures InputFound(required, inputs + [i]) <==> InputFound(required, inputs) || InputMatches(required, i)
  {
    var all := inputs + [i];
    if InputMatches(required, i) {
      assert InputMatches(required, all[|inputs|]);
    }
    if k :| 0 <= k < |inputs| && InputMatches(required, inputs[k]) {
      assert InputMatches(required, all[k]);
    }
  }

  lemma OutputFoundSnoc(required: OutputCondition, entries: seq<OutputEntry>, e: OutputEntry)
    ensures OutputFound(required, entries + [e]) <==> OutputFound(required, entries) || OutputMatches(required, e)
  {
    var all := entries + [e];
    if OutputMatches(required, e) {
      assert OutputMatches(required, all[|entries|]);
    }
    if k :| 0 <= k < |entries| && OutputMatches(required, entries[k]) {
      assert OutputMatches(required, all[k]);
    }
  }

  /** Unique decoding: accepted tapes that hash the same bytes describe the same transaction. */
  lemma HashedBytesDetermineTransaction(tape1: seq<Item>, tape2: seq<Item>,
                                        in1: InputCondition, out1: OutputCondition,
                                        in2: InputCondition, out2: OutputCondition)
    requires ReadTxChecked(tape1, in1, out1).Got? && ReadTxChecked(tape2, in2, out2).Got?
    ensures var a, b := ReadTxChecked(tape1, in1, out1).value.Tx(), ReadTxChecked(tape2, in2, out2).value.Tx();
            (Txid(a) == Txid(b) <==> a == b) && (Serialize(a) == Serialize(b) <==> a == b)
  {
    var a, b := ReadTxChecked(tape1, in1, out1).value.Tx(), ReadTxChecked(tape2, in2, out2).value.Tx();
    if Txid(a) == Txid(b) {
      TxidCommits(a, b);
    }
    if Serialize(a) == Serialize(b) {
      SerializeInjective(a, b);
    }
  }
}
