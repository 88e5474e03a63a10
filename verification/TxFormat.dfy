/**
 The non-witness serialization of a Bitcoin transaction, written as a reference apart from
 the reader, and the proof that it can be decoded in one way only.
*/
module TxFormat {
  import opened Bits
  import opened SymbolicBytes

  datatype Input = Input(prevTx: Word, vout: U32, script: Bytes, sequence: U32)
  datatype Output = Output(value: U64, script: Bytes)
  datatype Transaction = Transaction(version: I32, inputs: seq<Input>, outputs: seq<Output>, lockTime: U32)

  const LIMIT: nat := 0x1_0000_0000

  /** The counts and script lengths fit the u32 the tape carries them in. */
  predicate Encodable(tx: Transaction) {
    && |tx.inputs| < LIMIT && |tx.outputs| < LIMIT
    && (forall i :: 0 <= i < |tx.inputs| ==> |tx.inputs[i].script| < LIMIT)
    && (forall i :: 0 <= i < |tx.outputs| ==> |tx.outputs[i].script| < LIMIT)
  }

  /** The variable length integer, for values below 2^32. */
  function VarInt(n: U32): Bytes {
    if n < 0xfd then Le8(n)
    else if n <= 0xffff then Le8(0xfd) + Le16(n)
    else Le8(0xfe) + Le32(n)
  }

  function SerializeScript(script: Bytes): Bytes
    requires |script| < LIMIT
  {
    VarInt(|script|) + script
  }

  function SerializeInput(i: Input): Bytes
    requires |i.script| < LIMIT
  {
    i.prevTx + (Le32(i.vout) + (SerializeScript(i.script) + Le32(i.sequence)))
  }

  function SerializeOutput(o: Output): Bytes
    requires |o.script| < LIMIT
  {
    Le64(o.value) + SerializeScript(o.script)
  }

  function SerializeInputs(inputs: seq<Input>): Bytes
    requires forall i :: 0 <= i < |inputs| ==> |inputs[i].script| < LIMIT
  {
    if inputs == [] then [] else SerializeInput(inputs[0]) + SerializeInputs(inputs[1..])
  }

  function SerializeOutputs(outputs: seq<Output>): Bytes
    requires forall i :: 0 <= i < |outputs| ==> |outputs[i].script| < LIMIT
  {
    if outputs == [] then [] else SerializeOutput(outputs[0]) + SerializeOutputs(outputs[1..])
  }

  function Serialize(tx: Transaction): Bytes
    requires Encodable(tx)
  {
    LeI32(tx.version)
    + (VarInt(|tx.inputs|) + (SerializeInputs(tx.inputs)
    + (VarInt(|tx.outputs|) + (SerializeOutputs(tx.outputs) + Le32(tx.lockTime)))))
  }

  function Txid(tx: Transaction): Word
    requires Encodable(tx)
  {
    DoubleSha256(Serialize(tx))
  }

  // Each encoding is prefix-free: what follows it cannot change how it is read.

  lemma VarIntPrefix(a: U32, b: U32, x: Bytes, y: Bytes)
    requires VarInt(a) + x == VarInt(b) + y
    ensures a == b && x == y
  {
    assert (VarInt(a) + x)[0] == VarInt(a)[0] && (VarInt(b) + y)[0] == VarInt(b)[0];
    assert |VarInt(a)| == |VarInt(b)|;
    SplitEqual(VarInt(a), x, VarInt(b), y);
    if a < 0xfd {
    } else if a <= 0xffff {
      SplitEqual(Le8(0xfd), Le16(a), Le8(0xfd), Le16(b));
      Le16Injective(a, b);
    } else {
      SplitEqual(Le8(0xfe), Le32(a), Le8(0xfe), Le32(b));
      Le32Injective(a, b);
    }
  }

  lemma ScriptPrefix(s: Bytes, t: Bytes, x: Bytes, y: Bytes)
    requires |s| < LIMIT && |t| < LIMIT
    requires SerializeScript(s) + x == SerializeScript(t) + y
    ensures s == t && x == y
  {
    assert SerializeScript(s) + x == VarInt(|s|) + (s + x);
    assert SerializeScript(t) + y == VarInt(|t|) + (t + y);
    VarIntPrefix(|s|, |t|, s + x, t + y);
    SplitEqual(s, x, t, y);
  }

  lemma InputPrefix(a: Input, b: Input, x: Bytes, y: Bytes)
    requires |a.script| < LIMIT && |b.script| < LIMIT
    requires SerializeInput(a) + x == SerializeInput(b) + y
    ensures a == b && x == y
  {
    var a2, b2 := Le32(a.sequence) + x, Le32(b.sequence) + y;
    var a1, b1 := SerializeScript(a.script) + a2, SerializeScript(b.script) + b2;
    assert SerializeInput(a) + x == a.prevTx + (Le32(a.vout) + a1);
    assert SerializeInput(b) + y == b.prevTx + (Le32(b.vout) + b1);
    SplitEqual(a.prevTx, Le32(a.vout) + a1, b.prevTx, Le32(b.vout) + b1);
    SplitEqual(Le32(a.vout), a1, Le32(b.vout), b1);
    Le32Injective(a.vout, b.vout);
    ScriptPrefix(a.script, b.script, a2, b2);
    SplitEqual(Le32(a.sequence), x, Le32(b.sequence), y);
    Le32Injective(a.sequence, b.sequence);
  }

  lemma OutputPrefix(a: Output, b: Output, x: Bytes, y: Bytes)
    requires |a.script| < LIMIT && |b.script| < LIMIT
    requires SerializeOutput(a) + x == SerializeOutput(b) + y
    ensures a == b && x == y
  {
    var a1, b1 := SerializeScript(a.script) + x, SerializeScript(b.script) + y;
    assert SerializeOutput(a) + x == Le64(a.value) + a1;
    assert SerializeOutput(b) + y == Le64(b.value) + b1;
    SplitEqual(Le64(a.value), a1, Le64(b.value), b1);
    Le64Injective(a.value, b.value);
    ScriptPrefix(a.script, b.script, x, y);
  }

  lemma {:induction false} InputsPrefix(a: seq<Input>, b: seq<Input>, x: Bytes, y: Bytes)
    requires |a| == |b|
    requires forall i :: 0 <= i < |a| ==> |a[i].script| < LIMIT && |b[i].script| < LIMIT
    requires SerializeInputs(a) + x == SerializeInputs(b) + y
    ensures a == b && x == y
  {
    hide SerializeInput;
    if a != [] {
      var a1, b1 := SerializeInputs(a[1..]) + x, SerializeInputs(b[1..]) + y;
      assert SerializeInputs(a) + x == SerializeInput(a[0]) + a1;
      assert SerializeInputs(b) + y == SerializeInput(b[0]) + b1;
      InputPrefix(a[0], b[0], a1, b1);
      InputsPrefix(a[1..], b[1..], x, y);
      assert a == [a[0]] + a[1..] && b == [b[0]] + b[1..];
    } else {
      assert x == SerializeInputs(a) + x && y == SerializeInputs(b) + y;
    }
  }

  lemma {:induction false} OutputsPrefix(a: seq<Output>, b: seq<Output>, x: Bytes, y: Bytes)
    requires |a| == |b|
    requires forall i :: 0 <= i < |a| ==> |a[i].script| < LIMIT && |b[i].script| < LIMIT
    requires SerializeOutputs(a) + x == SerializeOutputs(b) + y
    ensures a == b && x == y
  {
    hide SerializeOutput;
    if a != [] {
      var a1, b1 := SerializeOutputs(a[1..]) + x, SerializeOutputs(b[1..]) + y;
      assert SerializeOutputs(a) + x == SerializeOutput(a[0]) + a1;
      assert SerializeOutputs(b) + y == SerializeOutput(b[0]) + b1;
      OutputPrefix(a[0], b[0], a1, b1);
      OutputsPrefix(a[1..], b[1..], x, y);
      assert a == [a[0]] + a[1..] && b == [b[0]] + b[1..];
    } else {
      assert x == SerializeOutputs(a) + x && y == SerializeOutputs(b) + y;
    }
  }

  /** Two transactions with the same serialization are the same transaction. */
  lemma SerializeInjective(a: Transaction, b: Transaction)
    requires Encodable(a) && Encodable(b)
    requires Serialize(a) == Serialize(b)
    ensures a == b
  {
    var a4, b4 := SerializeOutputs(a.outputs) + Le32(a.lockTime), SerializeOutputs(b.outputs) + Le32(b.lockTime);
    var a3, b3 := VarInt(|a.outputs|) + a4, VarInt(|b.outputs|) + b4;
    var a2, b2 := SerializeInputs(a.inputs) + a3, SerializeInputs(b.inputs) + b3;
    SplitEqual(LeI32(a.version), VarInt(|a.inputs|) + a2, LeI32(b.version), VarInt(|b.inputs|) + b2);
    LeI32Injective(a.version, b.version);
    VarIntPrefix(|a.inputs|, |b.inputs|, a2, b2);
    InputsPrefix(a.inputs, b.inputs, a3, b3);
    VarIntPrefix(|a.outputs|, |b.outputs|, a4, b4);
    OutputsPrefix(a.outputs, b.outputs, Le32(a.lockTime), Le32(b.lockTime));
    Le32Injective(a.lockTime, b.lockTime);
  }

  /** A txid commits to the whole transaction. */
  lemma TxidCommits(a: Transaction, b: Transaction)
    requires Encodable(a) && Encodable(b)
    requires Txid(a) == Txid(b)
    ensures a == b
  {
    DoubleSha256Injective(Serialize(a), Serialize(b));
    SerializeInjective(a, b);
  }

  // Appending at the end, as the streaming reader does.

  lemma {:induction false} SerializeInputsSnoc(inputs: seq<Input>, i: Input)
    requires |i.script| < LIMIT
    requires forall k :: 0 <= k < |inputs| ==> |inputs[k].script| < LIMIT
    ensures SerializeInputs(inputs + [i]) == SerializeInputs(inputs) + SerializeInput(i)
  {
    hide SerializeInput;
    if inputs == [] {
      assert inputs + [i] == [i];
      assert SerializeInputs([i]) == SerializeInput(i) + SerializeInputs([]);
    } else {
      SerializeInputsSnoc(inputs[1..], i);
      assert (inputs + [i])[1..] == inputs[1..] + [i];
      assert (inputs + [i])[0] == inputs[0];
    }
  }

  lemma {:induction false} SerializeOutputsSnoc(outputs: seq<Output>, o: Output)
    requires |o.script| < LIMIT
    requires forall k :: 0 <= k < |outputs| ==> |outputs[k].script| < LIMIT
    ensures SerializeOutputs(outputs + [o]) == SerializeOutputs(outputs) + SerializeOutput(o)
  {
    hide SerializeOutput;
    if outputs == [] {
      assert outputs + [o] == [o];
      assert SerializeOutputs([o]) == SerializeOutput(o) + SerializeOutputs([]);
    } else {
      SerializeOutputsSnoc(outputs[1..], o);
      assert (outputs + [o])[1..] == outputs[1..] + [o];
      assert (outputs + [o])[0] == outputs[0];
    }
  }
}
