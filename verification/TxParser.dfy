/**
 A second description of the byte formats: parsers of transactions and block headers as
 Bitcoin's protocol lays them out. What the circuit hashes is what they parse.
*/
module TxParser {
  import opened Wrappers
  import opened SymbolicBytes
  import opened TxFormat
  import opened TxReader
  import opened Tape
  import opened Headers

  /** An unsigned integer of `n` literal bytes, least significant first, and what follows. */
  function ParseLe(b: Bytes, n: nat): Option<(nat, Bytes)>
    decreases n
  {
    if n == 0 then Some((0, b))
    else if b == [] || !b[0].Lit? then None
    else
      var high :- ParseLe(b[1..], n - 1);
      Some((b[0].value + 256 * high.0, high.1))
  }

  /** The compact size: one byte, or a marker and two, four or eight. */
  function ParseCompactSize(b: Bytes): Option<(nat, Bytes)> {
    var first :- ParseLe(b, 1);
    if first.0 < 0xfd then Some(first)
    else ParseLe(first.1, if first.0 == 0xfd then 2 else if first.0 == 0xfe then 4 else 8)
  }

  function ParseBytes(b: Bytes, n: nat): Option<(Bytes, Bytes)> {
    if n <= |b| then Some((b[..n], b[n..])) else None
  }

  function ParseWord(b: Bytes): Option<(Word, Bytes)> {
    if 32 <= |b| then Some((b[..32], b[32..])) else None
  }

  function ParseU32(b: Bytes): Option<(U32, Bytes)> {
    var r :- ParseLe(b, 4);
    if r.0 < 0x1_0000_0000 then Some(r) else None
  }

  function ParseU64(b: Bytes): Option<(U64, Bytes)> {
    var r :- ParseLe(b, 8);
    if r.0 < 0x1_0000_0000_0000_0000 then Some(r) else None
  }

  /** Two's complement. */
  function ParseI32(b: Bytes): Option<(I32, Bytes)> {
    var r :- ParseU32(b);
    Some((if r.0 < 0x8000_0000 then r.0 else r.0 - 0x1_0000_0000, r.1))
  }

  function ParseScript(b: Bytes): Option<(Bytes, Bytes)> {
    var size :- ParseCompactSize(b);
    ParseBytes(size.1, size.0)
  }

  function ParseInput(b: Bytes): Option<(Input, Bytes)> {
    var prevTx :- ParseWord(b);
    var vout :- ParseU32(prevTx.1);
    var script :- ParseScript(vout.1);
    var sequence :- ParseU32(script.1);
    Some((Input(prevTx.0, vout.0, script.0, sequence.0), sequence.1))
  }

  function ParseOutput(b: Bytes): Option<(Output, Bytes)> {
    var value :- ParseU64(b);
    var script :- ParseScript(value.1);
    Some((Output(value.0, script.0), script.1))
  }

  function ParseInputs(b: Bytes, count: nat): Option<(seq<Input>, Bytes)>
    decreases count
  {
    if count == 0 then Some(([], b))
    else
      var first :- ParseInput(b);
      var rest :- ParseInputs(first.1, count - 1);
      Some(([first.0] + rest.0, rest.1))
  }

  function ParseOutputs(b: Bytes, count: nat): Option<(seq<Output>, Bytes)>
    decreases count
  {
    if count == 0 then Some(([], b))
    else
      var first :- ParseOutput(b);
      var rest :- ParseOutputs(first.1, count - 1);
      Some(([first.0] + rest.0, rest.1))
  }

  function ParseTransaction(b: Bytes): Option<(Transaction, Bytes)> {
    var version :- ParseI32(b);
    var inputCount :- ParseCompactSize(version.1);
    var inputs :- ParseInputs(inputCount.1, inputCount.0);
    var outputCount :- ParseCompactSize(inputs.1);
    var outputs :- ParseOutputs(outputCount.1, outputCount.0);
    var lockTime :- ParseU32(outputs.1);
    Some((Transaction(version.0, inputs.0, outputs.0, lockTime.0), lockTime.1))
  }

  // Integers.

  lemma {:induction false} ParseLeAppend(b: Bytes, x: Bytes, n: nat)
    requires n <= |b| && forall k :: 0 <= k < n ==> b[k].Lit?
    ensures ParseLe(b, n).Some? && ParseLe(b + x, n) == Some((ParseLe(b, n).value.0, ParseLe(b, n).value.1 + x))
    decreases n
  {
    if n > 0 {
      assert (b + x)[1..] == b[1..] + x && (b + x)[0] == b[0];
      ParseLeAppend(b[1..], x, n - 1);
    }
  }

  lemma ParseLe8(n: U8, x: Bytes)
    ensures ParseLe(Le8(n) + x, 1) == Some((n, x))
  {
    var b := Le8(n);
    assert b[1..] == [] && ParseLe(b[1..], 0) == Some((0, []));
    ParseLeAppend(b, x, 1);
    assert [] + x == x;
  }

  lemma ParseLe16(n: U16, x: Bytes)
    ensures ParseLe(Le16(n) + x, 2) == Some((n, x))
  {
    var low, high := Le8(n % 256), Le8(n / 256);
    assert Le16(n) + x == low + (high + x) && (low + (high + x))[1..] == high + x;
    ParseLe8(n / 256, x);
  }

  lemma {:induction false} ParseLeSplit(b: Bytes, m: nat, n: nat, p: nat)
    requires ParseLe(b, m).Some? && p == Scale(m)
    ensures ParseLe(b, m + n)
            == var low := ParseLe(b, m).value;
               var high := ParseLe(low.1, n);
               if high.None? then None else Some((low.0 + p * high.value.0, high.value.1))
    decreases m
  {
    if m > 0 {
      ParseLeSplit(b[1..], m - 1, n, Scale(m - 1));
      var high := ParseLe(ParseLe(b, m).value.1, n);
      if high.Some? {
        ScaleUp(m, high.value.0);
      }
    }
  }

  /** 256^m. */
  function Scale(m: nat): nat {
    if m == 0 then 1 else 256 * Scale(m - 1)
  }

  lemma ScaleUp(m: nat, h: nat)
    requires m > 0
    ensures 256 * (Scale(m - 1) * h) == Scale(m) * h
  {
  }

  lemma ParseLe32(n: U32, x: Bytes)
    ensures ParseLe(Le32(n) + x, 4) == Some((n, x))
  {
    var low, high := Le16(n % 0x1_0000), Le16(n / 0x1_0000);
    assert Le32(n) + x == low + (high + x);
    ParseLe16(n % 0x1_0000, high + x);
    ParseLe16(n / 0x1_0000, x);
    assert Scale(2) == 256 * Scale(1) == 0x1_0000;
    hide ParseLe, Le16, Scale;
    ParseLeSplit(low + (high + x), 2, 2, 0x1_0000);
  }

  lemma ParseLe64(n: U64, x: Bytes)
    ensures ParseLe(Le64(n) + x, 8) == Some((n, x))
  {
    var low, high := Le32(n % 0x1_0000_0000), Le32(n / 0x1_0000_0000);
    assert Le64(n) + x == low + (high + x);
    ParseLe32(n % 0x1_0000_0000, high + x);
    ParseLe32(n / 0x1_0000_0000, x);
    assert Scale(2) == 0x1_0000 && Scale(4) == 256 * (256 * Scale(2)) by {
      assert Scale(1) == 256 && Scale(3) == 256 * Scale(2);
    }
    hide ParseLe, Le32, Scale;
    ParseLeSplit(low + (high + x), 4, 4, 0x1_0000_0000);
  }

  lemma ParseLeI32(n: I32, x: Bytes)
    ensures ParseI32(LeI32(n) + x) == Some((n, x))
  {
    hide ParseLe;
    ParseLe32(if n < 0 then n + 0x1_0000_0000 else n, x);
  }

  lemma ParseVarInt(n: U32, x: Bytes)
    ensures ParseCompactSize(VarInt(n) + x) == Some((n, x))
  {
    if n < 0xfd {
      ParseLe8(n, x);
    } else if n <= 0xffff {
      assert VarInt(n) + x == Le8(0xfd) + (Le16(n) + x);
      ParseLe8(0xfd, Le16(n) + x);
      ParseLe16(n, x);
    } else {
      assert VarInt(n) + x == Le8(0xfe) + (Le32(n) + x);
      ParseLe8(0xfe, Le32(n) + x);
      ParseLe32(n, x);
    }
  }

  // Transactions.

  lemma ParsePrefix(a: Bytes, x: Bytes, n: nat)
    requires |a| == n
    ensures (a + x)[..n] == a && (a + x)[n..] == x
  {
  }

  lemma ParseSerializedScript(script: Bytes, x: Bytes)
    requires |script| < LIMIT
    ensures ParseScript(SerializeScript(script) + x) == Some((script, x))
  {
    hide VarInt, ParseCompactSize;
    assert SerializeScript(script) + x == VarInt(|script|) + (script + x);
    ParseVarInt(|script|, script + x);
    ParsePrefix(script, x, |script|);
  }

  lemma ParseSerializedInput(i: Input, x: Bytes)
    requires |i.script| < LIMIT
    ensures ParseInput(SerializeInput(i) + x) == Some((i, x))
  {
    hide SerializeScript, ParseScript, Le32, ParseLe;
    var t3 := Le32(i.sequence) + x;
    var t2 := SerializeScript(i.script) + t3;
    var t1 := Le32(i.vout) + t2;
    assert SerializeInput(i) + x == i.prevTx + t1;
    ParsePrefix(i.prevTx, t1, 32);
    ParseLe32(i.vout, t2);
    ParseSerializedScript(i.script, t3);
    ParseLe32(i.sequence, x);
  }

  lemma ParseSerializedOutput(o: Output, x: Bytes)
    requires |o.script| < LIMIT
    ensures ParseOutput(SerializeOutput(o) + x) == Some((o, x))
  {
    hide SerializeScript, ParseScript, Le64, ParseLe;
    var t := SerializeScript(o.script) + x;
    assert SerializeOutput(o) + x == Le64(o.value) + t;
    ParseLe64(o.value, t);
    ParseSerializedScript(o.script, x);
  }

  lemma {:induction false} ParseSerializedInputs(inputs: seq<Input>, x: Bytes)
    requires forall i :: 0 <= i < |inputs| ==> |inputs[i].script| < LIMIT
    ensures ParseInputs(SerializeInputs(inputs) + x, |inputs|) == Some((inputs, x))
    decreases |inputs|
  {
    hide SerializeInput, ParseInput;
    if inputs == [] {
      assert SerializeInputs(inputs) + x == x;
    } else {
      var rest := SerializeInputs(inputs[1..]) + x;
      assert SerializeInputs(inputs) + x == SerializeInput(inputs[0]) + rest;
      ParseSerializedInput(inputs[0], rest);
      ParseSerializedInputs(inputs[1..], x);
      assert inputs == [inputs[0]] + inputs[1..];
    }
  }

  lemma {:induction false} ParseSerializedOutputs(outputs: seq<Output>, x: Bytes)
    requires forall i :: 0 <= i < |outputs| ==> |outputs[i].script| < LIMIT
    ensures ParseOutputs(SerializeOutputs(outputs) + x, |outputs|) == Some((outputs, x))
    decreases |outputs|
  {
    hide SerializeOutput, ParseOutput;
    if outputs == [] {
      assert SerializeOutputs(outputs) + x == x;
    } else {
      var rest := SerializeOutputs(outputs[1..]) + x;
      assert SerializeOutputs(outputs) + x == SerializeOutput(outputs[0]) + rest;
      ParseSerializedOutput(outputs[0], rest);
      ParseSerializedOutputs(outputs[1..], x);
      assert outputs == [outputs[0]] + outputs[1..];
    }
  }

  lemma SixParts(a: Bytes, b: Bytes, c: Bytes, d: Bytes, e: Bytes, f: Bytes, x: Bytes)
    ensures a + (b + (c + (d + (e + f)))) + x == a + (b + (c + (d + (e + (f + x)))))
  {
  }

  /** Every transaction is parsed back from the bytes the circuit hashes for it. */
  lemma ParseSerialized(tx: Transaction, x: Bytes)
    requires Encodable(tx)
    ensures ParseTransaction(Serialize(tx) + x) == Some((tx, x))
  {
    hide VarInt, LeI32, Le32, SerializeInputs, SerializeOutputs, ParseI32, ParseLe, ParseCompactSize, ParseInputs;
    hide ParseOutputs;
    var t5 := Le32(tx.lockTime) + x;
    var t4 := SerializeOutputs(tx.outputs) + t5;
    var t3 := VarInt(|tx.outputs|) + t4;
    var t2 := SerializeInputs(tx.inputs) + t3;
    var t1 := VarInt(|tx.inputs|) + t2;
    SixParts(LeI32(tx.version), VarInt(|tx.inputs|), SerializeInputs(tx.inputs), VarInt(|tx.outputs|),
             SerializeOutputs(tx.outputs), Le32(tx.lockTime), x);
    assert Serialize(tx) + x == LeI32(tx.version) + t1;
    ParseLeI32(tx.version, t1);
    ParseVarInt(|tx.inputs|, t2);
    ParseSerializedInputs(tx.inputs, t3);
    ParseVarInt(|tx.outputs|, t4);
    ParseSerializedOutputs(tx.outputs, t5);
    ParseLe32(tx.lockTime, x);
  }

  /** So an accepted tape's txid is the double hash of bytes that parse as what the tape describes. */
  lemma TxidOfParsedBytes(tape: seq<Item>, requireInput: InputCondition,
                          requireOutput: OutputCondition) returns (b: Bytes)
    requires ReadTxChecked(tape, requireInput, requireOutput).Got?
    ensures var tx := ReadTxChecked(tape, requireInput, requireOutput).value.Tx();
            Txid(tx) == Sha256(Sha256(b)) && ParseTransaction(b) == Some((tx, []))
  {
    var tx := ReadTxChecked(tape, requireInput, requireOutput).value.Tx();
    b := Serialize(tx);
    hide Serialize, ParseTransaction, Sha256;
    ParseSerialized(tx, []);
    assert b + [] == b;
  }

  // Block headers.

  function ParseHeader(b: Bytes): Option<(Word, Header)> {
    if |b| != 80 then None
    else
      var version :- ParseI32(b[0..4]);
      var time :- ParseU32(b[68..72]);
      var bits :- ParseU32(b[72..76]);
      var nonce :- ParseU32(b[76..80]);
      Some((b[4..36], Header(version.0, b[36..68], time.0, bits.0, nonce.0)))
  }

  lemma FieldsOf80(v: Bytes, p: Bytes, r: Bytes, t: Bytes, b: Bytes, n: Bytes)
    requires |v| == |t| == |b| == |n| == 4 && |p| == |r| == 32
    ensures var all := v + (p + (r + (t + (b + n))));
            && |all| == 80 && all[0..4] == v && all[4..36] == p && all[36..68] == r
            && all[68..72] == t && all[72..76] == b && all[76..80] == n
  {
  }

  /** A block hash is the double hash of an 80 byte header that parses as these fields. */
  lemma ParseHashedHeader(prev: Word, h: Header)
    ensures BlockHash(prev, h) == Sha256(Sha256(HeaderBytes(prev, h)))
    ensures ParseHeader(HeaderBytes(prev, h)) == Some((prev, h))
  {
    hide ParseLe, ParseI32;
    FieldsOf80(LeI32(h.version), prev, h.merkleRoot, Le32(h.time), Le32(h.bits), Le32(h.nonce));
    ParseLeI32(h.version, []);
    ParseLe32(h.time, []);
    ParseLe32(h.bits, []);
    ParseLe32(h.nonce, []);
    assert LeI32(h.version) + [] == LeI32(h.version) && Le32(h.time) + [] == Le32(h.time);
    assert Le32(h.bits) + [] == Le32(h.bits) && Le32(h.nonce) + [] == Le32(h.nonce);
    hide Le32, LeI32, Sha256;
  }
}
