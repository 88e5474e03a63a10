/**
 The commit transaction's tap leaf, read as Bitcoin reads it: the tagged leaf hash of
 BIP 341 and the script's instructions. A second description of the bytes the circuit hashes.
*/
module TapLeaf {
  import opened Wrappers
  import opened SymbolicBytes
  import opened TxFormat
  import opened TxReader
  import opened TxParser
  import opened Bridge

  datatype Instruction = Push(data: Bytes) | Op(code: U8)

  /** The instructions of a script: 1 to 75 push that many bytes, the longer pushes are not read. */
  function Instructions(b: Bytes): Option<seq<Instruction>>
    decreases |b|
  {
    if b == [] then Some([])
    else if !b[0].Lit? then None
    else
      var code := b[0].value;
      if 1 <= code <= 75 then
        var data :- ParseBytes(b[1..], code);
        var rest :- Instructions(data.1);
        Some([Push(data.0)] + rest)
      else if 76 <= code <= 78 then None
      else
        var rest :- Instructions(b[1..]);
        Some([Op(code)] + rest)
  }

  /** The leaf version and the script of a tagged leaf message: tag, tag, version, size, script. */
  function ParseTapLeaf(b: Bytes): Option<(nat, Bytes)> {
    var tag := Sha256(TAP_LEAF);
    if |b| < 65 || b[..32] != tag || b[32..64] != tag then None
    else
      var version :- ParseLe(b[64..], 1);
      var script :- ParseScript(version.1);
      if script.1 == [] then Some((version.0, script.0)) else None
  }

  const OP_CHECKSIG: U8 := 0xac
  const OP_FALSE: U8 := 0x00
  const OP_IF: U8 := 0x63
  const OP_ENDIF: U8 := 0x68
  const TAPSCRIPT: nat := 0xc0

  function Pushes(words: seq<Word>): seq<Instruction> {
    seq(|words|, i requires 0 <= i < |words| => Push(words[i]))
  }

  /** The script bytes alone. */
  function ScriptOf(p: Preimages): Bytes {
    Le8(32) + (p.actorPk + (Le8(172) + (Le8(0) + (Le8(99) + (PreimagePushes(p.words) + Le8(104))))))
  }

  lemma PushInstruction(w: Word, b: Bytes)
    ensures Instructions(Le8(32) + (w + b))
            == var rest := Instructions(b); if rest.None? then None else Some([Push(w)] + rest.value)
  {
    assert (Le8(32) + (w + b))[1..] == w + b;
    ParsePrefix(w, b, 32);
  }

  lemma OpInstruction(code: U8, b: Bytes)
    requires code == 0 || code > 78
    ensures Instructions(Le8(code) + b)
            == var rest := Instructions(b); if rest.None? then None else Some([Op(code)] + rest.value)
  {
    assert (Le8(code) + b)[1..] == b;
  }

  const OP_1: U8 := 0x51

  /** The script that the circuit looks for in an output: witness version 1 and the address. */
  lemma TaprootScriptInstructions(address: Word)
    ensures Instructions(TaprootScript(address)) == Some([Op(OP_1), Push(address)])
  {
    var push := Le8(32) + address;
    assert push == Le8(32) + (address + []);
    PushInstruction(address, []);
    assert [Push(address)] + [] == [Push(address)];
    OpInstruction(OP_1, push);
    hide Instructions;
    assert [Op(OP_1)] + [Push(address)] == [Op(OP_1), Push(address)];
  }

  /** The pushes in reading order. */
  lemma {:induction false} PushesCons(words: seq<Word>)
    requires words != []
    ensures PreimagePushes(words) == Le8(32) + (words[0] + PreimagePushes(words[1..]))
    decreases |words|
  {
    var n := |words| - 1;
    if n > 0 {
      PushesCons(words[..n]);
      assert words[..n][1..] == words[1..][..n - 1];
    }
  }

  lemma {:induction false} PushInstructions(words: seq<Word>, b: Bytes)
    requires Instructions(b).Some?
    ensures Instructions(PreimagePushes(words) + b) == Some(Pushes(words) + Instructions(b).value)
    decreases |words|
  {
    hide Instructions, PreimagePushes;
    if words == [] {
      NoPushes();
      assert [] + b == b && Pushes(words) + Instructions(b).value == Instructions(b).value;
    } else {
      var rest := PreimagePushes(words[1..]) + b;
      PushesCons(words);
      assert PreimagePushes(words) + b == Le8(32) + (words[0] + rest);
      PushInstruction(words[0], rest);
      PushInstructions(words[1..], b);
      assert Pushes(words) == [Push(words[0])] + Pushes(words[1..]);
      assert [Push(words[0])] + (Pushes(words[1..]) + Instructions(b).value) == Pushes(words) + Instructions(b).value;
    }
  }

  lemma NoPushes()
    ensures PreimagePushes([]) == []
  {
  }

  lemma {:induction false} PushesLength(words: seq<Word>)
    ensures |PreimagePushes(words)| == 33 * |words|
  {
    if words != [] {
      PushesLength(words[..|words| - 1]);
    }
  }

  /** A key check, then every preimage pushed, in order, in a branch that is never taken. */
  lemma ScriptInstructions(p: Preimages)
    ensures Instructions(ScriptOf(p))
            == Some([Push(p.actorPk), Op(OP_CHECKSIG), Op(OP_FALSE), Op(OP_IF)] + Pushes(p.words) + [Op(OP_ENDIF)])
  {
    var end := Le8(104);
    assert Instructions(end) == Some([Op(104)]) by {
      OpInstruction(104, []);
      assert end + [] == end && [Op(104)] + [] == [Op(104)];
    }
    hide Instructions;
    var t3 := PreimagePushes(p.words) + end;
    PushInstructions(p.words, end);
    OpInstruction(99, t3);
    OpInstruction(0, Le8(99) + t3);
    OpInstruction(172, Le8(0) + (Le8(99) + t3));
    PushInstruction(p.actorPk, Le8(172) + (Le8(0) + (Le8(99) + t3)));
    var rest := Pushes(p.words) + [Op(OP_ENDIF)];
    assert [Push(p.actorPk)] + ([Op(172)] + ([Op(0)] + ([Op(99)] + rest)))
        == [Push(p.actorPk), Op(OP_CHECKSIG), Op(OP_FALSE), Op(OP_IF)] + Pushes(p.words) + [Op(OP_ENDIF)];
  }

  lemma LeafParts(p: Preimages)
    requires 37 + 33 * |p.words| < LIMIT
    ensures p.LeafScript()
            == Sha256(TAP_LEAF) + (Sha256(TAP_LEAF) + (Le8(192) + (VarInt(37 + 33 * |p.words|) + ScriptOf(p))))
    ensures |ScriptOf(p)| == 37 + 33 * |p.words|
  {
    hide Sha256, VarInt, PreimagePushes;
    PushesLength(p.words);
  }

  /**
   The message hashed for the commit address is a tap leaf of the tapscript version whose
   script is the key check and the preimages, and its size field is that script's length.
  */
  lemma LeafScriptParses(p: Preimages)
    requires 37 + 33 * |p.words| < LIMIT
    ensures var leaf := ParseTapLeaf(p.LeafScript());
            && leaf.Some? && leaf.value.0 == TAPSCRIPT
            && Instructions(leaf.value.1)
               == Some([Push(p.actorPk), Op(OP_CHECKSIG), Op(OP_FALSE), Op(OP_IF)] + Pushes(p.words) + [Op(OP_ENDIF)])
  {
    var tag, script := Sha256(TAP_LEAF), ScriptOf(p);
    LeafParts(p);
    ScriptInstructions(p);
    hide Sha256, VarInt, ParseLe, ParseCompactSize, Instructions, ScriptOf, Preimages.LeafScript;
    var t2 := VarInt(|script|) + script;
    var t1 := Le8(192) + t2;
    ParsePrefix(tag, tag + t1, 32);
    ParsePrefix(tag, t1, 32);
    TwoTags(tag, t1);
    ParseLe8(192, t2);
    ParseSerializedScript(script, []);
    assert SerializeScript(script) + [] == t2;
  }

  lemma TwoTags(tag: Word, t: Bytes)
    ensures var b := tag + (tag + t);
            |b| == 64 + |t| && b[..32] == tag && b[32..64] == tag && b[64..] == t
  {
  }

  /** The claim leaf hashes the preimages' digests in the order of the preimages. */
  lemma {:induction false} ClaimLeafDigests(words: seq<Word>, i: nat)
    requires i < |words|
    ensures |PreimageHashes(words)| == 32 * |words|
    ensures PreimageHashes(words)[32 * i..32 * i + 32] == Sha256(words[i])
    decreases |words|
  {
    hide Sha256;
    var n := |words| - 1;
    var first := PreimageHashes(words[..n]);
    if i < n {
      ClaimLeafDigests(words[..n], i);
      assert PreimageHashes(words)[32 * i..32 * i + 32] == first[32 * i..32 * i + 32];
    } else {
      HashesLength(words[..n]);
      assert PreimageHashes(words)[32 * i..32 * i + 32] == Sha256(words[n]);
    }
  }

  lemma {:induction false} HashesLength(words: seq<Word>)
    ensures |PreimageHashes(words)| == 32 * |words|
  {
    if words != [] {
      HashesLength(words[..|words| - 1]);
    }
  }
}
