/** circuits/src/env.rs: the input tape of the circuit, typed item by typed item. */
module Tape {
  import opened Wrappers
  import opened SymbolicBytes

  datatype Item = WordItem(word: Word) | U32Item(u32: U32) | U64Item(u64: U64) | I32Item(i32: I32)

  /** The result of reading from a tape: a panic, or a value and what is left of the tape. */
  datatype Read<+T> = Panic | Got(value: T, rest: seq<Item>) {
    predicate IsFailure() { Panic? }

    function PropagateFailure<U>(): Read<U>
      requires Panic?
    {
      Panic
    }

    function Extract(): (T, seq<Item>)
      requires Got?
    {
      (value, rest)
    }

    function ToOption(): Option<T> {
      if Got? then Some(value) else None
    }
  }

  function NextWord(tape: seq<Item>): Read<Word> {
    if tape != [] && tape[0].WordItem? then Got(tape[0].word, tape[1..]) else Panic
  }

  function NextU32(tape: seq<Item>): Read<U32> {
    if tape != [] && tape[0].U32Item? then Got(tape[0].u32, tape[1..]) else Panic
  }

  function NextU64(tape: seq<Item>): Read<U64> {
    if tape != [] && tape[0].U64Item? then Got(tape[0].u64, tape[1..]) else Panic
  }

  function NextI32(tape: seq<Item>): Read<I32> {
    if tape != [] && tape[0].I32Item? then Got(tape[0].i32, tape[1..]) else Panic
  }

  /**
   The environment: a growing tape and the read cursor. A read past the end, or of another
   type than the one written, is a panic of the guest: the method returns None.
  */
  class Environment {
    var tape: seq<Item>
    var cursor: nat

    ghost predicate Valid()
      reads this
    {
      cursor <= |tape|
    }

    /** What is still to be read. */
    ghost function Rest(): seq<Item>
      requires Valid()
      reads this
    {
      tape[cursor..]
    }

    constructor (tape: seq<Item>)
      ensures Valid() && Rest() == tape && this.tape == tape
    {
      this.tape := tape;
      cursor := 0;
    }

    method Read32Bytes() returns (r: Option<Word>)
      requires Valid()
      modifies this`cursor
      ensures Valid() && r == NextWord(old(Rest())).ToOption()
      ensures r.Some? ==> Rest() == NextWord(old(Rest())).rest
    {
      if cursor == |tape| || !tape[cursor].WordItem? {
        return None;
      }
      cursor := cursor + 1;
      return Some(tape[cursor - 1].word);
    }

    method ReadU32() returns (r: Option<U32>)
      requires Valid()
      modifies this`cursor
      ensures Valid() && r == NextU32(old(Rest())).ToOption()
      ensures r.Some? ==> Rest() == NextU32(old(Rest())).rest
    {
      if cursor == |tape| || !tape[cursor].U32Item? {
        return None;
      }
      cursor := cursor + 1;
      return Some(tape[cursor - 1].u32);
    }

    method ReadU64() returns (r: Option<U64>)
      requires Valid()
      modifies this`cursor
      ensures Valid() && r == NextU64(old(Rest())).ToOption()
      ensures r.Some? ==> Rest() == NextU64(old(Rest())).rest
    {
      if cursor == |tape| || !tape[cursor].U64Item? {
        return None;
      }
      cursor := cursor + 1;
      return Some(tape[cursor - 1].u64);
    }

    method ReadI32() returns (r: Option<I32>)
      requires Valid()
      modifies this`cursor
      ensures Valid() && r == NextI32(old(Rest())).ToOption()
      ensures r.Some? ==> Rest() == NextI32(old(Rest())).rest
    {
      if cursor == |tape| || !tape[cursor].I32Item? {
        return None;
      }
      cursor := cursor + 1;
      return Some(tape[cursor - 1].i32);
    }

    method Write(item: Item)
      requires Valid()
      modifies this`tape
      ensures Valid() && Rest() == old(Rest()) + [item]
    {
      tape := tape + [item];
    }
  }

  /** The sha2 hasher object: the bytes it has absorbed. */
  class Hasher {
    var data: Bytes

    constructor ()
      ensures data == []
    {
      data := [];
    }

    method Update(bytes: Bytes)
      modifies this
      ensures data == old(data) + bytes
    {
      data := data + bytes;
    }

    method FinalizeReset() returns (digest: Word)
      modifies this
      ensures digest == Sha256(old(data)) && data == []
    {
      digest := Sha256(data);
      data := [];
    }
  }
}
