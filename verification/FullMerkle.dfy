/**
 core/src/merkle.rs: the full tree kept level by level. The file is commented out in the
 repository; it is modelled as the reference the circuit's tests compare against.
*/
module FullMerkle {
  import opened Bits
  import opened SymbolicBytes
  import opened MerkleSpec
  import opened MerkleProof
  import IncrementalMerkle

  /** u32::trailing_zeros. */
  function TrailingZeros(n: U32): nat {
    if n == 0 then 32 else if n % 2 == 1 then 0 else 1 + TrailingZeros(n / 2)
  }

  /** How many nodes of a level lie on or left of the last leaf's path. */
  function Width(n: nat, level: nat): nat {
    if n == 0 then 0 else Shift(n - 1, level) + 1
  }

  /** The push-or-overwrite test: a level gains a node exactly up to the trailing zeros. */
  lemma {:induction false} WidthGrows(n: U32, level: nat)
    requires level <= 32
    ensures level <= TrailingZeros(n) ==> Width(n, level) == Shift(n, level)
    ensures level > TrailingZeros(n) ==> Width(n, level) == Shift(n, level) + 1
    decreases level
  {
    if n == 0 {
      ShiftZero(0, level);
    } else if level > 0 {
      ShiftHalf(n, level - 1);
      ShiftHalf(n - 1, level - 1);
      if n % 2 == 0 {
        assert (n - 1) / 2 == n / 2 - 1;
        WidthGrows(n / 2, level - 1);
      }
    }
  }

  /** A stored row is the part of the padded tree's row up to the last leaf's ancestor. */
  ghost predicate RowHolds(row: seq<Word>, leaves: seq<Word>, n: nat, level: nat) {
    && |row| == Width(n, level)
    && forall j :: 0 <= j < |row| ==> row[j] == Node(leaves, level, j)
  }

  /** Storing the new leaf's ancestor keeps a row the row of the padded tree. */
  lemma RowStep(before: seq<Word>, after: seq<Word>, leaves: seq<Word>, a: Word, n: U32, level: nat, c: nat)
    requires n == |leaves| && level <= 32 && c == Shift(n, level)
    requires RowHolds(before, leaves, n, level)
    requires |after| == c + 1 && after[c] == Node(leaves + [a], level, c)
    requires forall j :: 0 <= j < c ==> j < |before| && after[j] == before[j]
    ensures RowHolds(after, leaves + [a], n + 1, level)
  {
    forall j | 0 <= j < c
      ensures after[j] == Node(leaves + [a], level, j)
    {
      NodeFrame(leaves, a, level, j);
    }
  }

  /** A node's parent hashes it with its sibling, on the side its index says. */
  lemma NodeUp(leaves: seq<Word>, level: nat, j: nat)
    ensures Node(leaves, level + 1, j / 2)
            == if j % 2 == 0 then Pair(Node(leaves, level, j), Node(leaves, level, j + 1))
               else Pair(Node(leaves, level, j - 1), Node(leaves, level, j))
  {
    assert j % 2 == 0 ==> 2 * (j / 2) == j;
    assert j % 2 == 1 ==> 2 * (j / 2) + 1 == j;
  }

  /** One level of `add`: every access is in range, the sibling is right and the new row holds. */
  lemma RowAdvances(row: seq<Word>, leaves: seq<Word>, a: Word, n: U32, level: nat, c: nat, hash: Word)
    requires n == |leaves| && level <= 32 && c == Shift(n, level) && RowHolds(row, leaves, n, level)
    requires hash == Node(leaves + [a], level, c)
    ensures c % 2 == 0 ==> Zero(level) == Node(leaves + [a], level, c + 1)
    ensures c % 2 == 1 ==> c - 1 < |row| && row[c - 1] == Node(leaves + [a], level, c - 1)
    ensures level > TrailingZeros(n) ==> c < |row| && RowHolds(row[c := hash], leaves + [a], n + 1, level)
    ensures level <= TrailingZeros(n) ==> RowHolds(row + [hash], leaves + [a], n + 1, level)
  {
    WidthGrows(n, level);
    hide Node, TrailingZeros;
    if c % 2 == 0 {
      NodePastEnd(leaves + [a], level, c + 1);
    } else {
      NodeFrame(leaves, a, level, c - 1);
    }
    RowStep(row, if level > TrailingZeros(n) then row[c := hash] else row + [hash], leaves, a, n, level, c);
  }

  class MerkleTree {
    const depth: nat
    var data: seq<seq<Word>>
    var index: U32
    ghost var Leaves: seq<Word>

    ghost predicate Valid()
      reads this
    {
      && depth <= IncrementalMerkle.MAX_DEPTH
      && |data| == depth + 1
      && index == |Leaves|
      && forall level :: 0 <= level <= depth ==> RowHolds(data[level], Leaves, |Leaves|, level)
    }

    constructor (depth: nat)
      requires depth <= IncrementalMerkle.MAX_DEPTH
      ensures Valid() && Leaves == [] && this.depth == depth
    {
      this.depth := depth;
      data := seq(depth + 1, _ => []);
      index := 0;
      Leaves := [];
    }

    /**
     Inserts a leaf. `ok` is false where the original panics: past the u32 counter the
     increment overflows. Past 2^depth leaves the rows go on growing to the right.
    */
    method Add(a: Word) returns (ok: bool)
      requires Valid()
      modifies this
      ensures ok <==> old(|Leaves|) + 1 < 0x1_0000_0000
      ensures ok ==> Valid() && Leaves == old(Leaves) + [a]
    {
      ghost var n: U32, leaves := index, Leaves + [a];
      var currentIndex: nat := index;
      var currentLevelHash := a;
      var trz := TrailingZeros(index);
      assert currentLevelHash == Node(leaves, 0, n);
      hide Node, Pair, TrailingZeros, RowHolds, Zero;
      for i := 0 to depth + 1
        invariant |data| == depth + 1 && index == n && Leaves == old(Leaves)
        invariant currentIndex == Shift(n, i)
        invariant currentLevelHash == Node(leaves, i, currentIndex)
        invariant forall l :: i <= l <= depth ==> RowHolds(data[l], Leaves, n, l)
        invariant forall l :: 0 <= l < i ==> RowHolds(data[l], leaves, n + 1, l)
      {
        var row := data[i];
        RowAdvances(row, Leaves, a, n, i, currentIndex, currentLevelHash);
        NodeUp(leaves, i, currentIndex);
        var left, right;
        if currentIndex % 2 == 0 {
          left, right := currentLevelHash, Zero(i);
        } else {
          left, right := row[currentIndex - 1], currentLevelHash;
        }
        var newRow := if i > trz then row[currentIndex := currentLevelHash] else row + [currentLevelHash];
        data := data[i := newRow];
        currentLevelHash := Pair(left, right);
        currentIndex := currentIndex / 2;
      }
      if index == 0xffff_ffff {
        return false;
      }
      index := index + 1;
      Leaves := leaves;
      ok := true;
    }

    /** The path array of a position is the padded tree's sibling list. */
    method Path(position: U32) returns (p: array<Word>)
      requires Valid()
      ensures fresh(p) && p.Length == depth
      ensures p[..] == Siblings(Leaves, 0, position, depth)
    {
      hide Siblings, Node, Zero;
      p := new Word[depth](_ => EmptyData());
      var i: nat := position;
      for level := 0 to depth
        invariant i == Shift(position, level)
        invariant forall l :: 0 <= l < level ==> p[l] == Siblings(Leaves, 0, position, depth)[l]
      {
        var s := if i % 2 == 0 then i + 1 else i - 1;
        var row := data[level];
        assert RowHolds(row, Leaves, |Leaves|, level);
        SiblingsAt(Leaves, 0, position, depth, level);
        if s < |row| {
          p[level] := row[s];
        } else {
          NodePastEnd(Leaves, level, s);
          p[level] := Zero(level);
        }
        i := i / 2;
      }
    }

    /** root(): the first node of the top row, or the empty root before the first leaf. */
    function TreeRoot(): (r: Word)
      requires Valid()
      reads this
      ensures r == Root(Leaves, depth)
    {
      assert RowHolds(data[depth], Leaves, |Leaves|, depth);
      if data[depth] == [] then
        NodePastEnd(Leaves, depth, 0);
        Zero(depth)
      else data[depth][0]
    }
  }

  /** The window of 2^depth leaves that holds the last one. */
  function LastWindow(leaves: seq<Word>, depth: nat): nat {
    if leaves == [] then 0 else Shift(|leaves| - 1, depth)
  }

  lemma LastWindowRoot(imt: IncrementalMerkle.IncrementalMerkleTree)
    requires imt.Valid()
    ensures imt.root == Node(imt.Leaves, imt.depth, LastWindow(imt.Leaves, imt.depth))
  {
  }

  /**
   The cross-check of the tests, for every list of leaves. Within the capacity both trees
   report the padded root; past it the full tree keeps the root of its first window, the
   incremental tree reports that of the last one, and they agree exactly when the two
   windows hold the same leaves.
  */
  method CrossCheck(leaves: seq<Word>, depth: nat) returns (full: Word, incremental: Word)
    requires depth <= IncrementalMerkle.MAX_DEPTH
    requires |leaves| < 0x1_0000_0000
    ensures full == Root(leaves, depth) && incremental == Node(leaves, depth, LastWindow(leaves, depth))
    ensures |leaves| <= Pow2(depth) ==> full == incremental
    ensures full == incremental <==> SameWindows(leaves, depth, 0, LastWindow(leaves, depth))
  {
    hide MerkleTree.Valid, IncrementalMerkle.IncrementalMerkleTree.Valid;
    var zeroes := IncrementalMerkle.BuildZeroes();
    var imt := new IncrementalMerkle.IncrementalMerkleTree(depth, zeroes);
    var mt := new MerkleTree(depth);
    var i := 0;
    while i < |leaves|
      invariant 0 <= i <= |leaves|
      invariant imt.Valid() && mt.Valid() && imt.depth == mt.depth == depth
      invariant fresh(imt) && fresh(imt.filledSubtrees) && fresh(mt) && imt.zeroes == zeroes
      invariant imt.Leaves == mt.Leaves == leaves[..i]
    {
      var a := imt.Add(leaves[i]);
      var b := mt.Add(leaves[i]);
      i := i + 1;
    }
    assert leaves[..i] == leaves;
    if |leaves| <= Pow2(depth) {
      IncrementalMerkle.RootWithinCapacity(leaves, depth);
    }
    SameRootsIff(leaves, depth, 0, LastWindow(leaves, depth));
    LastWindowRoot(imt);
    full, incremental := mt.TreeRoot(), imt.root;
  }

  /** Two leaves in trees of depth 0: the full tree reports the first, the incremental the last. */
  lemma RootsDifferPastCapacity(a: Word, b: Word)
    requires a != b
    ensures Root([a, b], 0) != Node([a, b], 0, LastWindow([a, b], 0))
  {
    assert Shift(1, 0) == 1;
  }
}
