/**
 The reference: the complete binary hash tree of a fixed depth over a list of leaves,
 padded on the right with EMPTYDATA. Every other tree module is proved against it.
*/
module MerkleSpec {
  import opened Bits
  import opened SymbolicBytes

  /** constants.rs: EMPTYDATA, keccak256("CITREA"). */
  function EmptyData(): Word {
    Literals([
      0xcb, 0x0c, 0x9f, 0x42, 0x64, 0x54, 0x6b, 0x15, 0xbe, 0x98, 0x01, 0xec, 0xb1, 0x1d, 0xf7, 0xe4,
      0x3b, 0xfc, 0x68, 0x41, 0x60, 0x9f, 0xc1, 0xe4, 0xe9, 0xde, 0x5b, 0x3a, 0x59, 0x73, 0xaf, 0x38])
  }

  lemma EmptyDataIsLiteral()
    ensures IsLiteral(EmptyData())
  {
  }

  function Pair(left: Word, right: Word): Word {
    Sha256(left + right)
  }

  lemma PairInjective(a: Word, b: Word, c: Word, d: Word)
    requires Pair(a, b) == Pair(c, d)
    ensures a == c && b == d
  {
    Sha256Injective(a + b, c + d);
    SplitEqual(a, b, c, d);
  }

  /** The hash of an empty subtree of the given height. */
  function Zero(level: nat): Word {
    if level == 0 then EmptyData() else Pair(Zero(level - 1), Zero(level - 1))
  }

  /** Leaf `i` of the padded tree. */
  function PaddedLeaf(leaves: seq<Word>, i: nat): Word {
    if i < |leaves| then leaves[i] else EmptyData()
  }

  /** Node `j` of a level of the padded tree, counting levels up from the leaves. */
  function Node(leaves: seq<Word>, level: nat, j: nat): Word {
    if level == 0 then PaddedLeaf(leaves, j)
    else Pair(Node(leaves, level - 1, 2 * j), Node(leaves, level - 1, 2 * j + 1))
  }

  function Root(leaves: seq<Word>, depth: nat): Word {
    Node(leaves, depth, 0)
  }

  /** Two leaves: the left one is hashed first. */
  lemma TwoLeafRoot(a: Word, b: Word)
    ensures Root([a, b], 1) == Sha256(a + b)
  {
    assert Node([a, b], 0, 0) == a && Node([a, b], 0, 1) == b;
  }

  /** Right of the last leaf's ancestor, every subtree is empty. */
  lemma {:induction false} NodePastEnd(leaves: seq<Word>, level: nat, j: nat)
    requires leaves == [] || j > Shift(|leaves| - 1, level)
    ensures Node(leaves, level, j) == Zero(level)
    decreases level
  {
    if level > 0 {
      NodePastEnd(leaves, level - 1, 2 * j);
      NodePastEnd(leaves, level - 1, 2 * j + 1);
    }
  }

  /** Appending a leaf changes no node but the ancestors of its position. */
  lemma {:induction false} NodeFrame(leaves: seq<Word>, a: Word, level: nat, j: nat)
    requires j != Shift(|leaves|, level)
    ensures Node(leaves + [a], level, j) == Node(leaves, level, j)
    decreases level
  {
    if level > 0 {
      NodeFrame(leaves, a, level - 1, 2 * j);
      NodeFrame(leaves, a, level - 1, 2 * j + 1);
    }
  }

  /** No two leaf lists of the same length share a root, so a root commits to its leaves. */
  lemma {:induction false} NodeCommits(a: seq<Word>, b: seq<Word>, level: nat, j: nat, i: nat)
    requires Node(a, level, j) == Node(b, level, j)
    requires Shift(i, level) == j
    ensures PaddedLeaf(a, i) == PaddedLeaf(b, i)
    decreases level
  {
    if level > 0 {
      PairInjective(Node(a, level - 1, 2 * j), Node(a, level - 1, 2 * j + 1),
                    Node(b, level - 1, 2 * j), Node(b, level - 1, 2 * j + 1));
      NodeCommits(a, b, level - 1, Shift(i, level - 1), i);
    }
  }

  /** Two leaf lists of equal length within capacity have the same root only if they are equal. */
  lemma RootCommits(a: seq<Word>, b: seq<Word>, depth: nat)
    requires |a| == |b| <= Pow2(depth)
    requires Root(a, depth) == Root(b, depth)
    ensures a == b
  {
    forall i | 0 <= i < |a| ensures a[i] == b[i] {
      ShiftZero(i, depth);
      NodeCommits(a, b, depth, 0, i);
    }
  }

  /** Leaf `i` of the subtree below node `j` of a level. */
  function WindowLeaf(leaves: seq<Word>, level: nat, j: nat, i: nat): Word {
    PaddedLeaf(leaves, j * Pow2(level) + i)
  }

  ghost predicate SameWindows(leaves: seq<Word>, level: nat, j: nat, k: nat) {
    forall i: nat :: i < Pow2(level) ==> WindowLeaf(leaves, level, j, i) == WindowLeaf(leaves, level, k, i)
  }

  /** A window's leaves are those of its two halves. */
  lemma WindowHalves(leaves: seq<Word>, level: nat, j: nat, i: nat)
    requires level > 0 && i < Pow2(level)
    ensures WindowLeaf(leaves, level, j, i)
            == if i < Pow2(level - 1) then WindowLeaf(leaves, level - 1, 2 * j, i)
               else WindowLeaf(leaves, level - 1, 2 * j + 1, i - Pow2(level - 1))
  {
    var half := Pow2(level - 1);
    MulAssociates(j, 2, half);
    assert (2 * j + 1) * half == 2 * j * half + half;
  }

  lemma SameHalves(leaves: seq<Word>, level: nat, j: nat, k: nat)
    requires level > 0
    ensures SameWindows(leaves, level, j, k) <==>
            SameWindows(leaves, level - 1, 2 * j, 2 * k) && SameWindows(leaves, level - 1, 2 * j + 1, 2 * k + 1)
  {
    var half := Pow2(level - 1);
    assert Pow2(level) == 2 * half;
    hide WindowLeaf, Pow2;
    if SameWindows(leaves, level, j, k) {
      var below, l, m := level - 1, 2 * j, 2 * k;
      forall i: nat | i < half ensures WindowLeaf(leaves, below, l, i) == WindowLeaf(leaves, below, m, i) {
        WindowHalves(leaves, level, j, i);
        WindowHalves(leaves, level, k, i);
      }
      var l', m' := l + 1, m + 1;
      forall i: nat | i < half ensures WindowLeaf(leaves, below, l', i) == WindowLeaf(leaves, below, m', i) {
        WindowHalves(leaves, level, j, half + i);
        WindowHalves(leaves, level, k, half + i);
      }
    }
    if SameWindows(leaves, level - 1, 2 * j, 2 * k) && SameWindows(leaves, level - 1, 2 * j + 1, 2 * k + 1) {
      forall i: nat | i < 2 * half ensures WindowLeaf(leaves, level, j, i) == WindowLeaf(leaves, level, k, i) {
        WindowHalves(leaves, level, j, i);
        WindowHalves(leaves, level, k, i);
      }
    }
  }

  /** Two subtrees have the same root exactly when they hold the same leaves. */
  lemma {:induction false} SameRootsIff(leaves: seq<Word>, level: nat, j: nat, k: nat)
    ensures Node(leaves, level, j) == Node(leaves, level, k) <==> SameWindows(leaves, level, j, k)
    decreases level
  {
    if level == 0 {
      assert WindowLeaf(leaves, 0, j, 0) == PaddedLeaf(leaves, j);
      assert WindowLeaf(leaves, 0, k, 0) == PaddedLeaf(leaves, k);
    } else {
      SameRootsIff(leaves, level - 1, 2 * j, 2 * k);
      SameRootsIff(leaves, level - 1, 2 * j + 1, 2 * k + 1);
      SameHalves(leaves, level, j, k);
      hide SameWindows, Pair;
      if Node(leaves, level, j) == Node(leaves, level, k) {
        PairInjective(Node(leaves, level - 1, 2 * j), Node(leaves, level - 1, 2 * j + 1),
                      Node(leaves, level - 1, 2 * k), Node(leaves, level - 1, 2 * k + 1));
      }
    }
  }
}
