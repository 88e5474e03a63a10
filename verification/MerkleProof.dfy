/** The proof folding of circuits/src/bridge.rs: read_merkle_tree_proof. */
module MerkleProof {
  import opened Bits
  import opened SymbolicBytes
  import opened MerkleSpec

  /** One level: the low bit of the index says on which side the running hash goes. */
  function FoldStep(hash: Word, index: nat, sibling: Word): Word {
    if index % 2 == 0 then Pair(hash, sibling) else Pair(sibling, hash)
  }

  function Fold(hash: Word, index: nat, siblings: seq<Word>): Word
    decreases |siblings|
  {
    if siblings == [] then hash
    else Fold(FoldStep(hash, index, siblings[0]), index / 2, siblings[1..])
  }

  /** The position, `levels` below node `j`, that the low bits of `index` select. */
  function Descend(j: nat, index: nat, levels: nat): nat {
    if levels == 0 then j else 2 * Descend(j, index / 2, levels - 1) + index % 2
  }

  lemma {:induction false} DescendFromRoot(index: nat, levels: nat)
    ensures Descend(0, index, levels) == index % Pow2(levels)
    decreases levels
  {
    if levels > 0 {
      DescendFromRoot(index / 2, levels - 1);
      HalveMod(index, Pow2(levels - 1));
    }
  }

  lemma HalveMod(index: nat, p: nat)
    requires p > 0
    ensures index % (2 * p) == 2 * ((index / 2) % p) + index % 2
  {
    var q, r := (index / 2) / p, (index / 2) % p;
    DivMod(index / 2, p);
    assert index == q * (2 * p) + (2 * r + index % 2);
    QuotientUnique(index, 2 * p, q, 2 * r + index % 2);
  }

  function SiblingIndex(p: nat): nat {
    if p % 2 == 0 then p + 1 else p - 1
  }

  /** The sibling hashes of position `p`, from `level` up, in the padded tree. */
  function Siblings(leaves: seq<Word>, level: nat, p: nat, count: nat): (r: seq<Word>)
    ensures |r| == count
    decreases count
  {
    if count == 0 then []
    else [Node(leaves, level, SiblingIndex(p))]
         + Siblings(leaves, level + 1, p / 2, count - 1)
  }

  lemma {:induction false} SiblingsAt(leaves: seq<Word>, level: nat, p: nat, count: nat, k: nat)
    requires k < count
    ensures Siblings(leaves, level, p, count)[k] == Node(leaves, level + k, SiblingIndex(Shift(p, k)))
    decreases count
  {
    if k > 0 {
      SiblingsAt(leaves, level + 1, p / 2, count - 1, k - 1);
      ShiftHalf(p, k - 1);
    }
  }

  /** Completeness: the siblings of a position fold to its ancestor. */
  lemma {:induction false} FoldComplete(leaves: seq<Word>, level: nat, p: nat, count: nat)
    ensures Fold(Node(leaves, level, p), p, Siblings(leaves, level, p, count))
            == Node(leaves, level + count, Shift(p, count))
    decreases count
  {
    if count > 0 {
      FoldComplete(leaves, level + 1, p / 2, count - 1);
      ShiftHalf(p, count - 1);
      assert Siblings(leaves, level, p, count)[1..] == Siblings(leaves, level + 1, p / 2, count - 1);
    }
  }

  /** Soundness at any height: whatever folds to a node is the node the index bits select. */
  lemma {:induction false} FoldSound(leaves: seq<Word>, level: nat, j: nat,
                                     hash: Word, index: nat, siblings: seq<Word>)
    requires Fold(hash, index, siblings) == Node(leaves, level + |siblings|, j)
    ensures hash == Node(leaves, level, Descend(j, index, |siblings|))
    ensures siblings == Siblings(leaves, level, Descend(j, index, |siblings|), |siblings|)
    decreases |siblings|
  {
    hide Node, FoldStep;
    if siblings != [] {
      FoldSound(leaves, level + 1, j, FoldStep(hash, index, siblings[0]), index / 2, siblings[1..]);
      StepSound(leaves, level, Descend(j, index / 2, |siblings| - 1), hash, index, siblings[0]);
    }
  }

  /** One step: what hashes to a node are its children, on the sides the index says. */
  lemma StepSound(leaves: seq<Word>, level: nat, x: nat, hash: Word, index: nat, s: Word)
    requires FoldStep(hash, index, s) == Node(leaves, level + 1, x)
    ensures hash == Node(leaves, level, 2 * x + index % 2)
    ensures s == Node(leaves, level, SiblingIndex(2 * x + index % 2))
  {
    hide Pair;
    var l, r := Node(leaves, level, 2 * x), Node(leaves, level, 2 * x + 1);
    if index % 2 == 0 {
      PairInjective(hash, s, l, r);
    } else {
      PairInjective(s, hash, l, r);
    }
  }

  /**
   A proof of full depth is accepted against the padded root exactly when its leaf is the
   padded leaf at the index taken modulo the capacity and its siblings are that leaf's.
  */
  lemma ProofAcceptedIff(leaves: seq<Word>, leaf: Word, index: nat, siblings: seq<Word>)
    ensures var depth := |siblings|;
            var p := index % Pow2(depth);
            Fold(leaf, index, siblings) == Root(leaves, depth)
            <==> leaf == PaddedLeaf(leaves, p) && siblings == Siblings(leaves, 0, p, depth)
  {
    var depth := |siblings|;
    var p := index % Pow2(depth);
    DescendFromRoot(index, depth);
    if Fold(leaf, index, siblings) == Root(leaves, depth) {
      FoldSound(leaves, 0, 0, leaf, index, siblings);
    }
    if leaf == PaddedLeaf(leaves, p) && siblings == Siblings(leaves, 0, p, depth) {
      FoldComplete(leaves, 0, p, depth);
      ShiftZero(p, depth);
      FoldIgnoresHighBits(leaf, index, siblings);
    }
  }

  /** Only the low bits of the index are used. */
  lemma {:induction false} FoldIgnoresHighBits(hash: Word, index: nat, siblings: seq<Word>)
    ensures Fold(hash, index, siblings) == Fold(hash, index % Pow2(|siblings|), siblings)
    decreases |siblings|
  {
    if siblings != [] {
      var p := Pow2(|siblings| - 1);
      HalveMod(index, p);
      var low := index % Pow2(|siblings|);
      assert low % 2 == index % 2 && low / 2 == (index / 2) % p;
      FoldIgnoresHighBits(FoldStep(hash, index, siblings[0]), index / 2, siblings[1..]);
    }
  }
}
