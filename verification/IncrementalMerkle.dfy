/** circuits/src/incremental_merkle.rs and the ZEROES table of circuits/src/constants.rs. */
module IncrementalMerkle {
  import opened Bits
  import opened SymbolicBytes
  import opened MerkleSpec

  /** constants.rs: WITHDRAWAL_MERKLE_TREE_DEPTH, which sizes ZEROES. */
  const MAX_DEPTH: nat := 32

  lemma ZeroUp(i: nat)
    ensures Zero(0) == EmptyData() && Zero(i + 1) == Pair(Zero(i), Zero(i))
  {
  }

  /** constants.rs: fills the table of empty-subtree hashes in place. */
  method BuildZeroes() returns (a: array<Word>)
    ensures fresh(a) && a.Length == MAX_DEPTH + 1
    ensures forall i :: 0 <= i <= MAX_DEPTH ==> a[i] == Zero(i)
  {
    hide Pair, EmptyData, Zero;
    a := new Word[MAX_DEPTH + 1](_ => EmptyData());
    ZeroUp(0);
    for i := 0 to MAX_DEPTH
      invariant forall j :: 0 <= j <= i ==> a[j] == Zero(j)
    {
      ZeroUp(i);
      a[i + 1] := Pair(a[i], a[i]);
    }
  }

  /**
   What a cache entry must hold when `n` leaves are in: wherever bit `i` of the counter is
   one, the root of the completed left sibling subtree of that level.
  */
  ghost predicate Caches(entry: Word, leaves: seq<Word>, n: nat, i: nat) {
    var c := Shift(n, i);
    c % 2 == 1 ==> entry == Node(leaves, i, c - 1)
  }

  /** The cache entry a level keeps or overwrites is the one the next leaf needs. */
  lemma CacheStep(before: Word, after: Word, leaves: seq<Word>, a: Word, n: nat, i: nat)
    requires n == |leaves| && Caches(before, leaves, n, i)
    requires after == if Shift(n, i) % 2 == 0 then Node(leaves + [a], i, Shift(n, i)) else before
    ensures Caches(after, leaves + [a], n + 1, i)
  {
    ShiftSuccessor(n, i);
    if Shift(n, i) % 2 == 1 {
      NodeFrame(leaves, a, i, Shift(n, i) - 1);
    }
  }

  /** The two children the loop hashes at level `i` are those of the padded tree. */
  lemma PathStep(leaves: seq<Word>, a: Word, entry: Word, n: nat, i: nat, c: nat)
    requires n == |leaves| && c == Shift(n, i) && Caches(entry, leaves, n, i)
    ensures c % 2 == 0 ==>
              Node(leaves + [a], i + 1, c / 2) == Pair(Node(leaves + [a], i, c), Zero(i))
    ensures c % 2 == 1 ==>
              Node(leaves + [a], i + 1, c / 2) == Pair(entry, Node(leaves + [a], i, c))
  {
    if c % 2 == 0 {
      assert 2 * (c / 2) == c && |leaves + [a]| - 1 == n;
      NodePastEnd(leaves + [a], i, c + 1);
    } else {
      assert 2 * (c / 2) + 1 == c;
      NodeFrame(leaves, a, i, c - 1);
    }
  }

  class IncrementalMerkleTree {
    const depth: nat
    const zeroes: array<Word>
    const filledSubtrees: array<Word>
    var root: Word
    var index: U32
    ghost var Leaves: seq<Word>

    ghost predicate Valid()
      reads this, zeroes, filledSubtrees
    {
      && depth <= MAX_DEPTH
      && zeroes != filledSubtrees
      && zeroes.Length == MAX_DEPTH + 1
      && (forall i :: 0 <= i <= MAX_DEPTH ==> zeroes[i] == Zero(i))
      && filledSubtrees.Length == depth
      && index == |Leaves|
      && (forall i :: 0 <= i < depth ==> Caches(filledSubtrees[i], Leaves, |Leaves|, i))
      && root == Node(Leaves, depth, if Leaves == [] then 0 else Shift(|Leaves| - 1, depth))
    }

    /** The lazily built ZEROES table is shared by all trees, so it is passed in. */
    constructor (depth: nat, zeroes: array<Word>)
      requires depth <= MAX_DEPTH
      requires zeroes.Length == MAX_DEPTH + 1
      requires forall i :: 0 <= i <= MAX_DEPTH ==> zeroes[i] == Zero(i)
      ensures Valid() && Leaves == [] && fresh(filledSubtrees)
      ensures this.depth == depth && this.zeroes == zeroes
    {
      this.depth := depth;
      this.zeroes := zeroes;
      filledSubtrees := new Word[depth](_ => EmptyData());
      root := zeroes[depth];
      index := 0;
      Leaves := [];
      new;
      NodePastEnd([], depth, 0);
      forall i | 0 <= i < depth ensures Caches(filledSubtrees[i], Leaves, 0, i) {
        ShiftZero(0, i);
      }
    }

    /**
     Inserts a leaf. `ok` is false when the u32 counter overflows, where a checked build
     panics. The root is always the root of the depth-sized window that holds the last leaf,
     which is the whole tree while the leaves fit (RootWithinCapacity).
    */
    method Add(a: Word) returns (ok: bool)
      requires Valid()
      modifies this, filledSubtrees
      ensures ok <==> old(|Leaves|) + 1 < 0x1_0000_0000
      ensures ok ==> Valid() && Leaves == old(Leaves) + [a]
      ensures root == Node(old(Leaves) + [a], depth, Shift(old(|Leaves|), depth))
    {
      ghost var n: nat, leaves := index, Leaves + [a];
      var currentIndex: nat := index;
      var currentLevelHash := a;
      for i := 0 to depth
        invariant index == n && Leaves == old(Leaves) && currentIndex == Shift(n, i)
        invariant currentLevelHash == Node(leaves, i, currentIndex)
        invariant forall j :: i <= j < depth ==> Caches(filledSubtrees[j], Leaves, n, j)
        invariant forall j :: 0 <= j < i ==> Caches(filledSubtrees[j], leaves, n + 1, j)
      {
        ghost var entry := filledSubtrees[i];
        PathStep(Leaves, a, entry, n, i, currentIndex);
        var left, right;
        if currentIndex % 2 == 0 {
          filledSubtrees[i] := currentLevelHash;
          left, right := currentLevelHash, zeroes[i];
        } else {
          left, right := filledSubtrees[i], currentLevelHash;
        }
        CacheStep(entry, filledSubtrees[i], Leaves, a, n, i);
        currentLevelHash := Pair(left, right);
        currentIndex := currentIndex / 2;
      }
      root := currentLevelHash;
      ok := index < 0xffff_ffff;
      if ok {
        index := index + 1;
        Leaves := leaves;
      }
    }
  }

  /** While the leaves fit in the depth, the last leaf's window is the whole padded tree. */
  lemma RootWithinCapacity(leaves: seq<Word>, depth: nat)
    requires |leaves| <= Pow2(depth)
    ensures Node(leaves, depth, if leaves == [] then 0 else Shift(|leaves| - 1, depth))
            == Root(leaves, depth)
  {
    if leaves != [] {
      ShiftZero(|leaves| - 1, depth);
    }
  }

  /** Adds a whole batch in order and reports the padded root (the code's use of the tree). */
  method AddAll(tree: IncrementalMerkleTree, batch: seq<Word>) returns (ok: bool)
    requires tree.Valid()
    modifies tree, tree.filledSubtrees
    ensures ok <==> old(|tree.Leaves|) + |batch| < 0x1_0000_0000
    ensures ok ==> tree.Valid() && tree.Leaves == old(tree.Leaves) + batch
    ensures ok && |tree.Leaves| <= Pow2(tree.depth) ==> tree.root == Root(tree.Leaves, tree.depth)
  {
    ok := true;
    var i := 0;
    while i < |batch|
      invariant 0 <= i <= |batch|
      invariant tree.Valid() && tree.Leaves == old(tree.Leaves) + batch[..i]
    {
      ok := tree.Add(batch[i]);
      if !ok {
        return;
      }
      i := i + 1;
    }
    if |tree.Leaves| <= Pow2(tree.depth) {
      RootWithinCapacity(tree.Leaves, tree.depth);
    }
  }
}
