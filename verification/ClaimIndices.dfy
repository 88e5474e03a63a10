/** core/src/utils.rs: get_claim_reveal_indices, the nodes that uncover the unclaimed leaves. */
module ClaimIndices {
  import opened Wrappers
  import opened Bits

  /** A node of the tree: its distance from the root and its index on that level. */
  type TreeNode = (nat, nat)

  function Indices(depth: nat, count: nat): seq<TreeNode>
    requires count <= Pow2(depth)
    decreases depth
  {
    if count == 0 then [(0, 0)]
    else if count == Pow2(depth) then []
    else if count % 2 == 1 then [(depth, count)] + Indices(depth - 1, (count + 1) / 2)
    else Indices(depth - 1, count / 2)
  }

  /** Leaf `x` lies below the node in a tree of the given depth. */
  predicate Covers(n: TreeNode, depth: nat, x: nat) {
    n.0 <= depth && Shift(x, depth - n.0) == n.1
  }

  predicate InTree(n: TreeNode, depth: nat) {
    n.0 <= depth && n.1 < Pow2(n.0)
  }

  lemma CoversParent(n: TreeNode, depth: nat, x: nat)
    requires n.0 < depth
    ensures Covers(n, depth, x) <==> Covers(n, depth - 1, x / 2)
  {
    ShiftHalf(x, depth - 1 - n.0);
  }

  lemma {:induction false} IndicesInTree(depth: nat, count: nat)
    requires count <= Pow2(depth)
    ensures forall k :: 0 <= k < |Indices(depth, count)| ==> InTree(Indices(depth, count)[k], depth)
    decreases depth
  {
    if 0 < count < Pow2(depth) {
      IndicesInTree(depth - 1, if count % 2 == 1 then (count + 1) / 2 else count / 2);
    }
  }

  /** How many of the nodes lie above a leaf. */
  function Cover(nodes: seq<TreeNode>, depth: nat, x: nat): nat {
    if nodes == [] then 0
    else (if Covers(nodes[0], depth, x) then 1 else 0) + Cover(nodes[1..], depth, x)
  }

  lemma {:induction false} CoverParent(nodes: seq<TreeNode>, depth: nat, x: nat)
    requires depth > 0 && forall k :: 0 <= k < |nodes| ==> InTree(nodes[k], depth - 1)
    ensures Cover(nodes, depth, x) == Cover(nodes, depth - 1, x / 2)
  {
    if nodes != [] {
      CoversParent(nodes[0], depth, x);
      CoverParent(nodes[1..], depth, x);
    }
  }

  /**
   The nodes partition the suffix: every leaf from `count` on lies below exactly one of
   them, and no leaf before it lies below any.
  */
  lemma {:induction false} IndicesPartitionSuffix(depth: nat, count: nat, x: nat)
    requires count <= Pow2(depth) && x < Pow2(depth)
    ensures Cover(Indices(depth, count), depth, x) == if x >= count then 1 else 0
    decreases depth
  {
    var nodes := Indices(depth, count);
    if count == 0 {
      ShiftZero(x, depth);
      assert nodes[1..] == [];
    } else if count < Pow2(depth) {
      var up := if count % 2 == 1 then (count + 1) / 2 else count / 2;
      IndicesInTree(depth - 1, up);
      CoverParent(Indices(depth - 1, up), depth, x);
      IndicesPartitionSuffix(depth - 1, up, x / 2);
      if count % 2 == 1 {
        assert nodes[1..] == Indices(depth - 1, up);
        assert Covers(nodes[0], depth, x) <==> x == count;
      }
    }
  }

  /** The number of one bits. */
  function Ones(n: nat): nat {
    if n == 0 then 0 else n % 2 + Ones(n / 2)
  }

  lemma {:induction false} OnesOfPow2(depth: nat)
    ensures Ones(Pow2(depth)) == 1
  {
    if depth > 0 {
      OnesOfPow2(depth - 1);
      assert Pow2(depth) / 2 == Pow2(depth - 1);
    }
  }

  lemma HalfOfRest(depth: nat, count: nat)
    requires depth > 0 && count < Pow2(depth)
    ensures var rest := Pow2(depth) - count;
            Ones(rest) == count % 2 + Ones(Pow2(depth - 1) - (count + 1) / 2)
  {
    var half := Pow2(depth - 1);
    assert Pow2(depth) == 2 * half;
    hide Pow2;
    var rest := 2 * half - count;
    assert rest % 2 == count % 2 && rest / 2 == half - (count + 1) / 2;
  }

  lemma {:induction false} IndicesLength(depth: nat, count: nat)
    requires count <= Pow2(depth)
    ensures |Indices(depth, count)| == Ones(Pow2(depth) - count)
    decreases depth
  {
    if count == 0 {
      OnesOfPow2(depth);
    } else if count < Pow2(depth) {
      IndicesLength(depth - 1, (count + 1) / 2);
      HalfOfRest(depth, count);
      hide Ones;
    }
  }

  /** Each node is nearer to the root than the ones before it. */
  ghost predicate GoesUp(indices: seq<TreeNode>) {
    forall k, l :: 0 <= k < l < |indices| ==> indices[k].0 > indices[l].0
  }

  /** The list climbs from the leaves to the root, so its nodes come in the order of their leaves. */
  lemma {:induction false} IndicesGoUp(depth: nat, count: nat)
    requires count <= Pow2(depth)
    ensures GoesUp(Indices(depth, count))
    ensures forall k :: 0 <= k < |Indices(depth, count)| ==> Indices(depth, count)[k].0 <= depth
    decreases depth
  {
    if 0 < count < Pow2(depth) {
      IndicesGoUp(depth - 1, (count + 1) / 2);
    }
  }

  // No smaller cover.

  ghost predicate CoveredBy(nodes: set<TreeNode>, depth: nat, x: nat) {
    exists n :: n in nodes && Covers(n, depth, x)
  }

  /** A set of tree nodes whose leaves are exactly those from `count` on. */
  ghost predicate CoversSuffix(nodes: set<TreeNode>, depth: nat, count: nat) {
    && (forall n :: n in nodes ==> InTree(n, depth))
    && (forall x: nat :: x < Pow2(depth) ==> (CoveredBy(nodes, depth, x) <==> x >= count))
  }

  /** The same node, or its parent when it is a leaf of the deeper tree. */
  function Lift(n: TreeNode, depth: nat): TreeNode
    requires depth > 0
  {
    if n.0 == depth then (depth - 1, n.1 / 2) else n
  }

  function LiftAll(nodes: set<TreeNode>, depth: nat): set<TreeNode>
    requires depth > 0
  {
    set n | n in nodes :: Lift(n, depth)
  }

  lemma {:induction false} LiftAllSize(nodes: set<TreeNode>, depth: nat)
    requires depth > 0
    ensures |LiftAll(nodes, depth)| <= |nodes|
    decreases nodes
  {
    if n :| n in nodes {
      LiftAllSize(nodes - {n}, depth);
      assert LiftAll(nodes, depth) == LiftAll(nodes - {n}, depth) + {Lift(n, depth)};
    }
  }

  lemma LeafCovers(n: TreeNode, depth: nat, x: nat)
    ensures n.0 == depth ==> (Covers(n, depth, x) <==> x == n.1)
  {
  }

  /** Below an odd count, only the leaf itself can cover leaf `count`. */
  lemma OddLeafNeeded(nodes: set<TreeNode>, depth: nat, count: nat)
    requires depth > 0 && 0 < count < Pow2(depth) && count % 2 == 1
    requires CoversSuffix(nodes, depth, count)
    ensures (depth, count) in nodes
  {
    assert CoveredBy(nodes, depth, count) && !CoveredBy(nodes, depth, count - 1);
    var n :| n in nodes && Covers(n, depth, count);
    assert InTree(n, depth) && !Covers(n, depth, count - 1);
    assert count / 2 == (count - 1) / 2;
    if n.0 < depth {
      CoversParent(n, depth, count);
      CoversParent(n, depth, count - 1);
    }
  }

  /** A lifted node covers exactly the parents of the leaves its original covers. */
  lemma LiftCoversParent(n: TreeNode, depth: nat, x: nat)
    requires depth > 0 && InTree(n, depth) && Covers(n, depth, x)
    ensures Covers(Lift(n, depth), depth - 1, x / 2)
  {
    if n.0 < depth {
      CoversParent(n, depth, x);
    }
  }

  /** The leaf of a covered parent that the original covers. */
  lemma LiftedFrom(n: TreeNode, depth: nat, y: nat) returns (x: nat)
    requires depth > 0 && InTree(n, depth) && y < Pow2(depth - 1)
    requires Covers(Lift(n, depth), depth - 1, y)
    ensures x / 2 == y && Covers(n, depth, x) && x < Pow2(depth)
    ensures if n.0 == depth then x == n.1 else x % 2 == 0
  {
    if n.0 == depth {
      x := n.1;
    } else {
      x := 2 * y;
      CoversParent(n, depth, x);
    }
  }

  /** Dropping the odd leaf, which no lifted cover needs, and lifting the rest. */
  function LiftRest(nodes: set<TreeNode>, depth: nat, count: nat): set<TreeNode>
    requires depth > 0
  {
    LiftAll(if count % 2 == 1 then nodes - {(depth, count)} else nodes, depth)
  }

  lemma LiftCoversAt(nodes: set<TreeNode>, depth: nat, count: nat, y: nat)
    requires depth > 0 && 0 < count < Pow2(depth) && CoversSuffix(nodes, depth, count)
    requires y < Pow2(depth - 1)
    ensures CoveredBy(LiftRest(nodes, depth, count), depth - 1, y) <==> y >= (count + 1) / 2
  {
    hide Covers;
    var kept := if count % 2 == 1 then nodes - {(depth, count)} else nodes;
    var lifted := LiftRest(nodes, depth, count);
    if CoveredBy(lifted, depth - 1, y) {
      var m :| m in lifted && Covers(m, depth - 1, y);
      var n :| n in kept && Lift(n, depth) == m;
      var x := LiftedFrom(n, depth, y);
      assert CoveredBy(nodes, depth, x);
    }
    if y >= (count + 1) / 2 {
      assert CoveredBy(nodes, depth, 2 * y);
      var n :| n in nodes && Covers(n, depth, 2 * y);
      LeafCovers(n, depth, 2 * y);
      LiftCoversParent(n, depth, 2 * y);
    }
  }

  /** Lifting a cover of the suffix covers the suffix one level up. */
  lemma LiftCovers(nodes: set<TreeNode>, depth: nat, count: nat)
    requires depth > 0 && 0 < count < Pow2(depth) && CoversSuffix(nodes, depth, count)
    ensures CoversSuffix(LiftRest(nodes, depth, count), depth - 1, (count + 1) / 2)
  {
    var lifted, above := LiftRest(nodes, depth, count), depth - 1;
    forall m | m in lifted ensures InTree(m, above) {
      var n :| n in nodes && Lift(n, depth) == m;
      assert InTree(n, depth);
    }
    forall y: nat | y < Pow2(above) ensures CoveredBy(lifted, above, y) <==> y >= (count + 1) / 2 {
      LiftCoversAt(nodes, depth, count, y);
    }
  }

  /** Minimality: no set of tree nodes with the same leaves is smaller. */
  lemma {:induction false} IndicesAreMinimal(nodes: set<TreeNode>, depth: nat, count: nat)
    requires count <= Pow2(depth) && CoversSuffix(nodes, depth, count)
    ensures |nodes| >= |Indices(depth, count)|
    decreases depth
  {
    if count == 0 {
      assert CoveredBy(nodes, depth, 0);
      var n :| n in nodes;
      assert nodes == (nodes - {n}) + {n};
    } else if count < Pow2(depth) {
      LiftCovers(nodes, depth, count);
      IndicesAreMinimal(LiftRest(nodes, depth, count), depth - 1, (count + 1) / 2);
      if count % 2 == 1 {
        OddLeafNeeded(nodes, depth, count);
        LiftAllSize(nodes - {(depth, count)}, depth);
      } else {
        LiftAllSize(nodes, depth);
      }
    }
  }

  /** The nodes partition the leaves from `count` on, no set of nodes does with fewer, deepest first. */
  ghost predicate LeastCover(indices: seq<TreeNode>, depth: nat, count: nat)
    requires count <= Pow2(depth)
  {
    && GoesUp(indices)
    && (forall x: nat :: x < Pow2(depth) ==> Cover(indices, depth, x) == if x >= count then 1 else 0)
    && |indices| == Ones(Pow2(depth) - count)
    && (forall nodes :: CoversSuffix(nodes, depth, count) ==> |indices| <= |nodes|)
  }

  lemma IndicesAreLeastCover(depth: nat, count: nat)
    requires count <= Pow2(depth)
    ensures LeastCover(Indices(depth, count), depth, count)
  {
    var indices := Indices(depth, count);
    hide Cover, CoversSuffix, Pow2, Indices, GoesUp;
    forall x: nat | x < Pow2(depth) ensures Cover(indices, depth, x) == if x >= count then 1 else 0 {
      IndicesPartitionSuffix(depth, count, x);
    }
    IndicesGoUp(depth, count);
    IndicesLength(depth, count);
    forall nodes | CoversSuffix(nodes, depth, count) ensures |indices| <= |nodes| {
      IndicesAreMinimal(nodes, depth, count);
    }
  }

  /**
   None is a panic: the original asserts the bound on `count`, and its u32 power overflows
   from depth 32.
  */
  method GetClaimRevealIndices(depth: nat, count: nat) returns (r: Option<seq<TreeNode>>)
    ensures r.Some? <==> depth < 32 && count <= Pow2(depth)
    ensures r.Some? ==> r.value == Indices(depth, count) && LeastCover(r.value, depth, count)
    decreases depth
  {
    hide LeastCover;
    if depth >= 32 || count > Pow2(depth) {
      return None;
    }
    IndicesAreLeastCover(depth, count);
    if count == 0 {
      return Some([(0, 0)]);
    }
    var indices: seq<TreeNode> := [];
    if count == Pow2(depth) {
      return Some(indices);
    }
    if count % 2 == 1 {
      indices := indices + [(depth, count)];
      var rest := GetClaimRevealIndices(depth - 1, (count + 1) / 2);
      indices := indices + rest.value;
    } else {
      var rest := GetClaimRevealIndices(depth - 1, count / 2);
      indices := indices + rest.value;
    }
    return Some(indices);
  }
}
