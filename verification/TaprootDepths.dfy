/** core/src/builder/address.rs: the leaf depths create_taproot_address gives its builder. */
module TaprootDepths {
  import opened Bits

  /** A taproot script tree; a builder is fed its leaf depths in depth-first order. */
  datatype Tree = Leaf | Branch(left: Tree, right: Tree)

  function LeafDepths(t: Tree, d: nat): (r: seq<nat>)
    ensures r != []
  {
    match t
    case Leaf => [d]
    case Branch(l, r) => LeafDepths(l, d + 1) + LeafDepths(r, d + 1)
  }

  /** usize::ilog2. */
  function Log2(n: nat): (r: nat)
    requires n > 0
    ensures Pow2(r) <= n < 2 * Pow2(r)
  {
    if n == 1 then 0 else 1 + Log2(n / 2)
  }

  /** The depth given to each of the `n` scripts. */
  function ScriptDepths(n: nat): (r: seq<nat>)
    ensures |r| == n
  {
    if n > 1 then
      var m := Log2(n - 1) + 1;
      var k := Pow2(m) - n;
      seq(n, i => m - (if i >= n - k then 1 else 0))
    else if n == 1 then [0]
    else []
  }

  /** The complete tree of height `h` with its first `split` leaves split in two. */
  function Complete(h: nat, split: nat): Tree
    requires split <= Pow2(h)
  {
    if h == 0 then if split == 1 then Branch(Leaf, Leaf) else Leaf
    else
      var half := Pow2(h - 1);
      if split <= half then Branch(Complete(h - 1, split), Complete(h - 1, 0))
      else Branch(Complete(h - 1, half), Complete(h - 1, split - half))
  }

  /** `n` leaves, the first `split` of them one level deeper than the rest. */
  function TwoLevels(n: nat, split: nat, deep: nat): seq<nat>
    requires deep > 0
  {
    seq(n, i => if i < split then deep else deep - 1)
  }

  lemma TwoLevelsAppend(m: nat, n: nat, a: nat, b: nat, deep: nat)
    requires deep > 0 && a <= m && b <= n && (a == m || b == 0)
    ensures TwoLevels(m, a, deep) + TwoLevels(n, b, deep) == TwoLevels(m + n, a + b, deep)
  {
  }

  lemma {:induction false} CompleteDepths(h: nat, split: nat, d: nat)
    requires split <= Pow2(h)
    ensures LeafDepths(Complete(h, split), d) == TwoLevels(Pow2(h) + split, 2 * split, d + h + 1)
    decreases h
  {
    hide *;
    if h == 0 {
      CompleteLeaf(split, d);
    } else {
      CompleteBranches(h, split);
      var half := Pow2(h - 1);
      var first := if split <= half then split else half;
      CompleteDepths(h - 1, first, d + 1);
      CompleteDepths(h - 1, split - first, d + 1);
      JoinDepths(Complete(h - 1, first), Complete(h - 1, split - first), d, half, first, split - first, d + h + 1);
    }
  }

  lemma JoinDepths(l: Tree, r: Tree, d: nat, half: nat, a: nat, b: nat, deep: nat)
    requires deep > 0 && a <= half && b <= half && (a == half || b == 0)
    requires LeafDepths(l, d + 1) == TwoLevels(half + a, 2 * a, deep)
    requires LeafDepths(r, d + 1) == TwoLevels(half + b, 2 * b, deep)
    ensures LeafDepths(Branch(l, r), d) == TwoLevels(2 * half + (a + b), 2 * (a + b), deep)
  {
    TwoLevelsAppend(half + a, half + b, 2 * a, 2 * b, deep);
  }

  lemma CompleteLeaf(split: nat, d: nat)
    requires split <= Pow2(0)
    ensures LeafDepths(Complete(0, split), d) == TwoLevels(Pow2(0) + split, 2 * split, d + 1)
  {
    assert split == 1 ==> LeafDepths(Complete(0, split), d) == [d + 1, d + 1];
  }

  lemma CompleteBranches(h: nat, split: nat)
    requires h > 0 && split <= Pow2(h)
    ensures Pow2(h) == 2 * Pow2(h - 1)
    ensures Complete(h, split) ==
            var first := if split <= Pow2(h - 1) then split else Pow2(h - 1);
            Branch(Complete(h - 1, first), Complete(h - 1, split - first))
  {
  }

  /**
   For every number of scripts the depths are the depth-first leaf depths of a tree, the
   complete one; no two of them differ by more than one, and the earlier scripts are the deeper.
  */
  lemma ScriptDepthsFormTree(n: nat)
    requires n > 0
    ensures exists t :: LeafDepths(t, 0) == ScriptDepths(n)
    ensures forall i, j :: 0 <= i < n && 0 <= j < n ==> ScriptDepths(n)[i] <= ScriptDepths(n)[j] + 1
    ensures forall i, j :: 0 <= i < j < n ==> ScriptDepths(n)[i] >= ScriptDepths(n)[j]
  {
    if n == 1 {
      assert LeafDepths(Leaf, 0) == ScriptDepths(1);
    } else {
      var h := Log2(n - 1);
      var k := 2 * Pow2(h) - n;
      var split := Pow2(h) - k;
      CompleteDepths(h, split, 0);
      assert LeafDepths(Complete(h, split), 0) == ScriptDepths(n);
    }
  }

  /** Trees whose leaf depths start alike are equal, so a depth list builds one tree only. */
  lemma {:induction false} DepthsDetermineTree(a: Tree, b: Tree, d: nat, x: seq<nat>, y: seq<nat>)
    requires LeafDepths(a, d) + x == LeafDepths(b, d) + y
    ensures a == b && x == y
    decreases a
  {
    FirstDepth(a, d);
    FirstDepth(b, d);
    assert (LeafDepths(a, d) + x)[0] == LeafDepths(a, d)[0] && (LeafDepths(b, d) + y)[0] == LeafDepths(b, d)[0];
    match a
    case Leaf =>
      assert x == ([d] + x)[1..] && y == ([d] + y)[1..];
    case Branch(l, r) =>
      var x1, y1 := LeafDepths(r, d + 1) + x, LeafDepths(b.right, d + 1) + y;
      assert LeafDepths(a, d) + x == LeafDepths(l, d + 1) + x1;
      assert LeafDepths(b, d) + y == LeafDepths(b.left, d + 1) + y1;
      DepthsDetermineTree(l, b.left, d + 1, x1, y1);
      DepthsDetermineTree(r, b.right, d + 1, x, y);
  }

  lemma {:induction false} FirstDepth(t: Tree, d: nat)
    ensures LeafDepths(t, d)[0] >= d
    ensures LeafDepths(t, d)[0] == d <==> t.Leaf?
  {
    if t.Branch? {
      FirstDepth(t.left, d + 1);
    }
  }

  /** Each leaf's share of a tree of height `top`: the sum of 2^-depth, scaled by 2^top. */
  function Weight(depths: seq<nat>, top: nat): nat
    requires forall i :: 0 <= i < |depths| ==> depths[i] <= top
  {
    if depths == [] then 0 else Pow2(top - depths[0]) + Weight(depths[1..], top)
  }

  lemma {:induction false} WeightAppend(a: seq<nat>, b: seq<nat>, top: nat)
    requires forall i :: 0 <= i < |a| ==> a[i] <= top
    requires forall i :: 0 <= i < |b| ==> b[i] <= top
    ensures forall i :: 0 <= i < |a + b| ==> (a + b)[i] <= top
    ensures Weight(a + b, top) == Weight(a, top) + Weight(b, top)
  {
    if a == [] {
      assert a + b == b;
    } else {
      assert (a + b)[1..] == a[1..] + b;
      WeightAppend(a[1..], b, top);
    }
  }

  /** Kraft's equality: the leaves of any tree fill it exactly. */
  lemma {:induction false} TreeIsFull(t: Tree, d: nat, top: nat)
    requires forall i :: 0 <= i < |LeafDepths(t, d)| ==> LeafDepths(t, d)[i] <= top
    ensures d <= top && Weight(LeafDepths(t, d), top) == Pow2(top - d)
  {
    match t
    case Leaf =>
      assert LeafDepths(t, d)[0] == d;
      assert LeafDepths(t, d)[1..] == [];
    case Branch(l, r) =>
      var a, b := LeafDepths(l, d + 1), LeafDepths(r, d + 1);
      assert LeafDepths(t, d) == a + b;
      forall i | 0 <= i < |a| ensures a[i] <= top {
        assert (a + b)[i] == a[i];
      }
      forall i | 0 <= i < |b| ensures b[i] <= top {
        assert (a + b)[|a| + i] == b[i];
      }
      TreeIsFull(l, d + 1, top);
      TreeIsFull(r, d + 1, top);
      WeightAppend(a, b, top);
  }

  /**
   The builder's own bookkeeping: the depths of the finished subtrees still waiting for a
   right sibling, outermost first. A new leaf closes every waiting subtree of its depth;
   None is a leaf that comes too shallow, or after the tree is complete.
  */
  datatype Progress = Broken | Open(waiting: seq<nat>)

  function Close(waiting: seq<nat>, d: nat): (r: seq<nat>)
    decreases |waiting|
  {
    if waiting != [] && waiting[|waiting| - 1] == d && d > 0 then Close(waiting[..|waiting| - 1], d - 1)
    else waiting + [d]
  }

  function AddLeaf(p: Progress, d: nat): Progress {
    if p.Broken? then Broken
    else if p.waiting != [] && (p.waiting[|p.waiting| - 1] == 0 || p.waiting[|p.waiting| - 1] > d) then Broken
    else Open(Close(p.waiting, d))
  }

  function AddLeaves(p: Progress, depths: seq<nat>): Progress
    decreases |depths|
  {
    if depths == [] then p else AddLeaves(AddLeaf(p, depths[0]), depths[1..])
  }

  lemma {:induction false} AddLeavesAppend(p: Progress, a: seq<nat>, b: seq<nat>)
    ensures AddLeaves(p, a + b) == AddLeaves(AddLeaves(p, a), b)
    decreases |a|
  {
    if a == [] {
      assert a + b == b;
    } else {
      assert (a + b)[1..] == a[1..] + b && (a + b)[0] == a[0];
      AddLeavesAppend(AddLeaf(p, a[0]), a[1..], b);
    }
  }

  /** Feeding a subtree's leaves has the effect of one leaf at the subtree's depth. */
  lemma {:induction false} SubtreeCloses(t: Tree, d: nat, waiting: seq<nat>)
    requires waiting != [] ==> 0 < waiting[|waiting| - 1] <= d
    ensures AddLeaves(Open(waiting), LeafDepths(t, d)) == Open(Close(waiting, d))
    decreases t
  {
    match t
    case Leaf =>
      assert LeafDepths(t, d)[1..] == [];
    case Branch(l, r) =>
      AddLeavesAppend(Open(waiting), LeafDepths(l, d + 1), LeafDepths(r, d + 1));
      SubtreeCloses(l, d + 1, waiting);
      var after := Close(waiting, d + 1);
      assert after == waiting + [d + 1];
      SubtreeCloses(r, d + 1, after);
      assert after[..|after| - 1] == waiting;
  }

  /** The builder always completes: after the last script one subtree is left, the whole tree. */
  lemma TaprootBuilderCompletes(n: nat)
    requires n > 0
    ensures AddLeaves(Open([]), ScriptDepths(n)) == Open([0])
  {
    ScriptDepthsFormTree(n);
    var t :| LeafDepths(t, 0) == ScriptDepths(n);
    SubtreeCloses(t, 0, []);
  }

  lemma {:induction false} BrokenStays(p: Progress, depths: seq<nat>)
    requires p.Broken?
    ensures AddLeaves(p, depths).Broken?
    decreases |depths|
  {
    if depths != [] {
      BrokenStays(p, depths[1..]);
    }
  }

  /** So no script on the way is refused. */
  lemma EveryLeafIsAdded(n: nat, k: nat)
    requires k <= n
    ensures AddLeaves(Open([]), ScriptDepths(n)[..k]).Open?
  {
    if n > 0 {
      var depths := ScriptDepths(n);
      TaprootBuilderCompletes(n);
      assert depths == depths[..k] + depths[k..];
      AddLeavesAppend(Open([]), depths[..k], depths[k..]);
      if AddLeaves(Open([]), depths[..k]).Broken? {
        BrokenStays(AddLeaves(Open([]), depths[..k]), depths[k..]);
      }
    }
  }
}
