/**
 The reference for Bitcoin's transaction tree: each level hashes neighbours, left before
 right, and an odd last node with itself. The fold of read_and_verify_bitcoin_merkle_path is
 proved against it.
*/
module BitcoinTree {
  import opened Bits
  import opened SymbolicBytes
  import opened TxFormat
  import opened Inclusion

  function ParentOf(left: Word, right: Word): Word {
    var both: Bytes := left + right;
    Sha256(Sha256(both))
  }

  /** The parents of a level's nodes. */
  function Parents(nodes: seq<Word>): (r: seq<Word>)
    ensures |r| == (|nodes| + 1) / 2
  {
    seq((|nodes| + 1) / 2, j requires 0 <= j < (|nodes| + 1) / 2 =>
      ParentOf(nodes[2 * j], nodes[Min(2 * j + 1, |nodes| - 1)]))
  }

  function TransactionRoot(nodes: seq<Word>): Word
    requires nodes != []
    decreases |nodes|
  {
    if |nodes| == 1 then nodes[0] else TransactionRoot(Parents(nodes))
  }

  /** The number of levels above a list of `n` nodes. */
  function Levels(n: nat): nat
    requires n > 0
  {
    if n == 1 then 0 else 1 + Levels((n + 1) / 2)
  }

  /** The other child of a node's parent; an odd last node is its own. */
  function Sibling(p: nat, n: nat): nat
    requires p < n
  {
    if p % 2 == 1 then p - 1 else Min(p + 1, n - 1)
  }

  function PathOf(nodes: seq<Word>, p: nat): (r: seq<Word>)
    requires p < |nodes|
    ensures |r| == Levels(|nodes|)
    decreases |nodes|
  {
    if |nodes| == 1 then [] else [nodes[Sibling(p, |nodes|)]] + PathOf(Parents(nodes), p / 2)
  }

  /** The position the index bits select, read from the root down; a missing right node is its left one. */
  function Selected(n: nat, index: nat): (r: nat)
    requires n > 0
    ensures r < n
  {
    if n == 1 then 0 else Min(2 * Selected((n + 1) / 2, index / 2) + index % 2, n - 1)
  }

  lemma {:induction false} SelectedInRange(n: nat, index: nat)
    requires index < n
    ensures Selected(n, index) == index
    decreases n
  {
    if n > 1 {
      SelectedInRange((n + 1) / 2, index / 2);
    }
  }

  /** One level: the fold's step with a node's sibling gives its parent, on the side the index says. */
  lemma StepIsParent(nodes: seq<Word>, index: nat, q: nat)
    requires |nodes| > 1 && q < (|nodes| + 1) / 2
    ensures var p := Min(2 * q + index % 2, |nodes| - 1);
            && p / 2 == q && BitcoinStep(nodes[p], index, nodes[Sibling(p, |nodes|)]) == Parents(nodes)[q]
  {
    hide Sha256;
  }

  /** And it is given by nothing else. */
  lemma StepDetermines(nodes: seq<Word>, index: nat, q: nat, hash: Word, node: Word)
    requires |nodes| > 1 && q < (|nodes| + 1) / 2
    requires BitcoinStep(hash, index, node) == Parents(nodes)[q]
    ensures var p := Min(2 * q + index % 2, |nodes| - 1);
            hash == nodes[p] && node == nodes[Sibling(p, |nodes|)]
  {
    var left, right := nodes[2 * q], nodes[Min(2 * q + 1, |nodes| - 1)];
    hide Sha256;
    if index % 2 == 0 {
      DoublePairInjective(hash, node, left, right);
    } else {
      DoublePairInjective(node, hash, left, right);
    }
  }

  lemma DoublePairInjective(a: Word, b: Word, c: Word, d: Word)
    requires DoubleSha256(a + b) == ParentOf(c, d)
    ensures a == c && b == d
  {
    DoubleSha256Injective(a + b, c + d);
    assert a == (a + b)[..32] && b == (a + b)[32..] && c == (c + d)[..32] && d == (c + d)[32..];
  }

  /** Of one level: the rest of the path decides the parent, the step the node and its sibling. */
  lemma LevelAcceptedIff(nodes: seq<Word>, hash: Word, index: nat, path: seq<Word>)
    requires |nodes| > 1 && |path| == Levels(|nodes|)
    requires var q := Selected((|nodes| + 1) / 2, index / 2);
             BitcoinFold(BitcoinStep(hash, index, path[0]), index / 2, path[1..]) == TransactionRoot(Parents(nodes))
             <==> BitcoinStep(hash, index, path[0]) == Parents(nodes)[q] && path[1..] == PathOf(Parents(nodes), q)
    ensures var p := Selected(|nodes|, index);
            BitcoinFold(hash, index, path) == TransactionRoot(nodes)
            <==> hash == nodes[p] && path == PathOf(nodes, p)
  {
    var n := |nodes|;
    var q, p := Selected((n + 1) / 2, index / 2), Selected(n, index);
    StepIsParent(nodes, index, q);
    assert p == Min(2 * q + index % 2, n - 1);
    assert BitcoinFold(hash, index, path) == BitcoinFold(BitcoinStep(hash, index, path[0]), index / 2, path[1..]);
    PathHead(nodes, p, path);
    if BitcoinStep(hash, index, path[0]) == Parents(nodes)[q] {
      StepDetermines(nodes, index, q, hash, path[0]);
    }
    hide *;
  }

  lemma PathHead(nodes: seq<Word>, p: nat, path: seq<Word>)
    requires |nodes| > 1 && p < |nodes| && path != []
    ensures path == PathOf(nodes, p)
            <==> path[0] == nodes[Sibling(p, |nodes|)] && path[1..] == PathOf(Parents(nodes), p / 2)
  {
    assert path == [path[0]] + path[1..];
  }

  /**
   With as many nodes as the tree has levels, a path folds to the root exactly when it is for
   the transaction the index selects and its nodes are that transaction's siblings.
  */
  lemma {:induction false} PathAcceptedIff(nodes: seq<Word>, hash: Word, index: nat, path: seq<Word>)
    requires nodes != [] && |path| == Levels(|nodes|)
    ensures var p := Selected(|nodes|, index);
            BitcoinFold(hash, index, path) == TransactionRoot(nodes)
            <==> hash == nodes[p] && path == PathOf(nodes, p)
    decreases |nodes|
  {
    if |nodes| > 1 {
      PathAcceptedIff(Parents(nodes), BitcoinStep(hash, index, path[0]), index / 2, path[1..]);
      hide BitcoinFold, BitcoinStep, Parents, TransactionRoot, PathOf;
      LevelAcceptedIff(nodes, hash, index, path);
    }
  }

  /** The siblings of every position fold to the root. */
  lemma PathOfIsAccepted(nodes: seq<Word>, p: nat)
    requires p < |nodes|
    ensures BitcoinFold(nodes[p], p, PathOf(nodes, p)) == TransactionRoot(nodes)
  {
    SelectedInRange(|nodes|, p);
    PathAcceptedIff(nodes, nodes[p], p, PathOf(nodes, p));
  }

  /** Two transactions: the left one is hashed first. */
  lemma TwoTransactions(a: Word, b: Word)
    ensures TransactionRoot([a, b]) == DoubleSha256(a + b)
    ensures BitcoinFold(a, 0, [b]) == BitcoinFold(b, 1, [a]) == DoubleSha256(a + b)
  {
    hide Sha256;
    assert Parents([a, b]) == [DoubleSha256(a + b)];
    PathOfIsAccepted([a, b], 0);
    PathOfIsAccepted([a, b], 1);
    assert PathOf([a, b], 0) == [b] + PathOf(Parents([a, b]), 0);
    assert PathOf([a, b], 1) == [a] + PathOf(Parents([a, b]), 0);
  }

  /**
   A withdrawal placed in a block whose Merkle root is that of these transactions, by a path
   of full length, is paid by one of them.
  */
  lemma PlacedIsInBlock(w: Withdrawal, txids: seq<Word>, root: Word)
    requires WithdrawalHolds(w, root) && txids != []
    requires w.placement.header.merkleRoot == TransactionRoot(txids)
    requires |w.placement.path.nodes| == Levels(|txids|)
    ensures Txid(w.entry.Tx()) == txids[Selected(|txids|, w.placement.path.index)]
  {
    PathAcceptedIff(txids, Txid(w.entry.Tx()), w.placement.path.index, w.placement.path.nodes);
  }
}
