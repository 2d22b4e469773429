/**
 Merkle branches for the coinbase: the siblings of leaf 0, level by level, computed
 before the coinbase exists (src/main.c), and folded with its txid when it does
 (src/share.c). The pair hash is a parameter.
 */
module Merkle {

  type Pairing<!T> = (T, T) -> T

  /** The parent row; the last node of an odd row is paired with itself. */
  function Parent<T>(h: Pairing<T>, row: seq<T>, i: nat): T
    requires 2 * i < |row|
  {
    h(row[2 * i], if 2 * i + 1 < |row| then row[2 * i + 1] else row[2 * i])
  }

  function Parents<T>(h: Pairing<T>, row: seq<T>): (up: seq<T>)
    ensures |up| == (|row| + 1) / 2
  {
    seq((|row| + 1) / 2, i requires 0 <= i < (|row| + 1) / 2 => Parent(h, row, i))
  }

  /** The root of the whole Bitcoin Merkle tree. */
  function Root<T>(h: Pairing<T>, leaves: seq<T>): T
    requires leaves != []
    decreases |leaves|
  {
    if |leaves| == 1 then leaves[0] else Root(h, Parents(h, leaves))
  }

  /** The sibling of node 0 in every row below the root. */
  function Branches<T>(h: Pairing<T>, row: seq<T>): seq<T>
    decreases |row|
  {
    if |row| <= 1 then [] else [row[1]] + Branches(h, Parents(h, row))
  }

  /** What the share validator computes. */
  function Fold<T>(h: Pairing<T>, leaf: T, branches: seq<T>): T {
    if branches == [] then leaf else Fold(h, h(leaf, branches[0]), branches[1..])
  }

  /** Changing leaf 0 changes nothing but node 0 of every row. */
  lemma ParentsOfTail<T>(h: Pairing<T>, a: T, b: T, rest: seq<T>)
    requires rest != []
    ensures Parents(h, [a] + rest)[1..] == Parents(h, [b] + rest)[1..]
    ensures Parents(h, [a] + rest)[0] == h(a, rest[0])
  {
    var left, right := [a] + rest, [b] + rest;
    forall i | 1 <= i < (|left| + 1) / 2 ensures Parents(h, left)[i] == Parents(h, right)[i] {
      assert left[2 * i] == right[2 * i];
    }
  }

  /** The branches do not depend on the leaf they are for, and folding them gives the root. */
  lemma {:induction false} BranchesGiveRoot<T>(h: Pairing<T>, placeholder: T, leaf: T, rest: seq<T>)
    ensures Fold(h, leaf, Branches(h, [placeholder] + rest)) == Root(h, [leaf] + rest)
    decreases |rest|
  {
    if rest != [] {
      ParentsOfTail(h, placeholder, leaf, rest);
      ParentsOfTail(h, leaf, placeholder, rest);
      var p, q := Parents(h, [placeholder] + rest), Parents(h, [leaf] + rest);
      assert p == [p[0]] + p[1..] && q == [q[0]] + q[1..];
      BranchesGiveRoot(h, p[0], q[0], p[1..]);
      var bs := Branches(h, p);
      assert Branches(h, [placeholder] + rest) == [rest[0]] + bs;
      assert ([rest[0]] + bs)[1..] == bs;
    }
  }

  // ---- the tree, top down ------------------------------------------------

  /** How many nodes the tree over `n` leaves has at a level. */
  function Width(n: nat, level: nat): (w: nat)
    ensures n > 0 ==> w > 0
  {
    if level == 0 then n else (Width(n, level - 1) + 1) / 2
  }

  lemma {:induction false} WidthAbove(n: nat, level: nat)
    ensures Width((n + 1) / 2, level) == Width(n, level + 1)
  {
    if level > 0 { WidthAbove(n, level - 1); }
  }

  /** A node joins its left child and its right one, or its left one twice if the row below ends there. */
  function Node<T>(h: Pairing<T>, leaves: seq<T>, level: nat, i: nat): T
    requires i < Width(|leaves|, level)
    decreases level
  {
    if level == 0 then leaves[i]
    else
      var right := if 2 * i + 1 < Width(|leaves|, level - 1) then 2 * i + 1 else 2 * i;
      h(Node(h, leaves, level - 1, 2 * i), Node(h, leaves, level - 1, right))
  }

  /** A row's parents are the level above it. */
  lemma {:induction false} NodeAbove<T>(h: Pairing<T>, leaves: seq<T>, level: nat, i: nat)
    requires i < Width((|leaves| + 1) / 2, level)
    ensures i < Width(|leaves|, level + 1) && Node(h, Parents(h, leaves), level, i) == Node(h, leaves, level + 1, i)
  {
    hide Parents, Width, Node;
    WidthAbove(|leaves|, level);
    if level == 0 {
      NodeStep(h, Parents(h, leaves), 0, i);
      FirstAbove(h, leaves, i);
    } else {
      var up, right := Parents(h, leaves), RightOf(Width((|leaves| + 1) / 2, level - 1), i);
      WidthAbove(|leaves|, level - 1);
      NodeStep(h, up, level, i);
      NodeStep(h, leaves, level + 1, i);
      NodeAbove(h, leaves, level - 1, 2 * i);
      NodeAbove(h, leaves, level - 1, right);
    }
  }

  function RightOf(width: nat, i: nat): nat {
    if 2 * i + 1 < width then 2 * i + 1 else 2 * i
  }

  lemma NodeStep<T>(h: Pairing<T>, leaves: seq<T>, level: nat, i: nat)
    requires i < Width(|leaves|, level)
    ensures level == 0 ==> i < |leaves| && Node(h, leaves, 0, i) == leaves[i]
    ensures level > 0 ==>
      var below := Width(|leaves|, level - 1);
      && 2 * i < below && RightOf(below, i) < below
      && Node(h, leaves, level, i)
           == h(Node(h, leaves, level - 1, 2 * i), Node(h, leaves, level - 1, RightOf(below, i)))
  {
  }

  lemma FirstAbove<T>(h: Pairing<T>, leaves: seq<T>, i: nat)
    requires i < (|leaves| + 1) / 2
    ensures i < Width(|leaves|, 1) && Node(h, Parents(h, leaves), 0, i) == Node(h, leaves, 1, i)
  {
    assert Node(h, leaves, 0, 2 * i) == leaves[2 * i];
  }

  /** The root is the node at the level where the tree is one wide. */
  lemma {:induction false} RootIsTop<T>(h: Pairing<T>, leaves: seq<T>) returns (level: nat)
    requires leaves != []
    ensures Width(|leaves|, level) == 1 && Root(h, leaves) == Node(h, leaves, level, 0)
    ensures forall l: nat :: l < level ==> Width(|leaves|, l) > 1
    decreases |leaves|
  {
    if |leaves| == 1 {
      level := 0;
    } else {
      var above := RootIsTop(h, Parents(h, leaves));
      level := above + 1;
      WidthAbove(|leaves|, above);
      NodeAbove(h, leaves, above, 0);
      forall l: nat | l < level ensures Width(|leaves|, l) > 1 {
        if l > 0 { WidthAbove(|leaves|, l - 1); }
      }
    }
  }

  function Pow2(n: nat): (p: nat)
    ensures p > 0
  {
    if n == 0 then 1 else 2 * Pow2(n - 1)
  }

  /** As many branches as the tree is high, so never more than there are transactions. */
  lemma {:induction false} BranchCount<T>(h: Pairing<T>, row: seq<T>)
    requires row != []
    ensures var n := |Branches(h, row)|;
      |row| <= Pow2(n) < 2 * |row| && n <= |row| - 1
    decreases |row|
  {
    if |row| > 1 { BranchCount(h, Parents(h, row)); }
  }

  /** Two leaves that fold to the same value exhibit a collision of the pair hash under one of the branches. */
  lemma {:induction false} EqualFoldsCollide<T>(h: Pairing<T>, a: T, b: T, branches: seq<T>) returns (x: T, z: T, y: T)
    requires a != b && Fold(h, a, branches) == Fold(h, b, branches)
    ensures y in branches && x != z && h(x, y) == h(z, y)
    decreases |branches|
  {
    assert branches != [];
    var up, down := h(a, branches[0]), h(b, branches[0]);
    if up == down {
      x, z, y := a, b, branches[0];
    } else {
      x, z, y := EqualFoldsCollide(h, up, down, branches[1..]);
    }
  }

  /** So two coinbases can share a block's Merkle root only through such a collision. */
  lemma EqualRootsCollide<T>(h: Pairing<T>, a: T, b: T, rest: seq<T>) returns (x: T, z: T, y: T)
    requires a != b && Root(h, [a] + rest) == Root(h, [b] + rest)
    ensures y in Branches(h, [a] + rest) && x != z && h(x, y) == h(z, y)
  {
    BranchesGiveRoot(h, a, a, rest);
    BranchesGiveRoot(h, a, b, rest);
    x, z, y := EqualFoldsCollide(h, a, b, Branches(h, [a] + rest));
  }

  /** One row becomes its parents in place: node i is written after 2i and 2i + 1 were read. */
  method RaiseLevel<T>(h: Pairing<T>, level: array<T>, n: nat) returns (up: nat)
    requires 1 < n <= level.Length
    modifies level
    ensures up == (n + 1) / 2
    ensures level[..up] == Parents(h, old(level[..n]))
  {
    ghost var row := level[..n];
    up := (n + 1) / 2;
    var i: nat := 0;
    while i < up
      invariant i <= up
      invariant forall k :: 0 <= k < i ==> level[k] == Parent(h, row, k)
      invariant forall k :: i <= k < n ==> level[k] == row[k]
    {
      var right := if 2 * i + 1 < n then level[2 * i + 1] else level[2 * i];
      assert level[2 * i] == row[2 * i];
      level[i] := h(level[2 * i], right);
      i := i + 1;
    }
  }

  /**
   The branches handed to every miner: with any coinbase txid they fold to the root of
   the full tree over it and the other transactions.
   */
  method ComputeBranches<T>(h: Pairing<T>, zero: T, txids: seq<T>) returns (branches: seq<T>)
    ensures branches == Branches(h, [zero] + txids)
    ensures |branches| <= |txids|
    ensures forall leaf :: Fold(h, leaf, branches) == Root(h, [leaf] + txids)
  {
    var n := |txids| + 1;
    branches := [];
    if n > 1 {
      var level := new T[n](i requires 0 <= i <= |txids| => if i == 0 then zero else txids[i - 1]);
      ghost var bottom := level[..n];
      assert bottom == [zero] + txids;
      while n > 1
        invariant 1 <= n <= level.Length
        invariant Branches(h, bottom) == branches + Branches(h, level[..n])
      {
        ghost var row := level[..n];
        branches := branches + [level[1]];
        n := RaiseLevel(h, level, n);
        assert level[..n] == Parents(h, row);
        assert Branches(h, row) == [row[1]] + Branches(h, Parents(h, row));
      }
      assert branches == Branches(h, bottom);
    }
    BranchCount(h, [zero] + txids);
    forall leaf ensures Fold(h, leaf, branches) == Root(h, [leaf] + txids) {
      BranchesGiveRoot(h, zero, leaf, txids);
    }
  }

  method RootFromBranches<T>(h: Pairing<T>, leaf: T, branches: seq<T>) returns (root: T)
    ensures root == Fold(h, leaf, branches)
  {
    root := leaf;
    var i: nat := 0;
    while i < |branches|
      invariant i <= |branches| && Fold(h, leaf, branches) == Fold(h, root, branches[i..])
    {
      assert branches[i..][0] == branches[i] && branches[i..][1..] == branches[i + 1..];
      root := h(root, branches[i]);
      i := i + 1;
    }
  }
}
