/** Rotations and the rebalancing pass: td_rotate_left, td_rotate_right, td_rebalance_node, td_rebalance. */
module Rebalance {
  import opened Bytes
  import opened Blocks
  import opened FreeLists
  import opened Store
  import opened Trees
  import opened Shapes

  const TD_DEPTHEXCESS := 2

  /** What the blocks look like once the heads of a left rotation are written. */
  lemma LeftRotated(m: Heap, ptr: nat, t: Tree, node: KeyHead, right: KeyHead, m': Heap)
    requires Shape(m, ptr, t) && t.Node? && t.right.Node? && Distinct(Inorder(t))
    requires HeadAt(m, ptr, node) && HeadAt(m, t.right.ptr, right) && ptr < WORD_LIMIT
    requires HeadAt(m', ptr, node.(next := right.previous)) && HeadAt(m', t.right.ptr, right.(previous := ptr))
    requires forall o | o in Inorder(t) && o != ptr && o != t.right.ptr && o in m :: o in m' && m'[o] == m[o]
    ensures Shape(m', t.right.ptr, RotatedLeft(t))
  {
    DistinctParts(t);
    DistinctParts(t.right);
    ShapeFrame(m, m', node.previous, t.left);
    ShapeFrame(m, m', right.previous, t.right.left);
    ShapeFrame(m, m', right.next, t.right.right);
  }

  lemma RightRotated(m: Heap, ptr: nat, t: Tree, node: KeyHead, left: KeyHead, m': Heap)
    requires Shape(m, ptr, t) && t.Node? && t.left.Node? && Distinct(Inorder(t))
    requires HeadAt(m, ptr, node) && HeadAt(m, t.left.ptr, left) && ptr < WORD_LIMIT
    requires HeadAt(m', ptr, node.(previous := left.next)) && HeadAt(m', t.left.ptr, left.(next := ptr))
    requires forall o | o in Inorder(t) && o != ptr && o != t.left.ptr && o in m :: o in m' && m'[o] == m[o]
    ensures Shape(m', t.left.ptr, RotatedRight(t))
  {
    DistinctParts(t);
    DistinctParts(t.left);
    ShapeFrame(m, m', node.next, t.right);
    ShapeFrame(m, m', left.previous, t.left.left);
    ShapeFrame(m, m', left.next, t.left.right);
  }

  /** A subtree at ptr hangs from the parent whose head is given, or is the whole tree. */
  ghost predicate Hooked(m: Heap, parentptr: Word, parent: KeyHead, ptr: Word, t: Tree) {
    parentptr != 0 ==>
      HeadAt(m, parentptr, parent) && parentptr !in Inorder(t) && (parent.next == ptr || parent.previous == ptr)
  }

  /** Only links of the listed nodes and the parent's link to them have changed, the latter from ptr to top. */
  ghost predicate Rehung(m: Heap, m': Heap, nodes: seq<nat>, parentptr: Word, parent: KeyHead, ptr: Word,
                         parent': KeyHead, top: Word) {
    && Relinked(m, m')
    && OnlyAt(m, m', nodes, parentptr)
    && (parentptr == 0 ==> parent' == parent)
    && (parentptr != 0 ==> parent' == Repointed(parent, ptr, top) && HeadAt(m', parentptr, parent'))
  }

  /** With no parent, the header's root is what changes, and it is written through. */
  ghost predicate RootMoved(h: Header, stored: Header, h': Header, stored': Header, parentptr: Word, top: Word) {
    if parentptr != 0 then h' == h && stored' == stored
    else h' == h.(top := top) && (stored' == h' || (stored' == stored && h' == h))
  }

  lemma MoveTop(mem: seq<Byte>, heap: Heap, free: seq<nat>, hd: Header, top: Word)
    requires IsSound(mem, heap, free, hd)
    ensures IsSound(mem, heap, free, hd.(top := top))
  {
  }

  /** The nodes a rotation touches are where the tree says they are. */
  lemma Rotating(m: Heap, ptr: nat, t: Tree)
    requires Shape(m, ptr, t) && t.Node? && Distinct(Inorder(t))
    ensures ptr == t.ptr && ptr in m && m[ptr].Key? && ptr in Inorder(t)
    ensures m[ptr].khead.next == PtrOf(t.right) && m[ptr].khead.previous == PtrOf(t.left)
    ensures t.right.Node? ==> t.right.ptr in m && m[t.right.ptr].Key? && t.right.ptr in Inorder(t) && t.right.ptr != ptr
    ensures t.left.Node? ==> t.left.ptr in m && m[t.left.ptr].Key? && t.left.ptr in Inorder(t) && t.left.ptr != ptr
    ensures t.right.Node? && t.left.Node? ==> t.right.ptr != t.left.ptr
  {
    DistinctParts(t);
    ShapeNodes(m, ptr, t);
    ShapeNodes(m, m[ptr].khead.next, t.right);
    ShapeNodes(m, m[ptr].khead.previous, t.left);
  }

  /** The three writes of a rotation, as one change of the store. */
  lemma Rehang(m: Heap, m1: Heap, m': Heap, nodes: seq<nat>, parentptr: Word, parent: KeyHead, ptr: Word,
               parent': KeyHead,
               top: Word, toph: KeyHead, node: KeyHead)
    requires ptr in m && m[ptr].Key? && top in m && m[top].Key? && ptr in nodes && top in nodes && ptr != top
    requires parentptr != 0 ==> HeadAt(m, parentptr, parent) && parentptr !in nodes
    requires parent' == if parentptr == 0 then parent else Repointed(parent, ptr, top)
    requires m1 == if parentptr == 0 then m else m[parentptr := Key(parent', m[parentptr].key)]
    requires m' == m1[top := Key(toph, m[top].key)][ptr := Key(node, m[ptr].key)]
    requires SameButLinks(m[ptr].khead, node) && SameButLinks(m[top].khead, toph)
    ensures Rehung(m, m', nodes, parentptr, parent, ptr, parent', top)
    ensures HeadAt(m', ptr, node) && HeadAt(m', top, toph)
    ensures forall o | o in nodes && o != ptr && o != top && o in m :: o in m' && m'[o] == m[o]
  {
  }

  /** Writes the three heads of a left rotation; parent is the caller's copy of the stored parent head. */
  method RotateLeft(td: Td, parentptr: Word, parent: KeyHead, ptr: Word, node: KeyHead, ghost t: Tree)
    returns (parent': KeyHead, rightptr: Word)
    requires td.Sound() && Shape(Used(td.heap), ptr, t) && HeadAt(Used(td.heap), ptr, node)
    requires t.Node? && t.right.Node? && Distinct(Inorder(t))
    requires Hooked(Used(td.heap), parentptr, parent, ptr, t)
    modifies td`mem, td`heap, td`header, td`stored
    ensures td.Sound() && Shape(Used(td.heap), rightptr, RotatedLeft(t))
    ensures Rehung(Used(old(td.heap)), Used(td.heap), Inorder(t), parentptr, parent, ptr, parent', rightptr)
    ensures RootMoved(old(td.header), old(td.stored), td.header, td.stored, parentptr, rightptr)
  {
    hide IsSound, Used, Relinked, OnlyAt;
    ghost var m := Used(td.heap);
    ShapeNodes(m, ptr, t);
    Rotating(m, ptr, t);
    rightptr := node.next;
    var right := td.ReadKeyhead(rightptr);
    var node' := node.(next := right.previous);
    var right' := right.(previous := ptr);
    parent' := parent;
    if parentptr != 0 {
      parent' := if parent.next == ptr then parent.(next := rightptr) else parent.(previous := rightptr);
      td.WriteKeyhead(parentptr, parent');
    } else {
      MoveTop(td.mem, td.heap, td.free, td.header, rightptr);
      td.header := td.header.(top := rightptr);
      td.WriteHeader();
    }
    ghost var m1 := Used(td.heap);
    td.WriteKeyhead(rightptr, right');
    td.WriteKeyhead(ptr, node');
    Rehang(m, m1, Used(td.heap), Inorder(t), parentptr, parent, ptr, parent', rightptr, right', node');
    LeftRotated(m, ptr, t, node, right, Used(td.heap));
  }

  /** Writes the three heads of a right rotation; parent is the caller's copy of the stored parent head. */
  method RotateRight(td: Td, parentptr: Word, parent: KeyHead, ptr: Word, node: KeyHead, ghost t: Tree)
    returns (parent': KeyHead, leftptr: Word)
    requires td.Sound() && Shape(Used(td.heap), ptr, t) && HeadAt(Used(td.heap), ptr, node)
    requires t.Node? && t.left.Node? && Distinct(Inorder(t))
    requires Hooked(Used(td.heap), parentptr, parent, ptr, t)
    modifies td`mem, td`heap, td`header, td`stored
    ensures td.Sound() && Shape(Used(td.heap), leftptr, RotatedRight(t))
    ensures Rehung(Used(old(td.heap)), Used(td.heap), Inorder(t), parentptr, parent, ptr, parent', leftptr)
    ensures RootMoved(old(td.header), old(td.stored), td.header, td.stored, parentptr, leftptr)
  {
    hide IsSound, Used, Relinked, OnlyAt;
    ghost var m := Used(td.heap);
    ShapeNodes(m, ptr, t);
    Rotating(m, ptr, t);
    leftptr := node.previous;
    var left := td.ReadKeyhead(leftptr);
    var node' := node.(previous := left.next);
    var left' := left.(next := ptr);
    parent' := parent;
    if parentptr != 0 {
      parent' := if parent.next == ptr then parent.(next := leftptr) else parent.(previous := leftptr);
      td.WriteKeyhead(parentptr, parent');
    } else {
      MoveTop(td.mem, td.heap, td.free, td.header, leftptr);
      td.header := td.header.(top := leftptr);
      td.WriteHeader();
    }
    ghost var m1 := Used(td.heap);
    td.WriteKeyhead(leftptr, left');
    td.WriteKeyhead(ptr, node');
    Rehang(m, m1, Used(td.heap), Inorder(t), parentptr, parent, ptr, parent', leftptr, left', node');
    RightRotated(m, ptr, t, node, left, Used(td.heap));
  }

  // ------------------------------------------------------------ the pass

  /** Only links of the listed nodes have changed. */
  ghost predicate Changed(m: Heap, m': Heap, nodes: seq<nat>) {
    Relinked(m, m') && forall o | o in m && o !in nodes :: o in m' && m'[o] == m[o]
  }

  /**
   * After the pass over a left subtree, its node's stored head and the copy in memory both point at what it has
   * become.
   */
  lemma LeftDone(m: Heap, m': Heap, ptr: Word, t: Tree, node: KeyHead, node': KeyHead, l: Tree)
    requires Shape(m, ptr, t) && t.Node? && t.left.Node? && Distinct(Inorder(t)) && HeadAt(m, ptr, node)
    requires Inorder(l) == Inorder(t.left) && Shape(m', PtrOf(l), l) && PtrOf(l) < WORD_LIMIT
    requires Rehung(m, m', Inorder(t.left), ptr, node, node.previous, node', PtrOf(l))
    ensures Shape(m', ptr, Node(l, ptr, t.right)) && HeadAt(m', ptr, node')
    ensures Inorder(Node(l, ptr, t.right)) == Inorder(t)
    ensures Changed(m, m', Inorder(t))
  {
    DistinctParts(t);
    Rotating(m, ptr, t);
    ShapeFrame(m, m', node.next, t.right);
  }

  lemma RightDone(m: Heap, m': Heap, ptr: Word, t: Tree, node: KeyHead, node': KeyHead, r: Tree)
    requires Shape(m, ptr, t) && t.Node? && t.right.Node? && Distinct(Inorder(t)) && HeadAt(m, ptr, node)
    requires Inorder(r) == Inorder(t.right) && Shape(m', PtrOf(r), r) && PtrOf(r) < WORD_LIMIT
    requires Rehung(m, m', Inorder(t.right), ptr, node, node.next, node', PtrOf(r))
    ensures Shape(m', ptr, Node(t.left, ptr, r)) && HeadAt(m', ptr, node')
    ensures Inorder(Node(t.left, ptr, r)) == Inorder(t)
    ensures Changed(m, m', Inorder(t))
  {
    DistinctParts(t);
    Rotating(m, ptr, t);
    ShapeFrame(m, m', node.previous, t.left);
  }

  /** A subtree that changed only inside hangs where it hung. */
  lemma StillHooked(m: Heap, m': Heap, parentptr: Word, parent: KeyHead, ptr: Word, t: Tree, t': Tree)
    requires Hooked(m, parentptr, parent, ptr, t) && Changed(m, m', Inorder(t)) && Inorder(t') == Inorder(t)
    ensures Hooked(m', parentptr, parent, ptr, t')
  {
  }

  lemma ChangedTrans(m: Heap, m1: Heap, m2: Heap, nodes: seq<nat>)
    requires Changed(m, m1, nodes) && Changed(m1, m2, nodes)
    ensures Changed(m, m2, nodes)
  {
    RelinkTrans(m, m1, m2);
  }

  lemma ChangedNone(m: Heap, nodes: seq<nat>)
    ensures Changed(m, m, nodes)
  {
  }

  /** Changes inside followed by one rehanging are one rehanging. */
  lemma RehungAfter(m: Heap, m1: Heap, m2: Heap, nodes: seq<nat>, parentptr: Word, parent: KeyHead, ptr: Word,
                    parent': KeyHead, top: Word)
    requires Changed(m, m1, nodes) && Rehung(m1, m2, nodes, parentptr, parent, ptr, parent', top)
    ensures Rehung(m, m2, nodes, parentptr, parent, ptr, parent', top)
  {
    RelinkTrans(m, m1, m2);
  }

  lemma RehungNone(m: Heap, m': Heap, nodes: seq<nat>, parentptr: Word, parent: KeyHead, ptr: Word, t: Tree)
    requires Changed(m, m', nodes) && Hooked(m, parentptr, parent, ptr, t) && nodes == Inorder(t)
    ensures Rehung(m, m', nodes, parentptr, parent, ptr, parent, ptr)
  {
  }

  /**
   * Rebalances the subtree at ptr, children first. The pass leaves the in-order sequence alone, reports
   * the number of nodes, and hands the caller's copy of the parent head back equal to the stored one.
   */
  method RebalanceNode(td: Td, parentptr: Word, parent: KeyHead, ptr: Word, ghost t: Tree)
    returns (weight: nat, parent': KeyHead, ghost top: Word)
    requires td.Sound() && Shape(Used(td.heap), ptr, t) && t.Node? && Distinct(Inorder(t))
    requires Hooked(Used(td.heap), parentptr, parent, ptr, t)
    requires parentptr == 0 ==> td.header.top == ptr
    modifies td`mem, td`heap, td`header, td`stored
    ensures td.Sound() && Shape(Used(td.heap), top, Rebalanced(t))
    ensures weight == Weight(t)
    ensures Rehung(Used(old(td.heap)), Used(td.heap), Inorder(t), parentptr, parent, ptr, parent', top)
    ensures RootMoved(old(td.header), old(td.stored), td.header, td.stored, parentptr, top)
    decreases t
  {
    hide IsSound, Used, Rehung, Changed, Hooked, Distinct, HeadAt;
    ghost var m := Used(td.heap);
    var node, leftweight, rightweight;
    ghost var mid;
    node, leftweight, rightweight, mid := RebalanceChildren(td, ptr, t);
    StillHooked(m, Used(td.heap), parentptr, parent, ptr, t, mid);
    Rotating(Used(td.heap), ptr, mid);
    ghost var m1 := Used(td.heap);
    if leftweight > rightweight + 1 {
      parent', top := RotateRight(td, parentptr, parent, ptr, node, mid);
      RehungAfter(m, m1, Used(td.heap), Inorder(t), parentptr, parent, ptr, parent', top);
    } else if rightweight > leftweight + 1 {
      parent', top := RotateLeft(td, parentptr, parent, ptr, node, mid);
      RehungAfter(m, m1, Used(td.heap), Inorder(t), parentptr, parent, ptr, parent', top);
    } else {
      parent', top := parent, ptr;
      RehungNone(m, m1, Inorder(t), parentptr, parent, ptr, t);
    }
    weight := leftweight + rightweight + 1;
  }

  /** The recursive half of the pass: both subtrees, with the node's head kept up to date in memory. */
  method RebalanceChildren(td: Td, ptr: Word, ghost t: Tree)
    returns (node: KeyHead, leftweight: nat, rightweight: nat, ghost mid: Tree)
    requires td.Sound() && Shape(Used(td.heap), ptr, t) && t.Node? && Distinct(Inorder(t))
    modifies td`mem, td`heap, td`header, td`stored
    ensures td.Sound() && td.header == old(td.header) && td.stored == old(td.stored)
    ensures mid == Node(Rebalanced(t.left), ptr, Rebalanced(t.right)) && Inorder(mid) == Inorder(t)
    ensures Shape(Used(td.heap), ptr, mid) && HeadAt(Used(td.heap), ptr, node)
    ensures leftweight == Weight(t.left) && rightweight == Weight(t.right)
    ensures Changed(Used(old(td.heap)), Used(td.heap), Inorder(t))
    decreases t, 0
  {
    hide IsSound, Used, Rehung, Changed;
    ghost var m := Used(td.heap);
    Rotating(m, ptr, t);
    DistinctParts(t);
    node := td.ReadKeyhead(ptr);
    leftweight, rightweight := 0, 0;
    ghost var top;
    mid := Node(Rebalanced(t.left), ptr, t.right);
    ChangedNone(m, Inorder(t));
    if node.previous != 0 {
      ghost var node0 := node;
      leftweight, node, top := RebalanceNode(td, ptr, node, node.previous, t.left);
      LeftDone(m, Used(td.heap), ptr, t, node0, node, Rebalanced(t.left));
    }
    ghost var m1, node1 := Used(td.heap), node;
    assert Shape(m1, ptr, mid) && Inorder(mid) == Inorder(t);
    if node.next != 0 {
      Rotating(m1, ptr, mid);
      rightweight, node, top := RebalanceNode(td, ptr, node, node.next, t.right);
      RightDone(m1, Used(td.heap), ptr, mid, node1, node, Rebalanced(t.right));
      ChangedTrans(m, m1, Used(td.heap), Inorder(t));
      mid := Node(Rebalanced(t.left), ptr, Rebalanced(t.right));
    }
  }

  /** The number of bits of n. */
  function Bits(n: nat): (b: nat)
    ensures n > 0 ==> b > 0 && Pow2(b - 1) <= n < Pow2(b)
  {
    if n == 0 then 0 else 1 + Bits(n / 2)
  }

  method Log2(n: nat) returns (r: nat)
    ensures r == Bits(n) && (n == 0 ==> r == 0)
    ensures n > 0 ==> r > 0 && Pow2(r - 1) <= n < Pow2(r)
  {
    r := 0;
    var left := n;
    while left != 0
      invariant r + Bits(left) == Bits(n)
    {
      left := left / 2;
      r := r + 1;
    }
  }

  lemma {:induction false} Pow2Grows(a: nat, b: nat)
    requires a <= b
    ensures 0 < Pow2(a) <= Pow2(b)
    decreases b
  {
    if a < b {
      Pow2Grows(a, b - 1);
    } else if b > 0 {
      Pow2Grows(a - 1, b - 1);
    }
  }

  lemma BitsAre(n: nat, k: nat)
    requires 0 < k && Pow2(k - 1) <= n < Pow2(k)
    ensures Bits(n) == k
  {
    hide Pow2, Bits;
    var b := Bits(n);
    Pow2Grows(0, k - 1);
    if b < k {
      Pow2Grows(b, k - 1);
    } else if b > k {
      Pow2Grows(k, b - 1);
    }
  }

  /**
   * What is made of a tree after a put or a delete, and of the depth of the deepest search so far: if that is
   * deep enough a pass is made.
   */
  ghost predicate Settled(t: Tree, depth: nat, t': Tree, depth': nat) {
    if Weight(t) < 2 || depth < Bits(Weight(t)) * TD_DEPTHEXCESS then t' == t && depth' == depth
    else t' == Rebalanced(t) && depth' == Bits(Weight(t))
  }

  /**
   * With from 2^(k-1) to 2^k - 1 nodes, two at least, a search 2k deep is what it takes. Then a side that was
   * too light gets heavier, and nothing changes just when no side was.
   */
  lemma SettledMeans(t: Tree, depth: nat, t': Tree, depth': nat, k: nat)
    requires Settled(t, depth, t', depth')
    ensures Inorder(t') == Inorder(t)
    ensures Weight(t) < 2 ==> t' == t && depth' == depth
    ensures 0 < k && 2 <= Weight(t) && Pow2(k - 1) <= Weight(t) < Pow2(k) ==>
              if depth < 2 * k then t' == t && depth' == depth
              else
                && depth' == k && t.Node? && t'.Node? && (t' == t <==> Even(t))
                && (Weight(t.right) > Weight(t.left) + 1 ==> Weight(t'.left) > Weight(t.left))
                && (Weight(t.left) > Weight(t.right) + 1 ==> Weight(t'.right) > Weight(t.right))
  {
    hide Rebalanced, Even, Bits;
    EvenStays(t);
    if 0 < k && 2 <= Weight(t) && Pow2(k - 1) <= Weight(t) < Pow2(k) {
      BitsAre(Weight(t), k);
      PassShiftsWeight(t);
    }
  }

  /** A chain of three nodes or more, searched to 2k deep, comes out one lower. */
  lemma SettledChain(w: seq<nat>, depth: nat, t': Tree, depth': nat, k: nat)
    requires Settled(RightChain(w), depth, t', depth') && |w| >= 3
    requires 0 < k && Pow2(k - 1) <= |w| < Pow2(k) && depth >= 2 * k
    ensures t' == Node(RightChain(w[..|w| - 2]), w[|w| - 2], RightChain(w[|w| - 1..]))
    ensures Height(RightChain(w)) == |w| && Height(t') == |w| - 1 && depth' == k
  {
    hide Rebalanced, RightChain, Bits, Height;
    BitsAre(|w|, k);
    PassOverRightChain(w);
    RightChainLowered(w);
  }

  lemma SettledSame(t: Tree, depth: nat)
    requires t.Leaf? || Weight(t) < 2 || depth < Bits(Weight(t)) * TD_DEPTHEXCESS
    ensures Settled(t, depth, t, depth)
  {
  }

  lemma SettledPass(t: Tree, depth: nat)
    requires 2 <= Weight(t) && depth >= Bits(Weight(t)) * TD_DEPTHEXCESS
    ensures Settled(t, depth, Rebalanced(t), Bits(Weight(t)))
  {
  }

  lemma ChangedRelinks(m: Heap, m': Heap, nodes: seq<nat>)
    requires Changed(m, m', nodes)
    ensures Relinked(m, m')
  {
  }

  /** Makes a pass if the deepest search so far was deep enough. */
  method RebalanceTree(td: Td)
    requires td.Sound() && Shape(Used(td.heap), td.header.top, td.tree) && Distinct(Inorder(td.tree))
    requires td.header.nentries == Weight(td.tree)
    modifies td`mem, td`heap, td`header, td`stored, td`tree, td`maxdepth
    ensures td.Sound() && Shape(Used(td.heap), td.header.top, td.tree)
    ensures Settled(old(td.tree), old(td.maxdepth), td.tree, td.maxdepth)
    ensures Inorder(td.tree) == Inorder(old(td.tree))
    ensures Changed(Used(old(td.heap)), Used(td.heap), Inorder(td.tree))
    ensures td.header == old(td.header).(top := td.header.top)
    ensures old(td.stored) == old(td.header) ==> td.stored == td.header
  {
    hide IsSound, Used, Rehung, Changed, Settled, Rebalanced, Bits, Distinct, HeadAt;
    ghost var m := Used(td.heap);
    NoNull(td.mem, td.heap, td.free, td.header);
    ChangedNone(m, Inorder(td.tree));
    var bits := Log2(td.header.nentries);
    var depthfactor := bits * TD_DEPTHEXCESS;
    if td.header.top == 0 || td.header.nentries < 2 || td.maxdepth < depthfactor {
      SettledSame(td.tree, td.maxdepth);
      return;
    }
    SettledPass(td.tree, td.maxdepth);
    var none := KeyHead(0, 0, 0, 0, 0, 0);
    var weight, unused;
    ghost var top;
    weight, unused, top := RebalanceNode(td, 0, none, td.header.top, td.tree);
    RehungRoot(m, Used(td.heap), Inorder(td.tree), none, old(td.header).top, unused, top);
    td.tree := Rebalanced(td.tree);
    td.maxdepth := depthfactor / 2;
  }

  lemma RehungRoot(m: Heap, m': Heap, nodes: seq<nat>, parent: KeyHead, ptr: Word, parent': KeyHead, top: Word)
    requires Rehung(m, m', nodes, 0, parent, ptr, parent', top) && 0 !in m
    ensures Changed(m, m', nodes)
  {
  }
}
