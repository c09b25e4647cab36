/** The shape of the key tree, by the offsets of its nodes, and the ways it is changed. */
module Trees {

  datatype Tree = Leaf | Node(left: Tree, ptr: nat, right: Tree)

  function PtrOf(t: Tree): nat {
    if t.Leaf? then 0 else t.ptr
  }

  ghost function Inorder(t: Tree): seq<nat> {
    match t
    case Leaf => []
    case Node(l, p, r) => Inorder(l) + [p] + Inorder(r)
  }

  lemma InorderNode(l: Tree, p: nat, r: Tree)
    ensures Inorder(Node(l, p, r)) == (Inorder(l) + [p]) + Inorder(r)
  {
  }

  ghost function Weight(t: Tree): nat {
    |Inorder(t)|
  }

  ghost function Height(t: Tree): nat {
    match t
    case Leaf => 0
    case Node(l, _, r) => 1 + if Height(l) > Height(r) then Height(l) else Height(r)
  }

  /**
   * Of the two nodes around the gap before the r-th, the one that has no child on the side of the gap:
   * where a search that finds nothing ends.
   */
  ghost function Beside(t: Tree, r: nat): (n: nat)
    requires t.Node? && r <= Weight(t)
    ensures n < Weight(t) && (n == r || n + 1 == r)
  {
    assert Weight(t) == Weight(t.left) + 1 + Weight(t.right);
    if r <= Weight(t.left) then
      if t.left.Leaf? then 0 else Beside(t.left, r)
    else
      Weight(t.left) + 1 + if t.right.Leaf? then -1 else Beside(t.right, r - Weight(t.left) - 1)
  }

  /**
   * Which of the two it is depends on the shape: with the same two nodes it may be the one before or the one
   * behind.
   */
  lemma BesideEither(a: nat, b: nat)
    ensures var t, t' := Node(Leaf, a, Node(Leaf, b, Leaf)), Node(Node(Leaf, a, Leaf), b, Leaf);
            Inorder(t) == Inorder(t') == [a, b] && Beside(t, 1) == 1 && Beside(t', 1) == 0
  {
    assert Inorder(Node(Leaf, a, Leaf)) == [a] && Inorder(Node(Leaf, b, Leaf)) == [b];
    assert Beside(Node(Leaf, b, Leaf), 0) == 0 && Beside(Node(Leaf, a, Leaf), 1) == 0;
  }

  /** How many nodes there are on the way from the root to the p-th. */
  ghost function DepthAt(t: Tree, p: nat): (d: nat)
    requires p < Weight(t)
    ensures 0 < d <= Height(t)
  {
    assert Weight(t) == Weight(t.left) + 1 + Weight(t.right);
    if p < Weight(t.left) then 1 + DepthAt(t.left, p)
    else if p == Weight(t.left) then 1
    else 1 + DepthAt(t.right, p - Weight(t.left) - 1)
  }

  lemma {:induction false} HeightAtMost(t: Tree)
    ensures Height(t) <= Weight(t)
  {
    if t.Node? {
      HeightAtMost(t.left);
      HeightAtMost(t.right);
    }
  }

  /** The tree with a new node in the gap before the r-th, below the node beside it. */
  ghost function Planted(t: Tree, r: nat, o: nat): (t': Tree)
    requires r <= Weight(t)
  {
    if t.Leaf? then Node(Leaf, o, Leaf)
    else
      assert Weight(t) == Weight(t.left) + 1 + Weight(t.right);
      if r <= Weight(t.left) then Node(Planted(t.left, r, o), t.ptr, t.right)
      else Node(t.left, t.ptr, Planted(t.right, r - Weight(t.left) - 1, o))
  }

  /** The tree with a new node between the p-th and its right subtree. */
  ghost function Wedged(t: Tree, p: nat, o: nat): (t': Tree)
    requires p < Weight(t)
  {
    assert Weight(t) == Weight(t.left) + 1 + Weight(t.right);
    if p < Weight(t.left) then Node(Wedged(t.left, p, o), t.ptr, t.right)
    else if p == Weight(t.left) then Node(t.left, t.ptr, Node(Leaf, o, t.right))
    else Node(t.left, t.ptr, Wedged(t.right, p - Weight(t.left) - 1, o))
  }

  /** The tree without its p-th node. */
  ghost function Pulled(t: Tree, p: nat): (t': Tree)
    requires p < Weight(t)
  {
    assert Weight(t) == Weight(t.left) + 1 + Weight(t.right);
    if p < Weight(t.left) then Node(Pulled(t.left, p), t.ptr, t.right)
    else if p == Weight(t.left) then WithoutRoot(t)
    else Node(t.left, t.ptr, Pulled(t.right, p - Weight(t.left) - 1))
  }

  lemma GapInLeft(l: seq<nat>, q: nat, r: seq<nat>, p: nat, o: nat)
    requires p <= |l|
    ensures ((l[..p] + [o] + l[p..]) + [q]) + r == ((l + [q]) + r)[..p] + [o] + ((l + [q]) + r)[p..]
  {
  }

  lemma GapInRight(l: seq<nat>, q: nat, r: seq<nat>, k: nat, o: nat)
    requires k <= |r|
    ensures (l + [q]) + (r[..k] + [o] + r[k..]) ==
            ((l + [q]) + r)[..|l| + 1 + k] + [o] + ((l + [q]) + r)[|l| + 1 + k..]
  {
  }

  /** A planted node is in its gap. */
  lemma {:induction false} PlantedOrder(t: Tree, r: nat, o: nat)
    requires r <= Weight(t)
    ensures Inorder(Planted(t, r, o)) == Inorder(t)[..r] + [o] + Inorder(t)[r..]
  {
    if t.Leaf? {
      assert Inorder(Node(Leaf, o, Leaf)) == [o];
    } else {
      hide Inorder;
      InorderNode(t.left, t.ptr, t.right);
      if r <= Weight(t.left) {
        PlantedOrder(t.left, r, o);
        InorderNode(Planted(t.left, r, o), t.ptr, t.right);
        GapInLeft(Inorder(t.left), t.ptr, Inorder(t.right), r, o);
      } else {
        var k := r - Weight(t.left) - 1;
        PlantedOrder(t.right, k, o);
        InorderNode(t.left, t.ptr, Planted(t.right, k, o));
        GapInRight(Inorder(t.left), t.ptr, Inorder(t.right), k, o);
      }
    }
  }

  /** It is a leaf, one step below the node beside the gap. */
  lemma {:induction false} PlantedDepth(t: Tree, r: nat, o: nat)
    requires r <= Weight(t)
    ensures Weight(Planted(t, r, o)) == Weight(t) + 1
    ensures DepthAt(Planted(t, r, o), r) == if t.Leaf? then 1 else 1 + DepthAt(t, Beside(t, r))
  {
    PlantedOrder(t, r, o);
    if t.Node? {
      assert Weight(t) == Weight(t.left) + 1 + Weight(t.right);
      hide Inorder, Weight;
      if r <= Weight(t.left) {
        PlantedDepth(t.left, r, o);
      } else {
        PlantedDepth(t.right, r - Weight(t.left) - 1, o);
      }
    }
  }

  /** A wedged node is behind the p-th. */
  lemma {:induction false} WedgedOrder(t: Tree, p: nat, o: nat)
    requires p < Weight(t)
    ensures Inorder(Wedged(t, p, o)) == Inorder(t)[..p + 1] + [o] + Inorder(t)[p + 1..]
  {
    assert t.Node? && Inorder(Leaf) == [];
    hide Inorder;
    InorderNode(t.left, t.ptr, t.right);
    if p < Weight(t.left) {
      WedgedOrder(t.left, p, o);
      InorderNode(Wedged(t.left, p, o), t.ptr, t.right);
      GapInLeft(Inorder(t.left), t.ptr, Inorder(t.right), p + 1, o);
    } else if p == Weight(t.left) {
      InorderNode(Leaf, o, t.right);
      InorderNode(t.left, t.ptr, Node(Leaf, o, t.right));
      GapInRight(Inorder(t.left), t.ptr, Inorder(t.right), 0, o);
    } else {
      var k := p - Weight(t.left);
      WedgedOrder(t.right, k - 1, o);
      InorderNode(t.left, t.ptr, Wedged(t.right, k - 1, o));
      GapInRight(Inorder(t.left), t.ptr, Inorder(t.right), k, o);
    }
  }

  /** It is one step below it. */
  lemma {:induction false} WedgedDepth(t: Tree, p: nat, o: nat)
    requires p < Weight(t)
    ensures Weight(Wedged(t, p, o)) == Weight(t) + 1
    ensures DepthAt(Wedged(t, p, o), p + 1) == 1 + DepthAt(t, p)
  {
    WedgedOrder(t, p, o);
    assert t.Node? && Weight(t) == Weight(t.left) + 1 + Weight(t.right) && Weight(Leaf) == 0;
    assert Weight(Node(Leaf, o, t.right)) == 1 + Weight(t.right);
    hide Inorder, Weight;
    if p < Weight(t.left) {
      WedgedDepth(t.left, p, o);
    } else if p > Weight(t.left) {
      WedgedDepth(t.right, p - Weight(t.left) - 1, o);
    }
  }

  lemma CutInLeft(l: seq<nat>, q: nat, r: seq<nat>, p: nat)
    requires p < |l|
    ensures ((l[..p] + l[p + 1..]) + [q]) + r == ((l + [q]) + r)[..p] + ((l + [q]) + r)[p + 1..]
  {
  }

  lemma CutAmid(l: seq<nat>, q: nat, r: seq<nat>)
    ensures l + r == ((l + [q]) + r)[..|l|] + ((l + [q]) + r)[|l| + 1..]
  {
  }

  lemma CutInRight(l: seq<nat>, q: nat, r: seq<nat>, k: nat)
    requires k < |r|
    ensures (l + [q]) + (r[..k] + r[k + 1..]) == ((l + [q]) + r)[..|l| + 1 + k] + ((l + [q]) + r)[|l| + 2 + k..]
  {
  }

  /** The p-th node is gone, and the others are in order. */
  lemma {:induction false} PulledOut(t: Tree, p: nat)
    requires p < Weight(t)
    ensures Inorder(Pulled(t, p)) == Inorder(t)[..p] + Inorder(t)[p + 1..]
  {
    assert t.Node?;
    hide WithoutRoot, Inorder;
    InorderNode(t.left, t.ptr, t.right);
    if p < Weight(t.left) {
      PulledOut(t.left, p);
      InorderNode(Pulled(t.left, p), t.ptr, t.right);
      CutInLeft(Inorder(t.left), t.ptr, Inorder(t.right), p);
    } else if p == Weight(t.left) {
      CutAmid(Inorder(t.left), t.ptr, Inorder(t.right));
    } else {
      var k := p - Weight(t.left) - 1;
      PulledOut(t.right, k);
      InorderNode(t.left, t.ptr, Pulled(t.right, k));
      CutInRight(Inorder(t.left), t.ptr, Inorder(t.right), k);
    }
  }

  // ------------------------------------------------------------ rebalancing

  /** The right child takes the root's place. */
  ghost function RotatedLeft(t: Tree): (t': Tree)
    requires t.Node? && t.right.Node?
    ensures Inorder(t') == Inorder(t)
  {
    var t' := Node(Node(t.left, t.ptr, t.right.left), t.right.ptr, t.right.right);
    assert Inorder(t') == Inorder(t.left) + [t.ptr] + Inorder(t.right.left) + [t.right.ptr] + Inorder(t.right.right);
    t'
  }

  /** The left child takes the root's place. */
  ghost function RotatedRight(t: Tree): (t': Tree)
    requires t.Node? && t.left.Node?
    ensures Inorder(t') == Inorder(t)
  {
    var t' := Node(t.left.left, t.left.ptr, Node(t.left.right, t.ptr, t.right));
    assert Inorder(t') == Inorder(t.left.left) + [t.left.ptr] + Inorder(t.left.right) + [t.ptr] + Inorder(t.right);
    t'
  }

  /** A pass: children first, then one rotation towards the lighter side if the difference exceeds one. */
  ghost function Rebalanced(t: Tree): (t': Tree)
    ensures Inorder(t') == Inorder(t)
  {
    if t.Leaf? then t else
      var mid := Node(Rebalanced(t.left), t.ptr, Rebalanced(t.right));
      if Weight(t.left) > Weight(t.right) + 1 then
        RotatedRight(mid)
      else if Weight(t.right) > Weight(t.left) + 1 then
        RotatedLeft(mid)
      else
        mid
  }

  /** After a pass the side that was too light is heavier than it was; the root stays if neither was. */
  lemma PassShiftsWeight(t: Tree)
    requires t.Node?
    ensures Rebalanced(t).Node?
    ensures Weight(t.right) > Weight(t.left) + 1 ==> Weight(Rebalanced(t).left) > Weight(t.left)
    ensures Weight(t.left) > Weight(t.right) + 1 ==> Weight(Rebalanced(t).right) > Weight(t.right)
    ensures Weight(t.left) <= Weight(t.right) + 1 && Weight(t.right) <= Weight(t.left) + 1 ==>
              Rebalanced(t).ptr == t.ptr && Weight(Rebalanced(t).left) == Weight(t.left)
  {
  }

  /** At no node does one side outweigh the other by more than one. */
  ghost predicate Even(t: Tree) {
    t.Node? ==>
      && Weight(t.left) <= Weight(t.right) + 1 && Weight(t.right) <= Weight(t.left) + 1
      && Even(t.left) && Even(t.right)
  }

  /** A pass leaves a tree as it is just when it is even. */
  lemma {:induction false} EvenStays(t: Tree)
    ensures Rebalanced(t) == t <==> Even(t)
  {
    if t.Node? {
      EvenStays(t.left);
      EvenStays(t.right);
      PassShiftsWeight(t);
    }
  }

  /** Nodes that each have the next one as their only child, on the right. */
  ghost function RightChain(w: seq<nat>): (t: Tree)
    ensures Inorder(t) == w
  {
    if w == [] then Leaf else Node(Leaf, w[0], RightChain(w[1..]))
  }

  /** The same on the left. */
  ghost function LeftChain(w: seq<nat>): (t: Tree)
    ensures Inorder(t) == w
  {
    if w == [] then Leaf else Node(LeftChain(w[..|w| - 1]), w[|w| - 1], Leaf)
  }

  /** A node planted behind the last of a chain to the right makes the chain longer. */
  lemma {:induction false} RightChainGrows(w: seq<nat>, o: nat)
    ensures Planted(RightChain(w), |w|, o) == RightChain(w + [o])
    ensures w != [] ==> Beside(RightChain(w), |w|) == |w| - 1 && DepthAt(RightChain(w), |w| - 1) == |w|
  {
    if w != [] {
      RightChainGrows(w[1..], o);
      assert (w + [o])[1..] == w[1..] + [o];
    }
  }

  lemma {:induction false} ChainHigh(w: seq<nat>)
    ensures Height(RightChain(w)) == Height(LeftChain(w)) == |w|
  {
    if w != [] {
      ChainHigh(w[1..]);
      ChainHigh(w[..|w| - 1]);
    }
  }

  /** A pass over a chain to the right brings its last node but one to the root. */
  lemma {:induction false} PassOverRightChain(w: seq<nat>)
    requires |w| >= 2
    ensures Rebalanced(RightChain(w)) == Node(RightChain(w[..|w| - 2]), w[|w| - 2], RightChain(w[|w| - 1..]))
  {
    hide Rebalanced, RightChain, Inorder, Weight;
    var n, v := |w|, w[1..];
    if n == 2 {
      ShortRightChain(w);
    } else {
      PassOverRightChain(v);
      assert v[..n - 3] == w[..n - 2][1..] && v[n - 3] == w[n - 2] && v[n - 2..] == w[n - 1..];
      RightChainStep(w);
      RightChainNode(w[..n - 2]);
    }
  }

  lemma ShortRightChain(w: seq<nat>)
    requires |w| == 2
    ensures Rebalanced(RightChain(w)) == Node(RightChain(w[..0]), w[0], RightChain(w[1..]))
  {
    assert w[1..] == [w[1]];
    assert Weight(RightChain(w[1..])) == 1;
    SingleStays(w[1]);
  }

  lemma SingleStays(o: nat)
    ensures RightChain([o]) == LeftChain([o]) == Node(Leaf, o, Leaf) == Rebalanced(Node(Leaf, o, Leaf))
  {
  }

  lemma RightChainNode(w: seq<nat>)
    requires w != []
    ensures RightChain(w) == Node(Leaf, w[0], RightChain(w[1..]))
  {
  }

  lemma RightChainStep(w: seq<nat>)
    requires |w| >= 3
    ensures Rebalanced(RightChain(w[1..])).Node?
    ensures Rebalanced(RightChain(w)) == RotatedLeft(Node(Leaf, w[0], Rebalanced(RightChain(w[1..]))))
  {
    assert Weight(RightChain(w[1..])) == |w| - 1;
    hide RightChain;
    RightChainNode(w);
  }

  /** Three nodes or more in a chain to the right are one lower after a pass. */
  lemma RightChainLowered(w: seq<nat>)
    requires |w| >= 3
    ensures Height(RightChain(w)) == |w| && Height(Rebalanced(RightChain(w))) == |w| - 1
  {
    hide Rebalanced, RightChain, LeftChain;
    PassOverRightChain(w);
    ChainHigh(w);
    ChainHigh(w[..|w| - 2]);
    ChainHigh(w[|w| - 1..]);
  }

  /** A pass over a chain to the left brings its second node to the root. */
  lemma {:induction false} PassOverLeftChain(w: seq<nat>)
    requires |w| >= 2
    ensures Rebalanced(LeftChain(w)) == Node(LeftChain(w[..1]), w[1], LeftChain(w[2..]))
  {
    hide Rebalanced, LeftChain, Inorder, Weight;
    var n, v := |w|, w[..|w| - 1];
    if n == 2 {
      ShortLeftChain(w);
    } else {
      PassOverLeftChain(v);
      assert v[..1] == w[..1] && v[2..] == w[2..][..n - 3];
      LeftChainStep(w);
      LeftChainNode(w[2..]);
    }
  }

  lemma ShortLeftChain(w: seq<nat>)
    requires |w| == 2
    ensures Rebalanced(LeftChain(w)) == Node(LeftChain(w[..1]), w[1], LeftChain(w[2..]))
  {
    assert w[..1] == [w[0]];
    assert Weight(LeftChain(w[..1])) == 1;
    SingleStays(w[0]);
  }

  lemma LeftChainNode(w: seq<nat>)
    requires w != []
    ensures LeftChain(w) == Node(LeftChain(w[..|w| - 1]), w[|w| - 1], Leaf)
  {
  }

  lemma LeftChainStep(w: seq<nat>)
    requires |w| >= 3
    ensures Rebalanced(LeftChain(w[..|w| - 1])).Node?
    ensures Rebalanced(LeftChain(w)) == RotatedRight(Node(Rebalanced(LeftChain(w[..|w| - 1])), w[|w| - 1], Leaf))
  {
    assert Weight(LeftChain(w[..|w| - 1])) == |w| - 1;
    hide LeftChain;
    LeftChainNode(w);
  }

  /** Three nodes or more in a chain to the left are one lower after a pass, too. */
  lemma LeftChainLowered(w: seq<nat>)
    requires |w| >= 3
    ensures Height(LeftChain(w)) == |w| && Height(Rebalanced(LeftChain(w))) == |w| - 1
  {
    hide Rebalanced, RightChain, LeftChain;
    PassOverLeftChain(w);
    ChainHigh(w);
    ChainHigh(w[..1]);
    ChainHigh(w[2..]);
  }

  // ------------------------------------------------------------ deleting

  /** Hangs a tree under the leftmost node. */
  ghost function Grafted(t: Tree, l: Tree): (t': Tree)
    requires t.Node?
    ensures t'.Node? && t'.ptr == t.ptr && t'.right == t.right
    ensures Inorder(t') == Inorder(l) + Inorder(t)
  {
    if t.left.Leaf? then Node(l, t.ptr, t.right) else Node(Grafted(t.left, l), t.ptr, t.right)
  }

  /** What takes the place of a deleted node. */
  ghost function WithoutRoot(t: Tree): (t': Tree)
    requires t.Node?
    ensures Inorder(t') == Inorder(t.left) + Inorder(t.right)
    ensures t.left.Node? && t.right.Node? ==> t'.Node? && t'.ptr == t.right.ptr && t'.right == t.right.right
  {
    if t.left.Node? && t.right.Node? then Grafted(t.right, t.left)
    else if t.left.Node? then t.left
    else t.right
  }
}
