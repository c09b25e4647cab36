/** The explicit stack from the root to a node, and what it means as a place in the in-order sequence. */
module Paths {
  import opened Blocks
  import opened Trees
  import opened Shapes

  const TD_MAXDEPTH := 128
  const TD_MAXPATH := 256

  /** A stack element: a node, its cached head, and the side on which the path goes on. */
  datatype Elt = Elt(ptr: nat, head: KeyHead, cmp: int)

  type Stack = seq<Elt>

  function Top(s: Stack): Elt
    requires |s| > 0
  {
    s[|s| - 1]
  }

  function Init(s: Stack): Stack
    requires |s| > 0
  {
    s[..|s| - 1]
  }

  /** The stack with another mark on its top. */
  function Marked(s: Stack, cmp: int): (s': Stack)
    requires |s| > 0
    ensures |s'| == |s| && Init(s') == Init(s)
  {
    s[|s| - 1 := Top(s).(cmp := cmp)]
  }

  ghost function Child(t: Tree, cmp: int): Tree {
    if t.Leaf? then Leaf else if cmp < 0 then t.left else t.right
  }

  /** The subtree the path has come down to. */
  ghost function Sub(t: Tree, s: Stack): Tree
    requires |s| > 0
  {
    if |s| == 1 then t else Child(Sub(t, Init(s)), Top(Init(s)).cmp)
  }

  /** How many nodes come before that subtree in order. */
  ghost function Base(t: Tree, s: Stack): nat
    requires |s| > 0
  {
    if |s| == 1 then 0 else
      var p := Sub(t, Init(s));
      Base(t, Init(s)) + if p.Leaf? || Top(Init(s)).cmp < 0 then 0 else Weight(p.left) + 1
  }

  /** The place of the path's last node in the in-order sequence. */
  ghost function Pos(t: Tree, s: Stack): nat
    requires |s| > 0
  {
    Base(t, s) + if Sub(t, s).Leaf? then 0 else Weight(Sub(t, s).left)
  }

  /** A path whose last element has been given its offset but not yet its head. */
  ghost predicate Pending(m: Heap, t: Tree, s: Stack) {
    && |s| > 0
    && Sub(t, s).Node? && Top(s).ptr == Sub(t, s).ptr
    && (|s| > 1 ==> (Top(Init(s)).cmp == -1 || Top(Init(s)).cmp == 1) && OnPath(m, t, Init(s)))
  }

  /** A path of the tree with every head cached. */
  ghost predicate OnPath(m: Heap, t: Tree, s: Stack)
    decreases |s|
  {
    && |s| > 0
    && Sub(t, s).Node? && Top(s).ptr == Sub(t, s).ptr && HeadAt(m, Top(s).ptr, Top(s).head)
    && (|s| > 1 ==> (Top(Init(s)).cmp == -1 || Top(Init(s)).cmp == 1) && OnPath(m, t, Init(s)))
  }

  /** A path that rests at its last node. */
  ghost predicate Resting(m: Heap, t: Tree, s: Stack) {
    |s| > 0 && OnPath(m, t, s) && Top(s).cmp == 0
  }

  lemma WeightNode(t: Tree)
    requires t.Node?
    ensures Weight(t) == Weight(t.left) + 1 + Weight(t.right)
  {
  }

  /** The subtree's nodes are a stretch of the whole sequence. */
  lemma {:induction false} SubRange(t: Tree, s: Stack)
    requires |s| > 0
    ensures Base(t, s) + Weight(Sub(t, s)) <= Weight(t)
    ensures Inorder(t)[Base(t, s)..Base(t, s) + Weight(Sub(t, s))] == Inorder(Sub(t, s))
    decreases |s|
  {
    if |s| > 1 {
      SubRange(t, Init(s));
      var p, b := Sub(t, Init(s)), Base(t, Init(s));
      if p.Node? {
        var all := Inorder(t)[b..b + Weight(p)];
        if Top(Init(s)).cmp < 0 {
          assert all[..Weight(p.left)] == Inorder(p.left);
        } else {
          assert all[Weight(p.left) + 1..] == Inorder(p.right);
        }
      }
    }
  }

  lemma RootInRange(w: seq<nat>, b: nat, sub: Tree)
    requires sub.Node? && b + Weight(sub) <= |w| && w[b..b + Weight(sub)] == Inorder(sub)
    ensures b + Weight(sub.left) < |w| && w[b + Weight(sub.left)] == sub.ptr
  {
    var i := Weight(sub.left);
    assert i < Weight(sub) && Inorder(sub)[i] == sub.ptr;
    assert w[b..b + Weight(sub)][i] == w[b + i];
  }

  lemma PosAt(t: Tree, s: Stack)
    requires |s| > 0 && Sub(t, s).Node?
    ensures Pos(t, s) < |Inorder(t)| && Inorder(t)[Pos(t, s)] == Sub(t, s).ptr
  {
    hide Base, Sub, Inorder;
    SubRange(t, s);
    RootInRange(Inorder(t), Base(t, s), Sub(t, s));
  }

  lemma {:induction false} DepthBound(t: Tree, s: Stack)
    requires |s| > 0 && Sub(t, s).Node?
    ensures |s| + Height(Sub(t, s)) <= Height(t) + 1
    decreases |s|
  {
    if |s| > 1 {
      DepthBound(t, Init(s));
    }
  }

  // ------------------------------------------------------------ marks, pushes and pops

  lemma MarkedSame(m: Heap, t: Tree, s: Stack, cmp: int)
    requires |s| > 0
    ensures Sub(t, Marked(s, cmp)) == Sub(t, s) && Base(t, Marked(s, cmp)) == Base(t, s)
    ensures OnPath(m, t, s) ==> OnPath(m, t, Marked(s, cmp))
  {
  }

  lemma PendingLoaded(m: Heap, t: Tree, s: Stack, e: Elt)
    requires Pending(m, t, s) && e.ptr == Top(s).ptr && HeadAt(m, e.ptr, e.head)
    ensures OnPath(m, t, s[|s| - 1 := e])
    ensures Sub(t, s[|s| - 1 := e]) == Sub(t, s) && Base(t, s[|s| - 1 := e]) == Base(t, s)
  {
    assert Init(s[|s| - 1 := e]) == Init(s);
  }

  /** Going down one step. */
  lemma Pushed(m: Heap, t: Tree, ptr: nat, s: Stack, cmp: int, e: Elt)
    requires OnPath(m, t, s) && (cmp == -1 || cmp == 1)
    requires Shape(m, ptr, t)
    requires e.ptr == (if cmp < 0 then Top(s).head.previous else Top(s).head.next) != 0
    ensures Pending(m, t, Marked(s, cmp) + [e])
    ensures Sub(t, Marked(s, cmp) + [e]) == Child(Sub(t, s), cmp)
    ensures Base(t, Marked(s, cmp) + [e]) == Base(t, s) + if cmp < 0 then 0 else Weight(Sub(t, s).left) + 1
  {
    MarkedSame(m, t, s, cmp);
    SubShape(m, t, ptr, s);
    assert Init(Marked(s, cmp) + [e]) == Marked(s, cmp);
  }

  /** The stored links below a path are those of the subtree. */
  lemma {:induction false} SubShape(m: Heap, t: Tree, ptr: nat, s: Stack)
    requires |s| > 0 && Shape(m, ptr, t)
    requires OnPath(m, t, s)
    ensures Shape(m, Top(s).ptr, Sub(t, s))
    ensures Top(s).head.previous == PtrOf(Sub(t, s).left) && Top(s).head.next == PtrOf(Sub(t, s).right)
    ensures Shape(m, Top(s).head.previous, Sub(t, s).left) && Shape(m, Top(s).head.next, Sub(t, s).right)
    decreases |s|
  {
    if |s| > 1 {
      SubShape(m, t, ptr, Init(s));
    }
  }

  function Fresh(ptr: nat): Elt {
    Elt(ptr, KeyHead(0, 0, 0, 0, 0, 0), 0)
  }

  /** The stack once the top's head has been read: it rests there, or goes on to a child. */
  function Loaded(s: Stack, head: KeyHead, cmp: int): Stack
    requires |s| > 0
  {
    s[|s| - 1 := Elt(Top(s).ptr, head, cmp)]
  }

  lemma PendingStored(m: Heap, t: Tree, s: Stack, root: nat)
    requires Pending(m, t, s) && Shape(m, root, t)
    ensures Top(s).ptr in m && m[Top(s).ptr].Key? && Shape(m, Top(s).ptr, Sub(t, s))
  {
    if |s| > 1 {
      SubShape(m, t, root, Init(s));
    }
  }

  /** Stopping at a pending node. */
  lemma LoadedRests(m: Heap, t: Tree, s: Stack, root: nat, head: KeyHead)
    requires Pending(m, t, s) && Shape(m, root, t) && HeadAt(m, Top(s).ptr, head)
    ensures Resting(m, t, Loaded(s, head, 0)) && Init(s) <= Loaded(s, head, 0)
    ensures Sub(t, Loaded(s, head, 0)) == Sub(t, s) && Sub(t, s).Node?
    ensures Base(t, Loaded(s, head, 0)) == Base(t, s)
    ensures head.previous == PtrOf(Sub(t, s).left) && head.next == PtrOf(Sub(t, s).right)
  {
    PendingLoaded(m, t, s, Elt(Top(s).ptr, head, 0));
    SubShape(m, t, root, Loaded(s, head, 0));
  }

  /** Going on from a pending node to a child of it. */
  lemma LoadedGoesOn(m: Heap, t: Tree, s: Stack, root: nat, head: KeyHead, cmp: int, ptr: nat)
    requires Pending(m, t, s) && Shape(m, root, t) && HeadAt(m, Top(s).ptr, head)
    requires cmp == -1 || cmp == 1
    requires ptr == (if cmp < 0 then head.previous else head.next) != 0
    ensures var s' := Loaded(s, head, cmp) + [Fresh(ptr)];
            && Pending(m, t, s') && Sub(t, s).Node?
            && Init(s) <= Init(s') && |s'| == |s| + 1
            && Sub(t, s') == Child(Sub(t, s), cmp)
            && Base(t, s') == Base(t, s) + if cmp < 0 then 0 else Weight(Sub(t, s).left) + 1
  {
    var e := Elt(Top(s).ptr, head, 0);
    var s1 := Loaded(s, head, 0);
    PendingLoaded(m, t, s, e);
    Pushed(m, t, root, s1, cmp, Fresh(ptr));
    assert Marked(s1, cmp) + [Fresh(ptr)] == Loaded(s, head, cmp) + [Fresh(ptr)];
    assert Init(Loaded(s, head, cmp) + [Fresh(ptr)]) == Loaded(s, head, cmp);
  }

  lemma ChildHeight(t: Tree, cmp: int)
    requires t.Node?
    ensures Height(Child(t, cmp)) < Height(t)
    ensures Child(t, cmp) == if cmp < 0 then t.left else t.right
  {
  }
}
