/** Moving along a path: td_iterate_to_min, td_iterate_to_max, td_path_next, td_path_previous. */
module Walks {
  import opened Bytes
  import opened Blocks
  import opened Store
  import opened Trees
  import opened Shapes
  import opened Paths

  /** The struct path; the head pointer is the last element of the stack. */
  class Path {
    var stack: Stack

    constructor (ptr: Word)
      ensures stack == [Elt(ptr, KeyHead(0, 0, 0, 0, 0, 0), 0)]
    {
      stack := [Elt(ptr, KeyHead(0, 0, 0, 0, 0, 0), 0)];
    }
  }

  /** Descends to the leftmost node below the path. It fails only on a tree too deep for the stack. */
  method IterateToMin(td: Td, path: Path, ghost t: Tree, ghost root: nat) returns (r: Status)
    requires td.Sound() && Shape(Used(td.heap), root, t) && Pending(Used(td.heap), t, path.stack)
    modifies path
    ensures r == Ok || r == Struct
    ensures |old(path.stack)| + Height(Sub(t, old(path.stack))) <= TD_MAXDEPTH ==> r == Ok
    ensures r == Ok ==> Resting(Used(td.heap), t, path.stack)
    ensures r == Ok ==> Pos(t, path.stack) == Base(t, old(path.stack))
    ensures r == Ok ==> Sub(t, path.stack).Node? && Sub(t, path.stack).left == Leaf
    ensures r == Ok ==> Init(old(path.stack)) <= path.stack
    decreases Sub(t, path.stack)
  {
    hide IsSound, Used, Pending, Resting, OnPath, Sub, Base, Height, Child, Weight;
    ghost var m, s0 := Used(td.heap), path.stack;
    PendingStored(m, t, s0, root);
    if |path.stack| == 0 || |path.stack| >= TD_MAXDEPTH {
      NodeHigh(m, t, s0);
      return Struct;
    }
    var e := Top(path.stack);
    var head := td.ReadKeyhead(e.ptr);
    LoadedRests(m, t, s0, root, head);
    WeightNode(Sub(t, s0));
    LeafWeighs();
    if head.previous == 0 {
      path.stack := Loaded(path.stack, head, 0);
      r := Ok;
    } else {
      LoadedGoesOn(m, t, s0, root, head, -1, head.previous);
      ChildHeight(Sub(t, s0), -1);
      path.stack := Loaded(path.stack, head, -1) + [Fresh(head.previous)];
      r := IterateToMin(td, path, t, root);
    }
  }

  /** Descends to the rightmost node below the path. It fails only on a tree too deep for the stack. */
  method IterateToMax(td: Td, path: Path, ghost t: Tree, ghost root: nat) returns (r: Status)
    requires td.Sound() && Shape(Used(td.heap), root, t) && Pending(Used(td.heap), t, path.stack)
    modifies path
    ensures r == Ok || r == Struct
    ensures |old(path.stack)| + Height(Sub(t, old(path.stack))) <= TD_MAXDEPTH ==> r == Ok
    ensures r == Ok ==> Resting(Used(td.heap), t, path.stack)
    ensures r == Ok ==> Pos(t, path.stack) == Base(t, old(path.stack)) + Weight(Sub(t, old(path.stack))) - 1
    ensures r == Ok ==> Sub(t, path.stack).Node? && Sub(t, path.stack).right == Leaf
    ensures r == Ok ==> Init(old(path.stack)) <= path.stack
    decreases Sub(t, path.stack)
  {
    hide IsSound, Used, Pending, Resting, OnPath, Sub, Base, Height, Child, Weight;
    ghost var m, s0 := Used(td.heap), path.stack;
    PendingStored(m, t, s0, root);
    if |path.stack| == 0 || |path.stack| >= TD_MAXDEPTH {
      NodeHigh(m, t, s0);
      return Struct;
    }
    var e := Top(path.stack);
    var head := td.ReadKeyhead(e.ptr);
    LoadedRests(m, t, s0, root, head);
    WeightNode(Sub(t, s0));
    LeafWeighs();
    if head.next == 0 {
      path.stack := Loaded(path.stack, head, 0);
      r := Ok;
    } else {
      LoadedGoesOn(m, t, s0, root, head, 1, head.next);
      ChildHeight(Sub(t, s0), 1);
      path.stack := Loaded(path.stack, head, 1) + [Fresh(head.next)];
      r := IterateToMax(td, path, t, root);
    }
  }

  lemma NodeHigh(m: Heap, t: Tree, s: Stack)
    requires Pending(m, t, s)
    ensures |s| > 0 && Height(Sub(t, s)) > 0
  {
  }

  lemma LeafWeighs()
    ensures Weight(Leaf) == 0
  {
  }

  /** The path is at an ancestor of the node at place k, which is the last one on the side the mark names. */
  ghost predicate NextOf(m: Heap, t: Tree, s: Stack, k: nat) {
    if s == [] then k + 1 == |Inorder(t)| else
      && OnPath(m, t, s)
      && (Top(s).cmp == -1 || Top(s).cmp == 1)
      && k + 1 == if Top(s).cmp == -1 then Pos(t, s) else Base(t, s) + Weight(Sub(t, s))
  }

  /** The same with the node at place k the first one on that side. */
  ghost predicate PreviousOf(m: Heap, t: Tree, s: Stack, k: nat) {
    if s == [] then k == 0 else
      && OnPath(m, t, s)
      && (Top(s).cmp == -1 || Top(s).cmp == 1)
      && k == if Top(s).cmp == 1 then Pos(t, s) + 1 else Base(t, s)
  }

  lemma RestingNode(m: Heap, t: Tree, s: Stack)
    requires Resting(m, t, s)
    ensures |s| > 0 && Sub(t, s).Node? && OnPath(m, t, s)
  {
  }

  lemma NextStarts(m: Heap, t: Tree, s: Stack, root: nat)
    requires Resting(m, t, s) && Shape(m, root, t)
    ensures |s| > 0
    ensures Top(s).head.next == 0 ==> NextOf(m, t, Init(s), Pos(t, s))
  {
    SubShape(m, t, root, s);
    WeightNode(Sub(t, s));
    if |s| > 1 {
      WeightNode(Sub(t, Init(s)));
    }
  }

  lemma PreviousStarts(m: Heap, t: Tree, s: Stack, root: nat)
    requires Resting(m, t, s) && Shape(m, root, t)
    ensures |s| > 0
    ensures Top(s).head.previous == 0 ==> PreviousOf(m, t, Init(s), Pos(t, s))
  {
    SubShape(m, t, root, s);
    WeightNode(Sub(t, s));
  }

  lemma NextPushed(m: Heap, t: Tree, s: Stack, root: nat)
    requires Resting(m, t, s) && Shape(m, root, t) && Top(s).head.next != 0
    ensures var s' := Marked(s, 1) + [Fresh(Top(s).head.next)];
            && Pending(m, t, s') && Base(t, s') == Pos(t, s) + 1
            && |s'| + Height(Sub(t, s')) <= Height(t) + 1
            && Base(t, s') < |Inorder(t)|
  {
    var s' := Marked(s, 1) + [Fresh(Top(s).head.next)];
    Pushed(m, t, root, s, 1, Fresh(Top(s).head.next));
    DepthBound(t, s');
    SubRange(t, s');
    WeightNode(Sub(t, s'));
  }

  lemma PreviousPushed(m: Heap, t: Tree, s: Stack, root: nat)
    requires Resting(m, t, s) && Shape(m, root, t) && Top(s).head.previous != 0
    ensures var s' := Marked(s, -1) + [Fresh(Top(s).head.previous)];
            && Pending(m, t, s') && Base(t, s') + Weight(Sub(t, s')) == Pos(t, s)
            && |s'| + Height(Sub(t, s')) <= Height(t) + 1
            && 0 < Pos(t, s)
  {
    var s' := Marked(s, -1) + [Fresh(Top(s).head.previous)];
    Pushed(m, t, root, s, -1, Fresh(Top(s).head.previous));
    DepthBound(t, s');
    WeightNode(Sub(t, s'));
  }

  lemma NextFound(m: Heap, t: Tree, s: Stack, k: nat)
    requires NextOf(m, t, s, k) && s != [] && Top(s).cmp == -1
    ensures Resting(m, t, Marked(s, 0)) && Pos(t, Marked(s, 0)) == k + 1
    ensures Sub(t, Marked(s, 0)).Node?
  {
    MarkedSame(m, t, s, 0);
  }

  lemma PreviousFound(m: Heap, t: Tree, s: Stack, k: nat)
    requires PreviousOf(m, t, s, k) && s != [] && Top(s).cmp == 1
    ensures Resting(m, t, Marked(s, 0)) && Pos(t, Marked(s, 0)) == k - 1
    ensures Sub(t, Marked(s, 0)).Node?
  {
    MarkedSame(m, t, s, 0);
  }

  lemma NextPopped(m: Heap, t: Tree, s: Stack, k: nat)
    requires NextOf(m, t, s, k) && s != [] && Top(s).cmp != -1
    ensures NextOf(m, t, Init(s), k)
  {
    if |s| > 1 {
      WeightNode(Sub(t, Init(s)));
    }
  }

  lemma PreviousPopped(m: Heap, t: Tree, s: Stack, k: nat)
    requires PreviousOf(m, t, s, k) && s != [] && Top(s).cmp != 1
    ensures PreviousOf(m, t, Init(s), k)
  {
  }

  lemma NextOver(m: Heap, t: Tree, k: nat)
    requires NextOf(m, t, [], k)
    ensures k + 1 == |Inorder(t)|
  {
  }

  lemma PreviousOver(m: Heap, t: Tree, k: nat)
    requires PreviousOf(m, t, [], k)
    ensures k == 0
  {
  }

  /** Moves the path to the in-order successor, or off the tree when there is none. */
  method PathNext(td: Td, path: Path, ghost t: Tree, ghost root: nat) returns (r: Status)
    requires td.Sound() && Shape(Used(td.heap), root, t) && Resting(Used(td.heap), t, path.stack)
    modifies path
    ensures r == Ok || r == NotFound || r == Struct || r == Invalid
    ensures Height(t) < TD_MAXDEPTH ==> r == Ok || r == NotFound
    ensures r == Ok ==> Resting(Used(td.heap), t, path.stack) && Pos(t, path.stack) == Pos(t, old(path.stack)) + 1
    ensures r == NotFound ==> Pos(t, old(path.stack)) + 1 == |Inorder(t)| && path.stack == []
    ensures Pos(t, old(path.stack)) + 1 == |Inorder(t)| ==> r != Ok
  {
    hide IsSound, Used, Resting, Pending, Sub, Base, Pos, Height, Weight, Inorder, NextOf;
    ghost var m, s0 := Used(td.heap), path.stack;
    RestingNode(m, t, s0);
    ghost var k := Pos(t, s0);
    PosAt(t, s0);
    DepthBound(t, s0);
    NextStarts(m, t, s0, root);
    if Top(path.stack).head.next != 0 {
      if |path.stack| < TD_MAXPATH {
        var e := Top(path.stack);
        NextPushed(m, t, s0, root);
        path.stack := Marked(path.stack, 1) + [Fresh(e.head.next)];
        r := IterateToMin(td, path, t, root);
        return;
      } else {
        return Invalid;
      }
    }
    path.stack := Init(path.stack);
    while |path.stack| != 0
      invariant NextOf(m, t, path.stack, k)
      invariant Height(t) < TD_MAXDEPTH ==> |path.stack| <= TD_MAXDEPTH
      decreases |path.stack|
    {
      if Top(path.stack).cmp == -1 {
        NextFound(m, t, path.stack, k);
        path.stack := Marked(path.stack, 0);
        PosAt(t, path.stack);
        return Ok;
      }
      NextPopped(m, t, path.stack, k);
      path.stack := Init(path.stack);
    }
    NextOver(m, t, k);
    r := NotFound;
  }

  /** Moves the path to the in-order predecessor, or off the tree when there is none. */
  method PathPrevious(td: Td, path: Path, ghost t: Tree, ghost root: nat) returns (r: Status)
    requires td.Sound() && Shape(Used(td.heap), root, t) && Resting(Used(td.heap), t, path.stack)
    modifies path
    ensures r == Ok || r == NotFound || r == Struct || r == Invalid
    ensures Height(t) < TD_MAXDEPTH ==> r == Ok || r == NotFound
    ensures r == Ok ==> Resting(Used(td.heap), t, path.stack) && Pos(t, path.stack) == Pos(t, old(path.stack)) - 1
    ensures r == NotFound ==> Pos(t, old(path.stack)) == 0 && path.stack == []
    ensures Pos(t, old(path.stack)) == 0 ==> r != Ok
  {
    hide IsSound, Used, Resting, Pending, Sub, Base, Pos, Height, Weight, Inorder, PreviousOf;
    ghost var m, s0 := Used(td.heap), path.stack;
    RestingNode(m, t, s0);
    ghost var k := Pos(t, s0);
    PosAt(t, s0);
    DepthBound(t, s0);
    PreviousStarts(m, t, s0, root);
    if Top(path.stack).head.previous != 0 {
      if |path.stack| < TD_MAXPATH {
        var e := Top(path.stack);
        PreviousPushed(m, t, s0, root);
        path.stack := Marked(path.stack, -1) + [Fresh(e.head.previous)];
        r := IterateToMax(td, path, t, root);
        return;
      } else {
        return Invalid;
      }
    }
    path.stack := Init(path.stack);
    while |path.stack| != 0
      invariant PreviousOf(m, t, path.stack, k)
      invariant Height(t) < TD_MAXDEPTH ==> |path.stack| <= TD_MAXDEPTH
      decreases |path.stack|
    {
      if Top(path.stack).cmp == 1 {
        PreviousFound(m, t, path.stack, k);
        path.stack := Marked(path.stack, 0);
        PosAt(t, path.stack);
        return Ok;
      }
      PreviousPopped(m, t, path.stack, k);
      path.stack := Init(path.stack);
    }
    PreviousOver(m, t, k);
    r := NotFound;
  }

  // ------------------------------------------------------------ one place, one path

  /** A path seen from the root: its first step, and the rest of it in the child's tree. */
  lemma {:induction false} FromRoot(m: Heap, t: Tree, s: Stack)
    requires OnPath(m, t, s) && |s| > 1
    ensures t.Node? && (s[0].cmp == -1 || s[0].cmp == 1)
    ensures s[0].ptr == t.ptr && HeadAt(m, s[0].ptr, s[0].head)
    ensures OnPath(m, Child(t, s[0].cmp), s[1..])
    ensures Sub(t, s) == Sub(Child(t, s[0].cmp), s[1..])
    ensures Base(t, s) == Base(Child(t, s[0].cmp), s[1..]) + if s[0].cmp < 0 then 0 else Weight(t.left) + 1
    decreases |s|
  {
    assert Init(s)[0] == s[0];
    if |s| > 2 {
      FromRoot(m, t, Init(s));
      assert Init(s[1..]) == Init(s)[1..];
    } else {
      assert Init(s) == [s[0]];
    }
  }

  /** Two resting paths of a tree at the same place are the same, marks and cached heads included. */
  lemma {:induction false} OnePath(m: Heap, t: Tree, s: Stack, s': Stack)
    requires Resting(m, t, s) && Resting(m, t, s') && Pos(t, s) == Pos(t, s')
    ensures s == s'
    decreases t
  {
    PlaceSide(m, t, s);
    PlaceSide(m, t, s');
    if |s| > 1 && |s'| > 1 {
      FromRoot(m, t, s);
      FromRoot(m, t, s');
      OnePath(m, Child(t, s[0].cmp), s[1..], s'[1..]);
      assert s == [s[0]] + s[1..] && s' == [s'[0]] + s'[1..];
    } else {
      assert s == [s[0]] && s' == [s'[0]];
    }
  }

  /** Whether a place is to the left of the root, at it or to its right shows in the first step of a path to it. */
  lemma PlaceSide(m: Heap, t: Tree, s: Stack)
    requires Resting(m, t, s)
    ensures t.Node? && s[0].ptr == t.ptr && HeadAt(m, t.ptr, s[0].head)
    ensures |s| == 1 ==> Pos(t, s) == Weight(t.left) && s[0].cmp == 0
    ensures |s| > 1 ==> (s[0].cmp == -1 && Pos(t, s) < Weight(t.left)) || (s[0].cmp == 1 && Pos(t, s) > Weight(t.left))
    ensures |s| > 1 ==> Resting(m, Child(t, s[0].cmp), s[1..])
    ensures |s| > 1 ==> Pos(t, s) == Pos(Child(t, s[0].cmp), s[1..]) + if s[0].cmp < 0 then 0 else Weight(t.left) + 1
  {
    if |s| > 1 {
      FromRoot(m, t, s);
      PosAt(Child(t, s[0].cmp), s[1..]);
    }
  }

  /** A step forward and a step back lead to the very same path, pointers, cached heads and marks included. */
  method ThereAndBack(td: Td, path: Path, ghost t: Tree, ghost root: nat) returns (there: Status, back: Status)
    requires td.Sound() && Shape(Used(td.heap), root, t) && Resting(Used(td.heap), t, path.stack)
    modifies path
    ensures there == Ok && back == Ok ==> path.stack == old(path.stack)
    ensures Height(t) < TD_MAXDEPTH && Pos(t, old(path.stack)) + 1 < |Inorder(t)| ==> there == Ok && back == Ok
  {
    hide IsSound, Used, Resting, Pos, Height, Inorder;
    ghost var s := path.stack;
    there := PathNext(td, path, t, root);
    back := there;
    if there == Ok {
      back := PathPrevious(td, path, t, root);
      if back == Ok {
        OnePath(Used(td.heap), t, s, path.stack);
      }
    }
  }

  /** And so do a step back and a step forward. */
  method BackAndThere(td: Td, path: Path, ghost t: Tree, ghost root: nat) returns (back: Status, there: Status)
    requires td.Sound() && Shape(Used(td.heap), root, t) && Resting(Used(td.heap), t, path.stack)
    modifies path
    ensures back == Ok && there == Ok ==> path.stack == old(path.stack)
    ensures Height(t) < TD_MAXDEPTH && Pos(t, old(path.stack)) > 0 ==> back == Ok && there == Ok
  {
    hide IsSound, Used, Resting, Pos, Height, Inorder;
    ghost var s := path.stack;
    RestingNode(Used(td.heap), t, s);
    PosAt(t, s);
    back := PathPrevious(td, path, t, root);
    there := back;
    if back == Ok {
      there := PathNext(td, path, t, root);
      if there == Ok {
        OnePath(Used(td.heap), t, s, path.stack);
      }
    }
  }
}
