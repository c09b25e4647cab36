/** Finding a key: td_iterate_compare, td_iterate_to_key, td_iterate. */
module Search {
  import opened Bytes
  import opened Blocks
  import opened Store
  import opened Trees
  import opened Shapes
  import opened Paths
  import opened Walks
  import opened Keys
  import opened Chains
  import Checksums

  ghost function KeyAt(m: Heap, o: nat): seq<Byte> {
    if o in m && m[o].Key? then m[o].key else []
  }

  /** How a search key compares with the key stored at o. */
  ghost function CmpAt(m: Heap, o: nat, key: seq<Byte>, partial: bool): int {
    Compare(key, KeyAt(m, o), partial)
  }

  /** The keys of the listed nodes do not descend. */
  ghost predicate Sorted(m: Heap, w: seq<nat>) {
    forall i, j | 0 <= i < j < |w| :: Compare(KeyAt(m, w[i]), KeyAt(m, w[j]), false) <= 0
  }

  /** Exactly the first n of the listed keys are smaller than the search key. */
  ghost predicate Parts(m: Heap, w: seq<nat>, key: seq<Byte>, partial: bool, n: nat) {
    && n <= |w|
    && (forall j | 0 <= j < n :: CmpAt(m, w[j], key, partial) > 0)
    && (forall j | n <= j < |w| :: CmpAt(m, w[j], key, partial) <= 0)
  }

  ghost predicate NoMatch(m: Heap, w: seq<nat>, key: seq<Byte>, partial: bool) {
    forall j | 0 <= j < |w| :: CmpAt(m, w[j], key, partial) != 0
  }

  /**
   * Where a search may end: on the first match, or, if nothing matches, on a neighbour of the place
   * where the key would stand, with room for a child on the side the mark names.
   */
  ghost predicate Landed(m: Heap, t: Tree, s: Stack, key: seq<Byte>, partial: bool) {
    && OnPath(m, t, s)
    && Top(s).cmp == CmpAt(m, Top(s).ptr, key, partial)
    && (Top(s).cmp <= 0 ==> Parts(m, Inorder(t), key, partial, Pos(t, s)))
    && (Top(s).cmp > 0 ==> Parts(m, Inorder(t), key, partial, Pos(t, s) + 1))
    && (Top(s).cmp < 0 ==> Sub(t, s).left == Leaf)
    && (Top(s).cmp > 0 ==> Sub(t, s).right == Leaf)
    && (Top(s).cmp != 0 ==> NoMatch(m, Inorder(t), key, partial))
  }

  /** What is outside the subtree the search has come down to lies on the right sides of the key. */
  ghost predicate Narrowed(m: Heap, t: Tree, s: Stack, key: seq<Byte>, partial: bool)
    requires |s| > 0
  {
    var w, a, b := Inorder(t), Base(t, s), Base(t, s) + Weight(Sub(t, s));
    && (forall j | 0 <= j < a && j < |w| :: CmpAt(m, w[j], key, partial) > 0)
    && (forall j | b <= j < |w| :: CmpAt(m, w[j], key, partial) < 0)
  }

  lemma Falling(m: Heap, w: seq<nat>, key: seq<Byte>, partial: bool, k: nat)
    requires Sorted(m, w) && k < |w|
    ensures forall j | 0 <= j <= k :: CmpAt(m, w[j], key, partial) >= CmpAt(m, w[k], key, partial)
    ensures forall j | k <= j < |w| :: CmpAt(m, w[j], key, partial) <= CmpAt(m, w[k], key, partial)
  {
    forall j | 0 <= j < k ensures CmpAt(m, w[j], key, partial) >= CmpAt(m, w[k], key, partial) {
      CompareMonotone(key, KeyAt(m, w[j]), KeyAt(m, w[k]), partial);
    }
    forall j | k < j < |w| ensures CmpAt(m, w[j], key, partial) <= CmpAt(m, w[k], key, partial) {
      CompareMonotone(key, KeyAt(m, w[k]), KeyAt(m, w[j]), partial);
    }
  }

  /** The matches of a search, exact or partial, are one stretch of the sequence. */
  lemma MatchesAreInterval(m: Heap, w: seq<nat>, key: seq<Byte>, partial: bool, i: nat, j: nat, k: nat)
    requires Sorted(m, w) && i <= j <= k < |w|
    requires CmpAt(m, w[i], key, partial) == 0 && CmpAt(m, w[k], key, partial) == 0
    ensures CmpAt(m, w[j], key, partial) == 0
  {
    Falling(m, w, key, partial, i);
    Falling(m, w, key, partial, k);
  }

  // ------------------------------------------------------------ the steps of a search

  /** The search stands at a node and knows how the key compares with it. */
  ghost predicate Standing(m: Heap, t: Tree, s: Stack, key: seq<Byte>, partial: bool) {
    && OnPath(m, t, s) && Top(s).cmp == CmpAt(m, Top(s).ptr, key, partial)
    && Narrowed(m, t, s, key, partial)
  }

  lemma StandingPlace(m: Heap, t: Tree, s: Stack, key: seq<Byte>, partial: bool)
    requires Standing(m, t, s, key, partial) && Sorted(m, Inorder(t))
    ensures Pos(t, s) < |Inorder(t)| && Inorder(t)[Pos(t, s)] == Top(s).ptr && Sub(t, s).Node?
    ensures forall j | 0 <= j <= Pos(t, s) :: CmpAt(m, Inorder(t)[j], key, partial) >= Top(s).cmp
    ensures forall j | Pos(t, s) <= j < |Inorder(t)| :: CmpAt(m, Inorder(t)[j], key, partial) <= Top(s).cmp
  {
    PosAt(t, s);
    Falling(m, Inorder(t), key, partial, Pos(t, s));
  }

  lemma LandsHere(m: Heap, t: Tree, s: Stack, key: seq<Byte>, partial: bool)
    requires Standing(m, t, s, key, partial) && Sorted(m, Inorder(t))
    requires Top(s).cmp != 0 && Sub(t, s).Node? && (if Top(s).cmp < 0 then Sub(t, s).left else Sub(t, s).right) == Leaf
    ensures Landed(m, t, s, key, partial)
  {
    StandingPlace(m, t, s, key, partial);
    WeightNode(Sub(t, s));
  }

  lemma GoesDown(m: Heap, t: Tree, s: Stack, key: seq<Byte>, partial: bool, e: Elt)
    requires Standing(m, t, s, key, partial) && Sorted(m, Inorder(t))
    requires Top(s).cmp != 0
    ensures Narrowed(m, t, s + [e], key, partial)
  {
    StandingPlace(m, t, s, key, partial);
    WeightNode(Sub(t, s));
    assert Init(s + [e]) == s;
  }

  lemma LandsOnFirst(m: Heap, t: Tree, s: Stack, key: seq<Byte>, partial: bool)
    requires Resting(m, t, s) && Sorted(m, Inorder(t)) && CmpAt(m, Top(s).ptr, key, partial) == 0
    requires 0 < Pos(t, s) <= |Inorder(t)| ==> CmpAt(m, Inorder(t)[Pos(t, s) - 1], key, partial) != 0
    ensures Landed(m, t, s, key, partial)
  {
    PosAt(t, s);
    var w, k := Inorder(t), Pos(t, s);
    Falling(m, w, key, partial, k);
    if k > 0 {
      Falling(m, w, key, partial, k - 1);
    }
  }

  // ------------------------------------------------------------ the search

  /** What a search needs of a store. */
  ghost predicate Searchable(td: Td, t: Tree, root: nat)
    reads td
  {
    && td.Sound() && Shape(Used(td.heap), root, t)
    && Sorted(Used(td.heap), Inorder(t))
    && (td.header.flags.checksum ==> Summed(Used(td.heap)))
  }

  /** Compares the key with the one stored at ptr, which passes its checksum if checksums are kept. */
  method IterateCompare(td: Td, ptr: nat, head: KeyHead, key: seq<Byte>, partial: bool) returns (cmp: int)
    requires td.Sound() && HeadAt(Used(td.heap), ptr, head)
    requires td.header.flags.checksum ==> Summed(Used(td.heap))
    ensures cmp == CmpAt(Used(td.heap), ptr, key, partial) && -1 <= cmp <= 1
  {
    hide IsSound, Used;
    var keydata := td.ReadKeydata(ptr, head);
    if td.header.flags.checksum {
      assert SummedAt(Used(td.heap)[ptr]);
      var ok := Checksums.Verify(keydata, head.checksum);
      assert ok;
    }
    cmp := Compare(key, keydata, partial);
  }

  /** From a match, steps back over the matches before it and stays on the first of them. */
  method WalkBack(td: Td, path: Path, key: seq<Byte>, partial: bool, ghost t: Tree, ghost root: nat) returns (r: Status)
    requires Searchable(td, t, root)
    requires Resting(Used(td.heap), t, path.stack)
    requires CmpAt(Used(td.heap), Top(path.stack).ptr, key, partial) == 0
    modifies path
    ensures r == Ok || r == Struct || r == Invalid
    ensures Height(t) < TD_MAXDEPTH ==> r == Ok
    ensures r == Ok ==> Landed(Used(td.heap), t, path.stack, key, partial) && Top(path.stack).cmp == 0
  {
    hide IsSound, Used, OnPath, Sub, Base, Pos, Height, Landed, Sorted, Inorder, CmpAt;
    ghost var m := Used(td.heap);
    while true
      invariant Resting(m, t, path.stack) && CmpAt(m, Top(path.stack).ptr, key, partial) == 0
      decreases Pos(t, path.stack)
    {
      var origPath := path.stack;
      RestingNode(m, t, origPath);
      PosAt(t, origPath);
      r := PathPrevious(td, path, t, root);
      if r == Ok {
        var e := Top(path.stack);
        RestingNode(m, t, path.stack);
        PosAt(t, path.stack);
        var cmp := IterateCompare(td, e.ptr, e.head, key, partial);
        if cmp != 0 {
          LandsOnFirst(m, t, origPath, key, partial);
          path.stack := origPath;
          return Ok;
        }
        assert Marked(path.stack, cmp) == path.stack;
        path.stack := Marked(path.stack, cmp);
      } else if r == NotFound {
        LandsOnFirst(m, t, origPath, key, partial);
        path.stack := origPath;
        return Ok;
      } else {
        return r;
      }
    }
  }

  /** Searches down from a node the path has just come to. */
  method IterateToKey(td: Td, path: Path, key: seq<Byte>, partial: bool, ghost t: Tree, ghost root: nat)
    returns (r: Status)
    requires Searchable(td, t, root)
    requires Pending(Used(td.heap), t, path.stack) && Narrowed(Used(td.heap), t, path.stack, key, partial)
    modifies path
    ensures r == Ok || r == Struct || r == Invalid
    ensures Height(t) < TD_MAXDEPTH ==> r == Ok
    ensures r == Ok ==> Landed(Used(td.heap), t, path.stack, key, partial)
    decreases Sub(t, path.stack)
  {
    hide IsSound, Used, Pending, OnPath, Sub, Base, Height, Child, Weight, Pos, Landed, Sorted, Inorder, CmpAt,
      Standing, Narrowed;
    ghost var m, s0 := Used(td.heap), path.stack;
    PendingStored(m, t, s0, root);
    NodeHigh(m, t, s0);
    PendingShallow(m, t, s0);
    if |path.stack| == 0 || |path.stack| >= TD_MAXDEPTH {
      return Struct;
    }
    var e := Top(path.stack);
    var head := td.ReadKeyhead(e.ptr);
    var cmp := IterateCompare(td, e.ptr, head, key, partial);
    path.stack := Loaded(path.stack, head, cmp);
    LoadedStands(m, t, s0, root, head, cmp, key, partial);
    var next := if cmp < 0 then head.previous else head.next;
    if cmp == 0 {
      r := WalkBack(td, path, key, partial, t, root);
    } else if next != 0 {
      LoadedGoesOn(m, t, s0, root, head, cmp, next);
      ChildHeight(Sub(t, s0), cmp);
      GoesDown(m, t, path.stack, key, partial, Fresh(next));
      path.stack := path.stack + [Fresh(next)];
      r := IterateToKey(td, path, key, partial, t, root);
    } else {
      LandsHere(m, t, path.stack, key, partial);
      r := Ok;
    }
  }

  lemma PendingShallow(m: Heap, t: Tree, s: Stack)
    requires Pending(m, t, s)
    ensures |s| > 0 && |s| <= Height(t)
  {
    DepthBound(t, s);
    NodeHigh(m, t, s);
  }

  lemma LoadedStands(m: Heap, t: Tree, s: Stack, root: nat, head: KeyHead, cmp: int, key: seq<Byte>, partial: bool)
    requires Pending(m, t, s) && Shape(m, root, t) && HeadAt(m, Top(s).ptr, head) && Narrowed(m, t, s, key, partial)
    requires cmp == CmpAt(m, Top(s).ptr, key, partial) && -1 <= cmp <= 1
    ensures var s' := Loaded(s, head, cmp);
            && Standing(m, t, s', key, partial) && Sub(t, s') == Sub(t, s) && Sub(t, s).Node?
            && head.previous == PtrOf(Sub(t, s).left) && head.next == PtrOf(Sub(t, s).right)
            && (head.previous == 0 ==> Sub(t, s).left == Leaf) && (head.next == 0 ==> Sub(t, s).right == Leaf)
            && (cmp == 0 ==> Resting(m, t, s') && CmpAt(m, Top(s').ptr, key, partial) == 0)
  {
    var s' := Loaded(s, head, cmp);
    PendingLoaded(m, t, s, Elt(Top(s).ptr, head, cmp));
    SubShape(m, t, root, s');
  }

  lemma EndsAtNode(m: Heap, t: Tree, s: Stack)
    requires OnPath(m, t, s)
    ensures |s| > 0 && t.Node? && Sub(t, s).Node? && Pos(t, s) < Weight(t)
    ensures Weight(Leaf) == 0
  {
    PosAt(t, s);
    if |s| > 1 {
      FromRoot(m, t, s);
    }
  }

  /** The end of a path is the node beside the gap on one side of it just when it has no child on that side. */
  lemma {:induction false} EndIsBeside(m: Heap, t: Tree, s: Stack)
    requires OnPath(m, t, s)
    ensures Sub(t, s).Node? && Pos(t, s) < Weight(t)
    ensures Sub(t, s).left == Leaf <==> Beside(t, Pos(t, s)) == Pos(t, s)
    ensures Sub(t, s).right == Leaf <==> Beside(t, Pos(t, s) + 1) == Pos(t, s)
    decreases t
  {
    hide Inorder, CmpAt, Weight;
    EndsAtNode(m, t, s);
    WeightNode(t);
    if |s| > 1 {
      FromRoot(m, t, s);
      EndIsBeside(m, Child(t, s[0].cmp), s[1..]);
    }
  }

  /** A path is as long as its end is deep. */
  lemma {:induction false} PathDepth(m: Heap, t: Tree, s: Stack)
    requires OnPath(m, t, s)
    ensures Pos(t, s) < Weight(t) && DepthAt(t, Pos(t, s)) == |s|
    decreases t
  {
    hide Inorder, CmpAt, Weight;
    EndsAtNode(m, t, s);
    WeightNode(t);
    if |s| > 1 {
      FromRoot(m, t, s);
      PathDepth(m, Child(t, s[0].cmp), s[1..]);
    }
  }

  lemma LandedOnPath(m: Heap, t: Tree, s: Stack, key: seq<Byte>, partial: bool)
    requires Landed(m, t, s, key, partial)
    ensures OnPath(m, t, s)
  {
  }

  /** Searches from the root and takes note of how deep the search went. */
  method Iterate(td: Td, path: Path, key: seq<Byte>, partial: bool) returns (r: Status)
    requires Searchable(td, td.tree, td.header.top) && td.tree.Node?
    requires |path.stack| == 1 && path.stack[0].ptr == td.header.top
    modifies path, td`maxdepth
    ensures r == Ok || r == Struct || r == Invalid
    ensures Height(td.tree) < TD_MAXDEPTH ==> r == Ok
    ensures r == Ok ==> Landed(Used(td.heap), td.tree, path.stack, key, partial)
    ensures r == Ok ==> |path.stack| > 0 && Pos(td.tree, path.stack) < Weight(td.tree)
    ensures r == Ok ==> |path.stack| == DepthAt(td.tree, Pos(td.tree, path.stack))
    ensures r == Ok ==> td.maxdepth == if |path.stack| > old(td.maxdepth) then |path.stack| else old(td.maxdepth)
    ensures r != Ok ==> td.maxdepth == old(td.maxdepth)
  {
    hide IsSound, Used, Landed, Height, Sorted, OnPath, DepthAt, Pos;
    StartsNarrow(Used(td.heap), td.tree, path.stack, key, partial);
    r := IterateToKey(td, path, key, partial, td.tree, td.header.top);
    if r == Ok {
      LandedOnPath(Used(td.heap), td.tree, path.stack, key, partial);
      PathDepth(Used(td.heap), td.tree, path.stack);
      if |path.stack| > td.maxdepth {
        td.maxdepth := |path.stack|;
      }
    }
  }

  lemma StartsNarrow(m: Heap, t: Tree, s: Stack, key: seq<Byte>, partial: bool)
    requires |s| == 1 && t.Node? && s[0].ptr == t.ptr
    ensures Pending(m, t, s) && Narrowed(m, t, s, key, partial)
  {
  }
}
