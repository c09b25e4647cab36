/** Deleting the node at the end of a path: td_del_pathhead. */
module Deletes {
  import opened Bytes
  import opened Blocks
  import opened FreeLists
  import opened Store
  import opened Fitness
  import opened Allocator
  import opened Values
  import opened Trees
  import opened Shapes
  import opened Rebalance
  import opened Paths
  import opened Walks
  import opened Surgery
  import opened Chains
  import opened Search
  import opened Records
  import opened Contents
  import opened Database
  import opened Defrag
  import Checksums
  import Sorting

  // ------------------------------------------------------------ grafting

  /** Only heads of the listed nodes have been rewritten. */
  lemma GraftShape(m: Heap, ptr: nat, t: Tree, head: KeyHead, s: Stack, m': Heap)
    requires Shape(m, ptr, t) && t.Node? && t.left.Node? && Distinct(Inorder(t)) && HeadAt(m, ptr, head)
    requires Resting(m, t.right, s) && Pos(t.right, s) == 0
    requires Top(s).ptr in m && m[Top(s).ptr].Key?
    requires m' == m[Top(s).ptr := Key(Top(s).head.(previous := head.previous), m[Top(s).ptr].key)]
    ensures t.right.Node? && head.next == PtrOf(t.right) && Shape(m', head.next, Grafted(t.right, t.left))
    ensures Top(s).ptr in Inorder(t.right)
    ensures Changed(m, m', Inorder(t.right))
  {
    DistinctParts(t);
    PlaceSide(m, t.right, s);
    GraftedIsReplaced(m, t.right, s, t.left);
    SubNodes(m, t.right, s);
    SubShape(m, t.right, head.next, s);
    GraftHere(m, head, t, Top(s), Sub(t.right, s), m');
    hide Distinct, Resting, OnPath, Sub, Inorder, Shape;
    ReplacedSame(m, m', t.right, head.next, s, Node(t.left, Top(s).ptr, Sub(t.right, s).right));
    RelinkOne(m, Top(s).ptr, Top(s).head.(previous := head.previous));
  }

  lemma GraftHere(m: Heap, head: KeyHead, t: Tree, e: Elt, sub: Tree, m': Heap)
    requires t.Node? && Shape(m, head.previous, t.left) && forall o | o in Inorder(t.left) :: o !in Inorder(t.right)
    requires sub.Node? && Shape(m, e.ptr, sub) && Distinct(Inorder(sub)) && HeadAt(m, e.ptr, e.head)
    requires forall o | o in Inorder(sub) :: o in Inorder(t.right)
    requires t.left.Node?
    requires m' == m[e.ptr := Key(e.head.(previous := head.previous), m[e.ptr].key)]
    ensures Shape(m', e.ptr, Node(t.left, e.ptr, sub.right))
    ensures e.ptr in Inorder(sub) && e.ptr in Inorder(t.right)
  {
    DistinctParts(sub);
    ShapeNodes(m, e.ptr, sub);
    ShapeFrame(m, m', head.previous, t.left);
    ShapeFrame(m, m', e.head.next, sub.right);
  }

  lemma StartsAt(m: Heap, t: Tree, ptr: nat)
    requires t.Node? && ptr == t.ptr
    ensures Pending(m, t, [Fresh(ptr)]) && Base(t, [Fresh(ptr)]) == 0 && Sub(t, [Fresh(ptr)]) == t
  {
  }

  /** Hangs a node's left subtree under the leftmost node of its right one. */
  method Graft(td: Td, head: KeyHead, ghost ptr: nat, ghost t: Tree) returns (r: Status)
    requires td.Sound() && Shape(Used(td.heap), ptr, t) && t.Node? && Distinct(Inorder(t))
    requires HeadAt(Used(td.heap), ptr, head) && t.left.Node? && t.right.Node?
    modifies td`mem, td`heap
    ensures r == Ok || r == Struct
    ensures Height(t) <= TD_MAXDEPTH ==> r == Ok
    ensures td.Sound()
    ensures r == Ok ==> head.next == PtrOf(t.right) && Shape(Used(td.heap), head.next, Grafted(t.right, t.left))
    ensures r == Ok ==> Changed(Used(old(td.heap)), Used(td.heap), Inorder(t.right))
    ensures r != Ok ==> td.heap == old(td.heap) && td.mem == old(td.mem)
  {
    hide IsSound, Used, Resting, OnPath, Pending, Sub, Base, Pos, Inorder, Distinct, Changed, Shape;
    ghost var m := Used(td.heap);
    Rotating(m, ptr, t);
    RightShape(m, ptr, t);
    var subpath := new Path(head.next);
    StartsAt(m, t.right, head.next);
    r := IterateToMin(td, subpath, t.right, head.next);
    if r != Ok {
      return;
    }
    RestingNode(m, t.right, subpath.stack);
    PathEnd(m, t.right, subpath.stack);
    var e := Top(subpath.stack);
    td.WriteKeyhead(e.ptr, e.head.(previous := head.previous));
    GraftShape(m, ptr, t, head, subpath.stack, Used(td.heap));
  }

  lemma RightShape(m: Heap, ptr: nat, t: Tree)
    requires Shape(m, ptr, t) && t.Node?
    ensures ptr in m && m[ptr].Key? && Shape(m, m[ptr].khead.next, t.right)
    ensures Height(t.right) < Height(t)
  {
  }

  lemma PathEnd(m: Heap, t: Tree, s: Stack)
    requires OnPath(m, t, s)
    ensures |s| > 0 && Sub(t, s).Node? && Top(s).ptr == Sub(t, s).ptr && HeadAt(m, Top(s).ptr, Top(s).head)
    ensures |s| > 1 ==>
              && OnPath(m, t, Init(s)) && (Top(Init(s)).cmp == -1 || Top(Init(s)).cmp == 1)
              && HeadAt(m, Top(Init(s)).ptr, Top(Init(s)).head)
  {
  }

  // ------------------------------------------------------------ taking the node out of the tree

  /** A node's children, as far as its head tells. */
  lemma Children(m: Heap, ptr: nat, t: Tree, head: KeyHead)
    requires Shape(m, ptr, t) && t.Node? && HeadAt(m, ptr, head)
    ensures head.previous == PtrOf(t.left) && head.next == PtrOf(t.right)
    ensures Shape(m, head.previous, t.left) && Shape(m, head.next, t.right)
    ensures head.previous != 0 <==> t.left.Node?
    ensures head.next != 0 <==> t.right.Node?
  {
  }

  /** Grafting touches nothing but the right subtree. */
  lemma GraftFrame(m: Heap, m': Heap, ptr: nat, t: Tree, head: KeyHead)
    requires Shape(m, ptr, t) && t.Node? && Distinct(Inorder(t)) && HeadAt(m, ptr, head)
    requires Changed(m, m', Inorder(t.right))
    ensures Changed(m, m', Inorder(t)) && HeadAt(m', ptr, head)
  {
    DistinctParts(t);
  }

  /** Works out what is to take the place of the node: nothing, its only child, or its children grafted. */
  method Heir(td: Td, ptr: nat, head: KeyHead, ghost t: Tree) returns (r: Status, child: Word)
    requires td.Sound() && Shape(Used(td.heap), ptr, t) && t.Node? && Distinct(Inorder(t))
    requires HeadAt(Used(td.heap), ptr, head)
    modifies td`mem, td`heap
    ensures r == Ok || r == Struct
    ensures Height(t) <= TD_MAXDEPTH ==> r == Ok
    ensures td.Sound()
    ensures r == Ok ==> Shape(Used(td.heap), child, WithoutRoot(t))
    ensures r == Ok ==> Changed(Used(old(td.heap)), Used(td.heap), Inorder(t)) && HeadAt(Used(td.heap), ptr, head)
    ensures r != Ok ==> td.heap == old(td.heap) && td.mem == old(td.mem)
  {
    hide IsSound, Used, Inorder, Distinct, Changed, Shape, HeadAt, Height;
    ghost var m := Used(td.heap);
    Children(m, ptr, t, head);
    ChangedNone(m, Inorder(t));
    r, child := Ok, 0;
    if head.previous != 0 && head.next != 0 {
      r := Graft(td, head, ptr, t);
      if r != Ok {
        return;
      }
      GraftFrame(m, Used(td.heap), ptr, t, head);
      child := head.next;
    } else if head.previous != 0 && head.next == 0 {
      child := head.previous;
    } else if head.previous == 0 && head.next != 0 {
      child := head.next;
    }
  }

  /** The heir is hung where the node hung. */
  lemma HeirHung(m: Heap, m1: Heap, m2: Heap, t: Tree, root: nat, s: Stack, child: Word, root': nat)
    requires Shape(m, root, t) && Distinct(Inorder(t)) && OnPath(m, t, s)
    requires Shape(m1, child, WithoutRoot(Sub(t, s))) && Changed(m, m1, Inorder(Sub(t, s)))
    requires if |s| == 1 then m2 == m1 && root' == child else
               && root' == root && Top(Init(s)).ptr in m1 && m1[Top(Init(s)).ptr].Key?
               && m2 == m1[Top(Init(s)).ptr := Key(Turned(Top(Init(s)).head, Top(Init(s)).cmp, child),
                    m1[Top(Init(s)).ptr].key)]
    ensures Shape(m2, root', Replaced(t, s, WithoutRoot(Sub(t, s))))
    ensures Relinked(m, m2)
    ensures Top(s).ptr in m2 && m2[Top(s).ptr].Key? && m2[Top(s).ptr].khead.value == Top(s).head.value
  {
    hide Base;
    var n := WithoutRoot(Sub(t, s));
    if |s| > 1 {
      var p := Top(Init(s));
      ParentApart(m, t, s);
      RelinkOne(m1, p.ptr, Turned(p.head, p.cmp, child));
      RelinkTrans(m, m1, m2);
      hide Distinct;
      NoNewNodes(Sub(t, s), p.ptr);
      ShapeFrame(m1, m2, child, n);
      hide Inorder, Shape, OnPath;
      ReplacedBelow(m, m2, t, root, s, n);
    }
  }

  lemma NoNewNodes(t: Tree, o: nat)
    requires t.Node? && o !in Inorder(t)
    ensures o !in Inorder(WithoutRoot(t))
  {
  }

  /** The parent on a path is not among the nodes below it. */
  lemma ParentApart(m: Heap, t: Tree, s: Stack)
    requires Distinct(Inorder(t)) && OnPath(m, t, s) && |s| > 1
    ensures Top(Init(s)).ptr !in Inorder(Sub(t, s))
    ensures HeadAt(m, Top(Init(s)).ptr, Top(Init(s)).head)
  {
    SubNodes(m, t, Init(s));
    DistinctParts(Sub(t, Init(s)));
  }

  lemma CutInorder(m: Heap, t: Tree, s: Stack)
    requires OnPath(m, t, s)
    ensures Sub(t, s).Node? && Pos(t, s) < |Inorder(t)|
    ensures Inorder(Replaced(t, s, WithoutRoot(Sub(t, s)))) == Without(Inorder(t), Pos(t, s))
  {
    hide Base, Replaced, Inorder, WithoutRoot, Without, Sub;
    PathEnd(m, t, s);
    PosAt(t, s);
    SubRange(t, s);
    ReplacedInorder(m, t, s, WithoutRoot(Sub(t, s)));
    CutAt(Inorder(t), Base(t, s), Sub(t, s));
  }

  lemma CutAt(w: seq<nat>, b: nat, sub: Tree)
    requires sub.Node? && b + |Inorder(sub)| <= |w| && w[b..b + |Inorder(sub)|] == Inorder(sub)
    ensures b + |Inorder(sub.left)| < |w|
    ensures w[..b] + Inorder(WithoutRoot(sub)) + w[b + |Inorder(sub)|..] == Without(w, b + |Inorder(sub.left)|)
  {
    hide *;
    InorderNode(sub.left, sub.ptr, sub.right);
    HeirInorder(sub);
    var s, l, r, n := Inorder(sub), Inorder(sub.left), Inorder(sub.right), Inorder(WithoutRoot(sub));
    CutPart(w, b, s, l, sub.ptr, r, n);
  }

  lemma CutPart(w: seq<nat>, b: nat, s: seq<nat>, l: seq<nat>, q: nat, r: seq<nat>, n: seq<nat>)
    requires b + |s| <= |w| && w[b..b + |s|] == s && s == l + [q] + r && n == l + r
    ensures b + |l| < |w| && w[..b] + n + w[b + |s|..] == Without(w, b + |l|)
  {
    CutAmid(w, b, b + |s|, l, q, r);
  }

  lemma HeirInorder(sub: Tree)
    requires sub.Node?
    ensures Inorder(WithoutRoot(sub)) == Inorder(sub.left) + Inorder(sub.right)
  {
  }

  lemma CutAmid(w: seq<nat>, b: nat, e: nat, l: seq<nat>, q: nat, r: seq<nat>)
    requires b <= e <= |w| && w[b..e] == l + [q] + r
    ensures b + |l| < |w| && w[..b] + (l + r) + w[e..] == Without(w, b + |l|)
  {
    assert w == w[..b] + (l + [q] + r) + w[e..];
    assert w[..b + |l|] == w[..b] + l && w[b + |l| + 1..] == r + w[e..];
  }

  /** Seen as a whole, the tree has lost the node at the end of the path. */
  lemma {:induction false} CutWhole(m: Heap, t: Tree, s: Stack)
    requires OnPath(m, t, s)
    ensures Sub(t, s).Node? && Pos(t, s) < Weight(t)
    ensures Replaced(t, s, WithoutRoot(Sub(t, s))) == Pulled(t, Pos(t, s))
    decreases t
  {
    hide Inorder, Weight, WithoutRoot;
    EndsAtNode(m, t, s);
    WeightNode(t);
    if |s| > 1 {
      FromRoot(m, t, s);
      ReplacedFromRoot(m, t, s, WithoutRoot(Sub(t, s)));
      CutWhole(m, Child(t, s[0].cmp), s[1..]);
    }
  }

  /** Takes the node at the end of the path out of the tree; its block and its value are still there. */
  method CutOut(td: Td, path: Path) returns (r: Status)
    requires td.Sound() && Shape(Used(td.heap), td.header.top, td.tree) && Distinct(Inorder(td.tree))
    requires |path.stack| > 0 && OnPath(Used(td.heap), td.tree, path.stack)
    modifies td`mem, td`heap, td`header, td`tree
    ensures r == Ok || r == Struct
    ensures Height(td.tree) <= TD_MAXDEPTH ==> r == Ok
    ensures r == Ok ==> td.Sound() && Shape(Used(td.heap), td.header.top, td.tree)
    ensures r == Ok ==> Relinked(Used(old(td.heap)), Used(td.heap))
    ensures r == Ok ==> Sub(old(td.tree), path.stack).Node?
    ensures r == Ok ==> td.tree == Replaced(old(td.tree), path.stack, WithoutRoot(Sub(old(td.tree), path.stack)))
    ensures r == Ok ==> td.header == old(td.header).(top := td.header.top)
    ensures r != Ok ==>
      td.heap == old(td.heap) && td.mem == old(td.mem) && td.header == old(td.header) && td.tree == old(td.tree)
  {
    hide IsSound, Used, Inorder, Distinct, Changed, Shape, HeadAt, OnPath, Sub, Height, Replaced, Relinked;
    ghost var m, t, root, s := Used(td.heap), td.tree, td.header.top, path.stack;
    PathEnd(m, t, s);
    SubShape(m, t, root, s);
    SubNodes(m, t, s);
    DepthBound(t, s);
    var e := Top(path.stack);
    var child;
    r, child := Heir(td, e.ptr, e.head, Sub(t, s));
    if r != Ok {
      return;
    }
    ghost var m1, hd := Used(td.heap), td.header;
    if |path.stack| == 1 {
      MoveTop(td.mem, td.heap, td.free, td.header, child);
      td.header := td.header.(top := child);
    } else {
      var parent := path.stack[|path.stack| - 2];
      assert parent == Top(Init(s));
      ParentStays(m, m1, t, s);
      var head := if parent.cmp < 0 then parent.head.(previous := child) else parent.head.(next := child);
      td.WriteKeyhead(parent.ptr, head);
    }
    HeirHung(m, m1, Used(td.heap), t, root, s, child, td.header.top);
    td.tree := Replaced(t, s, WithoutRoot(Sub(t, s)));
  }

  lemma ParentStays(m: Heap, m1: Heap, t: Tree, s: Stack)
    requires Distinct(Inorder(t)) && OnPath(m, t, s) && |s| > 1 && Changed(m, m1, Inorder(Sub(t, s)))
    ensures var p := Top(Init(s)); p.ptr in m1 && m1[p.ptr].Key? && m1[p.ptr].khead == p.head
  {
    ParentApart(m, t, s);
  }

  // ------------------------------------------------------------ giving up the node's blocks

  lemma WithoutIs(w: seq<nat>, k: nat)
    requires Distinct(w) && k < |w|
    ensures |Without(w, k)| == |w| - 1 && Distinct(Without(w, k))
    ensures forall o :: o in Without(w, k) <==> o in w && o != w[k]
    ensures forall i | 0 <= i < |w| - 1 :: Without(w, k)[i] == w[if i < k then i else i + 1]
  {
    var w' := Without(w, k);
    assert forall i | 0 <= i < |w'| :: w'[i] == w[if i < k then i else i + 1];
    forall o | o in w && o != w[k] ensures o in w' {
      var i :| 0 <= i < |w| && w[i] == o;
      assert w'[if i < k then i else i - 1] == o;
    }
  }

  lemma IndexedWithout(m: Heap, top: nat, t: Tree, m1: Heap, top': nat, t': Tree, k: nat, m3: Heap)
    requires Indexed(m, top, t) && Relinked(m, m1) && k < |Inorder(t)|
    requires Shape(m1, top', t') && Inorder(t') == Without(Inorder(t), k)
    requires forall p | p in m1 && m1[p].Key? && p != Inorder(t)[k] :: p in m3 && m3[p] == m1[p]
    requires forall p | p in m3 :: p in m1 && m3[p] == m1[p] && p != Inorder(t)[k]
    ensures Indexed(m3, top', t')
  {
    WithoutIs(Inorder(t), k);
    ShapeNodes(m1, top', t');
    ShapeFrame(m1, m3, top', t');
  }

  lemma SortedWithout(m: Heap, m': Heap, w: seq<nat>, k: nat)
    requires Sorted(m, w) && Distinct(w) && k < |w|
    requires forall i | 0 <= i < |w| && i != k :: KeyAt(m', w[i]) == KeyAt(m, w[i])
    ensures Sorted(m', Without(w, k))
  {
    WithoutIs(w, k);
  }

  lemma EntriesWithout(m: Heap, m': Heap, chains: map<nat, seq<nat>>, chains': map<nat, seq<nat>>, w: seq<nat>, k: nat)
    requires Distinct(w) && k < |w|
    requires forall i | 0 <= i < |w| && i != k :: EntryAt(m', chains', w[i]) == EntryAt(m, chains, w[i])
    ensures Records.Entries(m', chains', Without(w, k)) == Without(Records.Entries(m, chains, w), k)
  {
    WithoutIs(w, k);
  }

  lemma RemovedKeyFlags(m: Heap, o: nat)
    ensures NoRaw(m) ==> NoRaw(m - {o})
    ensures Single(m) ==> Single(m - {o})
    ensures Summed(m) ==> Summed(m - {o})
  {
  }

  /** Without the k-th node, its block and its value, the database has one entry less. */
  lemma ConsistentWithout(m: Heap, chains: map<nat, seq<nat>>, t: Tree, hd: Header, m1: Heap, t': Tree, k: nat,
                          m2: Heap, hd': Header)
    requires Consistent(m, chains, t, hd) && Relinked(m, m1) && k < |Inorder(t)|
    requires Shape(m1, hd'.top, t') && Inorder(t') == Without(Inorder(t), k)
    requires Inorder(t)[k] in m1 && m1[Inorder(t)[k]].Key?
    requires Removed(m1, m2, ChainOf(chains, m1[Inorder(t)[k]].khead.value))
    requires hd'.flags == hd.flags && hd'.nentries == hd.nentries - 1
    requires hd'.nchunks == hd.nchunks - |ChainOf(chains, m1[Inorder(t)[k]].khead.value)|
    ensures var chains' := chains - {m1[Inorder(t)[k]].khead.value};
            && Consistent(m2 - {Inorder(t)[k]}, chains', t', hd')
            && Records.Entries(m2 - {Inorder(t)[k]}, chains', Inorder(t')) ==
                 Without(Records.Entries(m, chains, Inorder(t)), k)
  {
    hide Shape, Summed, Single, NoRaw, Sorted, EntryAt, Indexed, Inorder, DataOf, Chained, Assigned, Removed,
      Relinked, Distinct, Without;
    var w := Inorder(t);
    var o := w[k];
    var u := m1[o].khead.value;
    var m3, chains' := m2 - {o}, chains - {u};
    IndexedNodes(m, hd.top, t);
    RelinkedRecords(m, m1, chains, {});
    RelinkedFlags(m, m1, w);
    RelinkedNodes(m, m1, w);
    ValuedIn(m1, chains, {});
    AssignedValues(m1, chains.Keys - {});
    ValueGone(m1, m2, chains, u);
    ChunksGone(ChunksOf(m1), chains[u]);
    KeyRemoved(m1, m2, chains, o);
    RemovedFlags(m1, m2, chains[u]);
    RemovedKeyFlags(m2, o);
    hide Valued;
    OthersStay(m1, m2, chains[u], o);
    IndexedWithout(m, hd.top, t, m1, hd'.top, t', k, m3);
    DistinctIndex(w, k);
    SortedWithout(m1, m3, w, k);
    EntriesWithout(m, m3, chains, chains', w, k);
    WithoutIs(w, k);
  }

  lemma RelinkedNodes(m: Heap, m1: Heap, w: seq<nat>)
    requires Relinked(m, m1) && forall i | 0 <= i < |w| :: w[i] in m && m[w[i]].Key?
    ensures forall i | 0 <= i < |w| :: w[i] in m1 && m1[w[i]].Key?
  {
  }

  lemma DistinctIndex(w: seq<nat>, k: nat)
    requires Distinct(w) && k < |w|
    ensures forall i | 0 <= i < |w| && i != k :: w[i] != w[k]
  {
  }

  lemma OthersStay(m1: Heap, m2: Heap, chain: seq<nat>, o: nat)
    requires Removed(m1, m2, chain) && forall p | p in SetOf(chain) :: p in ChunksOf(m1)
    ensures forall p | p in m1 && m1[p].Key? && p != o :: p in m2 - {o} && (m2 - {o})[p] == m1[p]
    ensures forall p | p in m2 - {o} :: p in m1 && (m2 - {o})[p] == m1[p] && p != o
    ensures forall p | p in m1 && m1[p].Key? && p != o :: KeyAt(m2 - {o}, p) == KeyAt(m1, p)
  {
    forall p | p in chain ensures p in m1 && m1[p].Chunk? {
      assert p in SetOf(chain);
    }
  }

  /** Frees the value and the block of a node that is no longer in the tree. */
  method Release(td: Td, ptr: nat, value: Word, ghost chain: seq<nat>)
    requires td.Sound() && td.header.nentries > 0
    requires ptr in Used(td.heap) && Used(td.heap)[ptr].Key?
    requires Chain(Used(td.heap), value, chain) && chain != [] && |chain| <= td.header.nchunks
    requires Single(Used(td.heap))
    modifies td`mem, td`header, td`heap, td`free
    ensures td.Sound()
    ensures Removed(Used(old(td.heap)), Used(td.heap) + map[ptr := Used(old(td.heap))[ptr]], chain)
    ensures ptr !in Used(td.heap)
    ensures |td.free| == |old(td.free)| + |chain| + 1 && td.free[|chain| + 1..] == old(td.free)
    ensures Room(td) >= old(Room(td))
    ensures SameButValues(old(td.header).(nentries := td.header.nentries), td.header)
    ensures td.header.nentries == old(td.header).nentries - 1
    ensures td.header.nchunks == old(td.header).nchunks - |chain|
  {
    hide IsSound, Used, Chain, Removed, SizesOf, Largest;
    ghost var m := Used(td.heap);
    ghost var hd := td.header;
    td.header := td.header.(nentries := td.header.nentries - 1);
    SoundCounters(td.mem, td.heap, td.free, hd, td.header);
    HeadChunk(td.heap, value, chain);
    UnlinkValue(td, value, chain);
    ghost var heap1 := td.heap;
    KeyStays(m, td.heap, ptr, value, chain);
    ChunkReady(td.mem, td.heap, td.free, td.header, ptr);
    RoomWith(Size(td.heap[ptr]), SizesOf(td.heap, td.free));
    Yield(td, ptr);
    UsedRemove(heap1, ptr, td.heap[ptr]);
    PutBack(Used(heap1), ptr);
  }

  lemma HeadChunk(heap: Heap, value: nat, chain: seq<nat>)
    requires Chain(Used(heap), value, chain) && chain != [] && Single(Used(heap))
    ensures value in heap && heap[value].Chunk? && heap[value].chead.refcount <= 1
  {
    InUse(heap, value, chain);
  }

  lemma KeyStays(m: Heap, heap1: Heap, ptr: nat, value: nat, chain: seq<nat>)
    requires Removed(m, Used(heap1), chain) && Chain(m, value, chain) && ptr in m && m[ptr].Key?
    ensures ptr in heap1 && heap1[ptr] == m[ptr] && ptr in Used(heap1) && Used(heap1)[ptr] == m[ptr]
  {
    ChainMembers(m, value, chain);
  }

  lemma PutBack(m: Heap, ptr: nat)
    requires ptr in m
    ensures (m - {ptr}) + map[ptr := m[ptr]] == m && ptr !in m - {ptr}
  {
  }

  // ------------------------------------------------------------ the whole

  /** What a caller wants back of the value that is deleted. */
  datatype Want = Nothing | Into(cap: Capacity)

  /** Counts a change; every eighth puts the free list in order. */
  method CountChange(td: Td) returns (ghost sorted: seq<nat>, ghost merges: nat)
    requires td.Sound()
    modifies td`mem, td`heap, td`header, td`free
    ensures td.Sound() && Used(td.heap) == Used(old(td.heap))
    ensures SameButAlloc(old(td.header).(scn := (old(td.header).scn + 1) % WORD_LIMIT), td.header)
    ensures if td.header.scn % 8 == 0 then Defragmented(old(td.free), sorted, merges, td.heap, td.free)
            else td.free == old(td.free)
    ensures Room(td) >= old(Room(td))
  {
    hide IsSound, Used, Defragmented, Sorting.Ascending, NoTouch, SizesOf, Largest;
    sorted, merges := td.free, 0;
    ghost var hd := td.header;
    td.header := td.header.(scn := (td.header.scn + 1) % WORD_LIMIT);
    SoundCounters(td.mem, td.heap, td.free, hd, td.header);
    if td.header.scn % 8 == 0 {
      sorted, merges := DefragStore(td);
    }
  }

  /** After the node has gone: the tree may be rebalanced, every eighth change the free list is put in order. */
  method FinishDelete(td: Td) returns (ghost sorted: seq<nat>, ghost merges: nat)
    requires td.Sound() && Consistent(Used(td.heap), td.chains, td.tree, td.header)
    modifies td`mem, td`heap, td`header, td`stored, td`tree, td`maxdepth, td`free
    ensures Valid(td) && td.header.flags == old(td.header).flags
    ensures td.header.scn == (old(td.header).scn + 1) % WORD_LIMIT
    ensures ContentsOf(td) == old(ContentsOf(td)) && Room(td) >= old(Room(td))
    ensures Settled(old(td.tree), old(td.maxdepth), td.tree, td.maxdepth)
    ensures if td.header.scn % 8 == 0 then Defragmented(old(td.free), sorted, merges, td.heap, td.free)
            else td.free == old(td.free)
  {
    hide IsSound, Used, Consistent, Records.Entries, Inorder, Shape, Defragmented, Settled, SizesOf, Largest;
    RebalanceStore(td);
    ghost var m, hd := Used(td.heap), td.header;
    sorted, merges := CountChange(td);
    ConsistentAgain(m, td.chains, td.tree, hd, td.header);
    td.WriteHeader();
  }

  /** The value of a node, as a chain and as an entry. */
  lemma NodeValue(m: Heap, chains: map<nat, seq<nat>>, t: Tree, hd: Header, k: nat, o: nat)
    requires Consistent(m, chains, t, hd) && k < |Inorder(t)| && Inorder(t)[k] == o
    ensures o in m && m[o].Key?
    ensures m[o].khead.value in chains && ChainOf(chains, m[o].khead.value) == chains[m[o].khead.value] != []
    ensures Chain(m, m[o].khead.value, chains[m[o].khead.value]) && |chains[m[o].khead.value]| <= hd.nchunks
    ensures Records.Entries(m, chains, Inorder(t))[k] == Entry(m[o].key, DataOf(m, chains[m[o].khead.value]))
    ensures hd.flags.checksum ==> AllSummed(m, chains[m[o].khead.value])
  {
    IndexedNodes(m, hd.top, t);
    ValuedIn(m, chains, {});
    var u := m[o].khead.value;
    ChainMembersAll(m, chains, u);
    ChunksGone(ChunksOf(m), chains[u]);
  }

  /** The same node after a relinking of the tree. */
  lemma RelinkedValue(m: Heap, m1: Heap, chains: map<nat, seq<nat>>, u: nat, o: nat)
    requires Relinked(m, m1) && u in chains && Chain(m, u, chains[u]) && o in m && m[o].Key? && m[o].khead.value == u
    requires Single(m)
    ensures Chain(m1, u, chains[u]) && o in m1 && m1[o].Key? && m1[o].khead.value == u && Single(m1)
  {
    ChainMembers(m, u, chains[u]);
    ChainFrame(m, m1, u, chains[u]);
  }

  /** The free list once the blocks of a deleted entry are on it, and, if it is put in order, how. */
  datatype Tidying = Tidying(freed: seq<nat>, sorted: seq<nat>, merges: nat)

  /** Blocks given up go in front of the free list, and every eighth change then puts it in order. */
  ghost predicate Tidied(free: seq<nat>, y: Tidying, scn: nat, heap': Heap, free': seq<nat>) {
    && |free| < |y.freed| && y.freed[|y.freed| - |free|..] == free
    && if scn % 8 == 0 then Defragmented(y.freed, y.sorted, y.merges, heap', free') else free' == y.freed
  }

  /** Takes the node at the end of the path out of the tree and frees its blocks. Nothing changes if that fails. */
  method TakeOut(td: Td, path: Path) returns (r: Status, ghost n: nat)
    requires Valid(td)
    requires |path.stack| > 0 && OnPath(Used(td.heap), td.tree, path.stack)
    modifies td`mem, td`heap, td`header, td`tree, td`free, td`chains
    ensures r == Ok || r == Struct
    ensures Height(old(td.tree)) <= TD_MAXDEPTH ==> r == Ok
    ensures td.Sound() && Consistent(Used(td.heap), td.chains, td.tree, td.header) && Room(td) >= old(Room(td))
    ensures td.header.flags == old(td.header).flags && td.header.scn == old(td.header).scn
    ensures Pos(old(td.tree), path.stack) < |old(ContentsOf(td))|
    ensures ContentsOf(td) ==
      if r == Ok then Without(old(ContentsOf(td)), Pos(old(td.tree), path.stack)) else old(ContentsOf(td))
    ensures td.tree == if r == Ok then Pulled(old(td.tree), Pos(old(td.tree), path.stack)) else old(td.tree)
    ensures r == Ok ==> n > 0 && |td.free| == |old(td.free)| + n && td.free[n..] == old(td.free)
    ensures r != Ok ==> td.header == old(td.header)
  {
    hide IsSound, Used, Consistent, Records.Entries, Inorder, Shape, DataOf, Chain, Removed, Relinked, Sub, Replaced,
      OnPath, Pos, Height, AllSummed, Single, Without, Distinct, SizesOf, Largest, Pulled, Weight;
    ghost var m, chains, t, hd, s := Used(td.heap), td.chains, td.tree, td.header, path.stack;
    ghost var k := Pos(t, s);
    n := 0;
    ConsistentTree(m, chains, t, hd);
    PathEnd(m, t, s);
    PosAt(t, s);
    CutInorder(m, t, s);
    CutWhole(m, t, s);
    var e := Top(path.stack);
    ghost var u := e.head.value;
    NodeValue(m, chains, t, hd, k, e.ptr);
    r := CutOut(td, path);
    if r != Ok {
      return;
    }
    ghost var m1 := Used(td.heap);
    RelinkedStarts(m, m1);
    SizesKept(old(td.mem), old(td.heap), td.free, hd, td.mem, td.heap, td.header);
    RelinkedValue(m, m1, chains, u, e.ptr);
    Release(td, e.ptr, e.head.value, chains[u]);
    n := |chains[u]| + 1;
    ghost var m2 := Used(td.heap) + map[e.ptr := m1[e.ptr]];
    assert m2 - {e.ptr} == Used(td.heap);
    ConsistentWithout(m, chains, t, hd, m1, td.tree, k, m2, td.header);
    td.chains := chains - {u};
  }

  /** Takes the entry at the end of the path out of the store and tidies up. Nothing changes if that fails. */
  method Remove(td: Td, path: Path) returns (r: Status, ghost y: Tidying)
    requires Valid(td)
    requires |path.stack| > 0 && OnPath(Used(td.heap), td.tree, path.stack)
    modifies td
    ensures r == Ok || r == Struct
    ensures Height(old(td.tree)) <= TD_MAXDEPTH ==> r == Ok
    ensures Valid(td) && td.header.flags == old(td.header).flags && Room(td) >= old(Room(td))
    ensures if r == Ok then td.header.scn == (old(td.header).scn + 1) % WORD_LIMIT else td.header == old(td.header)
    ensures Pos(old(td.tree), path.stack) < |old(ContentsOf(td))|
    ensures ContentsOf(td) ==
      if r == Ok then Without(old(ContentsOf(td)), Pos(old(td.tree), path.stack)) else old(ContentsOf(td))
    ensures r == Ok ==>
      Settled(Pulled(old(td.tree), Pos(old(td.tree), path.stack)), old(td.maxdepth), td.tree, td.maxdepth)
    ensures r != Ok ==> td.tree == old(td.tree) && td.maxdepth == old(td.maxdepth)
    ensures r == Ok ==> Tidied(old(td.free), y, td.header.scn, td.heap, td.free)
  {
    hide IsSound, Used, Consistent, Records.Entries, Inorder, OnPath, Pos, Height, Without, Defragmented, Settled,
      SizesOf, Largest, Pulled, Tidied, Weight;
    y := Tidying([], [], 0);
    ghost var n;
    r, n := TakeOut(td, path);
    if r == Ok {
      ghost var freed := td.free;
      ghost var sorted, merges := FinishDelete(td);
      y := Tidying(freed, sorted, merges);
      TidiedIs(old(td.free), y, n, td.header.scn, td.heap, td.free);
    }
  }

  lemma TidiedIs(free: seq<nat>, y: Tidying, n: nat, scn: nat, heap': Heap, free': seq<nat>)
    requires 0 < n && |y.freed| == |free| + n && y.freed[n..] == free
    requires if scn % 8 == 0 then Defragmented(y.freed, y.sorted, y.merges, heap', free') else free' == y.freed
    ensures Tidied(free, y, scn, heap', free')
  {
    hide Defragmented;
  }

  /** What is read of the n-th value into a buffer passes its checksums. */
  ghost predicate Clean(td: Td, n: nat, cap: Capacity)
    reads td
    requires n < Weight(td.tree)
  {
    CleanAt(Used(td.heap), td.chains, Inorder(td.tree), n, cap)
  }

  ghost predicate CleanAt(m: Heap, chains: map<nat, seq<nat>>, w: seq<nat>, n: nat, cap: Capacity)
    requires n < |w|
  {
    ReadsClean(m, ChainOf(chains, ValueAt(m, w[n])), cap)
  }

  /** A chunk whose checksum is wrong spoils the value, unless the buffer is full before it. */
  lemma SpoiledValue(m: Heap, chains: map<nat, seq<nat>>, w: seq<nat>, n: nat, cap: Capacity, i: nat)
    requires n < |w| && w[n] in m && m[w[n]].Key? && m[w[n]].khead.value in chains
    requires var chain := chains[m[w[n]].khead.value];
             && i < |chain| && chain[i] in m && m[chain[i]].Chunk?
             && (cap.Fixed? ==> |DataOf(m, chain[..i])| <= cap.n)
             && m[chain[i]].chead.checksum != Checksums.Fnv(m[chain[i]].data)
    ensures !CleanAt(m, chains, w, n, cap)
  {
    ReadUnclean(m, chains[m[w[n]].khead.value], cap, i);
  }

  /** What is read of the n-th key passes its checksum; only a key that is read whole is checked. */
  ghost predicate KeyClean(td: Td, n: nat, cap: Capacity)
    reads td
    requires n < Weight(td.tree)
  {
    KeyCleanAt(Used(td.heap), Inorder(td.tree), n, cap)
  }

  ghost predicate KeyCleanAt(m: Heap, w: seq<nat>, n: nat, cap: Capacity)
    requires n < |w|
  {
    var o := w[n];
    o in m && m[o].Key? && (cap.Fixed? ==> |m[o].key| <= cap.n) ==> m[o].khead.checksum == Checksums.Fnv(m[o].key)
  }

  /** Deletes the node at the end of the path, handing out its value if wanted. A delete that fails changes nothing. */
  method DelPathhead(td: Td, path: Path, want: Want, flags: Flags)
    returns (r: Status, value: seq<Byte>, ghost y: Tidying)
    requires Valid(td)
    requires |path.stack| > 0 && OnPath(Used(td.heap), td.tree, path.stack)
    modifies td
    ensures r == Ok || r == Checksum || r == Struct
    ensures Pos(old(td.tree), path.stack) < |old(ContentsOf(td))|
    ensures r == Checksum <==>
              && want.Into? && flags.checksum && !old(td.header).flags.checksum
              && !old(Clean(td, Pos(td.tree, path.stack), want.cap))
    ensures Height(old(td.tree)) <= TD_MAXDEPTH ==> r != Struct
    ensures Valid(td) && td.header.flags == old(td.header).flags && Room(td) >= old(Room(td))
    ensures if r == Ok then td.header.scn == (old(td.header).scn + 1) % WORD_LIMIT else td.header == old(td.header)
    ensures r == Ok ==>
      Settled(Pulled(old(td.tree), Pos(old(td.tree), path.stack)), old(td.maxdepth), td.tree, td.maxdepth)
    ensures r != Ok ==> td.tree == old(td.tree) && td.maxdepth == old(td.maxdepth)
    ensures r == Ok ==> Tidied(old(td.free), y, td.header.scn, td.heap, td.free)
    ensures ContentsOf(td) ==
      if r == Ok then Without(old(ContentsOf(td)), Pos(old(td.tree), path.stack)) else old(ContentsOf(td))
    ensures r == Ok && want.Into? ==>
      value == Values.Cut(old(ContentsOf(td))[Pos(old(td.tree), path.stack)].value, want.cap)
  {
    hide IsSound, Used, Consistent, Records.Entries, Inorder, DataOf, Chain, Sub, OnPath, Pos, Height, AllSummed,
      Without, Values.Cut, SizesOf, Largest, Settled, Pulled, Tidied, ReadsClean;
    y := Tidying([], [], 0);
    ghost var m, chains, t, hd, s := Used(td.heap), td.chains, td.tree, td.header, path.stack;
    PathEnd(m, t, s);
    PosAt(t, s);
    var e := Top(path.stack);
    NodeValue(m, chains, t, hd, Pos(t, s), e.ptr);
    r, value := Ok, [];
    if want.Into? {
      r, value := ReadValue(td, e.head.value, want.cap, flags.Or(td.header.flags), chains[e.head.value]);
      if r != Ok {
        return;
      }
    }
    r, y := Remove(td, path);
  }
}
