/** The invariant of a database between operations, and how it is kept as the store changes. */
module Database {
  import opened Bytes
  import opened Blocks
  import opened FreeLists
  import opened Store
  import opened Tilings
  import opened Fitness
  import opened Allocator
  import opened Trees
  import opened Shapes
  import opened Rebalance
  import opened Paths
  import opened Walks
  import opened Chains
  import opened Keys
  import opened Search
  import opened Records
  import opened Contents

  /** Keys are indexed and in order, values are assigned, nothing is left over, and the header counts it all. */
  ghost predicate Consistent(m: Heap, chains: map<nat, seq<nat>>, t: Tree, hd: Header) {
    && Indexed(m, hd.top, t)
    && Sorted(m, Inorder(t))
    && Valued(m, chains, {})
    && NoRaw(m) && Single(m)
    && (hd.flags.checksum ==> Summed(m))
    && hd.nentries == |Inorder(t)|
    && hd.nchunks == |ChunksOf(m)|
  }

  /** What holds between operations. */
  ghost predicate Valid(td: Td)
    reads td
  {
    td.Sound() && td.stored == td.header && Consistent(Used(td.heap), td.chains, td.tree, td.header)
  }

  /** The entries of the database, in order. */
  ghost function ContentsOf(td: Td): (es: Contents.Entries)
    reads td
    ensures |es| == Weight(td.tree)
  {
    Records.Entries(Used(td.heap), td.chains, Inorder(td.tree))
  }

  /** No tree is higher than there are entries. */
  lemma ContentsHigh(td: Td)
    ensures Height(td.tree) <= |ContentsOf(td)|
  {
    HeightAtMost(td.tree);
  }

  lemma ContentsInOrder(m: Heap, chains: map<nat, seq<nat>>, w: seq<nat>)
    requires Sorted(m, w)
    ensures InOrder(Records.Entries(m, chains, w))
  {
  }

  /** A search's split of the nodes is the key's rank among the entries. */
  lemma PartsRank(m: Heap, chains: map<nat, seq<nat>>, w: seq<nat>, key: seq<Byte>, partial: bool, n: nat)
    requires Parts(m, w, key, partial, n)
    ensures Rank(Records.Entries(m, chains, w), key, partial) == n
  {
    var es := Records.Entries(m, chains, w);
    assert forall j | 0 <= j < |es| :: Compare(key, es[j].key, partial) == CmpAt(m, w[j], key, partial);
    RankIs(es, key, partial, n);
  }

  lemma RankFound(m: Heap, chains: map<nat, seq<nat>>, w: seq<nat>, key: seq<Byte>, partial: bool, k: nat)
    requires k < |w|
    requires var cmp := CmpAt(m, w[k], key, partial);
             && (if cmp <= 0 then Parts(m, w, key, partial, k) else Parts(m, w, key, partial, k + 1))
             && (cmp != 0 ==> NoMatch(m, w, key, partial))
    ensures var es, cmp := Records.Entries(m, chains, w), CmpAt(m, w[k], key, partial);
            && Rank(es, key, partial) == (if cmp <= 0 then k else k + 1)
            && (Found(es, key, partial) <==> cmp == 0)
  {
    PartsRank(m, chains, w, key, partial, if CmpAt(m, w[k], key, partial) <= 0 then k else k + 1);
    var es := Records.Entries(m, chains, w);
    assert forall j | 0 <= j < |w| :: Compare(key, es[j].key, partial) == CmpAt(m, w[j], key, partial);
  }

  /** Where a search comes out: on the first match or, if nothing matches, beside the place of a match. */
  ghost function EndOf(t: Tree, es: Contents.Entries, key: seq<Byte>, partial: bool): (n: nat)
    requires t.Node? && |es| == Weight(t)
    ensures n < Weight(t)
  {
    if Found(es, key, partial) then Rank(es, key, partial) else Beside(t, Rank(es, key, partial))
  }

  /** How deep the deepest search so far is after a search for a key. */
  ghost function DepthAfter(depth: nat, t: Tree, es: Contents.Entries, key: seq<Byte>, partial: bool): nat
    requires |es| == Weight(t)
  {
    if t.Leaf? then depth else
      var d := DepthAt(t, EndOf(t, es, key, partial));
      if d > depth then d else depth
  }

  lemma LandedSays(m: Heap, t: Tree, s: Stack, key: seq<Byte>, partial: bool)
    requires Landed(m, t, s, key, partial)
    ensures |s| > 0 && OnPath(m, t, s) && HeadAt(m, Top(s).ptr, Top(s).head)
    ensures Sub(t, s).Node? && t.Node? && Top(s).ptr == Sub(t, s).ptr
    ensures Top(s).cmp == CmpAt(m, Top(s).ptr, key, partial)
    ensures Top(s).cmp <= 0 ==> Parts(m, Inorder(t), key, partial, Pos(t, s))
    ensures Top(s).cmp > 0 ==> Parts(m, Inorder(t), key, partial, Pos(t, s) + 1)
    ensures Top(s).cmp < 0 ==> Sub(t, s).left == Leaf
    ensures Top(s).cmp > 0 ==> Sub(t, s).right == Leaf
    ensures Top(s).cmp != 0 ==> NoMatch(m, Inorder(t), key, partial)
  {
    if |s| > 1 {
      FromRoot(m, t, s);
    }
  }

  /** What the place where a search has landed says of the entries. */
  lemma LandedRank(m: Heap, chains: map<nat, seq<nat>>, t: Tree, s: Stack, key: seq<Byte>, partial: bool)
    requires Sorted(m, Inorder(t)) && Landed(m, t, s, key, partial)
    ensures |s| > 0 && OnPath(m, t, s) && HeadAt(m, Top(s).ptr, Top(s).head)
    ensures Pos(t, s) < |Inorder(t)| && Inorder(t)[Pos(t, s)] == Top(s).ptr
    ensures var es := Records.Entries(m, chains, Inorder(t));
            && (Top(s).cmp <= 0 ==> Rank(es, key, partial) == Pos(t, s))
            && (Top(s).cmp > 0 ==> Rank(es, key, partial) == Pos(t, s) + 1)
            && (Found(es, key, partial) <==> Top(s).cmp == 0)
            && t.Node? && (!Found(es, key, partial) ==> Pos(t, s) == Beside(t, Rank(es, key, partial)))
  {
    hide Rank, Found, Parts, NoMatch, CmpAt, Inorder, Pos, Sub, Records.Entries, Sorted, Beside, Landed, OnPath,
      HeadAt;
    LandedSays(m, t, s, key, partial);
    EndIsBeside(m, t, s);
    PosAt(t, s);
    RankFound(m, chains, Inorder(t), key, partial, Pos(t, s));
  }

  lemma LandedEnd(m: Heap, chains: map<nat, seq<nat>>, t: Tree, s: Stack, key: seq<Byte>, partial: bool)
    requires Sorted(m, Inorder(t)) && Landed(m, t, s, key, partial)
    ensures |s| > 0 && t.Node? && Pos(t, s) == EndOf(t, Records.Entries(m, chains, Inorder(t)), key, partial)
  {
    hide Rank, Found, Inorder, Pos, Records.Entries, Sorted, Beside, Landed, OnPath, HeadAt;
    LandedRank(m, chains, t, s, key, partial);
  }

  /** The node a search has landed on. */
  lemma LandedNode(m: Heap, t: Tree, s: Stack, key: seq<Byte>, partial: bool)
    requires Landed(m, t, s, key, partial)
    ensures |s| > 0 && OnPath(m, t, s) && HeadAt(m, Top(s).ptr, Top(s).head)
    ensures Pos(t, s) < |Inorder(t)| && Inorder(t)[Pos(t, s)] == Top(s).ptr
  {
    PosAt(t, s);
  }

  /** Whether it has landed on a match, and which. */
  lemma LandedMatch(m: Heap, chains: map<nat, seq<nat>>, t: Tree, s: Stack, key: seq<Byte>, partial: bool)
    requires Sorted(m, Inorder(t)) && Landed(m, t, s, key, partial)
    ensures |s| > 0
    ensures var es := Records.Entries(m, chains, Inorder(t));
            && (Found(es, key, partial) <==> Top(s).cmp == 0)
            && (Top(s).cmp == 0 ==> Rank(es, key, partial) == Pos(t, s))
            && t.Node? && Pos(t, s) == EndOf(t, es, key, partial)
  {
    hide Landed, Sorted, Inorder, Pos, EndOf, Records.Entries, Found, Rank, OnPath, HeadAt, Beside;
    LandedRank(m, chains, t, s, key, partial);
    LandedEnd(m, chains, t, s, key, partial);
  }

  /** What a search notes down of its depth. */
  lemma LandedDepth(m: Heap, chains: map<nat, seq<nat>>, t: Tree, s: Stack, key: seq<Byte>, partial: bool,
                    depth: nat, depth': nat)
    requires Sorted(m, Inorder(t)) && Landed(m, t, s, key, partial)
    requires |s| > 0 && Pos(t, s) < Weight(t) && |s| == DepthAt(t, Pos(t, s))
    requires depth' == if |s| > depth then |s| else depth
    ensures depth' == DepthAfter(depth, t, Records.Entries(m, chains, Inorder(t)), key, partial)
  {
    hide Landed, Sorted, Inorder, Pos, EndOf, DepthAt, Records.Entries;
    LandedEnd(m, chains, t, s, key, partial);
  }

  lemma NoSearch(m: Heap, chains: map<nat, seq<nat>>, t: Tree, key: seq<Byte>, partial: bool, depth: nat)
    requires t.Leaf?
    ensures !Found(Records.Entries(m, chains, Inorder(t)), key, partial)
    ensures depth == DepthAfter(depth, t, Records.Entries(m, chains, Inorder(t)), key, partial)
  {
  }

  /** What a consistent database offers to those who walk its tree. */
  lemma ConsistentTree(m: Heap, chains: map<nat, seq<nat>>, t: Tree, hd: Header)
    requires Consistent(m, chains, t, hd)
    ensures Shape(m, hd.top, t) && Distinct(Inorder(t)) && Sorted(m, Inorder(t)) && Single(m)
    ensures hd.flags.checksum ==> Summed(m)
    ensures hd.nentries == |Inorder(t)|
  {
  }

  /** The allocator's part of the header does not matter here. */
  lemma ConsistentAgain(m: Heap, chains: map<nat, seq<nat>>, t: Tree, hd: Header, hd': Header)
    requires Consistent(m, chains, t, hd)
    requires hd'.flags == hd.flags && hd'.top == hd.top && hd'.nentries == hd.nentries && hd'.nchunks == hd.nchunks
    ensures Consistent(m, chains, t, hd')
  {
  }

  // ------------------------------------------------------------ relinking

  lemma ConsistentRelinked(m: Heap, chains: map<nat, seq<nat>>, t: Tree, hd: Header, m': Heap, t': Tree, hd': Header)
    requires Consistent(m, chains, t, hd) && Relinked(m, m')
    requires Shape(m', hd'.top, t') && Inorder(t') == Inorder(t)
    requires hd' == hd.(top := hd'.top)
    ensures Consistent(m', chains, t', hd')
    ensures Records.Entries(m', chains, Inorder(t')) == Records.Entries(m, chains, Inorder(t))
  {
    hide Valued, Shape, Summed, Single, NoRaw, Sorted, Distinct, EntryAt, Indexed, Relinked, Inorder;
    RelinkedRecords(m, m', chains, {});
    RelinkedFlags(m, m', Inorder(t));
    IndexedRelinked(m, hd.top, t, m', hd'.top, t');
    IndexedNodes(m, hd.top, t);
    EntriesSame(m, m', chains, Inorder(t));
  }

  /** As long as no block comes or goes, the free chunks keep their sizes. */
  lemma SizesKept(mem: seq<Byte>, heap: Heap, free: seq<nat>, hd: Header, mem': seq<Byte>, heap': Heap, hd': Header)
    requires IsSound(mem, heap, free, hd) && IsSound(mem', heap', free, hd') && hd'.size == hd.size
    requires Used(heap').Keys == Used(heap).Keys
    ensures SizesOf(heap', free) == SizesOf(heap, free)
  {
    BlockKinds(heap, hd.offE, free);
    BlockKinds(heap', hd'.offE, free);
    SameStarts(heap, heap', hd.size);
    hide FreeList, Encoded, Tiled, Used;
    forall i | 0 <= i < |free| ensures SizeAt(heap', free[i]) == SizeAt(heap, free[i]) {
      assert free[i] in free;
    }
  }

  lemma BlockKinds(heap: Heap, offE: nat, free: seq<nat>)
    requires FreeList(heap, offE, free)
    ensures forall o :: o in heap <==> o in Used(heap).Keys || o in free
  {
  }

  lemma SameStarts(heap: Heap, heap': Heap, hi: nat)
    requires Tiled(heap, hi) && Tiled(heap', hi) && heap.Keys == heap'.Keys
    ensures forall o | o in heap :: Size(heap'[o]) == Size(heap[o])
  {
    StartsDecide(Sizes(heap), Sizes(heap'), hi);
    forall o | o in heap ensures Size(heap'[o]) == Size(heap[o]) {
      assert Sizes(heap)[o] == Sizes(heap')[o];
    }
  }

  /** A pass of rebalancing keeps the store consistent and its entries. */
  method RebalanceStore(td: Td)
    requires td.Sound() && Consistent(Used(td.heap), td.chains, td.tree, td.header)
    modifies td`mem, td`heap, td`header, td`stored, td`tree, td`maxdepth
    ensures td.Sound() && Consistent(Used(td.heap), td.chains, td.tree, td.header)
    ensures td.header == old(td.header).(top := td.header.top)
    ensures old(td.stored) == old(td.header) ==> td.stored == td.header
    ensures ContentsOf(td) == old(ContentsOf(td))
    ensures Settled(old(td.tree), old(td.maxdepth), td.tree, td.maxdepth)
    ensures Room(td) == old(Room(td)) && SumsKept(Used(old(td.heap)), Used(td.heap))
  {
    hide IsSound, Used, Consistent, Records.Entries, Inorder, Shape, Rebalanced, Changed, Relinked, Settled, SizesOf,
      Largest, SumsKept;
    ghost var m, t, hd := Used(td.heap), td.tree, td.header;
    ConsistentTree(m, td.chains, t, hd);
    RebalanceTree(td);
    ChangedRelinks(m, Used(td.heap), Inorder(td.tree));
    RelinkedStarts(m, Used(td.heap));
    SumsRelinked(m, Used(td.heap));
    SizesKept(old(td.mem), old(td.heap), td.free, hd, td.mem, td.heap, td.header);
    ConsistentRelinked(m, td.chains, t, hd, Used(td.heap), td.tree, td.header);
  }

  lemma RelinkedStarts(m: Heap, m': Heap)
    requires Relinked(m, m')
    ensures m'.Keys == m.Keys
  {
  }

  lemma IndexedRelinked(m: Heap, top: nat, t: Tree, m': Heap, top': nat, t': Tree)
    requires Indexed(m, top, t) && Relinked(m, m') && Shape(m', top', t') && Inorder(t') == Inorder(t)
    ensures Indexed(m', top', t')
  {
  }

  lemma IndexedNodes(m: Heap, top: nat, t: Tree)
    requires Indexed(m, top, t)
    ensures forall i | 0 <= i < |Inorder(t)| :: Inorder(t)[i] in m && m[Inorder(t)[i]].Key?
    ensures Distinct(Inorder(t))
  {
    ShapeNodes(m, top, t);
    assert forall i | 0 <= i < |Inorder(t)| :: Inorder(t)[i] in Inorder(t);
  }

  lemma EntriesSame(m: Heap, m': Heap, chains: map<nat, seq<nat>>, w: seq<nat>)
    requires forall i | 0 <= i < |w| :: EntryAt(m', chains, w[i]) == EntryAt(m, chains, w[i])
    ensures Records.Entries(m', chains, w) == Records.Entries(m, chains, w)
  {
  }

  // ------------------------------------------------------------ a new node

  lemma DistinctInserted(w: seq<nat>, n: nat, o: nat)
    requires Distinct(w) && n <= |w| && o !in w
    ensures Distinct(Inserted(w, n, o))
    ensures forall p :: p in Inserted(w, n, o) <==> p in w || p == o
  {
    var w' := Inserted(w, n, o);
    assert forall i | 0 <= i < |w'| :: w'[i] == if i < n then w[i] else if i == n then o else w[i - 1];
    forall p | p in w ensures p in w' {
      var i :| 0 <= i < |w| && w[i] == p;
      assert w'[if i < n then i else i + 1] == p;
    }
    assert w'[n] == o;
  }

  /** The key belongs at place n of the sequence. */
  ghost predicate Belongs(m: Heap, w: seq<nat>, key: seq<Byte>, n: nat) {
    && n <= |w|
    && (forall j | 0 <= j < n :: Compare(KeyAt(m, w[j]), key, false) <= 0)
    && (forall j | n <= j < |w| :: Compare(key, KeyAt(m, w[j]), false) <= 0)
  }

  lemma SortedInserted(m: Heap, m': Heap, w: seq<nat>, n: nat, o: nat)
    requires Sorted(m, w) && Belongs(m, w, KeyAt(m', o), n)
    requires forall i | 0 <= i < |w| :: KeyAt(m', w[i]) == KeyAt(m, w[i])
    ensures Sorted(m', Inserted(w, n, o))
  {
    hide Compare, KeyAt;
    var w' := Inserted(w, n, o);
    assert forall i | 0 <= i < |w'| :: w'[i] == if i < n then w[i] else if i == n then o else w[i - 1];
  }

  /** A search that lands on a node says where a new key may go next to it. */
  lemma LandedBelongs(m: Heap, w: seq<nat>, key: seq<Byte>, k: nat, cmp: int)
    requires Sorted(m, w) && k < |w| && cmp == CmpAt(m, w[k], key, false)
    requires cmp <= 0 ==> Parts(m, w, key, false, k)
    requires cmp > 0 ==> Parts(m, w, key, false, k + 1)
    ensures cmp <= 0 ==> Belongs(m, w, key, k)
    ensures cmp >= 0 ==> Belongs(m, w, key, k + 1)
  {
    forall j | 0 <= j < |w| ensures Compare(KeyAt(m, w[j]), key, false) == -CmpAt(m, w[j], key, false) {
      CompareTwins(KeyAt(m, w[j]), key);
    }
  }

  lemma EntriesInserted(m: Heap, m': Heap, chains: map<nat, seq<nat>>, w: seq<nat>, n: nat, o: nat)
    requires n <= |w| && forall i | 0 <= i < |w| :: EntryAt(m', chains, w[i]) == EntryAt(m, chains, w[i])
    ensures Records.Entries(m', chains, Inserted(w, n, o)) ==
      Inserted(Records.Entries(m, chains, w), n, EntryAt(m', chains, o))
  {
  }

  /** The state after a value has been stored and before it has a key. */
  ghost predicate Halfway(m: Heap, chains: map<nat, seq<nat>>, t: Tree, hd: Header, v: nat) {
    && Indexed(m, hd.top, t)
    && Sorted(m, Inorder(t))
    && v in chains && Valued(m, chains, {v})
    && NoRaw(m) && Single(m)
    && (hd.flags.checksum ==> Summed(m))
    && hd.nentries == |Inorder(t)|
    && hd.nchunks == |ChunksOf(m)|
  }

  /** A key block that came and a link or two that changed: the database has one entry more. */
  lemma ConsistentInserted(m: Heap, chains: map<nat, seq<nat>>, t: Tree, hd: Header, v: nat, o: nat, b: Block,
                           m': Heap, t': Tree, hd': Header, n: nat)
    requires Halfway(m, chains, t, hd, v)
    requires o !in m && b.Key? && b.khead.value == v && (hd.flags.checksum ==> SummedAt(b))
    requires Relinked(m[o := b], m') && Shape(m', hd'.top, t')
    requires Belongs(m, Inorder(t), b.key, n) && Inorder(t') == Inserted(Inorder(t), n, o)
    requires hd'.flags == hd.flags && hd'.nentries == hd.nentries + 1 && hd'.nchunks == hd.nchunks
    ensures Consistent(m', chains, t', hd')
    ensures Records.Entries(m', chains, Inorder(t')) ==
            Inserted(Records.Entries(m, chains, Inorder(t)), n, Entry(b.key, DataOf(m, chains[v])))
  {
    hide Valued, Shape, Summed, Single, NoRaw, Sorted, Distinct, EntryAt, Indexed, Relinked, Inorder, Belongs,
      Inserted, DataOf;
    var w, m1 := Inorder(t), m[o := b];
    IndexedNodes(m, hd.top, t);
    BelongsPlace(m, w, b.key, n);
    KeyAdded(m, chains, v, o, b);
    RelinkedRecords(m1, m', chains, {});
    IndexedInserted(m, hd.top, t, o, b, m', hd'.top, t', n);
    KeysKept(m, w, o, b);
    SortedInserted(m, m1, w, n, o);
    FlagsAdded(m, o, b);
    RelinkedFlags(m1, m', Inserted(w, n, o));
    assert m1[o] == b;
    EntriesInserted(m, m', chains, w, n, o);
    InsertedLength(w, n, o);
  }

  lemma BelongsPlace(m: Heap, w: seq<nat>, key: seq<Byte>, n: nat)
    requires Belongs(m, w, key, n)
    ensures n <= |w|
  {
  }

  lemma InsertedLength(w: seq<nat>, n: nat, o: nat)
    requires n <= |w|
    ensures |Inserted(w, n, o)| == |w| + 1
  {
  }

  lemma KeysKept(m: Heap, w: seq<nat>, o: nat, b: Block)
    requires o !in m && b.Key? && forall i | 0 <= i < |w| :: w[i] in m && m[w[i]].Key?
    ensures KeyAt(m[o := b], o) == b.key
    ensures forall i | 0 <= i < |w| :: KeyAt(m[o := b], w[i]) == KeyAt(m, w[i])
  {
  }

  lemma FlagsAdded(m: Heap, o: nat, b: Block)
    requires o !in m && b.Key?
    ensures NoRaw(m) ==> NoRaw(m[o := b])
    ensures Single(m) ==> Single(m[o := b])
    ensures Summed(m) && SummedAt(b) ==> Summed(m[o := b])
  {
  }

  lemma IndexedInserted(m: Heap, top: nat, t: Tree, o: nat, b: Block, m': Heap, top': nat, t': Tree, n: nat)
    requires Indexed(m, top, t) && o !in m && b.Key? && Relinked(m[o := b], m') && Shape(m', top', t')
    requires n <= |Inorder(t)| && Inorder(t') == Inserted(Inorder(t), n, o)
    ensures Indexed(m', top', t')
  {
    ShapeNodes(m, top, t);
    DistinctInserted(Inorder(t), n, o);
  }

  // ------------------------------------------------------------ a value exchanged

  lemma RemovedFlags(m: Heap, m': Heap, chain: seq<nat>)
    requires Removed(m, m', chain)
    ensures NoRaw(m) ==> NoRaw(m')
    ensures Single(m) ==> Single(m')
    ensures Summed(m) ==> Summed(m')
  {
  }

  lemma RewrittenFlags(m: Heap, o: nat, h: KeyHead)
    requires o in m && m[o].Key? && h.checksum == m[o].khead.checksum
    ensures NoRaw(m) ==> NoRaw(m[o := Key(h, m[o].key)])
    ensures Single(m) ==> Single(m[o := Key(h, m[o].key)])
    ensures Summed(m) ==> Summed(m[o := Key(h, m[o].key)])
  {
  }

  lemma IndexedRewritten(m: Heap, m1: Heap, top: nat, t: Tree, o: nat, h: KeyHead)
    requires Indexed(m, top, t) && SameValues(m, m1) && o in m1 && m1[o].Key?
    requires forall p | p in m && m[p].Key? :: p in m1 && m1[p] == m[p]
    requires h.next == m1[o].khead.next && h.previous == m1[o].khead.previous
    ensures Indexed(m1[o := Key(h, m1[o].key)], top, t)
  {
    ShapeNodes(m, top, t);
    ShapeLinks(m, m1[o := Key(h, m1[o].key)], top, t);
  }

  lemma SortedSameKeys(m: Heap, m': Heap, w: seq<nat>)
    requires Sorted(m, w) && forall i | 0 <= i < |w| :: KeyAt(m', w[i]) == KeyAt(m, w[i])
    ensures Sorted(m', w)
  {
  }

  lemma EntriesUpdated(m: Heap, m': Heap, chains: map<nat, seq<nat>>, chains': map<nat, seq<nat>>, w: seq<nat>, k: nat)
    requires k < |w| && forall i | 0 <= i < |w| && i != k :: EntryAt(m', chains', w[i]) == EntryAt(m, chains, w[i])
    ensures Records.Entries(m', chains', w) == Records.Entries(m, chains, w)[k := EntryAt(m', chains', w[k])]
  {
  }

  /** The k-th key has given up its value for the spare one. */
  lemma ConsistentReplaced(m: Heap, m1: Heap, chains: map<nat, seq<nat>>, t: Tree, hd: Header, v: nat, k: nat,
                           h: KeyHead, hd': Header)
    requires Halfway(m, chains, t, hd, v) && k < |Inorder(t)|
    requires var o := Inorder(t)[k]; o in m && m[o].Key? && h == m[o].khead.(value := h.value) && h.value == v
    requires Removed(m, m1, ChainOf(chains, m[Inorder(t)[k]].khead.value))
    requires hd'.flags == hd.flags && hd'.top == hd.top && hd'.nentries == hd.nentries
    requires hd'.nchunks == hd.nchunks - |ChainOf(chains, m[Inorder(t)[k]].khead.value)|
    ensures var o := Inorder(t)[k];
            var m', chains' := m1[o := Key(h, m[o].key)], chains - {m[o].khead.value};
            && Consistent(m', chains', t, hd')
            && Records.Entries(m', chains', Inorder(t)) ==
               Records.Entries(m, chains, Inorder(t))[k := Entry(m[o].key, DataOf(m, chains[v]))]
  {
    hide Shape, Summed, Single, NoRaw, Sorted, EntryAt, Indexed, Inorder, DataOf, Chained, Assigned, Removed;
    var w := Inorder(t);
    var o := w[k];
    var u := m[o].khead.value;
    var m', chains' := m1[o := Key(h, m[o].key)], chains - {u};
    IndexedNodes(m, hd.top, t);
    ValuedIn(m, chains, {v});
    AssignedValues(m, chains.Keys - {v});
    ValueGone(m, m1, chains, u);
    ChunksGone(ChunksOf(m), chains[u]);
    ValueReplaced(m, m1, chains, o, v, h);
    IndexedRewritten(m, m1, hd.top, t, o, h);
    RemovedFlags(m, m1, chains[u]);
    RewrittenFlags(m1, o, h);
    hide Valued;
    SortedSameKeys(m, m', w);
    EntriesUpdated(m, m', chains, chains', w, k);
  }
}
