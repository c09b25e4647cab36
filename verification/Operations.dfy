/** The operations a user calls: creating a store, td_get, td_del, td_pop. td_put is in Puts. */
module Operations {
  import opened Bytes
  import opened Tilings
  import opened Blocks
  import opened FreeLists
  import opened Store
  import opened Fitness
  import opened Allocator
  import opened Values
  import opened Trees
  import opened Shapes
  import opened Paths
  import opened Walks
  import opened Chains
  import opened Search
  import opened Records
  import opened Contents
  import opened Database
  import opened Deletes
  import opened Rebalance
  import Checksums

  // ------------------------------------------------------------ a new store

  /** Makes an empty store of the whole resource, if a header and one chunk head fit. */
  method InitCreate(td: Td, flags: Flags) returns (r: Status)
    requires td.header.size == |td.mem|
    modifies td
    ensures r == if |old(td.mem)| < HEADER_SIZE + CHUNKHEAD_SIZE then Bounds else Ok
    ensures r == Ok ==> Valid(td) && ContentsOf(td) == [] && td.header.flags == flags && td.tree == Leaf
    ensures r == Ok ==> td.heap == map[HEADER_SIZE := Free(0, |old(td.mem)| - HEADER_SIZE)]
    ensures r == Ok ==> Room(td) == |old(td.mem)| - HEADER_SIZE
    ensures td.maxdepth == old(td.maxdepth) && td.calls == old(td.calls)
  {
    hide IsSound, Consistent, Used, Poke, ChunkHeadBytes, SizesOf, Largest;
    var size := td.header.size;
    td.header := Header(flags, size, 1, 0, HEADER_SIZE, 0, 0, 1, 0);
    if size < HEADER_SIZE {
      return Bounds;
    }
    td.WriteHeader();
    if size < HEADER_SIZE + CHUNKHEAD_SIZE {
      return Bounds;
    }
    var head := ChunkHead(0, size - HEADER_SIZE, 0, 0);
    PokeHas(td.mem, HEADER_SIZE, ChunkHeadBytes(head));
    td.Write(HEADER_SIZE, ChunkHeadBytes(head));
    td.heap := map[HEADER_SIZE := Free(0, head.size)];
    td.free, td.chains, td.tree := [HEADER_SIZE], map[], Leaf;
    OneFree(td.mem, head, td.header);
    NothingYet(td.heap, td.header);
    AllRoom(td.heap, td.free);
    r := Ok;
  }

  lemma OneFree(mem: seq<Byte>, head: ChunkHead, hd: Header)
    requires |mem| == hd.size == HEADER_SIZE + head.size && head.size >= CHUNKHEAD_SIZE && head.next == 0
    requires mem[HEADER_SIZE..HEADER_SIZE + CHUNKHEAD_SIZE] == ChunkHeadBytes(head)
    requires hd.align == 1 && hd.offE == HEADER_SIZE && hd.nempties == 1
    ensures IsSound(mem, map[HEADER_SIZE := Free(0, head.size)], [HEADER_SIZE], hd)
  {
    var heap, free: seq<nat> := map[HEADER_SIZE := Free(0, head.size)], [HEADER_SIZE];
    HoldsFreshFree(mem, HEADER_SIZE, head);
    TilingIntro(Sizes(heap), hd.size);
    assert LinkAt(heap, free, 0);
    assert FreeList(heap, hd.offE, free);
  }

  lemma AllRoom(heap: Heap, free: seq<nat>)
    requires |free| == 1 && free[0] in heap
    ensures Largest(SizesOf(heap, free)) == Size(heap[free[0]])
  {
  }

  lemma NothingYet(heap: Heap, hd: Header)
    requires forall o | o in heap :: heap[o].Free?
    requires hd.top == 0 && hd.nentries == 0 && hd.nchunks == 0
    ensures Consistent(Used(heap), map[], Leaf, hd)
  {
    assert Used(heap) == map[];
    assert ChunksOf(Used(heap)) == {};
  }

  // ------------------------------------------------------------ reading

  /** How much of a key of a given length goes into a buffer. */
  function Fitting(n: nat, cap: Capacity): (k: nat)
    ensures k <= n
  {
    if cap.Fixed? && n > cap.n then cap.n else n
  }

  lemma KeyBytes(mem: seq<Byte>, heap: Heap, free: seq<nat>, hd: Header, o: nat, h: KeyHead, cap: Capacity)
    requires IsSound(mem, heap, free, hd) && HeadAt(Used(heap), o, h)
    ensures h.size >= KEYHEAD_SIZE && o + h.size <= |mem|
    ensures var n: nat := h.size - KEYHEAD_SIZE; var k := Fitting(n, cap);
            && mem[o + KEYHEAD_SIZE..o + KEYHEAD_SIZE + k] == Cut(KeyAt(Used(heap), o), cap)
            && (k == n ==> Cut(KeyAt(Used(heap), o), cap) == KeyAt(Used(heap), o)) && n == |KeyAt(Used(heap), o)|
  {
    BlockOf(mem, heap, free, hd, o);
    KeydataStored(mem, o, heap[o]);
    var key := KeyAt(Used(heap), o);
    var k := Fitting(|key|, cap);
    assert mem[o + KEYHEAD_SIZE..o + KEYHEAD_SIZE + k] == key[..k];
  }

  lemma KeySized(mem: seq<Byte>, heap: Heap, free: seq<nat>, hd: Header, o: nat, h: KeyHead)
    requires IsSound(mem, heap, free, hd) && HeadAt(Used(heap), o, h)
    ensures h.size == KEYHEAD_SIZE + |KeyAt(Used(heap), o)|
  {
    hide IsSound, Cut;
    KeyBytes(mem, heap, free, hd, o, h, Grow);
  }

  /** What the reader of a key sees of its checksum. */
  lemma KeySeen(m: Heap, w: seq<nat>, n: nat, o: nat, h: KeyHead, cap: Capacity)
    requires n < |w| && w[n] == o && HeadAt(m, o, h) && h.size == KEYHEAD_SIZE + |KeyAt(m, o)|
    ensures KeyCleanAt(m, w, n, cap) <==>
            (cap.Fixed? && h.size - KEYHEAD_SIZE > cap.n) || h.checksum == Checksums.Fnv(KeyAt(m, o))
  {
  }

  lemma KeyChecks(m: Heap, o: nat, h: KeyHead)
    requires HeadAt(m, o, h) && Summed(m)
    ensures h.checksum == Checksums.Fnv(KeyAt(m, o))
  {
    assert SummedAt(m[o]);
  }

  /** Reads a key into a buffer, as much of it as fits. Only a key read whole is checked. */
  method FetchKey(td: Td, ptr: nat, head: KeyHead, cap: Capacity, flags: Flags) returns (r: Status, key: seq<Byte>)
    requires td.Sound() && HeadAt(Used(td.heap), ptr, head)
    requires td.header.flags.checksum ==> Summed(Used(td.heap))
    ensures r == Ok || r == Checksum
    ensures r == Ok ==> key == Cut(KeyAt(Used(td.heap), ptr), cap)
    ensures r == Checksum <==>
              && flags.checksum && !td.header.flags.checksum && (cap.Grow? || head.size - KEYHEAD_SIZE <= cap.n)
              && head.checksum != Checksums.Fnv(KeyAt(Used(td.heap), ptr))
  {
    hide IsSound, Used, Summed, KeyAt, Cut, Checksums.Fnv, HeadAt;
    KeyBytes(td.mem, td.heap, td.free, td.header, ptr, head, cap);
    var whole: nat := head.size - KEYHEAD_SIZE;
    var n := Fitting(whole, cap);
    key := td.Read(ptr + KEYHEAD_SIZE, n);
    r := Ok;
    if flags.Or(td.header.flags).checksum && n == whole {
      var ok := Checksums.Verify(key, head.checksum);
      if !ok {
        r := Checksum;
        if td.header.flags.checksum {
          KeyChecks(Used(td.heap), ptr, head);
        }
      }
    }
  }

  /** An empty buffer handed in for the library to allocate stays empty if the library cannot. */
  function Unsized(allocates: bool): Capacity {
    if allocates then Grow else Fixed(0)
  }

  /**
   * Where a lookup comes out: on the first match or, if a near miss will do, at the node beside the place
   * where a match would be.
   */
  ghost predicate Answers(t: Tree, es: Contents.Entries, key: seq<Byte>, partial: bool, exact: bool, n: nat) {
    && n < |es| == Weight(t)
    && if Found(es, key, partial) then n == Rank(es, key, partial)
       else t.Node? && !exact && n == Beside(t, Rank(es, key, partial))
  }

  /** The end of a search, at a match if it has to be exact, is the answer. */
  lemma EndAnswers(t: Tree, es: Contents.Entries, key: seq<Byte>, partial: bool, exact: bool)
    requires t.Node? && |es| == Weight(t)
    ensures Found(es, key, partial) || !exact ==> Answers(t, es, key, partial, exact, EndOf(t, es, key, partial))
  {
    hide Rank, Beside;
  }

  /** Searches a tree that is not empty: what td_iterate comes to in terms of the entries. */
  method Seek(td: Td, path: Path, key: seq<Byte>, partial: bool) returns (r: Status, ghost n: nat)
    requires Valid(td) && td.tree.Node?
    requires |path.stack| == 1 && path.stack[0].ptr == td.header.top
    modifies path, td`maxdepth
    ensures Valid(td) && ContentsOf(td) == old(ContentsOf(td))
    ensures r == Ok || r == Struct || r == Invalid
    ensures Height(td.tree) < TD_MAXDEPTH ==> r == Ok
    ensures r != Ok ==> td.maxdepth == old(td.maxdepth)
    ensures r == Ok ==>
      && td.maxdepth == DepthAfter(old(td.maxdepth), td.tree, ContentsOf(td), key, partial)
      && n == EndOf(td.tree, ContentsOf(td), key, partial) && n < |Inorder(td.tree)|
      && |path.stack| > 0 && OnPath(Used(td.heap), td.tree, path.stack) && Pos(td.tree, path.stack) == n
      && HeadAt(Used(td.heap), Top(path.stack).ptr, Top(path.stack).head) && Inorder(td.tree)[n] == Top(path.stack).ptr
      && (Found(ContentsOf(td), key, partial) <==> Top(path.stack).cmp == 0)
      && (Top(path.stack).cmp == 0 ==> n == Rank(ContentsOf(td), key, partial))
  {
    hide IsSound, Used, Consistent, Records.Entries, Inorder, Shape, Landed, OnPath, Pos, Height, Found, Rank, Sorted,
      Summed, Beside, DepthAfter, DepthAt, EndOf;
    ghost var m, t := Used(td.heap), td.tree;
    n := 0;
    ConsistentTree(m, td.chains, t, td.header);
    r := Iterate(td, path, key, partial);
    if r == Ok {
      LandedNode(m, t, path.stack, key, partial);
      LandedMatch(m, td.chains, t, path.stack, key, partial);
      LandedDepth(m, td.chains, t, path.stack, key, partial, old(td.maxdepth), td.maxdepth);
      n := Pos(t, path.stack);
    }
  }

  /** The request, the entries and the tree leave a lookup no choice. */
  lemma OneAnswer(t: Tree, es: Contents.Entries, key: seq<Byte>, partial: bool, exact: bool, n: nat, n': nat)
    requires Answers(t, es, key, partial, exact, n) && Answers(t, es, key, partial, exact, n')
    ensures n == n'
    ensures n == Rank(es, key, partial) || n + 1 == Rank(es, key, partial)
  {
  }

  /**
   * Keys 1 and 3, and a search for 2: put in this order they hang to the right and the search comes out at
   * 3, behind the place of 2; put the other way around it comes out at 1, before it.
   */
  lemma NearMiss(a: nat, b: nat)
    ensures var es := [Entry([1], []), Entry([3], [])];
            && Answers(Node(Leaf, a, Node(Leaf, b, Leaf)), es, [2], false, false, 1)
            && Answers(Node(Node(Leaf, a, Leaf), b, Leaf), es, [2], false, false, 0)
  {
    var es := [Entry([1], []), Entry([3], [])];
    RankIs(es, [2], false, 1);
    BesideEither(a, b);
  }

  /**
   * Reads the value and, if asked for by TDFLG_ALLOCKEY, the key of a node. The key is read without the flags of
   * the call: only those of the store say, beside the callback, whether it can be allocated.
   */
  method HandOut(td: Td, ptr: nat, head: KeyHead, want: Want, flags: Flags, ghost n: nat)
    returns (r: Status, found: seq<Byte>, value: seq<Byte>)
    requires Valid(td)
    requires n < |Inorder(td.tree)| && Inorder(td.tree)[n] == ptr && HeadAt(Used(td.heap), ptr, head)
    ensures r == Ok || r == Checksum
    ensures n < |ContentsOf(td)|
    ensures r == Ok && want.Into? ==> value == Cut(ContentsOf(td)[n].value, want.cap)
    ensures r == Ok && flags.allocKey ==>
      found == if td.allocates && (td.header.flags.allocTdt || td.header.flags.allocKey) then ContentsOf(td)[n].key
               else []
    ensures r == Checksum <==>
              want.Into? && flags.checksum && !td.header.flags.checksum && !Clean(td, n, want.cap)
  {
    hide IsSound, Used, Consistent, Inorder, Shape, DataOf, Chain, Height, AllSummed, Cut, Sorted, Summed, KeyAt,
      Records.Entries, ReadsClean, Checksums.Fnv;
    ghost var m := Used(td.heap);
    r, found, value := Ok, [], [];
    ConsistentTree(m, td.chains, td.tree, td.header);
    NodeValue(m, td.chains, td.tree, td.header, n, ptr);
    if want.Into? {
      r, value := ReadValue(td, head.value, want.cap, flags.Or(td.header.flags), td.chains[head.value]);
      if r != Ok {
        return;
      }
    }
    if flags.allocKey {
      WholeKey(m, ptr);
      var cap := Unsized(td.allocates && (td.header.flags.allocTdt || td.header.flags.allocKey));
      r, found := FetchKey(td, ptr, head, cap, NO_FLAGS);
    }
  }

  /** A lookup, with the flags of the call and of the store taken together. */
  method GetLocked(td: Td, key: seq<Byte>, want: Want, flags: Flags)
    returns (r: Status, found: seq<Byte>, value: seq<Byte>, ghost n: nat)
    requires Valid(td)
    modifies td`header, td`maxdepth
    ensures Valid(td) && td.header == old(td.header) && ContentsOf(td) == old(ContentsOf(td))
    ensures r == Ok || r == NotFound || r == Checksum || r == Struct || r == Invalid
    ensures r == Ok || r == Checksum ==> Answers(td.tree, ContentsOf(td), key, flags.partial, flags.exact, n)
    ensures r == NotFound ==> ContentsOf(td) == [] || (flags.exact && !Found(ContentsOf(td), key, flags.partial))
    ensures td.maxdepth ==
            if r == Struct || r == Invalid then old(td.maxdepth)
            else DepthAfter(old(td.maxdepth), td.tree, ContentsOf(td), key, flags.partial)
    ensures r == Ok && want.Into? ==> value == Cut(ContentsOf(td)[n].value, want.cap)
    ensures r == Ok && flags.allocKey ==>
      found == if td.allocates && (td.header.flags.allocTdt || td.header.flags.allocKey) then ContentsOf(td)[n].key
               else []
    ensures r == Checksum ==> want.Into? && flags.checksum && !td.header.flags.checksum && !Clean(td, n, want.cap)
    ensures r == Ok && want.Into? && flags.checksum && !td.header.flags.checksum ==> Clean(td, n, want.cap)
    ensures Height(td.tree) < TD_MAXDEPTH ==> r != Struct && r != Invalid
  {
    hide IsSound, Used, Consistent, Records.Entries, Inorder, Shape, OnPath, Pos, Height, Cut, Found, Rank, Answers,
      Beside, DepthAfter, EndOf, CleanAt, Weight, Distinct, Sorted, Single, Summed, HeadAt;
    n, found, value := 0, [], [];
    td.ReadHeader();
    ConsistentTree(Used(td.heap), td.chains, td.tree, td.header);
    Rootless(Used(td.heap), td.chains, td.header.top, td.tree);
    if td.header.top == 0 {
      NoSearch(Used(td.heap), td.chains, td.tree, key, flags.partial, td.maxdepth);
      return NotFound, found, value, n;
    }
    var path := new Path(td.header.top);
    hide Valid, ContentsOf;
    r, n := Seek(td, path, key, flags.partial);
    if r != Ok {
      return;
    }
    EndAnswers(td.tree, ContentsOf(td), key, flags.partial, flags.exact);
    var e := Top(path.stack);
    if flags.exact && e.cmp != 0 {
      return NotFound, found, value, n;
    }
    r, found, value := HandOut(td, e.ptr, e.head, want, flags, n);
  }

  /** Looks a key up and hands out the value and, in memory it allocates, the key of the entry it comes out at. */
  method Get(td: Td, key: seq<Byte>, want: Want, callFlags: Flags)
    returns (r: Status, found: seq<Byte>, value: seq<Byte>, ghost n: nat)
    requires Valid(td)
    modifies td`header, td`maxdepth
    ensures Valid(td) && td.header == old(td.header) && ContentsOf(td) == old(ContentsOf(td))
    ensures r == Ok || r == NotFound || r == Checksum || r == Struct || r == Invalid
    ensures var partial := callFlags.partial || td.header.flags.partial;
            var exact := callFlags.exact || td.header.flags.exact;
            && (r == Ok || r == Checksum ==> Answers(td.tree, ContentsOf(td), key, partial, exact, n))
            && (r == NotFound ==> ContentsOf(td) == [] || (exact && !Found(ContentsOf(td), key, partial)))
    ensures r == Struct || r == Invalid ==> td.maxdepth == old(td.maxdepth)
    ensures r == Ok || r == NotFound || r == Checksum ==>
      td.maxdepth ==
        DepthAfter(old(td.maxdepth), td.tree, ContentsOf(td), key, callFlags.partial || td.header.flags.partial)
    ensures r == Ok && want.Into? ==> value == Cut(ContentsOf(td)[n].value, want.cap)
    ensures r == Ok && (callFlags.allocKey || td.header.flags.allocKey) ==>
      found == if td.allocates && (td.header.flags.allocTdt || td.header.flags.allocKey) then ContentsOf(td)[n].key
               else []
    ensures r == Checksum ==>
      want.Into? && callFlags.checksum && !td.header.flags.checksum && !Clean(td, n, want.cap)
    ensures r == Ok && want.Into? && callFlags.checksum && !td.header.flags.checksum ==> Clean(td, n, want.cap)
    ensures Height(td.tree) < TD_MAXDEPTH ==> r != Struct && r != Invalid
  {
    hide Valid, ContentsOf, Height, Cut, Found, Answers, DepthAfter, Clean, Weight;
    r, found, value, n := GetLocked(td, key, want, callFlags.Or(td.header.flags));
  }

  lemma WholeKey(m: Heap, o: nat)
    requires o in m && m[o].Key?
    ensures Cut(KeyAt(m, o), Grow) == m[o].key && Cut(KeyAt(m, o), Fixed(0)) == []
  {
  }

  lemma Rootless(m: Heap, chains: map<nat, seq<nat>>, top: nat, t: Tree)
    requires Shape(m, top, t)
    ensures top == 0 <==> t == Leaf
    ensures t.Node? ==> t.ptr == top
    ensures t == Leaf <==> Records.Entries(m, chains, Inorder(t)) == []
  {
  }

  // ------------------------------------------------------------ deleting

  /** Deletes the first match in a tree that is not empty. */
  method DelSought(td: Td, key: seq<Byte>, want: Want, flags: Flags)
    returns (r: Status, value: seq<Byte>, ghost y: Tidying)
    requires Valid(td) && td.tree.Node? && td.tree.ptr == td.header.top
    modifies td
    ensures Valid(td) && td.header.flags == old(td.header).flags && Room(td) >= old(Room(td))
    ensures r == Ok || r == NotFound || r == Checksum || r == Struct || r == Invalid
    ensures r == NotFound ==> !Found(old(ContentsOf(td)), key, flags.partial)
    ensures r == Ok ==> Found(old(ContentsOf(td)), key, flags.partial)
    ensures ContentsOf(td) ==
            if r == Ok then Without(old(ContentsOf(td)), Rank(old(ContentsOf(td)), key, flags.partial))
            else old(ContentsOf(td))
    ensures r == Ok && want.Into? ==>
            value == Cut(old(ContentsOf(td))[Rank(old(ContentsOf(td)), key, flags.partial)].value, want.cap)
    ensures r == Checksum ==> flags.checksum && !old(td.header).flags.checksum
    ensures if r == Ok then td.header.scn == (old(td.header).scn + 1) % WORD_LIMIT else td.header == old(td.header)
    ensures var t, es := old(td.tree), old(ContentsOf(td));
            var depth := DepthAfter(old(td.maxdepth), t, es, key, flags.partial);
            && (r == Ok ==> Settled(Pulled(t, Rank(es, key, flags.partial)), depth, td.tree, td.maxdepth))
            && (r != Ok ==> td.tree == t)
            && (r == NotFound || r == Checksum ==> td.maxdepth == depth)
    ensures r == Ok ==> Tidied(old(td.free), y, td.header.scn, td.heap, td.free)
    ensures r == Ok && want.Into? && flags.checksum && !old(td.header).flags.checksum ==>
      old(Clean(td, Rank(ContentsOf(td), key, flags.partial), want.cap))
    ensures Height(old(td.tree)) < TD_MAXDEPTH ==> r != Struct && r != Invalid
  {
    hide Valid, ContentsOf, Inorder, OnPath, Pos, Height, Cut, Rank, Without, SizesOf, Largest, Settled, Pulled, Tidied,
      CleanAt, DepthAfter, EndOf, Weight, Found, HeadAt, Used;
    y := Tidying([], [], 0);
    value := [];
    var path := new Path(td.header.top);
    ghost var n;
    r, n := Seek(td, path, key, flags.partial);
    if r != Ok {
      return;
    }
    if Top(path.stack).cmp != 0 {
      return NotFound, value, y;
    }
    r, value, y := DelPathhead(td, path, want, flags);
  }

  /** Deletes the first match. */
  method DelOne(td: Td, key: seq<Byte>, want: Want, flags: Flags)
    returns (r: Status, value: seq<Byte>, ghost y: Tidying)
    requires Valid(td)
    modifies td
    ensures Valid(td) && td.header.flags == old(td.header).flags && Room(td) >= old(Room(td))
    ensures r == Ok || r == NotFound || r == Checksum || r == Struct || r == Invalid
    ensures r == NotFound ==> !Found(old(ContentsOf(td)), key, flags.partial)
    ensures r == Ok ==> Found(old(ContentsOf(td)), key, flags.partial)
    ensures ContentsOf(td) ==
            if r == Ok then Without(old(ContentsOf(td)), Rank(old(ContentsOf(td)), key, flags.partial))
            else old(ContentsOf(td))
    ensures r == Ok && want.Into? ==>
            value == Cut(old(ContentsOf(td))[Rank(old(ContentsOf(td)), key, flags.partial)].value, want.cap)
    ensures r == Checksum ==> flags.checksum && !old(td.header).flags.checksum
    ensures if r == Ok then td.header.scn == (old(td.header).scn + 1) % WORD_LIMIT else td.header == old(td.header)
    ensures var t, es := old(td.tree), old(ContentsOf(td));
            var depth := DepthAfter(old(td.maxdepth), t, es, key, flags.partial);
            && (r == Ok ==> Settled(Pulled(t, Rank(es, key, flags.partial)), depth, td.tree, td.maxdepth))
            && (r != Ok ==> td.tree == t)
            && (r == NotFound || r == Checksum ==> td.maxdepth == depth)
    ensures r == Ok ==> Tidied(old(td.free), y, td.header.scn, td.heap, td.free)
    ensures r == Ok && want.Into? && flags.checksum && !old(td.header).flags.checksum ==>
      old(Clean(td, Rank(ContentsOf(td), key, flags.partial), want.cap))
    ensures Height(old(td.tree)) < TD_MAXDEPTH ==> r != Struct && r != Invalid
  {
    hide IsSound, Used, Consistent, Records.Entries, Inorder, Shape, Height, Cut, Rank, Sorted, Summed, Without,
      SizesOf, Largest, Settled, Pulled, Tidied, CleanAt, DepthAfter, Weight, Found, Distinct, Single;
    y := Tidying([], [], 0);
    value := [];
    td.ReadHeader();
    ConsistentTree(Used(td.heap), td.chains, td.tree, td.header);
    Rootless(Used(td.heap), td.chains, td.header.top, td.tree);
    if td.header.top == 0 {
      NoSearch(Used(td.heap), td.chains, td.tree, key, flags.partial, td.maxdepth);
      return NotFound, value, y;
    }
    r, value, y := DelSought(td, key, want, flags);
  }

  /** Deletes the first match or, on request, every entry whose key begins with the given bytes. */
  method Del(td: Td, key: seq<Byte>, want: Want, callFlags: Flags)
    returns (r: Status, value: seq<Byte>, ghost y: Tidying)
    requires Valid(td)
    modifies td
    ensures Valid(td) && td.header.flags == old(td.header).flags && Room(td) >= old(Room(td))
    ensures r == Ok || r == NotFound || r == Checksum || r == Struct || r == Invalid
    ensures r == Checksum ==> callFlags.checksum && !td.header.flags.checksum
    ensures var es, es', t, scn := old(ContentsOf(td)), ContentsOf(td), old(td.tree), old(td.header).scn;
            if callFlags.deleteAll || old(td.header).flags.deleteAll then
              && (r == NotFound ==> !Found(es, key, true) && es' == es)
              && (r == Ok ==> Found(es, key, true) && es' == Purged(es, key))
              && Purged(es', key) == Purged(es, key)
              && (|es| < TD_MAXDEPTH ==> r == Ok || r == NotFound || r == Checksum)
            else
              var partial := callFlags.partial || old(td.header).flags.partial;
              var n, depth := Rank(es, key, partial), DepthAfter(old(td.maxdepth), t, es, key, partial);
              && (r == NotFound ==> !Found(es, key, partial))
              && (r == Ok ==> Found(es, key, partial))
              && es' == (if r == Ok then Without(es, n) else es)
              && td.header.scn == (if r == Ok then (scn + 1) % WORD_LIMIT else scn)
              && (r == Ok && want.Into? ==> value == Cut(es[n].value, want.cap))
              && (r == Ok && want.Into? && callFlags.checksum && !td.header.flags.checksum ==>
                    old(Clean(td, Rank(ContentsOf(td), key, callFlags.partial || td.header.flags.partial), want.cap)))
              && (r == Ok ==> Settled(Pulled(t, n), depth, td.tree, td.maxdepth))
              && (r == Ok ==> Tidied(old(td.free), y, td.header.scn, td.heap, td.free))
              && (r != Ok ==> td.tree == t)
              && (r == NotFound || r == Checksum ==> td.maxdepth == depth)
              && (Height(t) < TD_MAXDEPTH ==> r == Ok || r == NotFound || r == Checksum)
  {
    hide IsSound, Used, Consistent, Records.Entries, Inorder, Shape, Height, Cut, Rank, Without, Purged, Found,
      SizesOf, Largest, Settled, Pulled, Tidied, DepthAfter, CleanAt;
    var flags := callFlags.Or(td.header.flags);
    if !flags.deleteAll {
      r, value, y := DelOne(td, key, want, flags);
      return;
    }
    y := Tidying([], [], 0);
    r, value := DelAll(td, key, want, flags.(partial := true));
  }

  /** The buffer after a value has gone into it: what it holds is its size from now on. */
  function Refilled(want: Want, value: seq<Byte>): Want {
    if want.Into? then Into(Fixed(|value|)) else want
  }

  lemma EntriesOrdered(m: Heap, chains: map<nat, seq<nat>>, t: Tree, hd: Header)
    requires Consistent(m, chains, t, hd)
    ensures InOrder(Records.Entries(m, chains, Inorder(t)))
  {
    ContentsInOrder(m, chains, Inorder(t));
  }

  /** Deletes first matches until there are none. */
  method DelAll(td: Td, key: seq<Byte>, want: Want, flags: Flags) returns (r: Status, value: seq<Byte>)
    requires Valid(td) && flags.partial
    modifies td
    ensures Valid(td) && td.header.flags == old(td.header).flags && Room(td) >= old(Room(td))
    ensures |old(ContentsOf(td))| < TD_MAXDEPTH ==> r == Ok || r == NotFound || r == Checksum
    ensures r == Ok || r == NotFound || r == Checksum || r == Struct || r == Invalid
    ensures r == Checksum ==> flags.checksum && !td.header.flags.checksum
    ensures r == NotFound ==> !Found(old(ContentsOf(td)), key, true) && ContentsOf(td) == old(ContentsOf(td))
    ensures r == Ok ==> Found(old(ContentsOf(td)), key, true) && ContentsOf(td) == Purged(old(ContentsOf(td)), key)
    ensures Purged(ContentsOf(td), key) == Purged(old(ContentsOf(td)), key)
  {
    hide IsSound, Used, Consistent, Records.Entries, Inorder, Shape, Height, Cut, Rank, Without, Purged, Found,
      SizesOf, Largest, Settled, Pulled, Tidied, DepthAfter, Weight;
    HeightAtMost(td.tree);
    FoundPlace(old(ContentsOf(td)), key);
    ghost var y;
    r, value, y := DelOne(td, key, want, flags);
    if r != Ok {
      return;
    }
    PurgedOne(old(ContentsOf(td)), key);
    while true
      invariant Valid(td) && td.header.flags == old(td.header).flags && Room(td) >= old(Room(td))
      invariant |ContentsOf(td)| < |old(ContentsOf(td))|
      invariant Purged(ContentsOf(td), key) == Purged(old(ContentsOf(td)), key)
      decreases |ContentsOf(td)|
    {
      ghost var es := ContentsOf(td);
      EntriesOrdered(Used(td.heap), td.chains, td.tree, td.header);
      HeightAtMost(td.tree);
      FoundPlace(es, key);
      var more;
      r, more, y := DelOne(td, key, Refilled(want, value), flags);
      if r == NotFound {
        PurgedDone(es, key);
        return Ok, value;
      } else if r != Ok {
        return;
      }
      PurgedOne(es, key);
      value := more;
    }
  }

  lemma FoundPlace(es: Contents.Entries, key: seq<Byte>)
    ensures Found(es, key, true) ==>
              Rank(es, key, true) < |es| && |Without(es, Rank(es, key, true))| == |es| - 1
  {
  }

  /** Goes to the first node of a tree that is not empty, and reads its key. */
  method FetchFirst(td: Td, path: Path, keyCap: Capacity, flags: Flags) returns (r: Status, key: seq<Byte>)
    requires Valid(td) && td.tree.Node?
    requires |path.stack| == 1 && path.stack[0].ptr == td.header.top
    modifies path
    ensures r == Ok || r == Checksum || r == Struct
    ensures r == Checksum ==> flags.checksum && !td.header.flags.checksum
    ensures Height(td.tree) < TD_MAXDEPTH ==> r != Struct
    ensures r == Ok ==>
      && |path.stack| > 0 && OnPath(Used(td.heap), td.tree, path.stack) && Pos(td.tree, path.stack) == 0
      && |ContentsOf(td)| > 0 && key == Cut(ContentsOf(td)[0].key, keyCap)
    ensures r == Ok && flags.checksum && !td.header.flags.checksum ==> KeyClean(td, 0, keyCap)
  {
    hide IsSound, Used, Consistent, Records.Entries, Inorder, Shape, OnPath, Pos, Height, Cut, Sorted, Summed, KeyAt,
      KeyCleanAt, Checksums.Fnv, HeadAt, Distinct, Single;
    ghost var m, t := Used(td.heap), td.tree;
    key := [];
    ConsistentTree(m, td.chains, t, td.header);
    Rootless(m, td.chains, td.header.top, t);
    AtTheTop(m, t, path.stack);
    r := IterateToMin(td, path, t, td.header.top);
    if r != Ok {
      return;
    }
    RestingTop(m, td.chains, t, path.stack);
    var e := Top(path.stack);
    KeySized(td.mem, td.heap, td.free, td.header, e.ptr, e.head);
    PosAt(t, path.stack);
    PathEnd(m, t, path.stack);
    KeySeen(m, Inorder(t), 0, e.ptr, e.head, keyCap);
    r, key := FetchKey(td, e.ptr, e.head, keyCap, flags);
  }

  /** Takes out the first entry of a tree that is not empty. */
  method PopFirst(td: Td, keyCap: Capacity, want: Want, flags: Flags)
    returns (r: Status, key: seq<Byte>, value: seq<Byte>, ghost y: Tidying)
    requires Valid(td) && td.tree.Node? && td.tree.ptr == td.header.top && ContentsOf(td) != []
    modifies td
    ensures Valid(td) && td.header.flags == old(td.header).flags && Room(td) >= old(Room(td))
    ensures r == Ok || r == NotFound || r == Checksum || r == Struct
    ensures r == NotFound <==> old(ContentsOf(td)) == []
    ensures if r == Ok then td.header.scn == (old(td.header).scn + 1) % WORD_LIMIT else td.header == old(td.header)
    ensures ContentsOf(td) == if r == Ok then old(ContentsOf(td))[1..] else old(ContentsOf(td))
    ensures r == Ok ==> key == Cut(old(ContentsOf(td))[0].key, keyCap)
    ensures r == Ok && want.Into? ==> value == Cut(old(ContentsOf(td))[0].value, want.cap)
    ensures r == Checksum ==> flags.checksum && !old(td.header).flags.checksum
    ensures r == Ok ==>
      0 < Weight(old(td.tree)) && Settled(Pulled(old(td.tree), 0), old(td.maxdepth), td.tree, td.maxdepth)
    ensures r != Ok ==> td.tree == old(td.tree) && td.maxdepth == old(td.maxdepth)
    ensures r == Ok ==> Tidied(old(td.free), y, td.header.scn, td.heap, td.free)
    ensures r == Ok && flags.checksum && !old(td.header).flags.checksum ==>
      old(KeyClean(td, 0, keyCap) && (want.Into? ==> Clean(td, 0, want.cap)))
    ensures Height(old(td.tree)) < TD_MAXDEPTH ==> r != Struct
  {
    hide Valid, ContentsOf, Inorder, OnPath, Pos, Height, Cut, Without, SizesOf, Largest, Settled, Pulled, Tidied,
      CleanAt, KeyCleanAt, Weight, Used;
    y := Tidying([], [], 0);
    value := [];
    FirstGone(ContentsOf(td));
    var path := new Path(td.header.top);
    r, key := FetchFirst(td, path, keyCap, flags);
    if r != Ok {
      return;
    }
    r, value, y := DelPathhead(td, path, want, flags);
  }

  /** Takes out the entry with the smallest key. */
  method Pop(td: Td, keyCap: Capacity, want: Want, flags: Flags)
    returns (r: Status, key: seq<Byte>, value: seq<Byte>, ghost y: Tidying)
    requires Valid(td)
    modifies td
    ensures Valid(td) && td.header.flags == old(td.header).flags && Room(td) >= old(Room(td))
    ensures r == Ok || r == NotFound || r == Checksum || r == Struct
    ensures r == NotFound <==> old(ContentsOf(td)) == []
    ensures if r == Ok then td.header.scn == (old(td.header).scn + 1) % WORD_LIMIT else td.header == old(td.header)
    ensures ContentsOf(td) == if r == Ok then old(ContentsOf(td))[1..] else old(ContentsOf(td))
    ensures r == Ok ==> key == Cut(old(ContentsOf(td))[0].key, keyCap)
    ensures r == Ok && want.Into? ==> value == Cut(old(ContentsOf(td))[0].value, want.cap)
    ensures r == Checksum ==> flags.checksum && !old(td.header).flags.checksum
    ensures r == Ok ==>
      0 < Weight(old(td.tree)) && Settled(Pulled(old(td.tree), 0), old(td.maxdepth), td.tree, td.maxdepth)
    ensures r != Ok ==> td.tree == old(td.tree) && td.maxdepth == old(td.maxdepth)
    ensures r == Ok ==> Tidied(old(td.free), y, td.header.scn, td.heap, td.free)
    ensures r == Ok && flags.checksum && !old(td.header).flags.checksum ==>
      old(KeyClean(td, 0, keyCap) && (want.Into? ==> Clean(td, 0, want.cap)))
    ensures Height(old(td.tree)) < TD_MAXDEPTH ==> r != Struct
  {
    hide IsSound, Used, Consistent, Records.Entries, Inorder, Shape, Height, Cut, Sorted, Summed, SizesOf, Largest,
      Settled, Pulled, Tidied, CleanAt, KeyCleanAt, Weight, Distinct, Single;
    y := Tidying([], [], 0);
    key, value := [], [];
    td.ReadHeader();
    ConsistentTree(Used(td.heap), td.chains, td.tree, td.header);
    Rootless(Used(td.heap), td.chains, td.header.top, td.tree);
    if td.header.top == 0 {
      return NotFound, key, value, y;
    }
    r, key, value, y := PopFirst(td, keyCap, want, flags);
  }

  lemma AtTheTop(m: Heap, t: Tree, s: Stack)
    requires |s| == 1 && t.Node? && s[0].ptr == t.ptr
    ensures Pending(m, t, s) && Sub(t, s) == t && Base(t, s) == 0
  {
  }

  lemma RestingTop(m: Heap, chains: map<nat, seq<nat>>, t: Tree, s: Stack)
    requires Resting(m, t, s)
    ensures |s| > 0 && OnPath(m, t, s) && HeadAt(m, Top(s).ptr, Top(s).head)
    ensures Pos(t, s) < |Inorder(t)| == |Records.Entries(m, chains, Inorder(t))|
    ensures Records.Entries(m, chains, Inorder(t))[Pos(t, s)].key == KeyAt(m, Top(s).ptr)
  {
    PosAt(t, s);
  }

  lemma FirstGone(es: Contents.Entries)
    requires es != []
    ensures Without(es, 0) == es[1..]
  {
  }
}
