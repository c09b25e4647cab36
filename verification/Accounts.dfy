/** Where every byte is: the free list, the tree and the values share out the resource among them. */
module Accounts {
  import opened Bytes
  import opened Tilings
  import opened Blocks
  import opened FreeLists
  import opened Store
  import opened Trees
  import opened Shapes
  import opened Chains
  import opened Records
  import opened Database
  import opened Deletes

  ghost function FreeBlocks(heap: Heap): set<nat> {
    set o | o in heap && heap[o].Free?
  }

  ghost function KeyBlocks(m: Heap): set<nat> {
    set o | o in m && m[o].Key?
  }

  lemma FreeSet(mem: seq<Byte>, heap: Heap, free: seq<nat>, hd: Header)
    requires IsSound(mem, heap, free, hd)
    ensures SetOf(free) == FreeBlocks(heap) && |FreeBlocks(heap)| == hd.nempties
  {
    SetSize(free);
    assert AllFree(heap, free);
  }

  lemma KeySet(m: Heap, chains: map<nat, seq<nat>>, t: Tree, hd: Header)
    requires Consistent(m, chains, t, hd)
    ensures SetOf(Inorder(t)) == KeyBlocks(m) && |KeyBlocks(m)| == hd.nentries && |ChunksOf(m)| == hd.nchunks
    ensures NoRaw(m)
  {
    ShapeNodes(m, hd.top, t);
    SetSize(Inorder(t));
  }

  /**
   * The free chunks reached from off_e, the key blocks reached from top and the chunks of their values are all
   * blocks.
   */
  lemma Owners(mem: seq<Byte>, heap: Heap, free: seq<nat>, hd: Header, chains: map<nat, seq<nat>>, t: Tree)
    requires IsSound(mem, heap, free, hd) && Consistent(Used(heap), chains, t, hd)
    ensures var f, k, v := SetOf(free), SetOf(Inorder(t)), ChunksOf(Used(heap));
            && f !! k && (f + k) !! v && f + k + v == heap.Keys
            && |f| == hd.nempties && |k| == hd.nentries && |v| == hd.nchunks
  {
    FreeSet(mem, heap, free, hd);
    KeySet(Used(heap), chains, t, hd);
    hide IsSound, Consistent, Inorder, SetOf;
    KindsApart(heap);
  }

  lemma KindsApart(heap: Heap)
    requires NoRaw(Used(heap))
    ensures var f, k, v := FreeBlocks(heap), KeyBlocks(Used(heap)), ChunksOf(Used(heap));
            f !! k && (f + k) !! v && f + k + v == heap.Keys
  {
    forall o | o in heap ensures o in FreeBlocks(heap) + KeyBlocks(Used(heap)) + ChunksOf(Used(heap)) {
      assert heap[o].Free? || o in Used(heap);
    }
  }

  /** Every chunk is on the chain of exactly one key. */
  lemma ChunkOwner(m: Heap, chains: map<nat, seq<nat>>, t: Tree, hd: Header, c: nat)
    requires Consistent(m, chains, t, hd) && c in ChunksOf(m)
    ensures exists o :: o in Inorder(t) && c in ChainOf(chains, ValueAt(m, o))
    ensures forall o, p | o in Inorder(t) && p in Inorder(t) &&
              c in ChainOf(chains, ValueAt(m, o)) && c in ChainOf(chains, ValueAt(m, p)) :: o == p
  {
    ShapeNodes(m, hd.top, t);
    assert Owned(chains, c);
    var v :| v in chains && c in chains[v];
    assert Referred(m, v);
    var o :| o in m && m[o].Key? && m[o].khead.value == v;
    assert o in Inorder(t) && c in ChainOf(chains, ValueAt(m, o));
  }

  /** Nothing is lost: what is free, what holds keys and what holds values add up to the resource without its header. */
  lemma BytesAccounted(mem: seq<Byte>, heap: Heap, free: seq<nat>, hd: Header, chains: map<nat, seq<nat>>, t: Tree)
    requires IsSound(mem, heap, free, hd) && Consistent(Used(heap), chains, t, hd)
    ensures BytesOf(Sizes(heap), hd.size, SetOf(free)) + BytesOf(Sizes(heap), hd.size, SetOf(Inorder(t)))
            + BytesOf(Sizes(heap), hd.size, ChunksOf(Used(heap))) == hd.size - HEADER_SIZE
    ensures forall x | HEADER_SIZE <= x < hd.size :: ByteOwned(heap, x)
  {
    hide IsSound, Consistent, Tiling, BytesOf, Used;
    Owners(mem, heap, free, hd, chains, t);
    TiledOf(mem, heap, free, hd);
    BytesConserved(Sizes(heap), hd.size, SetOf(free), SetOf(Inorder(t)), ChunksOf(Used(heap)));
    forall x | HEADER_SIZE <= x < hd.size ensures ByteOwned(heap, x) {
      ByteInOneBlock(Sizes(heap), hd.size, x);
    }
  }

  lemma TiledOf(mem: seq<Byte>, heap: Heap, free: seq<nat>, hd: Header)
    requires IsSound(mem, heap, free, hd)
    ensures Tiling(Sizes(heap), hd.size)
  {
  }

  /** A byte lies in one block and in no other. */
  ghost predicate ByteOwned(heap: Heap, x: nat) {
    && (exists o :: o in Sizes(heap) && o <= x < o + Sizes(heap)[o])
    && (forall o, p | o in Sizes(heap) && p in Sizes(heap) &&
          o <= x < o + Sizes(heap)[o] && p <= x < p + Sizes(heap)[p] :: o == p)
  }

  /** The account of a whole store. */
  ghost predicate Accounted(td: Td)
    reads td
  {
    var l, n, m := Sizes(td.heap), td.header.size, Used(td.heap);
    && Tiling(l, n)
    && BytesOf(l, n, SetOf(td.free)) + BytesOf(l, n, SetOf(Inorder(td.tree))) + BytesOf(l, n, ChunksOf(m)) ==
         n - HEADER_SIZE
    && (forall x | HEADER_SIZE <= x < n :: ByteOwned(td.heap, x))
    && td.header.nempties == |td.free| && td.header.nentries == |Inorder(td.tree)| && td.header.nchunks == |ChunksOf(m)|
  }

  lemma ValidAccounted(td: Td)
    requires Valid(td)
    ensures Accounted(td)
  {
    hide IsSound, Consistent, Tiling, BytesOf, Used, ByteOwned;
    BytesAccounted(td.mem, td.heap, td.free, td.header, td.chains, td.tree);
    TiledOf(td.mem, td.heap, td.free, td.header);
    KeySet(Used(td.heap), td.chains, td.tree, td.header);
    ListCounted(td.mem, td.heap, td.free, td.header);
    ConsistentTree(Used(td.heap), td.chains, td.tree, td.header);
  }

  lemma ListCounted(mem: seq<Byte>, heap: Heap, free: seq<nat>, hd: Header)
    requires IsSound(mem, heap, free, hd)
    ensures hd.nempties == |free|
  {
  }

  lemma {:induction false} AtMostAll(w: seq<nat>, s: set<nat>)
    requires forall o | o in s :: o in w
    ensures |s| <= |w|
  {
    if w == [] {
      assert s == {};
    } else {
      AtMostAll(w[1..], s - {w[0]});
      if w[0] in s {
        assert s == (s - {w[0]}) + {w[0]};
      } else {
        assert s == s - {w[0]};
      }
    }
  }

  /** The counters count blocks of sixteen bytes or more, so that a 32-bit counter does not wrap. */
  lemma CountersFit(mem: seq<Byte>, heap: Heap, free: seq<nat>, hd: Header, chains: map<nat, seq<nat>>, t: Tree)
    requires IsSound(mem, heap, free, hd) && Consistent(Used(heap), chains, t, hd)
    ensures CHUNKHEAD_SIZE * (hd.nempties + hd.nentries + hd.nchunks) <= hd.size - HEADER_SIZE
    ensures hd.nempties < WORD_LIMIT && hd.nentries < WORD_LIMIT && hd.nchunks < WORD_LIMIT
  {
    hide IsSound, Consistent, Used;
    Owners(mem, heap, free, hd, chains, t);
    TiledOf(mem, heap, free, hd);
    var l := Sizes(heap);
    var start := if hd.size == HEADER_SIZE then hd.size else HEADER_SIZE;
    WalkAscends(l, hd.size, start);
    forall o | o in heap ensures o in Walk(l, hd.size, start) {
      BlockBounds(l, hd.size, o);
      WalkMembers(l, hd.size, start, o);
    }
    AtMostAll(Walk(l, hd.size, start), heap.Keys);
    assert |heap.Keys| == hd.nempties + hd.nentries + hd.nchunks;
  }

  lemma NoKeysNoBlocks(m: Heap, chains: map<nat, seq<nat>>, hd: Header)
    requires Consistent(m, chains, Leaf, hd)
    ensures m == map[]
  {
    hide Shape, Summed, Single, Chain;
    assert forall o | o in m :: m[o].Chunk?;
    assert forall v :: !Referred(m, v);
    assert chains.Keys == chains.Keys - {} == {};
    assert forall o :: !Owned(chains, o);
  }

  /** In a store without entries every byte past the header is free again. */
  lemma DrainedIsFree(mem: seq<Byte>, heap: Heap, free: seq<nat>, hd: Header, chains: map<nat, seq<nat>>)
    requires IsSound(mem, heap, free, hd) && Consistent(Used(heap), chains, Leaf, hd)
    ensures Used(heap) == map[] && SetOf(free) == heap.Keys && hd.nentries == 0 && hd.nchunks == 0
    ensures BytesOf(Sizes(heap), hd.size, SetOf(free)) == hd.size - HEADER_SIZE
  {
    hide IsSound, Consistent, SetOf, Tiling, BytesOf;
    NoKeysNoBlocks(Used(heap), chains, hd);
    Owners(mem, heap, free, hd, chains, Leaf);
    BytesAccounted(mem, heap, free, hd, chains, Leaf);
    TiledOf(mem, heap, free, hd);
    NoneOwned(heap, hd.size);
  }

  lemma NoneOwned(heap: Heap, hi: nat)
    requires Tiling(Sizes(heap), hi) && Used(heap) == map[]
    ensures SetOf(Inorder(Leaf)) == {} && ChunksOf(Used(heap)) == {}
    ensures BytesOf(Sizes(heap), hi, {}) == 0
  {
    NoBytes(Sizes(heap), if hi == HEADER_SIZE then [] else Walk(Sizes(heap), hi, HEADER_SIZE));
  }

  lemma {:induction false} NoBytes(l: Layout, w: seq<nat>)
    requires forall p | p in w :: p in l
    ensures Tilings.Bytes(l, w, {}) == 0
  {
    if w != [] {
      NoBytes(l, w[1..]);
    }
  }

  // ------------------------------------------------------------ one value's share

  lemma {:induction false} OtherBytes(l: Layout, w: seq<nat>, x: nat)
    requires (forall p | p in w :: p in l) && x !in w
    ensures Tilings.Bytes(l, w, {x}) == 0
  {
    if w != [] {
      OtherBytes(l, w[1..], x);
    }
  }

  lemma {:induction false} BlockBytes(l: Layout, w: seq<nat>, x: nat)
    requires (forall p | p in w :: p in l) && Distinct(w) && x in w
    ensures Tilings.Bytes(l, w, {x}) == l[x]
  {
    var rest := w[1..];
    assert forall i | 0 <= i < |rest| :: rest[i] == w[i + 1];
    if w[0] == x {
      OtherBytes(l, rest, x);
    } else {
      BlockBytes(l, rest, x);
    }
  }

  lemma WalkLists(l: Layout, hi: nat)
    requires Tiling(l, hi)
    ensures hi == HEADER_SIZE || HEADER_SIZE in l
    ensures Distinct(Walk(l, hi, HEADER_SIZE)) && forall p | p in l :: p in Walk(l, hi, HEADER_SIZE)
  {
    WalkAscends(l, hi, HEADER_SIZE);
    forall p | p in l ensures p in Walk(l, hi, HEADER_SIZE) {
      BlockBounds(l, hi, p);
      WalkMembers(l, hi, HEADER_SIZE, p);
    }
  }

  /** The blocks of a chain take up a head each and the value's bytes. */
  lemma {:induction false} ChainBytes(heap: Heap, hi: nat, p: nat, chain: seq<nat>)
    requires Tiled(heap, hi) && Chain(Used(heap), p, chain)
    ensures BytesOf(Sizes(heap), hi, SetOf(chain)) == |DataOf(Used(heap), chain)| + CHUNKHEAD_SIZE * |chain|
    decreases |chain|
  {
    hide Tiling;
    var l := Sizes(heap);
    WalkLists(l, hi);
    if chain == [] {
      assert SetOf(chain) == {};
      NoBytes(l, Walk(l, hi, HEADER_SIZE));
    } else {
      var rest := chain[1..];
      ChainBytes(heap, hi, heap[p].chead.next, rest);
      BlockBytes(l, Walk(l, hi, HEADER_SIZE), p);
      BytesSplit(l, Walk(l, hi, HEADER_SIZE), {p}, SetOf(rest));
      assert SetOf(chain) == {p} + SetOf(rest);
    }
  }

  /** A value never needs more than there is room for. */
  lemma ValueFits(mem: seq<Byte>, heap: Heap, free: seq<nat>, hd: Header, p: nat, chain: seq<nat>)
    requires IsSound(mem, heap, free, hd) && Chain(Used(heap), p, chain)
    ensures |DataOf(Used(heap), chain)| + CHUNKHEAD_SIZE * |chain| <= hd.size - HEADER_SIZE
  {
    hide IsSound, Tiling, Chain, DataOf;
    TiledOf(mem, heap, free, hd);
    var l := Sizes(heap);
    ChainBytes(heap, hd.size, p, chain);
    ChainMembers(Used(heap), p, chain);
    BytesSplit(l, Walk(l, hd.size, HEADER_SIZE), SetOf(chain), l.Keys - SetOf(chain));
    assert SetOf(chain) + (l.Keys - SetOf(chain)) == l.Keys;
    BytesAll(l, hd.size, HEADER_SIZE);
  }

  /** Stored keys and values are short enough to be stored again. */
  lemma EntryFits(mem: seq<Byte>, heap: Heap, free: seq<nat>, hd: Header, chains: map<nat, seq<nat>>, t: Tree, i: nat)
    requires IsSound(mem, heap, free, hd) && Consistent(Used(heap), chains, t, hd) && i < |Inorder(t)|
    ensures var e := Records.Entries(Used(heap), chains, Inorder(t))[i];
            |e.key| + KEYHEAD_SIZE < WORD_LIMIT && |e.value| + CHUNKHEAD_SIZE < WORD_LIMIT
  {
    hide IsSound, Consistent, Chain, DataOf;
    var m, o := Used(heap), Inorder(t)[i];
    NodeValue(m, chains, t, hd, i, o);
    var u := m[o].khead.value;
    ValueFits(mem, heap, free, hd, u, chains[u]);
    BlockOf(mem, heap, free, hd, o);
    assert |chains[u]| > 0;
  }
}
