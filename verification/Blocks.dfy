/** The three kinds of record in the resource, and how the bytes encode them. */
module Blocks {
  import opened Bytes
  import opened Tilings

  const KEYHEAD_SIZE := 24

  datatype KeyHead = KeyHead(value: Word, size: Word, scn: Word, checksum: Word, next: Word, previous: Word)

  datatype ChunkHead = ChunkHead(next: Word, size: Word, checksum: Word, refcount: Word)

  function KeyHeadBytes(h: KeyHead): (b: seq<Byte>)
    ensures |b| == KEYHEAD_SIZE
  {
    Pack(h.value) + Pack(h.size) + (Pack(h.scn) + Pack(h.checksum)) + (Pack(h.next) + Pack(h.previous))
  }

  function KeyHeadOf(b: seq<Byte>): KeyHead
    requires |b| == KEYHEAD_SIZE
  {
    KeyHead(Unpack(b[0..4]), Unpack(b[4..8]), Unpack(b[8..12]),
            Unpack(b[12..16]), Unpack(b[16..20]), Unpack(b[20..24]))
  }

  function ChunkHeadBytes(h: ChunkHead): (b: seq<Byte>)
    ensures |b| == CHUNKHEAD_SIZE
  {
    Pack(h.next) + Pack(h.size) + (Pack(h.checksum) + Pack(h.refcount))
  }

  function ChunkHeadOf(b: seq<Byte>): ChunkHead
    requires |b| == CHUNKHEAD_SIZE
  {
    ChunkHead(Unpack(b[0..4]), Unpack(b[4..8]), Unpack(b[8..12]), Unpack(b[12..16]))
  }

  lemma KeyHeadRoundTrip(h: KeyHead)
    ensures KeyHeadOf(KeyHeadBytes(h)) == h
  {
    var b := KeyHeadBytes(h);
    assert b[0..4] == Pack(h.value) && b[4..8] == Pack(h.size) && b[8..12] == Pack(h.scn);
    assert b[12..16] == Pack(h.checksum) && b[16..20] == Pack(h.next) && b[20..24] == Pack(h.previous);
    UnpackPack(h.value);
    UnpackPack(h.size);
    UnpackPack(h.scn);
    UnpackPack(h.checksum);
    UnpackPack(h.next);
    UnpackPack(h.previous);
  }

  lemma ChunkHeadRoundTrip(h: ChunkHead)
    ensures ChunkHeadOf(ChunkHeadBytes(h)) == h
  {
    var b := ChunkHeadBytes(h);
    assert b[0..4] == Pack(h.next) && b[4..8] == Pack(h.size);
    assert b[8..12] == Pack(h.checksum) && b[12..16] == Pack(h.refcount);
    UnpackPack(h.next);
    UnpackPack(h.size);
    UnpackPack(h.checksum);
    UnpackPack(h.refcount);
  }

  /**
   * What a stretch of the resource is used for. A Raw block has been granted and not yet filled;
   * of a Free block only the first two words, its link and its size, mean anything.
   */
  datatype Block =
    | Raw(n: nat)
    | Free(next: Word, size: Word)
    | Key(khead: KeyHead, key: seq<Byte>)
    | Chunk(chead: ChunkHead, data: seq<Byte>)

  type Heap = map<nat, Block>

  function Size(b: Block): nat {
    match b
    case Raw(n) => n
    case Free(_, size) => size
    case Key(_, key) => KEYHEAD_SIZE + |key|
    case Chunk(_, data) => CHUNKHEAD_SIZE + |data|
  }

  /** The bytes at off encode block b. Key, Chunk and Free all keep their size in the second word. */
  ghost predicate Holds(mem: seq<Byte>, off: nat, b: Block) {
    && off + Size(b) <= |mem|
    && match b
       case Raw(_) => true
       case Free(next, size) => Has(mem, off, Pack(next) + Pack(size))
       case Key(head, key) => head.size == Size(b) && Has(mem, off, KeyHeadBytes(head) + key)
       case Chunk(head, data) => head.size == Size(b) && Has(mem, off, ChunkHeadBytes(head) + data)
  }

  ghost predicate Encoded(mem: seq<Byte>, heap: Heap) {
    forall o | o in heap :: Holds(mem, o, heap[o])
  }

  /** Where every block lies and how long it is, whatever it is used for. */
  ghost function Sizes(heap: Heap): (l: Layout) {
    map o | o in heap :: Size(heap[o])
  }

  ghost predicate Tiled(heap: Heap, hi: nat) {
    Tiling(Sizes(heap), hi)
  }

  /** The heap without its free chunks: what the tree and the values rest on. */
  ghost function Used(heap: Heap): (used: Heap) {
    map o | o in heap && !heap[o].Free? :: heap[o]
  }

  lemma UsedUpdate(heap: Heap, o: nat, b: Block)
    requires !b.Free?
    ensures Used(heap[o := b]) == Used(heap)[o := b]
  {
  }

  lemma UsedRemove(heap: Heap, o: nat, b: Block)
    requires b.Free?
    ensures Used(heap[o := b]) == Used(heap) - {o}
  {
  }

  // ------------------------------------------------------------ encodings under writes

  lemma HoldsFrame(mem: seq<Byte>, mem': seq<Byte>, a: nat, b: nat, o: nat, blk: Block)
    requires Within(mem, mem', a, b)
    requires Holds(mem, o, blk) && CHUNKHEAD_SIZE <= Size(blk)
    requires o + Size(blk) <= a || b <= o
    ensures Holds(mem', o, blk)
  {
    WithinFrame(mem, mem', a, b, o, o + Size(blk));
    WithinFrame(mem, mem', a, b, o, o + 8);
  }

  /** Writing inside block o, so that it holds b, disturbs no other block. */
  lemma EncodedRetag(mem: seq<Byte>, mem': seq<Byte>, heap: Heap, hi: nat, o: nat, b: Block)
    requires Encoded(mem, heap) && Tiled(heap, hi)
    requires o in heap && Within(mem, mem', o, o + Size(heap[o]))
    requires Holds(mem', o, b)
    ensures Encoded(mem', heap[o := b])
  {
    forall p | p in heap && p != o ensures Holds(mem', p, heap[p]) {
      TiledApart(heap, hi, o, p);
      TiledBlock(heap, hi, p);
      HoldsFrame(mem, mem', o, o + Size(heap[o]), p, heap[p]);
    }
  }

  lemma SizeWord(mem: seq<Byte>, o: nat, b: Block)
    requires Holds(mem, o, b) && !b.Raw?
    ensures Size(b) < WORD_LIMIT && Has(mem, o + 4, Pack(Size(b)))
  {
    match b
    case Free(next, size) =>
      HasSplit(mem, o, Pack(next), Pack(size));
    case Key(head, key) =>
      HasSplit(mem, o, KeyHeadBytes(head), key);
      HasInside(mem, o, KeyHeadBytes(head), 4, 8);
      assert KeyHeadBytes(head)[4..8] == Pack(head.size);
    case Chunk(head, data) =>
      HasSplit(mem, o, ChunkHeadBytes(head), data);
      HasInside(mem, o, ChunkHeadBytes(head), 4, 8);
      assert ChunkHeadBytes(head)[4..8] == Pack(head.size);
  }

  /** Overwriting the first word of a block and keeping its size word makes it a free chunk. */
  lemma HoldsFree(mem: seq<Byte>, o: nat, size: Word, next: Word)
    requires o + size <= |mem| && size >= 8
    requires Has(mem, o + 4, Pack(size))
    ensures Holds(Poke(mem, o, Pack(next)), o, Free(next, size))
    ensures Within(mem, Poke(mem, o, Pack(next)), o, o + size)
  {
    var m := Poke(mem, o, Pack(next));
    PokeHas(mem, o, Pack(next));
    PokeWithin(mem, o, Pack(next), o, o + 4);
    WithinFrame(mem, m, o, o + 4, o + 4, o + 8);
    assert Has(m, o + 4, Pack(size));
    HasSplit(m, o, Pack(next), Pack(size));
    PokeWithin(mem, o, Pack(next), o, o + size);
  }

  /** A chunk head on its own already makes a free chunk of the size it states. */
  lemma HoldsFreshFree(mem: seq<Byte>, o: nat, head: ChunkHead)
    requires Has(mem, o, ChunkHeadBytes(head)) && o + head.size <= |mem|
    ensures Holds(mem, o, Free(head.next, head.size))
  {
    HasInside(mem, o, ChunkHeadBytes(head), 0, 8);
    assert ChunkHeadBytes(head)[0..8] == Pack(head.next) + Pack(head.size);
  }

  /** A head written at o and a body behind it make up a record. */
  lemma HoldsRecord(mem: seq<Byte>, o: nat, head: seq<Byte>, body: seq<Byte>)
    requires o + |head| + |body| <= |mem|
    ensures Has(Poke(Poke(mem, o, head), o + |head|, body), o, head + body)
    ensures Within(mem, Poke(Poke(mem, o, head), o + |head|, body), o, o + |head| + |body|)
  {
    var m := Poke(mem, o, head);
    var m' := Poke(m, o + |head|, body);
    PokeHas(mem, o, head);
    PokeHas(m, o + |head|, body);
    PokeWithin(m, o + |head|, body, o + |head|, o + |head| + |body|);
    WithinFrame(m, m', o + |head|, o + |head| + |body|, o, o + |head|);
    HasSplit(m', o, head, body);
    PokeWithin(mem, o, head, o, o + |head| + |body|);
    PokeWithin(m, o + |head|, body, o, o + |head| + |body|);
  }

  // ------------------------------------------------------------ tilings under change of blocks

  lemma TiledRetag(heap: Heap, hi: nat, o: nat, b: Block)
    requires Tiled(heap, hi)
    requires o in heap && Size(b) == Size(heap[o])
    ensures Tiled(heap[o := b], hi)
  {
    assert Sizes(heap[o := b]) == Sizes(heap);
  }

  lemma TiledSplit(heap: Heap, hi: nat, o: nat, b: Block, c: Block)
    requires Tiled(heap, hi)
    requires o in heap && Size(b) + Size(c) == Size(heap[o])
    requires Size(b) >= CHUNKHEAD_SIZE && Size(c) >= CHUNKHEAD_SIZE
    ensures o + Size(b) !in heap
    ensures Tiled(heap[o := b][o + Size(b) := c], hi)
  {
    TilingSplit(Sizes(heap), hi, o, Size(b), Size(c));
    assert Sizes(heap[o := b][o + Size(b) := c]) == Sizes(heap)[o := Size(b)][o + Size(b) := Size(c)];
  }

  lemma TiledMerge(heap: Heap, hi: nat, o: nat, b: Block)
    requires Tiled(heap, hi)
    requires o in heap && o + Size(heap[o]) in heap
    requires Size(b) == Size(heap[o]) + Size(heap[o + Size(heap[o])])
    ensures Tiled((heap - {o + Size(heap[o])})[o := b], hi)
  {
    var r := o + Size(heap[o]);
    TilingMerge(Sizes(heap), hi, o);
    assert Sizes((heap - {r})[o := b]) == Joined(Sizes(heap), o);
  }

  lemma TiledExtend(heap: Heap, hi: nat, b: Block)
    requires Tiled(heap, hi) && Size(b) >= CHUNKHEAD_SIZE
    ensures hi !in heap
    ensures Tiled(heap[hi := b], hi + Size(b))
  {
    TilingExtend(Sizes(heap), hi, Size(b));
    assert hi !in Sizes(heap);
    assert Sizes(heap[hi := b]) == Sizes(heap)[hi := Size(b)];
  }

  /** What a tiling says of one block, and of two. */
  lemma TiledBlock(heap: Heap, hi: nat, o: nat)
    requires Tiled(heap, hi) && o in heap
    ensures HEADER_SIZE <= o && CHUNKHEAD_SIZE <= Size(heap[o]) && o + Size(heap[o]) <= hi
  {
    assert o in Sizes(heap);
  }

  lemma TiledApart(heap: Heap, hi: nat, o: nat, p: nat)
    requires Tiled(heap, hi) && o in heap && p in heap && o != p
    ensures o + Size(heap[o]) <= p || p + Size(heap[p]) <= o
  {
    BlocksApart(Sizes(heap), hi, o, p);
  }
}
