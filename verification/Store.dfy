/** The database handle: a header, a byte resource, and the ghost account of what the bytes mean. */
module Store {
  import opened Bytes
  import opened Tilings
  import opened Blocks
  import opened FreeLists
  import opened Trees

  /** What operations answer; the source's return codes. */
  datatype Status = Ok | NotFound | Invalid | Dup | Space | Checksum | Bounds | Struct

  datatype Flags = Flags(
    duplKeys: bool, noOverwrite: bool, wipeDeleted: bool, deleteAll: bool,
    checksum: bool, sparse: bool, partial: bool, exact: bool, allocTdt: bool, allocKey: bool)
  {
    function Or(that: Flags): Flags {
      Flags(duplKeys || that.duplKeys, noOverwrite || that.noOverwrite,
            wipeDeleted || that.wipeDeleted, deleteAll || that.deleteAll,
            checksum || that.checksum, sparse || that.sparse,
            partial || that.partial, exact || that.exact,
            allocTdt || that.allocTdt, allocKey || that.allocKey)
    }
  }

  const NO_FLAGS := Flags(false, false, false, false, false, false, false, false, false, false)

  datatype Header = Header(
    flags: Flags, size: Word, align: Word, top: Word, offE: Word, scn: Word,
    nentries: nat, nempties: nat, nchunks: nat)

  /** The allocator's invariant: bytes, blocks, free list and header agree, and nothing is lost or shared. */
  ghost predicate IsSound(mem: seq<Byte>, heap: Heap, free: seq<nat>, hd: Header) {
    && |mem| == hd.size
    && hd.align <= 1
    && hd.nempties == |free|
    && Encoded(mem, heap)
    && Tiled(heap, hd.size)
    && FreeList(heap, hd.offE, free)
  }

  class Td {
    var header: Header           // the copy in memory
    var stored: Header           // what the first 44 bytes of the resource say
    var mem: seq<Byte>           // the resource
    var maxdepth: nat
    const extendable: bool       // whether an extend callback was given
    const callback: (nat, nat) -> Word   // what it grants, by how often it was asked before and what is wanted
    var calls: nat               // how often it was asked
    const allocates: bool        // whether a realloc callback was given
    ghost var heap: Heap
    ghost var free: seq<nat>
    ghost var chains: map<nat, seq<nat>>   // the chunks of each value, by the offset of the first
    ghost var tree: Tree

    /** A handle on a resource whose bytes may be anything. */
    constructor (resource: seq<Byte>, extendable: bool, callback: (nat, nat) -> Word, allocates: bool)
      requires |resource| < WORD_LIMIT
      ensures mem == resource && header.size == |resource| && maxdepth == 0 && calls == 0
      ensures this.extendable == extendable && this.callback == callback && this.allocates == allocates
    {
      var blank := Header(NO_FLAGS, |resource|, 0, 0, 0, 0, 0, 0, 0);
      header, stored, mem, maxdepth := blank, blank, resource, 0;
      this.extendable, this.callback, this.calls, this.allocates := extendable, callback, 0, allocates;
      heap, free, chains, tree := map[], [], map[], Leaf;
    }

    ghost predicate Sound()
      reads this
    {
      IsSound(mem, heap, free, header)
    }

    method Read(off: nat, n: nat) returns (bs: seq<Byte>)
      requires off + n <= |mem|
      ensures bs == mem[off..off + n]
    {
      bs := mem[off..off + n];
    }

    method Write(off: nat, bs: seq<Byte>)
      requires off + |bs| <= |mem|
      modifies `mem
      ensures mem == Poke(old(mem), off, bs)
    {
      mem := mem[..off] + bs + mem[off + |bs|..];
    }

    method ReadHeader()
      modifies `header
      ensures header == stored
    {
      header := stored;
    }

    method WriteHeader()
      modifies `stored
      ensures stored == header
    {
      stored := header;
    }

    method ReadUint(off: nat) returns (w: Word)
      requires off + 4 <= |mem|
      ensures w == Unpack(mem[off..off + 4])
    {
      var bs := Read(off, 4);
      w := Unpack(bs);
    }

    method WriteUint(off: nat, w: Word)
      requires off + 4 <= |mem|
      modifies `mem
      ensures mem == Poke(old(mem), off, Pack(w))
    {
      Write(off, Pack(w));
    }

    method ReadChunkhead(off: nat) returns (h: ChunkHead)
      requires Sound() && off in heap && (heap[off].Free? || heap[off].Chunk?)
      ensures heap[off].Free? ==> h.next == heap[off].next && h.size == heap[off].size
      ensures heap[off].Chunk? ==> h == heap[off].chead
    {
      hide IsSound, Holds, Size;
      BlockOf(mem, heap, free, header, off);
      ChunkheadStored(mem, off, heap[off]);
      var bs := Read(off, CHUNKHEAD_SIZE);
      h := ChunkHeadOf(bs);
    }

    method ReadKeyhead(off: nat) returns (h: KeyHead)
      requires Sound() && off in Used(heap) && Used(heap)[off].Key?
      ensures h == Used(heap)[off].khead
    {
      hide IsSound, Holds;
      BlockOf(mem, heap, free, header, off);
      KeyheadStored(mem, off, heap[off]);
      var bs := Read(off, KEYHEAD_SIZE);
      h := KeyHeadOf(bs);
    }

    /** Reads the key behind a key head. */
    method ReadKeydata(off: nat, h: KeyHead) returns (key: seq<Byte>)
      requires Sound() && off in Used(heap) && Used(heap)[off].Key? && h.size == Used(heap)[off].khead.size
      ensures key == Used(heap)[off].key
    {
      hide IsSound, Holds;
      BlockOf(mem, heap, free, header, off);
      KeydataStored(mem, off, heap[off]);
      key := Read(off + KEYHEAD_SIZE, h.size - KEYHEAD_SIZE);
    }

    /** Rewrites the head of an existing key block. */
    method WriteKeyhead(off: nat, h: KeyHead)
      requires Sound() && off in Used(heap) && Used(heap)[off].Key? && h.size == Used(heap)[off].khead.size
      modifies `mem, `heap
      ensures Sound()
      ensures Used(heap) == Used(old(heap))[off := Key(h, Used(old(heap))[off].key)]
    {
      hide IsSound, Holds;
      ghost var b := Key(h, heap[off].key);
      BlockOf(mem, heap, free, header, off);
      KeyRewritten(mem, off, heap[off], h);
      SoundRetag(mem, Poke(mem, off, KeyHeadBytes(h)), heap, free, header, off, b);
      UsedUpdate(heap, off, b);
      Write(off, KeyHeadBytes(h));
      heap := heap[off := b];
    }
  }

  lemma BlockOf(mem: seq<Byte>, heap: Heap, free: seq<nat>, hd: Header, off: nat)
    requires IsSound(mem, heap, free, hd) && off in heap
    ensures Holds(mem, off, heap[off]) && CHUNKHEAD_SIZE <= Size(heap[off])
    ensures HEADER_SIZE <= off && off + Size(heap[off]) <= |mem| == hd.size
  {
    TiledBlock(heap, hd.size, off);
  }

  lemma NoNull(mem: seq<Byte>, heap: Heap, free: seq<nat>, hd: Header)
    requires IsSound(mem, heap, free, hd)
    ensures forall o | o in Used(heap) :: HEADER_SIZE <= o < WORD_LIMIT
  {
    forall o | o in Used(heap) ensures HEADER_SIZE <= o < WORD_LIMIT {
      BlockOf(mem, heap, free, hd, o);
    }
  }

  /** The link in the first word of a free chunk or of a value's chunk. */
  function LinkOf(b: Block): Word
    requires b.Free? || b.Chunk?
  {
    if b.Free? then b.next else b.chead.next
  }

  lemma LinkStored(mem: seq<Byte>, o: nat, b: Block)
    requires Holds(mem, o, b) && (b.Free? || b.Chunk?)
    ensures Size(b) >= 4 ==> Unpack(mem[o..o + 4]) == LinkOf(b)
  {
    UnpackPack(LinkOf(b));
    if b.Free? {
      HasSplit(mem, o, Pack(b.next), Pack(b.size));
    } else {
      HasSplit(mem, o, ChunkHeadBytes(b.chead), b.data);
      HasInside(mem, o, ChunkHeadBytes(b.chead), 0, 4);
      assert ChunkHeadBytes(b.chead)[0..4] == Pack(b.chead.next);
    }
  }

  lemma ChunkheadStored(mem: seq<Byte>, o: nat, b: Block)
    requires Holds(mem, o, b) && (b.Free? || b.Chunk?) && Size(b) >= CHUNKHEAD_SIZE
    ensures b.Free? ==> var h := ChunkHeadOf(mem[o..o + CHUNKHEAD_SIZE]); h.next == b.next && h.size == b.size
    ensures b.Chunk? ==> ChunkHeadOf(mem[o..o + CHUNKHEAD_SIZE]) == b.chead
  {
    if b.Free? {
      HasSplit(mem, o, Pack(b.next), Pack(b.size));
      SubSlice(mem, o, o + CHUNKHEAD_SIZE, 0, 4);
      SubSlice(mem, o, o + CHUNKHEAD_SIZE, 4, 8);
      UnpackPack(b.next);
      UnpackPack(b.size);
    } else {
      HasSplit(mem, o, ChunkHeadBytes(b.chead), b.data);
      ChunkHeadRoundTrip(b.chead);
    }
  }

  lemma KeyheadStored(mem: seq<Byte>, o: nat, b: Block)
    requires Holds(mem, o, b) && b.Key?
    ensures KeyHeadOf(mem[o..o + KEYHEAD_SIZE]) == b.khead
  {
    HasSplit(mem, o, KeyHeadBytes(b.khead), b.key);
    KeyHeadRoundTrip(b.khead);
  }

  lemma KeydataStored(mem: seq<Byte>, o: nat, b: Block)
    requires Holds(mem, o, b) && b.Key?
    ensures b.khead.size == KEYHEAD_SIZE + |b.key| && o + b.khead.size <= |mem|
    ensures mem[o + KEYHEAD_SIZE..o + b.khead.size] == b.key
  {
    HasSplit(mem, o, KeyHeadBytes(b.khead), b.key);
  }

  lemma KeyRewritten(mem: seq<Byte>, o: nat, b: Block, h: KeyHead)
    requires Holds(mem, o, b) && b.Key? && h.size == b.khead.size
    ensures Holds(Poke(mem, o, KeyHeadBytes(h)), o, Key(h, b.key))
    ensures Within(mem, Poke(mem, o, KeyHeadBytes(h)), o, o + Size(b))
  {
    var m := Poke(mem, o, KeyHeadBytes(h));
    HasSplit(mem, o, KeyHeadBytes(b.khead), b.key);
    PokeHas(mem, o, KeyHeadBytes(h));
    PokeWithin(mem, o, KeyHeadBytes(h), o, o + KEYHEAD_SIZE);
    WithinFrame(mem, m, o, o + KEYHEAD_SIZE, o + KEYHEAD_SIZE, o + Size(b));
    assert Has(m, o + KEYHEAD_SIZE, b.key);
    HasSplit(m, o, KeyHeadBytes(h), b.key);
    PokeWithin(mem, o, KeyHeadBytes(h), o, o + Size(b));
  }

  /** Refilling a block that is not free keeps the allocator's invariant. */
  lemma SoundRetag(mem: seq<Byte>, mem': seq<Byte>, heap: Heap, free: seq<nat>, hd: Header, o: nat, b: Block)
    requires IsSound(mem, heap, free, hd)
    requires o in heap && !heap[o].Free? && !b.Free? && Size(b) == Size(heap[o])
    requires Within(mem, mem', o, o + Size(b)) && Holds(mem', o, b)
    ensures IsSound(mem', heap[o := b], free, hd)
  {
    EncodedRetag(mem, mem', heap, hd.size, o, b);
    TiledRetag(heap, hd.size, o, b);
    FreeFrame(heap, heap[o := b], hd.offE, free);
  }

}
