/** Storing, reading and releasing values: td_store_value, td_read_value, td_yield_all, td_unlink_value. */
module Values {
  import opened Bytes
  import opened Tilings
  import opened Blocks
  import opened FreeLists
  import opened Store
  import opened Fitness
  import opened Allocator
  import opened Chains
  import opened Vectors
  import Checksums

  lemma ChunkFilled(mem: seq<Byte>, heap: Heap, free: seq<nat>, hd: Header, o: nat, head: ChunkHead, data: seq<Byte>)
    requires IsSound(mem, heap, free, hd)
    requires o in heap && heap[o] == Raw(CHUNKHEAD_SIZE + |data|) && head.size == CHUNKHEAD_SIZE + |data|
    ensures o + CHUNKHEAD_SIZE + |data| <= |mem|
    ensures IsSound(Poke(Poke(mem, o, ChunkHeadBytes(head)), o + CHUNKHEAD_SIZE, data),
                    heap[o := Chunk(head, data)], free, hd)
  {
    hide IsSound;
    BlockOf(mem, heap, free, hd, o);
    HoldsRecord(mem, o, ChunkHeadBytes(head), data);
    SoundRetag(mem, Poke(Poke(mem, o, ChunkHeadBytes(head)), o + CHUNKHEAD_SIZE, data), heap, free, hd, o,
      Chunk(head, data));
  }

  /** Fills a granted block with a chunk of a value. */
  method StoreValuechunk(td: Td, chunkoff: nat, next: Word, data: seq<Byte>, refcount: Word, flags: Flags)
    returns (ghost b: Block)
    requires td.Sound()
    requires chunkoff in td.heap && td.heap[chunkoff] == Raw(CHUNKHEAD_SIZE + |data|)
    modifies td`mem, td`header, td`heap
    ensures td.Sound()
    ensures td.header == old(td.header).(nchunks := old(td.header).nchunks + 1)
    ensures td.heap == old(td.heap)[chunkoff := b] && Room(td) == old(Room(td))
    ensures b.Chunk? && b.data == data && b.chead.next == next && b.chead.refcount == refcount
    ensures flags.checksum ==> SummedAt(b)
  {
    hide IsSound, SizesOf, Largest;
    BlockOf(td.mem, td.heap, td.free, td.header, chunkoff);
    var head := ChunkHead(next, |data| + CHUNKHEAD_SIZE, 0, refcount);
    if flags.checksum {
      var sum := Checksums.Create(data);
      head := head.(checksum := sum);
    }
    ChunkFilled(td.mem, td.heap, td.free, td.header, chunkoff, head, data);
    ghost var hd := td.header.(nchunks := td.header.nchunks + 1);
    td.Write(chunkoff, ChunkHeadBytes(head));
    td.Write(chunkoff + CHUNKHEAD_SIZE, data);
    b := Chunk(head, data);
    SizesRetagged(td.heap, td.free, chunkoff, b);
    td.heap := td.heap[chunkoff := b];
    SoundCounters(td.mem, td.heap, td.free, td.header, hd);
    td.header := td.header.(nchunks := td.header.nchunks + 1);
  }

  /** The allocator does not look at the tree's root, the change number or the counts of entries and chunks. */
  lemma SoundCounters(mem: seq<Byte>, heap: Heap, free: seq<nat>, hd: Header, hd': Header)
    requires IsSound(mem, heap, free, hd)
    requires hd'.size == hd.size && hd'.align == hd.align && hd'.offE == hd.offE && hd'.nempties == hd.nempties
    ensures IsSound(mem, heap, free, hd')
  {
  }

  /** The vector holds these segments, and the first needed of their bytes are still to be stored. */
  ghost predicate Holding(vec: SegVec, segs: seq<seq<Byte>>, needed: nat)
    reads vec
  {
    && |vec.list| == |segs|
    && (forall i | 0 <= i < |segs| :: vec.list[i].data == segs[i])
    && Fresh(vec.list, vec.offset)
    && needed <= |Concat(segs)|
    && Remaining(vec.list, vec.offset) == Concat(segs)[..needed]
  }

  lemma HoldingAll(list: seq<Seg>, segs: seq<seq<Byte>>)
    requires |list| == |segs| > 0 && forall i | 0 <= i < |segs| :: list[i] == Seg(segs[i], 0)
    ensures Fresh(list, |list| - 1) && Remaining(list, |list| - 1) == Concat(segs)[..|Concat(segs)|]
  {
    BeforeIsAll(list, segs);
    NoneUsed(list, |list| - 1);
  }

  lemma HoldingNew(vec: SegVec, segs: seq<seq<Byte>>)
    requires |vec.list| == |segs| > 0 && forall i | 0 <= i < |segs| :: vec.list[i] == Seg(segs[i], 0)
    requires vec.offset == |segs| - 1
    ensures Holding(vec, segs, |Concat(segs)|)
  {
    HoldingAll(vec.list, segs);
  }

  /** Taking n bytes leaves the front of the value; if the value is copyable, it yields what comes next. */
  lemma HoldingLess(list: seq<Seg>, offset: nat, list': seq<Seg>, offset': nat, segs: seq<seq<Byte>>, needed: nat,
                    n: nat)
    requires |list| == |list'| == |segs| && Fresh(list, offset) && Fresh(list', offset')
    requires forall i | 0 <= i < |segs| :: list[i].data == segs[i] == list'[i].data
    requires needed <= |Concat(segs)| && Remaining(list, offset) == Concat(segs)[..needed]
    requires n <= needed && |Remaining(list', offset')| == needed - n
    ensures Remaining(list', offset') == Concat(segs)[..needed - n]
    ensures Copyable(segs) ==> Taken(list, offset, n) == Concat(segs)[needed - n..needed]
  {
    hide Concat, Before, Remaining, Copyable, Taken;
    RemainingPrefix(list', offset');
    BeforeIsAll(list', segs);
    if Copyable(segs) {
      TakenRight(list, offset, segs, n);
      assert Last(Concat(segs)[..needed], n) == Concat(segs)[needed - n..needed];
    }
  }

  /** Fills a granted block from the vector, with or without copying. */
  method StoreChunk(td: Td, chunkoff: nat, n: nat, nextchunk: Word, vec: SegVec, refcount: Word, flags: Flags,
                    ghost segs: seq<seq<Byte>>, ghost needed: nat)
    returns (ghost b: Block)
    requires td.Sound()
    requires chunkoff in td.heap && td.heap[chunkoff] == Raw(CHUNKHEAD_SIZE + n)
    requires Holding(vec, segs, needed) && n <= needed
    modifies td`mem, td`header, td`heap, vec
    ensures td.Sound()
    ensures td.header == old(td.header).(nchunks := old(td.header).nchunks + 1)
    ensures td.heap == old(td.heap)[chunkoff := b] && Room(td) == old(Room(td))
    ensures b.Chunk? && |b.data| == n && b.chead.next == nextchunk && b.chead.refcount == refcount
    ensures flags.checksum ==> SummedAt(b)
    ensures Holding(vec, segs, needed - n)
    ensures Copyable(segs) ==> b.data == Concat(segs)[needed - n..needed]
  {
    hide IsSound, Taken, Copied, Remaining, Room;
    var cur := vec.list[vec.offset];
    var chunk: seq<Byte>;
    ghost var list, offset := vec.list, vec.offset;
    if n <= |cur.data| - cur.used {
      chunk := vec.TakeNoCopy(n);
    } else {
      var ok;
      ok, chunk := vec.TakeCopy(n);
      CopiedIsTaken(list, offset, n);
    }
    HoldingLess(list, offset, vec.list, vec.offset, segs, needed, n);
    TakenLength(list, offset, n);
    b := StoreValuechunk(td, chunkoff, nextchunk, chunk, refcount, flags);
  }

  lemma CopiedIsTaken(list: seq<Seg>, offset: nat, n: nat)
    requires Fresh(list, offset) && |list[offset].data| - list[offset].used < n <= |Remaining(list, offset)|
    ensures Taken(list, offset, n) == Copied(list, offset, n)
  {
  }

  lemma TakenLength(list: seq<Seg>, offset: nat, n: nat)
    requires Fresh(list, offset) && n <= |Remaining(list, offset)|
    ensures |Taken(list, offset, n)| == n
  {
  }

  ghost predicate SameButValues(h: Header, h': Header) {
    h' == h.(size := h'.size, offE := h'.offE, nempties := h'.nempties, nchunks := h'.nchunks)
  }

  /** The chunks of a chain as they are written: their number of references and, if asked for, their sums. */
  ghost predicate Fit(m: Heap, chain: seq<nat>, refcount: Word, flags: Flags) {
    forall o | o in chain && o in m && m[o].Chunk? ::
      m[o].chead.refcount == refcount && (flags.checksum ==> SummedAt(m[o]))
  }

  /** A chain of new chunks, holding data, has been added to the store. */
  ghost predicate Stored(m0: Heap, m: Heap, off: nat, chain: seq<nat>, refcount: Word, flags: Flags) {
    Added(m0, m, chain) && Chain(m, off, chain) && Fit(m, chain, refcount, flags)
  }

  lemma GrantFilled(heap0: Heap, heap1: Heap, off: nat, size: nat, b: Block)
    requires Granted(heap0, heap1, off, size) && !b.Free?
    ensures off !in Used(heap0)
    ensures off in heap1 && heap1[off] == Raw(size)
    ensures Used(heap1[off := b]) == Used(heap0)[off := b]
  {
    assert off in Used(heap1);
    UsedUpdate(heap1, off, b);
  }

  lemma StoredPush(m0: Heap, m: Heap, next: Word, chain: seq<nat>, refcount: Word, flags: Flags, o: nat, b: Block)
    requires Stored(m0, m, next, chain, refcount, flags)
    requires o !in m && o != 0 && b.Chunk? && b.chead.next == next && b.chead.refcount == refcount
    requires flags.checksum ==> SummedAt(b)
    ensures Stored(m0, m[o := b], o, [o] + chain, refcount, flags)
    ensures DataOf(m[o := b], [o] + chain) == b.data + DataOf(m, chain)
  {
    ChainPush(m0, m, next, chain, o, b);
    ChainMembers(m, next, chain);
  }

  /** The zero-length value is one bare chunk head. */
  method StoreEmptyValue(td: Td, refcount: Word, flags: Flags) returns (r: Status, off: Word, ghost chain: seq<nat>)
    requires td.Sound()
    modifies td`mem, td`header, td`heap, td`free, td`calls
    ensures r == Ok || r == Space
    ensures old(Room(td)) >= 2 * CHUNKHEAD_SIZE ==> r == Ok && Room(td) >= old(Room(td)) - CHUNKHEAD_SIZE
    ensures td.calls >= old(td.calls)
    ensures r == Space && td.extendable ==> td.calls > old(td.calls) && ShortGrant(td, 2 * CHUNKHEAD_SIZE)
    ensures td.Sound() && SameButValues(old(td.header), td.header)
    ensures |chain| == (if r == Ok then 1 else 0) && td.header.nchunks == old(td.header).nchunks + |chain|
    ensures Stored(Used(old(td.heap)), Used(td.heap), off, chain, refcount, flags)
    ensures DataOf(Used(td.heap), chain) == []
  {
    hide IsSound, Granted, Used, Stored, Room, ShortGrant, NoneFits, Picks, Relisted, ListGrew;
    ghost var m0 := Used(old(td.heap));
    NothingStored(m0, refcount, flags);
    var given;
    ghost var at, seen, have1, free1;
    r, off, given, at, seen, have1, free1 := Claim(td, false, CHUNKHEAD_SIZE);
    chain := [];
    if r != Ok {
      return r, 0, chain;
    }
    GrantFilled(old(td.heap), td.heap, off, given, Raw(given));
    ghost var heap1 := td.heap;
    ghost var b := StoreValuechunk(td, off, 0, [], refcount, flags);
    GrantFilled(old(td.heap), heap1, off, given, b);
    chain := [off];
    BlockOf(td.mem, td.heap, td.free, td.header, off);
    StoredPush(m0, m0, 0, [], refcount, flags, off, b);
    assert [off] + [] == [off];
  }

  lemma NothingStored(m: Heap, refcount: Word, flags: Flags)
    ensures Stored(m, m, 0, [], refcount, flags) && DataOf(m, []) == []
  {
  }

  /** Claims space for what is needed and fills what is granted from the end of the value. */
  method StorePiece(td: Td, needed: nat, nextchunk: Word, vec: SegVec, refcount: Word, flags: Flags,
                    ghost segs: seq<seq<Byte>>)
    returns (r: Status, chunkoff: Word, useful: nat, ghost b: Block)
    requires td.Sound()
    requires 0 < needed && needed + CHUNKHEAD_SIZE < WORD_LIMIT && Holding(vec, segs, needed)
    modifies td`mem, td`header, td`heap, td`free, td`calls, vec
    ensures r == Ok || r == Space
    ensures old(Room(td)) >= needed + 2 * CHUNKHEAD_SIZE ==>
              r == Ok && Room(td) >= old(Room(td)) - if useful == needed then needed + CHUNKHEAD_SIZE else 0
    ensures td.calls >= old(td.calls)
    ensures r == Space && td.extendable ==> td.calls > old(td.calls) && ShortGrant(td, needed + 2 * CHUNKHEAD_SIZE)
    ensures td.Sound() && SameButValues(old(td.header), td.header)
    ensures r == Space ==> Used(td.heap) == Used(old(td.heap)) && td.header.nchunks == old(td.header).nchunks
    ensures r == Ok ==> td.header.nchunks == old(td.header).nchunks + 1
    ensures r == Ok ==> chunkoff !in Used(old(td.heap)) && chunkoff != 0
    ensures r == Ok ==> Used(td.heap) == Used(old(td.heap))[chunkoff := b]
    ensures r == Ok ==> b.Chunk? && b.chead.next == nextchunk && b.chead.refcount == refcount
    ensures r == Ok && flags.checksum ==> SummedAt(b)
    ensures r == Ok ==> useful <= needed && Holding(vec, segs, needed - useful)
    ensures r == Ok && Copyable(segs) ==> needed <= |Concat(segs)| && b.data == Concat(segs)[needed - useful..needed]
    ensures r == Ok && useful == 0 ==> |td.free| < |old(td.free)|
  {
    hide IsSound, Granted, Used, Holding, Concat, Room, ShortGrant, NoneFits, Picks, Relisted, ListGrew;
    HoldingBound(vec, segs, needed);
    var given;
    useful, b := 0, Raw(0);
    ghost var at, seen, have1, free1;
    r, chunkoff, given, at, seen, have1, free1 := Claim(td, false, needed + CHUNKHEAD_SIZE);
    if r != Ok {
      return;
    }
    GrantFilled(old(td.heap), td.heap, chunkoff, given, Raw(given));
    ghost var heap1 := td.heap;
    useful := given - CHUNKHEAD_SIZE;
    b := StoreChunk(td, chunkoff, useful, nextchunk, vec, refcount, flags, segs, needed);
    GrantFilled(old(td.heap), heap1, chunkoff, given, b);
    BlockOf(td.mem, td.heap, td.free, td.header, chunkoff);
  }

  lemma HoldingBound(vec: SegVec, segs: seq<seq<Byte>>, needed: nat)
    requires Holding(vec, segs, needed)
    ensures needed <= |Concat(segs)|
  {
  }

  /**
   * Stores a value back to front in whatever the allocator grants. Each round either stores bytes or
   * shortens the free list, so it ends even when chunks have room for nothing but their head. When space
   * runs out, the chunks filled so far stay where they are.
   */
  method StoreValue(td: Td, segs: seq<seq<Byte>>, refcount: Word, flags: Flags)
    returns (r: Status, off: Word, ghost chain: seq<nat>)
    requires td.Sound()
    requires |Concat(segs)| + CHUNKHEAD_SIZE < WORD_LIMIT
    modifies td`mem, td`header, td`heap, td`free, td`calls
    ensures r == Ok || r == Space || r == Invalid
    ensures r == Invalid <==> segs == []
    ensures old(Room(td)) >= |Concat(segs)| + 2 * CHUNKHEAD_SIZE ==>
              r != Space && Room(td) >= old(Room(td)) - |Concat(segs)| - CHUNKHEAD_SIZE
    ensures td.calls >= old(td.calls)
    ensures r == Space && td.extendable ==>
              td.calls > old(td.calls) && ShortGrant(td, |Concat(segs)| + 2 * CHUNKHEAD_SIZE)
    ensures td.Sound() && SameButValues(old(td.header), td.header)
    ensures td.header.nchunks == old(td.header).nchunks + |chain| && (r == Ok ==> chain != []) &&
      (r == Invalid ==> chain == [])
    ensures Stored(Used(old(td.heap)), Used(td.heap), off, chain, refcount, flags)
    ensures r == Ok && Copyable(segs) ==> DataOf(Used(td.heap), chain) == Concat(segs)
  {
    hide IsSound, Granted, Used, Stored, Holding, Concat, Room, ShortGrant;
    off, chain := 0, [];
    ghost var m0 := Used(td.heap);
    NothingStored(m0, refcount, flags);
    if |segs| == 0 {
      return Invalid, off, chain;
    }
    var vec := new SegVec(segs);
    HoldingNew(vec, segs);
    var needed := TotalSize(segs);
    if needed == 0 {
      r, off, chain := StoreEmptyValue(td, refcount, flags);
      return;
    }
    var nextchunk: Word := 0;
    while needed != 0
      invariant td.Sound() && SameButValues(old(td.header), td.header)
      invariant td.header.nchunks == old(td.header).nchunks + |chain|
      invariant 0 <= needed <= |Concat(segs)| && Holding(vec, segs, needed) && off == nextchunk
      invariant Stored(m0, Used(td.heap), nextchunk, chain, refcount, flags)
      invariant Copyable(segs) ==> DataOf(Used(td.heap), chain) == Concat(segs)[needed..]
      invariant needed == 0 ==> chain != []
      invariant td.calls >= old(td.calls)
      invariant old(Room(td)) >= |Concat(segs)| + 2 * CHUNKHEAD_SIZE ==>
                  Room(td) >= old(Room(td)) - if needed == 0 then |Concat(segs)| + CHUNKHEAD_SIZE else 0
      decreases needed, |td.free|
    {
      ghost var m, needed0 := Used(td.heap), needed;
      var chunkoff, useful;
      ghost var b;
      r, chunkoff, useful, b := StorePiece(td, needed, nextchunk, vec, refcount, flags, segs);
      if r != Ok {
        if td.extendable {
          ShorterGrant(td, needed + 2 * CHUNKHEAD_SIZE, |Concat(segs)| + 2 * CHUNKHEAD_SIZE);
        }
        return;
      }
      StoredPush(m0, m, nextchunk, chain, refcount, flags, chunkoff, b);
      off, nextchunk := chunkoff, chunkoff;
      chain := [chunkoff] + chain;
      needed := needed - useful;
      assert Concat(segs)[needed..needed0] + Concat(segs)[needed0..] == Concat(segs)[needed..];
    }
    r := Ok;
  }

  method TotalSize(segs: seq<seq<Byte>>) returns (needed: nat)
    ensures needed == |Concat(segs)|
  {
    needed := 0;
    for i := 0 to |segs|
      invariant needed == |Concat(segs[..i])|
    {
      assert segs[..i + 1][..i] == segs[..i];
      needed := needed + |segs[i]|;
    }
    assert segs[..|segs|] == segs;
  }

  // ------------------------------------------------------------ releasing

  lemma ChunkReady(mem: seq<Byte>, heap: Heap, free: seq<nat>, hd: Header, o: nat)
    requires IsSound(mem, heap, free, hd) && o in heap && (heap[o].Key? || heap[o].Chunk?)
    ensures o + 16 <= |mem| && o != 0 && Size(heap[o]) < WORD_LIMIT && Has(mem, o + 4, Pack(Size(heap[o])))
    ensures heap[o].Chunk? ==> Unpack(mem[o..o + 4]) == heap[o].chead.next
  {
    BlockOf(mem, heap, free, hd, o);
    SizeWord(mem, o, heap[o]);
    if heap[o].Chunk? {
      LinkStored(mem, o, heap[o]);
    }
  }

  lemma InUse(heap: Heap, ptr: nat, chain: seq<nat>)
    requires Chain(Used(heap), ptr, chain) && chain != []
    ensures ptr == chain[0] && ptr in heap && heap[ptr].Chunk? && Used(heap)[ptr] == heap[ptr]
  {
  }

  /** One chunk less: what the store and the rest of its chain look like. */
  lemma YieldedFirst(m0: Heap, m: Heap, ptr: nat, done: seq<nat>, rest: seq<nat>)
    requires Chain(m, ptr, rest) && rest != [] && Removed(m0, m, done)
    ensures ptr in m && m[ptr].Chunk?
    ensures Removed(m0, m - {ptr}, done + [ptr])
    ensures Chain(m - {ptr}, m[ptr].chead.next, rest[1..])
  {
    ChainPop(m, m - {ptr}, ptr, rest);
  }

  /** Puts every chunk of a value on the free list. */
  method YieldAll(td: Td, first: Word, ghost chain: seq<nat>)
    requires td.Sound() && Chain(Used(td.heap), first, chain) && |chain| <= td.header.nchunks
    modifies td`mem, td`header, td`heap, td`free
    ensures td.Sound() && SameButValues(old(td.header), td.header) && td.header.size == old(td.header).size
    ensures td.header.nchunks == old(td.header).nchunks - |chain|
    ensures Removed(Used(old(td.heap)), Used(td.heap), chain)
    ensures |td.free| == |old(td.free)| + |chain| && td.free[|chain|..] == old(td.free)
    ensures Room(td) >= old(Room(td))
  {
    hide IsSound, Used, Chain, Removed, Largest, SizesOf;
    var ptr := first;
    ghost var m0, done, rest := Used(td.heap), [], chain;
    RemovedNone(m0);
    ChainEnd(m0, ptr, rest);
    while ptr != 0
      invariant td.Sound() && SameButValues(old(td.header), td.header) && td.header.size == old(td.header).size
      invariant chain == done + rest && td.header.nchunks == old(td.header).nchunks - |done|
      invariant |td.free| == |old(td.free)| + |done| && td.free[|done|..] == old(td.free)
      invariant Room(td) >= old(Room(td))
      invariant Chain(Used(td.heap), ptr, rest) && Removed(m0, Used(td.heap), done)
      invariant ptr == 0 <==> rest == []
      decreases |rest|
    {
      ghost var heap, freed := td.heap, td.free;
      InUse(heap, ptr, rest);
      ChunkReady(td.mem, td.heap, td.free, td.header, ptr);
      YieldedFirst(m0, Used(heap), ptr, done, rest);
      var next := td.ReadUint(ptr);
      RoomWith(Size(td.heap[ptr]), SizesOf(td.heap, td.free));
      Yield(td, ptr);
      UsedRemove(heap, ptr, td.heap[ptr]);
      ghost var hd := td.header.(nchunks := td.header.nchunks - 1);
      SoundCounters(td.mem, td.heap, td.free, td.header, hd);
      td.header := td.header.(nchunks := td.header.nchunks - 1);
      PushedOn(freed, ptr, |done|, old(td.free));
      OneFurther(chain, done, rest);
      done, rest := done + [rest[0]], rest[1..];
      ptr := next;
      ChainEnd(Used(td.heap), ptr, rest);
    }
    assert done == chain;
  }

  lemma PushedOn(free: seq<nat>, o: nat, n: nat, free0: seq<nat>)
    requires n <= |free| && free[n..] == free0
    ensures ([o] + free)[n + 1..] == free0
  {
  }

  lemma OneFurther(chain: seq<nat>, done: seq<nat>, rest: seq<nat>)
    requires chain == done + rest && rest != []
    ensures chain == (done + [rest[0]]) + rest[1..]
  {
  }

  lemma RemovedNone(m: Heap)
    ensures Removed(m, m, [])
  {
  }

  lemma ChainEnd(m: Heap, ptr: nat, chain: seq<nat>)
    requires Chain(m, ptr, chain)
    ensures ptr == 0 <==> chain == []
  {
  }

  lemma ChunkRewritten(mem: seq<Byte>, heap: Heap, free: seq<nat>, hd: Header, o: nat, head: ChunkHead)
    requires IsSound(mem, heap, free, hd)
    requires o in heap && heap[o].Chunk? && head.size == heap[o].chead.size
    ensures o + CHUNKHEAD_SIZE <= |mem|
    ensures IsSound(Poke(mem, o, ChunkHeadBytes(head)), heap[o := Chunk(head, heap[o].data)], free, hd)
  {
    hide IsSound;
    BlockOf(mem, heap, free, hd, o);
    var b := heap[o];
    var m := Poke(mem, o, ChunkHeadBytes(head));
    HasSplit(mem, o, ChunkHeadBytes(b.chead), b.data);
    PokeHas(mem, o, ChunkHeadBytes(head));
    PokeWithin(mem, o, ChunkHeadBytes(head), o, o + CHUNKHEAD_SIZE);
    WithinFrame(mem, m, o, o + CHUNKHEAD_SIZE, o + CHUNKHEAD_SIZE, o + Size(b));
    assert Has(m, o + CHUNKHEAD_SIZE, b.data);
    HasSplit(m, o, ChunkHeadBytes(head), b.data);
    PokeWithin(mem, o, ChunkHeadBytes(head), o, o + Size(b));
    SoundRetag(mem, m, heap, free, hd, o, Chunk(head, b.data));
  }

  /** Drops one reference to a value; the last one takes the value with it. */
  method UnlinkValue(td: Td, valueptr: Word, ghost chain: seq<nat>)
    requires td.Sound() && Chain(Used(td.heap), valueptr, chain) && chain != [] && |chain| <= td.header.nchunks
    modifies td`mem, td`header, td`heap, td`free
    ensures td.Sound() && SameButValues(old(td.header), td.header) && td.header.size == old(td.header).size
    ensures Room(td) >= old(Room(td))
    ensures valueptr in old(td.heap) && old(td.heap)[valueptr].Chunk?
    ensures var b := old(td.heap)[valueptr];
            if b.chead.refcount <= 1 then
              && td.header.nchunks == old(td.header).nchunks - |chain|
              && Removed(Used(old(td.heap)), Used(td.heap), chain)
              && |td.free| == |old(td.free)| + |chain| && td.free[|chain|..] == old(td.free)
            else
              && td.header == old(td.header) && td.free == old(td.free)
              && td.heap == old(td.heap)[valueptr := Chunk(b.chead.(refcount := b.chead.refcount - 1), b.data)]
  {
    hide IsSound, Used, Chain, Removed, SizesOf, Largest;
    InUse(td.heap, valueptr, chain);
    var head := td.ReadChunkhead(valueptr);
    if head.refcount <= 1 {
      YieldAll(td, valueptr, chain);
    } else {
      head := head.(refcount := head.refcount - 1);
      ghost var b := Chunk(head, td.heap[valueptr].data);
      ChunkRewritten(td.mem, td.heap, td.free, td.header, valueptr, head);
      SizesRetagged(td.heap, td.free, valueptr, b);
      td.Write(valueptr, ChunkHeadBytes(head));
      td.heap := td.heap[valueptr := b];
    }
  }

  // ------------------------------------------------------------ reading

  /** A caller's buffer: one that is allocated as needed, or one of n bytes. */
  datatype Capacity = Grow | Fixed(n: nat)

  /** What fits into the caller's buffer. */
  function Cut(bs: seq<Byte>, cap: Capacity): (r: seq<Byte>)
    ensures r <= bs && (cap.Grow? || |bs| <= cap.n ==> r == bs) && (cap.Fixed? && |bs| > cap.n ==> |r| == cap.n)
  {
    if cap.Fixed? && cap.n < |bs| then bs[..cap.n] else bs
  }

  lemma ChunkBytes(mem: seq<Byte>, heap: Heap, free: seq<nat>, hd: Header, o: nat)
    requires IsSound(mem, heap, free, hd) && o in heap && heap[o].Chunk?
    ensures heap[o].chead.size == CHUNKHEAD_SIZE + |heap[o].data|
    ensures o + heap[o].chead.size <= |mem|
    ensures mem[o + CHUNKHEAD_SIZE..o + heap[o].chead.size] == heap[o].data
  {
    BlockOf(mem, heap, free, hd, o);
    HasSplit(mem, o, ChunkHeadBytes(heap[o].chead), heap[o].data);
  }

  ghost predicate AllSummed(m: Heap, chain: seq<nat>) {
    forall o | o in chain && o in m :: SummedAt(m[o])
  }

  /** The chunks read into a buffer pass their checksums: those that come before it has overflowed. */
  ghost predicate ReadsClean(m: Heap, chain: seq<nat>, cap: Capacity) {
    forall i | 0 <= i < |chain| && chain[i] in m && (cap.Fixed? ==> |DataOf(m, chain[..i])| <= cap.n) ::
      SummedAt(m[chain[i]])
  }

  lemma {:induction false} DataOfParts(m: Heap, a: seq<nat>, b: seq<nat>)
    ensures DataOf(m, a + b) == DataOf(m, a) + DataOf(m, b)
  {
    if a == [] {
      assert a + b == b;
    } else {
      assert (a + b)[1..] == a[1..] + b;
      DataOfParts(m, a[1..], b);
    }
  }

  lemma DataOfNext(m: Heap, chain: seq<nat>, i: nat)
    requires i < |chain| && chain[i] in m && m[chain[i]].Chunk?
    ensures DataOf(m, chain[..i + 1]) == DataOf(m, chain[..i]) + m[chain[i]].data
  {
    assert chain[..i + 1] == chain[..i] + [chain[i]];
    DataOfParts(m, chain[..i], [chain[i]]);
    assert DataOf(m, [chain[i]]) == m[chain[i]].data + DataOf(m, []);
  }

  lemma DataOfGrows(m: Heap, chain: seq<nat>, i: nat, j: nat)
    requires i <= j <= |chain|
    ensures |DataOf(m, chain[..i])| <= |DataOf(m, chain[..j])|
  {
    assert chain[..j] == chain[..i] + chain[i..j];
    DataOfParts(m, chain[..i], chain[i..j]);
  }

  /** What has been read so far is all that is ever read of a value that overflows the buffer now. */
  lemma ReadEnough(m: Heap, chain: seq<nat>, cap: Capacity, n: nat)
    requires n <= |chain| && (n < |chain| ==> cap.Fixed? && |DataOf(m, chain[..n])| > cap.n)
    requires forall i | 0 <= i < n && chain[i] in m :: SummedAt(m[chain[i]])
    ensures ReadsClean(m, chain, cap)
  {
    forall i | n <= i < |chain| ensures cap.Fixed? && |DataOf(m, chain[..i])| > cap.n {
      DataOfGrows(m, chain, n, i);
    }
  }

  lemma ReadUnclean(m: Heap, chain: seq<nat>, cap: Capacity, i: nat)
    requires i < |chain| && chain[i] in m && (cap.Fixed? ==> |DataOf(m, chain[..i])| <= cap.n)
    requires m[chain[i]].Chunk? && m[chain[i]].chead.checksum != Checksums.Fnv(m[chain[i]].data)
    ensures !ReadsClean(m, chain, cap)
  {
  }

  lemma ChecksOut(b: Block)
    requires b.Chunk? && b.chead.checksum == Checksums.Fnv(b.data)
    ensures SummedAt(b)
  {
  }

  lemma AllRead(m: Heap, chain: seq<nat>, cap: Capacity)
    requires AllSummed(m, chain)
    ensures ReadsClean(m, chain, cap)
  {
  }

  /** Reads a value chunk by chunk until its end or the end of the buffer. */
  method ReadValue(td: Td, first: Word, cap: Capacity, flags: Flags, ghost chain: seq<nat>)
    returns (r: Status, value: seq<Byte>)
    requires td.Sound() && Chain(Used(td.heap), first, chain)
    ensures r == Ok || r == Checksum
    ensures r == Ok ==> value == Cut(DataOf(Used(td.heap), chain), cap)
    ensures r == Ok <==> !flags.checksum || ReadsClean(Used(td.heap), chain, cap)
    ensures AllSummed(Used(td.heap), chain) ==> r == Ok
  {
    hide IsSound, Used, Chain, SummedAt, DataOf, Cut, AllSummed, ReadsClean;
    value := [];
    var ptr: Word := first;
    ghost var m, n, rest := Used(td.heap), 0, chain;
    ChainEnd(m, ptr, rest);
    NoData(m);
    assert chain[..0] == [];
    if AllSummed(m, chain) {
      AllRead(m, chain, cap);
    }
    while ptr != 0
      invariant n <= |chain| && rest == chain[n..] && value == DataOf(m, chain[..n])
      invariant Chain(m, ptr, rest) && (ptr == 0 <==> rest == [])
      invariant cap.Fixed? ==> |value| <= cap.n
      invariant flags.checksum ==> forall i | 0 <= i < n && chain[i] in m :: SummedAt(m[chain[i]])
      decreases |rest|
    {
      RestOf(chain, n);
      InUse(td.heap, ptr, rest);
      ChainStep(m, ptr, rest);
      DataOfNext(m, chain, n);
      ChunkBytes(td.mem, td.heap, td.free, td.header, ptr);
      var head := td.ReadChunkhead(ptr);
      var chunksize := head.size - CHUNKHEAD_SIZE;
      var chunkdata := td.Read(ptr + CHUNKHEAD_SIZE, chunksize);
      if flags.checksum {
        var ok := Checksums.Verify(chunkdata, head.checksum);
        if !ok {
          ReadUnclean(m, chain, cap, n);
          return Checksum, value;
        }
        ChecksOut(m[ptr]);
      }
      n := n + 1;
      if cap.Fixed? && |value| + chunksize > cap.n {
        if flags.checksum {
          ReadEnough(m, chain, cap, n);
        }
        ReadCut(m, chain, n - 1, cap);
        value := value + chunkdata[..cap.n - |value|];
        return Ok, value;
      }
      value := value + chunkdata;
      RestOf(chain, n - 1);
      ptr, rest := head.next, rest[1..];
      ChainEnd(m, ptr, rest);
    }
    if flags.checksum {
      ReadEnough(m, chain, cap, n);
    }
    assert chain[..n] == chain;
    CutNowhere(value, cap);
    r := Ok;
  }

  lemma ChainStep(m: Heap, ptr: nat, chain: seq<nat>)
    requires Chain(m, ptr, chain) && chain != []
    ensures ptr in m && m[ptr].Chunk? && ptr in chain
    ensures Chain(m, m[ptr].chead.next, chain[1..])
    ensures DataOf(m, chain) == m[ptr].data + DataOf(m, chain[1..])
  {
  }

  lemma NoData(m: Heap)
    ensures DataOf(m, []) == []
  {
  }

  lemma RestOf(chain: seq<nat>, n: nat)
    requires n < |chain|
    ensures chain[n..] != [] && chain[n..][0] == chain[n] && chain[n..][1..] == chain[n + 1..]
  {
  }

  /** What the buffer holds when the n-th chunk has overflowed it. */
  lemma ReadCut(m: Heap, chain: seq<nat>, n: nat, cap: Capacity)
    requires n < |chain| && chain[n] in m && m[chain[n]].Chunk?
    requires cap.Fixed? && |DataOf(m, chain[..n])| <= cap.n < |DataOf(m, chain[..n])| + |m[chain[n]].data|
    ensures Cut(DataOf(m, chain), cap) ==
            DataOf(m, chain[..n]) + m[chain[n]].data[..cap.n - |DataOf(m, chain[..n])|]
  {
    hide DataOf;
    DataOfNext(m, chain, n);
    DataOfParts(m, chain[..n + 1], chain[n + 1..]);
    assert chain[..n + 1] + chain[n + 1..] == chain;
    CutHere(DataOf(m, chain[..n]), m[chain[n]].data, DataOf(m, chain[n + 1..]), cap);
  }

  lemma CutHere(x: seq<Byte>, y: seq<Byte>, z: seq<Byte>, cap: Capacity)
    requires cap.Fixed? && |x| <= cap.n < |x| + |y|
    ensures Cut((x + y) + z, cap) == x + y[..cap.n - |x|]
  {
  }

  lemma CutNowhere(x: seq<Byte>, cap: Capacity)
    requires cap.Fixed? ==> |x| <= cap.n
    ensures Cut(x, cap) == x
  {
  }

  /** What is stored can be read back, as much of it as fits, and passes the checksums it was stored with. */
  method StoreAndRead(td: Td, segs: seq<seq<Byte>>, refcount: Word, cap: Capacity, flags: Flags)
    returns (r: Status, value: seq<Byte>)
    requires td.Sound()
    requires |Concat(segs)| + CHUNKHEAD_SIZE < WORD_LIMIT
    modifies td`mem, td`header, td`heap, td`free, td`calls
    ensures r == Ok || r == Space || r == Invalid
    ensures r == Invalid <==> segs == []
    ensures old(Room(td)) >= |Concat(segs)| + 2 * CHUNKHEAD_SIZE ==> r != Space
    ensures r == Ok && Copyable(segs) ==> value == Cut(Concat(segs), cap)
  {
    hide IsSound, Used, Stored, DataOf, Concat, Copyable, Cut, AllSummed, Chain;
    value := [];
    var off;
    ghost var chain;
    r, off, chain := StoreValue(td, segs, refcount, flags);
    if r == Ok {
      StoredReads(Used(old(td.heap)), Used(td.heap), off, chain, refcount, flags);
      r, value := ReadValue(td, off, cap, flags, chain);
    }
  }

  lemma StoredReads(m0: Heap, m: Heap, off: nat, chain: seq<nat>, refcount: Word, flags: Flags)
    requires Stored(m0, m, off, chain, refcount, flags)
    ensures Chain(m, off, chain) && (flags.checksum ==> AllSummed(m, chain))
  {
    ChainMembers(m, off, chain);
  }
}
