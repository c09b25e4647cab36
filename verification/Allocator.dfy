/** Granting and taking back space: td_claim, td_extend, td_yield and td_yield_set_zero. */
module Allocator {
  import opened Bytes
  import opened Tilings
  import opened Blocks
  import opened FreeLists
  import opened Store
  import opened Fitness

  // ------------------------------------------------------------ one block at a time, on values

  /** Rewriting the link of a free chunk. */
  lemma LinkRewritten(mem: seq<Byte>, heap: Heap, hi: nat, o: nat, w: Word)
    requires Encoded(mem, heap) && Tiled(heap, hi)
    requires o in heap && heap[o].Free?
    ensures o + 4 <= |mem|
    ensures Encoded(Poke(mem, o, Pack(w)), heap[o := Free(w, heap[o].size)])
    ensures Tiled(heap[o := Free(w, heap[o].size)], hi)
  {
    hide Encoded, Holds, Tiled;
    var b := heap[o];
    HoldsAt(mem, heap, hi, o);
    SizeWord(mem, o, b);
    HoldsFree(mem, o, b.size, w);
    EncodedRetag(mem, Poke(mem, o, Pack(w)), heap, hi, o, Free(w, b.size));
    TiledRetag(heap, hi, o, Free(w, b.size));
  }

  lemma HoldsRaw(mem: seq<Byte>, o: nat, n: nat)
    requires o + n <= |mem|
    ensures Holds(mem, o, Raw(n))
  {
  }

  lemma EncodedWith(mem: seq<Byte>, heap: Heap, o: nat, b: Block)
    requires Encoded(mem, heap) && Holds(mem, o, b)
    ensures Encoded(mem, heap[o := b])
  {
  }

  lemma HoldsAt(mem: seq<Byte>, heap: Heap, hi: nat, o: nat)
    requires Encoded(mem, heap) && Tiled(heap, hi) && o in heap
    ensures Holds(mem, o, heap[o]) && CHUNKHEAD_SIZE <= Size(heap[o]) && o + Size(heap[o]) <= |mem|
    ensures HEADER_SIZE <= o && o + Size(heap[o]) <= hi
  {
    TiledBlock(heap, hi, o);
  }

  /** Giving a block away leaves its bytes as they are. */
  lemma RawTaken(mem: seq<Byte>, heap: Heap, hi: nat, o: nat)
    requires Encoded(mem, heap) && Tiled(heap, hi) && o in heap
    ensures Encoded(mem, heap[o := Raw(Size(heap[o]))])
    ensures Tiled(heap[o := Raw(Size(heap[o]))], hi)
  {
    TiledRetag(heap, hi, o, Raw(Size(heap[o])));
  }

  /** The resource after the link that led to the i-th free chunk is pointed at w. */
  ghost function PointedMem(mem: seq<Byte>, free: seq<nat>, i: nat, w: Word): seq<Byte>
    requires i < |free| && (i > 0 ==> free[i - 1] + 4 <= |mem|)
  {
    if i == 0 then mem else Poke(mem, free[i - 1], Pack(w))
  }

  lemma PredecessorRoom(mem: seq<Byte>, heap: Heap, free: seq<nat>, hd: Header, i: nat)
    requires IsSound(mem, heap, free, hd) && i < |free|
    ensures free[i] in heap && heap[free[i]].Free? && 0 < free[i] && Size(heap[free[i]]) >= CHUNKHEAD_SIZE
    ensures i > 0 ==>
      free[i - 1] + 4 <= |mem| && free[i - 1] in heap && heap[free[i - 1]].Free? && free[i - 1] != free[i]
    ensures At(free, i + 1) < WORD_LIMIT && heap[free[i]].next == At(free, i + 1)
    ensures free[i] + Size(heap[free[i]]) <= |mem|
  {
    assert free[i] in free;
    assert LinkAt(heap, free, i);
    TiledBlock(heap, hd.size, free[i]);
    if i > 0 {
      assert free[i - 1] in free;
      TiledBlock(heap, hd.size, free[i - 1]);
    }
  }

  /** Taking the whole i-th free chunk. */
  lemma SoundTake(mem: seq<Byte>, heap: Heap, free: seq<nat>, hd: Header, i: nat)
    requires IsSound(mem, heap, free, hd) && i < |free|
    ensures free[i] in heap && At(free, i + 1) < WORD_LIMIT && AllFree(heap, free)
    ensures i > 0 ==> free[i - 1] + 4 <= |mem|
    ensures hd.nempties > 0
    ensures var nxt := At(free, i + 1);
            IsSound(PointedMem(mem, free, i, nxt),
                    Pointed(heap, free, i, nxt)[free[i] := Raw(Size(heap[free[i]]))],
                    Shortened(free, i),
                    hd.(offE := if i == 0 then nxt else hd.offE, nempties := hd.nempties - 1))
  {
    hide Tiled, Encoded;
    PredecessorRoom(mem, heap, free, hd, i);
    var nxt: Word := At(free, i + 1);
    if i > 0 {
      LinkRewritten(mem, heap, hd.size, free[i - 1], nxt);
    }
    var heap1 := Pointed(heap, free, i, nxt);
    RawTaken(PointedMem(mem, free, i, nxt), heap1, hd.size, free[i]);
    FreeDrop(heap, hd.offE, free, i, nxt, Raw(Size(heap[free[i]])));
  }

  /** Cutting the chunk at o in two: the front is granted, the rest gets a head of its own at o + want. */
  lemma CutInTwo(mem: seq<Byte>, heap: Heap, hi: nat, o: nat, want: nat, next: Word)
    requires Encoded(mem, heap) && Tiled(heap, hi)
    requires o in heap && heap[o].Free? && CHUNKHEAD_SIZE <= want && want + CHUNKHEAD_SIZE <= heap[o].size
    requires hi == |mem| < WORD_LIMIT
    ensures o + want + CHUNKHEAD_SIZE <= |mem| && o + want !in heap
    ensures var rest := heap[o].size - want;
            var heap' := heap[o := Raw(want)][o + want := Free(next, rest)];
            Encoded(Poke(mem, o + want, ChunkHeadBytes(ChunkHead(next, rest, 0, 0))), heap') && Tiled(heap', hi)
  {
    hide Tiled, Encoded, Holds;
    var q, rest := o + want, heap[o].size - want;
    HoldsAt(mem, heap, hi, o);
    var head := ChunkHead(next, rest, 0, 0);
    var mem' := Poke(mem, q, ChunkHeadBytes(head));
    PokeHas(mem, q, ChunkHeadBytes(head));
    PokeWithin(mem, q, ChunkHeadBytes(head), o, o + heap[o].size);
    HoldsFreshFree(mem', q, head);
    HoldsRaw(mem', o, want);
    EncodedRetag(mem, mem', heap, hi, o, Raw(want));
    EncodedWith(mem', heap[o := Raw(want)], q, Free(next, rest));
    TiledSplit(heap, hi, o, Raw(want), Free(next, rest));
  }

  /** Granting the front of the i-th free chunk and leaving the rest in its place. */
  lemma SoundSplit(mem: seq<Byte>, heap: Heap, free: seq<nat>, hd: Header, i: nat, want: nat)
    requires IsSound(mem, heap, free, hd) && i < |free|
    requires free[i] in heap && CHUNKHEAD_SIZE <= want && want + CHUNKHEAD_SIZE <= Size(heap[free[i]])
    ensures heap[free[i]].Free? && AllFree(heap, free)
    ensures free[i] + want + CHUNKHEAD_SIZE <= |mem| && free[i] + want !in heap
    ensures i > 0 ==> free[i - 1] + 4 <= |mem|
    ensures At(free, i + 1) < WORD_LIMIT
    ensures var q, rest, nxt := free[i] + want, heap[free[i]].size - want, At(free, i + 1);
            IsSound(PointedMem(Poke(mem, q, ChunkHeadBytes(ChunkHead(nxt, rest, 0, 0))), free, i, q),
                    Pointed(heap, free, i, q)[free[i] := Raw(want)][q := Free(nxt, rest)],
                    free[i := q],
                    hd.(offE := if i == 0 then q else hd.offE))
  {
    hide Tiled, Encoded;
    PredecessorRoom(mem, heap, free, hd, i);
    var o := free[i];
    var q: Word, rest: Word, nxt: Word := o + want, heap[o].size - want, At(free, i + 1);
    CutInTwo(mem, heap, hd.size, o, want, nxt);
    var mem1 := Poke(mem, q, ChunkHeadBytes(ChunkHead(nxt, rest, 0, 0)));
    var heap1 := heap[o := Raw(want)][q := Free(nxt, rest)];
    if i > 0 {
      LinkRewritten(mem1, heap1, hd.size, free[i - 1], q);
    }
    assert (if i == 0 then heap1 else heap1[free[i - 1] := Free(q, heap[free[i - 1]].size)])
        == Pointed(heap, free, i, q)[o := Raw(want)][q := Free(nxt, rest)];
    FreeShrink(heap, hd.offE, free, i, Raw(want), q, nxt, rest);
  }

  /** Putting a block on the front of the free list by writing one link. */
  lemma SoundYield(mem: seq<Byte>, heap: Heap, free: seq<nat>, hd: Header, o: nat)
    requires IsSound(mem, heap, free, hd)
    requires o in heap && !heap[o].Free?
    requires Size(heap[o]) < WORD_LIMIT && Has(mem, o + 4, Pack(Size(heap[o])))
    ensures o + 4 <= |mem| && o < WORD_LIMIT
    ensures IsSound(Poke(mem, o, Pack(hd.offE)), heap[o := Free(hd.offE, Size(heap[o]))], [o] + free,
                    hd.(offE := o, nempties := hd.nempties + 1))
  {
    hide Tiled, Encoded;
    var n := Size(heap[o]);
    HoldsAt(mem, heap, hd.size, o);
    HoldsFree(mem, o, n, hd.offE);
    EncodedRetag(mem, Poke(mem, o, Pack(hd.offE)), heap, hd.size, o, Free(hd.offE, n));
    TiledRetag(heap, hd.size, o, Free(hd.offE, n));
    FreePush(heap, hd.offE, free, o, n);
  }

  /** New bytes at the end of the resource, headed as one chunk. */
  lemma SoundGrow(mem: seq<Byte>, heap: Heap, free: seq<nat>, hd: Header, grown: seq<Byte>)
    requires IsSound(mem, heap, free, hd)
    requires |grown| > CHUNKHEAD_SIZE && |mem| + |grown| < WORD_LIMIT
    ensures |mem| !in heap
    ensures IsSound(Poke(mem + grown, |mem|, ChunkHeadBytes(ChunkHead(0, |grown|, 0, 0))),
                    heap[|mem| := Raw(|grown|)], free, hd.(size := hd.size + |grown|))
    ensures Has(Poke(mem + grown, |mem|, ChunkHeadBytes(ChunkHead(0, |grown|, 0, 0))), |mem| + 4, Pack(|grown|))
  {
    hide Tiled;
    var head := ChunkHead(0, |grown|, 0, 0);
    var mem' := Poke(mem + grown, |mem|, ChunkHeadBytes(head));
    PokeHas(mem + grown, |mem|, ChunkHeadBytes(head));
    HasInside(mem', |mem|, ChunkHeadBytes(head), 4, 8);
    assert ChunkHeadBytes(head)[4..8] == Pack(|grown|);
    TiledExtend(heap, hd.size, Raw(|grown|));
    FreeFrame(heap, heap[|mem| := Raw(|grown|)], hd.offE, free);
    EncodedGrown(mem, mem', heap, hd.size);
  }

  lemma EncodedGrown(mem: seq<Byte>, mem': seq<Byte>, heap: Heap, hi: nat)
    requires Encoded(mem, heap) && Tiled(heap, hi) && mem <= mem'
    ensures Encoded(mem', heap)
  {
    forall o | o in heap ensures Holds(mem', o, heap[o]) {
      TiledBlock(heap, hi, o);
      assert mem'[o..o + Size(heap[o])] == mem[o..o + Size(heap[o])];
      assert mem'[o..o + 8] == mem[o..o + 8];
    }
  }

  // ------------------------------------------------------------ giving back

  /** Zeroes a block except its first two words, 256 bytes at a time. */
  method YieldSetZero(td: Td, off: nat, ghost n: Word)
    requires off + n <= |td.mem| && CHUNKHEAD_SIZE <= n
    requires Has(td.mem, off + 4, Pack(n))
    modifies td`mem
    ensures Within(old(td.mem), td.mem, off, off + n)
    ensures td.mem[off..off + 8] == old(td.mem)[off..off + 8]
    ensures forall k | off + 8 <= k < off + n :: td.mem[k] == 0
  {
    var size := td.ReadUint(off + 4);
    UnpackPack(n);
    var pos := off + 8;
    var left := size - 8;
    while left != 0
      invariant off + 8 <= pos && left >= 0 && pos + left == off + n
      invariant Within(old(td.mem), td.mem, off + 8, off + n)
      invariant forall k | off + 8 <= k < pos :: td.mem[k] == 0
    {
      var l := if left > 256 then 256 else left;
      ghost var before := td.mem;
      td.Write(pos, seq(l, _ => 0));
      PokeWithin(before, pos, seq(l, _ => 0), off + 8, off + n);
      pos := pos + l;
      left := left - l;
    }
    WithinFrame(old(td.mem), td.mem, off + 8, off + n, off, off + 8);
    WithinFrame(old(td.mem), td.mem, off + 8, off + n, 0, off);
  }

  /** Pushes a block, key or chunk, on the free list: its first word becomes the link, its size word stays. */
  method Yield(td: Td, off: nat)
    requires td.Sound()
    requires off in td.heap && !td.heap[off].Free?
    requires Size(td.heap[off]) < WORD_LIMIT && Has(td.mem, off + 4, Pack(Size(td.heap[off])))
    modifies td`mem, td`header, td`heap, td`free
    ensures td.Sound()
    ensures td.header == old(td.header).(offE := off, nempties := old(td.header).nempties + 1)
    ensures td.free == [off] + old(td.free)
    ensures td.heap == old(td.heap)[off := Free(old(td.header).offE, Size(old(td.heap)[off]))]
    ensures |td.mem| == |old(td.mem)|
    ensures SizesOf(td.heap, td.free) == [Size(old(td.heap)[off])] + SizesOf(old(td.heap), old(td.free))
    ensures td.header.flags.wipeDeleted ==>
              forall k | off + 8 <= k < off + Size(old(td.heap)[off]) :: td.mem[k] == 0
  {
    hide IsSound, Holds, SizesOf;
    ghost var n := Size(td.heap[off]);
    SizesRetagged(td.heap, td.free, off, Free(td.header.offE, n));
    BlockOf(td.mem, td.heap, td.free, td.header, off);
    var next := td.header.offE;
    ghost var hd := td.header;
    td.header := td.header.(offE := off);
    if td.header.flags.wipeDeleted {
      YieldSetZero(td, off, n);
    }
    WipedYield(old(td.mem), td.mem, td.heap, td.free, hd, off);
    ghost var wiped := td.mem;
    td.WriteUint(off, next);
    PokeWithin(wiped, off, Pack(next), off, off + 4);
    td.header := td.header.(nempties := td.header.nempties + 1);
    td.heap := td.heap[off := Free(next, n)];
    td.free := [off] + td.free;
    assert forall k | off + 8 <= k < off + n :: td.mem[k] == wiped[k];
  }

  /** A block that changes its kind changes no size. */
  lemma SizesRetagged(heap: Heap, free: seq<nat>, o: nat, b: Block)
    requires o in heap && Size(b) == Size(heap[o])
    ensures SizesOf(heap[o := b], free) == SizesOf(heap, free)
    ensures SizesOf(heap[o := b], [o] + free) == [Size(b)] + SizesOf(heap, free)
  {
  }

  /** Wiping a block first makes no difference to the account of it as a free chunk. */
  lemma WipedYield(mem: seq<Byte>, mem': seq<Byte>, heap: Heap, free: seq<nat>, hd: Header, o: nat)
    requires IsSound(mem, heap, free, hd)
    requires o in heap && !heap[o].Free?
    requires Size(heap[o]) < WORD_LIMIT && Has(mem, o + 4, Pack(Size(heap[o])))
    requires mem' == mem || (Within(mem, mem', o, o + Size(heap[o])) && mem'[o..o + 8] == mem[o..o + 8])
    ensures o + 4 <= |mem'| && o < WORD_LIMIT
    ensures IsSound(Poke(mem', o, Pack(hd.offE)), heap[o := Free(hd.offE, Size(heap[o]))], [o] + free,
                    hd.(offE := o, nempties := hd.nempties + 1))
  {
    hide IsSound;
    var n := Size(heap[o]);
    BlockOf(mem, heap, free, hd, o);
    if mem' == mem {
      SoundYield(mem, heap, free, hd, o);
    } else {
      SoundRetag(mem, mem', heap, free, hd, o, Raw(n));
      SubSlice(mem, o, o + 8, 4, 8);
      SubSlice(mem', o, o + 8, 4, 8);
      SoundYield(mem', heap[o := Raw(n)], free, hd, o);
      assert heap[o := Raw(n)][o := Free(hd.offE, n)] == heap[o := Free(hd.offE, n)];
    }
  }

  /** Grows the resource by what the callback grants and yields the new bytes as one chunk. */
  method Extend(td: Td, wanted: nat) returns (r: Status)
    requires td.Sound()
    modifies td`mem, td`header, td`heap, td`free, td`calls
    ensures r == Ok || r == Space
    ensures td.calls == old(td.calls) + 1
    ensures var granted := td.callback(old(td.calls), wanted);
            r == Space <==> granted <= CHUNKHEAD_SIZE || WORD_LIMIT - 1 - granted < old(td.header).size
    ensures r == Space ==>
      td.mem == old(td.mem) && td.header == old(td.header) && td.heap == old(td.heap) && td.free == old(td.free)
    ensures r == Ok ==> td.Sound()
    ensures r == Ok ==> var o, n := |old(td.mem)|, td.callback(old(td.calls), wanted);
                        && |td.mem| == o + n && o !in old(td.heap) && o < WORD_LIMIT
                        && td.heap == old(td.heap)[o := Free(old(td.header).offE, n)]
                        && td.free == [o] + old(td.free)
                        && td.header == old(td.header).(size := |td.mem|, offE := o,
                             nempties := old(td.header).nempties + 1)
  {
    hide IsSound;
    var given := td.callback(td.calls, wanted);
    td.calls := td.calls + 1;
    if WORD_LIMIT - 1 - given < td.header.size {
      return Space;
    }
    if given > CHUNKHEAD_SIZE {
      var oldsize := td.header.size;
      ghost var hd := td.header;
      assert |seq(given, _ => 0 as Byte)| == given;
      var grown: seq<Byte> :| |grown| == given;
      MemSize(td.mem, td.heap, td.free, td.header);
      SoundGrow(td.mem, td.heap, td.free, td.header, grown);
      td.mem := td.mem + grown;
      td.header := td.header.(size := td.header.size + given);
      td.Write(oldsize, ChunkHeadBytes(ChunkHead(0, given, 0, 0)));
      td.heap := td.heap[oldsize := Raw(given)];
      Yield(td, oldsize);
      return Ok;
    } else {
      return Space;
    }
  }

  lemma MemSize(mem: seq<Byte>, heap: Heap, free: seq<nat>, hd: Header)
    requires IsSound(mem, heap, free, hd)
    ensures |mem| == hd.size
  {
  }

  // ------------------------------------------------------------ granting

  function Align(a: nat, n: nat): nat {
    if a > 1 && n % a != 0 then (n / a + 1) * a else n
  }

  /** One row of the fitness table. */
  datatype FitRec = FitRec(ptr: Word, nxt: Word, siz: Word, lst: Word, dif: nat)

  /** What the table says of the j-th free chunk. */
  ghost predicate Records(rec: FitRec, heap: Heap, free: seq<nat>, want: nat, j: nat)
    requires j < |free|
  {
    && rec.ptr == free[j]
    && rec.nxt == At(free, j + 1)
    && rec.siz == SizeAt(heap, free[j])
    && rec.lst == (if j == 0 then free[0] else free[j - 1])
    && rec.dif == Dif(rec.siz, want)
  }

  ghost predicate SameButAlloc(h: Header, h': Header) {
    h' == h.(size := h'.size, offE := h'.offE, nempties := h'.nempties)
  }

  /** Of the blocks in use, exactly the granted one is new. */
  ghost predicate Granted(heap: Heap, heap': Heap, off: nat, size: nat) {
    off !in Used(heap) && Used(heap') == Used(heap)[off := Raw(size)]
  }

  /** Uses up the whole i-th free chunk. */
  method TakeWhole(td: Td, ptr: Word, lst: Word, nxt: Word, ghost i: nat)
    requires td.Sound() && i < |td.free|
    requires ptr == td.free[i] && nxt == At(td.free, i + 1)
    requires lst == if i == 0 then td.free[0] else td.free[i - 1]
    modifies td`mem, td`header, td`heap, td`free
    ensures td.Sound()
    ensures SameButAlloc(old(td.header), td.header) && td.header.size == old(td.header).size
    ensures |td.mem| == |old(td.mem)|
    ensures td.free == Shortened(old(td.free), i)
    ensures Granted(old(td.heap), td.heap, ptr, SizeAt(old(td.heap), ptr))
    ensures SizesOf(td.heap, td.free) == Shortened(SizesOf(old(td.heap), old(td.free)), i)
  {
    PredecessorRoom(td.mem, td.heap, td.free, td.header, i);
    SoundTake(td.mem, td.heap, td.free, td.header, i);
    UsedTake(td.heap, td.header.offE, td.free, i, nxt, Size(td.heap[ptr]));
    hide IsSound, FreeList;
    if lst == ptr {
      td.header := td.header.(offE := nxt);
    } else {
      td.WriteUint(lst, nxt);
    }
    td.header := td.header.(nempties := td.header.nempties - 1);
    td.heap := Pointed(td.heap, td.free, i, nxt)[ptr := Raw(Size(td.heap[ptr]))];
    td.free := Shortened(td.free, i);
  }

  lemma SoundParts(mem: seq<Byte>, heap: Heap, free: seq<nat>, hd: Header)
    requires IsSound(mem, heap, free, hd)
    ensures |mem| == hd.size && Encoded(mem, heap) && Tiled(heap, hd.size) && FreeList(heap, hd.offE, free)
    ensures AllFree(heap, free)
  {
  }

  lemma SplitGrants(mem: seq<Byte>, heap: Heap, free: seq<nat>, hd: Header, i: nat, want: nat)
    requires IsSound(mem, heap, free, hd) && i < |free|
    requires CHUNKHEAD_SIZE <= want && want + CHUNKHEAD_SIZE <= SizeAt(heap, free[i])
    ensures free[i] in heap && heap[free[i]].Free? && 0 < free[i] && |mem| < WORD_LIMIT
    ensures free[i] + SizeAt(heap, free[i]) <= |mem|
    ensures AllFree(heap, free)
    ensures i > 0 ==> free[i - 1] != free[i]
    ensures At(free, i + 1) < WORD_LIMIT
    ensures var q, rest, nxt := free[i] + want, heap[free[i]].size - want, At(free, i + 1);
            var heap' := Pointed(heap, free, i, q)[free[i] := Raw(want)][q := Free(nxt, rest)];
            && Granted(heap, heap', free[i], want)
            && SizesOf(heap', free[i := q]) == SizesOf(heap, free)[i := rest]
  {
    hide IsSound, Encoded, Tiled, FreeList, Used, SizesOf, Poke, ChunkHeadBytes;
    SoundParts(mem, heap, free, hd);
    PredecessorRoom(mem, heap, free, hd, i);
    CutInTwo(mem, heap, hd.size, free[i], want, At(free, i + 1));
    UsedShrink(heap, hd.offE, free, i, want, free[i] + want, At(free, i + 1), heap[free[i]].size - want);
  }

  /** Splits the i-th free chunk in two and grants the front. */
  method TakeFront(td: Td, ptr: Word, lst: Word, nxt: Word, siz: Word, want: Word, ghost i: nat)
    requires td.Sound() && i < |td.free|
    requires ptr == td.free[i] && nxt == At(td.free, i + 1) && siz == SizeAt(td.heap, ptr)
    requires lst == if i == 0 then td.free[0] else td.free[i - 1]
    requires CHUNKHEAD_SIZE <= want && want + CHUNKHEAD_SIZE <= siz
    modifies td`mem, td`header, td`heap, td`free
    ensures td.Sound()
    ensures SameButAlloc(old(td.header), td.header) && td.header.size == old(td.header).size
    ensures |td.mem| == |old(td.mem)|
    ensures td.free == old(td.free)[i := ptr + want]
    ensures Granted(old(td.heap), td.heap, ptr, want)
    ensures SizesOf(td.heap, td.free) == SizesOf(old(td.heap), old(td.free))[i := siz - want]
  {
    hide IsSound, FreeList, Granted;
    SplitGrants(td.mem, td.heap, td.free, td.header, i, want);
    SoundSplit(td.mem, td.heap, td.free, td.header, i, want);
    var emptyoff := ptr + want;
    td.Write(emptyoff, ChunkHeadBytes(ChunkHead(nxt, siz - want, 0, 0)));
    if lst == ptr {
      td.header := td.header.(offE := emptyoff);
    } else {
      td.WriteUint(lst, emptyoff);
    }
    td.heap := Pointed(td.heap, td.free, i, emptyoff)[ptr := Raw(want)][emptyoff := Free(nxt, siz - want)];
    td.free := td.free[i := emptyoff];
  }

  /** The first row whose dif is greatest. */
  method Nicest(fit: seq<FitRec>) returns (choice: nat)
    requires |fit| > 0
    ensures choice < |fit|
    ensures forall m | 0 <= m < |fit| :: fit[m].dif <= fit[choice].dif
    ensures forall m | 0 <= m < choice :: fit[m].dif < fit[choice].dif
  {
    var i, nicest := 0, 0;
    choice := 0;
    while i < |fit|
      invariant i <= |fit| && choice < |fit|
      invariant forall m | 0 <= m < i :: fit[m].dif <= nicest
      invariant forall m | 0 <= m < choice :: fit[m].dif < nicest
      invariant nicest == fit[choice].dif || (nicest == 0 && choice == 0)
    {
      if fit[i].dif > nicest {
        nicest := fit[i].dif;
        choice := i;
      }
      i := i + 1;
    }
  }

  /** Whether a row was written for every option among the first n chunks, and for nothing else. */
  ghost predicate TableOf(fit: seq<FitRec>, heap: Heap, free: seq<nat>, want: nat, contiguous: bool, n: nat)
    requires n <= |free|
  {
    var t := Table(SizesOf(heap, free), want, contiguous, n);
    |fit| == |t| && forall m | 0 <= m < |t| :: Records(fit[m], heap, free, want, t[m])
  }

  /** The best row of a table names the chunk that the claim is said to pick. */
  lemma NicestPicks(fit: seq<FitRec>, heap: Heap, free: seq<nat>, want: nat, contiguous: bool, n: nat, choice: nat)
    requires 0 < n <= |free| && TableOf(fit, heap, free, want, contiguous, n)
    requires choice < |fit|
    requires forall m | 0 <= m < |fit| :: fit[m].dif <= fit[choice].dif
    requires forall m | 0 <= m < choice :: fit[m].dif < fit[choice].dif
    requires forall j | 0 <= j < n :: SizesOf(heap, free)[j] != want
    requires |Table(SizesOf(heap, free), want, contiguous, n - 1)| < NFITRECORDS
    requires n == |free| || |fit| == NFITRECORDS
    ensures Picks(SizesOf(heap, free), want, contiguous, Table(SizesOf(heap, free), want, contiguous, n)[choice], n)
  {
    var sizes := SizesOf(heap, free);
    var t := Table(sizes, want, contiguous, n);
    TableAscends(sizes, want, contiguous, n);
    forall j | 0 <= j < n && Fits(sizes[j], want, contiguous)
      ensures Dif(sizes[j], want) <= Dif(sizes[t[choice]], want)
      ensures j < t[choice] ==> Dif(sizes[j], want) < Dif(sizes[t[choice]], want)
    {
      TableComplete(sizes, want, contiguous, n, j);
      var m :| 0 <= m < |t| && t[m] == j;
      assert Records(fit[m], heap, free, want, t[m]) && Records(fit[choice], heap, free, want, t[choice]);
    }
  }

  /** The chunk a list position stands for, when the null link is the only one past the end. */
  lemma Standing(mem: seq<Byte>, heap: Heap, free: seq<nat>, hd: Header, k: nat)
    requires IsSound(mem, heap, free, hd) && k <= |free|
    ensures At(free, k) == 0 <==> k == |free|
    ensures k < |free| ==>
              && free[k] in heap && heap[free[k]].Free?
              && heap[free[k]].next == At(free, k + 1)
              && heap[free[k]].size == SizesOf(heap, free)[k] >= CHUNKHEAD_SIZE
    ensures 0 < k < |free| ==> free[k - 1] != free[k]
    ensures At(free, k) < WORD_LIMIT && hd.offE == At(free, 0)
  {
    if k < |free| {
      PredecessorRoom(mem, heap, free, hd, k);
    }
  }

  /** Looking at one more chunk writes at most one more row. */
  lemma TableStep(fit: seq<FitRec>, heap: Heap, free: seq<nat>, want: nat, contiguous: bool, n: nat, rec: FitRec)
    requires n < |free| && TableOf(fit, heap, free, want, contiguous, n)
    requires Records(rec, heap, free, want, n)
    ensures var fit' := if Fits(rec.siz, want, contiguous) then fit + [rec] else fit;
            TableOf(fit', heap, free, want, contiguous, n + 1)
            && |fit'| == |Table(SizesOf(heap, free), want, contiguous, n + 1)|
  {
  }

  lemma TableNone(heap: Heap, free: seq<nat>, want: nat, contiguous: bool)
    ensures TableOf([], heap, free, want, contiguous, 0) && Table(SizesOf(heap, free), want, contiguous, 0) == []
  {
  }

  /**
   * Walks the free list, noting down options, until it meets a perfect fit, has a full table, or
   * comes to the end. A perfect fit is reported in rec.
   */
  method Scan(td: Td, contiguous: bool, size: Word)
    returns (perfect: bool, rec: FitRec, fit: seq<FitRec>, ghost seen: nat)
    requires td.Sound() && td.free != []
    ensures 0 < seen <= |td.free|
    ensures |Table(SizesOf(td.heap, td.free), size, contiguous, seen - 1)| < NFITRECORDS
    ensures forall j | 0 <= j < seen - 1 :: SizesOf(td.heap, td.free)[j] != size
    ensures perfect <==> SizesOf(td.heap, td.free)[seen - 1] == size
    ensures perfect ==> Records(rec, td.heap, td.free, size, seen - 1)
    ensures !perfect ==> TableOf(fit, td.heap, td.free, size, contiguous, seen)
    ensures !perfect ==> seen == |td.free| || |fit| == NFITRECORDS
  {
    hide IsSound, TableOf, Table, SizesOf;
    ghost var sizes := SizesOf(td.heap, td.free);
    TableNone(td.heap, td.free, size, contiguous);
    Standing(td.mem, td.heap, td.free, td.header, 0);
    var ptr, last := td.header.offE, td.header.offE;
    rec := FitRec(ptr, 0, 0, last, 0);
    fit, seen, perfect := [], 0, false;
    while ptr != 0
      invariant seen <= |td.free|
      invariant TableOf(fit, td.heap, td.free, size, contiguous, seen)
      invariant forall j | 0 <= j < seen :: sizes[j] != size
      invariant ptr == At(td.free, seen) && last == if seen == 0 then ptr else td.free[seen - 1]
      invariant |fit| == |Table(sizes, size, contiguous, seen)| < NFITRECORDS
      decreases |td.free| - seen
    {
      Standing(td.mem, td.heap, td.free, td.header, seen);
      Standing(td.mem, td.heap, td.free, td.header, seen + 1);
      var head := td.ReadChunkhead(ptr);
      rec := FitRec(ptr, head.next, head.size, last, Dif(head.size, size));
      seen := seen + 1;
      if size == head.size {
        perfect := true;
        return;
      }
      TableStep(fit, td.heap, td.free, size, contiguous, seen - 1, rec);
      if size + CHUNKHEAD_SIZE <= head.size {
        fit := fit + [rec];
      } else if size > head.size && !contiguous {
        fit := fit + [rec];
      }
      if |fit| == NFITRECORDS {
        return;
      }
      last, ptr := ptr, head.next;
    }
    Standing(td.mem, td.heap, td.free, td.header, seen);
    TableGrows(sizes, size, contiguous, seen - 1, seen);
  }

  /** How a grant changes the list: the at-th chunk goes, or its rest takes its place. */
  ghost predicate Relisted(have: seq<nat>, free: seq<nat>, have': seq<nat>, free': seq<nat>, at: nat, want: nat,
                           size: nat) {
    && |have| == |free| && at < |free|
    && if have[at] > want then
         && have[at] >= want + CHUNKHEAD_SIZE
         && size == want
         && free' == free[at := free[at] + want]
         && have' == have[at := have[at] - want]
       else
         && size == have[at]
         && free' == Shortened(free, at)
         && have' == Shortened(have, at)
  }

  lemma AlignOne(mem: seq<Byte>, heap: Heap, free: seq<nat>, hd: Header, n: nat)
    requires IsSound(mem, heap, free, hd)
    ensures Align(hd.align, n) == n
  {
  }

  lemma PerfectPicks(sizes: seq<nat>, want: nat, contiguous: bool, n: nat)
    requires 0 < n <= |sizes| && sizes[n - 1] == want
    requires |Table(sizes, want, contiguous, n - 1)| < NFITRECORDS
    requires forall j | 0 <= j < n - 1 :: sizes[j] != want
    ensures Picks(sizes, want, contiguous, n - 1, n) && !NoneFits(sizes, want, contiguous)
  {
  }

  lemma NothingFits(sizes: seq<nat>, want: nat, contiguous: bool)
    requires forall j | 0 <= j < |sizes| :: sizes[j] != want
    requires Table(sizes, want, contiguous, |sizes|) == []
    ensures NoneFits(sizes, want, contiguous)
  {
    forall j | 0 <= j < |sizes| ensures !Fits(sizes[j], want, contiguous) {
      if Fits(sizes[j], want, contiguous) {
        TableComplete(sizes, want, contiguous, |sizes|, j);
      }
    }
  }

  /** Judges a full or final table and uses the chunk of its best row. */
  method UseNicest(td: Td, contiguous: bool, want: Word, fit: seq<FitRec>, ghost seen: nat)
    returns (r: Status, off: Word, size: Word, ghost at: nat)
    requires td.Sound() && CHUNKHEAD_SIZE <= want
    requires 0 < |fit| && 0 < seen <= |td.free|
    requires TableOf(fit, td.heap, td.free, want, contiguous, seen)
    requires forall j | 0 <= j < seen :: SizesOf(td.heap, td.free)[j] != want
    requires |Table(SizesOf(td.heap, td.free), want, contiguous, seen - 1)| < NFITRECORDS
    requires seen == |td.free| || |fit| == NFITRECORDS
    modifies td`mem, td`header, td`heap, td`free
    ensures r == Ok && td.Sound()
    ensures SameButAlloc(old(td.header), td.header) && td.header.size == old(td.header).size
    ensures Granted(old(td.heap), td.heap, off, size)
    ensures Picks(SizesOf(old(td.heap), old(td.free)), want, contiguous, at, seen)
    ensures !NoneFits(SizesOf(old(td.heap), old(td.free)), want, contiguous)
    ensures at < |old(td.free)| && off == old(td.free)[at]
    ensures Relisted(SizesOf(old(td.heap), old(td.free)), old(td.free), SizesOf(td.heap, td.free), td.free, at, want,
      size)
  {
    hide IsSound, Granted, Picks;
    ghost var have := SizesOf(td.heap, td.free);
    var choice := Nicest(fit);
    NicestPicks(fit, td.heap, td.free, want, contiguous, seen, choice);
    at := Table(have, want, contiguous, seen)[choice];
    var rec := fit[choice];
    assert Records(rec, td.heap, td.free, want, at);
    r, off := Ok, rec.ptr;
    if rec.siz > want {
      TakeFront(td, rec.ptr, rec.lst, rec.nxt, rec.siz, want, at);
      size := want;
    } else {
      TakeWhole(td, rec.ptr, rec.lst, rec.nxt, at);
      size := rec.siz;
    }
  }

  /**
   * One pass over the free list. On success the at-th chunk, the one Picks names after a look at seen
   * chunks, has lost its front or has gone from the list; the other chunks and their order are untouched.
   */
  method ClaimOnce(td: Td, contiguous: bool, want: Word)
    returns (r: Status, off: Word, size: Word, ghost at: nat, ghost seen: nat)
    requires td.Sound() && CHUNKHEAD_SIZE <= want
    modifies td`mem, td`header, td`heap, td`free
    ensures r == Ok || r == Space
    ensures r == Space <==> NoneFits(SizesOf(old(td.heap), old(td.free)), want, contiguous)
    ensures r == Space ==>
      td.mem == old(td.mem) && td.header == old(td.header) && td.heap == old(td.heap) && td.free == old(td.free)
    ensures r == Ok ==> td.Sound()
    ensures r == Ok ==> SameButAlloc(old(td.header), td.header) && td.header.size == old(td.header).size
    ensures r == Ok ==> Granted(old(td.heap), td.heap, off, size)
    ensures r == Ok ==> Picks(SizesOf(old(td.heap), old(td.free)), want, contiguous, at, seen)
    ensures r == Ok ==> at < |old(td.free)| && off == old(td.free)[at]
    ensures r == Ok ==> Relisted(SizesOf(old(td.heap), old(td.free)), old(td.free), SizesOf(td.heap, td.free), td.free,
      at, want, size)
  {
    hide IsSound, Granted, Picks;
    Standing(td.mem, td.heap, td.free, td.header, 0);
    AlignOne(td.mem, td.heap, td.free, td.header, want);
    if td.header.offE == 0 {
      return Space, 0, want, 0, 0;
    }
    size := Align(td.header.align, want);
    ghost var have := SizesOf(td.heap, td.free);
    var perfect, rec, fit;
    perfect, rec, fit, seen := Scan(td, contiguous, size);
    Standing(td.mem, td.heap, td.free, td.header, seen - 1);
    if perfect {
      PerfectPicks(have, want, contiguous, seen);
      at := seen - 1;
      TakeWhole(td, rec.ptr, rec.lst, rec.nxt, at);
      return Ok, rec.ptr, rec.siz, at, seen;
    } else if |fit| == 0 {
      NothingFits(have, want, contiguous);
      return Space, 0, size, 0, 0;
    } else {
      r, off, size, at := UseNicest(td, contiguous, size, fit, seen);
    }
  }

  /** What Picks settles on is granted in full, or, to a caller content with less, used up. */
  lemma GrantBounds(have: seq<nat>, free: seq<nat>, have': seq<nat>, free': seq<nat>,
                    want: nat, contiguous: bool, at: nat, seen: nat, size: nat)
    requires Picks(have, want, contiguous, at, seen)
    requires Relisted(have, free, have', free', at, want, size)
    requires forall j | 0 <= j < |have| :: have[j] >= CHUNKHEAD_SIZE
    requires want >= CHUNKHEAD_SIZE
    ensures CHUNKHEAD_SIZE <= size <= want
    ensures contiguous ==> size == want
    ensures have[at] > want ==> have'[at] >= CHUNKHEAD_SIZE
    ensures size < want ==> |free'| == |free| - 1
  {
  }

  lemma FreeSizesBig(mem: seq<Byte>, heap: Heap, free: seq<nat>, hd: Header)
    requires IsSound(mem, heap, free, hd)
    ensures forall j | 0 <= j < |free| :: SizesOf(heap, free)[j] >= CHUNKHEAD_SIZE
  {
    forall j | 0 <= j < |free| ensures SizesOf(heap, free)[j] >= CHUNKHEAD_SIZE {
      Standing(mem, heap, free, hd, j);
    }
  }

  lemma ExtendKeeps(mem: seq<Byte>, heap: Heap, free: seq<nat>, hd: Header, o: nat, n: Word)
    requires IsSound(mem, heap, free, hd) && o !in heap
    ensures SizesOf(heap[o := Free(hd.offE, n)], [o] + free) == [n] + SizesOf(heap, free)
    ensures Used(heap[o := Free(hd.offE, n)]) == Used(heap)
  {
    hide Encoded, Tiled;
    assert forall j | 0 <= j < |free| :: free[j] in free;
  }

  lemma GrantedSince(heap: Heap, heap1: Heap, heap2: Heap, off: nat, size: nat)
    requires Used(heap1) == Used(heap) && Granted(heap1, heap2, off, size)
    ensures Granted(heap, heap2, off, size)
  {
  }

  /** The largest chunk of a store that could be granted. */
  ghost function Room(td: Td): nat
    reads td
  {
    Largest(SizesOf(td.heap, td.free))
  }

  /** If the list had a chunk that can be split, a grant in full costs at most as much of it, any other nothing. */
  lemma RoomLeft(have: seq<nat>, free: seq<nat>, have': seq<nat>, free': seq<nat>,
                 want: nat, contiguous: bool, at: nat, seen: nat, size: nat)
    requires Picks(have, want, contiguous, at, seen)
    requires Relisted(have, free, have', free', at, want, size)
    requires Largest(have) >= want + CHUNKHEAD_SIZE
    ensures Largest(have') >= Largest(have) - if size == want then want else 0
  {
    hide Picks, Largest;
    var j :| 0 <= j < |have| && have[j] == Largest(have);
    if at == j {
      assert have'[at] == have[at] - want;
    } else if have[at] > want {
      assert have'[j] == have[j];
    } else {
      assert have'[if j < at then j else j - 1] == have[j];
    }
  }

  /** The outcome of one pass, and its bounds. */
  lemma ClaimBounds(have: seq<nat>, free: seq<nat>, have': seq<nat>, free': seq<nat>, want: nat, contiguous: bool,
                    r: Status, off: nat, size: nat, at: nat, seen: nat)
    requires |have| == |free| && want >= CHUNKHEAD_SIZE && forall j | 0 <= j < |have| :: have[j] >= CHUNKHEAD_SIZE
    requires r == Ok || r == Space
    requires r == Space <==> NoneFits(have, want, contiguous)
    requires r == Space ==> have' == have && free' == free
    requires r == Ok ==> Picks(have, want, contiguous, at, seen) && at < |free| && off == free[at] &&
                           Relisted(have, free, have', free', at, want, size)
    ensures r == Ok ==> CHUNKHEAD_SIZE <= size <= want && (contiguous ==> size == want)
    ensures r == Ok && size < want ==> |free'| == |free| - 1
    ensures Largest(have) >= want + CHUNKHEAD_SIZE ==>
              r == Ok && Largest(have') >= Largest(have) - if size == want then want else 0
  {
    hide Picks, Relisted, NoneFits, Largest;
    if Largest(have) >= want + CHUNKHEAD_SIZE {
      RoomFits(have, want, contiguous);
      RoomLeft(have, free, have', free', want, contiguous, at, seen, size);
    }
    if r == Ok {
      GrantBounds(have, free, have', free', want, contiguous, at, seen, size);
    }
  }

  /** After a pass that found nothing, what a new chunk in front can be granted is more than a bare head. */
  lemma NewChunkGrants(g: nat, have: seq<nat>, o: nat, free: seq<nat>, have': seq<nat>, free': seq<nat>,
                       want: nat, contiguous: bool, at: nat, seen: nat, size: nat)
    requires |have| == |free| && NoneFits(have, want, contiguous) && g > CHUNKHEAD_SIZE
    requires Picks([g] + have, want, contiguous, at, seen)
    requires Relisted([g] + have, [o] + free, have', free', at, want, size)
    ensures want > CHUNKHEAD_SIZE ==> size > CHUNKHEAD_SIZE
  {
    PicksNew(g, have, want, contiguous, at, seen);
  }

  /** The callback's last grant was refused, or falls short of n. */
  ghost predicate ShortGrant(td: Td, n: nat)
    reads td
  {
    ShortBy(td.callback, td.calls, td.header.size, n)
  }

  ghost predicate ShortBy(callback: (nat, nat) -> Word, calls: nat, size: nat, n: nat) {
    exists wanted: nat :: TooLittle(callback, calls, wanted, size, n)
  }

  /** The last of the calls, for so much, was granted less than n, less than a chunk, or more than can be addressed. */
  ghost predicate TooLittle(callback: (nat, nat) -> Word, calls: nat, wanted: nat, size: nat, n: nat) {
    calls > 0 &&
      var granted := callback(calls - 1, wanted);
      granted <= CHUNKHEAD_SIZE || WORD_LIMIT - 1 - granted < size || granted < n
  }

  /** What was asked for last, and that the answer was too little. */
  lemma GrantWasShort(td: Td, n: nat) returns (wanted: nat)
    requires ShortGrant(td, n)
    ensures td.calls > 0
    ensures var granted := td.callback(td.calls - 1, wanted);
            granted <= CHUNKHEAD_SIZE || WORD_LIMIT - 1 - granted < td.header.size || granted < n
  {
    wanted :| TooLittle(td.callback, td.calls, wanted, td.header.size, n);
  }

  lemma ShorterGrant(td: Td, n: nat, n': nat)
    requires ShortGrant(td, n) && n <= n'
    ensures ShortGrant(td, n')
  {
    var wanted: nat :| TooLittle(td.callback, td.calls, wanted, td.header.size, n);
    assert TooLittle(td.callback, td.calls, wanted, td.header.size, n');
  }

  /** The list a claim chooses from: with a chunk of the bytes granted, if any, in front, where the resource ended. */
  ghost predicate ListGrew(have: seq<nat>, free: seq<nat>, g: nat, o: nat, have1: seq<nat>, free1: seq<nat>) {
    && have1 == (if g == 0 then have else [g] + have)
    && free1 == (if g == 0 then free else [o] + free)
  }

  /** The second half of a claim that has found nothing: the resource is extended and the list gone through again. */
  method ClaimGrown(td: Td, contiguous: bool, want: Word)
    returns (r: Status, off: Word, size: Word, ghost at: nat, ghost seen: nat, ghost have1: seq<nat>,
             ghost free1: seq<nat>)
    requires td.Sound() && CHUNKHEAD_SIZE <= want
    requires NoneFits(SizesOf(td.heap, td.free), want, contiguous)
    modifies td`mem, td`header, td`heap, td`free, td`calls
    ensures r == Ok || r == Space
    ensures td.Sound() && SameButAlloc(old(td.header), td.header) && td.calls == old(td.calls) + 1
    ensures r == Space ==> Used(td.heap) == Used(old(td.heap))
    ensures r == Ok ==> Granted(old(td.heap), td.heap, off, size)
    ensures r == Ok ==> CHUNKHEAD_SIZE <= size <= want && (contiguous ==> size == want)
    ensures r == Ok && CHUNKHEAD_SIZE == size < want ==> |td.free| < |old(td.free)|
    ensures var hd, have, free := old(td.header), SizesOf(old(td.heap), old(td.free)), old(td.free);
            var g := td.callback(old(td.calls), if hd.size < want || hd.flags.sparse then want else hd.size);
            if g <= CHUNKHEAD_SIZE || WORD_LIMIT - 1 - g < hd.size then
              r == Space && td.header.size == hd.size && ListGrew(have, free, 0, hd.size, have1, free1)
            else
              && td.header.size == hd.size + g && ListGrew(have, free, g, hd.size, have1, free1)
              && (r == Space <==> g != want && g < want + CHUNKHEAD_SIZE && (contiguous || g > want))
    ensures r == Space ==> SizesOf(td.heap, td.free) == have1 && td.free == free1
    ensures r == Ok ==> Picks(have1, want, contiguous, at, seen) && at < |free1| && off == free1[at]
    ensures r == Ok ==> Relisted(have1, free1, SizesOf(td.heap, td.free), td.free, at, want, size)
  {
    hide IsSound, Granted, Picks, Relisted, NoneFits, SizesOf, Used, Largest;
    ghost var mem, heap, free, hd := td.mem, td.heap, td.free, td.header;
    ghost var have := SizesOf(heap, free);
    MemSize(mem, heap, free, hd);
    off, size, at, seen, have1, free1 := 0, want, 0, 0, have, free;
    var wanted := td.header.size;
    if wanted < want || td.header.flags.sparse {
      wanted := want;
    }
    ghost var g := td.callback(td.calls, wanted);
    r := Extend(td, wanted);
    if r == Ok {
      ghost var heap1 := td.heap;
      have1, free1 := SizesOf(td.heap, td.free), td.free;
      ExtendKeeps(mem, heap, free, hd, |mem|, g);
      MemSize(td.mem, td.heap, td.free, td.header);
      FreeSizesBig(td.mem, td.heap, td.free, td.header);
      OneMoreHelps(g, have, want, contiguous);
      r, off, size, at, seen := ClaimOnce(td, contiguous, want);
      ClaimBounds(have1, free1, SizesOf(td.heap, td.free), td.free, want, contiguous, r, off, size, at, seen);
      if r == Ok {
        NewChunkGrants(g, have, |mem|, free, SizesOf(td.heap, td.free), td.free, want, contiguous, at, seen, size);
        GrantedSince(heap, heap1, td.heap, off, size);
      }
    }
  }

  /**
   * Claims want bytes, extending the resource if the free list has nothing to offer. A caller that
   * does not insist on contiguous space may be given less; if it is given a bare head, then the free
   * list has become shorter.
   */
  method Claim(td: Td, contiguous: bool, want: Word)
    returns (r: Status, off: Word, size: Word, ghost at: nat, ghost seen: nat, ghost have1: seq<nat>,
             ghost free1: seq<nat>)
    requires td.Sound() && CHUNKHEAD_SIZE <= want
    modifies td`mem, td`header, td`heap, td`free, td`calls
    ensures r == Ok || r == Space
    ensures td.Sound() && SameButAlloc(old(td.header), td.header)
    ensures r == Space ==> Used(td.heap) == Used(old(td.heap))
    ensures r == Ok ==> Granted(old(td.heap), td.heap, off, size)
    ensures r == Ok ==> CHUNKHEAD_SIZE <= size <= want && (contiguous ==> size == want)
    ensures r == Ok && CHUNKHEAD_SIZE == size < want ==> |td.free| < |old(td.free)|
    ensures var hd, have, free := old(td.header), SizesOf(old(td.heap), old(td.free)), old(td.free);
            var g := td.callback(old(td.calls), if hd.size < want || hd.flags.sparse then want else hd.size);
            var asked := td.extendable && NoneFits(have, want, contiguous);
            var given := asked && g > CHUNKHEAD_SIZE && WORD_LIMIT - 1 - g >= hd.size;
            && td.calls == old(td.calls) + (if asked then 1 else 0)
            && td.header.size == hd.size + (if given then g else 0)
            && (r == Space <==>
                  && NoneFits(have, want, contiguous)
                  && (given ==> g != want && g < want + CHUNKHEAD_SIZE && (contiguous || g > want)))
            && ListGrew(have, free, if given then g else 0, hd.size, have1, free1)
    ensures r == Space ==> SizesOf(td.heap, td.free) == have1 && td.free == free1
    ensures r == Ok ==> Picks(have1, want, contiguous, at, seen) && at < |free1| && off == free1[at]
    ensures r == Ok ==> Relisted(have1, free1, SizesOf(td.heap, td.free), td.free, at, want, size)
    ensures old(Room(td)) >= want + CHUNKHEAD_SIZE ==>
              r == Ok && Room(td) >= old(Room(td)) - if size == want then want else 0
    ensures r == Space && td.extendable ==> td.calls > old(td.calls) && ShortGrant(td, want + CHUNKHEAD_SIZE)
  {
    hide IsSound, Granted, Picks, Relisted, NoneFits, SizesOf, Largest, Used;
    ghost var have, free, hd := SizesOf(td.heap, td.free), td.free, td.header;
    have1, free1 := have, free;
    FreeSizesBig(td.mem, td.heap, td.free, td.header);
    r, off, size, at, seen := ClaimOnce(td, contiguous, want);
    ClaimBounds(have, free, SizesOf(td.heap, td.free), td.free, want, contiguous, r, off, size, at, seen);
    if r == Space && td.extendable {
      r, off, size, at, seen, have1, free1 := ClaimGrown(td, contiguous, want);
      ghost var wanted := if hd.size < want || hd.flags.sparse then want else hd.size;
      assert r == Space ==> TooLittle(td.callback, td.calls, wanted, td.header.size, want + CHUNKHEAD_SIZE);
    }
  }
}
