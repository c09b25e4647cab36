/** The intrusive free list: which chunks are on it, in which order, and how it is relinked. */
module FreeLists {
  import opened Bytes
  import opened Blocks

  /** The i-th offset of a list, or the null link past its end. */
  function At(list: seq<nat>, i: nat): nat {
    if i < |list| then list[i] else 0
  }

  /** The stored link of the i-th free chunk names the next one. */
  ghost predicate LinkAt(heap: Heap, free: seq<nat>, i: nat)
    requires i < |free|
  {
    free[i] in heap && heap[free[i]].Free? && heap[free[i]].next == At(free, i + 1)
  }

  ghost predicate Distinct(list: seq<nat>) {
    forall i, j | 0 <= i < j < |list| :: list[i] != list[j]
  }

  ghost predicate AllFree(heap: Heap, free: seq<nat>) {
    forall o | o in free :: o in heap && heap[o].Free?
  }

  /** The list from offE links exactly the free chunks of the heap, each once. */
  ghost predicate FreeList(heap: Heap, offE: nat, free: seq<nat>) {
    && offE == At(free, 0)
    && Distinct(free)
    && AllFree(heap, free)
    && (forall i: nat {:trigger LinkAt(heap, free, i)} | i < |free| :: LinkAt(heap, free, i))
    && (forall o | o in heap && heap[o].Free? :: o in free)
  }

  /** The heap after the link that led to the i-th free chunk is pointed at w; the header's link is not in the heap. */
  ghost function Pointed(heap: Heap, free: seq<nat>, i: nat, w: Word): Heap
    requires i < |free| && AllFree(heap, free)
  {
    if i == 0 then heap else
      assert free[i - 1] in free;
      heap[free[i - 1] := Free(w, heap[free[i - 1]].size)]
  }

  /** A block that was not free is pushed on the front. */
  lemma FreePush(heap: Heap, offE: Word, free: seq<nat>, o: nat, size: Word)
    requires FreeList(heap, offE, free)
    requires o in heap ==> !heap[o].Free?
    ensures FreeList(heap[o := Free(offE, size)], o, [o] + free)
  {
    var heap', free' := heap[o := Free(offE, size)], [o] + free;
    forall i: nat | i < |free'| ensures LinkAt(heap', free', i) {
      if i > 0 {
        assert LinkAt(heap, free, i - 1);
      }
    }
  }

  /** Blocks that are not free can come, go and change without the list noticing. */
  lemma FreeFrame(heap: Heap, heap': Heap, offE: nat, free: seq<nat>)
    requires FreeList(heap, offE, free)
    requires forall o | o in heap && heap[o].Free? :: o in heap' && heap'[o] == heap[o]
    requires forall o | o in heap' && heap'[o].Free? :: o in heap && heap[o] == heap'[o]
    ensures FreeList(heap', offE, free)
  {
    forall i: nat | i < |free| ensures LinkAt(heap', free, i) {
      assert LinkAt(heap, free, i);
    }
  }

  /** The i-th chunk is taken off the list. */
  lemma FreeDrop(heap: Heap, offE: nat, free: seq<nat>, i: nat, w: Word, b: Block)
    requires FreeList(heap, offE, free) && i < |free|
    requires w == At(free, i + 1) && !b.Free?
    ensures FreeList(Pointed(heap, free, i, w)[free[i] := b], if i == 0 then w else offE, free[..i] + free[i + 1..])
  {
    var free' := free[..i] + free[i + 1..];
    var heap' := Pointed(heap, free, i, w)[free[i] := b];
    forall j: nat | j < |free'| ensures LinkAt(heap', free', j) {
      assert LinkAt(heap, free, if j < i then j else j + 1);
    }
    forall o | o in heap' && heap'[o].Free? ensures o in free' {
      var k :| 0 <= k < |free| && free[k] == o;
      assert free'[if k < i then k else k - 1] == o;
    }
  }

  /** The i-th chunk gives up its front and its rest, at q, takes its place on the list. */
  lemma FreeShrink(heap: Heap, offE: nat, free: seq<nat>, i: nat, b: Block, q: Word, next: Word, size: Word)
    requires FreeList(heap, offE, free) && i < |free|
    requires next == At(free, i + 1) && !b.Free? && q !in heap
    ensures FreeList(Pointed(heap, free, i, q)[free[i] := b][q := Free(next, size)],
                     if i == 0 then q else offE, free[i := q])
  {
    var free' := free[i := q];
    var heap' := Pointed(heap, free, i, q)[free[i] := b][q := Free(next, size)];
    forall j: nat | j < |free'| ensures LinkAt(heap', free', j) {
      assert LinkAt(heap, free, j);
    }
    forall o | o in heap' && heap'[o].Free? ensures o in free' {
      if o == q {
        assert free'[i] == q;
      } else {
        var k :| 0 <= k < |free| && free[k] == o;
        assert free'[k] == o;
      }
    }
  }

  ghost function SizeAt(heap: Heap, o: nat): nat {
    if o in heap then Size(heap[o]) else 0
  }

  /** The sizes of the listed chunks, in list order. */
  ghost function SizesOf(heap: Heap, free: seq<nat>): (s: seq<nat>)
    ensures |s| == |free|
  {
    seq(|free|, i requires 0 <= i < |free| => SizeAt(heap, free[i]))
  }

  /** A list without its i-th entry. */
  ghost function Shortened<T>(list: seq<T>, i: nat): seq<T>
    requires i < |list|
  {
    list[..i] + list[i + 1..]
  }

  /** Relinking and granting leave every block in use as it was, but for the one granted. */
  lemma UsedTake(heap: Heap, offE: nat, free: seq<nat>, i: nat, w: Word, n: nat)
    requires FreeList(heap, offE, free) && i < |free|
    ensures var heap' := Pointed(heap, free, i, w)[free[i] := Raw(n)];
            && free[i] !in Used(heap)
            && Used(heap') == Used(heap)[free[i] := Raw(n)]
            && SizesOf(heap', Shortened(free, i)) == Shortened(SizesOf(heap, free), i)
  {
    assert free[i] in free;
    if i > 0 {
      assert free[i - 1] in free;
    }
    var heap' := Pointed(heap, free, i, w)[free[i] := Raw(n)];
    var free' := Shortened(free, i);
    assert forall j | 0 <= j < |free'| :: free'[j] == free[if j < i then j else j + 1];
  }

  lemma UsedShrink(heap: Heap, offE: nat, free: seq<nat>, i: nat, n: nat, q: Word, nxt: Word, rest: Word)
    requires FreeList(heap, offE, free) && i < |free| && q !in heap
    ensures var heap' := Pointed(heap, free, i, q)[free[i] := Raw(n)][q := Free(nxt, rest)];
            && free[i] !in Used(heap)
            && Used(heap') == Used(heap)[free[i] := Raw(n)]
            && SizesOf(heap', free[i := q]) == SizesOf(heap, free)[i := rest]
  {
    assert free[i] in free;
    if i > 0 {
      assert free[i - 1] in free;
    }
    assert forall j | 0 <= j < |free| :: free[j] in free;
  }
}
