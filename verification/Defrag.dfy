/** Putting the free list in order and joining what touches: td_defrag. */
module Defrag {
  import opened Bytes
  import opened Tilings
  import opened Blocks
  import opened FreeLists
  import opened Store
  import opened Fitness
  import opened Allocator
  import opened Sorting

  const MAX_DEFRAGLEVEL := 512

  /** Two heaps that differ at most in the links of free chunks. */
  ghost predicate LinksOnly(heap: Heap, heap': Heap) {
    && heap'.Keys == heap.Keys
    && forall o | o in heap ::
         if heap[o].Free? then heap'[o].Free? && heap'[o].size == heap[o].size else heap'[o] == heap[o]
  }

  /** Bytes and blocks agree, whatever the links of free chunks say. */
  ghost predicate Loose(mem: seq<Byte>, heap: Heap, hi: nat) {
    |mem| == hi && Encoded(mem, heap) && Tiled(heap, hi)
  }

  ghost predicate FreeAt(heap: Heap, o: nat) {
    o in heap && heap[o].Free?
  }

  ghost predicate HasRoom(heap: Heap, n: nat) {
    exists o :: FreeAt(heap, o) && Size(heap[o]) >= n
  }

  /** For every free chunk there is still one as large. */
  ghost predicate KeepsRoom(heap: Heap, heap': Heap) {
    forall o | FreeAt(heap, o) :: HasRoom(heap', Size(heap[o]))
  }

  lemma LinksKeepRoom(heap: Heap, heap': Heap)
    requires LinksOnly(heap, heap')
    ensures KeepsRoom(heap, heap')
  {
    forall o | FreeAt(heap, o) ensures HasRoom(heap', Size(heap[o])) {
      assert FreeAt(heap', o);
    }
  }

  lemma MergeKeepsRoom(heap: Heap, o: nat, p: nat, b: Block)
    requires b.Free? && o in heap && p in heap && o != p && b.size == Size(heap[o]) + Size(heap[p])
    ensures KeepsRoom(heap, (heap - {p})[o := b])
  {
    var heap' := (heap - {p})[o := b];
    forall q | FreeAt(heap, q) ensures HasRoom(heap', Size(heap[q])) {
      assert FreeAt(heap', if q == p then o else q);
    }
  }

  lemma RoomKeptTwice(heap: Heap, heap1: Heap, heap2: Heap)
    requires KeepsRoom(heap, heap1) && KeepsRoom(heap1, heap2)
    ensures KeepsRoom(heap, heap2)
  {
    forall o | FreeAt(heap, o) ensures HasRoom(heap2, Size(heap[o])) {
      var p :| FreeAt(heap1, p) && Size(heap1[p]) >= Size(heap[o]);
      var q :| FreeAt(heap2, q) && Size(heap2[q]) >= Size(heap1[p]);
    }
  }

  lemma RoomKept(mem: seq<Byte>, heap: Heap, free: seq<nat>, hd: Header,
                 mem': seq<Byte>, heap': Heap, free': seq<nat>, hd': Header)
    requires IsSound(mem, heap, free, hd) && IsSound(mem', heap', free', hd') && KeepsRoom(heap, heap')
    ensures Largest(SizesOf(heap', free')) >= Largest(SizesOf(heap, free))
  {
    hide Encoded, Tiled, Largest;
    var sizes := SizesOf(heap, free);
    if sizes != [] {
      var j :| 0 <= j < |sizes| && sizes[j] == Largest(sizes);
      assert free[j] in free && FreeAt(heap, free[j]);
      var p :| FreeAt(heap', p) && Size(heap'[p]) >= Size(heap[free[j]]);
      var i :| 0 <= i < |free'| && free'[i] == p;
      assert SizesOf(heap', free')[i] == Size(heap'[p]);
    } else {
      NoRoom();
    }
  }

  lemma NoRoom()
    ensures Largest([]) == 0
  {
  }

  /** Pointing one link of a free chunk elsewhere. */
  method PointAt(td: Td, o: nat, w: Word)
    requires Loose(td.mem, td.heap, td.header.size) && FreeAt(td.heap, o)
    modifies td`mem, td`heap
    ensures Loose(td.mem, td.heap, td.header.size)
    ensures td.heap == old(td.heap)[o := Free(w, old(td.heap)[o].size)]
  {
    LinkRewritten(td.mem, td.heap, td.header.size, o, w);
    td.WriteUint(o, w);
    td.heap := td.heap[o := Free(w, td.heap[o].size)];
  }

  /** What comes after the j-th entry of a list that goes on with last. */
  ghost function After(list: seq<nat>, last: nat, j: nat): nat {
    if j + 1 < |list| then list[j + 1] else last
  }

  /** The link each listed chunk is to have. */
  ghost predicate LinkedUp(heap: Heap, list: seq<nat>, last: nat, n: nat)
    requires n <= |list|
  {
    forall j | 0 <= j < n :: FreeAt(heap, list[j]) && heap[list[j]].next == After(list, last, j)
  }

  ghost predicate UnchangedBut(heap: Heap, heap': Heap, list: seq<nat>) {
    forall o | o in heap && o !in list :: o in heap' && heap'[o] == heap[o]
  }

  lemma PointStep(heap0: Heap, heap: Heap, list: seq<nat>, last: Word, j: nat, w: Word)
    requires LinksOnly(heap0, heap) && UnchangedBut(heap0, heap, list) && Distinct(list)
    requires j < |list| && FreeAt(heap, list[j]) && LinkedUp(heap, list, last, j)
    requires w == if j + 1 < |list| then list[j + 1] else last
    ensures var heap' := heap[list[j] := Free(w, heap[list[j]].size)];
            LinksOnly(heap0, heap') && UnchangedBut(heap0, heap', list) && LinkedUp(heap', list, last, j + 1)
  {
    var heap' := heap[list[j] := Free(w, heap[list[j]].size)];
    LinksStep(heap0, heap, list[j], w);
    assert UnchangedBut(heap0, heap', list) by {
      assert list[j] in list;
    }
    hide LinksOnly, UnchangedBut;
    forall i | 0 <= i < j + 1 ensures FreeAt(heap', list[i]) && heap'[list[i]].next == After(list, last, i) {
      assert i != j ==> list[i] != list[j];
    }
  }

  lemma LinksStep(heap0: Heap, heap: Heap, o: nat, w: Word)
    requires LinksOnly(heap0, heap) && FreeAt(heap, o)
    ensures LinksOnly(heap0, heap[o := Free(w, heap[o].size)])
  {
  }

  /** Links the listed chunks one to the next, and the last of them to last. */
  method LinkUp(td: Td, list: array<nat>, last: Word)
    requires Loose(td.mem, td.heap, td.header.size) && list.Length > 0
    requires Distinct(list[..])
    requires forall j | 0 <= j < list.Length :: FreeAt(td.heap, list[j]) && list[j] < WORD_LIMIT
    modifies td`mem, td`heap
    ensures Loose(td.mem, td.heap, td.header.size)
    ensures LinksOnly(old(td.heap), td.heap) && UnchangedBut(old(td.heap), td.heap, list[..])
    ensures LinkedUp(td.heap, list[..], last, list.Length)
  {
    hide Loose, LinksOnly, UnchangedBut, LinkedUp, Distinct;
    ghost var heap0, l := td.heap, list[..];
    NothingLinked(heap0, l, last);
    var i := 1;
    while i < list.Length
      invariant 1 <= i <= list.Length && list[..] == l
      invariant Loose(td.mem, td.heap, td.header.size)
      invariant LinksOnly(heap0, td.heap) && UnchangedBut(heap0, td.heap, l) && LinkedUp(td.heap, l, last, i - 1)
    {
      StillFree(heap0, td.heap, l[i - 1]);
      PointStep(heap0, td.heap, l, last, i - 1, l[i]);
      PointAt(td, list[i - 1], list[i]);
      i := i + 1;
    }
    StillFree(heap0, td.heap, l[i - 1]);
    PointStep(heap0, td.heap, l, last, i - 1, last);
    PointAt(td, list[i - 1], last);
  }

  lemma NothingLinked(heap: Heap, list: seq<nat>, last: Word)
    ensures LinksOnly(heap, heap) && UnchangedBut(heap, heap, list) && LinkedUp(heap, list, last, 0)
  {
  }

  lemma StillFree(heap: Heap, heap': Heap, o: nat)
    requires LinksOnly(heap, heap') && FreeAt(heap, o)
    ensures FreeAt(heap', o)
  {
  }

  lemma MultisetDistinct(s: seq<nat>, s': seq<nat>)
    requires Distinct(s) && multiset(s) == multiset(s')
    ensures Distinct(s') && |s| == |s'| && forall x :: x in s <==> x in s'
  {
    assert |multiset(s)| == |s| && |multiset(s')| == |s'|;
    forall x ensures x in s <==> x in s' {
      assert x in multiset(s) <==> x in s;
      assert x in multiset(s') <==> x in s';
    }
    forall i, j | 0 <= i < j < |s'| ensures s'[i] != s'[j] {
      if s'[i] == s'[j] {
        var x := s'[i];
        assert s' == s'[..i] + [x] + s'[i + 1..j] + [x] + s'[j + 1..];
        assert multiset(s')[x] >= 2;
        OnceEach(s, x);
      }
    }
  }

  lemma {:induction false} OnceEach(s: seq<nat>, x: nat)
    requires Distinct(s)
    ensures multiset(s)[x] <= 1
  {
    if s != [] {
      OnceEach(s[1..], x);
      assert s == [s[0]] + s[1..];
      assert forall i | 0 < i < |s| :: s[i] == s[1..][i - 1];
    }
  }

  /** The free list after a stretch of it has been put in another order and linked up. */
  lemma FreeReordered(heap: Heap, offE: nat, free: seq<nat>, heap': Heap, free': seq<nat>, i: nat, e: nat)
    requires FreeList(heap, offE, free) && LinksOnly(heap, heap')
    requires i < e <= |free| == |free'| && free'[..i] == free[..i] && free'[e..] == free[e..]
    requires Distinct(free') && forall o :: o in free <==> o in free'
    requires LinkedUp(heap', free'[i..e], At(free, e), e - i)
    requires forall k | 0 <= k < |free| && (k + 1 < i || k >= e) && free[k] in heap ::
      free[k] in heap' && heap'[free[k]] == heap[free[k]]
    requires i > 0 ==> FreeAt(heap', free[i - 1]) && heap'[free[i - 1]].next == free'[i]
    ensures FreeList(heap', At(free', 0), free')
  {
    forall k: nat | k < |free'| ensures LinkAt(heap', free', k) {
      ReorderedLink(heap, free, heap', free', i, e, k);
    }
  }

  lemma ReorderedLink(heap: Heap, free: seq<nat>, heap': Heap, free': seq<nat>, i: nat, e: nat, k: nat)
    requires i < e <= |free| == |free'| && free'[..i] == free[..i] && free'[e..] == free[e..]
    requires k < |free| && LinkAt(heap, free, k)
    requires LinkedUp(heap', free'[i..e], At(free, e), e - i)
    requires (k + 1 < i || k >= e) && free[k] in heap ==> free[k] in heap' && heap'[free[k]] == heap[free[k]]
    requires i > 0 ==> FreeAt(heap', free[i - 1]) && heap'[free[i - 1]].next == free'[i]
    ensures LinkAt(heap', free', k)
  {
    SameAt(free, free', i, e, k);
    SameAt(free, free', i, e, k + 1);
    if i <= k < e {
      var list, j := free'[i..e], k - i;
      assert list[j] == free'[k] && FreeAt(heap', list[j]);
      if k + 1 < e {
        assert list[j + 1] == free'[k + 1];
      }
    }
  }

  lemma SameAt(free: seq<nat>, free': seq<nat>, i: nat, e: nat, k: nat)
    requires i < e <= |free| == |free'| && free'[..i] == free[..i] && free'[e..] == free[e..]
    ensures k < i || k >= e ==> At(free', k) == At(free, k)
  {
    if k < i {
      assert free'[..i][k] == free[..i][k];
    } else if e <= k < |free| {
      assert free'[e..][k - e] == free[e..][k - e];
    }
  }

  // ------------------------------------------------------------ sorting

  lemma ListStands(mem: seq<Byte>, heap: Heap, free: seq<nat>, hd: Header, k: nat)
    requires IsSound(mem, heap, free, hd) && k <= |free|
    ensures At(free, k) == 0 <==> k == |free|
    ensures k < |free| ==> FreeAt(heap, free[k]) && heap[free[k]].next == At(free, k + 1) && free[k] + 4 <= |mem|
    ensures k < |free| ==> Unpack(mem[free[k]..free[k] + 4]) == At(free, k + 1)
    ensures At(free, k) < WORD_LIMIT && hd.offE == At(free, 0)
  {
    Standing(mem, heap, free, hd, k);
    if k < |free| {
      BlockOf(mem, heap, free, hd, free[k]);
      LinkStored(mem, free[k], heap[free[k]]);
    }
  }

  lemma SortedSound(mem: seq<Byte>, heap: Heap, free: seq<nat>, hd: Header, mem': seq<Byte>, heap': Heap,
                    free': seq<nat>, i: nat, e: nat)
    requires IsSound(mem, heap, free, hd) && Loose(mem', heap', hd.size) && LinksOnly(heap, heap')
    requires i < e <= |free| == |free'| && free'[..i] == free[..i] && free'[e..] == free[e..]
    requires multiset(free'[i..e]) == multiset(free[i..e])
    requires LinkedUp(heap', free'[i..e], At(free, e), e - i)
    requires forall k | 0 <= k < |free| && (k + 1 < i || k >= e) && free[k] in heap ::
      free[k] in heap' && heap'[free[k]] == heap[free[k]]
    requires i > 0 ==> FreeAt(heap', free[i - 1]) && heap'[free[i - 1]].next == free'[i]
    ensures At(free', 0) < WORD_LIMIT
    ensures IsSound(mem', heap', free', hd.(offE := At(free', 0)))
    ensures Used(heap') == Used(heap)
  {
    hide Tiled, Encoded, LinkedUp;
    SameElements(free, free', i, e);
    MultisetDistinct(free, free');
    FreeReordered(heap, hd.offE, free, heap', free', i, e);
    FirstOffset(heap, hd.size, free, free'[0]);
    SameUsed(heap, heap');
  }

  lemma FirstOffset(heap: Heap, hi: nat, free: seq<nat>, o: nat)
    requires Tiled(heap, hi) && AllFree(heap, free) && o in free
    ensures o < hi
  {
    TiledBlock(heap, hi, o);
  }

  lemma SameUsed(heap: Heap, heap': Heap)
    requires LinksOnly(heap, heap')
    ensures Used(heap') == Used(heap)
  {
  }

  lemma SameElements(s: seq<nat>, s': seq<nat>, i: nat, e: nat)
    requires i <= e <= |s| == |s'| && s'[..i] == s[..i] && s'[e..] == s[e..] && multiset(s'[i..e]) == multiset(s[i..e])
    ensures multiset(s) == multiset(s')
  {
    ThreeParts(s, i, e);
    ThreeParts(s', i, e);
  }

  lemma ThreeParts(s: seq<nat>, i: nat, e: nat)
    requires i <= e <= |s|
    ensures multiset(s) == multiset(s[..i]) + multiset(s[i..e]) + multiset(s[e..])
  {
    assert s == s[..i] + s[i..e] + s[e..];
  }

  /** Reads the stretch of the list that is to be sorted: from elt1 on, at most level chunks. */
  method Collect(td: Td, level: nat, elt1: Word, elt2: Word, ghost i: nat) returns (list: seq<nat>, last: Word)
    requires td.Sound() && i < |td.free| && elt1 == td.free[i] && elt2 == At(td.free, i + 1) && level > 0
    ensures |list| == Least(level, |td.free| - i) && list == td.free[i..i + |list|]
    ensures |list| > 1 ==> last == At(td.free, i + |list|)
  {
    hide IsSound;
    var ptr: Word := elt2;
    last := 0;
    list := [elt1];
    assert td.free[i..i + 1] == [elt1];
    while |list| < level && ptr != 0
      invariant 0 < |list| <= level && i + |list| <= |td.free|
      invariant list == td.free[i..i + |list|]
      invariant ptr == At(td.free, i + |list|) && (|list| > 1 ==> last == ptr)
      decreases level - |list|
    {
      ListStands(td.mem, td.heap, td.free, td.header, i + |list|);
      list := list + [ptr];
      last := td.ReadUint(ptr);
      ptr := last;
    }
    ListStands(td.mem, td.heap, td.free, td.header, i + |list|);
  }

  /** The list with a stretch of it exchanged. */
  ghost function Spliced(free: seq<nat>, i: nat, e: nat, run: seq<nat>): (s: seq<nat>)
    requires i <= e <= |free| && |run| == e - i
    ensures |s| == |free| && s[..i] == free[..i] && s[i..e] == run && s[e..] == free[e..]
  {
    free[..i] + run + free[e..]
  }

  /** The chunks of a stretch are free, distinct, and not among the rest of the list. */
  lemma Stretch(mem: seq<Byte>, heap: Heap, free: seq<nat>, hd: Header, i: nat, e: nat, run: seq<nat>)
    requires IsSound(mem, heap, free, hd) && i < e <= |free| && multiset(run) == multiset(free[i..e])
    ensures |run| == e - i && Distinct(run)
    ensures forall j | 0 <= j < |run| :: FreeAt(heap, run[j]) && run[j] < WORD_LIMIT
    ensures forall k | 0 <= k < |free| && (k < i || k >= e) :: free[k] !in run
    ensures i > 0 ==> FreeAt(heap, free[i - 1]) && free[i - 1] != 0
    ensures Loose(mem, heap, hd.size)
  {
    var part := free[i..e];
    assert forall j | 0 <= j < |part| :: part[j] == free[i + j];
    MultisetDistinct(part, run);
    forall j | 0 <= j < |run| ensures FreeAt(heap, run[j]) && run[j] < WORD_LIMIT {
      assert run[j] in part;
      assert run[j] in free;
      TiledBlock(heap, hd.size, run[j]);
    }
    if i > 0 {
      Standing(mem, heap, free, hd, i - 1);
    }
  }

  /** The store after the link to a stretch and the links inside it have been written. */
  lemma RelinkedBlocks(heap: Heap, free: seq<nat>, heap1: Heap, heap': Heap, i: nat, e: nat, run: seq<nat>)
    requires i < e <= |free| && |run| == e - i && run[0] < WORD_LIMIT && Distinct(free)
    requires forall k | 0 <= k < |free| && (k < i || k >= e) :: free[k] !in run
    requires i > 0 ==> FreeAt(heap, free[i - 1])
    requires heap1 == if i == 0 then heap else heap[free[i - 1] := Free(run[0], heap[free[i - 1]].size)]
    requires LinksOnly(heap1, heap') && UnchangedBut(heap1, heap', run)
    ensures LinksOnly(heap, heap')
    ensures forall k | 0 <= k < |free| && (k + 1 < i || k >= e) && free[k] in heap ::
      free[k] in heap' && heap'[free[k]] == heap[free[k]]
    ensures i > 0 ==> FreeAt(heap', free[i - 1]) && heap'[free[i - 1]].next == run[0]
  {
    forall k | 0 <= k < |free| && (k + 1 < i || k >= e) && free[k] in heap
      ensures free[k] in heap' && heap'[free[k]] == heap[free[k]]
    {
      assert free[k] !in run;
    }
  }

  lemma RelinkedSound(mem: seq<Byte>, heap: Heap, free: seq<nat>, hd: Header, heap1: Heap, mem': seq<Byte>, heap': Heap,
                      i: nat, e: nat, run: seq<nat>)
    requires IsSound(mem, heap, free, hd) && Loose(mem', heap', hd.size)
    requires i < e <= |free| && |run| == e - i && multiset(run) == multiset(free[i..e])
    requires run[0] < WORD_LIMIT
    requires i > 0 ==> FreeAt(heap, free[i - 1])
    requires heap1 == if i == 0 then heap else heap[free[i - 1] := Free(run[0], heap[free[i - 1]].size)]
    requires LinksOnly(heap1, heap') && UnchangedBut(heap1, heap', run) && LinkedUp(heap', run, At(free, e), |run|)
    ensures var free' := Spliced(free, i, e, run);
            && IsSound(mem', heap', free', hd.(offE := if i == 0 then run[0] else hd.offE))
            && Used(heap') == Used(heap) && LinksOnly(heap, heap')
  {
    Stretch(mem, heap, free, hd, i, e, run);
    RelinkedBlocks(heap, free, heap1, heap', i, e, run);
    var free' := Spliced(free, i, e, run);
    SplicedAt(free, i, e, run);
    hide IsSound, Loose, LinksOnly, UnchangedBut, LinkedUp, Spliced;
    SortedSound(mem, heap, free, hd, mem', heap', free', i, e);
    ListStands(mem, heap, free, hd, 0);
  }

  lemma SplicedAt(free: seq<nat>, i: nat, e: nat, run: seq<nat>)
    requires i < e <= |free| && |run| == e - i
    ensures var s := Spliced(free, i, e, run);
            s[i] == run[0] && At(s, 0) == if i == 0 then run[0] else At(free, 0)
  {
  }

  /** Writes the links of a sorted stretch, the one that leads to it first. */
  method LinkSorted(td: Td, orig: Word, arr: array<nat>, last: Word, ghost i: nat)
    requires td.Sound() && arr.Length > 0 && i + arr.Length <= |td.free|
    requires multiset(arr[..]) == multiset(td.free[i..i + arr.Length])
    requires last == At(td.free, i + arr.Length)
    requires orig == if i == 0 then 0 else td.free[i - 1]
    modifies td`mem, td`header, td`heap, td`free
    ensures td.Sound() && Used(td.heap) == Used(old(td.heap)) && LinksOnly(old(td.heap), td.heap)
    ensures td.header == old(td.header).(offE := td.header.offE)
    ensures td.free == Spliced(old(td.free), i, i + arr.Length, arr[..])
  {
    hide IsSound, Loose, LinksOnly, UnchangedBut, LinkedUp, Distinct;
    ghost var e, run := i + arr.Length, arr[..];
    ghost var mem, heap, hd := td.mem, td.heap, td.header;
    Stretch(mem, heap, td.free, hd, i, e, run);
    assert arr[0] == run[0] && td.free[i..e][0] == td.free[i];
    if orig == 0 {
      td.header := td.header.(offE := arr[0]);
    } else {
      PointAt(td, orig, arr[0]);
    }
    ghost var heap1 := td.heap;
    LinkMoved(heap, heap1, orig, arr[0]);
    FreeStays(heap, heap1, run);
    LinkUp(td, arr, last);
    RelinkedSound(mem, heap, td.free, hd, heap1, td.mem, td.heap, i, e, run);
    td.free := Spliced(td.free, i, e, run);
  }

  lemma LinkMoved(heap: Heap, heap1: Heap, o: nat, w: Word)
    requires heap1 == heap || (FreeAt(heap, o) && heap1 == heap[o := Free(w, heap[o].size)])
    ensures LinksOnly(heap, heap1)
  {
  }

  lemma FreeStays(heap: Heap, heap1: Heap, run: seq<nat>)
    requires forall j | 0 <= j < |run| :: FreeAt(heap, run[j])
    requires LinksOnly(heap, heap1)
    ensures forall j | 0 <= j < |run| :: FreeAt(heap1, run[j])
  {
  }

  /** Sorts a stretch of the free list that begins with a descent. */
  method SortEmptiesFrom(td: Td, level: nat, orig: Word, elt1: Word, elt2: Word, ghost i: nat)
    requires td.Sound() && i < |td.free| && elt1 == td.free[i] && elt2 == At(td.free, i + 1) && level > 0
    requires orig == if i == 0 then 0 else td.free[i - 1]
    modifies td`mem, td`header, td`heap, td`free
    ensures td.Sound() && Used(td.heap) == Used(old(td.heap)) && LinksOnly(old(td.heap), td.heap)
    ensures td.header == old(td.header).(offE := td.header.offE)
    ensures var e := i + Least(level, |old(td.free)| - i);
            && |td.free| == |old(td.free)| && td.free[..i] == old(td.free)[..i] && td.free[e..] == old(td.free)[e..]
            && IsSortOf(old(td.free)[i..e], td.free[i..e])
  {
    hide IsSound, Used, LinksOnly, Ascending, Spliced, At;
    var list, last := Collect(td, level, elt1, elt2, i);
    if |list| < 2 {
      LinksSame(td.heap);
      OneSorted(td.free[i..i + |list|]);
      return;
    }
    var arr := new nat[|list|](k requires 0 <= k < |list| => list[k]);
    assert arr[..] == list;
    Qsort(arr);
    LinkSorted(td, orig, arr, last, i);
  }

  lemma OneSorted(s: seq<nat>)
    requires |s| < 2
    ensures IsSortOf(s, s)
  {
  }

  lemma LinksSame(heap: Heap)
    ensures LinksOnly(heap, heap)
  {
  }

  lemma {:induction false} DescentFrom(s: seq<nat>, i: nat, d: nat)
    requires i <= d <= |s|
    requires forall j | i <= j < d && j + 1 < |s| :: s[j] <= s[j + 1]
    requires d == |s| || (d + 1 < |s| && s[d + 1] < s[d])
    ensures Descent(s, i) == d
    decreases d - i
  {
    if i < d && i + 1 < |s| {
      assert s[i] <= s[i + 1];
      DescentFrom(s, i + 1, d);
    }
  }

  /** Nothing to do if no descent begins among the first n chunks. */
  lemma NoSort(s: seq<nat>, level: nat, n: nat)
    requires n <= |s| && forall j | 0 <= j < n && j + 1 < |s| :: s[j] <= s[j + 1]
    requires n >= level || n == |s|
    ensures SortStep(s, s, level)
  {
    if Descent(s, 0) < |s| {
      assert Descent(s, 0) >= n;
    }
  }

  lemma SortHere(s: seq<nat>, s': seq<nat>, level: nat, i: nat)
    requires i + 1 < |s| && i < level && s[i + 1] < s[i] && forall j | 0 <= j < i && j + 1 < |s| :: s[j] <= s[j + 1]
    requires var e := i + Least(level, |s| - i);
             |s'| == |s| && s'[..i] == s[..i] && s'[e..] == s[e..] && IsSortOf(s[i..e], s'[i..e])
    ensures SortStep(s, s', level)
  {
    DescentFrom(s, 0, i);
  }

  lemma AtMeans(free: seq<nat>)
    ensures forall i | 0 <= i < |free| :: At(free, i) == free[i]
  {
  }

  /** Walks the list to the first chunk, among the first level, that lies behind its successor. */
  method FindDescent(td: Td, level: nat) returns (found: bool, orig: Word, ptr: Word, next: Word, i: nat)
    requires td.Sound()
    ensures i <= |td.free| && forall j | 0 <= j < i && j + 1 < |td.free| :: td.free[j] <= td.free[j + 1]
    ensures found ==> i + 1 < |td.free| && i < level && td.free[i + 1] < td.free[i]
    ensures found ==> ptr == td.free[i] && next == td.free[i + 1] && orig == if i == 0 then 0 else td.free[i - 1]
    ensures !found ==> i >= level || i == |td.free|
  {
    hide IsSound, FreeAt, At, Unpack;
    ListStands(td.mem, td.heap, td.free, td.header, 0);
    AtMeans(td.free);
    found, orig, ptr, next, i := false, 0, td.header.offE, 0, 0;
    while ptr != 0 && i < level
      invariant i <= |td.free| && ptr == At(td.free, i)
      invariant orig == if i == 0 then 0 else td.free[i - 1]
      invariant forall j | 0 <= j < i && j + 1 < |td.free| :: td.free[j] <= td.free[j + 1]
      decreases level - i
    {
      ListStands(td.mem, td.heap, td.free, td.header, i);
      ListStands(td.mem, td.heap, td.free, td.header, i + 1);
      next := td.ReadUint(ptr);
      if next != 0 && next < ptr {
        found := true;
        return;
      }
      orig, ptr := ptr, next;
      i := i + 1;
    }
    ListStands(td.mem, td.heap, td.free, td.header, i);
  }

  /** Sorts from the first descent among the first level chunks. */
  method SortEmpties(td: Td, level: nat)
    requires td.Sound()
    modifies td`mem, td`header, td`heap, td`free
    ensures td.Sound() && Used(td.heap) == Used(old(td.heap)) && LinksOnly(old(td.heap), td.heap)
    ensures td.header == old(td.header).(offE := td.header.offE)
    ensures level >= 2 ==> SortStep(old(td.free), td.free, level)
    ensures level < 2 ==> td.free == old(td.free)
  {
    hide IsSound, SortStep, Used;
    LinksSame(td.heap);
    if level < 2 {
      return;
    }
    var found, orig, ptr, next;
    var i;
    found, orig, ptr, next, i := FindDescent(td, level);
    if found {
      SortEmptiesFrom(td, level, orig, ptr, next, i);
      SortHere(old(td.free), td.free, level, i);
    } else {
      NoSort(td.free, level, i);
    }
  }

  // ------------------------------------------------------------ merging

  /** As many sorts as there are free chunks put the stored list in order. */
  method SortAll(td: Td, level: nat)
    requires td.Sound() && level >= 2 && level >= |td.free|
    modifies td`mem, td`header, td`heap, td`free
    ensures td.Sound() && Used(td.heap) == Used(old(td.heap)) && LinksOnly(old(td.heap), td.heap)
    ensures td.header == old(td.header).(offE := td.header.offE)
    ensures Ascending(td.free) && multiset(td.free) == multiset(old(td.free))
  {
    hide IsSound, SortStep, Used, LinksOnly, Ascending;
    LinksSame(td.heap);
    CountIs(td.mem, td.heap, td.free, td.header);
    ghost var runs := [td.free];
    var n := td.header.nempties;
    for i := 0 to n
      invariant td.Sound() && Used(td.heap) == Used(old(td.heap)) && LinksOnly(old(td.heap), td.heap)
      invariant td.header == old(td.header).(offE := td.header.offE)
      invariant |runs| == i + 1 && runs[0] == old(td.free) && runs[i] == td.free
      invariant forall j | 0 <= j < |runs| - 1 :: SortStep(runs[j], runs[j + 1], level)
    {
      ghost var heap := td.heap;
      SortEmpties(td, level);
      LinksTwice(old(td.heap), heap, td.heap);
      runs := runs + [td.free];
    }
    SortsConverge(runs, level, n);
  }

  lemma LinksTwice(heap: Heap, heap1: Heap, heap2: Heap)
    requires LinksOnly(heap, heap1) && LinksOnly(heap1, heap2)
    ensures LinksOnly(heap, heap2)
  {
  }

  /** The chunks at o and p touch. */
  ghost predicate Touch(heap: Heap, o: nat, p: nat) {
    o in heap && o + Size(heap[o]) == p
  }

  /** The k-th free chunk swallows its successor on the list, which it touches. */
  lemma SoundMerge(mem: seq<Byte>, heap: Heap, free: seq<nat>, hd: Header, k: nat, head: ChunkHead)
    requires IsSound(mem, heap, free, hd) && k + 1 < |free|
    requires free[k] in heap && free[k + 1] in heap && Touch(heap, free[k], free[k + 1])
    requires head.size == Size(heap[free[k]]) + Size(heap[free[k + 1]]) && head.next == At(free, k + 2)
    ensures free[k] + CHUNKHEAD_SIZE <= |mem| && hd.nempties > 0
    ensures var heap' := (heap - {free[k + 1]})[free[k] := Free(head.next, head.size)];
            && IsSound(Poke(mem, free[k], ChunkHeadBytes(head)), heap', Shortened(free, k + 1),
                 hd.(nempties := hd.nempties - 1))
            && Used(heap') == Used(heap)
  {
    hide Tiled;
    var o, p := free[k], free[k + 1];
    var heap' := (heap - {p})[o := Free(head.next, head.size)];
    Standing(mem, heap, free, hd, k);
    Standing(mem, heap, free, hd, k + 1);
    MergedBytes(mem, heap, hd.size, o, head);
    TiledMerge(heap, hd.size, o, Free(head.next, head.size));
    MergedList(heap, hd.offE, free, k, head);
  }

  lemma MergedBytes(mem: seq<Byte>, heap: Heap, hi: nat, o: nat, head: ChunkHead)
    requires Encoded(mem, heap) && Tiled(heap, hi) && hi == |mem|
    requires FreeAt(heap, o) && FreeAt(heap, o + Size(heap[o]))
    requires head.size == Size(heap[o]) + Size(heap[o + Size(heap[o])])
    ensures o + CHUNKHEAD_SIZE <= |mem|
    ensures Encoded(Poke(mem, o, ChunkHeadBytes(head)), (heap - {o + Size(heap[o])})[o := Free(head.next, head.size)])
  {
    hide Tiled, Encoded, Holds;
    var p := o + Size(heap[o]);
    HoldsAt(mem, heap, hi, o);
    HoldsAt(mem, heap, hi, p);
    var mem' := Poke(mem, o, ChunkHeadBytes(head));
    PokeHas(mem, o, ChunkHeadBytes(head));
    PokeWithin(mem, o, ChunkHeadBytes(head), o, p);
    HoldsFreshFree(mem', o, head);
    EncodedRetag(mem, mem', heap, hi, o, Free(head.next, head.size));
    EncodedLess(mem', heap[o := Free(head.next, head.size)], p);
    assert heap[o := Free(head.next, head.size)] - {p} == (heap - {p})[o := Free(head.next, head.size)];
  }

  lemma EncodedLess(mem: seq<Byte>, heap: Heap, p: nat)
    requires Encoded(mem, heap)
    ensures Encoded(mem, heap - {p})
  {
  }

  lemma MergedList(heap: Heap, offE: nat, free: seq<nat>, k: nat, head: ChunkHead)
    requires FreeList(heap, offE, free) && k + 1 < |free| && head.next == At(free, k + 2)
    ensures var heap' := (heap - {free[k + 1]})[free[k] := Free(head.next, head.size)];
            && FreeList(heap', offE, Shortened(free, k + 1)) && Used(heap') == Used(heap)
  {
    var free' := Shortened(free, k + 1);
    var heap' := (heap - {free[k + 1]})[free[k] := Free(head.next, head.size)];
    assert free[k] in free && free[k + 1] in free;
    forall j: nat | j < |free'| ensures LinkAt(heap', free', j) {
      assert LinkAt(heap, free, if j <= k then j else j + 1);
    }
    forall o | o in heap' && heap'[o].Free? ensures o in free' {
      var i :| 0 <= i < |free| && free[i] == o;
      assert free'[if i <= k then i else i - 1] == o;
    }
  }

  /** Of the first k + 1 free chunks none touches the next on the list. */
  ghost predicate NoTouch(heap: Heap, free: seq<nat>, k: nat) {
    forall j | 0 <= j < k && j + 1 < |free| :: !Touch(heap, free[j], free[j + 1])
  }

  lemma MergedKeeps(heap: Heap, free: seq<nat>, k: nat, b: Block)
    requires Distinct(free) && k + 1 < |free| && NoTouch(heap, free, k)
    ensures NoTouch((heap - {free[k + 1]})[free[k] := b], Shortened(free, k + 1), k)
    ensures Ascending(free) ==> Ascending(Shortened(free, k + 1))
  {
    var free' := Shortened(free, k + 1);
    assert forall j | 0 <= j < |free'| :: free'[j] == free[if j <= k then j else j + 1];
  }

  /** Dropping a chunk that lies behind its predecessor brings in no descent. */
  lemma MergeAscends(s: seq<nat>, k: nat, b: nat)
    requires k + 1 < |s| && s[k] < s[k + 1] && AscendsFrom(s, b)
    ensures AscendsFrom(Shortened(s, k + 1), b)
  {
    var s' := Shortened(s, k + 1);
    assert forall j | 0 <= j < |s'| :: s'[j] == s[if j <= k then j else j + 1];
    forall j | b <= j && j + 1 < |s'| ensures s'[j] <= s'[j + 1] {
      if j == k {
        assert s[k + 1] <= s[k + 2];
      } else {
        var i := if j < k then j else j + 1;
        assert s[i] <= s[i + 1];
      }
    }
  }

  lemma DistinctFree(mem: seq<Byte>, heap: Heap, free: seq<nat>, hd: Header)
    requires IsSound(mem, heap, free, hd)
    ensures Distinct(free)
  {
  }

  /** One merge: writes the joined head over the k-th free chunk's. */
  method MergeOne(td: Td, ptr1: Word, head: ChunkHead, ghost k: nat)
    requires td.Sound() && k + 1 < |td.free| && ptr1 == td.free[k]
    requires FreeAt(td.heap, td.free[k]) && FreeAt(td.heap, td.free[k + 1]) &&
      Touch(td.heap, td.free[k], td.free[k + 1])
    requires head.size == Size(td.heap[td.free[k]]) + Size(td.heap[td.free[k + 1]]) && head.next == At(td.free, k + 2)
    requires NoTouch(td.heap, td.free, k)
    modifies td`mem, td`header, td`heap, td`free
    ensures td.Sound() && Used(td.heap) == Used(old(td.heap))
    ensures old(td.header).nempties > 0 && td.header == old(td.header).(nempties := old(td.header).nempties - 1)
    ensures td.free == Shortened(old(td.free), k + 1) && NoTouch(td.heap, td.free, k)
    ensures FreeAt(td.heap, ptr1) && td.heap[ptr1].size == head.size && KeepsRoom(old(td.heap), td.heap)
    ensures Ascending(old(td.free)) ==> Ascending(td.free)
    ensures forall b: nat | AscendsFrom(old(td.free), b) :: AscendsFrom(td.free, b)
  {
    hide IsSound, Used, NoTouch, Ascending, KeepsRoom, AscendsFrom;
    Standing(td.mem, td.heap, td.free, td.header, k);
    forall b: nat | AscendsFrom(td.free, b) ensures AscendsFrom(Shortened(td.free, k + 1), b) {
      MergeAscends(td.free, k, b);
    }
    SoundMerge(td.mem, td.heap, td.free, td.header, k, head);
    DistinctFree(td.mem, td.heap, td.free, td.header);
    assert td.free[k] != td.free[k + 1];
    MergeKeepsRoom(td.heap, ptr1, td.free[k + 1], Free(head.next, head.size));
    MergedKeeps(td.heap, td.free, k, Free(head.next, head.size));
    td.Write(ptr1, ChunkHeadBytes(head));
    td.header := td.header.(nempties := td.header.nempties - 1);
    td.heap := (td.heap - {td.free[k + 1]})[td.free[k] := Free(head.next, head.size)];
    td.free := Shortened(td.free, k + 1);
  }

  /** Walks the list and joins each chunk with those that follow it on the list and touch it, at most level times. */
  method MergeEmpties(td: Td, level: nat) returns (ghost merges: nat)
    requires td.Sound()
    modifies td`mem, td`header, td`heap, td`free
    ensures td.Sound() && Used(td.heap) == Used(old(td.heap))
    ensures merges <= old(td.header).nempties
    ensures td.header == old(td.header).(nempties := old(td.header).nempties - merges)
    ensures |td.free| + merges == |old(td.free)|
    ensures Ascending(old(td.free)) ==> Ascending(td.free)
    ensures merges == level || NoTouch(td.heap, td.free, |td.free|)
    ensures level + 1 >= |old(td.free)| ==> NoTouch(td.heap, td.free, |td.free|)
    ensures KeepsRoom(old(td.heap), td.heap)
    ensures forall b: nat | AscendsFrom(old(td.free), b) :: AscendsFrom(td.free, b)
  {
    hide IsSound, Used, Ascending, NoTouch, Touch, KeepsRoom, AscendsFrom;
    merges := 0;
    LinksSame(td.heap);
    LinksKeepRoom(td.heap, td.heap);
    NoTouchYet(td.heap, td.free);
    ListStands(td.mem, td.heap, td.free, td.header, 0);
    var ptr1 := td.header.offE;
    if ptr1 == 0 {
      return;
    }
    ghost var k := 0;
    Standing(td.mem, td.heap, td.free, td.header, 0);
    var head1 := td.ReadChunkhead(ptr1);
    var ptr2 := head1.next;
    var left := level;
    while ptr2 != 0 && left != 0
      invariant td.Sound() && Used(td.heap) == Used(old(td.heap))
      invariant merges <= level && left == level - merges && merges <= old(td.header).nempties
      invariant td.header == old(td.header).(nempties := old(td.header).nempties - merges)
      invariant k < |td.free| && |td.free| + merges == |old(td.free)|
      invariant ptr1 == td.free[k] && ptr2 == At(td.free, k + 1)
      invariant FreeAt(td.heap, ptr1) && head1.size == td.heap[ptr1].size
      invariant NoTouch(td.heap, td.free, k) && (Ascending(old(td.free)) ==> Ascending(td.free))
      invariant KeepsRoom(old(td.heap), td.heap)
      invariant forall b: nat | AscendsFrom(old(td.free), b) :: AscendsFrom(td.free, b)
      decreases |td.free| - k
    {
      Standing(td.mem, td.heap, td.free, td.header, k + 1);
      var head2 := td.ReadChunkhead(ptr2);
      TouchIs(td.heap, ptr1, ptr2);
      if ptr1 + head1.size == ptr2 {
        TouchFits(td.mem, td.heap, td.free, td.header, ptr1, ptr2);
        head1 := ChunkHead(head2.next, head1.size + head2.size, head1.checksum, head1.refcount);
        ghost var heap1 := td.heap;
        MergeOne(td, ptr1, head1, k);
        RoomKeptTwice(old(td.heap), heap1, td.heap);
        left := left - 1;
        merges := merges + 1;
        Standing(td.mem, td.heap, td.free, td.header, k);
      } else {
        NoTouchNext(td.heap, td.free, k);
        ptr1, head1 := ptr2, head2;
        k := k + 1;
      }
      ptr2 := head2.next;
    }
    ListStands(td.mem, td.heap, td.free, td.header, k + 1);
    NoTouchEnd(td.heap, td.free, k);
  }

  lemma NoTouchYet(heap: Heap, free: seq<nat>)
    ensures NoTouch(heap, free, 0) && (free == [] ==> NoTouch(heap, free, |free|))
  {
  }

  lemma TouchIs(heap: Heap, o: nat, p: nat)
    requires FreeAt(heap, o)
    ensures Touch(heap, o, p) <==> o + heap[o].size == p
  {
  }

  lemma TouchFits(mem: seq<Byte>, heap: Heap, free: seq<nat>, hd: Header, o: nat, p: nat)
    requires IsSound(mem, heap, free, hd) && FreeAt(heap, o) && FreeAt(heap, p) && Touch(heap, o, p)
    ensures heap[o].size + heap[p].size < WORD_LIMIT
  {
    BlockOf(mem, heap, free, hd, p);
  }

  lemma NoTouchNext(heap: Heap, free: seq<nat>, k: nat)
    requires NoTouch(heap, free, k) && k + 1 < |free| && !Touch(heap, free[k], free[k + 1])
    ensures NoTouch(heap, free, k + 1)
  {
  }

  lemma NoTouchEnd(heap: Heap, free: seq<nat>, k: nat)
    requires NoTouch(heap, free, k)
    ensures k + 1 >= |free| ==> NoTouch(heap, free, |free|)
  {
  }

  // ------------------------------------------------------------ the whole

  /** Byte x belongs to a free chunk. */
  ghost predicate Covered(heap: Heap, x: nat) {
    exists o: nat :: FreeAt(heap, o) && o <= x < o + Size(heap[o])
  }

  /** As long as the blocks in use stay, and the blocks tile the resource, the free chunks cover the same bytes. */
  lemma SameCover(heap: Heap, heap': Heap, hi: nat, x: nat)
    requires Tiled(heap, hi) && Tiled(heap', hi) && Used(heap) == Used(heap')
    requires Covered(heap, x)
    ensures Covered(heap', x)
  {
    var o: nat :| FreeAt(heap, o) && o <= x < o + Size(heap[o]);
    TiledBlock(heap, hi, o);
    ByteInOneBlock(Sizes(heap'), hi, x);
    var p :| p in Sizes(heap') && p <= x < p + Sizes(heap')[p];
    if !heap'[p].Free? {
      assert p in Used(heap') && p in Used(heap);
      if p != o {
        TiledApart(heap, hi, o, p);
      }
      assert false;
    }
  }

  /** In an ascending list, if no chunk touches the next, no free chunk touches another. */
  lemma NoneTouch(mem: seq<Byte>, heap: Heap, free: seq<nat>, hd: Header, o: nat, p: nat)
    requires IsSound(mem, heap, free, hd) && Ascending(free) && NoTouch(heap, free, |free|)
    requires FreeAt(heap, o) && FreeAt(heap, p)
    ensures !Touch(heap, o, p)
  {
    var i :| 0 <= i < |free| && free[i] == o;
    var j :| 0 <= j < |free| && free[j] == p;
    TiledBlock(heap, hd.size, o);
    assert i < j ==> free[i] <= free[j];
    assert j < i ==> free[j] <= free[i];
    if i + 1 < j {
      Standing(mem, heap, free, hd, i + 1);
      BetweenBlocks(heap, hd.size, o, free[i + 1], p);
      assert free[i] <= free[i + 1] <= free[j];
    }
  }

  lemma BetweenBlocks(heap: Heap, hi: nat, o: nat, q: nat, p: nat)
    requires Tiled(heap, hi) && o in heap && q in heap
    ensures o < q < p ==> o + Size(heap[o]) != p
  {
    if o != q {
      TiledApart(heap, hi, o, q);
      TiledBlock(heap, hi, q);
    }
  }

  /** How far a defragmentation goes: the square of the number of chunks, on 32 bits, and no more than the limit. */
  function Level(nempties: nat): nat {
    Limited(nempties * nempties)
  }

  function Limited(square: nat): nat {
    if square % WORD_LIMIT > MAX_DEFRAGLEVEL then MAX_DEFRAGLEVEL else square % WORD_LIMIT
  }

  /** What a defragmentation does to the free list: one bounded sort, then the merges. */
  ghost predicate Defragmented(free: seq<nat>, sorted: seq<nat>, merges: nat, heap': Heap, free': seq<nat>) {
    var level := Level(|free|);
    if level > 2 then
      && SortStep(free, sorted, level)
      && |free'| + merges == |sorted|
      && (Ascending(sorted) ==> Ascending(free'))
      && (merges == level || NoTouch(heap', free', |free'|))
      && (level + 1 >= |sorted| ==> NoTouch(heap', free', |free'|))
    else
      free' == free && merges == 0
  }

  /**
   * Defragments the free list: one sort, which gives sorted, and then the merges. Blocks in use do not
   * move. Nothing is done for a list of one chunk.
   */
  method DefragStore(td: Td) returns (ghost sorted: seq<nat>, ghost merges: nat)
    requires td.Sound()
    modifies td`mem, td`header, td`heap, td`free
    ensures td.Sound() && Used(td.heap) == Used(old(td.heap))
    ensures SameButAlloc(old(td.header), td.header) && td.header.size == old(td.header).size
    ensures Defragmented(old(td.free), sorted, merges, td.heap, td.free)
    ensures td.header.nempties + merges == old(td.header).nempties
    ensures 2 <= |old(td.free)| <= 512 && Ascending(old(td.free)) ==>
              Ascending(td.free) && NoTouch(td.heap, td.free, |td.free|)
    ensures forall b: nat | 0 < b && AscendsFrom(old(td.free), b) && 2 <= |old(td.free)| <= 512 ::
              AscendsFrom(td.free, b - 1)
    ensures Room(td) >= old(Room(td))
  {
    hide IsSound, Used, Ascending, NoTouch, SortStep, LinksOnly, KeepsRoom, SizesOf, Largest, AscendsFrom;
    sorted, merges := td.free, 0;
    CountIs(td.mem, td.heap, td.free, td.header);
    if 2 <= td.header.nempties <= 512 {
      LevelReaches(td.header.nempties);
    }
    if td.header.nempties == 0 {
      return;
    }
    var level := Level(td.header.nempties);
    if level > 2 {
      SortEmpties(td, level);
      sorted := td.free;
      SortedStays(old(td.free), td.free, level);
      forall b: nat | 0 < b && AscendsFrom(old(td.free), b) && 2 <= |old(td.free)| <= 512
        ensures AscendsFrom(sorted, b - 1)
      {
        SortAscends(old(td.free), sorted, level, b);
      }
      LinksKeepRoom(old(td.heap), td.heap);
      ghost var heap1 := td.heap;
      merges := MergeEmpties(td, level);
      RoomKeptTwice(old(td.heap), heap1, td.heap);
      RoomKept(old(td.mem), old(td.heap), old(td.free), old(td.header), td.mem, td.heap, td.free, td.header);
    }
  }

  lemma CountIs(mem: seq<Byte>, heap: Heap, free: seq<nat>, hd: Header)
    requires IsSound(mem, heap, free, hd)
    ensures hd.nempties == |free|
  {
  }

  lemma LevelReaches(n: nat)
    requires 2 <= n <= 512
    ensures Level(n) > 2 && Level(n) >= n
  {
    SquareBounds(n);
    LimitedReaches(n, n * n);
  }

  lemma SquareBounds(n: nat)
    requires 2 <= n <= 512
    ensures 2 * n <= n * n <= 512 * n
    ensures n >= 23 ==> 23 * n <= n * n
  {
    TimesMonotone(2, n, n);
    TimesMonotone(n, 512, n);
    if n >= 23 {
      TimesMonotone(23, n, n);
    }
  }

  lemma {:induction false} TimesMonotone(a: nat, b: nat, c: nat)
    requires a <= b
    ensures a * c <= b * c
  {
    if c > 0 {
      TimesMonotone(a, b, c - 1);
    }
  }

  lemma LimitedReaches(n: nat, square: nat)
    requires 2 <= n <= 512 && 2 * n <= square <= 512 * n && (n >= 23 ==> 23 * n <= square)
    ensures Limited(square) > 2 && Limited(square) >= n
  {
    assert square % WORD_LIMIT == square;
  }

  lemma SortedStays(s: seq<nat>, s': seq<nat>, level: nat)
    requires SortStep(s, s', level)
    ensures |s'| == |s|
    ensures Ascending(s) ==> s' == s
  {
    SortKeepsElements(s, s', level);
  }
}
