/** What clients can rely on, shown by small programs that use a store. */
module Clients {
  import opened Bytes
  import opened Tilings
  import opened Blocks
  import opened Store
  import opened Allocator
  import opened Values
  import opened Trees
  import opened Surgery
  import opened Chains
  import opened Fitness
  import opened FreeLists
  import opened Keys
  import opened Records
  import opened Contents
  import opened Database
  import opened Deletes
  import opened Operations
  import opened Cursors
  import opened Rebalance
  import opened Defrag
  import opened Paths
  import Sorting
  import Runs
  import Puts
  import Vectors

  // ------------------------------------------------------------ a callback that grants what it is asked for

  /**
   * A store whose callback always grants what it is asked for can still run out of space before 32 bits do: if
   * nothing fits and the request is 1 to 15 bytes smaller than the resource. What is asked for is then as much
   * as the resource has, which is too much to be used whole and too little to be split.
   */
  method GenerousClaim(td: Td, contiguous: bool, want: Word) returns (r: Status, off: Word, size: Word)
    requires td.Sound() && CHUNKHEAD_SIZE <= want && td.extendable && !td.header.flags.sparse
    requires forall k: nat, w: Word :: td.callback(k, w) == w
    modifies td`mem, td`header, td`heap, td`free, td`calls
    ensures var n, have := old(td.header).size, SizesOf(old(td.heap), old(td.free));
            r == Space <==>
              && NoneFits(have, want, contiguous)
              && (want < n < want + CHUNKHEAD_SIZE || n + (if n < want then want else n) >= WORD_LIMIT)
  {
    hide IsSound, NoneFits, Picks, Relisted, Used, SizesOf, ListGrew, Granted;
    SoundSize(td.mem, td.heap, td.free, td.header);
    ghost var at, seen, have1, free1;
    r, off, size, at, seen, have1, free1 := Claim(td, contiguous, want);
  }

  lemma SoundSize(mem: seq<Byte>, heap: Heap, free: seq<nat>, hd: Header)
    requires IsSound(mem, heap, free, hd)
    ensures HEADER_SIZE <= hd.size
  {
  }

  // ------------------------------------------------------------ the first put

  /** A new store with room for one value, its key and their heads takes them, whatever its flags. */
  method FirstPut(resource: seq<Byte>, extendable: bool, callback: (nat, nat) -> Word, flags: Flags, key: seq<Byte>,
                  value: seq<Byte>)
    returns (r: Status, td: Td)
    requires |resource| < WORD_LIMIT && |resource| - HEADER_SIZE >= |key| + |value| + 56
    ensures r == Ok && Valid(td) && ContentsOf(td) == [Entry(key, value)]
  {
    hide Valid, ContentsOf, Room, Found, Vectors.Concat, Vectors.Copyable, ShortGrant, Settled, Puts.PutTree, Height;
    td := new Td(resource, extendable, callback, true);
    r := InitCreate(td, flags);
    Runs.OneSegment(value);
    NothingThere(key, value);
    ghost var leaked, node;
    r, leaked, node := Puts.Put(td, key, [value], NO_FLAGS);
  }

  lemma NothingThere(key: seq<Byte>, value: seq<Byte>)
    ensures !Found([], key, false) && Rank([], key, false) == 0
    ensures Inserted([], 0, Entry(key, value)) == [Entry(key, value)]
    ensures Height(Leaf) == 0
  {
  }

  // ------------------------------------------------------------ duplicates

  lemma EmptyTree(td: Td)
    requires ContentsOf(td) == []
    ensures td.tree == Leaf && Weight(td.tree) == 0
  {
    EmptyIsLeaf(td.tree);
  }

  lemma FirstNode(key: seq<Byte>, value: seq<Byte>, es': Contents.Entries, duplKeys: bool, noOverwrite: bool, node: nat,
                  depth: nat, t': Tree, depth': nat)
    requires Weight(Leaf) == 0 && Puts.PutOutcome(Leaf, [], es', key, value, duplKeys, noOverwrite)
    requires Settled(Puts.PutTree(Leaf, [], key, duplKeys, node), DepthAfter(depth, Leaf, [], key, false), t', depth')
    ensures es' == [Entry(key, value)] && t' == Node(Leaf, node, Leaf) && depth' == depth
    ensures Weight(t') == 1 && Beside(t', 0) == 0
  {
    NothingThere(key, value);
    assert Inorder(Node(Leaf, node, Leaf)) == [node];
  }

  lemma SecondComesFirst(key: seq<Byte>, first: seq<Byte>, second: seq<Byte>, t: Tree, es': Contents.Entries,
                         noOverwrite: bool)
    requires Weight(t) == 1 && Beside(t, 0) == 0
    requires Puts.PutOutcome(t, [Entry(key, first)], es', key, second, true, noOverwrite)
    ensures es' == [Entry(key, second), Entry(key, first)]
    ensures Found(es', key, false) && Rank(es', key, false) == 0
  {
    CompareZero(key, key);
    Puts.DuplicateComesIn(t, [Entry(key, first)], es', key, second, noOverwrite);
  }

  /** A key put twice into an empty store with duplicates is looked up with the value put last. */
  method PutTwice(td: Td, key: seq<Byte>, first: seq<Byte>, second: seq<Byte>)
    returns (r: Status, value: seq<Byte>)
    requires Valid(td) && ContentsOf(td) == [] && td.header.flags.duplKeys && !td.header.flags.partial
    requires KEYHEAD_SIZE + |key| < WORD_LIMIT
    requires |first| + CHUNKHEAD_SIZE < WORD_LIMIT && |second| + CHUNKHEAD_SIZE < WORD_LIMIT
    modifies td
    ensures r == Ok || r == Space
    ensures r == Ok ==> ContentsOf(td) == [Entry(key, second), Entry(key, first)] && value == second
    ensures old(Room(td)) >= 2 * |key| + |first| + |second| + 96 ==> r == Ok
  {
    hide Valid, ContentsOf, SizesOf, Largest, Vectors.Concat, Vectors.Copyable, ShortGrant, Settled, Puts.PutTree,
      Puts.PutOutcome, Height, Rank, Found, Clean, Weight, Beside, DepthAfter, Cut, Added;
    value := [];
    EmptyTree(td);
    ContentsHigh(td);
    NothingThere(key, first);
    Runs.OneSegment(first);
    Runs.OneSegment(second);
    ghost var leaked, node, leaked2, node2;
    r, leaked, node := Puts.Put(td, key, [first], NO_FLAGS);
    if r != Ok {
      return;
    }
    FirstNode(key, first, ContentsOf(td), true, td.header.flags.noOverwrite, node, old(td.maxdepth), td.tree,
      td.maxdepth);
    ContentsHigh(td);
    ghost var t := td.tree;
    r, leaked2, node2 := Puts.Put(td, key, [second], NO_FLAGS);
    if r != Ok {
      return;
    }
    SecondComesFirst(key, first, second, t, ContentsOf(td), td.header.flags.noOverwrite);
    ContentsHigh(td);
    var found;
    ghost var n;
    r, found, value, n := Get(td, key, Into(Grow), NO_FLAGS.(exact := true));
  }

  // ------------------------------------------------------------ cursors made before a change

  /** A cursor made before a delete that succeeds is refused from then on. */
  method StaleAfterDelete(td: Td, key: seq<Byte>, keyCap: Capacity, want: Want, flags: Flags) returns (r: Status)
    requires Valid(td) && !td.header.flags.deleteAll && Found(ContentsOf(td), key, td.header.flags.partial)
    requires Height(td.tree) < TD_MAXDEPTH
    modifies td
    ensures r == Invalid
  {
    hide Valid, ContentsOf, Room, Height, Rank, Found, Settled, Pulled, Tidied, DepthAfter, Without, Cut, Purged;
    var cursor := new Cursor(td);
    r := cursor.Init();
    ValidStored(td);
    var value;
    ghost var y;
    r, value, y := Del(td, key, Nothing, NO_FLAGS);
    ValidStored(td);
    var k, v;
    r, k, v := cursor.Next(keyCap, want, flags, 0);
  }

  lemma ValidStored(td: Td)
    requires Valid(td)
    ensures td.stored == td.header
  {
  }

  /** So is one made before a pop. */
  method StaleAfterPop(td: Td, keyCap: Capacity, want: Want, flags: Flags) returns (r: Status)
    requires Valid(td) && ContentsOf(td) != [] && Height(td.tree) < TD_MAXDEPTH
    modifies td
    ensures r == Invalid
  {
    hide Valid, ContentsOf, Room, Height, Settled, Pulled, Tidied, Cut;
    var cursor := new Cursor(td);
    r := cursor.Init();
    ValidStored(td);
    var k, v;
    ghost var y;
    r, k, v, y := Pop(td, Grow, Nothing, NO_FLAGS);
    ValidStored(td);
    r, k, v := cursor.Next(keyCap, want, flags, 0);
  }

  /** And one made before a put that brings a key in. */
  method StaleAfterPut(td: Td, key: seq<Byte>, value: seq<Byte>, keyCap: Capacity, want: Want, flags: Flags)
    returns (put: Status, r: Status)
    requires Valid(td) && Runs.Sized(Runs.PutOp(key, value))
    requires td.header.flags.duplKeys || !Found(ContentsOf(td), key, false)
    modifies td
    ensures put == Ok ==> r == Invalid
  {
    hide Valid, ContentsOf, Room, Height, Settled, Puts.PutTree, Puts.PutOutcome, DepthAfter, Found, Cut, ShortGrant,
      Vectors.Concat, Vectors.Copyable, Added;
    var cursor := new Cursor(td);
    r := cursor.Init();
    ValidStored(td);
    Runs.OneSegment(value);
    ghost var leaked, node;
    put, leaked, node := Puts.Put(td, key, [value], NO_FLAGS);
    if put == Ok {
      ValidStored(td);
      var k, v;
      r, k, v := cursor.Next(keyCap, want, flags, 0);
    }
  }

  // ------------------------------------------------------------ eight deletes

  /** The lists a run of deletes leaves, one after the other, if the store had changed scn times before. */
  ghost predicate TidiedAll(lists: seq<seq<nat>>, ys: seq<Tidying>, heaps: seq<Heap>, scn: nat) {
    && |ys| == |heaps| && |lists| == |ys| + 1
    && forall i | 0 <= i < |ys| :: Tidied(lists[i], ys[i], scn + i + 1, heaps[i], lists[i + 1])
  }

  lemma TidiedOnce(lists: seq<seq<nat>>, ys: seq<Tidying>, heaps: seq<Heap>, scn: nat, y: Tidying, heap: Heap,
                   list: seq<nat>)
    requires TidiedAll(lists, ys, heaps, scn) && Tidied(lists[|ys|], y, scn + |ys| + 1, heap, list)
    ensures TidiedAll(lists + [list], ys + [y], heaps + [heap], scn)
  {
    hide Tidied;
    var n := |ys|;
    assert forall i | 0 <= i < n :: Tidied(lists[i], ys[i], scn + i + 1, heaps[i], lists[i + 1]);
  }

  lemma TidiedEight(lists: seq<seq<nat>>, ys: seq<Tidying>, heaps: seq<Heap>, scn: nat) returns (at: nat)
    requires TidiedAll(lists, ys, heaps, scn) && |ys| == 8
    ensures |heaps| == 8 && |lists| == 9 && at < 8 && (scn + at + 1) % 8 == 0
    ensures forall i | 0 <= i < 8 ::
              |lists[i]| < |ys[i].freed| && ys[i].freed[|ys[i].freed| - |lists[i]|..] == lists[i]
    ensures forall i | 0 <= i < 8 && i != at :: lists[i + 1] == ys[i].freed
    ensures Defragmented(ys[at].freed, ys[at].sorted, ys[at].merges, heaps[at], lists[at + 1])
  {
    hide Defragmented, Tidied;
    at := 7 - scn % 8;
    forall i | 0 <= i < 8
      ensures |lists[i]| < |ys[i].freed| && ys[i].freed[|ys[i].freed| - |lists[i]|..] == lists[i]
      ensures i != at ==> lists[i + 1] == ys[i].freed
    {
      OnlyTheEighth(scn, at, i);
      TidiedHere(lists[i], ys[i], scn + i + 1, heaps[i], lists[i + 1], i == at);
    }
    TidiedHere(lists[at], ys[at], scn + at + 1, heaps[at], lists[at + 1], true);
  }

  /** The two numbers are equally far from a change that defragments. */
  ghost predicate InStep(m: nat, n: nat) {
    m % 8 == n % 8
  }

  lemma OneChange(m: Word, n: nat, m': Word)
    requires InStep(m, n) && m' == (m + 1) % WORD_LIMIT
    ensures InStep(m', n + 1)
  {
    if m == WORD_LIMIT - 1 {
      assert m' == 0 && m % 8 == 7;
    } else {
      assert m' == m + 1;
    }
  }

  lemma OnlyTheEighth(n: nat, at: nat, i: nat)
    requires at < 8 && i < 8 && (n + at + 1) % 8 == 0
    ensures (n + i + 1) % 8 == 0 <==> i == at
  {
  }

  lemma TidiedHere(free: seq<nat>, y: Tidying, n: nat, heap': Heap, free': seq<nat>, eighth: bool)
    requires Tidied(free, y, n, heap', free') && (n % 8 == 0 <==> eighth)
    ensures |free| < |y.freed| && y.freed[|y.freed| - |free|..] == free
    ensures if eighth then Defragmented(y.freed, y.sorted, y.merges, heap', free') else free' == y.freed
  {
    hide Defragmented;
  }

  /** One delete, with the count of changes to which it belongs. */
  method CountedDelete(td: Td, key: seq<Byte>, ghost n: nat) returns (r: Status, ghost y: Tidying)
    requires Valid(td) && !td.header.flags.deleteAll && InStep(td.header.scn, n)
    modifies td
    ensures Valid(td) && td.header.flags == old(td.header).flags
    ensures r == Ok ==> InStep(td.header.scn, n + 1) && Tidied(old(td.free), y, n + 1, td.heap, td.free)
  {
    hide Valid, ContentsOf, Room, Height, Rank, Found, Settled, Pulled, DepthAfter, Without, Cut, Purged,
      Defragmented, InStep, Tidied;
    ghost var before := td.header.scn;
    var value;
    r, value, y := Del(td, key, Nothing, NO_FLAGS);
    if r == Ok {
      OneChange(before, n, td.header.scn);
      TidiedInStep(old(td.free), y, td.header.scn, n + 1, td.heap, td.free);
    }
  }

  lemma TidiedInStep(free: seq<nat>, y: Tidying, m: nat, n: nat, heap': Heap, free': seq<nat>)
    requires Tidied(free, y, m, heap', free') && InStep(m, n)
    ensures Tidied(free, y, n, heap', free')
  {
  }

  /** Eight deletes in a row, as far as they succeed. */
  method EightInARow(td: Td, keys: seq<seq<Byte>>)
    returns (r: Status, ghost ys: seq<Tidying>, ghost heaps: seq<Heap>, ghost lists: seq<seq<nat>>)
    requires Valid(td) && !td.header.flags.deleteAll && |keys| == 8
    modifies td
    ensures r == Ok ==>
      && |ys| == 8 && |lists| == 9 && lists[0] == old(td.free) && lists[8] == td.free
      && TidiedAll(lists, ys, heaps, old(td.header).scn)
  {
    hide Valid, ContentsOf, Defragmented, Tidied, TidiedAll, InStep;
    ghost var scn: nat := td.header.scn;
    r, ys, heaps, lists := Ok, [], [], [td.free];
    NoneTidied(td.free, scn);
    for i := 0 to 8
      invariant Valid(td) && td.header.flags == old(td.header).flags && r == Ok
      invariant InStep(td.header.scn, scn + i)
      invariant |ys| == i && |lists| == i + 1 && lists[0] == old(td.free) && lists[i] == td.free
      invariant TidiedAll(lists, ys, heaps, scn)
    {
      ghost var y;
      r, y := CountedDelete(td, keys[i], scn + i);
      if r != Ok {
        return;
      }
      TidiedOnce(lists, ys, heaps, scn, y, td.heap, td.free);
      ys, heaps, lists := ys + [y], heaps + [td.heap], lists + [td.free];
    }
  }

  /**
   * Of any eight deletes in a row that succeed exactly one, the at-th, defragments the free list; after each of
   * the others the list is just what was freed in front of what was free.
   */
  method EightDeletes(td: Td, keys: seq<seq<Byte>>)
    returns (r: Status, ghost ys: seq<Tidying>, ghost heaps: seq<Heap>, ghost lists: seq<seq<nat>>, ghost at: nat)
    requires Valid(td) && !td.header.flags.deleteAll && |keys| == 8
    modifies td
    ensures r == Ok ==>
      && at < 8 && (old(td.header).scn + at + 1) % 8 == 0
      && |ys| == |heaps| == 8 && |lists| == 9 && lists[0] == old(td.free) && lists[8] == td.free
      && (forall i | 0 <= i < 8 :: |lists[i]| < |ys[i].freed| && ys[i].freed[|ys[i].freed| - |lists[i]|..] == lists[i])
      && (forall i | 0 <= i < 8 && i != at :: lists[i + 1] == ys[i].freed)
      && Defragmented(ys[at].freed, ys[at].sorted, ys[at].merges, heaps[at], lists[at + 1])
  {
    hide Valid, ContentsOf, Defragmented, Tidied, TidiedAll;
    r, ys, heaps, lists := EightInARow(td, keys);
    at := 0;
    hide *;
    if r == Ok {
      at := TidiedEight(lists, ys, heaps, old(td.header).scn);
    }
  }

  lemma NoneTidied(list: seq<nat>, scn: nat)
    ensures TidiedAll([list], [], [], scn) && InStep(scn, scn)
  {
  }

  // ------------------------------------------------------------ defragmenting until there is nothing left to do

  /**
   * A list of up to 512 free chunks is in order after as many defragmentations, whatever was merged on the way,
   * and after one more no free chunk touches another.
   */
  method DefragAll(td: Td)
    requires td.Sound() && |td.free| <= 512
    modifies td`mem, td`header, td`heap, td`free
    ensures td.Sound() && Used(td.heap) == Used(old(td.heap))
    ensures Sorting.Ascending(td.free)
    ensures forall o, p | FreeAt(td.heap, o) && FreeAt(td.heap, p) :: !Touch(td.heap, o, p)
  {
    hide IsSound, Used, Sorting.Ascending, NoTouch, Defragmented, SizesOf, Largest, Sorting.AscendsFrom, FreeAt, Touch;
    CountIs(td.mem, td.heap, td.free, td.header);
    var n := td.header.nempties;
    AscendsPast(td.free, n);
    ghost var sorted, merges;
    for i := 0 to n
      invariant td.Sound() && Used(td.heap) == Used(old(td.heap)) && |td.free| <= n
      invariant Sorting.AscendsFrom(td.free, n - i)
    {
      CountIs(td.mem, td.heap, td.free, td.header);
      sorted, merges := DefragStore(td);
      CountIs(td.mem, td.heap, td.free, td.header);
      FewAscend(td.free);
    }
    Sorting.AscendsThroughout(td.free);
    CountIs(td.mem, td.heap, td.free, td.header);
    sorted, merges := DefragStore(td);
    CountIs(td.mem, td.heap, td.free, td.header);
    FewInOrder(td.heap, td.free);
    forall o, p | FreeAt(td.heap, o) && FreeAt(td.heap, p) ensures !Touch(td.heap, o, p) {
      NoneTouch(td.mem, td.heap, td.free, td.header, o, p);
    }
  }

  lemma AscendsPast(s: seq<nat>, b: nat)
    requires b >= |s|
    ensures Sorting.AscendsFrom(s, b)
  {
  }

  /** Lists of fewer than two are in order from anywhere. */
  lemma FewAscend(s: seq<nat>)
    ensures |s| < 2 ==> forall c: nat :: Sorting.AscendsFrom(s, c)
  {
  }

  lemma FewInOrder(heap: Heap, free: seq<nat>)
    ensures |free| < 2 ==> Sorting.Ascending(free) && NoTouch(heap, free, |free|)
  {
  }

  // ------------------------------------------------------------ seven ascending puts

  /** The keys come in ascending order. */
  ghost predicate Ascend(keys: seq<seq<Byte>>) {
    forall i, j | 0 <= i < j < |keys| :: Compare(keys[j], keys[i], false) > 0
  }

  /** Entries of these keys, each its own value. */
  ghost function EntriesOf(keys: seq<seq<Byte>>): (es: Contents.Entries)
    ensures |es| == |keys| && forall i | 0 <= i < |es| :: es[i] == Entry(keys[i], keys[i])
  {
    seq(|keys|, i requires 0 <= i < |keys| => Entry(keys[i], keys[i]))
  }

  lemma NextKey(keys: seq<seq<Byte>>, i: nat)
    requires Ascend(keys) && i < |keys|
    ensures EntriesOf(keys[..i]) + [Entry(keys[i], keys[i])] == EntriesOf(keys[..i + 1])
    ensures forall j | 0 <= j < i :: Compare(keys[i], EntriesOf(keys[..i])[j].key, false) > 0
  {
    hide Compare;
  }

  /** A key behind all others goes to the end of the chain. */
  lemma PutBehind(es: Contents.Entries, w: seq<nat>, key: seq<Byte>, es': Contents.Entries, duplKeys: bool,
                  noOverwrite: bool, node: nat, depth: nat)
    requires |es| == |w| && forall j | 0 <= j < |es| :: Compare(key, es[j].key, false) > 0
    requires depth == if |w| == 0 then 0 else |w| - 1
    requires Puts.PutOutcome(RightChain(w), es, es', key, key, duplKeys, noOverwrite)
    ensures Weight(RightChain(w)) == |w|
    ensures !Found(es, key, false) && es' == es + [Entry(key, key)]
    ensures Puts.PutTree(RightChain(w), es, key, duplKeys, node) == RightChain(w + [node])
    ensures DepthAfter(depth, RightChain(w), es, key, false) == |w|
  {
    RankIs(es, key, false, |es|);
    RightChainGrows(w, node);
    hide RightChain, Rank;
    if w == [] {
      assert RightChain(w).Leaf? by { NoChain(); }
    }
  }

  lemma NoChain()
    ensures RightChain([]) == Leaf
  {
  }

  /** Up to six nodes the chain is left alone, for no search was deep enough. */
  lemma ChainStays(w: seq<nat>, t': Tree, depth': nat)
    requires 0 < |w| < 7 && Settled(RightChain(w), |w| - 1, t', depth')
    ensures t' == RightChain(w) && depth' == |w| - 1
  {
    var k := if |w| < 4 then 2 else 3;
    hide RightChain;
    assert Pow2(0) == 1 && Pow2(1) == 2 && Pow2(2) == 4 && Pow2(3) == 8;
    SettledMeans(RightChain(w), |w| - 1, t', depth', k);
  }

  /** With the seventh a search was six deep, and the sixth node comes to the root. */
  lemma ChainBreaks(w: seq<nat>, t': Tree, depth': nat)
    requires |w| == 7 && Settled(RightChain(w), 6, t', depth')
    ensures t' == Node(RightChain(w[..5]), w[5], RightChain(w[6..])) && Height(t') == 6 && depth' == 3
    ensures Weight(t') == 7 && Beside(t', 5) == 4
  {
    assert Pow2(2) == 4 && Pow2(3) == 8;
    SettledChain(w, 6, t', depth', 3);
    RightChainGrows(w[..5], 0);
    hide Rebalanced;
    SettledMeans(RightChain(w), 6, t', depth', 3);
  }

  /** Puts a key behind all others of a store whose tree is a chain. */
  method PutNext(td: Td, keys: seq<seq<Byte>>, i: nat, ghost w: seq<nat>) returns (r: Status, ghost node: nat)
    requires Valid(td) && Ascend(keys) && i < |keys| && i < TD_MAXDEPTH
    requires KEYHEAD_SIZE + |keys[i]| < WORD_LIMIT
    requires ContentsOf(td) == EntriesOf(keys[..i]) && td.tree == RightChain(w) && |w| == i
    requires td.maxdepth == if i == 0 then 0 else i - 1
    modifies td
    ensures r == Ok || r == Space
    ensures r == Ok ==> Valid(td) && td.header.flags == old(td.header).flags
    ensures r == Ok ==> ContentsOf(td) == EntriesOf(keys[..i + 1])
    ensures r == Ok ==> Settled(RightChain(w + [node]), i, td.tree, td.maxdepth)
  {
    hide Valid, ContentsOf, Room, Vectors.Concat, Vectors.Copyable, ShortGrant, Settled, Puts.PutTree,
      Puts.PutOutcome, Height, Rank, Found, Weight, DepthAfter, Added, RightChain, EntriesOf, Compare;
    ghost var es, depth := ContentsOf(td), td.maxdepth;
    NextKey(keys, i);
    ContentsHigh(td);
    Runs.OneSegment(keys[i]);
    ghost var leaked;
    r, leaked, node := Puts.Put(td, keys[i], [keys[i]], NO_FLAGS);
    BehindAll(es, keys[i]);
    if r == Ok {
      PutBehind(es, w, keys[i], ContentsOf(td), td.header.flags.duplKeys, td.header.flags.noOverwrite, node, depth);
    }
  }

  lemma BehindAll(es: Contents.Entries, key: seq<Byte>)
    requires forall j | 0 <= j < |es| :: Compare(key, es[j].key, false) > 0
    ensures !Found(es, key, false)
  {
    RankIs(es, key, false, |es|);
  }

  /** Where a search for a key between the fifth and the sixth of seven comes out. */
  lemma FifthIsNear(keys: seq<seq<Byte>>, key: seq<Byte>, t: Tree, n: nat)
    requires Ascend(keys) && |keys| == 7 && Compare(key, keys[4], false) > 0 && Compare(key, keys[5], false) < 0
    requires Weight(t) == 7 && Beside(t, 5) == 4 && Answers(t, EntriesOf(keys), key, false, false, n)
    ensures n == 4
  {
    var es := EntriesOf(keys);
    forall j | 0 <= j < 4 ensures Compare(key, es[j].key, false) > 0 {
      KeysTransitive(key, keys[4], keys[j]);
    }
    RankIs(es, key, false, 5);
  }

  /** What is greater than a key is greater than what that key is greater than. */
  lemma KeysTransitive(a: seq<Byte>, b: seq<Byte>, c: seq<Byte>)
    requires Compare(a, b, false) > 0 && Compare(b, c, false) > 0
    ensures Compare(a, c, false) > 0
  {
    CompareTwins(a, b);
    CompareTwins(b, c);
    CompareTwins(a, c);
    CompareTransitive(c, b, a);
    CompareZero(a, c);
    if a == c {
      CompareTwins(a, b);
    }
  }

  /**
   * Seven keys put in ascending order into a new store hang in a chain until the seventh search is deep enough
   * for a pass. That brings the sixth to the root, and a near miss between the fifth and the sixth now comes
   * out at the fifth.
   */
  method SevenPuts(td: Td, keys: seq<seq<Byte>>, key: seq<Byte>)
    returns (r: Status, value: seq<Byte>, ghost w: seq<nat>)
    requires Valid(td) && ContentsOf(td) == [] && td.maxdepth == 0
    requires !td.header.flags.partial && !td.header.flags.exact
    requires |keys| == 7 && Ascend(keys) && forall i | 0 <= i < 7 :: KEYHEAD_SIZE + |keys[i]| < WORD_LIMIT
    requires Compare(key, keys[4], false) > 0 && Compare(key, keys[5], false) < 0
    modifies td
    ensures r == Ok || r == Space
    ensures r == Ok ==> ContentsOf(td) == EntriesOf(keys) && value == keys[4]
    ensures r == Ok ==>
      |w| == 7 && td.tree == Node(RightChain(w[..5]), w[5], RightChain(w[6..])) && Height(td.tree) == 6
  {
    hide Valid, ContentsOf, Settled, RightChain, EntriesOf, Compare, Ascend, Answers, Height, Weight, Beside, Clean,
      DepthAfter;
    EmptyTree(td);
    NoChain();
    NoEntriesYet(keys);
    value, w := [], [];
    for i := 0 to 6
      invariant Valid(td) && td.header.flags == old(td.header).flags
      invariant ContentsOf(td) == EntriesOf(keys[..i]) && td.tree == RightChain(w) && |w| == i
      invariant td.maxdepth == if i == 0 then 0 else i - 1
    {
      ghost var node;
      r, node := PutNext(td, keys, i, w);
      if r != Ok {
        return;
      }
      w := w + [node];
      ChainStays(w, td.tree, td.maxdepth);
    }
    ghost var node;
    r, node := PutNext(td, keys, 6, w);
    if r != Ok {
      return;
    }
    w := w + [node];
    ChainBreaks(w, td.tree, td.maxdepth);
    assert keys[..7] == keys;
    var found;
    ghost var n;
    r, found, value, n := Get(td, key, Into(Grow), NO_FLAGS);
    FifthIsNear(keys, key, td.tree, n);
  }

  lemma NoEntriesYet(keys: seq<seq<Byte>>)
    ensures EntriesOf(keys[..0]) == []
  {
  }
}
