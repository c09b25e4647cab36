/** Putting entries: td_put_new, td_put_key, td_put_replace, td_put_locked_key. */
module Puts {
  import opened Bytes
  import opened Blocks
  import opened FreeLists
  import opened Store
  import opened Fitness
  import opened Allocator
  import opened Values
  import opened Trees
  import opened Shapes
  import opened Rebalance
  import opened Paths
  import opened Walks
  import opened Surgery
  import opened Chains
  import opened Keys
  import opened Search
  import opened Records
  import opened Contents
  import opened Database
  import opened Tilings
  import Checksums
  import Vectors

  // ------------------------------------------------------------ the tree with a node more

  /** A node with a new one hung below it: on the left, or between it and its right subtree. */
  ghost function Grown(sub: Tree, side: int, o: nat): Tree
    requires sub.Node?
  {
    if side < 0 then Node(Node(Leaf, o, Leaf), sub.ptr, sub.right)
    else Node(sub.left, sub.ptr, Node(Leaf, o, sub.right))
  }

  lemma GrownLeft(w: seq<nat>, b: nat, sub: Tree, o: nat)
    requires sub.Node? && b + |Inorder(sub)| <= |w| && w[b..b + |Inorder(sub)|] == Inorder(sub)
    requires sub.left == Leaf
    ensures Exchanged(w, b, b + |Inorder(sub)|, Inorder(Grown(sub, -1, o))) == Inserted(w, b, o)
  {
    hide Inorder, Inserted, Grown, Exchanged;
    GrownBefore(sub, o);
    InsertBefore(w, b, Inorder(sub), o);
  }

  lemma GrownRight(w: seq<nat>, b: nat, sub: Tree, o: nat)
    requires sub.Node? && b + |Inorder(sub)| <= |w| && w[b..b + |Inorder(sub)|] == Inorder(sub)
    ensures b + |Inorder(sub.left)| + 1 <= |w|
    ensures Exchanged(w, b, b + |Inorder(sub)|, Inorder(Grown(sub, 1, o))) ==
      Inserted(w, b + |Inorder(sub.left)| + 1, o)
  {
    hide Inorder, Inserted, Grown, Exchanged;
    GrownAfter(sub, o);
    InsertAmid(w, b, b + |Inorder(sub)|, Inorder(sub.left) + [sub.ptr], Inorder(sub.right), o);
  }

  lemma GrownBefore(sub: Tree, o: nat)
    requires sub.Node? && sub.left == Leaf
    ensures Inorder(Grown(sub, -1, o)) == [o] + Inorder(sub)
  {
    assert Inorder(Node(Leaf, o, Leaf)) == [o];
    assert Inorder(sub) == [sub.ptr] + Inorder(sub.right);
  }

  lemma SingleRoot(r: Tree, o: nat)
    ensures Inorder(Node(Leaf, o, r)) == [o] + Inorder(r)
  {
  }

  lemma GrownAfter(sub: Tree, o: nat)
    requires sub.Node?
    ensures Inorder(sub) == (Inorder(sub.left) + [sub.ptr]) + Inorder(sub.right)
    ensures Inorder(Grown(sub, 1, o)) == (Inorder(sub.left) + [sub.ptr]) + ([o] + Inorder(sub.right))
  {
    hide Inorder;
    SingleRoot(sub.right, o);
    InorderNode(sub.left, sub.ptr, sub.right);
    InorderNode(sub.left, sub.ptr, Node(Leaf, o, sub.right));
  }

  lemma InsertBefore(w: seq<nat>, b: nat, x: seq<nat>, o: nat)
    requires b + |x| <= |w| && w[b..b + |x|] == x
    ensures Exchanged(w, b, b + |x|, [o] + x) == Inserted(w, b, o)
  {
    assert w[b..] == x + w[b + |x|..];
  }

  lemma InsertAmid(w: seq<nat>, b: nat, e: nat, l: seq<nat>, r: seq<nat>, o: nat)
    requires b <= e <= |w| && w[b..e] == l + r
    ensures b + |l| <= |w| && Exchanged(w, b, e, l + ([o] + r)) == Inserted(w, b + |l|, o)
  {
    var k := b + |l|;
    assert w[b..k] == w[b..e][..|l|] == l && w[k..e] == w[b..e][|l|..] == r;
    assert w[..k] == w[..b] + l && w[k..] == r + w[e..];
  }

  /** The store after a new node has been written and linked from the end of a path. */
  lemma GrownShape(m: Heap, root: nat, t: Tree, s: Stack, side: int, o: nat, b: Block, m': Heap)
    requires Shape(m, root, t) && Distinct(Inorder(t)) && OnPath(m, t, s)
    requires o !in m && 0 < o < WORD_LIMIT && b.Key? && b.khead.previous == 0
    requires side < 0 ==> Sub(t, s).left == Leaf && b.khead.next == 0
    requires side >= 0 ==> b.khead.next == Top(s).head.next
    requires Top(s).ptr in m && m[Top(s).ptr].Key?
    requires m' == m[o := b][Top(s).ptr := Key(Turned(Top(s).head, side, o), m[Top(s).ptr].key)]
    ensures Sub(t, s).Node?
    ensures var t' := Replaced(t, s, Grown(Sub(t, s), side, o));
            var n := Pos(t, s) + if side < 0 then 0 else 1;
            Shape(m', root, t') && n <= |Inorder(t)| && Inorder(t') == Inserted(Inorder(t), n, o)
    ensures Relinked(m[o := b], m')
  {
    hide Inorder, Weight, Distinct, Shape, Base, Replaced, Inserted;
    var sub := Sub(t, s);
    SubShape(m, t, root, s);
    SubNodes(m, t, s);
    ShapeNodes(m, root, t);
    GrownHere(m, Top(s).ptr, sub, Top(s).head, side, o, b, m');
    ReplacedSame(m, m', t, root, s, Grown(sub, side, o));
    GrownPlace(m, t, s, side, o);
    RelinkOne(m[o := b], Top(s).ptr, Turned(Top(s).head, side, o));
  }

  lemma GrownHere(m: Heap, ptr: nat, sub: Tree, head: KeyHead, side: int, o: nat, b: Block, m': Heap)
    requires Shape(m, ptr, sub) && sub.Node? && Distinct(Inorder(sub)) && HeadAt(m, ptr, head)
    requires o !in m && 0 < o < WORD_LIMIT && b.Key? && b.khead.previous == 0
    requires side < 0 ==> sub.left == Leaf && b.khead.next == 0
    requires side >= 0 ==> b.khead.next == head.next
    requires m' == m[o := b][ptr := Key(Turned(head, side, o), m[ptr].key)]
    ensures Shape(m', ptr, Grown(sub, side, o)) && ptr in Inorder(sub)
  {
    DistinctParts(sub);
    ShapeNodes(m, ptr, sub);
    ShapeNodes(m, head.previous, sub.left);
    ShapeNodes(m, head.next, sub.right);
    ShapeFrame(m, m', head.previous, sub.left);
    ShapeFrame(m, m', head.next, sub.right);
  }

  lemma SameGrown(sub: Tree, side: int, o: nat)
    requires sub.Node?
    ensures Grown(sub, side, o) == Grown(sub, if side < 0 then -1 else 1, o)
  {
  }

  lemma GrownPlace(m: Heap, t: Tree, s: Stack, side: int, o: nat)
    requires OnPath(m, t, s) && (side < 0 ==> Sub(t, s).left == Leaf)
    ensures var n := Pos(t, s) + if side < 0 then 0 else 1;
            n <= |Inorder(t)| && Inorder(Replaced(t, s, Grown(Sub(t, s), side, o))) == Inserted(Inorder(t), n, o)
  {
    hide Inorder, Inserted, Replaced, Exchanged;
    ReplacedInorder(m, t, s, Grown(Sub(t, s), side, o));
    SubRange(t, s);
    if side < 0 {
      GrownLeft(Inorder(t), Base(t, s), Sub(t, s), o);
    } else {
      GrownRight(Inorder(t), Base(t, s), Sub(t, s), o);
    }
    SameGrown(Sub(t, s), side, o);
    LeafWeighs();
  }

  /** Seen as a whole, the tree has had a node planted in the gap before the node found, or wedged in behind it. */
  lemma {:induction false} GrownWhole(m: Heap, t: Tree, s: Stack, side: int, o: nat)
    requires OnPath(m, t, s) && (side < 0 ==> Sub(t, s).left == Leaf)
    ensures Sub(t, s).Node? && Pos(t, s) < Weight(t)
    ensures var t' := Replaced(t, s, Grown(Sub(t, s), side, o));
            && (side < 0 ==> t' == Planted(t, Pos(t, s), o))
            && (side >= 0 ==> t' == Wedged(t, Pos(t, s), o))
            && (side >= 0 && Sub(t, s).right == Leaf ==> t' == Planted(t, Pos(t, s) + 1, o))
    decreases t
  {
    hide Inorder, Weight;
    EndsAtNode(m, t, s);
    WeightNode(t);
    LeafWeighs();
    if |s| > 1 {
      FromRoot(m, t, s);
      ReplacedFromRoot(m, t, s, Grown(Sub(t, s), side, o));
      GrownWhole(m, Child(t, s[0].cmp), s[1..], side, o);
    } else {
      PlantedAlone(o);
    }
  }

  lemma PlantedAlone(o: nat)
    ensures Planted(Leaf, 0, o) == Node(Leaf, o, Leaf)
  {
  }

  /** The tree before the pass that a put may end with. */
  ghost function PutTree(t: Tree, es: Contents.Entries, key: seq<Byte>, duplKeys: bool, node: nat): (t': Tree)
    requires |es| == Weight(t)
  {
    var n := Rank(es, key, false);
    if !Found(es, key, false) then Planted(t, n, node)
    else if !duplKeys then t
    else if Beside(t, n) == n then Planted(t, n, node)
    else Wedged(t, n, node)
  }

  // ------------------------------------------------------------ writing the node

  lemma KeyFilled(mem: seq<Byte>, heap: Heap, free: seq<nat>, hd: Header, o: nat, head: KeyHead, key: seq<Byte>)
    requires IsSound(mem, heap, free, hd)
    requires o in heap && heap[o] == Raw(KEYHEAD_SIZE + |key|) && head.size == KEYHEAD_SIZE + |key|
    ensures o + KEYHEAD_SIZE + |key| <= |mem|
    ensures IsSound(Poke(Poke(mem, o, KeyHeadBytes(head)), o + KEYHEAD_SIZE, key), heap[o := Key(head, key)], free, hd)
  {
    hide IsSound;
    BlockOf(mem, heap, free, hd, o);
    HoldsRecord(mem, o, KeyHeadBytes(head), key);
    SoundRetag(mem, Poke(Poke(mem, o, KeyHeadBytes(head)), o + KEYHEAD_SIZE, key), heap, free, hd, o, Key(head, key));
  }

  /** The header after a node has been added. */
  ghost predicate OneMore(h: Header, h': Header) {
    && SameButAlloc(h, h'.(nentries := h.nentries, scn := h.scn))
    && h'.nentries == h.nentries + 1
    && h'.scn == (h.scn + 1) % WORD_LIMIT
  }

  /** The block a new key is stored in. */
  ghost function NewKey(key: seq<Byte>, value: Word, scn: Word, previous: Word, next: Word, flags: Flags): Block
    requires KEYHEAD_SIZE + |key| < WORD_LIMIT
  {
    var checksum := if flags.checksum then Checksums.Fnv(key) else 0;
    Key(KeyHead(value, KEYHEAD_SIZE + |key|, scn, checksum, next, previous), key)
  }

  lemma NewKeyIs(key: seq<Byte>, value: Word, scn: Word, previous: Word, next: Word, flags: Flags)
    requires KEYHEAD_SIZE + |key| < WORD_LIMIT
    ensures var b := NewKey(key, value, scn, previous, next, flags);
            && b.Key? && b.key == key && b.khead.value == value && b.khead.previous == previous && b.khead.next == next
            && (flags.checksum ==> SummedAt(b))
  {
  }

  /**
   * What storing a key of n bytes costs: no more than a block for it from where there is enough. If there is
   * not, a store that can be extended has been, by too little.
   */
  ghost predicate KeyRoom(room: nat, calls: nat, td: Td, n: nat, r: Status)
    reads td
  {
    && td.calls >= calls
    && (room >= KEYHEAD_SIZE + n + CHUNKHEAD_SIZE ==> r != Space && Room(td) >= room - KEYHEAD_SIZE - n)
    && (r == Space && td.extendable ==> td.calls > calls && ShortGrant(td, KEYHEAD_SIZE + n + CHUNKHEAD_SIZE))
  }

  /** Claims and writes a key block. */
  method PutNew(td: Td, key: seq<Byte>, valueptr: Word, previous: Word, next: Word, flags: Flags)
    returns (r: Status, keyptr: Word, ghost b: Block)
    requires td.Sound() && KEYHEAD_SIZE + |key| < WORD_LIMIT
    modifies td`mem, td`header, td`heap, td`free, td`calls
    ensures r == Ok || r == Space
    ensures KeyRoom(old(Room(td)), old(td.calls), td, |key|, r)
    ensures td.Sound()
    ensures r == Space ==> Used(td.heap) == Used(old(td.heap)) && SameButAlloc(old(td.header), td.header)
    ensures r == Ok ==> OneMore(old(td.header), td.header)
    ensures r == Ok ==> keyptr != 0 && keyptr !in Used(old(td.heap))
    ensures r == Ok ==> Used(td.heap) == Used(old(td.heap))[keyptr := b]
    ensures r == Ok ==> b == NewKey(key, valueptr, old(td.header).scn, previous, next, flags)
  {
    hide IsSound, Granted, Used, SizesOf, Largest, ShortGrant, NoneFits, Picks, Relisted, ListGrew, Poke,
      KeyHeadBytes, Holds;
    var head := KeyHead(valueptr, KEYHEAD_SIZE + |key|, td.header.scn, 0, next, previous);
    b := Raw(0);
    if flags.checksum {
      var sum := Checksums.Create(key);
      head := head.(checksum := sum);
    }
    var size;
    ghost var at, seen, have1, free1;
    r, keyptr, size, at, seen, have1, free1 := Claim(td, true, head.size);
    if r != Ok {
      return;
    }
    GrantFilled(old(td.heap), td.heap, keyptr, size, Raw(size));
    b := Key(head, key);
    GrantFilled(old(td.heap), td.heap, keyptr, size, b);
    BlockOf(td.mem, td.heap, td.free, td.header, keyptr);
    KeyFilled(td.mem, td.heap, td.free, td.header, keyptr, head, key);
    td.Write(keyptr, KeyHeadBytes(head));
    td.Write(keyptr + KEYHEAD_SIZE, key);
    SizesRetagged(td.heap, td.free, keyptr, b);
    td.heap := td.heap[keyptr := b];
    ghost var hd := td.header;
    td.header := td.header.(nentries := td.header.nentries + 1, scn := (td.header.scn + 1) % WORD_LIMIT);
    SoundCounters(td.mem, td.heap, td.free, hd, td.header);
  }

  // ------------------------------------------------------------ where the key goes

  ghost function PlaceOf(t: Tree, s: Stack, side: int): nat
    requires |s| > 0
  {
    Pos(t, s) + if side < 0 then 0 else 1
  }

  /** After an attempt that failed, the blocks in use and the tree are what they were. */
  ghost predicate Unharmed(m: Heap, h: Header, t: Tree, m': Heap, h': Header, t': Tree) {
    m' == m && t' == t && SameButAlloc(h, h')
  }

  /** The path ends where the key belongs, and there is room for it on the side given. */
  ghost predicate Attachable(m: Heap, chains: map<nat, seq<nat>>, t: Tree, hd: Header, s: Stack, key: seq<Byte>,
                             v: nat, side: int, next: Word)
    requires |s| > 0
  {
    && Halfway(m, chains, t, hd, v)
    && OnPath(m, t, s)
    && (if side < 0 then Sub(t, s).left == Leaf && next == 0 else next == Top(s).head.next)
    && Belongs(m, Inorder(t), key, PlaceOf(t, s, side))
  }

  /** One entry has come in at place n. */
  ghost predicate Gained(es: Contents.Entries, es': Contents.Entries, n: nat, e: Entry) {
    n <= |es| && es' == Inserted(es, n, e)
  }

  /** Writes a new node and links it from the end of the path, on the side given. */
  method AttachNode(td: Td, path: Path, key: seq<Byte>, valueptr: Word, side: int, next: Word, flags: Flags)
    returns (r: Status, ghost node: nat)
    requires td.Sound() && KEYHEAD_SIZE + |key| < WORD_LIMIT
    requires |path.stack| > 0 &&
      Attachable(Used(td.heap), td.chains, td.tree, td.header, path.stack, key, valueptr, side, next)
    requires td.header.flags.checksum ==> flags.checksum
    modifies td`mem, td`header, td`heap, td`free, td`calls, td`tree
    ensures r == Ok || r == Space
    ensures KeyRoom(old(Room(td)), old(td.calls), td, |key|, r)
    ensures td.Sound() && td.header.flags == old(td.header).flags
    ensures r == Space ==> Unharmed(Used(old(td.heap)), old(td.header), old(td.tree), Used(td.heap), td.header, td.tree)
    ensures r == Ok ==> Consistent(Used(td.heap), td.chains, td.tree, td.header)
    ensures r == Ok ==> td.header.scn == (old(td.header).scn + 1) % WORD_LIMIT
    ensures r == Ok && flags.checksum ==> SumsKept(Used(old(td.heap)), Used(td.heap))
    ensures r == Ok ==> Pos(old(td.tree), path.stack) < Weight(old(td.tree))
    ensures r == Ok && side < 0 ==> td.tree == Planted(old(td.tree), Pos(old(td.tree), path.stack), node)
    ensures r == Ok && side >= 0 ==> td.tree == Wedged(old(td.tree), Pos(old(td.tree), path.stack), node)
    ensures r == Ok && side >= 0 && Sub(old(td.tree), path.stack).Node? &&
            Sub(old(td.tree), path.stack).right == Leaf ==>
              td.tree == Planted(old(td.tree), Pos(old(td.tree), path.stack) + 1, node)
    ensures r == Ok ==>
      Gained(old(ContentsOf(td)), ContentsOf(td), PlaceOf(old(td.tree), path.stack, side),
             Entry(key, DataOf(Used(old(td.heap)), ChainOf(td.chains, valueptr))))
  {
    hide IsSound, Used, Halfway, Consistent, OnPath, Sub, Pos, Belongs, Inserted, Records.Entries, DataOf, SummedAt,
      NewKey, SizesOf, Largest, ShortGrant, Planted, Wedged, Grown, Replaced, Weight, SumsKept, Relinked;
    ghost var m, n := Used(td.heap), PlaceOf(td.tree, path.stack, side);
    HalfwayTree(m, td.chains, td.tree, td.header, valueptr);
    PathTop(m, td.tree, path.stack);
    var ptr;
    ghost var b;
    NewKeyIs(key, valueptr, td.header.scn, 0, next, flags);
    r, ptr, b := PutNew(td, key, valueptr, 0, next, flags);
    node := ptr;
    if r != Ok {
      return;
    }
    ghost var mem1, heap1 := td.mem, td.heap;
    var top := Top(path.stack);
    var head := if side < 0 then top.head.(previous := ptr) else top.head.(next := ptr);
    ghost var root := td.header.top;
    td.WriteKeyhead(top.ptr, head);
    SizesKept(mem1, heap1, td.free, td.header, td.mem, td.heap, td.header);
    GrownWhole(m, td.tree, path.stack, side, ptr);
    GrownShape(m, root, td.tree, path.stack, side, ptr, b, Used(td.heap));
    if flags.checksum {
      SumsWith(m, ptr, b);
      SumsRelinked(m[ptr := b], Used(td.heap));
      SumsTwice(m, m[ptr := b], Used(td.heap));
    }
    ghost var t := td.tree;
    td.tree := Replaced(t, path.stack, Grown(Sub(t, path.stack), side, ptr));
    ConsistentInserted(m, td.chains, t, old(td.header), valueptr, ptr, b, Used(td.heap), td.tree, td.header, n);
  }

  lemma HalfwayTree(m: Heap, chains: map<nat, seq<nat>>, t: Tree, hd: Header, v: nat)
    requires Halfway(m, chains, t, hd, v)
    ensures Shape(m, hd.top, t) && Distinct(Inorder(t)) && Sorted(m, Inorder(t)) && v in chains
    ensures hd.flags.checksum ==> Summed(m)
  {
  }

  lemma PathTop(m: Heap, t: Tree, s: Stack)
    requires OnPath(m, t, s)
    ensures |s| > 0 && Sub(t, s).Node? && HeadAt(m, Top(s).ptr, Top(s).head)
  {
  }

  /** The first node of an empty tree. */
  method PutFirst(td: Td, key: seq<Byte>, valueptr: Word, flags: Flags) returns (r: Status, ghost node: nat)
    requires td.Sound() && KEYHEAD_SIZE + |key| < WORD_LIMIT
    requires Halfway(Used(td.heap), td.chains, td.tree, td.header, valueptr) && td.header.top == 0
    requires td.header.flags.checksum ==> flags.checksum
    modifies td`mem, td`header, td`heap, td`free, td`calls, td`tree
    ensures r == Ok || r == Space
    ensures KeyRoom(old(Room(td)), old(td.calls), td, |key|, r)
    ensures old(ContentsOf(td)) == [] && old(td.tree) == Leaf
    ensures td.Sound() && td.header.flags == old(td.header).flags
    ensures r == Space ==> Unharmed(Used(old(td.heap)), old(td.header), old(td.tree), Used(td.heap), td.header, td.tree)
    ensures r == Ok ==> Consistent(Used(td.heap), td.chains, td.tree, td.header)
    ensures r == Ok ==> td.header.scn == (old(td.header).scn + 1) % WORD_LIMIT && td.tree == Node(Leaf, node, Leaf)
    ensures r == Ok && flags.checksum ==> SumsKept(Used(old(td.heap)), Used(td.heap))
    ensures r == Ok ==> ContentsOf(td) == [Entry(key, DataOf(Used(old(td.heap)), ChainOf(td.chains, valueptr)))]
  {
    hide IsSound, Used, Halfway, Consistent, Records.Entries, DataOf, SummedAt, NewKey, SizesOf, Largest, ShortGrant,
      SumsKept;
    ghost var m := Used(td.heap);
    HalfwayTree(m, td.chains, td.tree, td.header, valueptr);
    NoEntries(m, td.chains);
    var ptr;
    ghost var b;
    NewKeyIs(key, valueptr, td.header.scn, 0, 0, flags);
    r, ptr, b := PutNew(td, key, valueptr, 0, 0, flags);
    node := ptr;
    if r != Ok {
      return;
    }
    ghost var hd := td.header;
    td.header := td.header.(top := ptr);
    MoveTop(td.mem, td.heap, td.free, hd, ptr);
    td.tree := Node(Leaf, ptr, Leaf);
    FirstShape(m, ptr, b, key);
    if flags.checksum {
      SumsWith(m, ptr, b);
    }
    ConsistentInserted(m, td.chains, Leaf, old(td.header), valueptr, ptr, b, Used(td.heap), td.tree, td.header, 0);
    NoEntriesBut(Entry(key, DataOf(m, td.chains[valueptr])));
  }

  lemma NoEntries(m: Heap, chains: map<nat, seq<nat>>)
    ensures Records.Entries(m, chains, Inorder(Leaf)) == []
  {
  }

  lemma NoEntriesBut(e: Entry)
    ensures Inserted([], 0, e) == [e]
  {
  }

  lemma FirstShape(m: Heap, o: nat, b: Block, key: seq<Byte>)
    requires o != 0 && b.Key? && b.khead.previous == 0 && b.khead.next == 0
    ensures Shape(m[o := b], o, Node(Leaf, o, Leaf))
    ensures Inorder(Node(Leaf, o, Leaf)) == Inserted(Inorder(Leaf), 0, o)
    ensures Relinked(m[o := b], m[o := b]) && Belongs(m, Inorder(Leaf), key, 0)
  {
  }

  // ------------------------------------------------------------ the cases of a put

  /**
   * What a put does to the entries of a store with a tree: one comes in, or one value is exchanged. A duplicate
   * comes in before the first equal entry if that has no left child, and behind it if it has one.
   */
  ghost predicate PutOutcome(t: Tree, es: Contents.Entries, es': Contents.Entries, key: seq<Byte>, value: seq<Byte>,
                             duplKeys: bool, noOverwrite: bool) {
    var n, e := Rank(es, key, false), Entry(key, value);
    if !Found(es, key, false) then es' == Inserted(es, n, e)
    else if duplKeys then |es| == Weight(t) && es' == Inserted(es, if Beside(t, n) == n then n else n + 1, e)
    else !noOverwrite && es' == es[n := e]
  }

  /** A duplicate comes in at the rank of its key if the first equal entry is where a search for that gap ends. */
  lemma DuplicateComesIn(t: Tree, es: Contents.Entries, es': Contents.Entries, key: seq<Byte>, value: seq<Byte>,
                         noOverwrite: bool)
    requires Found(es, key, false) && PutOutcome(t, es, es', key, value, true, noOverwrite)
    ensures var n := Rank(es, key, false);
            && |es'| == |es| + 1 && n < |es| == Weight(t)
            && (Beside(t, n) == n ==> es' == es[..n] + [Entry(key, value)] + es[n..])
            && (Beside(t, n) == n - 1 ==> es' == es[..n + 1] + [Entry(key, value)] + es[n + 1..])
  {
  }

  /** What it means for a put that the search landed where it did. */
  lemma LandedCases(m: Heap, chains: map<nat, seq<nat>>, t: Tree, root: nat, s: Stack, key: seq<Byte>)
    requires Shape(m, root, t) && Sorted(m, Inorder(t)) && Landed(m, t, s, key, false)
    ensures |s| > 0 && OnPath(m, t, s) && -1 <= Top(s).cmp <= 1
    ensures Pos(t, s) < |Inorder(t)| && Inorder(t)[Pos(t, s)] == Top(s).ptr
    ensures Top(s).cmp <= 0 ==> Belongs(m, Inorder(t), key, Pos(t, s))
    ensures Top(s).cmp >= 0 ==> Belongs(m, Inorder(t), key, Pos(t, s) + 1)
    ensures Sub(t, s).Node? && t.Node?
    ensures Top(s).cmp < 0 || Top(s).head.previous == 0 ==> Sub(t, s).left == Leaf
    ensures Top(s).cmp > 0 ==> Top(s).head.next == 0 && Sub(t, s).right == Leaf
    ensures Top(s).head.previous == 0 <==> Beside(t, Pos(t, s)) == Pos(t, s)
    ensures var es := Records.Entries(m, chains, Inorder(t));
            && (Top(s).cmp <= 0 ==> Rank(es, key, false) == Pos(t, s))
            && (Top(s).cmp > 0 ==> Rank(es, key, false) == Pos(t, s) + 1)
            && (Found(es, key, false) <==> Top(s).cmp == 0)
            && (Top(s).cmp == 0 ==> KeyAt(m, Top(s).ptr) == key)
  {
    var w, k := Inorder(t), Pos(t, s);
    LandedRank(m, chains, t, s, key, false);
    EndIsBeside(m, t, s);
    SubShape(m, t, root, s);
    LandedBelongs(m, w, key, k, Top(s).cmp);
    CompareZero(key, KeyAt(m, Top(s).ptr));
  }

  /** Exchanges the value of a key: the old chain goes back to the free list. */
  method PutReplace(td: Td, valueptr: Word, keyptr: nat, keyhead: KeyHead, ghost k: nat)
    requires td.Sound() && Halfway(Used(td.heap), td.chains, td.tree, td.header, valueptr)
    requires k < |Inorder(td.tree)| && Inorder(td.tree)[k] == keyptr && HeadAt(Used(td.heap), keyptr, keyhead)
    modifies td`mem, td`header, td`heap, td`free, td`chains
    ensures td.Sound() && td.header.flags == old(td.header).flags && td.header.scn == old(td.header).scn
    ensures Room(td) >= old(Room(td)) && SumsKept(Used(old(td.heap)), Used(td.heap))
    ensures Consistent(Used(td.heap), td.chains, td.tree, td.header)
    ensures ContentsOf(td) ==
      old(ContentsOf(td))[k := Entry(KeyAt(Used(old(td.heap)), keyptr),
        DataOf(Used(old(td.heap)), ChainOf(old(td.chains), valueptr)))]
  {
    hide IsSound, Used, Consistent, Records.Entries, DataOf, Removed, Halfway, Chain, EntryAt, Inorder, SizesOf,
      Largest, SumsKept;
    ghost var m, u := Used(td.heap), keyhead.value;
    OldValue(m, td.chains, td.tree, td.header, valueptr, keyptr);
    YieldAll(td, keyhead.value, td.chains[u]);
    ghost var m1 := Used(td.heap);
    RemovedKey(m, m1, td.chains[u], keyptr);
    ghost var mem1, heap1 := td.mem, td.heap;
    var head := keyhead.(value := valueptr);
    td.WriteKeyhead(keyptr, head);
    SizesKept(mem1, heap1, td.free, td.header, td.mem, td.heap, td.header);
    SumsRemoved(m, m1, td.chains[u], keyptr, head);
    ConsistentReplaced(m, m1, td.chains, td.tree, old(td.header), valueptr, k, head, td.header);
    td.chains := td.chains - {u};
  }

  lemma OldValue(m: Heap, chains: map<nat, seq<nat>>, t: Tree, hd: Header, v: nat, o: nat)
    requires Halfway(m, chains, t, hd, v) && o in m && m[o].Key?
    ensures v in chains && m[o].khead.value in chains
    ensures Chain(m, m[o].khead.value, chains[m[o].khead.value]) && |chains[m[o].khead.value]| <= hd.nchunks
    ensures forall p | p in chains[m[o].khead.value] && p in m :: m[p].Chunk?
  {
    ValuedIn(m, chains, {v});
    var u := m[o].khead.value;
    ChainMembersAll(m, chains, u);
    ChunksGone(ChunksOf(m), chains[u]);
  }

  lemma RemovedKey(m: Heap, m1: Heap, chain: seq<nat>, o: nat)
    requires Removed(m, m1, chain) && o in m && m[o].Key? && forall p | p in chain && p in m :: m[p].Chunk?
    ensures o in m1 && m1[o] == m[o]
  {
  }

  lemma NothingSpent(room: nat, calls: nat, td: Td, n: nat, r: Status)
    requires Room(td) >= room && td.calls >= calls && r != Space
    ensures KeyRoom(room, calls, td, n, r)
  {
  }

  lemma UnharmedNone(m: Heap, h: Header, t: Tree)
    ensures Unharmed(m, h, t, m, h, t)
  {
  }

  /** Puts a key where the search has landed. */
  method PutAt(td: Td, path: Path, key: seq<Byte>, valueptr: Word, flags: Flags)
    returns (r: Status, ghost node: nat)
    requires td.Sound() && KEYHEAD_SIZE + |key| < WORD_LIMIT
    requires Halfway(Used(td.heap), td.chains, td.tree, td.header, valueptr)
    requires Landed(Used(td.heap), td.tree, path.stack, key, false)
    requires td.header.flags.checksum ==> flags.checksum
    modifies td`mem, td`header, td`heap, td`free, td`calls, td`tree, td`chains
    ensures r == Ok || r == Space || r == Dup
    ensures KeyRoom(old(Room(td)), old(td.calls), td, |key|, r)
    ensures r == Dup <==> Found(old(ContentsOf(td)), key, false) && !flags.duplKeys && flags.noOverwrite
    ensures td.Sound() && td.header.flags == old(td.header).flags
    ensures r != Ok ==> td.chains == old(td.chains)
    ensures r != Ok ==> Unharmed(Used(old(td.heap)), old(td.header), old(td.tree), Used(td.heap), td.header, td.tree)
    ensures r == Ok ==> Consistent(Used(td.heap), td.chains, td.tree, td.header)
    ensures r == Ok ==>
      td.header.scn ==
        if Found(old(ContentsOf(td)), key, false) && !flags.duplKeys then old(td.header).scn
        else (old(td.header).scn + 1) % WORD_LIMIT
    ensures r == Ok ==> td.tree == PutTree(old(td.tree), old(ContentsOf(td)), key, flags.duplKeys, node)
    ensures r == Ok && flags.checksum ==> SumsKept(Used(old(td.heap)), Used(td.heap))
    ensures r == Ok ==>
      PutOutcome(old(td.tree), old(ContentsOf(td)), ContentsOf(td), key,
        DataOf(Used(old(td.heap)), ChainOf(old(td.chains), valueptr)), flags.duplKeys, flags.noOverwrite)
  {
    hide IsSound, Used, Consistent, Records.Entries, DataOf, Removed, Halfway, Chain, EntryAt, Inorder, Landed,
      SumsKept, OnPath, Sub, Pos, Belongs, Rank, Inserted, Sorted, Found, Planted, Wedged, Beside, SizesOf, Largest,
      ShortGrant, KeyRoom, Unharmed, Weight, Shape, Summed;
    node := 0;
    ghost var room, calls := Room(td), td.calls;
    NothingSpent(room, calls, td, |key|, Dup);
    UnharmedNone(Used(td.heap), td.header, td.tree);
    HalfwayTree(Used(td.heap), td.chains, td.tree, td.header, valueptr);
    LandedCases(Used(td.heap), td.chains, td.tree, td.header.top, path.stack, key);
    PathTop(Used(td.heap), td.tree, path.stack);
    ghost var n := Rank(ContentsOf(td), key, false);
    var top := Top(path.stack);
    if top.cmp == 0 {
      if flags.duplKeys {
        if top.head.previous == 0 {
          r, node := AttachNode(td, path, key, valueptr, -1, 0, flags);
        } else {
          r, node := AttachNode(td, path, key, valueptr, 1, top.head.next, flags);
        }
      } else if flags.noOverwrite {
        return Dup, node;
      } else {
        PutReplace(td, valueptr, top.ptr, top.head, Pos(td.tree, path.stack));
        NothingSpent(room, calls, td, |key|, Ok);
        r := Ok;
      }
    } else if top.cmp < 0 {
      r, node := AttachNode(td, path, key, valueptr, -1, 0, flags);
    } else {
      r, node := AttachNode(td, path, key, valueptr, 1, 0, flags);
    }
  }

  /** Looks for a key in a tree that is not empty and puts it where the search ends. */
  method PutSearched(td: Td, key: seq<Byte>, valueptr: Word, flags: Flags) returns (r: Status, ghost node: nat)
    requires td.Sound() && KEYHEAD_SIZE + |key| < WORD_LIMIT && td.header.top != 0
    requires Halfway(Used(td.heap), td.chains, td.tree, td.header, valueptr)
    requires td.header.flags.checksum ==> flags.checksum
    modifies td`mem, td`header, td`heap, td`free, td`calls, td`tree, td`chains, td`maxdepth
    ensures r == Ok || r == Space || r == Dup || r == Struct || r == Invalid
    ensures Height(old(td.tree)) < TD_MAXDEPTH ==> r == Ok || r == Space || r == Dup
    ensures r == Dup ==> Found(old(ContentsOf(td)), key, false) && !flags.duplKeys && flags.noOverwrite
    ensures Found(old(ContentsOf(td)), key, false) && !flags.duplKeys && flags.noOverwrite ==> r != Ok
    ensures KeyRoom(old(Room(td)), old(td.calls), td, |key|, r)
    ensures td.Sound() && td.header.flags == old(td.header).flags
    ensures r != Ok ==> td.chains == old(td.chains)
    ensures r != Ok ==> Unharmed(Used(old(td.heap)), old(td.header), old(td.tree), Used(td.heap), td.header, td.tree)
    ensures r == Ok ==> Consistent(Used(td.heap), td.chains, td.tree, td.header)
    ensures r == Ok ==>
      td.header.scn ==
        if Found(old(ContentsOf(td)), key, false) && !flags.duplKeys then old(td.header).scn
        else (old(td.header).scn + 1) % WORD_LIMIT
    ensures r == Ok ==> td.tree == PutTree(old(td.tree), old(ContentsOf(td)), key, flags.duplKeys, node)
    ensures r == Ok && flags.checksum ==> SumsKept(Used(old(td.heap)), Used(td.heap))
    ensures r == Ok || r == Dup ==>
      td.maxdepth == DepthAfter(old(td.maxdepth), old(td.tree), old(ContentsOf(td)), key, false)
    ensures r == Ok ==>
      PutOutcome(old(td.tree), old(ContentsOf(td)), ContentsOf(td), key,
        DataOf(Used(old(td.heap)), ChainOf(old(td.chains), valueptr)), flags.duplKeys, flags.noOverwrite)
  {
    hide IsSound, Used, Consistent, Records.Entries, DataOf, Halfway, Inorder, Landed, Sorted, Found, Height,
      PutOutcome, PutTree, DepthAfter, DepthAt, SizesOf, Largest, ShortGrant, Pos, Rank, Beside, Distinct, Summed,
      Shape, SumsKept;
    node := 0;
    HalfwayTree(Used(td.heap), td.chains, td.tree, td.header, valueptr);
    TopIsRoot(Used(td.heap), td.header.top, td.tree);
    var path := new Path(td.header.top);
    r := Iterate(td, path, key, false);
    if r == Ok {
      LandedDepth(Used(td.heap), td.chains, td.tree, path.stack, key, false, old(td.maxdepth), td.maxdepth);
      r, node := PutAt(td, path, key, valueptr, flags);
    }
  }

  /** Writes the header and lets the tree be rebalanced. */
  method FinishPut(td: Td)
    requires td.Sound() && Consistent(Used(td.heap), td.chains, td.tree, td.header)
    modifies td`mem, td`heap, td`header, td`stored, td`tree, td`maxdepth
    ensures Valid(td) && td.header.flags == old(td.header).flags && td.header.scn == old(td.header).scn
    ensures ContentsOf(td) == old(ContentsOf(td)) && Room(td) == old(Room(td))
    ensures SumsKept(Used(old(td.heap)), Used(td.heap))
    ensures Settled(old(td.tree), old(td.maxdepth), td.tree, td.maxdepth)
  {
    hide IsSound, Used, Consistent, Records.Entries, Inorder, Shape, Settled, SizesOf, Largest, SumsKept;
    td.WriteHeader();
    RebalanceStore(td);
  }

  /** Gives a stored value its key. */
  method PutKey(td: Td, key: seq<Byte>, valueptr: Word, flags: Flags) returns (r: Status, ghost node: nat)
    requires td.Sound() && KEYHEAD_SIZE + |key| < WORD_LIMIT
    requires Halfway(Used(td.heap), td.chains, td.tree, td.header, valueptr)
    requires td.header.flags.checksum ==> flags.checksum
    modifies td
    ensures r == Ok ==> Valid(td) && td.header.flags == old(td.header).flags
    ensures KeyRoom(old(Room(td)), old(td.calls), td, |key|, r)
    ensures r == Ok ==>
      td.header.scn ==
        if Found(old(ContentsOf(td)), key, false) && !flags.duplKeys then old(td.header).scn
        else (old(td.header).scn + 1) % WORD_LIMIT
    ensures var t, es := old(td.tree), old(ContentsOf(td));
            var depth := DepthAfter(old(td.maxdepth), t, es, key, false);
            && (r == Ok ==> Settled(PutTree(t, es, key, flags.duplKeys, node), depth, td.tree, td.maxdepth))
            && (r == Dup ==> td.maxdepth == depth)
    ensures r == Ok && flags.checksum ==> SumsKept(Used(old(td.heap)), Used(td.heap))
    ensures r != Ok ==> td.Sound() && td.chains == old(td.chains) && td.stored == old(td.stored)
    ensures r != Ok ==> Unharmed(Used(old(td.heap)), old(td.header), old(td.tree), Used(td.heap), td.header, td.tree)
    ensures r == Ok ==>
      PutOutcome(old(td.tree), old(ContentsOf(td)), ContentsOf(td), key,
        DataOf(Used(old(td.heap)), ChainOf(old(td.chains), valueptr)), flags.duplKeys, flags.noOverwrite)
    ensures r == Ok || r == Space || r == Dup || r == Struct || r == Invalid
    ensures Height(old(td.tree)) < TD_MAXDEPTH ==> r == Ok || r == Space || r == Dup
    ensures Found(old(ContentsOf(td)), key, false) && !flags.duplKeys && flags.noOverwrite ==> r != Ok
    ensures r == Dup ==> Found(old(ContentsOf(td)), key, false) && !flags.duplKeys && flags.noOverwrite
  {
    hide IsSound, Used, Consistent, Records.Entries, DataOf, Halfway, Inorder, Found, Height, PutOutcome, PutTree,
      DepthAfter, Settled, SizesOf, Largest, ShortGrant, Rank, Distinct, Summed, Shape, SumsKept;
    HalfwayTree(Used(td.heap), td.chains, td.tree, td.header, valueptr);
    TopIsRoot(Used(td.heap), td.header.top, td.tree);
    if td.header.top == 0 {
      NoSearch(Used(td.heap), td.chains, td.tree, key, false, td.maxdepth);
      r, node := PutFirst(td, key, valueptr, flags);
      FirstOutcome(Entry(key, DataOf(Used(old(td.heap)), ChainOf(td.chains, valueptr))), flags, node);
    } else {
      r, node := PutSearched(td, key, valueptr, flags);
    }
    if r == Ok {
      ghost var m1 := Used(td.heap);
      FinishPut(td);
      if flags.checksum {
        SumsTwice(Used(old(td.heap)), m1, Used(td.heap));
      }
    }
  }

  lemma TopIsRoot(m: Heap, top: nat, t: Tree)
    requires Shape(m, top, t)
    ensures top == 0 <==> t == Leaf
  {
  }

  lemma FirstOutcome(e: Entry, flags: Flags, node: nat)
    ensures PutOutcome(Leaf, [], [e], e.key, e.value, flags.duplKeys, flags.noOverwrite) && !Found([], e.key, false)
    ensures Weight(Leaf) == 0 && PutTree(Leaf, [], e.key, flags.duplKeys, node) == Node(Leaf, node, Leaf)
  {
    NoEntriesBut(e);
    PlantedAlone(node);
  }

  // ------------------------------------------------------------ value, then key

  lemma StoredFlags(m: Heap, m': Heap, v: nat, chain: seq<nat>, flags: Flags)
    requires Stored(m, m', v, chain, 1, flags)
    ensures NoRaw(m) ==> NoRaw(m')
    ensures Single(m) ==> Single(m')
    ensures flags.checksum && Summed(m) ==> Summed(m')
  {
    ChainMembers(m', v, chain);
  }

  lemma IndexedAdded(m: Heap, m': Heap, top: nat, t: Tree)
    requires Indexed(m, top, t) && SameValues(m, m')
    requires forall o | o in m && m[o].Key? :: o in m' && m'[o] == m[o]
    ensures Indexed(m', top, t)
  {
    ShapeNodes(m, top, t);
    ShapeFrame(m, m', top, t);
  }

  lemma AddedKeeps(m: Heap, m': Heap, chain: seq<nat>)
    requires Added(m, m', chain)
    ensures forall o | o in m && m[o].Key? :: o in m' && m'[o] == m[o]
  {
  }

  /** Storing a value takes a consistent database halfway to its next state. */
  lemma ConsistentStored(m: Heap, chains: map<nat, seq<nat>>, t: Tree, hd: Header, m': Heap, hd': Header,
                         v: nat, chain: seq<nat>, flags: Flags)
    requires Consistent(m, chains, t, hd)
    requires Stored(m, m', v, chain, 1, flags) && chain != [] && (hd.flags.checksum ==> flags.checksum)
    requires SameButValues(hd, hd') && hd'.nchunks == hd.nchunks + |chain|
    ensures Halfway(m', chains[v := chain], t, hd', v) && v !in chains
    ensures Records.Entries(m', chains[v := chain], Inorder(t)) == Records.Entries(m, chains, Inorder(t))
  {
    hide Shape, Summed, Single, NoRaw, Sorted, EntryAt, Indexed, Inorder, Chain, Added, Fit;
    IndexedNodes(m, hd.top, t);
    ValueAdded(m, m', chains, v, chain);
    StoredFlags(m, m', v, chain, flags);
    AddedKeeps(m, m', chain);
    IndexedAdded(m, m', hd.top, t);
    ChunksAdded(m, m', v, chain);
    hide Valued;
    SortedSameKeys(m, m', Inorder(t));
    EntriesMoved(m, m', chains, chains[v := chain], Inorder(t));
  }

  lemma EntriesMoved(m: Heap, m': Heap, chains: map<nat, seq<nat>>, chains': map<nat, seq<nat>>, w: seq<nat>)
    requires forall i | 0 <= i < |w| :: EntryAt(m', chains', w[i]) == EntryAt(m, chains, w[i])
    ensures Records.Entries(m', chains', w) == Records.Entries(m, chains, w)
  {
  }

  /** Taking the stored value back restores the store. */
  lemma Undone(m: Heap, m1: Heap, m2: Heap, chain: seq<nat>)
    requires Added(m, m1, chain) && Removed(m1, m2, chain)
    ensures m2 == m
  {
  }

  /** Gives a stored value its key, or its chunks back if the key is refused. */
  method PutStored(td: Td, key: seq<Byte>, valueptr: Word, flags: Flags, ghost m: Heap, ghost hd: Header,
                   ghost chains: map<nat, seq<nat>>, ghost chain: seq<nat>)
    returns (r: Status, ghost node: nat)
    requires td.Sound() && KEYHEAD_SIZE + |key| < WORD_LIMIT
    requires Consistent(m, chains, td.tree, hd) && SameButValues(hd, td.header)
    requires Halfway(Used(td.heap), td.chains, td.tree, td.header, valueptr)
    requires valueptr !in chains && td.chains == chains[valueptr := chain]
    requires Added(m, Used(td.heap), chain) && Chain(Used(td.heap), valueptr, chain)
    requires td.header.nchunks == hd.nchunks + |chain|
    requires td.header.flags.checksum ==> flags.checksum
    modifies td
    ensures r == Ok || r == Space || r == Dup || r == Struct || r == Invalid
    ensures Height(old(td.tree)) < TD_MAXDEPTH ==> r == Ok || r == Space || r == Dup
    ensures Found(old(ContentsOf(td)), key, false) && !flags.duplKeys && flags.noOverwrite ==> r != Ok
    ensures r == Dup ==> Found(old(ContentsOf(td)), key, false) && !flags.duplKeys && flags.noOverwrite
    ensures KeyRoom(old(Room(td)), old(td.calls), td, |key|, r)
    ensures r == Ok ==> Valid(td) && td.header.flags == old(td.header).flags
    ensures r == Ok ==>
      td.header.scn ==
        if Found(old(ContentsOf(td)), key, false) && !flags.duplKeys then old(td.header).scn
        else (old(td.header).scn + 1) % WORD_LIMIT
    ensures var t, es := old(td.tree), old(ContentsOf(td));
            var depth := DepthAfter(old(td.maxdepth), t, es, key, false);
            && (r == Ok ==> Settled(PutTree(t, es, key, flags.duplKeys, node), depth, td.tree, td.maxdepth))
            && (r == Dup ==> td.maxdepth == depth)
    ensures r == Ok ==>
      PutOutcome(old(td.tree), old(ContentsOf(td)), ContentsOf(td), key, DataOf(Used(old(td.heap)), chain),
        flags.duplKeys, flags.noOverwrite)
    ensures r == Ok && flags.checksum ==> SumsKept(Used(old(td.heap)), Used(td.heap))
    ensures r != Ok ==>
      && td.Sound() && Used(td.heap) == m && td.chains == chains && td.tree == old(td.tree)
      && td.stored == old(td.stored) && td.header.nchunks == hd.nchunks
      && Consistent(m, chains, td.tree, td.header)
  {
    hide IsSound, Used, Consistent, Records.Entries, DataOf, Halfway, Inorder, Height, PutOutcome, Found, Removed,
      Chain, Unharmed, Added, SizesOf, Largest, ShortBy, PutTree, DepthAfter, Settled, SumsKept;
    ghost var m1, hd1, t := Used(td.heap), td.header, td.tree;
    r, node := PutKey(td, key, valueptr, flags);
    if r != Ok {
      UnharmedIs(m1, hd1, t, Used(td.heap), td.header, td.tree);
      YieldAll(td, valueptr, chain);
      Undone(m, m1, Used(td.heap), chain);
      td.chains := td.chains - {valueptr};
      assert td.chains == chains;
      ConsistentAgain(m, chains, t, hd, td.header);
    }
  }

  /** Stores a value that is going to get a key. */
  method PutValue(td: Td, segs: seq<seq<Byte>>, flags: Flags) returns (r: Status, valueptr: Word, ghost chain: seq<nat>)
    requires td.Sound() && Consistent(Used(td.heap), td.chains, td.tree, td.header)
    requires |Vectors.Concat(segs)| + CHUNKHEAD_SIZE < WORD_LIMIT && (td.header.flags.checksum ==> flags.checksum)
    modifies td`mem, td`header, td`heap, td`free, td`calls, td`chains
    ensures r == Ok || r == Space || r == Invalid
    ensures r == Invalid <==> segs == []
    ensures td.calls >= old(td.calls)
    ensures old(Room(td)) >= |Vectors.Concat(segs)| + 2 * CHUNKHEAD_SIZE ==>
              r != Space && Room(td) >= old(Room(td)) - |Vectors.Concat(segs)| - CHUNKHEAD_SIZE
    ensures r == Space && td.extendable ==>
              td.calls > old(td.calls) && ShortGrant(td, |Vectors.Concat(segs)| + 2 * CHUNKHEAD_SIZE)
    ensures td.Sound() && SameButValues(old(td.header), td.header)
    ensures td.header.nchunks == old(td.header).nchunks + |chain| && (r == Invalid ==> chain == [])
    ensures Added(Used(old(td.heap)), Used(td.heap), chain) && ContentsOf(td) == old(ContentsOf(td))
    ensures r == Ok ==>
      && Halfway(Used(td.heap), td.chains, td.tree, td.header, valueptr) && Chain(Used(td.heap), valueptr, chain)
      && valueptr !in old(td.chains) && td.chains == old(td.chains)[valueptr := chain]
      && (Vectors.Copyable(segs) ==> DataOf(Used(td.heap), chain) == Vectors.Concat(segs))
    ensures r == Ok && flags.checksum ==> SumsKept(Used(old(td.heap)), Used(td.heap))
    ensures r != Ok ==> td.chains == old(td.chains)
    ensures r != Ok && chain == [] ==> Consistent(Used(td.heap), td.chains, td.tree, td.header)
  {
    hide IsSound, Used, Consistent, Records.Entries, DataOf, Halfway, Inorder, Stored, Vectors.Copyable,
      Vectors.Concat, Chain, Added, SizesOf, Largest, ShortGrant, SumsKept;
    ghost var m, chains, t, hd := Used(td.heap), td.chains, td.tree, td.header;
    r, valueptr, chain := StoreValue(td, segs, 1, flags);
    LeakKeeps(m, chains, t, hd, Used(td.heap), td.header, valueptr, chain, flags);
    if r == Ok {
      ConsistentStored(m, chains, t, hd, Used(td.heap), td.header, valueptr, chain, flags);
      td.chains := td.chains[valueptr := chain];
      StoredChain(m, Used(td.heap), valueptr, chain, flags);
    }
  }

  /** A put, with the flags of the call and of the store taken together. */
  method PutLockedKey(td: Td, key: seq<Byte>, segs: seq<seq<Byte>>, flags: Flags)
    returns (r: Status, ghost leaked: seq<nat>, ghost node: nat)
    requires Valid(td) && (td.header.flags.checksum ==> flags.checksum)
    requires KEYHEAD_SIZE + |key| < WORD_LIMIT && |Vectors.Concat(segs)| + CHUNKHEAD_SIZE < WORD_LIMIT
    modifies td
    ensures r == Ok || r == Space || r == Dup || r == Struct || r == Invalid
    ensures r == Ok ==> Valid(td) && td.header.flags == old(td.header).flags
    ensures r == Ok ==>
      td.header.scn ==
        if Found(old(ContentsOf(td)), key, false) && !flags.duplKeys then old(td.header).scn
        else (old(td.header).scn + 1) % WORD_LIMIT
    ensures r == Ok && Vectors.Copyable(segs) ==>
      PutOutcome(old(td.tree), old(ContentsOf(td)), ContentsOf(td), key, Vectors.Concat(segs), flags.duplKeys,
        flags.noOverwrite)
    ensures var t, es := old(td.tree), old(ContentsOf(td));
            var depth := DepthAfter(old(td.maxdepth), t, es, key, false);
            && (r == Ok ==> Settled(PutTree(t, es, key, flags.duplKeys, node), depth, td.tree, td.maxdepth))
            && (r != Ok ==> td.tree == t)
            && (r == Dup ==> td.maxdepth == depth)
    ensures td.calls >= old(td.calls)
    ensures old(Room(td)) >= |key| + |Vectors.Concat(segs)| + 56 ==>
              r != Space && Room(td) >= old(Room(td)) - |key| - |Vectors.Concat(segs)| - 40
    ensures r == Space && td.extendable ==>
              td.calls > old(td.calls) && ShortGrant(td, |key| + |Vectors.Concat(segs)| + 40)
    ensures r == Dup || r == Struct ==> Consistent(Used(td.heap), td.chains, td.tree, td.header)
    ensures r != Ok ==> td.Sound() && ContentsOf(td) == old(ContentsOf(td)) && td.stored == old(td.stored)
    ensures r != Ok ==>
      Added(Used(old(td.heap)), Used(td.heap), leaked) && td.header.nchunks == old(td.header).nchunks + |leaked|
    ensures leaked != [] ==> r == Space
    ensures r != Ok && leaked == [] ==> Consistent(Used(td.heap), td.chains, td.tree, td.header)
    ensures r == Ok && flags.checksum ==>
      forall o | o in Used(td.heap) && o !in Used(old(td.heap)) :: SummedAt(Used(td.heap)[o])
    ensures var refused := Found(old(ContentsOf(td)), key, false) && !flags.duplKeys && flags.noOverwrite;
            (r == Dup ==> refused) && (r == Ok ==> !refused)
    ensures Height(old(td.tree)) < TD_MAXDEPTH && segs != [] ==> r == Ok || r == Space || r == Dup
  {
    hide IsSound, Used, Consistent, Records.Entries, DataOf, Halfway, Inorder, Height, PutOutcome, Found, Stored,
      Vectors.Copyable, Vectors.Concat, Removed, Chain, Unharmed, Added, SizesOf, Largest, ShortGrant, KeyRoom,
      PutTree, DepthAfter, Settled, Weight, Rank, SumsKept, SummedAt;
    leaked, node := [], 0;
    ghost var m, chains, t, hd := Used(td.heap), td.chains, td.tree, td.header;
    td.ReadHeader();
    var valueptr;
    ghost var chain;
    r, valueptr, chain := PutValue(td, segs, flags);
    if r != Ok {
      if r == Space && td.extendable {
        ShorterGrant(td, |Vectors.Concat(segs)| + 2 * CHUNKHEAD_SIZE, |key| + |Vectors.Concat(segs)| + 40);
      }
      leaked := chain;
      return;
    }
    NoneAdded(m);
    ghost var room, calls, m1 := Room(td), td.calls, Used(td.heap);
    r, node := PutStored(td, key, valueptr, flags, m, hd, chains, chain);
    if r == Ok && flags.checksum {
      SumsTwice(m, m1, Used(td.heap));
      NewSums(m, Used(td.heap));
    }
    PutCosts(td, old(Room(td)), old(td.calls), room, calls, |key|, |Vectors.Concat(segs)|, r);
  }

  /** What the value and the key cost together. */
  lemma PutCosts(td: Td, room: nat, calls: nat, room1: nat, calls1: nat, k: nat, n: nat, r: Status)
    requires KeyRoom(room1, calls1, td, k, r) && calls1 >= calls
    requires room >= n + 2 * CHUNKHEAD_SIZE ==> room1 >= room - n - CHUNKHEAD_SIZE
    ensures td.calls >= calls
    ensures room >= k + n + 56 ==> r != Space && Room(td) >= room - k - n - 40
    ensures r == Space && td.extendable ==> td.calls > calls && ShortGrant(td, k + n + 40)
  {
    if r == Space && td.extendable {
      ShorterGrant(td, KEYHEAD_SIZE + k + CHUNKHEAD_SIZE, k + n + 40);
    }
  }

  /**
   * Puts a value under a key: the value is stored first and given back if the key is refused. A value in
   * several segments has to be copyable to become what was handed in. If space runs out while it is stored,
   * the chunks filled so far are lost: they stay in use and belong to no key.
   */
  method Put(td: Td, key: seq<Byte>, segs: seq<seq<Byte>>, callFlags: Flags)
    returns (r: Status, ghost leaked: seq<nat>, ghost node: nat)
    requires Valid(td)
    requires KEYHEAD_SIZE + |key| < WORD_LIMIT && |Vectors.Concat(segs)| + CHUNKHEAD_SIZE < WORD_LIMIT
    modifies td
    ensures r == Ok ==> Valid(td) && td.header.flags == old(td.header).flags
    ensures r == Ok ==>
      td.header.scn ==
        if Found(old(ContentsOf(td)), key, false) && !callFlags.duplKeys && !old(td.header).flags.duplKeys then
          old(td.header).scn
        else (old(td.header).scn + 1) % WORD_LIMIT
    ensures r == Ok && Vectors.Copyable(segs) ==>
      PutOutcome(old(td.tree), old(ContentsOf(td)), ContentsOf(td), key, Vectors.Concat(segs),
        callFlags.duplKeys || old(td.header).flags.duplKeys, callFlags.noOverwrite || old(td.header).flags.noOverwrite)
    ensures var t, es := old(td.tree), old(ContentsOf(td));
            var t', depth := PutTree(t, es, key, callFlags.duplKeys || old(td.header).flags.duplKeys, node),
                             DepthAfter(old(td.maxdepth), t, es, key, false);
            && (r == Ok ==> Settled(t', depth, td.tree, td.maxdepth))
            && (r != Ok ==> td.tree == t)
            && (r == Dup ==> td.maxdepth == depth)
    ensures td.calls >= old(td.calls)
    ensures old(Room(td)) >= |key| + |Vectors.Concat(segs)| + 56 ==>
              r != Space && Room(td) >= old(Room(td)) - |key| - |Vectors.Concat(segs)| - 40
    ensures r == Space && td.extendable ==>
              td.calls > old(td.calls) && ShortGrant(td, |key| + |Vectors.Concat(segs)| + 40)
    ensures r == Dup || r == Struct ==>
      td.Sound() && Consistent(Used(td.heap), td.chains, td.tree, td.header) && ContentsOf(td) == old(ContentsOf(td))
    ensures r != Ok ==> td.Sound() && ContentsOf(td) == old(ContentsOf(td)) && td.stored == old(td.stored)
    ensures r != Ok ==>
      Added(Used(old(td.heap)), Used(td.heap), leaked) && td.header.nchunks == old(td.header).nchunks + |leaked|
    ensures leaked != [] ==> r == Space
    ensures r != Ok && leaked == [] ==> Consistent(Used(td.heap), td.chains, td.tree, td.header)
    ensures r == Ok || r == Space || r == Dup || r == Struct || r == Invalid
    ensures r == Ok && (callFlags.checksum || old(td.header).flags.checksum) ==>
      forall o | o in Used(td.heap) && o !in Used(old(td.heap)) :: SummedAt(Used(td.heap)[o])
    ensures var hd := old(td.header);
            var refused :=
              && Found(old(ContentsOf(td)), key, false)
              && !callFlags.duplKeys && !hd.flags.duplKeys && (callFlags.noOverwrite || hd.flags.noOverwrite);
            (r == Dup ==> refused) && (r == Ok ==> !refused)
    ensures Height(old(td.tree)) < TD_MAXDEPTH && segs != [] ==> r == Ok || r == Space || r == Dup
  {
    hide Valid, ContentsOf, Consistent, IsSound, Height, PutOutcome, Found, Vectors.Copyable, Vectors.Concat, Added,
      Room, ShortGrant, PutTree, DepthAfter, Settled, Used, Weight, SummedAt;
    r, leaked, node := PutLockedKey(td, key, segs, callFlags.Or(td.header.flags));
  }

  lemma NoneAdded(m: Heap)
    ensures Added(m, m, []) && forall m' | Added(m, m', []) :: m' == m
  {
  }

  /** Chunks of a value that was not finished change no entry; if there are none, nothing has changed. */
  lemma LeakKeeps(m: Heap, chains: map<nat, seq<nat>>, t: Tree, hd: Header, m': Heap, hd': Header,
                  v: nat, chain: seq<nat>, flags: Flags)
    requires Consistent(m, chains, t, hd) && Stored(m, m', v, chain, 1, flags)
    requires SameButValues(hd, hd') && hd'.nchunks == hd.nchunks + |chain|
    ensures Added(m, m', chain)
    ensures Records.Entries(m', chains, Inorder(t)) == Records.Entries(m, chains, Inorder(t))
    ensures chain == [] ==> Consistent(m', chains, t, hd')
  {
    hide Consistent, Inorder, Chain, Fit, Chained, Records.Entries;
    if chain == [] {
      NoneAdded(m);
      ConsistentAgain(m, chains, t, hd, hd');
    } else {
      ConsistentParts(m, chains, t, hd);
      ChainedAdd(m, m', chains, v, chain);
      AddedKeeps(m, m', chain);
      EntriesKept(m, m', chains, chains, {});
      EntriesMoved(m, m', chains, chains, Inorder(t));
    }
  }

  lemma ConsistentParts(m: Heap, chains: map<nat, seq<nat>>, t: Tree, hd: Header)
    requires Consistent(m, chains, t, hd)
    ensures Chained(m, chains) && ValuesIn(m, chains)
    ensures forall i | 0 <= i < |Inorder(t)| :: Inorder(t)[i] in m && m[Inorder(t)[i]].Key?
  {
    ValuedIn(m, chains, {});
    IndexedNodes(m, hd.top, t);
  }

  lemma UnharmedIs(m: Heap, h: Header, t: Tree, m': Heap, h': Header, t': Tree)
    requires Unharmed(m, h, t, m', h', t')
    ensures m' == m && t' == t && SameButAlloc(h, h')
  {
  }

  lemma StoredChain(m: Heap, m1: Heap, v: nat, chain: seq<nat>, flags: Flags)
    requires Stored(m, m1, v, chain, 1, flags)
    ensures Chain(m1, v, chain)
    ensures flags.checksum ==> SumsKept(m, m1)
  {
    ChainMembers(m1, v, chain);
  }

  lemma NewSums(m: Heap, m': Heap)
    requires SumsKept(m, m')
    ensures forall o | o in m' && o !in m :: SummedAt(m'[o])
  {
  }
}
